/**
 The group names the client sends, and which of them the group server accepts: an MLS group id
 travels as base64 text, a welcome under the server's own Nym address.
 */
module GroupIds {
  import opened Base64
  import opened Sequences
  import opened Validation
  import opened GroupSpec
  import opened GroupDelivery
  import CommitBuffer

  // ----- Group ids as base64 text -----

  /** The ids whose text consists of name characters and is not too long. */
  predicate Sendable(id: Bytes) {
    && 1 <= |id| <= 96
    && |id| % 3 == 0
    && '+' !in Encode(id) && '/' !in Encode(id)
  }

  lemma NameOrMark(c: char)
    requires c == '=' || ValueOf(c).Some?
    ensures NameChar(c) <==> c != '=' && c != '+' && c != '/'
  {
  }

  lemma AllNameChars(id: Bytes)
    ensures (forall k :: 0 <= k < |Encode(id)| ==> NameChar(Encode(id)[k]))
       <==> '=' !in Encode(id) && '+' !in Encode(id) && '/' !in Encode(id)
  {
    var text := Encode(id);
    EncodedShape(id);
    forall k | 0 <= k < |text| ensures NameChar(text[k]) <==> text[k] != '=' && text[k] != '+' && text[k] != '/' {
      assert text[k] in text;
      NameOrMark(text[k]);
    }
  }

  /** The server's check of a group name, on the text the client sends for an id. */
  lemma ValidIff(id: Bytes)
    ensures ValidGroupId(Encode(id)) <==> Sendable(id)
  {
    EncodedShape(id);
    AllNameChars(id);
  }

  /** A sync or a commit for any other id is refused in every state. */
  lemma RefusedUnlessSendable(env: Env, s: State, i: Input, id: Bytes)
    requires !Sendable(id)
    requires (i.request.SyncEpoch? || i.request.BufferCommit?) && i.request.groupName == Some(Encode(id))
    ensures !SyncOk(env, s, i) && !BufferOk(env, s, i)
  {
    ValidIff(id);
  }

  // ----- Commits, over whole runs -----

  ghost predicate EntriesNamed(entries: seq<CommitBuffer.Entry>) {
    forall e :: e in entries ==> ValidGroupId(e.group)
  }

  lemma {:induction false} EntriesNamedAlways(env: Env, run: Run)
    ensures EntriesNamed(EntriesIn(env, run))
  {
    if run != [] {
      EntriesNamedAlways(env, run[..|run| - 1]);
    }
  }

  lemma {:induction false} NoEntryNoLog(entries: seq<CommitBuffer.Entry>, group: string)
    requires forall e :: e in entries ==> e.group != group
    ensures CommitBuffer.GroupLog(entries, group) == []
  {
    if entries != [] {
      NoEntryNoLog(entries[..|entries| - 1], group);
      CommitBuffer.GroupLogGrows(entries, group);
    }
  }

  /** Under a name the server refuses nothing is ever buffered, in any run. */
  lemma NothingBuffered(env: Env, run: Run, group: string)
    requires !ValidGroupId(group)
    ensures CommitBuffer.GroupLog(EntriesIn(env, run), group) == []
  {
    EntriesNamedAlways(env, run);
    NoEntryNoLog(EntriesIn(env, run), group);
  }

  // ----- Welcomes, over whole runs -----

  ghost predicate WelcomesNamed(welcomes: seq<Welcome>) {
    forall w :: w in welcomes ==> ValidGroupId(w.group)
  }

  lemma {:induction false} StoredNamed(env: Env, run: Run)
    ensures WelcomesNamed(StoredIn(env, run))
  {
    if run != [] {
      StoredNamed(env, run[..|run| - 1]);
    }
  }

  /** What is pending or was returned was once stored. */
  lemma OnceStored(env: Env, run: Run, w: Welcome)
    requires w in After(env, run).mail.rows || w in ReturnedIn(env, run)
    ensures w in StoredIn(env, run)
  {
    WelcomesConserved(env, run);
    assert w in multiset(StoredIn(env, run));
  }

  /** A group name with a character outside the allowed ones is never stored, pending or returned. */
  lemma BadNameNeverStored(env: Env, run: Run, group: string, k: nat, w: Welcome)
    requires k < |group| && !NameChar(group[k])
    requires w in StoredIn(env, run) || w in After(env, run).mail.rows || w in ReturnedIn(env, run)
    ensures w.group != group
  {
    StoredNamed(env, run);
    if w !in StoredIn(env, run) {
      OnceStored(env, run, w);
    }
  }

  /** The text of a Nym recipient: its identity and encryption keys and its gateway. */
  function NymAddress(identity: string, encryption: string, gateway: string): string {
    identity + "." + encryption + "@" + gateway
  }

  lemma AddressInvalid(identity: string, encryption: string, gateway: string)
    ensures !ValidGroupId(NymAddress(identity, encryption, gateway))
  {
    assert NymAddress(identity, encryption, gateway)[|identity|] == '.';
  }

  /** Every welcome is offered as the client offers it, under the server's address. */
  ghost predicate WelcomesByAddress(run: Run, identity: string, encryption: string, gateway: string) {
    forall i :: i in run && i.request.StoreWelcome?
      ==> i.request.groupName == Some(NymAddress(identity, encryption, gateway))
  }

  lemma {:induction false} NoneStored(env: Env, run: Run, identity: string, encryption: string, gateway: string)
    requires WelcomesByAddress(run, identity, encryption, gateway)
    ensures StoredIn(env, run) == []
  {
    if run != [] {
      assert run[|run| - 1] in run;
      NoneStored(env, run[..|run| - 1], identity, encryption, gateway);
      AddressInvalid(identity, encryption, gateway);
    }
  }

  /** So among clients as written, no welcome is ever stored, let alone returned to anyone. */
  lemma NoWelcomeArrives(env: Env, run: Run, identity: string, encryption: string, gateway: string)
    requires WelcomesByAddress(run, identity, encryption, gateway)
    ensures StoredIn(env, run) == [] && After(env, run).mail.rows == [] && ReturnedIn(env, run) == []
  {
    NoneStored(env, run, identity, encryption, gateway);
    if After(env, run).mail.rows != [] {
      OnceStored(env, run, After(env, run).mail.rows[0]);
    }
    if ReturnedIn(env, run) != [] {
      OnceStored(env, run, ReturnedIn(env, run)[0]);
    }
  }
}
