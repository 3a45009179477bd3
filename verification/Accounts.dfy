/** Where accounts come from and who sets their reply tags, over whole runs of the discovery server. */
module Accounts {
  import opened Sequences
  import opened Validation
  import opened DiscoverySpec
  import Limiter = RateLimiter

  // ----- What one message does to accounts and challenges -----

  datatype Move =
    | Keep
    | Forget
    | Retag(username: string, tag: Tag)
    | Issue(tag: Tag, challenge: Challenge)
    | IssueLogin(tag: Tag, challenge: Challenge)
    | Redeem(tag: Tag, creates: bool)
    | RedeemLogin(tag: Tag, succeeds: bool)

  function MoveOf(env: Env, s: State, i: Input): Move {
    match i.request
    case Restart => Forget
    case Ping(tag, name, _, _) => if PingOk(env, s, i) then Retag(name, tag) else Keep
    case LegacySend(tag, content, _) =>
      if LegacySendOk(env, s, i) then Retag(content.value.sender.value, tag) else Keep
    case Register(tag, name, key) =>
      if RegisterOk(s, i) then Issue(tag, Challenge(name.value, key.value, s.nextNonce, i.instant)) else Keep
    case Login(tag, name) =>
      if LoginOk(s, i)
      then IssueLogin(tag, Challenge(name.value, s.users[name.value].publicKey, s.nextNonce, i.instant))
      else Keep
    case RegistrationResponse(tag, signature) =>
      if signature.None? || tag !in s.pendingUsers then Keep
      else
        var c := s.pendingUsers[tag];
        Redeem(tag, env.verify(c.publicKey, Nonce(c.nonce), signature.value) && c.username !in s.users)
    case LoginResponse(tag, signature) =>
      if signature.None? || tag !in s.logins then Keep
      else
        var c := s.logins[tag];
        RedeemLogin(tag, env.verify(c.publicKey, Nonce(c.nonce), signature.value) && c.username in s.users)
    case _ => Keep
  }

  ghost predicate Same(s: State, t: State) {
    t.users == s.users && t.pendingUsers == s.pendingUsers && t.logins == s.logins && t.nextNonce == s.nextNonce
  }

  ghost predicate Moved(s: State, move: Move, t: State) {
    match move
    case Keep => Same(s, t)
    case Forget => Same(s.(pendingUsers := map[], logins := map[]), t)
    case Retag(name, tag) =>
      && name in s.users && Same(WithTag(s, name, tag), t)
    case Issue(tag, c) =>
      Same(s.(pendingUsers := s.pendingUsers[tag := c], nextNonce := s.nextNonce + 1), t)
    case IssueLogin(tag, c) =>
      Same(s.(logins := s.logins[tag := c], nextNonce := s.nextNonce + 1), t)
    case Redeem(tag, creates) =>
      && tag in s.pendingUsers
      && var c := s.pendingUsers[tag];
         Same(s.(pendingUsers := s.pendingUsers - {tag},
                 users := if creates then s.users[c.username := User(c.publicKey, tag)] else s.users), t)
    case RedeemLogin(tag, succeeds) =>
      && tag in s.logins
      && (succeeds ==> s.logins[tag].username in s.users)
      && var r := s.(logins := s.logins - {tag});
         Same(if succeeds then WithTag(r, s.logins[tag].username, tag) else r, t)
  }

  lemma RegisterMoves(env: Env, s: State, i: Input)
    requires i.request.Register?
    ensures Moved(s, MoveOf(env, s, i), Handle(env, s, i))
  {
  }

  lemma LoginMoves(env: Env, s: State, i: Input)
    requires i.request.Login?
    ensures Moved(s, MoveOf(env, s, i), Handle(env, s, i))
  {
  }

  lemma ResponseMoves(env: Env, s: State, i: Input)
    requires i.request.RegistrationResponse? || i.request.LoginResponse?
    ensures Moved(s, MoveOf(env, s, i), Handle(env, s, i))
  {
  }

  lemma PingMoves(env: Env, s: State, i: Input)
    requires i.request.Ping?
    ensures Moved(s, MoveOf(env, s, i), Handle(env, s, i))
  {
  }

  lemma LegacyMoves(env: Env, s: State, i: Input)
    requires i.request.LegacySend?
    ensures Moved(s, MoveOf(env, s, i), Handle(env, s, i))
  {
  }

  lemma RelayMoves(env: Env, s: State, i: Input)
    requires i.request.Send? || i.request.SealedSend? || i.request.Forward?
    ensures Moved(s, MoveOf(env, s, i), Handle(env, s, i))
  {
    RelayStepKeeps(env, s, i);
  }

  lemma RelayStepKeeps(env: Env, s: State, i: Input)
    requires i.request.Send? || i.request.SealedSend? || i.request.Forward?
    ensures Same(s, RelayStep(env, s, i))
  {
    var t := if i.request.Forward? then s else CountSend(s, i.request.tag, i.instant);
    if Accepted(env, s, i).Some? {
      RelayKeeps(t, EnvelopeOf(i.request), Accepted(env, s, i).value, i.surbs, i.unix);
    }
  }

  lemma RelayKeeps(s: State, envelope: Envelope, m: Message, surbs: bool, unix: int)
    ensures Same(s, Relay(s, envelope, m, surbs, unix))
  {
  }

  lemma QueueMoves(env: Env, s: State, i: Input)
    requires i.request.Ack? || i.request.FetchPending? || i.request.KeyPackagesMissing? || i.request.Other?
             || i.request.Restart?
    ensures Moved(s, MoveOf(env, s, i), Handle(env, s, i))
  {
  }

  lemma Moves(env: Env, s: State, i: Input)
    ensures Moved(s, MoveOf(env, s, i), Handle(env, s, i))
  {
    match i.request
    case Register(_, _, _) => RegisterMoves(env, s, i);
    case Login(_, _) => LoginMoves(env, s, i);
    case RegistrationResponse(_, _) => ResponseMoves(env, s, i);
    case LoginResponse(_, _) => ResponseMoves(env, s, i);
    case Ping(_, _, _, _) => PingMoves(env, s, i);
    case LegacySend(_, _, _) => LegacyMoves(env, s, i);
    case Send(_, _, _, _, _, _) => RelayMoves(env, s, i);
    case SealedSend(_, _, _) => RelayMoves(env, s, i);
    case Forward(_, _, _, _) => RelayMoves(env, s, i);
    case _ => QueueMoves(env, s, i);
  }

  // ----- Public keys never change -----

  ghost predicate KeepsKeys(s: State, t: State) {
    forall name :: name in s.users ==> name in t.users && t.users[name].publicKey == s.users[name].publicKey
  }

  lemma KeysKept(s: State, move: Move, t: State)
    requires Moved(s, move, t)
    requires move.Redeem? && move.creates && move.tag in s.pendingUsers
         ==> s.pendingUsers[move.tag].username !in s.users
    ensures KeepsKeys(s, t)
  {
  }

  lemma MoveKeepsKeys(env: Env, s: State, i: Input, t: State)
    requires Moved(s, MoveOf(env, s, i), t)
    ensures KeepsKeys(s, t)
  {
    KeysKept(s, MoveOf(env, s, i), t);
  }

  /** Once registered, a name stays registered under the same public key. */
  lemma {:induction false} KeyNeverChanges(env: Env, run: Run, k: nat)
    requires k <= |run|
    ensures KeepsKeys(After(env, run[..k]), After(env, run))
  {
    if k == |run| {
      assert run[..k] == run;
    } else {
      var prefix := run[..|run| - 1];
      KeyNeverChanges(env, prefix, k);
      assert prefix[..k] == run[..k];
      Moves(env, Seen(env, run), run[|run| - 1]);
      MoveKeepsKeys(env, Seen(env, run), run[|run| - 1], After(env, run));
    }
  }

  /** The message at position j creates the account. */
  ghost predicate Creates(env: Env, run: Run, j: nat, name: string)
    requires j < |run|
  {
    name !in After(env, run[..j]).users && name in After(env, run[..j + 1]).users
  }

  /** Of several registrations for one name at most one ever succeeds. */
  lemma CreatedOnce(env: Env, run: Run, j: nat, k: nat, name: string)
    requires j < k < |run|
    requires Creates(env, run, j, name)
    ensures !Creates(env, run, k, name)
  {
    KeyNeverChanges(env, run[..k], j + 1);
    assert run[..k][..j + 1] == run[..j + 1];
  }

  // ----- Challenges -----

  /** The challenge waiting at a tag was issued by message i, which asked for it from that tag. */
  ghost predicate IssuedBy(env: Env, run: Run, i: nat, tag: Tag, c: Challenge) {
    && i < |run|
    && run[i].request == Register(tag, Some(c.username), Some(c.publicKey))
    && ValidUsername(c.username) && c.username !in After(env, run[..i]).users
    && Limiter.Room(After(env, run[..i]).auth, tag, run[i].instant, 10)
    && c.nonce == After(env, run[..i]).nextNonce
    && c.createdAt == run[i].instant
  }

  lemma IssuedExtends(env: Env, run: Run, i: nat, tag: Tag, c: Challenge)
    requires run != [] && IssuedBy(env, run[..|run| - 1], i, tag, c)
    ensures IssuedBy(env, run, i, tag, c)
  {
    assert run[..|run| - 1][..i] == run[..i];
  }

  lemma MovePending(env: Env, s: State, i: Input, t: State, tag: Tag)
    requires Moved(s, MoveOf(env, s, i), t) && tag in t.pendingUsers
    ensures || (tag in s.pendingUsers && t.pendingUsers[tag] == s.pendingUsers[tag])
            || MoveOf(env, s, i) == Issue(tag, t.pendingUsers[tag])
  {
  }

  lemma {:induction false} PendingWasIssued(env: Env, run: Run, tag: Tag)
    requires tag in After(env, run).pendingUsers
    ensures exists i :: IssuedBy(env, run, i, tag, After(env, run).pendingUsers[tag])
  {
    var prefix, last, s := run[..|run| - 1], run[|run| - 1], Seen(env, run);
    var c := After(env, run).pendingUsers[tag];
    Moves(env, s, last);
    MovePending(env, s, last, After(env, run), tag);
    Limiter.AllowsInNumbers(10, After(env, prefix).auth, tag, last.instant);
    if MoveOf(env, s, last) == Issue(tag, c) {
      assert IssuedBy(env, run, |run| - 1, tag, c);
    } else {
      PendingWasIssued(env, prefix, tag);
      var i :| IssuedBy(env, prefix, i, tag, c);
      IssuedExtends(env, run, i, tag, c);
    }
  }

  // ----- Registration provenance -----

  /**
   Account `name` was created by message j, a response from the tag that message i had asked
   from; message i was handed the nonce for that name and key, less than 300 s before, and the
   response's signature over that nonce is valid under that key.
   */
  ghost predicate RegisteredBy(env: Env, run: Run, i: nat, j: nat, name: string, key: string) {
    && i < j < |run|
    && run[j].request.RegistrationResponse? && run[j].request.signature.Some?
    && var tag, nonce := run[j].request.tag, After(env, run[..i]).nextNonce;
       && IssuedBy(env, run, i, tag, Challenge(name, key, nonce, run[i].instant))
       && env.verify(key, Nonce(nonce), run[j].request.signature.value)
       && run[j].instant - run[i].instant < 300_000
       && Creates(env, run, j, name)
       && After(env, run[..j + 1]).users[name] == User(key, tag)
  }

  lemma RegisteredExtends(env: Env, run: Run, i: nat, j: nat, name: string, key: string)
    requires run != [] && RegisteredBy(env, run[..|run| - 1], i, j, name, key)
    ensures RegisteredBy(env, run, i, j, name, key)
  {
    var prefix := run[..|run| - 1];
    assert prefix[..i] == run[..i] && prefix[..j] == run[..j] && prefix[..j + 1] == run[..j + 1];
    IssuedExtends(env, run, i, run[j].request.tag,
                  Challenge(name, key, After(env, run[..i]).nextNonce, run[i].instant));
  }

  lemma UsersFrom(s: State, move: Move, t: State, name: string)
    requires Moved(s, move, t) && name in t.users && name !in s.users
    ensures move.Redeem? && move.creates && move.tag in s.pendingUsers
    ensures var c := s.pendingUsers[move.tag]; c.username == name && t.users[name] == User(c.publicKey, move.tag)
  {
  }

  lemma MoveUsers(env: Env, s: State, i: Input, t: State, name: string)
    requires Moved(s, MoveOf(env, s, i), t) && name in t.users
    ensures || (name in s.users && t.users[name].publicKey == s.users[name].publicKey)
            || (&& name !in s.users
                && i.request.RegistrationResponse? && i.request.signature.Some?
                && i.request.tag in s.pendingUsers
                && var c := s.pendingUsers[i.request.tag];
                   && c.username == name && t.users[name] == User(c.publicKey, i.request.tag)
                   && env.verify(c.publicKey, Nonce(c.nonce), i.request.signature.value))
  {
    if name in s.users {
      MoveKeepsKeys(env, s, i, t);
    } else {
      UsersFrom(s, MoveOf(env, s, i), t, name);
    }
  }

  /** Every account of every run has such a history. */
  lemma {:induction false} RegistrationProvenance(env: Env, run: Run, name: string)
    requires name in After(env, run).users
    ensures exists i, j :: RegisteredBy(env, run, i, j, name, After(env, run).users[name].publicKey)
  {
    var prefix, last, s, t := run[..|run| - 1], run[|run| - 1], Seen(env, run), After(env, run);
    var key := t.users[name].publicKey;
    Moves(env, s, last);
    MoveUsers(env, s, last, t, name);
    if name in s.users {
      RegistrationProvenance(env, prefix, name);
      var i, j :| RegisteredBy(env, prefix, i, j, name, key);
      RegisteredExtends(env, run, i, j, name, key);
    } else {
      var tag := last.request.tag;
      var c := After(env, prefix).pendingUsers[tag];
      PendingWasIssued(env, prefix, tag);
      var i :| IssuedBy(env, prefix, i, tag, c);
      IssuedExtends(env, run, i, tag, c);
      assert run[..|run|] == run;
      assert RegisteredBy(env, run, i, |run| - 1, name, key);
    }
  }

  // ----- Nonces are used once -----

  /** Some pending registration or login waits for this nonce. */
  ghost predicate Waiting(s: State, nonce: nat) {
    || (exists tag :: tag in s.pendingUsers && s.pendingUsers[tag].nonce == nonce)
    || (exists tag :: tag in s.logins && s.logins[tag].nonce == nonce)
  }

  /** Nonces were issued, and no two challenges share one. */
  ghost predicate NoncesDistinct(s: State) {
    && (forall a :: a in s.pendingUsers ==> s.pendingUsers[a].nonce < s.nextNonce)
    && (forall a :: a in s.logins ==> s.logins[a].nonce < s.nextNonce)
    && (forall a, b :: a in s.pendingUsers && b in s.pendingUsers && a != b
          ==> s.pendingUsers[a].nonce != s.pendingUsers[b].nonce)
    && (forall a, b :: a in s.logins && b in s.logins && a != b ==> s.logins[a].nonce != s.logins[b].nonce)
    && (forall a, b :: a in s.pendingUsers && b in s.logins ==> s.pendingUsers[a].nonce != s.logins[b].nonce)
  }

  /** The nonce a message uses up, whether or not its signature verifies. */
  function Consumed(s: State, i: Input): Option<nat> {
    match i.request
    case RegistrationResponse(tag, signature) =>
      if signature.Some? && tag in s.pendingUsers then Some(s.pendingUsers[tag].nonce) else None
    case LoginResponse(tag, signature) =>
      if signature.Some? && tag in s.logins then Some(s.logins[tag].nonce) else None
    case _ => None
  }

  /** Challenges only ever carry over, or come with the next nonce. */
  ghost predicate NoncesFrom(s: State, t: State) {
    && s.nextNonce <= t.nextNonce
    && (forall a :: a in t.pendingUsers ==>
          (a in s.pendingUsers && t.pendingUsers[a] == s.pendingUsers[a])
          || t.pendingUsers[a].nonce == s.nextNonce < t.nextNonce)
    && (forall a :: a in t.logins ==>
          (a in s.logins && t.logins[a] == s.logins[a]) || t.logins[a].nonce == s.nextNonce < t.nextNonce)
  }

  ghost predicate OneNew(s: State, t: State) {
    && (forall a, b :: a in t.pendingUsers && b in t.pendingUsers && a != b
          ==> t.pendingUsers[a].nonce < s.nextNonce || t.pendingUsers[b].nonce < s.nextNonce)
    && (forall a, b :: a in t.logins && b in t.logins && a != b
          ==> t.logins[a].nonce < s.nextNonce || t.logins[b].nonce < s.nextNonce)
    && (forall a, b :: a in t.pendingUsers && b in t.logins
          ==> t.pendingUsers[a].nonce < s.nextNonce || t.logins[b].nonce < s.nextNonce)
  }

  /** A new challenge comes with the next nonce. */
  predicate NextNonce(s: State, move: Move) {
    move.Issue? || move.IssueLogin? ==> move.challenge.nonce == s.nextNonce
  }

  lemma MoveFrom(s: State, move: Move, t: State)
    requires Moved(s, move, t) && NextNonce(s, move)
    ensures NoncesFrom(s, t)
  {
  }

  /** Challenges are as before, except perhaps at one tag of one of the two tables. */
  ghost predicate OneTag(s: State, t: State, pendingTag: Option<Tag>, loginTag: Option<Tag>) {
    && (pendingTag.None? || loginTag.None?)
    && (forall a :: a in t.pendingUsers && Some(a) != pendingTag ==>
          a in s.pendingUsers && t.pendingUsers[a] == s.pendingUsers[a])
    && (forall a :: a in t.logins && Some(a) != loginTag ==> a in s.logins && t.logins[a] == s.logins[a])
  }

  lemma MoveOneTag(s: State, move: Move, t: State)
    requires Moved(s, move, t)
    ensures OneTag(s, t, if move.Issue? then Some(move.tag) else None,
                   if move.IssueLogin? then Some(move.tag) else None)
  {
  }

  lemma OneTagOneNew(s: State, t: State, pendingTag: Option<Tag>, loginTag: Option<Tag>)
    requires OneTag(s, t, pendingTag, loginTag) && NoncesDistinct(s)
    ensures OneNew(s, t)
  {
  }

  lemma MoveOneNew(s: State, move: Move, t: State)
    requires Moved(s, move, t) && NoncesDistinct(s)
    ensures OneNew(s, t)
  {
    MoveOneTag(s, move, t);
    OneTagOneNew(s, t, if move.Issue? then Some(move.tag) else None, if move.IssueLogin? then Some(move.tag) else None);
  }

  lemma IssuesNextNonce(env: Env, s: State, i: Input)
    ensures NextNonce(s, MoveOf(env, s, i))
  {
  }

  lemma FromKeepsDistinct(s: State, t: State)
    requires NoncesFrom(s, t) && OneNew(s, t) && NoncesDistinct(s)
    ensures NoncesDistinct(t)
  {
  }

  lemma PendingGone(s: State, t: State, tag: Tag)
    requires NoncesDistinct(s) && tag in s.pendingUsers
    requires t.pendingUsers == s.pendingUsers - {tag} && t.logins == s.logins
    ensures s.pendingUsers[tag].nonce < s.nextNonce
    ensures Waiting(s, s.pendingUsers[tag].nonce) && !Waiting(t, s.pendingUsers[tag].nonce)
  {
  }

  lemma LoginGone(s: State, t: State, tag: Tag)
    requires NoncesDistinct(s) && tag in s.logins
    requires t.logins == s.logins - {tag} && t.pendingUsers == s.pendingUsers
    ensures s.logins[tag].nonce < s.nextNonce
    ensures Waiting(s, s.logins[tag].nonce) && !Waiting(t, s.logins[tag].nonce)
  {
  }

  lemma ConsumedIsGone(env: Env, s: State, i: Input, t: State)
    requires Moved(s, MoveOf(env, s, i), t) && NoncesDistinct(s) && Consumed(s, i).Some?
    ensures Consumed(s, i).value < s.nextNonce
    ensures Waiting(s, Consumed(s, i).value) && !Waiting(t, Consumed(s, i).value)
  {
    match i.request
    case RegistrationResponse(tag, _) => PendingGone(s, t, tag);
    case LoginResponse(tag, _) => LoginGone(s, t, tag);
  }

  lemma HandleNonces(env: Env, s: State, i: Input, t: State)
    requires NoncesDistinct(s) && t == Handle(env, s, i)
    ensures NoncesFrom(s, t) && OneNew(s, t)
  {
    Moves(env, s, i);
    IssuesNextNonce(env, s, i);
    MoveFrom(s, MoveOf(env, s, i), t);
    MoveOneNew(s, MoveOf(env, s, i), t);
  }

  lemma CleanKeepsDistinct(s: State, instant: int)
    requires NoncesDistinct(s)
    ensures NoncesDistinct(Clean(s, instant))
  {
  }

  lemma StepKeepsNonces(env: Env, s: State, i: Input)
    requires NoncesDistinct(s)
    ensures NoncesDistinct(Step(env, s, i)) && NoncesFrom(Clean(s, i.instant), Step(env, s, i))
  {
    CleanKeepsDistinct(s, i.instant);
    HandleNonces(env, Clean(s, i.instant), i, Step(env, s, i));
    FromKeepsDistinct(Clean(s, i.instant), Step(env, s, i));
  }

  lemma {:induction false} NoncesDistinctAlways(env: Env, run: Run)
    ensures NoncesDistinct(After(env, run))
    ensures run != [] ==> NoncesFrom(Seen(env, run), After(env, run))
  {
    if run != [] {
      NoncesDistinctAlways(env, run[..|run| - 1]);
      StepKeepsNonces(env, After(env, run[..|run| - 1]), run[|run| - 1]);
    }
  }

  lemma FromKeepsGone(s: State, t: State, nonce: nat)
    requires NoncesFrom(s, t) && nonce < s.nextNonce && !Waiting(s, nonce)
    ensures nonce < t.nextNonce && !Waiting(t, nonce)
  {
  }

  lemma {:induction false} GoneStaysGone(env: Env, run: Run, k: nat, nonce: nat)
    requires k <= |run|
    requires nonce < After(env, run[..k]).nextNonce && !Waiting(After(env, run[..k]), nonce)
    ensures nonce < After(env, run).nextNonce && !Waiting(After(env, run), nonce)
  {
    if k == |run| {
      assert run[..k] == run;
    } else {
      assert run[..|run| - 1][..k] == run[..k];
      GoneStaysGone(env, run[..|run| - 1], k, nonce);
      NoncesDistinctAlways(env, run);
      FromKeepsGone(Seen(env, run), After(env, run), nonce);
    }
  }

  function ConsumedAt(env: Env, run: Run, j: nat): Option<nat>
    requires j < |run|
  {
    Consumed(Seen(env, run[..j + 1]), run[j])
  }

  lemma ConsumedThenGone(env: Env, run: Run)
    requires run != [] && Consumed(Seen(env, run), run[|run| - 1]).Some?
    ensures var nonce := Consumed(Seen(env, run), run[|run| - 1]).value;
            && Waiting(After(env, run[..|run| - 1]), nonce)
            && nonce < After(env, run).nextNonce && !Waiting(After(env, run), nonce)
  {
    var s, t := Seen(env, run), After(env, run);
    NoncesDistinctAlways(env, run);
    NoncesDistinctAlways(env, run[..|run| - 1]);
    CleanKeepsDistinct(After(env, run[..|run| - 1]), run[|run| - 1].instant);
    Moves(env, s, run[|run| - 1]);
    ConsumedIsGone(env, s, run[|run| - 1], t);
  }

  /** A message does not consume a nonce that no challenge waits for. */
  lemma GoneIsNotConsumed(env: Env, run: Run, nonce: nat)
    requires run != [] && !Waiting(After(env, run[..|run| - 1]), nonce)
    ensures Consumed(Seen(env, run), run[|run| - 1]) != Some(nonce)
  {
    if Consumed(Seen(env, run), run[|run| - 1]).Some? {
      ConsumedThenGone(env, run);
    }
  }

  /** No nonce is consumed by two messages, even if the first one's signature is wrong. */
  lemma NonceConsumedOnce(env: Env, run: Run, j: nat, k: nat)
    requires j < k < |run|
    requires ConsumedAt(env, run, j).Some?
    ensures ConsumedAt(env, run, k) != ConsumedAt(env, run, j)
  {
    OnceOnly(env, run[..j + 1], run[..k], run[..k + 1]);
  }

  lemma OnceOnly(env: Env, first: Run, between: Run, second: Run)
    requires first != [] && first <= between && |second| == |between| + 1 && second[..|between|] == between
    requires Consumed(Seen(env, first), first[|first| - 1]).Some?
    ensures Consumed(Seen(env, second), second[|between|]) != Consumed(Seen(env, first), first[|first| - 1])
  {
    var nonce := Consumed(Seen(env, first), first[|first| - 1]).value;
    ConsumedThenGone(env, first);
    assert between[..|first|] == first;
    GoneStaysGone(env, between, |first|, nonce);
    GoneIsNotConsumed(env, second, nonce);
  }

  // ----- The reply tag of an account -----

  /** A login challenge holds the key of the account it is for. */
  ghost predicate LoginsMatch(s: State) {
    forall tag :: tag in s.logins ==>
      && s.logins[tag].username in s.users
      && s.users[s.logins[tag].username].publicKey == s.logins[tag].publicKey
  }

  /**
   The message carries a signature that verifies under the account's own key: a registration
   response that creates the account, a login response, a ping or a legacy send.
   */
  ghost predicate VerifiesFor(env: Env, s: State, i: Input, name: string) {
    match i.request
    case RegistrationResponse(tag, signature) =>
      && signature.Some? && tag in s.pendingUsers && s.pendingUsers[tag].username == name && name !in s.users
      && env.verify(s.pendingUsers[tag].publicKey, Nonce(s.pendingUsers[tag].nonce), signature.value)
    case LoginResponse(tag, signature) =>
      && tag in s.logins && s.logins[tag].username == name
      && SignedBy(env, s, name, Nonce(s.logins[tag].nonce), signature)
    case Ping(tag, username, timestamp, signature) =>
      && username == name && name in s.users
      && Limiter.Room(s.auth, tag, i.instant, 10)
      && timestamp.Some? && -300 <= i.unix - timestamp.value <= 300
      && signature.Some? && env.verify(s.users[name].publicKey, PingText(name, timestamp.value), signature.value)
    case LegacySend(_, content, signature) =>
      && content.Some? && content.value.sender == Some(name) && content.value.recipient.Some?
      && name in s.users && signature.Some?
      && env.verify(s.users[name].publicKey, Body(content.value.text), signature.value)
    case _ => false
  }

  lemma IssueMatches(env: Env, s: State, i: Input)
    ensures var move := MoveOf(env, s, i);
            move.IssueLogin? ==>
              && move.challenge.username in s.users
              && s.users[move.challenge.username].publicKey == move.challenge.publicKey
  {
  }

  lemma MoveLogins(s: State, move: Move, t: State)
    requires Moved(s, move, t) && KeepsKeys(s, t) && LoginsMatch(s)
    requires move.IssueLogin? ==>
               && move.challenge.username in s.users
               && s.users[move.challenge.username].publicKey == move.challenge.publicKey
    ensures LoginsMatch(t)
  {
  }

  lemma StepKeepsLogins(env: Env, s: State, i: Input)
    requires LoginsMatch(s)
    ensures LoginsMatch(Step(env, s, i))
  {
    var seen := Clean(s, i.instant);
    Moves(env, seen, i);
    MoveKeepsKeys(env, seen, i, Step(env, s, i));
    IssueMatches(env, seen, i);
    MoveLogins(seen, MoveOf(env, seen, i), Step(env, s, i));
  }

  lemma {:induction false} LoginsMatchAlways(env: Env, run: Run)
    ensures LoginsMatch(After(env, run))
  {
    if run != [] {
      LoginsMatchAlways(env, run[..|run| - 1]);
      StepKeepsLogins(env, After(env, run[..|run| - 1]), run[|run| - 1]);
    }
  }

  function RequestTag(r: Request): Tag
    requires r.RegistrationResponse? || r.LoginResponse? || r.Ping? || r.LegacySend?
  {
    r.tag
  }

  /** The tag of the last message of the run that verified for the account. */
  ghost function LastVerifiedTag(env: Env, run: Run, name: string): Option<Tag> {
    if run == [] then None
    else if VerifiesFor(env, Seen(env, run), run[|run| - 1], name)
    then Some(RequestTag(run[|run| - 1].request))
    else LastVerifiedTag(env, run[..|run| - 1], name)
  }

  /** The account and tag a move writes, if it writes one. */
  function Verified(s: State, move: Move): Option<(string, Tag)> {
    match move
    case Retag(name, tag) => Some((name, tag))
    case Redeem(tag, creates) =>
      if creates && tag in s.pendingUsers then Some((s.pendingUsers[tag].username, tag)) else None
    case RedeemLogin(tag, succeeds) =>
      if succeeds && tag in s.logins then Some((s.logins[tag].username, tag)) else None
    case _ => None
  }

  lemma ResponseVerifies(env: Env, s: State, i: Input, name: string)
    requires LoginsMatch(s) && (i.request.RegistrationResponse? || i.request.LoginResponse?)
    ensures VerifiesFor(env, s, i, name) <==> Verified(s, MoveOf(env, s, i)) == Some((name, RequestTag(i.request)))
    ensures !VerifiesFor(env, s, i, name) ==>
              Verified(s, MoveOf(env, s, i)).None? || Verified(s, MoveOf(env, s, i)).value.0 != name
  {
  }

  lemma OtherVerifies(env: Env, s: State, i: Input, name: string)
    requires !i.request.RegistrationResponse? && !i.request.LoginResponse?
    ensures VerifiesFor(env, s, i, name) ==> Verified(s, MoveOf(env, s, i)) == Some((name, RequestTag(i.request)))
    ensures !VerifiesFor(env, s, i, name) ==>
              Verified(s, MoveOf(env, s, i)).None? || Verified(s, MoveOf(env, s, i)).value.0 != name
  {
    if i.request.Ping? {
      Limiter.AllowsInNumbers(10, s.auth, i.request.tag, i.instant);
    }
  }

  lemma WrittenTag(s: State, move: Move, t: State, name: string)
    requires Moved(s, move, t)
    ensures Verified(s, move).Some? && Verified(s, move).value.0 == name ==>
              name in t.users && t.users[name].senderTag == Verified(s, move).value.1
    ensures Verified(s, move).None? || Verified(s, move).value.0 != name ==>
              (name in t.users <==> name in s.users) && (name in s.users ==> t.users[name] == s.users[name])
  {
  }

  lemma MoveTags(env: Env, s: State, i: Input, t: State, name: string)
    requires Moved(s, MoveOf(env, s, i), t) && LoginsMatch(s)
    ensures VerifiesFor(env, s, i, name) ==> name in t.users && t.users[name].senderTag == RequestTag(i.request)
    ensures !VerifiesFor(env, s, i, name) ==> (name in t.users <==> name in s.users)
    ensures !VerifiesFor(env, s, i, name) && name in s.users ==> t.users[name] == s.users[name]
  {
    WrittenTag(s, MoveOf(env, s, i), t, name);
    if i.request.RegistrationResponse? || i.request.LoginResponse? {
      ResponseVerifies(env, s, i, name);
    } else {
      OtherVerifies(env, s, i, name);
    }
  }

  /** In every run the stored tag is the one the last verified message came from. */
  lemma {:induction false} TagIsLastVerified(env: Env, run: Run, name: string)
    ensures LastVerifiedTag(env, run, name)
         == if name in After(env, run).users then Some(After(env, run).users[name].senderTag) else None
  {
    if run != [] {
      TagIsLastVerified(env, run[..|run| - 1], name);
      LoginsMatchAlways(env, run[..|run| - 1]);
      Moves(env, Seen(env, run), run[|run| - 1]);
      MoveTags(env, Seen(env, run), run[|run| - 1], After(env, run), name);
    }
  }
}
