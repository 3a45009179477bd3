/** What the group server stores and gives back, over whole runs. */
module GroupDelivery {
  import opened Base64
  import opened Sequences
  import opened Validation
  import opened GroupMembership
  import opened GroupSpec
  import CommitBuffer

  // ----- Deduplication -----

  ghost predicate Monotone(run: Run) {
    forall i, j :: 0 <= i < j < |run| ==> run[i].unix <= run[j].unix
  }

  function Hash(env: Env, m: Msg): string {
    env.hash(DedupText(m.sender, m.ciphertext))
  }

  /** The table of recent hashes against the full log, at a time when nothing is newer. */
  ghost predicate HashesCover(env: Env, log: Log, now: int) {
    && (forall m :: m in log.messages ==> m.at <= now)
    && (forall m :: m in log.messages && m.at >= now - DEDUP_SECS
          ==> Hash(env, m) in log.hashes && log.hashes[Hash(env, m)] >= m.at)
    && (forall h :: h in log.hashes ==> exists m :: m in log.messages && Hash(env, m) == h && m.at == log.hashes[h])
  }

  ghost predicate SendersValid(log: Log) {
    forall m :: m in log.messages ==> ValidUsername(m.sender)
  }

  lemma AgingCovers(env: Env, log: Log, earlier: int, now: int)
    requires HashesCover(env, log, earlier) && earlier <= now
    ensures HashesCover(env, log.(hashes := AgedHashes(log.hashes, now)), now)
  {
  }

  lemma StoringCovers(env: Env, log: Log, sender: string, ciphertext: string, now: int)
    requires HashesCover(env, log, now)
    ensures HashesCover(env, Stored(env, log, sender, ciphertext, now), now)
  {
    var next := Stored(env, log, sender, ciphertext, now);
    if !Duplicate(env, log, sender, ciphertext) {
      var m := Msg(log.nextId, sender, ciphertext, now);
      assert next.messages == log.messages + [m];
      forall h | h in next.hashes
        ensures exists n :: n in next.messages && Hash(env, n) == h && n.at == next.hashes[h]
      {
        if h == Hash(env, m) {
          assert m in next.messages;
        } else {
          var n :| n in log.messages && Hash(env, n) == h && n.at == log.hashes[h];
          assert n in next.messages;
        }
      }
    }
  }

  lemma SendKeepsCover(env: Env, s: State, i: Input)
    requires HashesCover(env, s.log, i.unix) && SendersValid(s.log)
    ensures HashesCover(env, NextLog(env, s, i), i.unix) && SendersValid(NextLog(env, s, i))
  {
    if SendOk(env, s, i) {
      StoringCovers(env, s.log, i.request.username, i.request.ciphertext, i.unix);
    }
  }

  lemma {:induction false} HashesCoverAlways(env: Env, run: Run, now: int)
    requires Monotone(run) && (run != [] ==> run[|run| - 1].unix <= now)
    ensures HashesCover(env, After(env, run).log.(hashes := AgedHashes(After(env, run).log.hashes, now)), now)
    ensures SendersValid(After(env, run).log)
  {
    if run != [] && run[|run| - 1].request.Restart? {
      HashesCoverAlways(env, run[..|run| - 1], now);
    } else if run != [] {
      var i := run[|run| - 1];
      HashesCoverAlways(env, run[..|run| - 1], i.unix);
      SendKeepsCover(env, Seen(env, run), i);
      AgingCovers(env, After(env, run).log, i.unix, now);
    }
  }

  /** A stored message with this sender and text, still inside the cutoff. */
  ghost predicate RecentlyStored(log: Log, sender: string, ciphertext: string, now: int) {
    exists m :: m in log.messages && m.sender == sender && m.ciphertext == ciphertext && now - m.at <= 600
  }

  lemma DuplicateMeansRecent(env: Env, log: Log, sender: string, ciphertext: string, now: int)
    requires Injective(env.hash) && ValidUsername(sender)
    requires HashesCover(env, log, now) && SendersValid(log)
    requires forall h :: h in log.hashes ==> log.hashes[h] >= now - DEDUP_SECS
    ensures Duplicate(env, log, sender, ciphertext) <==> RecentlyStored(log, sender, ciphertext, now)
  {
    var h := env.hash(DedupText(sender, ciphertext));
    if Duplicate(env, log, sender, ciphertext) {
      var m :| m in log.messages && Hash(env, m) == h && m.at == log.hashes[h];
      assert DedupText(m.sender, m.ciphertext) == DedupText(sender, ciphertext);
      JoinInjective(m.sender, m.ciphertext, sender, ciphertext);
    }
  }

  /**
   A send that passes every other check is refused as a duplicate if and only if the full log
   holds the same sender and ciphertext from at most 600 s ago.
   */
  lemma RefusedIffRecent(env: Env, run: Run)
    requires Injective(env.hash) && run != [] && Monotone(run)
    requires SendOk(env, Seen(env, run), run[|run| - 1])
    ensures After(env, run).log.messages == After(env, run[..|run| - 1]).log.messages
       <==> RecentlyStored(After(env, run[..|run| - 1]).log, run[|run| - 1].request.username,
                           run[|run| - 1].request.ciphertext, run[|run| - 1].unix)
  {
    var s, i := Seen(env, run), run[|run| - 1];
    HashesCoverAlways(env, run[..|run| - 1], i.unix);
    DuplicateMeansRecent(env, s.log, i.request.username, i.request.ciphertext, i.unix);
    StoredOrNot(env, s.log, i.request.username, i.request.ciphertext, i.unix);
  }

  lemma StoredOrNot(env: Env, log: Log, sender: string, ciphertext: string, unix: int)
    ensures Stored(env, log, sender, ciphertext, unix).messages == log.messages
       <==> Duplicate(env, log, sender, ciphertext)
  {
    assert |log.messages + [Msg(log.nextId, sender, ciphertext, unix)]| == |log.messages| + 1;
  }

  ghost predicate Spaced(log: Log) {
    forall i, j :: 0 <= i < j < |log.messages| && log.messages[i].sender == log.messages[j].sender
                   && log.messages[i].ciphertext == log.messages[j].ciphertext
      ==> log.messages[j].at - log.messages[i].at > 600
  }

  lemma StoringSpaces(env: Env, log: Log, sender: string, ciphertext: string, now: int)
    requires HashesCover(env, log, now) && Spaced(log)
    ensures Spaced(Stored(env, log, sender, ciphertext, now))
  {
    if !Duplicate(env, log, sender, ciphertext) {
      forall i | 0 <= i < |log.messages| && log.messages[i].sender == sender
                 && log.messages[i].ciphertext == ciphertext
        ensures now - log.messages[i].at > DEDUP_SECS
      {
        assert log.messages[i] in log.messages;
        assert Hash(env, log.messages[i]) == env.hash(DedupText(sender, ciphertext));
      }
    }
  }

  /** Two stored messages with the same sender and ciphertext are always more than 600 s apart. */
  lemma {:induction false} RepeatsSpaced(env: Env, run: Run)
    requires Monotone(run)
    ensures Spaced(After(env, run).log)
  {
    if run != [] {
      var s, i := Seen(env, run), run[|run| - 1];
      RepeatsSpaced(env, run[..|run| - 1]);
      HashesCoverAlways(env, run[..|run| - 1], i.unix);
      if SendOk(env, s, i) {
        StoringSpaces(env, s.log, i.request.username, i.request.ciphertext, i.unix);
      }
    }
  }

  // ----- Welcomes -----

  function StoredNow(env: Env, s: State, i: Input): seq<Welcome> {
    if StoreOk(env, s, i) then
      [Welcome(s.mail.nextId, i.request.target.value, i.request.groupName.value,
               Decode(i.request.welcome.value).value)]
    else []
  }

  /** The welcome a store overwrites. */
  function ReplacedNow(env: Env, s: State, i: Input): seq<Welcome> {
    if StoreOk(env, s, i) then Filter(ForIn(i.request.target.value, i.request.groupName.value), s.mail.rows)
    else []
  }

  function StoredIn(env: Env, run: Run): seq<Welcome> {
    if run == [] then [] else StoredIn(env, run[..|run| - 1]) + StoredNow(env, Seen(env, run), run[|run| - 1])
  }

  function ReplacedIn(env: Env, run: Run): seq<Welcome> {
    if run == [] then [] else ReplacedIn(env, run[..|run| - 1]) + ReplacedNow(env, Seen(env, run), run[|run| - 1])
  }

  function ReturnedIn(env: Env, run: Run): seq<Welcome> {
    if run == [] then [] else ReturnedIn(env, run[..|run| - 1]) + Returned(env, Seen(env, run), run[|run| - 1])
  }

  lemma StepConservesMail(env: Env, s: State, i: Input)
    ensures multiset(s.mail.rows) + multiset(StoredNow(env, s, i))
         == multiset(NextMail(env, s, i).rows) + multiset(Returned(env, s, i)) + multiset(ReplacedNow(env, s, i))
  {
    if StoreOk(env, s, i) {
      FilterSplits(ForIn(i.request.target.value, i.request.groupName.value), s.mail.rows);
    } else if FetchWelcomeOk(env, s, i) {
      FilterSplits(Wanted(i.request), s.mail.rows);
    }
  }

  /** Every stored welcome is still pending, was returned by a fetch, or was replaced. */
  lemma {:induction false} WelcomesConserved(env: Env, run: Run)
    ensures multiset(StoredIn(env, run))
         == multiset(After(env, run).mail.rows) + multiset(ReturnedIn(env, run)) + multiset(ReplacedIn(env, run))
  {
    if run != [] {
      var prefix, i, s := run[..|run| - 1], run[|run| - 1], Seen(env, run);
      var stored, returned, replaced := StoredIn(env, prefix), ReturnedIn(env, prefix), ReplacedIn(env, prefix);
      assert StoredIn(env, run) == stored + StoredNow(env, s, i);
      assert ReturnedIn(env, run) == returned + Returned(env, s, i);
      assert ReplacedIn(env, run) == replaced + ReplacedNow(env, s, i);
      WelcomesConserved(env, prefix);
      StepConservesMail(env, s, i);
      LedgerStep(stored, StoredNow(env, s, i), s.mail.rows, NextMail(env, s, i).rows,
                 returned, Returned(env, s, i), replaced, ReplacedNow(env, s, i));
    }
  }

  lemma {:induction false} WelcomesNumbered(env: Env, run: Run)
    ensures |StoredIn(env, run)| + 1 == After(env, run).mail.nextId
    ensures forall k :: 0 <= k < |StoredIn(env, run)| ==> StoredIn(env, run)[k].id == k + 1
  {
    if run != [] {
      WelcomesNumbered(env, run[..|run| - 1]);
    }
  }

  /** So each stored welcome is in exactly one of the three places, exactly once. */
  lemma WelcomeInOnePlace(env: Env, run: Run, w: Welcome)
    requires w in StoredIn(env, run)
    ensures multiset(After(env, run).mail.rows)[w] + multiset(ReturnedIn(env, run))[w]
          + multiset(ReplacedIn(env, run))[w] == 1
  {
    WelcomesConserved(env, run);
    WelcomesNumbered(env, run);
    DistinctCount(StoredIn(env, run), w);
  }

  /** A welcome is returned only to its own user, whose signature verified under the stored key. */
  lemma ReturnedToOwner(env: Env, s: State, i: Input, w: Welcome)
    requires w in Returned(env, s, i)
    ensures w in s.mail.rows && w !in NextMail(env, s, i).rows
    ensures i.request.FetchWelcome? && i.request.username == w.username && w.username in s.accounts.users
    ensures env.verify(s.accounts.users[w.username], FetchWelcomeText(w.username), i.request.signature)
  {
    FilterMember(Wanted(i.request), s.mail.rows, w);
    FilterMember(Not(Wanted(i.request)), s.mail.rows, w);
  }

  ghost predicate MailBounded(m: Mail) {
    && (forall i, j :: 0 <= i < j < |m.rows| ==> m.rows[i].username != m.rows[j].username
                                                 || m.rows[i].group != m.rows[j].group)
    && (forall username :: |Filter(For(username), m.rows)| <= 20)
  }

  lemma {:induction false} FilterKeepsPairs(p: Welcome -> bool, rows: seq<Welcome>)
    requires forall i, j :: 0 <= i < j < |rows| ==> rows[i].username != rows[j].username
                                                    || rows[i].group != rows[j].group
    ensures forall i, j :: 0 <= i < j < |Filter(p, rows)| ==>
              Filter(p, rows)[i].username != Filter(p, rows)[j].username
              || Filter(p, rows)[i].group != Filter(p, rows)[j].group
  {
    if rows != [] {
      var k := |rows| - 1;
      FilterKeepsPairs(p, rows[..k]);
      var kept := Filter(p, rows[..k]);
      forall i | 0 <= i < |kept| ensures kept[i].username != rows[k].username || kept[i].group != rows[k].group {
        FilterMember(p, rows[..k], kept[i]);
      }
    }
  }

  lemma FewerForUser(p: Welcome -> bool, username: string, rows: seq<Welcome>)
    ensures |Filter(For(username), Filter(p, rows))| <= |Filter(For(username), rows)|
  {
    FilterCommutes(For(username), p, rows);
  }

  lemma RemovalBounded(m: Mail, p: Welcome -> bool)
    requires MailBounded(m)
    ensures MailBounded(m.(rows := Filter(p, m.rows)))
  {
    FilterKeepsPairs(p, m.rows);
    forall username ensures |Filter(For(username), Filter(p, m.rows))| <= MAX_WELCOMES_PER_USER {
      FewerForUser(p, username, m.rows);
    }
  }

  lemma DeliveryBounded(m: Mail, username: string, group: string, data: Bytes)
    requires MailBounded(m) && |Filter(For(username), m.rows)| < MAX_WELCOMES_PER_USER
    ensures MailBounded(Delivered(m, username, group, data))
  {
    var kept, w := Filter(Not(ForIn(username, group)), m.rows), Welcome(m.nextId, username, group, data);
    RemovalBounded(m, Not(ForIn(username, group)));
    forall i | 0 <= i < |kept| ensures kept[i].username != username || kept[i].group != group {
      FilterMember(Not(ForIn(username, group)), m.rows, kept[i]);
    }
    forall name ensures |Filter(For(name), kept + [w])| <= MAX_WELCOMES_PER_USER {
      FilterSnoc(For(name), kept, w);
      FewerForUser(Not(ForIn(username, group)), name, m.rows);
    }
  }

  /** At the quota even a renewal is refused: a store for a pair that already has a welcome changes nothing. */
  lemma RenewalRefusedAtQuota(env: Env, s: State, i: Input, w: Welcome)
    requires i.request.StoreWelcome? && w in s.mail.rows
    requires i.request.target == Some(w.username) && i.request.groupName == Some(w.group)
    requires |Filter(For(w.username), s.mail.rows)| == 20
    ensures NextMail(env, s, i) == s.mail
  {
  }

  lemma StepKeepsMail(env: Env, s: State, i: Input)
    requires MailBounded(s.mail)
    ensures MailBounded(NextMail(env, s, i))
  {
    if StoreOk(env, s, i) {
      DeliveryBounded(s.mail, i.request.target.value, i.request.groupName.value,
                      Decode(i.request.welcome.value).value);
    } else if FetchWelcomeOk(env, s, i) {
      RemovalBounded(s.mail, Not(Wanted(i.request)));
    }
  }

  /** No user ever has more than twenty pending welcomes, nor two for one group. */
  lemma {:induction false} MailBoundedAlways(env: Env, run: Run)
    ensures MailBounded(After(env, run).mail)
  {
    if run != [] {
      MailBoundedAlways(env, run[..|run| - 1]);
      StepKeepsMail(env, Seen(env, run), run[|run| - 1]);
    }
  }

  /** A text within the encoded limit decodes to at most 131070 bytes: the decoded limit never bites. */
  lemma DecodedCheckIsDead(welcome: Option<string>)
    requires Presentable(welcome) && Decode(welcome.value).Some?
    ensures |Decode(welcome.value).value| <= 131_070 < MAX_WELCOME_DECODED_SIZE
  {
    DecodedLength(welcome.value);
    QuartersBounded(|welcome.value|);
  }

  lemma QuartersBounded(length: nat)
    requires length <= MAX_WELCOME_B64_LEN
    ensures length / 4 * 3 <= 131_070
  {
    assert length / 4 <= 43_690;
  }

  /** A fetch hands back the very text that was stored: re-encoding the stored bytes restores it. */
  lemma TextComesBack(env: Env, run: Run, w: Welcome)
    requires w in StoredIn(env, run)
    ensures exists k :: 0 <= k < |run| && run[k].request.StoreWelcome?
              && run[k].request.welcome == Some(Encode(w.data))
              && run[k].request.target == Some(w.username) && run[k].request.groupName == Some(w.group)
  {
    var prefix, i := run[..|run| - 1], run[|run| - 1];
    if w in StoredIn(env, prefix) {
      TextComesBack(env, prefix, w);
      var k :| 0 <= k < |prefix| && prefix[k].request.StoreWelcome?
        && prefix[k].request.welcome == Some(Encode(w.data))
        && prefix[k].request.target == Some(w.username) && prefix[k].request.groupName == Some(w.group);
      assert run[k] == prefix[k];
    } else {
      EncodeOfDecode(i.request.welcome.value);
      assert run[|run| - 1].request.StoreWelcome?;
    }
  }

  // ----- Commits -----

  /** The commits one message buffers: one or none. */
  function EntriesNow(env: Env, s: State, i: Input): seq<CommitBuffer.Entry> {
    if BufferOk(env, s, i)
    then [CommitBuffer.Entry(i.request.groupName.value, i.request.epoch.value,
                             Decode(i.request.commit.value).value, i.request.username)]
    else []
  }

  /** The commits a run buffers, in order. */
  function EntriesIn(env: Env, run: Run): seq<CommitBuffer.Entry> {
    if run == [] then []
    else EntriesIn(env, run[..|run| - 1]) + EntriesNow(env, Seen(env, run), run[|run| - 1])
  }

  lemma StepBuffers(env: Env, s: State, i: Input, before: seq<CommitBuffer.Entry>)
    requires s.commits == CommitBuffer.BufferOf(before)
    ensures NextCommits(env, s, i) == CommitBuffer.BufferOf(before + EntriesNow(env, s, i))
  {
    if BufferOk(env, s, i) {
      assert (before + EntriesNow(env, s, i))[..|before|] == before;
    } else {
      assert before + [] == before;
    }
  }

  /** The server's commit table is the commit buffer of exactly those commits. */
  lemma {:induction false} CommitsAreBuffered(env: Env, run: Run)
    ensures After(env, run).commits == CommitBuffer.BufferOf(EntriesIn(env, run))
  {
    if run != [] {
      CommitsAreBuffered(env, run[..|run| - 1]);
      StepBuffers(env, Seen(env, run), run[|run| - 1], EntriesIn(env, run[..|run| - 1]));
    }
  }

  /** In every run a sync returns the last hundred commits its group buffered after the cursor. */
  lemma ServerSyncIsLatest(env: Env, run: Run, group: string, since: int)
    ensures CommitBuffer.Sync(After(env, run).commits, group, since)
         == LastN(100, CommitBuffer.Later(EntriesIn(env, run), group, since))
  {
    CommitsAreBuffered(env, run);
    CommitBuffer.SyncIsLatest(EntriesIn(env, run), group, since);
  }

  // ----- Who writes -----

  ghost predicate WrittenByMembers(s: State) {
    && (forall m :: m in s.log.messages ==> m.sender in s.accounts.members)
    && (forall c :: c in s.commits.rows ==> c.sender in s.accounts.members)
  }

  lemma BufferedSenders(b: CommitBuffer.Buffer, e: CommitBuffer.Entry, members: set<string>)
    requires (forall c :: c in b.rows ==> c.sender in members) && e.sender in members
    ensures forall c :: c in CommitBuffer.Buffered(b, e.group, e.epoch, e.data, e.sender).rows ==> c.sender in members
  {
    var a := CommitBuffer.Append(b, e.group, e.epoch, e.data, e.sender);
    var ids := CommitBuffer.NewestIds(a, e.group, CommitBuffer.KEEP);
    FilterMembers(Not(CommitBuffer.Outdated(e.group, ids)), a.rows);
  }

  lemma MessagesByMembers(env: Env, s: State, i: Input)
    requires forall m :: m in s.log.messages ==> m.sender in s.accounts.members
    ensures forall m :: m in NextLog(env, s, i).messages ==> m.sender in s.accounts.members
  {
  }

  lemma CommitsByMembers(env: Env, s: State, i: Input)
    requires forall c :: c in s.commits.rows ==> c.sender in s.accounts.members
    ensures forall c :: c in NextCommits(env, s, i).rows ==> c.sender in s.accounts.members
  {
    if BufferOk(env, s, i) {
      BufferedSenders(s.commits, CommitBuffer.Entry(i.request.groupName.value, i.request.epoch.value,
                                                    Decode(i.request.commit.value).value, i.request.username),
                      s.accounts.members);
    }
  }

  /** Every stored message and buffered commit of every run was written by a member. */
  lemma {:induction false} WritersAreMembers(env: Env, run: Run)
    ensures WrittenByMembers(After(env, run))
  {
    if run != [] {
      var s, i := Seen(env, run), run[|run| - 1];
      WritersAreMembers(env, run[..|run| - 1]);
      MessagesByMembers(env, s, i);
      CommitsByMembers(env, s, i);
      StepKeepsUsers(env, s, i);
    }
  }

  /** A message enters the log only over its sender's signature on the ciphertext, under the stored key. */
  lemma StoredOverSignature(env: Env, s: State, i: Input, m: Msg)
    requires m in NextLog(env, s, i).messages && m !in s.log.messages
    ensures i.request.SendGroup? && m.sender == i.request.username && m.ciphertext == i.request.ciphertext != ""
    ensures m.at == i.unix && m.id == s.log.nextId
    ensures m.sender in s.accounts.users && m.sender in s.accounts.members
    ensures env.verify(s.accounts.users[m.sender], Cipher(m.ciphertext), i.request.signature)
  {
  }

  /** A welcome is stored only over a signature of a user who, where an admin key is set, holds it. */
  lemma WelcomeOverSignature(env: Env, s: State, i: Input, w: Welcome)
    requires w in NextMail(env, s, i).rows && w !in s.mail.rows
    ensures i.request.StoreWelcome? && i.request.username in s.accounts.users
    ensures var key := s.accounts.users[i.request.username];
            && env.verify(key, WelcomeText(w.group, w.username), i.request.signature)
            && (env.adminKey.Some? ==> env.trim(key) == env.trim(env.adminKey.value))
  {
    if StoreOk(env, s, i) {
      FilterMember(Not(ForIn(i.request.target.value, i.request.groupName.value)), s.mail.rows, w);
    } else if FetchWelcomeOk(env, s, i) {
      FilterMember(Not(Wanted(i.request)), s.mail.rows, w);
    }
  }
}
