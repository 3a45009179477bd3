/**
 What each request does to the group server, said without the server's own guards: which requests
 take effect, in terms of signatures, names, clocks and numbers, and what exactly they change.
 The later sections lift this to whole runs.
 */
module GroupLaws {
  import opened Base64
  import opened Sequences
  import opened Validation
  import opened GroupSpec
  import opened GroupDelivery
  import opened GroupMembership
  import opened GroupPaging
  import CommitBuffer
  import Limiter = RateLimiter

  /** A registered user with a well-formed name signed the content under the stored key. */
  predicate Signed(env: Env, a: Accounts, name: string, content: Content, signature: string) {
    && ValidUsername(name) && name != "unknown"
    && name in a.users && signature != "" && env.verify(a.users[name], content, signature)
  }

  predicate SignedMember(env: Env, a: Accounts, name: string, content: Content, signature: string) {
    Signed(env, a, name, content, signature) && name in a.members
  }

  predicate Fresh(unix: int, timestamp: int) {
    -300 <= unix - timestamp <= 300
  }

  predicate HoldsAdminKey(env: Env, key: string) {
    env.adminKey.Some? && env.trim(env.adminKey.value) == env.trim(key)
  }

  predicate GroupNamed(name: Option<string>) {
    name.Some? && ValidGroupId(name.value)
  }

  /** The tag has fewer than sixty accepted calls in the last minute. */
  ghost predicate Admitted(s: State, i: Input)
    requires !i.request.Other? && !i.request.Restart?
  {
    Limiter.Room(s.limits.general, i.request.tag, i.instant, 60)
  }

  lemma AdmittedIff(s: State, i: Input)
    requires !i.request.Other? && !i.request.Restart?
    ensures GeneralAllows(Clean(s, i).limits, i.request.tag, i.instant) <==> Admitted(s, i)
  {
    Limiter.AllowsInNumbers(60, s.limits.general, i.request.tag, i.instant);
  }

  // ----- Accounts -----

  /**
   A registration's two limits: ten calls a minute by tag, and then ten by name. The tag's own call
   has just been counted, which matters only for a tag that reads like the name's key.
   */
  ghost predicate RegistrationRoom(s: State, i: Input)
    requires i.request.Register?
  {
    var byName := "user:" + i.request.username;
    && Limiter.Room(s.limits.registration, i.request.tag, i.instant, 10)
    && Limiter.Room(s.limits.registration, byName, i.instant, if byName == i.request.tag then 9 else 10)
  }

  lemma CountedOnce(times: seq<int>, now: int)
    ensures |Limiter.Recent(Limiter.LIMIT_WINDOW_MS, now, Limiter.Recent(Limiter.LIMIT_WINDOW_MS, now, times) + [now])|
         == Limiter.InLastMinute(times, now) + 1
  {
    var recent := Limiter.Recent(Limiter.LIMIT_WINDOW_MS, now, times);
    FilterSnoc(Limiter.Within(Limiter.LIMIT_WINDOW_MS, now), recent, now);
    Limiter.RecentLater(Limiter.LIMIT_WINDOW_MS, now, now, times);
    Limiter.RecentInNumbers(times, now);
  }

  lemma SecondCall(attempts: Limiter.Attempts, tag: string, key: string, now: int)
    requires Limiter.Allows(10, Limiter.LIMIT_WINDOW_MS, attempts, tag, now)
    ensures Limiter.Allows(10, Limiter.LIMIT_WINDOW_MS,
                           Limiter.Recorded(10, Limiter.LIMIT_WINDOW_MS, attempts, tag, now), key, now)
       <==> Limiter.Room(attempts, key, now, if key == tag then 9 else 10)
  {
    if key == tag {
      CountedOnce(Limiter.At(attempts, tag), now);
    } else {
      Limiter.AllowsInNumbers(10, attempts, key, now);
    }
  }

  lemma RegistrationRoomIff(s: State, i: Input)
    requires i.request.Register?
    ensures RegistrationCounted(Clean(s, i).limits, i) <==> RegistrationRoom(s, i)
  {
    var swept := Clean(s, i).limits.registration;
    var byName := "user:" + i.request.username;
    Limiter.AllowsInNumbers(10, s.limits.registration, i.request.tag, i.instant);
    Limiter.AllowsInNumbers(10, s.limits.registration, byName, i.instant);
    Limiter.AllowsInNumbers(9, s.limits.registration, byName, i.instant);
    if Limiter.Allows(10, Limiter.LIMIT_WINDOW_MS, swept, i.request.tag, i.instant) {
      SecondCall(swept, i.request.tag, byName, i.instant);
    }
  }

  /** A registration that is timely and signed under the key it brings, within both limits. */
  ghost predicate Registrable(env: Env, s: State, i: Input)
    requires i.request.Register?
  {
    && RegistrationRoom(s, i)
    && ValidUsername(i.request.username) && Fresh(i.unix, i.request.timestamp)
    && i.request.signature != ""
    && env.verify(i.request.publicKey,
                  RegisterText(i.request.username, i.request.address, i.request.timestamp), i.request.signature)
  }

  lemma RegistrableIff(env: Env, s: State, i: Input)
    requires i.request.Register?
    ensures RegisterOk(env, Clean(s, i), i) <==> Registrable(env, s, i)
  {
    RegistrationRoomIff(s, i);
  }

  /**
   Such a registration makes a new name a user and member at once, and brings the group row into
   being, if and only if its key is the admin's; otherwise it puts a name that is not yet pending
   into pending. No other registration changes accounts.
   */
  lemma RegisterIff(env: Env, s: State, i: Input)
    requires i.request.Register?
    ensures var a, b, name, key := s.accounts, Step(env, s, i).accounts, i.request.username, i.request.publicKey;
            if !Registrable(env, s, i) then b == a
            else if HoldsAdminKey(env, key) then
              if name in a.users then b == a
              else b == Accounts(a.users[name := key], a.pending, a.members + {name}, true)
            else if name in a.pending then b == a
            else b == Accounts(a.users, a.pending[name := key], a.members, a.groupExists)
  {
    RegistrableIff(env, s, i);
  }

  /** The key package it brings is kept if and only if it adds a row and the package decodes. */
  lemma PackageIff(env: Env, s: State, i: Input)
    requires i.request.Register?
    ensures var a, name, package := s.accounts, i.request.username, i.request.keyPackage;
            Step(env, s, i).packages
              == if && Registrable(env, s, i)
                    && (if HoldsAdminKey(env, i.request.publicKey) then name !in a.users else name !in a.pending)
                    && package.Some? && Decode(package.value).Some?
                 then s.packages[name := Decode(package.value).value] else s.packages
  {
    RegistrableIff(env, s, i);
  }

  /** The admin's timely approval for this very group. */
  ghost predicate Approvable(env: Env, s: State, i: Input)
    requires i.request.Approve?
  {
    && Admitted(s, i)
    && env.adminKey.Some? && i.request.group == env.groupId && Fresh(i.unix, i.request.timestamp)
    && i.request.signature != ""
    && env.verify(env.adminKey.value,
                  ApproveText(i.request.username, env.groupId, i.request.timestamp), i.request.signature)
  }

  /**
   Such an approval moves a name from pending to users, under its pending key, if and only if it is
   pending and no user yet; it makes it a member if and only if the group row exists.
   */
  lemma ApproveIff(env: Env, s: State, i: Input)
    requires i.request.Approve?
    ensures var a, b, name := s.accounts, Step(env, s, i).accounts, i.request.username;
            if Approvable(env, s, i) && name in a.pending && name !in a.users
            then b == Accounts(a.users[name := a.pending[name]], a.pending - {name},
                               if a.groupExists then a.members + {name} else a.members, a.groupExists)
            else b == a
    ensures Step(env, s, i).packages == s.packages
    ensures Approval(env, Clean(s, i), i).Admitted?
       <==> Approvable(env, s, i) && i.request.username in s.accounts.pending && i.request.username !in s.accounts.users
  {
    AdmittedIff(s, i);
  }

  /** A restart makes all users members if the group row exists; no other request changes accounts. */
  lemma OthersKeepAccounts(env: Env, s: State, i: Input)
    requires !i.request.Register? && !i.request.Approve?
    ensures Step(env, s, i).packages == s.packages
    ensures var a := s.accounts;
            Step(env, s, i).accounts
              == if i.request.Restart? && a.groupExists
                 then Accounts(a.users, a.pending, a.members + a.users.Keys, true) else a
  {
  }

  // ----- Messages -----

  /** The texts of a sender's message that are still remembered, by their hashes. */
  predicate Remembered(env: Env, s: State, i: Input)
    requires i.request.SendGroup?
  {
    var h := env.hash(i.request.username + ":" + i.request.ciphertext);
    h in s.log.hashes && s.log.hashes[h] >= i.unix - 600
  }

  /**
   A message joins the log, at its end, if and only if there is room, it is not empty, a member
   signed it and its hash was not stored in the last 600 s.
   */
  lemma SendGroupIff(env: Env, s: State, i: Input)
    requires i.request.SendGroup?
    ensures var t := Step(env, s, i);
            t.log.messages
              == if && Admitted(s, i) && i.request.ciphertext != ""
                    && SignedMember(env, s.accounts, i.request.username, Cipher(i.request.ciphertext),
                                    i.request.signature)
                    && !Remembered(env, s, i)
                 then s.log.messages + [Msg(s.log.nextId, i.request.username, i.request.ciphertext, i.unix)]
                 else s.log.messages
  {
    AdmittedIff(s, i);
  }

  ghost predicate SaidWithin600(log: Log, sender: string, ciphertext: string, now: int) {
    exists m :: m in log.messages && m.sender == sender && m.ciphertext == ciphertext && now - m.at <= 600
  }

  /**
   In every run, if the hash is injective and the clock does not go back, a message joins the log if
   and only if there is room, it is not empty, a member signed it, and that member did not have the
   same text stored in the last 600 s.
   */
  lemma StoredIffNew(env: Env, run: Run)
    requires Injective(env.hash) && Monotone(run) && run != [] && run[|run| - 1].request.SendGroup?
    ensures var s, i := After(env, run[..|run| - 1]), run[|run| - 1];
            After(env, run).log.messages
              == if && Admitted(s, i) && i.request.ciphertext != ""
                    && SignedMember(env, s.accounts, i.request.username, Cipher(i.request.ciphertext),
                                    i.request.signature)
                    && !SaidWithin600(s.log, i.request.username, i.request.ciphertext, i.unix)
                 then s.log.messages + [Msg(s.log.nextId, i.request.username, i.request.ciphertext, i.unix)]
                 else s.log.messages
  {
    var s, i := After(env, run[..|run| - 1]), run[|run| - 1];
    SendGroupIff(env, s, i);
    AdmittedIff(s, i);
    if SendOk(env, Seen(env, run), i) {
      RememberedIff(env, run);
    }
  }

  lemma RememberedIff(env: Env, run: Run)
    requires Injective(env.hash) && Monotone(run) && run != []
    requires SendOk(env, Seen(env, run), run[|run| - 1])
    ensures var s, i := After(env, run[..|run| - 1]), run[|run| - 1];
            Remembered(env, s, i) <==> SaidWithin600(s.log, i.request.username, i.request.ciphertext, i.unix)
  {
    var s, i := After(env, run[..|run| - 1]), run[|run| - 1];
    HashesCoverAlways(env, run[..|run| - 1], i.unix);
    DuplicateMeansRecent(env, Seen(env, run).log, i.request.username, i.request.ciphertext, i.unix);
  }

  lemma OthersKeepLog(env: Env, s: State, i: Input)
    requires !i.request.SendGroup?
    ensures Step(env, s, i).log.messages == s.log.messages && Step(env, s, i).log.nextId == s.log.nextId
  {
  }

  /**
   A page is given out if and only if there is room and a member signed for the cursor; it is then
   the page of the log after that cursor.
   */
  lemma FetchGroupIff(env: Env, s: State, i: Input)
    requires i.request.FetchGroup?
    ensures FetchedPage(env, Clean(s, i), i)
         == if && Admitted(s, i)
               && SignedMember(env, s.accounts, i.request.username, CursorText(i.request.lastSeenId),
                               i.request.signature)
            then Some(Page(s.log.messages, i.request.lastSeenId)) else None
  {
    AdmittedIff(s, i);
  }

  /** Where in a log of this length the page after the cursor starts. */
  function StartOf(cursor: int, length: nat): nat {
    if cursor < 0 then 0 else if cursor > length then length else cursor
  }

  lemma AnyPageIsSlice(messages: seq<Msg>, cursor: int)
    requires Numbered(messages)
    ensures var start := StartOf(cursor, |messages|);
            Page(messages, cursor) == messages[start..if start + 100 <= |messages| then start + 100 else |messages|]
  {
    var start := StartOf(cursor, |messages|);
    forall m | m in messages ensures MsgAfter(cursor)(m) == MsgAfter(start)(m) {
      var k :| 0 <= k < |messages| && messages[k] == m;
    }
    FilterAgree(MsgAfter(cursor), MsgAfter(start), messages);
    PageIsSlice(messages, start);
  }

  /**
   In every run, whoever gets a page is a member with a verified signature over the cursor asked
   for, and gets the log from the cursor on, at most a hundred messages.
   */
  lemma PagesGoToMembers(env: Env, run: Run)
    requires run != [] && run[|run| - 1].request.FetchGroup?
    requires FetchedPage(env, Seen(env, run), run[|run| - 1]).Some?
    ensures var s, i := After(env, run[..|run| - 1]), run[|run| - 1];
            var log, start := s.log.messages, StartOf(i.request.lastSeenId, |s.log.messages|);
            && i.request.username in s.accounts.members && i.request.username in s.accounts.users
            && env.verify(s.accounts.users[i.request.username], CursorText(i.request.lastSeenId), i.request.signature)
            && FetchedPage(env, Seen(env, run), i).value
               == log[start..if start + 100 <= |log| then start + 100 else |log|]
  {
    FetchGroupIff(env, After(env, run[..|run| - 1]), run[|run| - 1]);
    LogNumbered(env, run[..|run| - 1]);
    AnyPageIsSlice(After(env, run[..|run| - 1]).log.messages, run[|run| - 1].request.lastSeenId);
  }

  // ----- Welcomes -----

  /** Where in the table the user's welcomes stand. */
  ghost function PlacesOf(rows: seq<Welcome>, username: string): set<nat> {
    set k: nat | k < |rows| && rows[k].username == username
  }

  function SamePair(username: string, group: string): Welcome -> bool {
    (w: Welcome) => w.username == username && w.group == group
  }

  /**
   A welcome for a well-formed pair of user and group, with a text that decodes and is not too long,
   signed by a user who holds the admin key where one is set, while the target has fewer than twenty.
   */
  ghost predicate Storable(env: Env, s: State, i: Input)
    requires i.request.StoreWelcome?
  {
    && Admitted(s, i)
    && GroupNamed(i.request.groupName) && i.request.target.Some? && ValidUsername(i.request.target.value)
    && i.request.welcome.Some? && 1 <= |i.request.welcome.value| <= 174_763 && Decode(i.request.welcome.value).Some?
    && Signed(env, s.accounts, i.request.username,
              WelcomeText(i.request.groupName.value, i.request.target.value), i.request.signature)
    && (env.adminKey.Some? ==> HoldsAdminKey(env, s.accounts.users[i.request.username]))
    && |PlacesOf(s.mail.rows, i.request.target.value)| < 20
  }

  lemma QuotaInNumbers(rows: seq<Welcome>, username: string)
    ensures |Filter(For(username), rows)| == |PlacesOf(rows, username)|
  {
    FilterSize(For(username), rows);
    assert Places(For(username), rows) == PlacesOf(rows, username);
  }

  lemma StorableIff(env: Env, s: State, i: Input)
    requires i.request.StoreWelcome?
    ensures StoreOk(env, Clean(s, i), i) <==> Storable(env, s, i)
  {
    AdmittedIff(s, i);
    if i.request.target.Some? {
      QuotaInNumbers(s.mail.rows, i.request.target.value);
    }
    if Presentable(i.request.welcome) && Decode(i.request.welcome.value).Some? {
      DecodedCheckIsDead(i.request.welcome);
    }
  }

  /** Exactly such a welcome is stored, in place of the pair's earlier one; no other store changes the mailbox. */
  lemma StoreWelcomeIff(env: Env, s: State, i: Input)
    requires i.request.StoreWelcome?
    ensures Step(env, s, i).mail
         == if !Storable(env, s, i) then s.mail
            else
              var target, group := i.request.target.value, i.request.groupName.value;
              Mail(Filter(Not(SamePair(target, group)), s.mail.rows)
                   + [Welcome(s.mail.nextId, target, group, Decode(i.request.welcome.value).value)],
                   s.mail.nextId + 1)
  {
    StorableIff(env, s, i);
    if Storable(env, s, i) {
      FilterAgree(Not(ForIn(i.request.target.value, i.request.groupName.value)),
                  Not(SamePair(i.request.target.value, i.request.groupName.value)), s.mail.rows);
    }
  }

  /** The rows a fetch asks for: the caller's own, for one group or for all. */
  predicate AskedFor(i: Input, w: Welcome)
    requires i.request.FetchWelcome?
  {
    w.username == i.request.username && (i.request.groupName.Some? ==> w.group == i.request.groupName.value)
  }

  ghost predicate MayFetch(env: Env, s: State, i: Input)
    requires i.request.FetchWelcome?
  {
    Admitted(s, i)
    && Signed(env, s.accounts, i.request.username, FetchWelcomeText(i.request.username), i.request.signature)
  }

  lemma MayFetchIff(env: Env, s: State, i: Input)
    requires i.request.FetchWelcome?
    ensures FetchWelcomeOk(env, Clean(s, i), i) <==> MayFetch(env, s, i)
  {
    AdmittedIff(s, i);
  }

  /**
   A signed fetch returns exactly the caller's own welcomes, of the group it names if it names one,
   and removes exactly those; an unsigned one returns and removes nothing.
   */
  lemma FetchWelcomeIff(env: Env, s: State, i: Input, w: Welcome)
    requires i.request.FetchWelcome?
    ensures var taken := MayFetch(env, s, i) && AskedFor(i, w);
            && multiset(Returned(env, Clean(s, i), i))[w] == (if taken then multiset(s.mail.rows)[w] else 0)
            && multiset(Step(env, s, i).mail.rows)[w] == (if taken then 0 else multiset(s.mail.rows)[w])
  {
    MayFetchIff(env, s, i);
    FilterCount(Wanted(i.request), s.mail.rows, w);
    FilterCount(Not(Wanted(i.request)), s.mail.rows, w);
  }

  lemma OthersKeepMail(env: Env, s: State, i: Input)
    requires !i.request.StoreWelcome? && !i.request.FetchWelcome?
    ensures Step(env, s, i).mail == s.mail
  {
  }

  // ----- Commits -----

  ghost predicate Bufferable(env: Env, s: State, i: Input)
    requires i.request.BufferCommit?
  {
    && Admitted(s, i)
    && GroupNamed(i.request.groupName) && i.request.epoch.Some?
    && i.request.commit.Some? && i.request.commit.value != "" && Decode(i.request.commit.value).Some?
    && SignedMember(env, s.accounts, i.request.username,
                    GroupNumber(i.request.groupName.value, i.request.epoch.value), i.request.signature)
  }

  lemma BufferableIff(env: Env, s: State, i: Input)
    requires i.request.BufferCommit?
    ensures BufferOk(env, Clean(s, i), i) <==> Bufferable(env, s, i)
  {
    AdmittedIff(s, i);
  }

  /** A commit is buffered if and only if a member signed for the group and epoch; its sender is that member. */
  lemma BufferCommitIff(env: Env, s: State, i: Input)
    requires i.request.BufferCommit?
    ensures EntriesNow(env, Clean(s, i), i)
         == if Bufferable(env, s, i)
            then [CommitBuffer.Entry(i.request.groupName.value, i.request.epoch.value,
                                     Decode(i.request.commit.value).value, i.request.username)]
            else []
    ensures !Bufferable(env, s, i) ==> Step(env, s, i).commits == s.commits
  {
    BufferableIff(env, s, i);
  }

  lemma OthersKeepCommits(env: Env, s: State, i: Input)
    requires !i.request.BufferCommit?
    ensures EntriesNow(env, Clean(s, i), i) == [] && Step(env, s, i).commits == s.commits
  {
  }

  /** Commits are given out if and only if there is room and a member signed for the group and cursor. */
  lemma SyncIff(env: Env, s: State, i: Input)
    requires i.request.SyncEpoch?
    ensures Synced(env, Clean(s, i), i)
         == if && Admitted(s, i) && GroupNamed(i.request.groupName)
               && SignedMember(env, s.accounts, i.request.username,
                               GroupNumber(i.request.groupName.value, i.request.since), i.request.signature)
            then Some(CommitBuffer.Sync(s.commits, i.request.groupName.value, i.request.since)) else None
  {
    AdmittedIff(s, i);
  }

  /** Request k of the run buffers the entry, over its sender's signature. */
  ghost predicate BufferedAt(env: Env, run: Run, k: nat, e: CommitBuffer.Entry) {
    && k < |run| && run[k].request.BufferCommit?
    && Bufferable(env, After(env, run[..k]), run[k])
    && e == CommitBuffer.Entry(run[k].request.groupName.value, run[k].request.epoch.value,
                               Decode(run[k].request.commit.value).value, run[k].request.username)
  }

  lemma BufferedExtends(env: Env, run: Run, k: nat, e: CommitBuffer.Entry)
    requires run != [] && BufferedAt(env, run[..|run| - 1], k, e)
    ensures BufferedAt(env, run, k, e)
  {
    assert run[..|run| - 1][..k] == run[..k];
  }

  /** In every run each buffered commit has behind it a request that its sender, then a member, signed. */
  lemma {:induction false} CommitsAreSigned(env: Env, run: Run, e: CommitBuffer.Entry)
    requires e in EntriesIn(env, run)
    ensures exists k: nat :: BufferedAt(env, run, k, e)
  {
    var prefix, last := run[..|run| - 1], run[|run| - 1];
    if e in EntriesIn(env, prefix) {
      CommitsAreSigned(env, prefix, e);
      var k: nat :| BufferedAt(env, prefix, k, e);
      BufferedExtends(env, run, k, e);
    } else {
      LastBuffered(env, run, e);
    }
  }

  lemma LastBuffered(env: Env, run: Run, e: CommitBuffer.Entry)
    requires run != [] && e in EntriesNow(env, Seen(env, run), run[|run| - 1])
    ensures BufferedAt(env, run, |run| - 1, e)
  {
    var prefix, last := run[..|run| - 1], run[|run| - 1];
    if last.request.BufferCommit? {
      BufferCommitIff(env, After(env, prefix), last);
    } else {
      OthersKeepCommits(env, After(env, prefix), last);
    }
  }
}
