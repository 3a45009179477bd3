/** The group server's message handler, as an object whose tables change in place. */
module GroupServer {
  import opened Base64
  import opened Sequences
  import opened Validation
  import opened GroupSpec
  import opened GroupDelivery
  import CommitBuffer
  import GroupMembership
  import Limiter = RateLimiter

  class MessageUtils {
    const env: Env
    var users: map<string, string>
    var pendingUsers: map<string, string>
    var keyPackages: Packages
    var groupExists: bool
    var groupMembers: set<string>
    var messages: seq<Msg>
    var nextMessage: nat
    var recentHashes: map<string, int>
    var pendingWelcomes: seq<Welcome>
    var nextWelcome: nat
    var bufferedCommits: seq<CommitBuffer.Commit>
    var nextCommit: nat
    const rateLimiter: Limiter.RateLimiter
    const rateLimiterGeneral: Limiter.RateLimiter

    /** The two limiters' settings. */
    ghost predicate Configured() {
      && rateLimiter != rateLimiterGeneral
      && rateLimiter.maxAttempts == REGISTER_MAX && rateLimiter.window == Limiter.LIMIT_WINDOW_MS
      && rateLimiterGeneral.maxAttempts == GENERAL_MAX && rateLimiterGeneral.window == Limiter.LIMIT_WINDOW_MS
    }

    /** What every message keeps: members are users, and the mailbox obeys its unique index and quota. */
    ghost predicate Valid()
      reads this, rateLimiter, rateLimiterGeneral
    {
      && Configured()
      && GroupMembership.MembersAreUsers(View().accounts)
      && MailBounded(View().mail)
    }

    ghost function View(): State
      reads this, rateLimiter, rateLimiterGeneral
    {
      State(Accounts(users, pendingUsers, groupMembers, groupExists), keyPackages,
            Log(messages, nextMessage, recentHashes),
            Mail(pendingWelcomes, nextWelcome),
            CommitBuffer.Buffer(bufferedCommits, nextCommit),
            Limits(rateLimiter.attempts, rateLimiterGeneral.attempts))
    }

    constructor (env: Env)
      ensures this.env == env && Valid() && View() == INIT
      ensures fresh(rateLimiter) && fresh(rateLimiterGeneral)
    {
      this.env := env;
      users, pendingUsers, groupExists, groupMembers, keyPackages := map[], map[], false, {}, map[];
      messages, nextMessage, recentHashes := [], 1, map[];
      pendingWelcomes, nextWelcome := [], 1;
      bufferedCommits, nextCommit := [], 1;
      rateLimiter := new Limiter.RateLimiter(REGISTER_MAX, Limiter.LIMIT_WINDOW_MS);
      rateLimiterGeneral := new Limiter.RateLimiter(GENERAL_MAX, Limiter.LIMIT_WINDOW_MS);
    }

    /** The process starts again on the same database and backfills the members. */
    constructor Reopen(previous: MessageUtils, i: Input)
      requires previous.Valid() && i.request.Restart?
      ensures env == previous.env && Valid() && View() == Step(previous.env, previous.View(), i)
      ensures fresh(rateLimiter) && fresh(rateLimiterGeneral)
    {
      env := previous.env;
      users, pendingUsers := previous.users, previous.pendingUsers;
      groupExists, groupMembers, keyPackages := previous.groupExists, previous.groupMembers, previous.keyPackages;
      messages, nextMessage, recentHashes := previous.messages, previous.nextMessage, previous.recentHashes;
      pendingWelcomes, nextWelcome := previous.pendingWelcomes, previous.nextWelcome;
      bufferedCommits, nextCommit := previous.bufferedCommits, previous.nextCommit;
      rateLimiter := new Limiter.RateLimiter(REGISTER_MAX, Limiter.LIMIT_WINDOW_MS);
      rateLimiterGeneral := new Limiter.RateLimiter(GENERAL_MAX, Limiter.LIMIT_WINDOW_MS);
      new;
      BackfillMembers();
      RestartMeans(env, previous.View(), i);
      StepKeepsValid(env, previous.View(), i);
    }

    /** A loop over all users; without the group row every insert is refused. */
    method BackfillMembers()
      modifies this`groupMembers
      ensures groupMembers == if groupExists then old(groupMembers) + users.Keys else old(groupMembers)
    {
      var todo := users.Keys;
      while todo != {}
        invariant todo <= users.Keys
        invariant groupMembers == if groupExists then old(groupMembers) + (users.Keys - todo) else old(groupMembers)
        decreases |todo|
      {
        var username :| username in todo;
        AddGroupMember(username);
        OneMoreDone(users.Keys, todo, username);
        todo := todo - {username};
      }
    }

    /** A whole life of the server, restarts included. */
    static method Serve(env: Env, run: Run) returns (server: MessageUtils)
      ensures fresh(server) && server.env == env && server.Valid()
      ensures server.View() == After(env, run)
    {
      server := new MessageUtils(env);
      for k := 0 to |run|
        invariant fresh(server) && fresh(server.rateLimiter) && fresh(server.rateLimiterGeneral)
        invariant server.env == env && server.Valid()
        invariant server.View() == After(env, run[..k])
      {
        AfterNext(env, run, k);
        if run[k].request.Restart? {
          server := new MessageUtils.Reopen(server, run[k]);
        } else {
          server.ProcessMessage(run[k]);
        }
      }
      assert run[..|run|] == run;
    }

    /** One incoming message: limiters and hashes are aged first, then the action's handler runs. */
    method ProcessMessage(i: Input)
      requires Valid() && !i.request.Restart?
      modifies this, rateLimiter, rateLimiterGeneral
      ensures Valid()
      ensures View() == Step(env, old(View()), i)
    {
      StepKeepsValid(env, View(), i);
      CleanUp(i);
      Dispatch(i);
    }

    method Dispatch(i: Input)
      requires Valid() && !i.request.Restart?
      modifies this, rateLimiter, rateLimiterGeneral
      ensures View() == Handle(env, old(View()), i)
    {
      match i.request {
        case Register(_, _, _, _, _, _, _) => HandleRegister(i);
        case Approve(_, _, _, _, _) => { var _ := HandleApproveGroup(i); }
        case SendGroup(_, _, _, _) => HandleSendGroup(i);
        case FetchGroup(_, _, _, _) => { var _ := HandleFetchGroup(i); }
        case StoreWelcome(_, _, _, _, _, _) => HandleStoreWelcome(i);
        case FetchWelcome(_, _, _, _) => { var _ := HandleFetchWelcome(i); }
        case SyncEpoch(_, _, _, _, _) => { var _ := HandleSyncEpoch(i); }
        case BufferCommit(_, _, _, _, _, _) => HandleBufferCommit(i);
        case Other =>
      }
    }

    method CleanUp(i: Input)
      requires Configured() && !i.request.Restart?
      modifies this`recentHashes, rateLimiter, rateLimiterGeneral
      ensures View() == Clean(old(View()), i)
    {
      rateLimiter.Cleanup();
      rateLimiterGeneral.Cleanup();
      recentHashes := map h | h in recentHashes && recentHashes[h] >= i.unix - DEDUP_SECS :: recentHashes[h];
    }

    method CheckGeneralRateLimit(tag: Tag, instant: int) returns (allowed: bool)
      requires Configured()
      modifies rateLimiterGeneral
      ensures allowed == GeneralAllows(old(View()).limits, tag, instant)
      ensures View() == old(View()).(limits := CountGeneral(old(View()).limits, tag, instant))
    {
      allowed := rateLimiterGeneral.CheckAndRecord(tag, instant);
    }

    /** By tag first; only an admitted tag counts against the name. */
    method CheckRegistrationLimits(i: Input) returns (allowed: bool)
      requires Configured() && i.request.Register?
      modifies rateLimiter
      ensures allowed == RegistrationCounted(old(View()).limits, i)
      ensures View() == old(View()).(limits := RegistrationLimits(old(View()).limits, i))
    {
      allowed := rateLimiter.CheckAndRecord(i.request.tag, i.instant);
      if allowed {
        allowed := rateLimiter.CheckAndRecord("user:" + i.request.username, i.instant);
      }
    }

    method AuthenticateRequest(username: string, content: Content, signature: string) returns (ok: bool)
      ensures ok == Authentic(env, View().accounts, username, content, signature)
    {
      if !ValidUsername(username) || username == "unknown" {
        return false;
      }
      if signature == "" || username !in users {
        return false;
      }
      return env.verify(users[username], content, signature);
    }

    // ----- Membership -----

    method HandleRegister(i: Input)
      requires Configured() && i.request.Register?
      modifies this`users, this`pendingUsers, this`groupExists, this`groupMembers, this`keyPackages, rateLimiter
      ensures View() == Handle(env, old(View()), i)
    {
      var username, key := i.request.username, i.request.publicKey;
      var allowed := CheckRegistrationLimits(i);
      if !allowed {
        return;
      }
      if !ValidUsername(username) || !Timely(i.unix, i.request.timestamp) || i.request.signature == "" {
        return;
      }
      if !env.verify(key, RegisterText(username, i.request.address, i.request.timestamp), i.request.signature) {
        return;
      }
      Admit(username, key, PackageIn(i.request.keyPackage));
    }

    /** The admin is approved at once; anyone else is put in pending. */
    method Admit(username: string, key: string, package: Option<Bytes>)
      modifies this`users, this`pendingUsers, this`groupExists, this`groupMembers, this`keyPackages
      ensures View().accounts == Registered(env, old(View()).accounts, username, key)
      ensures keyPackages == if Adds(env, old(View()).accounts, username, key)
                             then WithPackage(old(keyPackages), username, package) else old(keyPackages)
    {
      if IsAdminKey(env, key) {
        var added := AddUser(username, key);
        if added {
          StoreKeyPackage(username, package);
          groupExists := true;
          AddGroupMember(username);
        }
      } else {
        var added := AddPendingUser(username, key);
        if added {
          StoreKeyPackage(username, package);
        }
      }
    }

    method StoreKeyPackage(username: string, package: Option<Bytes>)
      modifies this`keyPackages
      ensures keyPackages == WithPackage(old(keyPackages), username, package)
    {
      if package.Some? {
        keyPackages := keyPackages[username := package.value];
      }
    }

    method HandleApproveGroup(i: Input) returns (reply: ApprovalReply)
      requires Configured() && i.request.Approve?
      modifies this`users, this`pendingUsers, this`groupMembers, rateLimiterGeneral
      ensures View() == Handle(env, old(View()), i)
      ensures reply == Approval(env, old(View()), i)
    {
      var username := i.request.username;
      var allowed := CheckGeneralRateLimit(i.request.tag, i.instant);
      if !allowed {
        return Refused;
      }
      if i.request.signature == "" || env.adminKey.None? {
        return Refused;
      }
      if i.request.group != env.groupId || !Timely(i.unix, i.request.timestamp) {
        return Refused;
      }
      if !env.verify(env.adminKey.value, ApproveText(username, i.request.group, i.request.timestamp),
                     i.request.signature) {
        return Refused;
      }
      reply := ApprovePending(username);
    }

    method ApprovePending(username: string) returns (reply: ApprovalReply)
      modifies this`users, this`pendingUsers, this`groupMembers
      ensures View().accounts == Approved(old(View()).accounts, username)
      ensures reply == if username in old(pendingUsers) && username !in old(users)
                       then Admitted(PackageText(keyPackages, username)) else Refused
    {
      if username !in pendingUsers {
        return Refused;
      }
      var keyPackage := if username in keyPackages then Some(Encode(keyPackages[username])) else None;
      var added := AddUser(username, pendingUsers[username]);
      if !added {
        return Refused;
      }
      pendingUsers := pendingUsers - {username};
      AddGroupMember(username);
      return Admitted(keyPackage);
    }

    /** INSERT OR IGNORE: the first key of a name stays. */
    method AddUser(username: string, publicKey: string) returns (added: bool)
      modifies this`users
      ensures added <==> username !in old(users)
      ensures users == if added then old(users)[username := publicKey] else old(users)
    {
      added := username !in users;
      if added {
        users := users[username := publicKey];
      }
    }

    method AddPendingUser(username: string, publicKey: string) returns (added: bool)
      modifies this`pendingUsers
      ensures added <==> username !in old(pendingUsers)
      ensures pendingUsers == if added then old(pendingUsers)[username := publicKey] else old(pendingUsers)
    {
      added := username !in pendingUsers;
      if added {
        pendingUsers := pendingUsers[username := publicKey];
      }
    }

    /** The foreign keys refuse a member without a user row or a group row. */
    method AddGroupMember(username: string)
      modifies this`groupMembers
      ensures groupMembers == if groupExists && username in users then old(groupMembers) + {username}
                              else old(groupMembers)
    {
      if groupExists && username in users {
        groupMembers := groupMembers + {username};
      }
    }

    // ----- Messages -----

    method HandleSendGroup(i: Input)
      requires Configured() && i.request.SendGroup?
      modifies this`messages, this`nextMessage, this`recentHashes, rateLimiterGeneral
      ensures View() == Handle(env, old(View()), i)
    {
      var username, ciphertext := i.request.username, i.request.ciphertext;
      var allowed := CheckGeneralRateLimit(i.request.tag, i.instant);
      if !allowed || ciphertext == "" {
        return;
      }
      var authentic := AuthenticateRequest(username, Cipher(ciphertext), i.request.signature);
      if !authentic || username !in groupMembers {
        return;
      }
      StoreUnlessDuplicate(username, ciphertext, i.unix);
    }

    method StoreUnlessDuplicate(username: string, ciphertext: string, unix: int)
      modifies this`messages, this`nextMessage, this`recentHashes
      ensures View().log == Stored(env, old(View()).log, username, ciphertext, unix)
    {
      var isNew := CheckAndStoreMessageHash(env.hash(DedupText(username, ciphertext)), unix);
      if isNew {
        StoreMessage(username, ciphertext, unix);
      }
    }

    method CheckAndStoreMessageHash(hash: string, unix: int) returns (isNew: bool)
      modifies this`recentHashes
      ensures isNew <==> hash !in old(recentHashes)
      ensures recentHashes == if isNew then old(recentHashes)[hash := unix] else old(recentHashes)
    {
      isNew := hash !in recentHashes;
      if isNew {
        recentHashes := recentHashes[hash := unix];
      }
    }

    method StoreMessage(sender: string, ciphertext: string, unix: int)
      modifies this`messages, this`nextMessage
      ensures messages == old(messages) + [Msg(old(nextMessage), sender, ciphertext, unix)]
      ensures nextMessage == old(nextMessage) + 1
    {
      messages := messages + [Msg(nextMessage, sender, ciphertext, unix)];
      nextMessage := nextMessage + 1;
    }

    /** The reply is one page of the log; the log itself stays. */
    method HandleFetchGroup(i: Input) returns (page: Option<seq<Msg>>)
      requires Configured() && i.request.FetchGroup?
      modifies rateLimiterGeneral
      ensures View() == Handle(env, old(View()), i)
      ensures page == FetchedPage(env, old(View()), i)
    {
      var username, since := i.request.username, i.request.lastSeenId;
      var allowed := CheckGeneralRateLimit(i.request.tag, i.instant);
      if !allowed {
        return None;
      }
      var authentic := AuthenticateRequest(username, CursorText(since), i.request.signature);
      if !authentic || username !in groupMembers {
        return None;
      }
      return Some(Page(messages, since));
    }

    // ----- Welcomes -----

    method HandleStoreWelcome(i: Input)
      requires Configured() && i.request.StoreWelcome?
      modifies this`pendingWelcomes, this`nextWelcome, rateLimiterGeneral
      ensures View() == Handle(env, old(View()), i)
    {
      var allowed := CheckGeneralRateLimit(i.request.tag, i.instant);
      if !allowed || !ValidGroup(i.request.groupName) {
        return;
      }
      if i.request.target.None? || !ValidUsername(i.request.target.value) {
        return;
      }
      if !Presentable(i.request.welcome) {
        return;
      }
      var decoded := Decode(i.request.welcome.value);
      if decoded.None? || |decoded.value| > MAX_WELCOME_DECODED_SIZE {
        return;
      }
      var group, target := i.request.groupName.value, i.request.target.value;
      var authentic := AuthenticateRequest(i.request.username, WelcomeText(group, target), i.request.signature);
      if !authentic {
        return;
      }
      if env.adminKey.Some? && !IsAdminKey(env, users[i.request.username]) {
        return;
      }
      if |Filter(For(target), pendingWelcomes)| >= MAX_WELCOMES_PER_USER {
        return;
      }
      StoreWelcome(target, group, decoded.value);
    }

    method StoreWelcome(username: string, group: string, data: Bytes)
      modifies this`pendingWelcomes, this`nextWelcome
      ensures Mail(pendingWelcomes, nextWelcome)
           == Delivered(Mail(old(pendingWelcomes), old(nextWelcome)), username, group, data)
    {
      RemoveWelcome(username, group);
      pendingWelcomes := pendingWelcomes + [Welcome(nextWelcome, username, group, data)];
      nextWelcome := nextWelcome + 1;
    }

    method RemoveWelcome(username: string, group: string)
      modifies this`pendingWelcomes
      ensures pendingWelcomes == Filter(Not(ForIn(username, group)), old(pendingWelcomes))
    {
      pendingWelcomes := Filter(Not(ForIn(username, group)), pendingWelcomes);
    }

    /** The reply holds the welcomes; each is removed as it is fetched. */
    method HandleFetchWelcome(i: Input) returns (welcomes: seq<Welcome>)
      requires Configured() && MailBounded(Mail(pendingWelcomes, nextWelcome)) && i.request.FetchWelcome?
      modifies this`pendingWelcomes, rateLimiterGeneral
      ensures View() == Handle(env, old(View()), i)
      ensures welcomes == Returned(env, old(View()), i)
    {
      var username := i.request.username;
      var allowed := CheckGeneralRateLimit(i.request.tag, i.instant);
      if !allowed {
        return [];
      }
      var authentic := AuthenticateRequest(username, FetchWelcomeText(username), i.request.signature);
      if !authentic {
        return [];
      }
      match i.request.groupName {
        case Some(group) => welcomes := TakeWelcome(username, group);
        case None => welcomes := TakeAllWelcomes(username);
      }
    }

    method TakeWelcome(username: string, group: string) returns (welcomes: seq<Welcome>)
      requires MailBounded(Mail(pendingWelcomes, nextWelcome))
      modifies this`pendingWelcomes
      ensures welcomes == Filter(ForIn(username, group), old(pendingWelcomes))
      ensures pendingWelcomes == Filter(Not(ForIn(username, group)), old(pendingWelcomes))
    {
      var found := Filter(ForIn(username, group), pendingWelcomes);
      if found == [] {
        NoneRemoved(username, group, pendingWelcomes);
        return [];
      }
      OneAtMost(username, group, pendingWelcomes);
      welcomes := [found[0]];
      RemoveWelcome(username, group);
    }

    method TakeAllWelcomes(username: string) returns (welcomes: seq<Welcome>)
      modifies this`pendingWelcomes
      ensures welcomes == Filter(For(username), old(pendingWelcomes))
      ensures pendingWelcomes == Filter(Not(For(username)), old(pendingWelcomes))
    {
      welcomes := Filter(For(username), pendingWelcomes);
      FilterMembers(For(username), pendingWelcomes);
      for k := 0 to |welcomes|
        invariant Filter(Not(For(username)), pendingWelcomes) == Filter(Not(For(username)), old(pendingWelcomes))
        invariant OwnAmong(username, pendingWelcomes, welcomes[k..])
      {
        OneTaken(username, pendingWelcomes, welcomes, k);
        RemoveWelcome(username, welcomes[k].group);
      }
      FilterAll(Not(For(username)), pendingWelcomes);
    }

    // ----- Commits -----

    method HandleSyncEpoch(i: Input) returns (commits: Option<seq<CommitBuffer.Commit>>)
      requires Configured() && i.request.SyncEpoch?
      modifies rateLimiterGeneral
      ensures View() == Handle(env, old(View()), i)
      ensures commits == Synced(env, old(View()), i)
    {
      var username, since := i.request.username, i.request.since;
      var allowed := CheckGeneralRateLimit(i.request.tag, i.instant);
      if !allowed || !ValidGroup(i.request.groupName) {
        return None;
      }
      var group := i.request.groupName.value;
      var authentic := AuthenticateRequest(username, GroupNumber(group, since), i.request.signature);
      if !authentic || username !in groupMembers {
        return None;
      }
      return Some(CommitBuffer.Sync(CommitBuffer.Buffer(bufferedCommits, nextCommit), group, since));
    }

    method HandleBufferCommit(i: Input)
      requires Configured() && i.request.BufferCommit?
      modifies this`bufferedCommits, this`nextCommit, rateLimiterGeneral
      ensures View() == Handle(env, old(View()), i)
    {
      var username, epoch := i.request.username, i.request.epoch;
      var allowed := CheckGeneralRateLimit(i.request.tag, i.instant);
      if !allowed || !ValidGroup(i.request.groupName) || epoch.None? {
        return;
      }
      if i.request.commit.None? || i.request.commit.value == "" {
        return;
      }
      var decoded := Decode(i.request.commit.value);
      if decoded.None? {
        return;
      }
      var group := i.request.groupName.value;
      var authentic := AuthenticateRequest(username, GroupNumber(group, epoch.value), i.request.signature);
      if !authentic || username !in groupMembers {
        return;
      }
      BufferCommit(group, epoch.value, decoded.value, username);
      CleanupOldCommits(group, CommitBuffer.KEEP);
    }

    method BufferCommit(group: string, epoch: int, data: Bytes, sender: string)
      modifies this`bufferedCommits, this`nextCommit
      ensures View().commits == CommitBuffer.Append(old(View()).commits, group, epoch, data, sender)
    {
      bufferedCommits := bufferedCommits + [CommitBuffer.Commit(nextCommit, group, epoch, data, sender)];
      nextCommit := nextCommit + 1;
    }

    /** Deletes the group's rows outside its newest ones. */
    method CleanupOldCommits(group: string, keep: nat)
      modifies this`bufferedCommits
      ensures View().commits == CommitBuffer.Trim(old(View()).commits, group, keep)
    {
      var newest := CommitBuffer.NewestIds(CommitBuffer.Buffer(bufferedCommits, nextCommit), group, keep);
      bufferedCommits := Filter(Not(CommitBuffer.Outdated(group, newest)), bufferedCommits);
    }
  }

  /** The user's remaining welcomes are all in the list. */
  ghost predicate OwnAmong(username: string, rows: seq<Welcome>, list: seq<Welcome>) {
    forall w :: w in rows && w.username == username ==> w in list
  }

  lemma OneTaken(username: string, rows: seq<Welcome>, welcomes: seq<Welcome>, k: nat)
    requires k < |welcomes| && OwnAmong(username, rows, welcomes[k..])
    ensures var left := Filter(Not(ForIn(username, welcomes[k].group)), rows);
            && OwnAmong(username, left, welcomes[k + 1..])
            && Filter(Not(For(username)), left) == Filter(Not(For(username)), rows)
  {
    FilterMembers(Not(ForIn(username, welcomes[k].group)), rows);
    FilterWithin(Not(ForIn(username, welcomes[k].group)), Not(For(username)), rows);
    assert welcomes[k..] == [welcomes[k]] + welcomes[k + 1..];
  }

  lemma OneMoreDone(all: set<string>, todo: set<string>, name: string)
    requires todo <= all && name in todo
    ensures all - todo + {name} == all - (todo - {name})
  {
  }

  lemma StepKeepsValid(env: Env, s: State, i: Input)
    requires GroupMembership.MembersAreUsers(s.accounts) && MailBounded(s.mail)
    ensures GroupMembership.MembersAreUsers(Step(env, s, i).accounts) && MailBounded(Step(env, s, i).mail)
  {
    GroupMembership.StepMembers(env, Clean(s, i), i);
    StepKeepsMail(env, Clean(s, i), i);
  }

  lemma RestartMeans(env: Env, s: State, i: Input)
    requires i.request.Restart?
    ensures Step(env, s, i) == State(Backfilled(s.accounts), s.packages, s.log, s.mail, s.commits, Limits(map[], map[]))
  {
  }

  lemma AfterNext(env: Env, run: Run, k: nat)
    requires k < |run|
    ensures After(env, run[..k + 1]) == Step(env, After(env, run[..k]), run[k])
  {
    assert run[..k + 1][..k] == run[..k];
  }

  lemma NoneRemoved(username: string, group: string, rows: seq<Welcome>)
    requires Filter(ForIn(username, group), rows) == []
    ensures Filter(Not(ForIn(username, group)), rows) == rows
  {
    FilterMembers(ForIn(username, group), rows);
    FilterAll(Not(ForIn(username, group)), rows);
  }

  /** A user has at most one welcome per group, so fetching the first match fetches them all. */
  lemma {:induction false} OneAtMost(username: string, group: string, rows: seq<Welcome>)
    requires forall i, j :: 0 <= i < j < |rows| ==> rows[i].username != rows[j].username
                                                    || rows[i].group != rows[j].group
    ensures |Filter(ForIn(username, group), rows)| <= 1
  {
    if rows != [] {
      var k := |rows| - 1;
      OneAtMost(username, group, rows[..k]);
      if ForIn(username, group)(rows[k]) {
        FilterMembers(ForIn(username, group), rows[..k]);
        FilterNone(ForIn(username, group), rows[..k]);
      }
    }
  }
}
