/**
 The group server as a state machine: one step per incoming message.

 Each step first ages the deduplication table and the rate limiters, then runs one handler on
 the result. Replies carry no state and are not part of the step.
 */
module GroupSpec {
  import opened Base64
  import opened Sequences
  import opened Validation
  import Limiter = RateLimiter
  import CommitBuffer

  const REGISTER_MAX := 10
  const GENERAL_MAX := 60
  const DEDUP_SECS := 600
  const PAGE := 100
  const MAX_WELCOME_B64_LEN := 174_763
  const MAX_WELCOME_DECODED_SIZE := 131_072
  const MAX_WELCOMES_PER_USER := 20

  type Tag = string

  /** Users and pending registrations map names to public keys; members belong to this server's group. */
  datatype Accounts = Accounts(
    users: map<string, string>,
    pending: map<string, string>,
    members: set<string>,
    groupExists: bool)

  /** Key packages by name, of pending and admitted users alike. */
  type Packages = map<string, Bytes>

  /** A stored message; `at` is the Unix second it was stored. */
  datatype Msg = Msg(id: nat, sender: string, ciphertext: string, at: int)

  datatype Log = Log(messages: seq<Msg>, nextId: nat, hashes: map<string, int>)

  datatype Welcome = Welcome(id: nat, username: string, group: string, data: Bytes)

  datatype Mail = Mail(rows: seq<Welcome>, nextId: nat)

  datatype Limits = Limits(registration: Limiter.Attempts, general: Limiter.Attempts)

  datatype State = State(
    accounts: Accounts,
    packages: Packages,
    log: Log,
    mail: Mail,
    commits: CommitBuffer.Buffer,
    limits: Limits)

  const INIT := State(Accounts(map[], map[], {}, false), map[], Log([], 1, map[]), Mail([], 1),
                      CommitBuffer.EMPTY, Limits(map[], map[]))

  /** What a signature is made over; the fields of the original's formatted strings. */
  datatype Content =
    | RegisterText(username: string, address: string, timestamp: int)
    | ApproveText(username: string, group: string, timestamp: int)
    | Cipher(text: string)
    | CursorText(cursor: int)
    | WelcomeText(group: string, target: string)
    | FetchWelcomeText(username: string)
    | GroupNumber(group: string, number: int)

  datatype Env = Env(
    verify: (string, Content, string) -> bool,
    trim: string -> string,
    hash: string -> string,
    adminKey: Option<string>,
    groupId: string)

  /** Restart is no message: the process ends and starts again on the same database. */
  datatype Request =
    | Other
    | Restart
    | Register(tag: Tag, username: string, publicKey: string, address: string, timestamp: int, signature: string,
               keyPackage: Option<string>)
    | Approve(tag: Tag, username: string, group: string, timestamp: int, signature: string)
    | SendGroup(tag: Tag, username: string, ciphertext: string, signature: string)
    | FetchGroup(tag: Tag, username: string, lastSeenId: int, signature: string)
    | StoreWelcome(tag: Tag, username: string, groupName: Option<string>, target: Option<string>,
                   welcome: Option<string>, signature: string)
    | FetchWelcome(tag: Tag, username: string, groupName: Option<string>, signature: string)
    | SyncEpoch(tag: Tag, username: string, groupName: Option<string>, since: int, signature: string)
    | BufferCommit(tag: Tag, username: string, groupName: Option<string>, epoch: Option<int>,
                   commit: Option<string>, signature: string)

  /** A message with the clocks at its arrival: monotonic milliseconds and Unix seconds. */
  datatype Input = Input(instant: int, unix: int, request: Request)

  // ----- Shared pieces -----

  function AgedHashes(hashes: map<string, int>, unix: int): map<string, int> {
    map h | h in hashes && hashes[h] >= unix - DEDUP_SECS :: hashes[h]
  }

  /** A message ages the hashes and sweeps the limiters; a restart begins with empty limiters. */
  function Clean(s: State, i: Input): State {
    if i.request.Restart? then s.(limits := Limits(map[], map[]))
    else s.(limits := Limits(Limiter.Swept(s.limits.registration), Limiter.Swept(s.limits.general)),
       log := s.log.(hashes := AgedHashes(s.log.hashes, i.unix)))
  }

  predicate RegistrationAllows(l: Limits, key: string, instant: int) {
    Limiter.Allows(REGISTER_MAX, Limiter.LIMIT_WINDOW_MS, l.registration, key, instant)
  }

  function CountRegistration(l: Limits, key: string, instant: int): Limits {
    l.(registration := Limiter.Recorded(REGISTER_MAX, Limiter.LIMIT_WINDOW_MS, l.registration, key, instant))
  }

  predicate GeneralAllows(l: Limits, key: string, instant: int) {
    Limiter.Allows(GENERAL_MAX, Limiter.LIMIT_WINDOW_MS, l.general, key, instant)
  }

  function CountGeneral(l: Limits, key: string, instant: int): Limits {
    l.(general := Limiter.Recorded(GENERAL_MAX, Limiter.LIMIT_WINDOW_MS, l.general, key, instant))
  }

  /** authenticate_request_core. */
  predicate Authentic(env: Env, a: Accounts, username: string, content: Content, signature: string) {
    && ValidUsername(username) && username != "unknown"
    && signature != ""
    && username in a.users
    && env.verify(a.users[username], content, signature)
  }

  predicate IsAdminKey(env: Env, key: string) {
    env.adminKey.Some? && env.trim(env.adminKey.value) == env.trim(key)
  }

  predicate ValidGroup(group: Option<string>) {
    group.Some? && ValidGroupId(group.value)
  }

  // ----- Accounts -----

  /** The two checks of the registration limiter, by tag and then by name. */
  predicate RegistrationCounted(l: Limits, i: Input)
    requires i.request.Register?
  {
    && RegistrationAllows(l, i.request.tag, i.instant)
    && RegistrationAllows(CountRegistration(l, i.request.tag, i.instant), "user:" + i.request.username, i.instant)
  }

  function RegistrationLimits(l: Limits, i: Input): Limits
    requires i.request.Register?
  {
    var once := CountRegistration(l, i.request.tag, i.instant);
    if RegistrationAllows(l, i.request.tag, i.instant)
    then CountRegistration(once, "user:" + i.request.username, i.instant) else once
  }

  predicate RegisterOk(env: Env, s: State, i: Input) {
    && i.request.Register?
    && RegistrationCounted(s.limits, i)
    && ValidUsername(i.request.username)
    && Timely(i.unix, i.request.timestamp)
    && i.request.signature != ""
    && env.verify(i.request.publicKey,
                  RegisterText(i.request.username, i.request.address, i.request.timestamp), i.request.signature)
  }

  /** The key package a registration carries; undecodable text counts as none. */
  function PackageIn(text: Option<string>): Option<Bytes> {
    match text
    case Some(t) => Decode(t)
    case None => None
  }

  function PackageOf(packages: Packages, name: string): Option<Bytes> {
    if name in packages then Some(packages[name]) else None
  }

  function PackageText(packages: Packages, name: string): Option<string> {
    match PackageOf(packages, name)
    case Some(data) => Some(Encode(data))
    case None => None
  }

  function WithPackage(packages: Packages, name: string, package: Option<Bytes>): Packages {
    match package
    case Some(data) => packages[name := data]
    case None => packages
  }

  /** Only a registration that adds a row, to users or to pending, brings its key package in. */
  predicate Adds(env: Env, a: Accounts, name: string, key: string) {
    if IsAdminKey(env, key) then name !in a.users else name !in a.pending
  }

  /** The admin is admitted at once and brings the group row into being; others wait. */
  function Registered(env: Env, a: Accounts, name: string, key: string): Accounts {
    if IsAdminKey(env, key) then
      if name in a.users then a
      else a.(users := a.users[name := key], groupExists := true, members := a.members + {name})
    else if name in a.pending then a
    else a.(pending := a.pending[name := key])
  }

  predicate ApproveOk(env: Env, s: State, i: Input) {
    && i.request.Approve?
    && GeneralAllows(s.limits, i.request.tag, i.instant)
    && i.request.signature != ""
    && env.adminKey.Some?
    && i.request.group == env.groupId
    && Timely(i.unix, i.request.timestamp)
    && env.verify(env.adminKey.value,
                  ApproveText(i.request.username, i.request.group, i.request.timestamp), i.request.signature)
  }

  /** Without the group row the membership insert violates its foreign key and is dropped. */
  function Approved(a: Accounts, name: string): Accounts {
    if name !in a.pending || name in a.users then a
    else
      a.(users := a.users[name := a.pending[name]],
         pending := a.pending - {name},
         members := if a.groupExists then a.members + {name} else a.members)
  }

  /** What an approval answers: the key package the admin needs to add the new member. */
  datatype ApprovalReply = Refused | Admitted(keyPackage: Option<string>)

  function Approval(env: Env, s: State, i: Input): ApprovalReply {
    if ApproveOk(env, s, i) && i.request.username in s.accounts.pending && i.request.username !in s.accounts.users then
      Admitted(PackageText(s.packages, i.request.username))
    else Refused
  }

  /** The start-up backfill: every user becomes a member, if the group row is there to refer to. */
  function Backfilled(a: Accounts): Accounts {
    if a.groupExists then a.(members := a.members + a.users.Keys) else a
  }

  // ----- Messages -----

  function DedupText(sender: string, ciphertext: string): string {
    sender + ":" + ciphertext
  }

  /** Everything a send must pass before the deduplication check. */
  predicate SendOk(env: Env, s: State, i: Input) {
    && i.request.SendGroup?
    && GeneralAllows(s.limits, i.request.tag, i.instant)
    && i.request.ciphertext != ""
    && Authentic(env, s.accounts, i.request.username, Cipher(i.request.ciphertext), i.request.signature)
    && i.request.username in s.accounts.members
  }

  predicate Duplicate(env: Env, log: Log, sender: string, ciphertext: string) {
    env.hash(DedupText(sender, ciphertext)) in log.hashes
  }

  function Stored(env: Env, log: Log, sender: string, ciphertext: string, unix: int): Log {
    if Duplicate(env, log, sender, ciphertext) then log
    else
      Log(log.messages + [Msg(log.nextId, sender, ciphertext, unix)], log.nextId + 1,
          log.hashes[env.hash(DedupText(sender, ciphertext)) := unix])
  }

  function MsgId(): Msg -> int { (m: Msg) => m.id }

  function MsgAfter(since: int): Msg -> bool { (m: Msg) => m.id > since }

  /** get_messages_since: by id, at most a page. */
  function Page(messages: seq<Msg>, since: int): seq<Msg> {
    Take(PAGE, OrderBy(MsgId(), Filter(MsgAfter(since), messages)))
  }

  // ----- Welcomes -----

  function For(username: string): Welcome -> bool { (w: Welcome) => w.username == username }

  function ForIn(username: string, group: string): Welcome -> bool {
    (w: Welcome) => w.username == username && w.group == group
  }

  predicate Presentable(welcome: Option<string>) {
    welcome.Some? && welcome.value != "" && |welcome.value| <= MAX_WELCOME_B64_LEN
  }

  predicate StoreOk(env: Env, s: State, i: Input) {
    && i.request.StoreWelcome?
    && GeneralAllows(s.limits, i.request.tag, i.instant)
    && ValidGroup(i.request.groupName)
    && i.request.target.Some? && ValidUsername(i.request.target.value)
    && Presentable(i.request.welcome)
    && Decode(i.request.welcome.value).Some?
    && |Decode(i.request.welcome.value).value| <= MAX_WELCOME_DECODED_SIZE
    && Authentic(env, s.accounts, i.request.username,
                 WelcomeText(i.request.groupName.value, i.request.target.value), i.request.signature)
    && (env.adminKey.Some? ==> IsAdminKey(env, s.accounts.users[i.request.username]))
    && |Filter(For(i.request.target.value), s.mail.rows)| < MAX_WELCOMES_PER_USER
  }

  /** INSERT OR REPLACE on the unique pair of user and group. */
  function Delivered(m: Mail, username: string, group: string, data: Bytes): Mail {
    Mail(Filter(Not(ForIn(username, group)), m.rows) + [Welcome(m.nextId, username, group, data)], m.nextId + 1)
  }

  predicate FetchWelcomeOk(env: Env, s: State, i: Input) {
    && i.request.FetchWelcome?
    && GeneralAllows(s.limits, i.request.tag, i.instant)
    && Authentic(env, s.accounts, i.request.username, FetchWelcomeText(i.request.username), i.request.signature)
  }

  /** The welcomes a fetch asks for. */
  function Wanted(r: Request): Welcome -> bool
    requires r.FetchWelcome?
  {
    match r.groupName
    case Some(group) => ForIn(r.username, group)
    case None => For(r.username)
  }

  function Returned(env: Env, s: State, i: Input): seq<Welcome> {
    if FetchWelcomeOk(env, s, i) then Filter(Wanted(i.request), s.mail.rows) else []
  }

  // ----- Commits -----

  predicate BufferOk(env: Env, s: State, i: Input) {
    && i.request.BufferCommit?
    && GeneralAllows(s.limits, i.request.tag, i.instant)
    && ValidGroup(i.request.groupName)
    && i.request.epoch.Some?
    && i.request.commit.Some? && i.request.commit.value != ""
    && Decode(i.request.commit.value).Some?
    && Authentic(env, s.accounts, i.request.username,
                 GroupNumber(i.request.groupName.value, i.request.epoch.value), i.request.signature)
    && i.request.username in s.accounts.members
  }

  predicate SyncOk(env: Env, s: State, i: Input) {
    && i.request.SyncEpoch?
    && GeneralAllows(s.limits, i.request.tag, i.instant)
    && ValidGroup(i.request.groupName)
    && Authentic(env, s.accounts, i.request.username,
                 GroupNumber(i.request.groupName.value, i.request.since), i.request.signature)
    && i.request.username in s.accounts.members
  }

  /** The commits a sync request gets back, if it passes. */
  function Synced(env: Env, s: State, i: Input): Option<seq<CommitBuffer.Commit>> {
    if SyncOk(env, s, i) then Some(CommitBuffer.Sync(s.commits, i.request.groupName.value, i.request.since)) else None
  }

  predicate FetchGroupOk(env: Env, s: State, i: Input) {
    && i.request.FetchGroup?
    && GeneralAllows(s.limits, i.request.tag, i.instant)
    && Authentic(env, s.accounts, i.request.username, CursorText(i.request.lastSeenId), i.request.signature)
    && i.request.username in s.accounts.members
  }

  /** The page a fetch request gets back, if it passes. */
  function FetchedPage(env: Env, s: State, i: Input): Option<seq<Msg>> {
    if FetchGroupOk(env, s, i) then Some(Page(s.log.messages, i.request.lastSeenId)) else None
  }

  // ----- The step -----

  function NextAccounts(env: Env, s: State, i: Input): Accounts {
    if RegisterOk(env, s, i) then Registered(env, s.accounts, i.request.username, i.request.publicKey)
    else if ApproveOk(env, s, i) then Approved(s.accounts, i.request.username)
    else if i.request.Restart? then Backfilled(s.accounts)
    else s.accounts
  }

  function NextPackages(env: Env, s: State, i: Input): Packages {
    if RegisterOk(env, s, i) && Adds(env, s.accounts, i.request.username, i.request.publicKey)
    then WithPackage(s.packages, i.request.username, PackageIn(i.request.keyPackage))
    else s.packages
  }

  function NextLog(env: Env, s: State, i: Input): Log {
    if SendOk(env, s, i) then Stored(env, s.log, i.request.username, i.request.ciphertext, i.unix) else s.log
  }

  function NextMail(env: Env, s: State, i: Input): Mail {
    if StoreOk(env, s, i) then
      Delivered(s.mail, i.request.target.value, i.request.groupName.value,
                Decode(i.request.welcome.value).value)
    else if FetchWelcomeOk(env, s, i) then s.mail.(rows := Filter(Not(Wanted(i.request)), s.mail.rows))
    else s.mail
  }

  function NextCommits(env: Env, s: State, i: Input): CommitBuffer.Buffer {
    if BufferOk(env, s, i) then
      CommitBuffer.Buffered(s.commits, i.request.groupName.value, i.request.epoch.value,
                            Decode(i.request.commit.value).value, i.request.username)
    else s.commits
  }

  function NextLimits(l: Limits, i: Input): Limits {
    if i.request.Other? || i.request.Restart? then l
    else if i.request.Register? then RegistrationLimits(l, i)
    else CountGeneral(l, i.request.tag, i.instant)
  }

  function Handle(env: Env, s: State, i: Input): State {
    State(NextAccounts(env, s, i), NextPackages(env, s, i), NextLog(env, s, i), NextMail(env, s, i),
          NextCommits(env, s, i), NextLimits(s.limits, i))
  }

  function Step(env: Env, s: State, i: Input): State {
    Handle(env, Clean(s, i), i)
  }

  type Run = seq<Input>

  function After(env: Env, run: Run): State {
    if run == [] then INIT else Step(env, After(env, run[..|run| - 1]), run[|run| - 1])
  }

  /** The state the handler of the last message sees. */
  function Seen(env: Env, run: Run): State
    requires run != []
  {
    Clean(After(env, run[..|run| - 1]), run[|run| - 1])
  }
}
