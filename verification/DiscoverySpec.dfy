/**
 The discovery and relay server as a state machine: one step per incoming message.

 Every handler is a function on the state left by the stale-entry cleanup that precedes it.
 Replies to the requester carry no state and are not part of the step.
 */
module DiscoverySpec {
  import opened Sequences
  import opened Validation
  import Limiter = RateLimiter

  const PENDING_TTL_SECS := 300
  const AUTH_MAX := 10
  const SEND_MAX := 60
  const MESSAGE_TTL_SECS := 604_800

  type Tag = string

  datatype User = User(publicKey: string, senderTag: Tag)

  datatype Payload = Json(text: string) | SealedBlob(text: string) | KeyPackageNeeded

  datatype Message = Message(sender: string, recipient: string, payload: Payload, action: string)

  /** A row of pending_messages. The random UUID of the original is a counter here. */
  datatype Row = Row(id: nat, message: Message, createdAt: int)

  /** A pending registration or login: the nonce is a counter instead of a random UUID. */
  datatype Challenge = Challenge(username: string, publicKey: string, nonce: nat, createdAt: int)

  /** The "type" of an outgoing message, by which alone a client tells a sealed message. */
  datatype Envelope = PlainEnvelope | SealedEnvelope

  /** Hand-overs to the transport, oldest first. */
  datatype Out =
    | Surb(tag: Tag, envelope: Envelope, message: Message)
    | Drained(tag: Tag, envelope: Envelope, row: Row)
    | Direct(tag: Tag, sender: string, body: string)

  /** What a signature is made over; the fields of the original's formatted strings. */
  datatype Content =
    | Nonce(nonce: nat)
    | PingText(username: string, timestamp: int)
    | AckText(username: string, timestamp: int, ids: seq<nat>)
    | FetchText(username: string, timestamp: int)
    | Body(text: string)

  datatype Env = Env(verify: (string, Content, string) -> bool, parses: Payload -> bool)

  datatype State = State(
    users: map<string, User>,
    pendingUsers: map<Tag, Challenge>,
    logins: map<Tag, Challenge>,
    queue: seq<Row>,
    nextRow: nat,
    nextNonce: nat,
    outbox: seq<Out>,
    auth: Limiter.Attempts,
    sends: Limiter.Attempts)

  const INIT := State(map[], map[], map[], [], 0, 0, [], map[], map[])

  /** Restart is no message: the process ends and starts again on the same database. */
  datatype Request =
    | Other
    | Restart
    | Register(tag: Tag, name: Option<string>, publicKey: Option<string>)
    | RegistrationResponse(tag: Tag, signature: Option<string>)
    | Login(tag: Tag, name: Option<string>)
    | LoginResponse(tag: Tag, signature: Option<string>)
    | LegacySend(tag: Tag, content: Option<LegacyContent>, signature: Option<string>)
    | Send(tag: Tag, sender: string, recipient: Option<string>, body: string, isMls: bool,
           signature: Option<string>)
    | SealedSend(tag: Tag, recipient: Option<string>, blob: Option<string>)
    | Forward(sender: string, recipient: Option<string>, body: string, kind: ForwardKind)
    | FetchPending(tag: Tag, username: string, timestamp: Option<int>, signature: Option<string>)
    | Ping(tag: Tag, username: string, timestamp: Option<int>, signature: Option<string>)
    | Ack(tag: Tag, username: string, ids: Option<seq<nat>>, timestamp: Option<int>,
          signature: Option<string>)
    | KeyPackagesMissing(username: string)

  /** The actions the server relays as they are. */
  datatype ForwardKind = KeyPackageRequest | KeyPackageResponse | GroupJoinResponse

  function ActionOf(kind: ForwardKind): string {
    match kind
    case KeyPackageRequest => "keyPackageRequest"
    case KeyPackageResponse => "keyPackageResponse"
    case GroupJoinResponse => "groupJoinResponse"
  }

  datatype LegacyContent = LegacyContent(text: string, sender: Option<string>, recipient: Option<string>)

  /**
   A message with the clocks at its arrival (monotonic milliseconds, Unix seconds) and whether
   the transport holds a reply block for the tag it would be relayed to.
   */
  datatype Input = Input(instant: int, unix: int, surbs: bool, request: Request)

  // ----- Shared pieces -----

  predicate Live(instant: int, c: Challenge) {
    Limiter.Elapsed(instant, c.createdAt) / 1000 < PENDING_TTL_SECS
  }

  function Unexpired(instant: int, pending: map<Tag, Challenge>): map<Tag, Challenge> {
    map tag | tag in pending && Live(instant, pending[tag]) :: pending[tag]
  }

  function Clean(s: State, instant: int): State {
    s.(pendingUsers := Unexpired(instant, s.pendingUsers),
       logins := Unexpired(instant, s.logins),
       auth := Limiter.Swept(s.auth),
       sends := Limiter.Swept(s.sends))
  }

  predicate AuthAllows(s: State, tag: Tag, instant: int) {
    Limiter.Allows(AUTH_MAX, Limiter.LIMIT_WINDOW_MS, s.auth, tag, instant)
  }

  function CountAuth(s: State, tag: Tag, instant: int): State {
    s.(auth := Limiter.Recorded(AUTH_MAX, Limiter.LIMIT_WINDOW_MS, s.auth, tag, instant))
  }

  predicate SendAllows(s: State, tag: Tag, instant: int) {
    Limiter.Allows(SEND_MAX, Limiter.LIMIT_WINDOW_MS, s.sends, tag, instant)
  }

  function CountSend(s: State, tag: Tag, instant: int): State {
    s.(sends := Limiter.Recorded(SEND_MAX, Limiter.LIMIT_WINDOW_MS, s.sends, tag, instant))
  }

  function WithTag(s: State, username: string, tag: Tag): State
    requires username in s.users
  {
    s.(users := s.users[username := s.users[username].(senderTag := tag)])
  }

  predicate SignedBy(env: Env, s: State, username: string, content: Content, signature: Option<string>) {
    username in s.users && signature.Some? && env.verify(s.users[username].publicKey, content, signature.value)
  }

  // ----- The pending queue -----

  function RowId(): Row -> nat { (r: Row) => r.id }

  function CreatedAt(): Row -> int { (r: Row) => r.createdAt }

  function LiveFor(username: string, unix: int): Row -> bool {
    (r: Row) => r.message.recipient == username && r.createdAt + MESSAGE_TTL_SECS > unix
  }

  function Named(username: string, ids: seq<nat>): Row -> bool {
    (r: Row) => r.message.recipient == username && r.id in ids
  }

  function Parsable(env: Env): Row -> bool {
    (r: Row) => env.parses(r.message.payload)
  }

  function ToTag(tag: Tag): Row -> Out {
    (r: Row) => Drained(tag, PlainEnvelope, r)
  }

  /** get_pending_messages: unexpired rows of one recipient by creation time. */
  function PendingFor(s: State, username: string, unix: int): seq<Row> {
    OrderBy(CreatedAt(), Filter(LiveFor(username, unix), s.queue))
  }

  /** The pending rows of a user whose stored payload can be read back. */
  function Ready(env: Env, s: State, username: string, unix: int): seq<Row> {
    Filter(Parsable(env), PendingFor(s, username, unix))
  }

  /** Hand the ready rows over to the tag, then delete them by their ids. */
  function DrainQueue(env: Env, s: State, tag: Tag, username: string, unix: int): State {
    var ready := Ready(env, s, username, unix);
    Without(s.(outbox := s.outbox + Map(ToTag(tag), ready)), username, Map(RowId(), ready))
  }

  /** delete_pending_messages_for_recipient. */
  function Without(s: State, username: string, ids: seq<nat>): State {
    s.(queue := Filter(Not(Named(username, ids)), s.queue))
  }

  function Enqueue(s: State, m: Message, unix: int): State {
    s.(queue := s.queue + [Row(s.nextRow, m, unix)], nextRow := s.nextRow + 1)
  }

  /** relay_with_persistence and its sealed twin, which differ in the envelope of the reply-block route. */
  function Relay(s: State, envelope: Envelope, m: Message, surbs: bool, unix: int): State {
    if m.recipient in s.users && surbs
    then s.(outbox := s.outbox + [Surb(s.users[m.recipient].senderTag, envelope, m)])
    else Enqueue(s, m, unix)
  }

  // ----- Which requests take effect, on the cleaned state -----

  predicate RegisterOk(s: State, i: Input) {
    && i.request.Register?
    && AuthAllows(s, i.request.tag, i.instant)
    && i.request.name.Some? && i.request.publicKey.Some?
    && ValidUsername(i.request.name.value)
    && i.request.name.value !in s.users
  }

  predicate LoginOk(s: State, i: Input) {
    && i.request.Login?
    && AuthAllows(s, i.request.tag, i.instant)
    && i.request.name.Some?
    && i.request.name.value in s.users
  }

  predicate PingOk(env: Env, s: State, i: Input) {
    && i.request.Ping?
    && AuthAllows(s, i.request.tag, i.instant)
    && i.request.timestamp.Some? && Timely(i.unix, i.request.timestamp.value)
    && SignedBy(env, s, i.request.username,
                PingText(i.request.username, i.request.timestamp.value), i.request.signature)
  }

  predicate AckOk(env: Env, s: State, i: Input) {
    && i.request.Ack?
    && i.request.ids.Some? && i.request.ids.value != []
    && i.request.timestamp.Some? && Timely(i.unix, i.request.timestamp.value)
    && SignedBy(env, s, i.request.username,
                AckText(i.request.username, i.request.timestamp.value, i.request.ids.value),
                i.request.signature)
  }

  predicate LegacySendOk(env: Env, s: State, i: Input) {
    && i.request.LegacySend?
    && i.request.content.Some?
    && i.request.content.value.sender.Some? && i.request.content.value.recipient.Some?
    && SignedBy(env, s, i.request.content.value.sender.value,
                Body(i.request.content.value.text), i.request.signature)
  }

  predicate Present(name: Option<string>) {
    name.Some? && name.value != ""
  }

  /** The message a request puts on the relay, if it is accepted. */
  function Accepted(env: Env, s: State, i: Input): Option<Message> {
    match i.request
    case Send(tag, sender, recipient, body, isMls, signature) =>
      if SendAllows(s, tag, i.instant) && SignedBy(env, s, sender, Body(body), signature)
         && isMls && Present(recipient) && recipient.value in s.users
      then Some(Message(sender, recipient.value, Json(body), "send")) else None
    case SealedSend(tag, recipient, blob) =>
      if SendAllows(s, tag, i.instant) && blob.Some? && Present(recipient) && recipient.value in s.users
      then Some(Message("__sealed__", recipient.value, SealedBlob(blob.value), "send")) else None
    case Forward(sender, recipient, body, kind) =>
      if recipient.Some? then Some(Message(sender, recipient.value, Json(body), ActionOf(kind))) else None
    case _ => None
  }

  function EnvelopeOf(r: Request): Envelope {
    if r.SealedSend? then SealedEnvelope else PlainEnvelope
  }

  /** The rows a request hands over, in the order they are handed over. */
  function Handed(env: Env, s: State, i: Input): seq<Row> {
    if PingOk(env, s, i) then Ready(env, s, i.request.username, i.unix) else []
  }

  /** The rows a fetchPending request is answered with, if it is signed; a missing timestamp is signed as 0. */
  function Fetched(env: Env, s: State, i: Input): Option<seq<Row>>
    requires i.request.FetchPending?
  {
    var timestamp := if i.request.timestamp.Some? then i.request.timestamp.value else 0;
    if SignedBy(env, s, i.request.username, FetchText(i.request.username, timestamp), i.request.signature)
    then Some(PendingFor(s, i.request.username, i.unix)) else None
  }

  function Acked(env: Env, s: State, i: Input): seq<Row> {
    if AckOk(env, s, i) then Filter(Named(i.request.username, i.request.ids.value), s.queue) else []
  }

  // ----- The handlers -----

  function RegisterStep(s: State, i: Input): State
    requires i.request.Register?
  {
    var t := CountAuth(s, i.request.tag, i.instant);
    if !RegisterOk(s, i) then t
    else
      var c := Challenge(i.request.name.value, i.request.publicKey.value, s.nextNonce, i.instant);
      t.(pendingUsers := t.pendingUsers[i.request.tag := c], nextNonce := s.nextNonce + 1)
  }

  function RegistrationResponseStep(env: Env, s: State, tag: Tag, signature: Option<string>): State {
    if signature.None? || tag !in s.pendingUsers then s
    else
      var c, t := s.pendingUsers[tag], s.(pendingUsers := s.pendingUsers - {tag});
      if env.verify(c.publicKey, Nonce(c.nonce), signature.value) && c.username !in s.users
      then t.(users := t.users[c.username := User(c.publicKey, tag)]) else t
  }

  function LoginStep(s: State, i: Input): State
    requires i.request.Login?
  {
    var t := CountAuth(s, i.request.tag, i.instant);
    if !LoginOk(s, i) then t
    else
      var name := i.request.name.value;
      var c := Challenge(name, s.users[name].publicKey, s.nextNonce, i.instant);
      t.(logins := t.logins[i.request.tag := c], nextNonce := s.nextNonce + 1)
  }

  function LoginResponseStep(env: Env, s: State, tag: Tag, signature: Option<string>): State {
    if signature.None? || tag !in s.logins then s
    else
      var c, t := s.logins[tag], s.(logins := s.logins - {tag});
      if env.verify(c.publicKey, Nonce(c.nonce), signature.value) && c.username in s.users
      then WithTag(t, c.username, tag) else t
  }

  function LegacySendStep(env: Env, s: State, i: Input): State
    requires i.request.LegacySend?
  {
    if !LegacySendOk(env, s, i) then s
    else
      var content := i.request.content.value;
      var t := WithTag(s, content.sender.value, i.request.tag);
      if content.recipient.value !in t.users then t
      else
        var out := Direct(t.users[content.recipient.value].senderTag, content.sender.value, content.text);
        t.(outbox := t.outbox + [out])
  }

  function RelayStep(env: Env, s: State, i: Input): State
    requires i.request.Send? || i.request.SealedSend? || i.request.Forward?
  {
    var t := if i.request.Forward? then s else CountSend(s, i.request.tag, i.instant);
    match Accepted(env, s, i)
    case Some(m) => Relay(t, EnvelopeOf(i.request), m, i.surbs, i.unix)
    case None => t
  }

  function PingStep(env: Env, s: State, i: Input): State
    requires i.request.Ping?
  {
    var t := CountAuth(s, i.request.tag, i.instant);
    if !PingOk(env, s, i) then t
    else DrainQueue(env, WithTag(t, i.request.username, i.request.tag), i.request.tag, i.request.username, i.unix)
  }

  function AckStep(env: Env, s: State, i: Input): State
    requires i.request.Ack?
  {
    if AckOk(env, s, i) then Without(s, i.request.username, i.request.ids.value) else s
  }

  function KeyPackagesMissingStep(s: State, username: string, unix: int): State {
    Enqueue(s, Message("__system__", username, KeyPackageNeeded, "keyPackageNeeded"), unix)
  }

  /** Challenges and rate limits live in memory only. */
  function RestartStep(s: State): State {
    s.(pendingUsers := map[], logins := map[], auth := map[], sends := map[])
  }

  function Handle(env: Env, s: State, i: Input): State {
    match i.request
    case Other => s
    case Restart => RestartStep(s)
    case Register(_, _, _) => RegisterStep(s, i)
    case RegistrationResponse(tag, signature) => RegistrationResponseStep(env, s, tag, signature)
    case Login(_, _) => LoginStep(s, i)
    case LoginResponse(tag, signature) => LoginResponseStep(env, s, tag, signature)
    case LegacySend(_, _, _) => LegacySendStep(env, s, i)
    case Send(_, _, _, _, _, _) => RelayStep(env, s, i)
    case SealedSend(_, _, _) => RelayStep(env, s, i)
    case Forward(_, _, _, _) => RelayStep(env, s, i)
    case FetchPending(_, _, _, _) => s
    case Ping(_, _, _, _) => PingStep(env, s, i)
    case Ack(_, _, _, _, _) => AckStep(env, s, i)
    case KeyPackagesMissing(username) => KeyPackagesMissingStep(s, username, i.unix)
  }

  function Step(env: Env, s: State, i: Input): State {
    Handle(env, Clean(s, i.instant), i)
  }

  type Run = seq<Input>

  function After(env: Env, run: Run): State {
    if run == [] then INIT else Step(env, After(env, run[..|run| - 1]), run[|run| - 1])
  }

  /** The state the handler of the last message sees. */
  function Seen(env: Env, run: Run): State
    requires run != []
  {
    Clean(After(env, run[..|run| - 1]), run[|run| - 1].instant)
  }
}
