/** The discovery server's message handler, as an object whose tables change in place. */
module DiscoveryServer {
  import opened Sequences
  import opened Validation
  import opened DiscoverySpec
  import Accounts
  import Limiter = RateLimiter
  import RelayConservation

  lemma DrainOne(env: Env, tag: Tag, rows: seq<Row>, k: nat)
    requires k < |rows|
    ensures var a, b := Filter(Parsable(env), rows[..k]), Filter(Parsable(env), rows[..k + 1]);
            if env.parses(rows[k].message.payload)
            then && Map(ToTag(tag), b) == Map(ToTag(tag), a) + [Drained(tag, PlainEnvelope, rows[k])]
                 && Map(RowId(), b) == Map(RowId(), a) + [rows[k].id]
            else b == a
  {
    assert rows[..k + 1] == rows[..k] + [rows[k]];
    FilterSnoc(Parsable(env), rows[..k], rows[k]);
    MapSnoc(ToTag(tag), Filter(Parsable(env), rows[..k]), rows[k]);
    MapSnoc(RowId(), Filter(Parsable(env), rows[..k]), rows[k]);
  }

  /** What the first k rows put on the transport, after what was there before. */
  function HandedOver(env: Env, tag: Tag, before: seq<Out>, rows: seq<Row>, k: nat): seq<Out>
    requires k <= |rows|
  {
    before + Map(ToTag(tag), Filter(Parsable(env), rows[..k]))
  }

  function IdsOver(env: Env, rows: seq<Row>, k: nat): seq<nat>
    requires k <= |rows|
  {
    Map(RowId(), Filter(Parsable(env), rows[..k]))
  }

  lemma DeliverNext(env: Env, tag: Tag, before: seq<Out>, rows: seq<Row>, k: nat)
    requires k < |rows|
    ensures var out, ids := HandedOver(env, tag, before, rows, k), IdsOver(env, rows, k);
            if env.parses(rows[k].message.payload)
            then && HandedOver(env, tag, before, rows, k + 1) == out + [Drained(tag, PlainEnvelope, rows[k])]
                 && IdsOver(env, rows, k + 1) == ids + [rows[k].id]
            else HandedOver(env, tag, before, rows, k + 1) == out && IdsOver(env, rows, k + 1) == ids
  {
    DrainOne(env, tag, rows, k);
  }

  lemma PendingMeans(queue: seq<Row>, username: string, unix: int)
    ensures RelayConservation.OldestFirst(OrderBy(CreatedAt(), Filter(LiveFor(username, unix), queue)))
    ensures forall r :: multiset(OrderBy(CreatedAt(), Filter(LiveFor(username, unix), queue)))[r]
              == if r.message.recipient == username && unix < r.createdAt + MESSAGE_TTL_SECS
                 then multiset(queue)[r] else 0
  {
    OrderBySorted(CreatedAt(), Filter(LiveFor(username, unix), queue));
    OrderByPermutes(CreatedAt(), Filter(LiveFor(username, unix), queue));
    forall r
      ensures multiset(Filter(LiveFor(username, unix), queue))[r]
           == if LiveFor(username, unix)(r) then multiset(queue)[r] else 0
    {
      FilterCount(LiveFor(username, unix), queue, r);
    }
  }

  lemma StepKeepsValid(env: Env, s: State, i: Input)
    requires RelayConservation.IdsIdentify(s) && Accounts.NoncesDistinct(s) && Accounts.LoginsMatch(s)
    ensures var t := Step(env, s, i);
            RelayConservation.IdsIdentify(t) && Accounts.NoncesDistinct(t) && Accounts.LoginsMatch(t)
  {
    RelayConservation.StepKeepsIds(env, s, i);
    Accounts.StepKeepsNonces(env, s, i);
    Accounts.StepKeepsLogins(env, s, i);
  }

  lemma AfterNext(env: Env, run: Run, k: nat)
    requires k < |run|
    ensures After(env, run[..k + 1]) == Step(env, After(env, run[..k]), run[k])
  {
    assert run[..k + 1][..k] == run[..k];
  }

  class MessageUtils {
    const env: Env
    var users: map<string, User>
    var pendingUsers: map<Tag, Challenge>
    var nonces: map<Tag, Challenge>
    var pendingMessages: seq<Row>
    var nextRow: nat
    var nextNonce: nat
    var outbox: seq<Out>
    const rateLimiter: Limiter.RateLimiter
    const sendRateLimiter: Limiter.RateLimiter

    /** The two limiters' settings. */
    ghost predicate Configured() {
      && rateLimiter != sendRateLimiter
      && rateLimiter.maxAttempts == AUTH_MAX && rateLimiter.window == Limiter.LIMIT_WINDOW_MS
      && sendRateLimiter.maxAttempts == SEND_MAX && sendRateLimiter.window == Limiter.LIMIT_WINDOW_MS
    }

    /** What every message keeps: row ids and nonces are unique, and login challenges hold current keys. */
    ghost predicate Valid()
      reads this, rateLimiter, sendRateLimiter
    {
      && Configured()
      && RelayConservation.IdsIdentify(View())
      && Accounts.NoncesDistinct(View())
      && Accounts.LoginsMatch(View())
    }

    ghost function View(): State
      reads this, rateLimiter, sendRateLimiter
    {
      State(users, pendingUsers, nonces, pendingMessages, nextRow, nextNonce, outbox,
            rateLimiter.attempts, sendRateLimiter.attempts)
    }

    constructor (env: Env)
      ensures this.env == env && Valid() && View() == INIT
      ensures fresh(rateLimiter) && fresh(sendRateLimiter)
    {
      this.env := env;
      users, pendingUsers, nonces := map[], map[], map[];
      pendingMessages, nextRow, nextNonce, outbox := [], 0, 0, [];
      rateLimiter := new Limiter.RateLimiter(AUTH_MAX, Limiter.LIMIT_WINDOW_MS);
      sendRateLimiter := new Limiter.RateLimiter(SEND_MAX, Limiter.LIMIT_WINDOW_MS);
    }

    /** The process starts again: the tables persist, challenges and limits do not. */
    constructor Reopen(previous: MessageUtils, i: Input)
      requires previous.Valid() && i.request.Restart?
      ensures env == previous.env && Valid() && View() == Step(previous.env, previous.View(), i)
      ensures fresh(rateLimiter) && fresh(sendRateLimiter)
    {
      env := previous.env;
      users, pendingMessages, nextRow := previous.users, previous.pendingMessages, previous.nextRow;
      nextNonce, outbox := previous.nextNonce, previous.outbox;
      pendingUsers, nonces := map[], map[];
      rateLimiter := new Limiter.RateLimiter(AUTH_MAX, Limiter.LIMIT_WINDOW_MS);
      sendRateLimiter := new Limiter.RateLimiter(SEND_MAX, Limiter.LIMIT_WINDOW_MS);
    }

    /** A whole life of the server, restarts included. */
    static method Serve(env: Env, run: Run) returns (server: MessageUtils)
      ensures fresh(server) && server.env == env && server.Valid()
      ensures server.View() == After(env, run)
    {
      server := new MessageUtils(env);
      for k := 0 to |run|
        invariant fresh(server) && fresh(server.rateLimiter) && fresh(server.sendRateLimiter)
        invariant server.env == env && server.Valid()
        invariant server.View() == After(env, run[..k])
      {
        AfterNext(env, run, k);
        if run[k].request.Restart? {
          server := new MessageUtils.Reopen(server, run[k]);
        } else {
          server.ProcessMessage(run[k]);
        }
      }
      assert run[..|run|] == run;
    }

    /** One incoming message: stale entries go first, then the action's handler runs. */
    method ProcessMessage(i: Input)
      requires Valid() && !i.request.Restart?
      modifies this, rateLimiter, sendRateLimiter
      ensures Valid()
      ensures View() == Step(env, old(View()), i)
    {
      StepKeepsValid(env, View(), i);
      CleanupStaleEntries(i.instant);
      Dispatch(i);
    }

    method Dispatch(i: Input)
      requires Configured() && !i.request.Restart?
      modifies this, rateLimiter, sendRateLimiter
      ensures View() == Handle(env, old(View()), i)
    {
      if i.request.Register? || i.request.RegistrationResponse? || i.request.Login? || i.request.LoginResponse? {
        DispatchAccount(i);
      } else {
        DispatchMessage(i);
      }
    }

    method DispatchAccount(i: Input)
      requires Configured()
      requires i.request.Register? || i.request.RegistrationResponse? || i.request.Login? || i.request.LoginResponse?
      modifies this, rateLimiter, sendRateLimiter
      ensures View() == Handle(env, old(View()), i)
    {
      match i.request {
        case Register(_, _, _) => HandleRegister(i);
        case RegistrationResponse(tag, signature) => HandleRegistrationResponse(tag, signature);
        case Login(_, _) => HandleLogin(i);
        case LoginResponse(tag, signature) => HandleLoginResponse(tag, signature);
      }
    }

    method DispatchMessage(i: Input)
      requires Configured() && !i.request.Restart?
      requires !(i.request.Register? || i.request.RegistrationResponse? || i.request.Login? || i.request.LoginResponse?)
      modifies this, rateLimiter, sendRateLimiter
      ensures View() == Handle(env, old(View()), i)
    {
      match i.request {
        case LegacySend(_, _, _) => HandleLegacySend(i);
        case Send(_, _, _, _, _, _) => HandleSend(i);
        case SealedSend(_, _, _) => HandleSealedSend(i);
        case Forward(_, _, _, _) => HandleForward(i);
        case FetchPending(_, _, _, _) => { var _ := HandleFetchPending(i); }
        case Ping(_, _, _, _) => HandlePing(i);
        case Ack(_, _, _, _, _) => HandleAck(i);
        case KeyPackagesMissing(username) => NotifyKeyPackagesNeeded(username, i.unix);
        case Other =>
      }
    }

    method CleanupStaleEntries(instant: int)
      requires Configured()
      modifies this`pendingUsers, this`nonces, rateLimiter, sendRateLimiter
      ensures View() == Clean(old(View()), instant)
    {
      pendingUsers := map tag | tag in pendingUsers && Live(instant, pendingUsers[tag]) :: pendingUsers[tag];
      nonces := map tag | tag in nonces && Live(instant, nonces[tag]) :: nonces[tag];
      rateLimiter.Cleanup();
      sendRateLimiter.Cleanup();
    }

    method HandleRegister(i: Input)
      requires Configured() && i.request.Register?
      modifies this`pendingUsers, this`nextNonce, rateLimiter
      ensures View() == RegisterStep(old(View()), i)
    {
      var tag, name, key := i.request.tag, i.request.name, i.request.publicKey;
      var allowed := rateLimiter.CheckAndRecord(tag, i.instant);
      if !allowed {
        return;
      }
      if name.None? || key.None? {
        return;
      }
      if !ValidUsername(name.value) {
        return;
      }
      if name.value in users {
        return;
      }
      pendingUsers := pendingUsers[tag := Challenge(name.value, key.value, nextNonce, i.instant)];
      nextNonce := nextNonce + 1;
    }

    method HandleRegistrationResponse(tag: Tag, signature: Option<string>)
      modifies this`pendingUsers, this`users
      ensures View() == RegistrationResponseStep(env, old(View()), tag, signature)
    {
      if signature.None? || tag !in pendingUsers {
        return;
      }
      var entry := pendingUsers[tag];
      pendingUsers := pendingUsers - {tag};
      if env.verify(entry.publicKey, Nonce(entry.nonce), signature.value) {
        var _ := AddUser(entry.username, entry.publicKey, tag);
      }
    }

    /** The primary key refuses a second row for a name. */
    method AddUser(username: string, publicKey: string, senderTag: Tag) returns (added: bool)
      modifies this`users
      ensures added <==> username !in old(users)
      ensures users == if added then old(users)[username := User(publicKey, senderTag)] else old(users)
    {
      if username in users {
        return false;
      }
      users := users[username := User(publicKey, senderTag)];
      return true;
    }

    /** An update of a missing row changes nothing. */
    method UpdateSenderTag(username: string, tag: Tag)
      modifies this`users
      ensures View() == if username in old(users) then WithTag(old(View()), username, tag) else old(View())
    {
      if username in users {
        users := users[username := users[username].(senderTag := tag)];
      }
    }

    method HandleLogin(i: Input)
      requires Configured() && i.request.Login?
      modifies this`nonces, this`nextNonce, rateLimiter
      ensures View() == LoginStep(old(View()), i)
    {
      var tag, name := i.request.tag, i.request.name;
      var allowed := rateLimiter.CheckAndRecord(tag, i.instant);
      if !allowed {
        return;
      }
      if name.None? || name.value !in users {
        return;
      }
      nonces := nonces[tag := Challenge(name.value, users[name.value].publicKey, nextNonce, i.instant)];
      nextNonce := nextNonce + 1;
    }

    method HandleLoginResponse(tag: Tag, signature: Option<string>)
      modifies this`nonces, this`users
      ensures View() == LoginResponseStep(env, old(View()), tag, signature)
    {
      if signature.None? || tag !in nonces {
        return;
      }
      var entry := nonces[tag];
      nonces := nonces - {tag};
      if env.verify(entry.publicKey, Nonce(entry.nonce), signature.value) {
        UpdateSenderTag(entry.username, tag);
      }
    }

    method HandleLegacySend(i: Input)
      requires i.request.LegacySend?
      modifies this`users, this`outbox
      ensures View() == LegacySendStep(env, old(View()), i)
    {
      var tag, content, signature := i.request.tag, i.request.content, i.request.signature;
      if content.None? || signature.None? {
        return;
      }
      var sender, recipient := content.value.sender, content.value.recipient;
      if sender.None? || recipient.None? {
        return;
      }
      if sender.value !in users {
        return;
      }
      if !env.verify(users[sender.value].publicKey, Body(content.value.text), signature.value) {
        return;
      }
      UpdateSenderTag(sender.value, tag);
      if recipient.value !in users {
        return;
      }
      outbox := outbox + [Direct(users[recipient.value].senderTag, sender.value, content.value.text)];
    }

    method HandleSend(i: Input)
      requires Configured() && i.request.Send?
      modifies this`outbox, this`pendingMessages, this`nextRow, sendRateLimiter
      ensures View() == RelayStep(env, old(View()), i)
    {
      var sender, recipient, body := i.request.sender, i.request.recipient, i.request.body;
      var allowed := sendRateLimiter.CheckAndRecord(i.request.tag, i.instant);
      if !allowed {
        return;
      }
      if sender !in users || i.request.signature.None? {
        return;
      }
      if !env.verify(users[sender].publicKey, Body(body), i.request.signature.value) {
        return;
      }
      if !i.request.isMls || recipient.None? || recipient.value == "" {
        return;
      }
      if recipient.value !in users {
        return;
      }
      RelayWithPersistence(Message(sender, recipient.value, Json(body), "send"), i.surbs, i.unix);
    }

    method HandleSealedSend(i: Input)
      requires Configured() && i.request.SealedSend?
      modifies this`outbox, this`pendingMessages, this`nextRow, sendRateLimiter
      ensures View() == RelayStep(env, old(View()), i)
    {
      var recipient, blob := i.request.recipient, i.request.blob;
      var allowed := sendRateLimiter.CheckAndRecord(i.request.tag, i.instant);
      if !allowed {
        return;
      }
      if blob.None? || recipient.None? || recipient.value == "" {
        return;
      }
      if recipient.value !in users {
        return;
      }
      RelaySealedWithPersistence(Message("__sealed__", recipient.value, SealedBlob(blob.value), "send"),
                                 i.surbs, i.unix);
    }

    /** Key-package requests and responses and group-join responses are relayed unchecked. */
    method HandleForward(i: Input)
      requires i.request.Forward?
      modifies this`outbox, this`pendingMessages, this`nextRow
      ensures View() == RelayStep(env, old(View()), i)
    {
      if i.request.recipient.Some? {
        var action := ActionOf(i.request.kind);
        var m := Message(i.request.sender, i.request.recipient.value, Json(i.request.body), action);
        RelayWithPersistence(m, i.surbs, i.unix);
      }
    }

    method RelayWithPersistence(m: Message, surbs: bool, unix: int)
      modifies this`outbox, this`pendingMessages, this`nextRow
      ensures View() == Relay(old(View()), PlainEnvelope, m, surbs, unix)
    {
      if m.recipient in users && surbs {
        outbox := outbox + [Surb(users[m.recipient].senderTag, PlainEnvelope, m)];
        return;
      }
      QueuePendingMessage(m, unix);
    }

    /** The sealed twin: only the reply-block route marks the envelope. */
    method RelaySealedWithPersistence(m: Message, surbs: bool, unix: int)
      modifies this`outbox, this`pendingMessages, this`nextRow
      ensures View() == Relay(old(View()), SealedEnvelope, m, surbs, unix)
    {
      if m.recipient in users && surbs {
        outbox := outbox + [Surb(users[m.recipient].senderTag, SealedEnvelope, m)];
        return;
      }
      QueuePendingMessage(m, unix);
    }

    method QueuePendingMessage(m: Message, unix: int)
      modifies this`pendingMessages, this`nextRow
      ensures View() == Enqueue(old(View()), m, unix)
    {
      pendingMessages := pendingMessages + [Row(nextRow, m, unix)];
      nextRow := nextRow + 1;
    }

    method NotifyKeyPackagesNeeded(username: string, unix: int)
      modifies this`pendingMessages, this`nextRow
      ensures View() == KeyPackagesMissingStep(old(View()), username, unix)
    {
      QueuePendingMessage(Message("__system__", username, KeyPackageNeeded, "keyPackageNeeded"), unix);
    }

    /** The reply lists the pending rows; they stay queued until acknowledged. */
    method HandleFetchPending(i: Input) returns (rows: Option<seq<Row>>)
      requires i.request.FetchPending?
      ensures rows == Fetched(env, View(), i)
    {
      var username := i.request.username;
      var timestamp := if i.request.timestamp.Some? then i.request.timestamp.value else 0;
      if username !in users || i.request.signature.None? {
        return None;
      }
      if !env.verify(users[username].publicKey, FetchText(username, timestamp), i.request.signature.value) {
        return None;
      }
      return Some(GetPendingMessages(username, i.unix));
    }

    /** The unexpired rows of the user and no others, each as often as it is stored, oldest first. */
    function GetPendingMessages(username: string, unix: int): (rows: seq<Row>)
      reads this
      ensures RelayConservation.OldestFirst(rows)
      ensures forall r :: multiset(rows)[r]
                == if r.message.recipient == username && unix < r.createdAt + MESSAGE_TTL_SECS
                   then multiset(pendingMessages)[r] else 0
    {
      PendingMeans(pendingMessages, username, unix);
      OrderBy(CreatedAt(), Filter(LiveFor(username, unix), pendingMessages))
    }

    method DeletePendingMessages(username: string, ids: seq<nat>)
      modifies this`pendingMessages
      ensures View() == Without(old(View()), username, ids)
    {
      pendingMessages := Filter(Not(Named(username, ids)), pendingMessages);
    }

    /** A verified ping moves the account to the new tag and drains its queue there. */
    method HandlePing(i: Input)
      requires Configured() && i.request.Ping?
      modifies this`users, this`outbox, this`pendingMessages, rateLimiter
      ensures View() == PingStep(env, old(View()), i)
    {
      var tag, username := i.request.tag, i.request.username;
      var allowed := rateLimiter.CheckAndRecord(tag, i.instant);
      if !allowed {
        return;
      }
      if i.request.signature.None? || i.request.timestamp.None? {
        return;
      }
      var timestamp := i.request.timestamp.value;
      if !Timely(i.unix, timestamp) || username !in users {
        return;
      }
      if !env.verify(users[username].publicKey, PingText(username, timestamp), i.request.signature.value) {
        return;
      }
      UpdateSenderTag(username, tag);
      DrainPending(tag, username, i.unix);
    }

    method DrainPending(tag: Tag, username: string, unix: int)
      modifies this`outbox, this`pendingMessages
      ensures View() == DrainQueue(env, old(View()), tag, username, unix)
    {
      var pending := GetPendingMessages(username, unix);
      var deliveredIds := DeliverAll(tag, pending);
      if deliveredIds != [] {
        DeletePendingMessages(username, deliveredIds);
      } else {
        FilterAll(Not(Named(username, [])), pendingMessages);
      }
    }

    method DeliverAll(tag: Tag, pending: seq<Row>) returns (deliveredIds: seq<nat>)
      modifies this`outbox
      ensures outbox == old(outbox) + Map(ToTag(tag), Filter(Parsable(env), pending))
      ensures deliveredIds == Map(RowId(), Filter(Parsable(env), pending))
    {
      ghost var before := outbox;
      deliveredIds := [];
      for k := 0 to |pending|
        invariant outbox == HandedOver(env, tag, before, pending, k)
        invariant deliveredIds == IdsOver(env, pending, k)
      {
        DeliverNext(env, tag, before, pending, k);
        if env.parses(pending[k].message.payload) {
          outbox := outbox + [Drained(tag, PlainEnvelope, pending[k])];
          deliveredIds := deliveredIds + [pending[k].id];
        }
      }
      assert pending[..|pending|] == pending;
    }

    method HandleAck(i: Input)
      requires i.request.Ack?
      modifies this`pendingMessages
      ensures View() == AckStep(env, old(View()), i)
    {
      var username, ids := i.request.username, i.request.ids;
      if ids.None? || ids.value == [] {
        return;
      }
      if i.request.signature.None? || i.request.timestamp.None? {
        return;
      }
      var timestamp := i.request.timestamp.value;
      if !Timely(i.unix, timestamp) || username !in users {
        return;
      }
      if !env.verify(users[username].publicKey, AckText(username, timestamp, ids.value),
                     i.request.signature.value) {
        return;
      }
      DeletePendingMessages(username, ids.value);
    }
  }
}
