/**
 What each request does to the discovery server, said without the server's own guards: which
 requests take effect, in terms of signatures, names, clocks and numbers, and what exactly they
 change. The later sections lift this to whole runs.
 */
module DiscoveryLaws {
  import opened Sequences
  import opened Validation
  import opened DiscoverySpec
  import opened RelayConservation
  import Accounts
  import Limiter = RateLimiter

  /** A registered user signed the content under the stored key. */
  predicate Signed(env: Env, s: State, name: string, content: Content, signature: Option<string>) {
    name in s.users && signature.Some? && env.verify(s.users[name].publicKey, content, signature.value)
  }

  predicate Fresh(unix: int, timestamp: Option<int>) {
    timestamp.Some? && -300 <= unix - timestamp.value <= 300
  }

  /** The challenges younger than five minutes. */
  function Young(challenges: map<Tag, Challenge>, now: int): map<Tag, Challenge> {
    map tag | tag in challenges && now - challenges[tag].createdAt < 300_000 :: challenges[tag]
  }

  lemma YoungAreLive(challenges: map<Tag, Challenge>, now: int)
    ensures Unexpired(now, challenges) == Young(challenges, now)
  {
    forall tag | tag in challenges ensures Live(now, challenges[tag]) <==> now - challenges[tag].createdAt < 300_000 {
    }
  }

  // ----- Messages -----

  /** When a send is relayed. */
  ghost predicate Sendable(env: Env, s: State, i: Input)
    requires i.request.Send?
  {
    && Limiter.Room(s.sends, i.request.tag, i.instant, 60)
    && Signed(env, s, i.request.sender, Body(i.request.body), i.request.signature)
    && i.request.isMls
    && i.request.recipient.Some? && i.request.recipient.value != "" && i.request.recipient.value in s.users
  }

  lemma SendAcceptedIff(env: Env, s: State, i: Input)
    requires i.request.Send?
    ensures Accepted(env, Clean(s, i.instant), i)
         == if Sendable(env, s, i)
            then Some(Message(i.request.sender, i.request.recipient.value, Json(i.request.body), "send")) else None
  {
    Limiter.AllowsInNumbers(60, s.sends, i.request.tag, i.instant);
  }

  lemma Relayed(env: Env, s: State, i: Input)
    requires i.request.Send? || i.request.SealedSend? || i.request.Forward?
    ensures var t := Step(env, s, i);
            match Accepted(env, Clean(s, i.instant), i)
            case Some(m) => Routed(s, EnvelopeOf(i.request), m, i.surbs, i.unix, t)
            case None => QueueKept(s, t)
  {
    RelayMoves(env, Clean(s, i.instant), i);
    if Accepted(env, Clean(s, i.instant), i).Some? {
      AcceptedIsOffered(env, Clean(s, i.instant), i);
    } else {
      RefusedPasses(env, Clean(s, i.instant), i);
    }
  }

  /**
   A send puts something in the queue or on the transport if and only if the tag has fewer than 60
   accepted calls in the last minute, the sender is registered and signed the body, the body is an
   MLS message and the recipient is registered; and then exactly that sender's body, once.
   */
  lemma SendIff(env: Env, s: State, i: Input)
    requires i.request.Send?
    ensures var t := Step(env, s, i);
            if Sendable(env, s, i)
            then Routed(s, PlainEnvelope,
                        Message(i.request.sender, i.request.recipient.value, Json(i.request.body), "send"),
                        i.surbs, i.unix, t)
            else QueueKept(s, t)
  {
    SendAcceptedIff(env, s, i);
    Relayed(env, s, i);
  }

  /** A sealed send needs no sender, only room, a blob and a registered recipient. */
  lemma SealedSendIff(env: Env, s: State, i: Input)
    requires i.request.SealedSend?
    ensures var t, recipient, blob := Step(env, s, i), i.request.recipient, i.request.blob;
            if && Limiter.Room(s.sends, i.request.tag, i.instant, 60)
               && blob.Some? && recipient.Some? && recipient.value != "" && recipient.value in s.users
            then Routed(s, SealedEnvelope, Message("__sealed__", recipient.value, SealedBlob(blob.value), "send"),
                        i.surbs, i.unix, t)
            else QueueKept(s, t)
  {
    Limiter.AllowsInNumbers(60, s.sends, i.request.tag, i.instant);
    Relayed(env, s, i);
  }

  /** The forwarded actions need only a named recipient. */
  lemma ForwardIff(env: Env, s: State, i: Input)
    requires i.request.Forward?
    ensures var t, recipient := Step(env, s, i), i.request.recipient;
            if recipient.Some?
            then Routed(s, PlainEnvelope,
                        Message(i.request.sender, recipient.value, Json(i.request.body), ActionOf(i.request.kind)),
                        i.surbs, i.unix, t)
            else QueueKept(s, t)
    ensures ActionOf(i.request.kind) in {"keyPackageRequest", "keyPackageResponse", "groupJoinResponse"}
  {
    Relayed(env, s, i);
  }

  predicate LegacySigned(env: Env, s: State, i: Input)
    requires i.request.LegacySend?
  {
    && i.request.content.Some? && i.request.content.value.sender.Some? && i.request.content.value.recipient.Some?
    && Signed(env, s, i.request.content.value.sender.value, Body(i.request.content.value.text), i.request.signature)
  }

  /**
   A legacy send changes accounts if and only if its sender signed the text, and then only the
   sender's tag. What it hands over is that text, in that sender's name, to the recipient's tag.
   */
  lemma LegacySendIff(env: Env, s: State, i: Input)
    requires i.request.LegacySend?
    ensures var t := Step(env, s, i);
            && t.queue == s.queue && t.nextNonce == s.nextNonce
            && if !LegacySigned(env, s, i) then t.users == s.users && t.outbox == s.outbox
               else
                 var sender, recipient := i.request.content.value.sender.value, i.request.content.value.recipient.value;
                 && t.users == s.users[sender := User(s.users[sender].publicKey, i.request.tag)]
                 && t.outbox == if recipient !in s.users then s.outbox
                                else s.outbox + [Direct(if recipient == sender then i.request.tag
                                                        else s.users[recipient].senderTag,
                                                        sender, i.request.content.value.text)]
  {
  }

  // ----- Registration and login -----

  /** When a registration is answered with a nonce. */
  ghost predicate Registrable(s: State, i: Input)
    requires i.request.Register?
  {
    && Limiter.Room(s.auth, i.request.tag, i.instant, 10)
    && i.request.name.Some? && i.request.publicKey.Some?
    && ValidUsername(i.request.name.value) && i.request.name.value !in s.users
  }

  /**
   A registration gets the next nonce if and only if name and key are there, the name is well formed
   and free, and the tag has fewer than 10 accepted calls in the last minute.
   */
  lemma RegisterIff(env: Env, s: State, i: Input)
    requires i.request.Register?
    ensures var t, tag := Step(env, s, i), i.request.tag;
            && t.users == s.users && t.logins == Young(s.logins, i.instant)
            && if !Registrable(s, i)
               then t.pendingUsers == Young(s.pendingUsers, i.instant) && t.nextNonce == s.nextNonce
               else && t.nextNonce == s.nextNonce + 1
                    && t.pendingUsers == Young(s.pendingUsers, i.instant)[tag :=
                         Challenge(i.request.name.value, i.request.publicKey.value, s.nextNonce, i.instant)]
  {
    YoungAreLive(s.pendingUsers, i.instant);
    YoungAreLive(s.logins, i.instant);
    Limiter.AllowsInNumbers(10, s.auth, i.request.tag, i.instant);
  }

  /**
   What a registration response does: with a signature it uses up the tag's challenge, and creates the
   account if and only if the signature over the nonce verifies under the key asked for and the name
   is free.
   */
  predicate Registers(env: Env, s: State, waiting: map<Tag, Challenge>, tag: Tag, signature: Option<string>, t: State) {
    if signature.None? || tag !in waiting then t.pendingUsers == waiting && t.users == s.users
    else
      var c := waiting[tag];
      && t.pendingUsers == waiting - {tag}
      && t.users == if env.verify(c.publicKey, Nonce(c.nonce), signature.value) && c.username !in s.users
                    then s.users[c.username := User(c.publicKey, tag)] else s.users
  }

  lemma ResponseRegisters(env: Env, s: State, tag: Tag, signature: Option<string>)
    ensures var t := RegistrationResponseStep(env, s, tag, signature);
            Registers(env, s, s.pendingUsers, tag, signature, t) && t.logins == s.logins && t.nextNonce == s.nextNonce
  {
  }

  lemma RegistrationResponseIff(env: Env, s: State, i: Input)
    requires i.request.RegistrationResponse?
    ensures var t := Step(env, s, i);
            && Registers(env, s, Young(s.pendingUsers, i.instant), i.request.tag, i.request.signature, t)
            && t.logins == Young(s.logins, i.instant) && t.nextNonce == s.nextNonce
  {
    YoungAreLive(s.pendingUsers, i.instant);
    YoungAreLive(s.logins, i.instant);
    ResponseRegisters(env, Clean(s, i.instant), i.request.tag, i.request.signature);
  }

  ghost predicate MayLogIn(s: State, i: Input)
    requires i.request.Login?
  {
    && Limiter.Room(s.auth, i.request.tag, i.instant, 10)
    && i.request.name.Some? && i.request.name.value in s.users
  }

  /** A login gets the next nonce, for the stored key, if and only if the user exists and there is room. */
  lemma LoginIff(env: Env, s: State, i: Input)
    requires i.request.Login?
    ensures var t, tag := Step(env, s, i), i.request.tag;
            && t.users == s.users && t.pendingUsers == Young(s.pendingUsers, i.instant)
            && if !MayLogIn(s, i) then t.logins == Young(s.logins, i.instant) && t.nextNonce == s.nextNonce
               else
                 var name := i.request.name.value;
                 && t.nextNonce == s.nextNonce + 1
                 && t.logins == Young(s.logins, i.instant)[tag :=
                      Challenge(name, s.users[name].publicKey, s.nextNonce, i.instant)]
  {
    YoungAreLive(s.pendingUsers, i.instant);
    YoungAreLive(s.logins, i.instant);
    Limiter.AllowsInNumbers(10, s.auth, i.request.tag, i.instant);
  }

  /** A login response uses up its challenge, and moves the account's tag if and only if it verifies. */
  predicate LogsIn(env: Env, s: State, waiting: map<Tag, Challenge>, tag: Tag, signature: Option<string>, t: State) {
    if signature.None? || tag !in waiting then t.logins == waiting && t.users == s.users
    else
      var c := waiting[tag];
      && t.logins == waiting - {tag}
      && t.users == if env.verify(c.publicKey, Nonce(c.nonce), signature.value) && c.username in s.users
                    then s.users[c.username := User(s.users[c.username].publicKey, tag)] else s.users
  }

  lemma ResponseLogsIn(env: Env, s: State, tag: Tag, signature: Option<string>)
    ensures var t := LoginResponseStep(env, s, tag, signature);
            && LogsIn(env, s, s.logins, tag, signature, t)
            && t.pendingUsers == s.pendingUsers && t.nextNonce == s.nextNonce
  {
  }

  lemma LoginResponseIff(env: Env, s: State, i: Input)
    requires i.request.LoginResponse?
    ensures var t := Step(env, s, i);
            && LogsIn(env, s, Young(s.logins, i.instant), i.request.tag, i.request.signature, t)
            && t.pendingUsers == Young(s.pendingUsers, i.instant) && t.nextNonce == s.nextNonce
  {
    YoungAreLive(s.pendingUsers, i.instant);
    YoungAreLive(s.logins, i.instant);
    ResponseLogsIn(env, Clean(s, i.instant), i.request.tag, i.request.signature);
  }

  /** No other message touches challenges, except that they age. */
  lemma OthersOnlyAge(env: Env, s: State, i: Input)
    requires !i.request.Restart? && !i.request.Register? && !i.request.RegistrationResponse?
    requires !i.request.Login? && !i.request.LoginResponse?
    ensures var t := Step(env, s, i);
            && t.pendingUsers == Young(s.pendingUsers, i.instant) && t.logins == Young(s.logins, i.instant)
            && t.nextNonce == s.nextNonce
  {
    YoungAreLive(s.pendingUsers, i.instant);
    YoungAreLive(s.logins, i.instant);
    Accounts.Moves(env, Clean(s, i.instant), i);
  }

  /** A restart loses the challenges and the rate limits, and nothing else. */
  lemma RestartForgets(env: Env, s: State, i: Input)
    requires i.request.Restart?
    ensures var t := Step(env, s, i);
            && t.users == s.users && QueueKept(s, t)
            && t.pendingUsers == map[] && t.logins == map[] && t.auth == map[] && t.sends == map[]
  {
  }

  /** None of these, nor a fetch or a restart, touches messages. */
  lemma AccountRequestsKeepQueue(env: Env, s: State, i: Input)
    requires AccountsOnly(i.request)
    ensures QueueKept(s, Step(env, s, i))
  {
    AccountsMove(env, Clean(s, i.instant), i);
    AccountsPass(env, Clean(s, i.instant), i);
    assert s.outbox + [] == s.outbox;
  }

  // ----- The queue -----

  /** A row of the user that has not expired after seven days and can be read back. */
  predicate Due(env: Env, name: string, unix: int, r: Row) {
    r.message.recipient == name && unix < r.createdAt + 604_800 && env.parses(r.message.payload)
  }

  /** The rows were given to the transport one after the other, for the tag, each in a plain envelope. */
  ghost predicate HandedTo(tag: Tag, before: seq<Out>, rows: seq<Row>, after: seq<Out>) {
    && |after| == |before| + |rows| && before <= after
    && forall k :: 0 <= k < |rows| ==> after[|before| + k] == Drained(tag, PlainEnvelope, rows[k])
  }

  lemma MappedIsHanded(tag: Tag, before: seq<Out>, rows: seq<Row>)
    ensures HandedTo(tag, before, rows, before + Map(ToTag(tag), rows))
  {
  }

  ghost predicate PingSigned(env: Env, s: State, i: Input)
    requires i.request.Ping?
  {
    && Limiter.Room(s.auth, i.request.tag, i.instant, 10)
    && Fresh(i.unix, i.request.timestamp)
    && Signed(env, s, i.request.username, PingText(i.request.username, i.request.timestamp.value), i.request.signature)
  }

  lemma PingOkIff(env: Env, s: State, i: Input)
    requires i.request.Ping?
    ensures PingOk(env, Clean(s, i.instant), i) <==> PingSigned(env, s, i)
  {
    Limiter.AllowsInNumbers(10, s.auth, i.request.tag, i.instant);
  }

  lemma DrainedRows(env: Env, s: State, i: Input)
    requires i.request.Ping? && IdsIdentify(s) && PingSigned(env, s, i)
    ensures forall r :: r in Step(env, s, i).queue
              <==> r in s.queue && !Due(env, i.request.username, i.unix, r)
  {
    var seen, t := Clean(s, i.instant), Step(env, s, i);
    PingOkIff(env, s, i);
    PingMoves(env, seen, i);
    forall r ensures r in t.queue <==> r in s.queue && !Due(env, i.request.username, i.unix, r) {
      HandedExactly(env, seen, i, r);
      FilterMember(Not(Gone(env, seen, i)), s.queue, r);
      if r in s.queue {
        GoneIsHanded(env, seen, i, r);
      }
    }
  }

  lemma DrainedOut(env: Env, s: State, i: Input)
    requires i.request.Ping? && PingSigned(env, s, i)
    ensures var rows := Handed(env, Clean(s, i.instant), i);
            && HandedTo(i.request.tag, s.outbox, rows, Step(env, s, i).outbox) && OldestFirst(rows)
            && forall r :: multiset(rows)[r]
                 == if Due(env, i.request.username, i.unix, r) then multiset(s.queue)[r] else 0
  {
    var seen := Clean(s, i.instant);
    PingOkIff(env, s, i);
    PingMoves(env, seen, i);
    HandedInOrder(env, seen, i);
    MappedIsHanded(i.request.tag, s.outbox, Handed(env, seen, i));
    forall r ensures multiset(Handed(env, seen, i))[r]
                  == if Due(env, i.request.username, i.unix, r) then multiset(s.queue)[r] else 0 {
      HandedCount(env, seen, i, r);
    }
  }

  lemma PingAccounts(env: Env, s: State, i: Input)
    requires i.request.Ping?
    ensures var name := i.request.username;
            Step(env, s, i).users == if PingSigned(env, s, i)
                                     then s.users[name := User(s.users[name].publicKey, i.request.tag)] else s.users
  {
    PingOkIff(env, s, i);
  }

  lemma RefusedPing(env: Env, s: State, i: Input)
    requires i.request.Ping? && !PingSigned(env, s, i)
    ensures QueueKept(s, Step(env, s, i))
  {
    PingOkIff(env, s, i);
  }

  /**
   A ping that is timely, signed and within its limit moves the tag, hands every due row of the user
   to it, oldest first, each as often as it was queued, and removes exactly those; any other ping
   changes neither accounts nor messages.
   */
  lemma PingIff(env: Env, s: State, i: Input)
    requires i.request.Ping? && IdsIdentify(s)
    ensures var t, name, tag := Step(env, s, i), i.request.username, i.request.tag;
            if !PingSigned(env, s, i) then QueueKept(s, t) && t.users == s.users
            else
              && t.users == s.users[name := User(s.users[name].publicKey, tag)]
              && (forall r :: r in t.queue <==> r in s.queue && !Due(env, name, i.unix, r))
              && exists rows :: HandedTo(tag, s.outbox, rows, t.outbox) && OldestFirst(rows)
                                && forall r :: multiset(rows)[r]
                                     == if Due(env, name, i.unix, r) then multiset(s.queue)[r] else 0
  {
    PingAccounts(env, s, i);
    if PingSigned(env, s, i) {
      DrainedRows(env, s, i);
      DrainedOut(env, s, i);
    } else {
      RefusedPing(env, s, i);
    }
  }

  predicate AckSigned(env: Env, s: State, i: Input)
    requires i.request.Ack?
  {
    && i.request.ids.Some? && i.request.ids.value != []
    && Fresh(i.unix, i.request.timestamp)
    && Signed(env, s, i.request.username,
              AckText(i.request.username, i.request.timestamp.value, i.request.ids.value), i.request.signature)
  }

  lemma AckOkIff(env: Env, s: State, i: Input)
    requires i.request.Ack?
    ensures AckOk(env, s, i) <==> AckSigned(env, s, i)
  {
  }

  lemma StruckRows(queue: seq<Row>, name: string, ids: seq<nat>)
    ensures forall r :: multiset(Filter(Not(Named(name, ids)), queue))[r]
              == if r.message.recipient == name && r.id in ids then 0 else multiset(queue)[r]
  {
    forall r ensures multiset(Filter(Not(Named(name, ids)), queue))[r]
                  == if Named(name, ids)(r) then 0 else multiset(queue)[r] {
      FilterCount(Not(Named(name, ids)), queue, r);
    }
  }

  lemma AckKeepsRest(env: Env, s: State, i: Input)
    requires i.request.Ack?
    ensures var t := Step(env, s, i);
            && t.users == s.users && t.outbox == s.outbox
            && t.queue == if AckOk(env, s, i) then Filter(Not(Named(i.request.username, i.request.ids.value)), s.queue)
                          else s.queue
  {
  }

  /** An acknowledgement that is timely and signed removes exactly the user's own rows it names. */
  lemma AckIff(env: Env, s: State, i: Input)
    requires i.request.Ack?
    ensures var t := Step(env, s, i);
            && t.users == s.users && t.outbox == s.outbox
            && if !AckSigned(env, s, i) then t.queue == s.queue
               else forall r :: multiset(t.queue)[r]
                      == if r.message.recipient == i.request.username && r.id in i.request.ids.value
                         then 0 else multiset(s.queue)[r]
  {
    AckOkIff(env, s, i);
    AckKeepsRest(env, s, i);
    if AckSigned(env, s, i) {
      StruckRows(s.queue, i.request.username, i.request.ids.value);
    }
  }

  /** fetchPending: the user's own unexpired rows, oldest first, if and only if the user signed. */
  lemma FetchPendingIff(env: Env, s: State, i: Input)
    requires i.request.FetchPending?
    ensures var name, reply := i.request.username, Fetched(env, s, i);
            var timestamp := if i.request.timestamp.Some? then i.request.timestamp.value else 0;
            && (reply.Some? <==> Signed(env, s, name, FetchText(name, timestamp), i.request.signature))
            && (reply.Some? ==>
                && OldestFirst(reply.value)
                && forall r :: multiset(reply.value)[r]
                     == if r.message.recipient == name && i.unix < r.createdAt + 604_800
                        then multiset(s.queue)[r] else 0)
  {
    var name := i.request.username;
    OrderBySorted(CreatedAt(), Filter(LiveFor(name, i.unix), s.queue));
    OrderByPermutes(CreatedAt(), Filter(LiveFor(name, i.unix), s.queue));
    forall r ensures multiset(Filter(LiveFor(name, i.unix), s.queue))[r]
                  == if r.message.recipient == name && i.unix < r.createdAt + 604_800
                     then multiset(s.queue)[r] else 0 {
      FilterCount(LiveFor(name, i.unix), s.queue, r);
    }
  }

  // ----- Over whole runs: who is behind a relayed message -----

  /** The message waits in the queue or was given to the transport. */
  ghost predicate Carries(s: State, m: Message) {
    || (exists r :: r in s.queue && r.message == m)
    || (exists o :: o in s.outbox && !o.Direct? && Carried(o) == m)
  }

  /** Request k of the run is a send of the message by its sender, signed, and passed every check. */
  ghost predicate SentAt(env: Env, run: Run, k: nat, m: Message) {
    && k < |run| && run[k].request.Send?
    && Sendable(env, After(env, run[..k]), run[k])
    && m == Message(run[k].request.sender, run[k].request.recipient.value, Json(run[k].request.body), "send")
  }

  predicate IsSend(m: Message) {
    m.action == "send" && m.payload.Json?
  }

  lemma RoutedCarries(s: State, envelope: Envelope, sent: Message, surbs: bool, unix: int, t: State, m: Message)
    requires Routed(s, envelope, sent, surbs, unix, t) && Carries(t, m)
    ensures Carries(s, m) || m == sent
  {
  }

  lemma KeptCarries(s: State, t: State, m: Message)
    requires t.queue == s.queue && Carries(t, m)
    requires exists outs :: t.outbox == s.outbox + outs && forall o :: o in outs ==> o.Direct?
    ensures Carries(s, m)
  {
    var outs :| t.outbox == s.outbox + outs && forall o :: o in outs ==> o.Direct?;
    if o :| o in t.outbox && !o.Direct? && Carried(o) == m {
      assert o in s.outbox;
    }
  }

  lemma DrainCarries(env: Env, s: State, i: Input, m: Message)
    requires i.request.Ping? && Carries(Handle(env, s, i), m)
    ensures Carries(s, m)
  {
    var t := Handle(env, s, i);
    PingMoves(env, s, i);
    if PingOk(env, s, i) {
      if r :| r in t.queue && r.message == m {
        FilterMember(Not(Gone(env, s, i)), s.queue, r);
      } else {
        var o :| o in t.outbox && !o.Direct? && Carried(o) == m;
        if o !in s.outbox {
          HandedIsQueued(env, s, i, o);
        }
      }
    } else {
      assert s.outbox + [] == s.outbox;
    }
  }

  lemma HandedIsQueued(env: Env, s: State, i: Input, o: Out)
    requires PingOk(env, s, i) && o in Map(ToTag(i.request.tag), Handed(env, s, i))
    ensures o.Drained? && o.row in s.queue
  {
    var k :| 0 <= k < |Handed(env, s, i)| && Map(ToTag(i.request.tag), Handed(env, s, i))[k] == o;
    assert Handed(env, s, i)[k] in Handed(env, s, i);
    HandedExactly(env, s, i, Handed(env, s, i)[k]);
  }

  lemma AckCarries(env: Env, s: State, i: Input, m: Message)
    requires i.request.Ack? && Carries(Handle(env, s, i), m)
    ensures Carries(s, m)
  {
    AckMoves(env, s, i);
    if AckOk(env, s, i) {
      FilterMembers(Not(Named(i.request.username, i.request.ids.value)), s.queue);
    } else {
      assert s.outbox + [] == s.outbox;
    }
  }

  lemma RelayCarries(env: Env, s: State, i: Input, m: Message)
    requires i.request.Send? || i.request.SealedSend? || i.request.Forward?
    requires Carries(Step(env, s, i), m) && !Carries(s, m) && IsSend(m)
    ensures i.request.Send? && Sendable(env, s, i)
    ensures m == Message(i.request.sender, i.request.recipient.value, Json(i.request.body), "send")
  {
    Relayed(env, s, i);
    if i.request.Send? {
      SendAcceptedIff(env, s, i);
    }
    var accepted := Accepted(env, Clean(s, i.instant), i);
    if accepted.Some? {
      RoutedCarries(s, EnvelopeOf(i.request), accepted.value, i.surbs, i.unix, Step(env, s, i), m);
    }
  }

  lemma LegacyCarries(env: Env, s: State, i: Input, m: Message)
    requires i.request.LegacySend? && Carries(Handle(env, s, i), m)
    ensures Carries(s, m)
  {
    LegacyPasses(env, s, i);
    KeptCarries(s, Handle(env, s, i), m);
  }

  lemma NoticeCarries(env: Env, s: State, i: Input, m: Message)
    requires i.request.KeyPackagesMissing? && Carries(Handle(env, s, i), m) && IsSend(m)
    ensures Carries(s, m)
  {
  }

  lemma AccountsCarry(env: Env, s: State, i: Input, m: Message)
    requires AccountsOnly(i.request) && Carries(Handle(env, s, i), m)
    ensures Carries(s, m)
  {
    AccountsMove(env, s, i);
    AccountsPass(env, s, i);
    assert s.outbox + [] == s.outbox;
  }

  /** Only a send brings in a message of action "send" with a readable payload. */
  lemma StepCarries(env: Env, s: State, i: Input, m: Message)
    requires Carries(Step(env, s, i), m) && !Carries(s, m) && IsSend(m)
    ensures i.request.Send? && Sendable(env, s, i)
    ensures m == Message(i.request.sender, i.request.recipient.value, Json(i.request.body), "send")
  {
    var seen := Clean(s, i.instant);
    if i.request.Send? || i.request.SealedSend? || i.request.Forward? {
      RelayCarries(env, s, i, m);
    } else if i.request.Ping? {
      DrainCarries(env, seen, i, m);
    } else if i.request.Ack? {
      AckCarries(env, seen, i, m);
    } else if i.request.LegacySend? {
      LegacyCarries(env, seen, i, m);
    } else if i.request.KeyPackagesMissing? {
      NoticeCarries(env, seen, i, m);
    } else {
      AccountsCarry(env, seen, i, m);
    }
  }

  lemma SentExtends(env: Env, run: Run, k: nat, m: Message)
    requires run != [] && SentAt(env, run[..|run| - 1], k, m)
    ensures SentAt(env, run, k, m)
  {
    assert run[..|run| - 1][..k] == run[..k];
  }

  /**
   In every run, whatever waits in the queue or ever went out as a "send" of a named sender has
   behind it a request of that sender, who was registered then and signed that very body.
   */
  lemma {:induction false} SendsAreSigned(env: Env, run: Run, m: Message)
    requires Carries(After(env, run), m) && IsSend(m)
    ensures exists k: nat :: SentAt(env, run, k, m)
  {
    var prefix := run[..|run| - 1];
    if Carries(After(env, prefix), m) {
      SendsAreSigned(env, prefix, m);
      var k: nat :| SentAt(env, prefix, k, m);
      SentExtends(env, run, k, m);
    } else {
      StepCarries(env, After(env, prefix), run[|run| - 1], m);
      assert SentAt(env, run, |run| - 1, m);
    }
  }
}
