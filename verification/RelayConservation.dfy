/** What the relay does with messages over whole runs: nothing lost, nothing handed over twice. */
module RelayConservation {
  import opened Sequences
  import opened DiscoverySpec

  // ----- What one message does to the queue and the transport log -----

  datatype Move =
    | Drain(username: string, tag: Tag)
    | Strike(username: string, ids: seq<nat>)
    | Offer(message: Message, envelope: Envelope, surbs: bool)
    | Pass(outs: seq<Out>)

  function Notice(username: string): Message {
    Message("__system__", username, KeyPackageNeeded, "keyPackageNeeded")
  }

  function MoveOf(env: Env, s: State, i: Input): Move {
    if PingOk(env, s, i) then Drain(i.request.username, i.request.tag)
    else if AckOk(env, s, i) then Strike(i.request.username, i.request.ids.value)
    else if Accepted(env, s, i).Some? then Offer(Accepted(env, s, i).value, EnvelopeOf(i.request), i.surbs)
    else if i.request.KeyPackagesMissing? then Offer(Notice(i.request.username), PlainEnvelope, false)
    else if LegacySendOk(env, s, i) then Pass(LegacySendStep(env, s, i).outbox[|s.outbox|..])
    else Pass([])
  }

  predicate TakesReplyBlock(s: State, m: Message, surbs: bool) {
    m.recipient in s.users && surbs
  }

  /** Handed to the transport under the recipient's tag, or put in one new queue row. */
  ghost predicate Routed(s: State, envelope: Envelope, m: Message, surbs: bool, unix: int, t: State) {
    if TakesReplyBlock(s, m, surbs)
    then && t.queue == s.queue && t.nextRow == s.nextRow
         && t.outbox == s.outbox + [Surb(s.users[m.recipient].senderTag, envelope, m)]
    else && t.queue == s.queue + [Row(s.nextRow, m, unix)] && t.nextRow == s.nextRow + 1
         && t.outbox == s.outbox
  }

  ghost predicate Moved(env: Env, s: State, i: Input, t: State) {
    match MoveOf(env, s, i)
    case Drain(name, tag) =>
      && t.queue == Filter(Not(Named(name, Map(RowId(), Handed(env, s, i)))), s.queue)
      && t.nextRow == s.nextRow
      && t.outbox == s.outbox + Map(ToTag(tag), Handed(env, s, i))
    case Strike(name, ids) =>
      && t.queue == Filter(Not(Named(name, ids)), s.queue)
      && t.nextRow == s.nextRow && t.outbox == s.outbox
    case Offer(m, envelope, surbs) => Routed(s, envelope, m, surbs, i.unix, t)
    case Pass(outs) =>
      && t.queue == s.queue && t.nextRow == s.nextRow && t.outbox == s.outbox + outs
      && (forall o :: o in outs ==> o.Direct?)
  }

  lemma PingMoves(env: Env, s: State, i: Input)
    requires i.request.Ping?
    ensures Moved(env, s, i, Handle(env, s, i))
  {
  }

  lemma AckMoves(env: Env, s: State, i: Input)
    requires i.request.Ack?
    ensures Moved(env, s, i, Handle(env, s, i))
  {
  }

  lemma RelayMoves(env: Env, s: State, i: Input)
    requires i.request.Send? || i.request.SealedSend? || i.request.Forward?
    ensures Moved(env, s, i, Handle(env, s, i))
  {
    if Accepted(env, s, i).Some? {
      AcceptedIsOffered(env, s, i);
      AcceptedTakesRoute(env, s, i);
    } else {
      RefusedPasses(env, s, i);
    }
  }

  lemma RefusedPasses(env: Env, s: State, i: Input)
    requires i.request.Send? || i.request.SealedSend? || i.request.Forward?
    requires Accepted(env, s, i).None?
    ensures MoveOf(env, s, i) == Pass([])
    ensures RelayStep(env, s, i).queue == s.queue && RelayStep(env, s, i).nextRow == s.nextRow
    ensures RelayStep(env, s, i).outbox == s.outbox == s.outbox + []
  {
  }

  lemma AcceptedIsOffered(env: Env, s: State, i: Input)
    requires Accepted(env, s, i).Some?
    ensures MoveOf(env, s, i) == Offer(Accepted(env, s, i).value, EnvelopeOf(i.request), i.surbs)
  {
  }

  lemma AcceptedTakesRoute(env: Env, s: State, i: Input)
    requires i.request.Send? || i.request.SealedSend? || i.request.Forward?
    requires Accepted(env, s, i).Some?
    ensures Routed(s, EnvelopeOf(i.request), Accepted(env, s, i).value, i.surbs, i.unix, RelayStep(env, s, i))
  {
  }

  lemma LegacyPasses(env: Env, s: State, i: Input)
    requires i.request.LegacySend?
    ensures var t := LegacySendStep(env, s, i);
            var outs := t.outbox[|s.outbox|..];
            && |s.outbox| <= |t.outbox| && t.outbox == s.outbox + outs && (forall o :: o in outs ==> o.Direct?)
            && t.queue == s.queue && t.nextRow == s.nextRow
            && (!LegacySendOk(env, s, i) ==> outs == [])
  {
  }

  lemma LegacyMoves(env: Env, s: State, i: Input)
    requires i.request.LegacySend?
    ensures Moved(env, s, i, Handle(env, s, i))
  {
    LegacyPasses(env, s, i);
  }

  /** The requests that have nothing to do with messages. */
  predicate AccountsOnly(r: Request) {
    || r.Register? || r.RegistrationResponse? || r.Login? || r.LoginResponse?
    || r.FetchPending? || r.Other? || r.Restart?
  }

  ghost predicate QueueKept(s: State, t: State) {
    t.queue == s.queue && t.nextRow == s.nextRow && t.outbox == s.outbox
  }

  lemma AccountsPass(env: Env, s: State, i: Input)
    requires AccountsOnly(i.request)
    ensures MoveOf(env, s, i) == Pass([])
  {
  }

  lemma KeptIsMoved(env: Env, s: State, i: Input, t: State)
    requires AccountsOnly(i.request) && QueueKept(s, t)
    ensures Moved(env, s, i, t)
  {
    AccountsPass(env, s, i);
    assert s.outbox + [] == s.outbox;
  }

  lemma ChallengesKeepQueue(s: State, i: Input)
    ensures i.request.Register? ==> QueueKept(s, RegisterStep(s, i))
    ensures i.request.Login? ==> QueueKept(s, LoginStep(s, i))
  {
  }

  lemma ResponsesKeepQueue(env: Env, s: State, tag: Tag, signature: Option<string>)
    ensures QueueKept(s, RegistrationResponseStep(env, s, tag, signature))
    ensures QueueKept(s, LoginResponseStep(env, s, tag, signature))
  {
  }

  lemma AccountsMove(env: Env, s: State, i: Input)
    requires AccountsOnly(i.request)
    ensures Moved(env, s, i, Handle(env, s, i))
  {
    match i.request {
      case RegistrationResponse(tag, signature) => ResponsesKeepQueue(env, s, tag, signature);
      case LoginResponse(tag, signature) => ResponsesKeepQueue(env, s, tag, signature);
      case _ => ChallengesKeepQueue(s, i);
    }
    KeptIsMoved(env, s, i, Handle(env, s, i));
  }

  lemma NoticeMoves(env: Env, s: State, i: Input)
    requires i.request.KeyPackagesMissing?
    ensures Moved(env, s, i, Handle(env, s, i))
  {
  }

  lemma Moves(env: Env, s: State, i: Input)
    ensures Moved(env, s, i, Handle(env, s, i))
  {
    match i.request
    case Ping(_, _, _, _) => PingMoves(env, s, i);
    case Ack(_, _, _, _, _) => AckMoves(env, s, i);
    case LegacySend(_, _, _) => LegacyMoves(env, s, i);
    case Send(_, _, _, _, _, _) => RelayMoves(env, s, i);
    case SealedSend(_, _, _) => RelayMoves(env, s, i);
    case Forward(_, _, _, _) => RelayMoves(env, s, i);
    case KeyPackagesMissing(_) => NoticeMoves(env, s, i);
    case _ => AccountsMove(env, s, i);
  }

  // ----- The queue invariant -----

  ghost predicate IdsIdentify(s: State) {
    && (forall r :: r in s.queue ==> r.id < s.nextRow)
    && (forall r, q :: r in s.queue && q in s.queue && r.id == q.id ==> r == q)
  }

  lemma MoveKeepsIds(env: Env, s: State, i: Input, t: State)
    requires IdsIdentify(s) && Moved(env, s, i, t)
    ensures IdsIdentify(t)
  {
    match MoveOf(env, s, i)
    case Drain(name, tag) => FilterMembers(Not(Named(name, Map(RowId(), Handed(env, s, i)))), s.queue);
    case Strike(name, ids) => FilterMembers(Not(Named(name, ids)), s.queue);
    case Offer(_, _, _) =>
    case Pass(_) =>
  }

  lemma StepKeepsIds(env: Env, s: State, i: Input)
    requires IdsIdentify(s)
    ensures IdsIdentify(Step(env, s, i))
  {
    Moves(env, Clean(s, i.instant), i);
    MoveKeepsIds(env, Clean(s, i.instant), i, Step(env, s, i));
  }

  lemma {:induction false} IdsIdentifyAlways(env: Env, run: Run)
    ensures IdsIdentify(After(env, run))
  {
    if run != [] {
      IdsIdentifyAlways(env, run[..|run| - 1]);
      StepKeepsIds(env, After(env, run[..|run| - 1]), run[|run| - 1]);
    }
  }

  // ----- One ping -----

  /** The rows a ping hands over are exactly the live, readable rows of the pinging user. */
  lemma HandedExactly(env: Env, s: State, i: Input, r: Row)
    ensures r in Handed(env, s, i)
       <==> PingOk(env, s, i) && r in s.queue && LiveFor(i.request.username, i.unix)(r) && Parsable(env)(r)
  {
    if PingOk(env, s, i) {
      var live := Filter(LiveFor(i.request.username, i.unix), s.queue);
      OrderByMembers(CreatedAt(), live);
      FilterMember(LiveFor(i.request.username, i.unix), s.queue, r);
      FilterMember(Parsable(env), PendingFor(s, i.request.username, i.unix), r);
    }
  }

  ghost predicate OldestFirst(rows: seq<Row>) {
    forall i, j :: 0 <= i < j < |rows| ==> rows[i].createdAt <= rows[j].createdAt
  }

  /** A ping hands rows over by creation time, oldest first. */
  lemma HandedInOrder(env: Env, s: State, i: Input)
    ensures OldestFirst(Handed(env, s, i))
  {
    if PingOk(env, s, i) {
      OrderBySorted(CreatedAt(), Filter(LiveFor(i.request.username, i.unix), s.queue));
      FilterSorted(CreatedAt(), Parsable(env), PendingFor(s, i.request.username, i.unix));
    }
  }

  lemma IdOfHanded(rows: seq<Row>, id: nat)
    ensures id in Map(RowId(), rows) <==> exists r :: r in rows && r.id == id
  {
    if id in Map(RowId(), rows) {
      var k :| 0 <= k < |rows| && Map(RowId(), rows)[k] == id;
      assert rows[k] in rows;
    }
    forall r | r in rows && r.id == id ensures id in Map(RowId(), rows) {
      var k :| 0 <= k < |rows| && rows[k] == r;
      assert Map(RowId(), rows)[k] == id;
    }
  }

  function Gone(env: Env, s: State, i: Input): Row -> bool
    requires PingOk(env, s, i)
  {
    Named(i.request.username, Map(RowId(), Handed(env, s, i)))
  }

  lemma GoneIsHanded(env: Env, s: State, i: Input, r: Row)
    requires IdsIdentify(s) && PingOk(env, s, i) && r in s.queue
    ensures Gone(env, s, i)(r) <==> r in Handed(env, s, i)
  {
    HandedExactly(env, s, i, r);
    var handed := Handed(env, s, i);
    IdOfHanded(handed, r.id);
    if Gone(env, s, i)(r) {
      var q :| q in handed && q.id == r.id;
      HandedExactly(env, s, i, q);
    }
  }

  lemma HandedCount(env: Env, s: State, i: Input, r: Row)
    requires PingOk(env, s, i)
    ensures multiset(Handed(env, s, i))[r]
         == if LiveFor(i.request.username, i.unix)(r) && Parsable(env)(r) then multiset(s.queue)[r] else 0
  {
    var live := Filter(LiveFor(i.request.username, i.unix), s.queue);
    OrderByPermutes(CreatedAt(), live);
    FilterCount(Parsable(env), OrderBy(CreatedAt(), live), r);
    FilterCount(LiveFor(i.request.username, i.unix), s.queue, r);
  }

  lemma GoneCount(env: Env, s: State, i: Input, r: Row)
    requires IdsIdentify(s) && PingOk(env, s, i)
    ensures multiset(Filter(Gone(env, s, i), s.queue))[r] == multiset(Handed(env, s, i))[r]
  {
    FilterCount(Gone(env, s, i), s.queue, r);
    HandedCount(env, s, i, r);
    HandedExactly(env, s, i, r);
    if r in s.queue {
      GoneIsHanded(env, s, i, r);
    }
  }

  /** Deleting by the handed-over ids deletes the handed-over rows, each as often as it is handed over. */
  lemma DrainDeletesHanded(env: Env, s: State, i: Input)
    requires IdsIdentify(s) && PingOk(env, s, i)
    ensures multiset(Filter(Gone(env, s, i), s.queue)) == multiset(Handed(env, s, i))
  {
    var a, b := multiset(Filter(Gone(env, s, i), s.queue)), multiset(Handed(env, s, i));
    forall r ensures a[r] == b[r] {
      GoneCount(env, s, i, r);
    }
    assert a == b;
  }

  // ----- One step -----

  /** Which rows a step removes, and why. */
  lemma MoveRemoves(env: Env, s: State, i: Input, t: State, r: Row)
    requires IdsIdentify(s) && Moved(env, s, i, t) && r in s.queue
    ensures r !in t.queue <==> r in Handed(env, s, i) || r in Acked(env, s, i)
  {
    if PingOk(env, s, i) {
      GoneIsHanded(env, s, i, r);
      FilterMember(Not(Gone(env, s, i)), s.queue, r);
    } else if AckOk(env, s, i) {
      FilterMember(Named(i.request.username, i.request.ids.value), s.queue, r);
      FilterMember(Not(Named(i.request.username, i.request.ids.value)), s.queue, r);
    }
  }

  /**
   * A row leaves the queue if and only if a verified ping of its own recipient hands it over,
   * or a verified acknowledgement of its own recipient names it. Nothing else removes rows,
   * fetchPending included.
   */
  lemma RowLeavesIff(env: Env, s: State, i: Input, t: State, r: Row)
    requires IdsIdentify(s) && r in s.queue
    requires t == Clean(s, i.instant)
    ensures r !in Step(env, s, i).queue
       <==> || (&& PingOk(env, t, i) && i.request.username == r.message.recipient
                && r.createdAt + MESSAGE_TTL_SECS > i.unix && env.parses(r.message.payload))
            || (&& AckOk(env, t, i) && i.request.username == r.message.recipient
                && r.id in i.request.ids.value)
  {
    Moves(env, t, i);
    MoveRemoves(env, t, i, Step(env, s, i), r);
    HandedExactly(env, t, i, r);
    if AckOk(env, t, i) {
      FilterMember(Named(i.request.username, i.request.ids.value), t.queue, r);
    }
  }

  function SignedText(r: Request): Content
    requires (r.Ping? || r.Ack?) && r.timestamp.Some? && (r.Ack? ==> r.ids.Some?)
  {
    if r.Ping? then PingText(r.username, r.timestamp.value) else AckText(r.username, r.timestamp.value, r.ids.value)
  }

  /**
   Whoever makes a row leave the queue is its recipient: a registered user whose ping or
   acknowledgement, at most 300 s off the server's clock, verifies under the stored key; an
   acknowledgement has to name the row.
   */
  lemma OnlyItsOwner(env: Env, s: State, i: Input, r: Row)
    requires IdsIdentify(s) && r in s.queue && r !in Step(env, s, i).queue
    ensures i.request.Ping? || (i.request.Ack? && i.request.ids.Some? && r.id in i.request.ids.value)
    ensures i.request.username == r.message.recipient && i.request.username in s.users
    ensures i.request.timestamp.Some? && -300 <= i.unix - i.request.timestamp.value <= 300
    ensures i.request.signature.Some?
    ensures env.verify(s.users[i.request.username].publicKey, SignedText(i.request), i.request.signature.value)
  {
    RowLeavesIff(env, s, i, Clean(s, i.instant), r);
  }

  /** An accepted message takes exactly one of the two routes, and takes it once. */
  lemma OneRoute(env: Env, s: State, i: Input, m: Message, t: State)
    requires Accepted(env, Clean(s, i.instant), i) == Some(m)
    requires t == Step(env, s, i)
    ensures Routed(s, EnvelopeOf(i.request), m, i.surbs, i.unix, t)
  {
    Moves(env, Clean(s, i.instant), i);
    AcceptedIsOffered(env, Clean(s, i.instant), i);
  }

  // ----- Histories of a run, oldest first -----

  /** Messages accepted for relay, and the notices the server queues on its own account. */
  function AcceptedIn(env: Env, run: Run): seq<Message> {
    if run == [] then []
    else
      AcceptedIn(env, run[..|run| - 1]) + Offered(MoveOf(env, Seen(env, run), run[|run| - 1]))
  }

  function Offered(move: Move): seq<Message> {
    if move.Offer? then [move.message] else []
  }

  /** Of those, the ones given to the transport at once. */
  function SentIn(env: Env, run: Run): seq<Message> {
    if run == [] then []
    else
      SentIn(env, run[..|run| - 1]) + SentNow(Seen(env, run), MoveOf(env, Seen(env, run), run[|run| - 1]))
  }

  function SentNow(s: State, move: Move): seq<Message> {
    if move.Offer? && TakesReplyBlock(s, move.message, move.surbs) then [move.message] else []
  }

  /** Rows ever put in the queue. */
  function QueuedIn(env: Env, run: Run): seq<Row> {
    if run == [] then []
    else
      QueuedIn(env, run[..|run| - 1]) + NewRows(Seen(env, run), After(env, run))
  }

  function NewRows(s: State, t: State): seq<Row> {
    if t.nextRow > s.nextRow && t.queue != [] then [t.queue[|t.queue| - 1]] else []
  }

  /** Rows handed over by pings, in hand-over order. */
  function HandedIn(env: Env, run: Run): seq<Row> {
    if run == [] then []
    else HandedIn(env, run[..|run| - 1]) + Handed(env, Seen(env, run), run[|run| - 1])
  }

  /** Rows removed by acknowledgements. */
  function AckedIn(env: Env, run: Run): seq<Row> {
    if run == [] then []
    else AckedIn(env, run[..|run| - 1]) + Acked(env, Seen(env, run), run[|run| - 1])
  }

  // ----- Whole runs: rows -----

  lemma DrainConservesRows(env: Env, s: State, i: Input, t: State)
    requires IdsIdentify(s) && Moved(env, s, i, t) && PingOk(env, s, i)
    ensures multiset(s.queue) == multiset(t.queue) + multiset(Handed(env, s, i))
  {
    FilterSplits(Gone(env, s, i), s.queue);
    DrainDeletesHanded(env, s, i);
  }

  lemma StrikeConservesRows(env: Env, s: State, i: Input, t: State)
    requires Moved(env, s, i, t) && AckOk(env, s, i)
    ensures multiset(s.queue) == multiset(t.queue) + multiset(Acked(env, s, i))
  {
    FilterSplits(Named(i.request.username, i.request.ids.value), s.queue);
  }

  lemma OfferConservesRows(env: Env, s: State, i: Input, t: State)
    requires Moved(env, s, i, t) && !PingOk(env, s, i) && !AckOk(env, s, i)
    ensures t.queue == s.queue + NewRows(s, t)
  {
  }

  lemma MoveConservesRows(env: Env, s: State, i: Input, t: State)
    requires IdsIdentify(s) && Moved(env, s, i, t)
    ensures multiset(s.queue) + multiset(NewRows(s, t))
         == multiset(t.queue) + multiset(Handed(env, s, i)) + multiset(Acked(env, s, i))
  {
    if PingOk(env, s, i) {
      DrainConservesRows(env, s, i, t);
      assert NewRows(s, t) == [] && Acked(env, s, i) == [];
    } else if AckOk(env, s, i) {
      StrikeConservesRows(env, s, i, t);
      assert NewRows(s, t) == [] && Handed(env, s, i) == [];
    } else {
      OfferConservesRows(env, s, i, t);
      assert Handed(env, s, i) == [] && Acked(env, s, i) == [];
    }
  }

  /** Everything queued is still queued, or was handed over, or was acknowledged. */
  lemma {:induction false} RowsConserved(env: Env, run: Run)
    ensures multiset(QueuedIn(env, run))
         == multiset(After(env, run).queue) + multiset(HandedIn(env, run)) + multiset(AckedIn(env, run))
  {
    if run != [] {
      var prefix, i, s, t := run[..|run| - 1], run[|run| - 1], Seen(env, run), After(env, run);
      RowsConserved(env, prefix);
      IdsIdentifyAlways(env, prefix);
      Moves(env, s, i);
      MoveConservesRows(env, s, i, t);
      LedgerStep(QueuedIn(env, prefix), NewRows(s, t), s.queue, t.queue,
                 HandedIn(env, prefix), Handed(env, s, i), AckedIn(env, prefix), Acked(env, s, i));
    }
  }

  /** Every row ever queued has the next id, so no two share one. */
  lemma {:induction false} QueuedNumbered(env: Env, run: Run)
    ensures |QueuedIn(env, run)| == After(env, run).nextRow
    ensures forall k :: 0 <= k < |QueuedIn(env, run)| ==> QueuedIn(env, run)[k].id == k
  {
    if run != [] {
      QueuedNumbered(env, run[..|run| - 1]);
      Moves(env, Seen(env, run), run[|run| - 1]);
      MoveNumbers(env, Seen(env, run), run[|run| - 1], After(env, run));
    }
  }

  lemma MoveNumbers(env: Env, s: State, i: Input, t: State)
    requires Moved(env, s, i, t)
    ensures t.nextRow == s.nextRow + |NewRows(s, t)|
    ensures forall r :: r in NewRows(s, t) ==> r.id == s.nextRow
  {
  }

  /** A row ever queued is in exactly one of the three places, exactly once. */
  lemma RowInOnePlace(env: Env, run: Run, r: Row)
    requires r in QueuedIn(env, run)
    ensures multiset(After(env, run).queue)[r] + multiset(HandedIn(env, run))[r]
          + multiset(AckedIn(env, run))[r] == 1
  {
    RowsConserved(env, run);
    QueuedNumbered(env, run);
    DistinctCount(QueuedIn(env, run), r);
  }

  // ----- Whole runs: messages -----

  function RowMessage(): Row -> Message { (r: Row) => r.message }

  lemma MoveRoutes(env: Env, s: State, i: Input, t: State)
    requires Moved(env, s, i, t)
    ensures Offered(MoveOf(env, s, i)) == SentNow(s, MoveOf(env, s, i)) + Map(RowMessage(), NewRows(s, t))
  {
  }

  lemma TwoRoutes<T>(accepted: seq<T>, sent: seq<T>, queued: seq<T>, sentNow: seq<T>, queuedNow: seq<T>)
    requires multiset(accepted) == multiset(sent) + multiset(queued)
    ensures multiset(accepted + (sentNow + queuedNow)) == multiset(sent + sentNow) + multiset(queued + queuedNow)
  {
  }

  /** Everything accepted was sent at once or queued, with its sender, recipient and payload intact. */
  lemma {:induction false} RoutesConserved(env: Env, run: Run)
    ensures multiset(AcceptedIn(env, run))
         == multiset(SentIn(env, run)) + multiset(Map(RowMessage(), QueuedIn(env, run)))
  {
    if run != [] {
      var prefix := run[..|run| - 1];
      RoutesConserved(env, prefix);
      Moves(env, Seen(env, run), run[|run| - 1]);
      MoveRoutes(env, Seen(env, run), run[|run| - 1], After(env, run));
      MapConcat(RowMessage(), QueuedIn(env, prefix), NewRows(Seen(env, run), After(env, run)));
      TwoRoutes(AcceptedIn(env, prefix), SentIn(env, prefix), Map(RowMessage(), QueuedIn(env, prefix)),
                SentNow(Seen(env, run), MoveOf(env, Seen(env, run), run[|run| - 1])),
                Map(RowMessage(), NewRows(Seen(env, run), After(env, run))));
    }
  }

  // ----- Whole runs: the transport log -----

  function IsDrained(): Out -> bool { (o: Out) => o.Drained? }

  function DrainedRow(): Out -> Row {
    (o: Out) => if o.Drained? then o.row else Row(0, Notice(""), 0)
  }

  function IsSurb(): Out -> bool { (o: Out) => o.Surb? }

  function SurbMessage(): Out -> Message {
    (o: Out) => if o.Surb? then o.message else Notice("")
  }

  function RowsOut(outs: seq<Out>): seq<Row> { Map(DrainedRow(), Filter(IsDrained(), outs)) }

  function SurbsOut(outs: seq<Out>): seq<Message> { Map(SurbMessage(), Filter(IsSurb(), outs)) }

  lemma OutsConcat(a: seq<Out>, b: seq<Out>)
    ensures RowsOut(a + b) == RowsOut(a) + RowsOut(b)
    ensures SurbsOut(a + b) == SurbsOut(a) + SurbsOut(b)
  {
    FilterConcat(IsDrained(), a, b);
    FilterConcat(IsSurb(), a, b);
    MapConcat(DrainedRow(), Filter(IsDrained(), a), Filter(IsDrained(), b));
    MapConcat(SurbMessage(), Filter(IsSurb(), a), Filter(IsSurb(), b));
  }

  lemma DrainOuts(tag: Tag, rows: seq<Row>)
    ensures RowsOut(Map(ToTag(tag), rows)) == rows
    ensures SurbsOut(Map(ToTag(tag), rows)) == []
  {
    var outs := Map(ToTag(tag), rows);
    FilterAll(IsDrained(), outs);
    FilterNone(IsSurb(), outs);
  }

  lemma SurbOut(out: Out)
    requires out.Surb?
    ensures RowsOut([out]) == [] && SurbsOut([out]) == [out.message]
  {
    FilterOne(IsDrained(), out);
    FilterOne(IsSurb(), out);
    MapOne(SurbMessage(), out);
  }

  lemma DirectOuts(outs: seq<Out>)
    requires forall o :: o in outs ==> o.Direct?
    ensures RowsOut(outs) == [] && SurbsOut(outs) == []
  {
    FilterNone(IsDrained(), outs);
    FilterNone(IsSurb(), outs);
  }

  /** What a move appends to the transport log. */
  function Appended(env: Env, s: State, i: Input): seq<Out> {
    match MoveOf(env, s, i)
    case Drain(_, tag) => Map(ToTag(tag), Handed(env, s, i))
    case Offer(m, envelope, surbs) =>
      if TakesReplyBlock(s, m, surbs) then [Surb(s.users[m.recipient].senderTag, envelope, m)] else []
    case Pass(outs) => outs
    case Strike(_, _) => []
  }

  lemma MoveAppends(env: Env, s: State, i: Input, t: State)
    requires Moved(env, s, i, t)
    ensures t.outbox == s.outbox + Appended(env, s, i)
  {
  }

  lemma AppendedOuts(env: Env, s: State, i: Input, t: State)
    requires Moved(env, s, i, t)
    ensures RowsOut(Appended(env, s, i)) == Handed(env, s, i)
    ensures SurbsOut(Appended(env, s, i)) == SentNow(s, MoveOf(env, s, i))
  {
    match MoveOf(env, s, i)
    case Drain(_, tag) => DrainOuts(tag, Handed(env, s, i));
    case Offer(m, _, surbs) =>
      if TakesReplyBlock(s, m, surbs) {
        SurbOut(Appended(env, s, i)[0]);
      }
    case Pass(outs) => DirectOuts(outs);
    case Strike(_, _) =>
  }

  lemma MoveLogs(env: Env, s: State, i: Input, t: State)
    requires Moved(env, s, i, t)
    ensures RowsOut(t.outbox) == RowsOut(s.outbox) + Handed(env, s, i)
    ensures SurbsOut(t.outbox) == SurbsOut(s.outbox) + SentNow(s, MoveOf(env, s, i))
  {
    MoveAppends(env, s, i, t);
    OutsConcat(s.outbox, Appended(env, s, i));
    AppendedOuts(env, s, i, t);
  }

  /** The transport log shows these hand-overs, in this order, and no others. */
  lemma {:induction false} OutboxTellsAll(env: Env, run: Run)
    ensures RowsOut(After(env, run).outbox) == HandedIn(env, run)
    ensures SurbsOut(After(env, run).outbox) == SentIn(env, run)
  {
    if run != [] {
      OutboxTellsAll(env, run[..|run| - 1]);
      Moves(env, Seen(env, run), run[|run| - 1]);
      MoveLogs(env, Seen(env, run), run[|run| - 1], After(env, run));
    }
  }

  // ----- Sealed messages and their envelopes -----

  predicate IsSealed(m: Message) {
    m.payload.SealedBlob?
  }

  /** Sealed messages by reply block are in a sealed envelope; everything drained is in a plain one. */
  predicate EnvelopeFits(o: Out) {
    match o
    case Surb(_, envelope, m) => envelope.SealedEnvelope? <==> IsSealed(m)
    case Drained(_, envelope, _) => envelope.PlainEnvelope?
    case Direct(_, _, _) => true
  }

  lemma AppendedFit(env: Env, s: State, i: Input)
    ensures forall o :: o in Appended(env, s, i) ==> EnvelopeFits(o) || o.Direct? || MoveOf(env, s, i).Pass?
  {
  }

  lemma MoveKeepsFit(env: Env, s: State, i: Input, t: State)
    requires Moved(env, s, i, t) && forall o :: o in s.outbox ==> EnvelopeFits(o)
    ensures forall o :: o in t.outbox ==> EnvelopeFits(o)
  {
    MoveAppends(env, s, i, t);
    AppendedFit(env, s, i);
  }

  lemma {:induction false} EnvelopesFit(env: Env, run: Run)
    ensures forall o :: o in After(env, run).outbox ==> EnvelopeFits(o)
  {
    if run != [] {
      EnvelopesFit(env, run[..|run| - 1]);
      Moves(env, Seen(env, run), run[|run| - 1]);
      MoveKeepsFit(env, Seen(env, run), run[|run| - 1], After(env, run));
    }
  }

  /** The message a hand-over carries. */
  function Carried(o: Out): Message
    requires !o.Direct?
  {
    if o.Surb? then o.message else o.row.message
  }

  /** In every run a sealed message leaves in a sealed envelope if and only if it took the reply block. */
  lemma SealedEnvelopeIff(env: Env, run: Run, o: Out)
    requires o in After(env, run).outbox && !o.Direct? && IsSealed(Carried(o))
    ensures o.envelope.SealedEnvelope? <==> o.Surb?
  {
    EnvelopesFit(env, run);
  }

  /** The client's dispatch of a chat message: the envelope's type alone, and then the payload's field. */
  datatype Reading = Unseal | Decrypt | MissingMlsMessage

  function ClientReads(envelope: Envelope, payload: Payload, hasMlsField: bool): Reading {
    if envelope.SealedEnvelope? then Unseal
    else if payload.Json? && hasMlsField then Decrypt
    else MissingMlsMessage
  }

  /**
   A sealed message that had to be queued is lost on delivery: the ping that hands it over deletes
   it, and the client that receives it in a plain envelope rejects it.
   */
  lemma QueuedSealedIsLost(env: Env, run: Run, r: Row, hasMlsField: bool)
    requires run != [] && r in Handed(env, Seen(env, run), run[|run| - 1]) && IsSealed(r.message)
    ensures r !in After(env, run).queue
    ensures exists o :: o in After(env, run).outbox && o.Drained? && o.row == r
              && ClientReads(o.envelope, r.message.payload, hasMlsField) == MissingMlsMessage
  {
    IdsIdentifyAlways(env, run[..|run| - 1]);
    HandedLeaves(env, After(env, run[..|run| - 1]), run[|run| - 1], r);
    assert Drained(run[|run| - 1].request.tag, PlainEnvelope, r) in After(env, run).outbox;
  }

  lemma HandedLeaves(env: Env, s: State, i: Input, r: Row)
    requires IdsIdentify(s) && r in Handed(env, Clean(s, i.instant), i)
    ensures i.request.Ping? && r !in Step(env, s, i).queue
    ensures Drained(i.request.tag, PlainEnvelope, r) in Step(env, s, i).outbox
  {
    var seen := Clean(s, i.instant);
    Moves(env, seen, i);
    MoveAppends(env, seen, i, Step(env, s, i));
    HandedExactly(env, seen, i, r);
    RowLeavesIff(env, s, i, seen, r);
    var k :| 0 <= k < |Handed(env, seen, i)| && Handed(env, seen, i)[k] == r;
    assert Appended(env, seen, i)[k] == Drained(i.request.tag, PlainEnvelope, r);
  }
}
