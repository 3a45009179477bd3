/** The client's buffer of messages that could not be decrypted yet, retried on a timer. */
module RetryBuffer {
  import opened Sequences

  const MAX_RETRIES := 10
  const MAX_AGE_SECS := 300

  /** What a decryption attempt yields; a non-application message has nothing to show. */
  datatype Outcome = Content(text: string) | NonApplication | EpochError | OtherError

  datatype Row = Row(id: nat, conversation: string, body: string, receivedAt: int,
                     retries: nat, processed: bool, failed: bool)

  /** A message saved to the conversation, with the buffered row it came from. */
  datatype Saved = Saved(source: nat, conversation: string, text: string, receivedAt: int)

  /** The buffer table, and a log of decryption attempts (by row id) and of saved messages. */
  datatype State = State(rows: seq<Row>, nextId: nat, attempts: seq<nat>, saved: seq<Saved>)

  const INIT := State([], 1, [], [])

  /** The outcome of a row's n-th attempt, counted from 1. */
  type Decrypt = (nat, nat) -> Outcome

  function ReceivedAt(): Row -> int { (r: Row) => r.receivedAt }

  predicate Settled(r: Row) {
    r.processed || r.failed
  }

  function Unsettled(conversation: string): Row -> bool {
    (r: Row) => r.conversation == conversation && !Settled(r)
  }

  /** get_buffered_messages. */
  function Buffered(rows: seq<Row>, conversation: string): seq<Row> {
    OrderBy(ReceivedAt(), Filter(Unsettled(conversation), rows))
  }

  // ----- UPDATE ... WHERE id = ? -----

  function Updated(rows: seq<Row>, id: nat, f: Row -> Row): seq<Row> {
    if rows == [] then []
    else
      var k := |rows| - 1;
      Updated(rows[..k], id, f) + [if rows[k].id == id then f(rows[k]) else rows[k]]
  }

  lemma {:induction false} UpdatedAt(rows: seq<Row>, id: nat, f: Row -> Row, k: nat)
    requires k < |rows|
    ensures |Updated(rows, id, f)| == |rows|
    ensures Updated(rows, id, f)[k] == if rows[k].id == id then f(rows[k]) else rows[k]
  {
    var n := |rows| - 1;
    if n > 0 {
      UpdatedAt(rows[..n], id, f, if k < n then k else 0);
    }
  }

  function Incremented(): Row -> Row { (r: Row) => r.(retries := r.retries + 1) }

  function Processed(): Row -> Row { (r: Row) => r.(processed := true) }

  function Failed(): Row -> Row { (r: Row) => r.(failed := true) }

  // ----- One pass over a conversation -----

  function Counted(s: State, id: nat): State {
    s.(rows := Updated(s.rows, id, Incremented()), attempts := s.attempts + [id])
  }

  function Concluded(s: State, msg: Row, outcome: Outcome): State {
    match outcome
    case Content(text) =>
      s.(rows := Updated(s.rows, msg.id, Processed()),
         saved := s.saved + [Saved(msg.id, msg.conversation, text, msg.receivedAt)])
    case NonApplication => s.(rows := Updated(s.rows, msg.id, Processed()))
    case EpochError => s
    case OtherError => s.(rows := Updated(s.rows, msg.id, Failed()))
  }

  /** The loop body, for a row as it was read at the start of the pass. */
  function Visit(decrypt: Decrypt, s: State, msg: Row): State {
    if msg.retries >= MAX_RETRIES then s.(rows := Updated(s.rows, msg.id, Failed()))
    else Concluded(Counted(s, msg.id), msg, decrypt(msg.id, msg.retries + 1))
  }

  function VisitFirst(decrypt: Decrypt, s: State, todo: seq<Row>, k: nat): State
    requires k <= |todo|
  {
    if k == 0 then s else Visit(decrypt, VisitFirst(decrypt, s, todo, k - 1), todo[k - 1])
  }

  function Passed(decrypt: Decrypt, s: State, conversation: string): State {
    var todo := Buffered(s.rows, conversation);
    VisitFirst(decrypt, s, todo, |todo|)
  }

  class BufferProcessor {
    const decrypt: Decrypt
    var rows: seq<Row>
    var nextId: nat
    var attempts: seq<nat>
    var saved: seq<Saved>

    ghost function View(): State
      reads this
    {
      State(rows, nextId, attempts, saved)
    }

    constructor (decrypt: Decrypt)
      ensures this.decrypt == decrypt && View() == INIT
    {
      this.decrypt := decrypt;
      rows, nextId, attempts, saved := [], 1, [], [];
    }

    method ProcessConversationBuffer(conversation: string)
      modifies this
      ensures View() == Passed(decrypt, old(View()), conversation)
    {
      var messages := Buffered(rows, conversation);
      for k := 0 to |messages|
        invariant View() == VisitFirst(decrypt, old(View()), messages, k)
      {
        ProcessMessage(messages[k]);
      }
    }

    method ProcessMessage(msg: Row)
      modifies this
      ensures View() == Visit(decrypt, old(View()), msg)
    {
      if msg.retries >= MAX_RETRIES {
        MarkBufferedFailed(msg.id);
        return;
      }
      IncrementRetryCount(msg.id);
      attempts := attempts + [msg.id];
      Conclude(msg, decrypt(msg.id, msg.retries + 1));
    }

    method Conclude(msg: Row, outcome: Outcome)
      modifies this`rows, this`saved
      ensures View() == Concluded(old(View()), msg, outcome)
    {
      match outcome {
        case Content(text) =>
          saved := saved + [Saved(msg.id, msg.conversation, text, msg.receivedAt)];
          MarkBufferedProcessed(msg.id);
        case NonApplication =>
          MarkBufferedProcessed(msg.id);
        case EpochError =>
        case OtherError =>
          MarkBufferedFailed(msg.id);
      }
    }

    method IncrementRetryCount(id: nat)
      modifies this`rows
      ensures rows == Updated(old(rows), id, Incremented())
    {
      rows := Updated(rows, id, Incremented());
    }

    method MarkBufferedProcessed(id: nat)
      modifies this`rows
      ensures rows == Updated(old(rows), id, Processed())
    {
      rows := Updated(rows, id, Processed());
    }

    method MarkBufferedFailed(id: nat)
      modifies this`rows
      ensures rows == Updated(old(rows), id, Failed())
    {
      rows := Updated(rows, id, Failed());
    }
  }

  // ----- What a visit does to its row, and to no other -----

  /** The row after being looked at once. */
  function Tried(decrypt: Decrypt, r: Row): Row {
    if r.retries >= MAX_RETRIES then r.(failed := true)
    else
      match decrypt(r.id, r.retries + 1)
      case EpochError => r.(retries := r.retries + 1)
      case OtherError => r.(retries := r.retries + 1, failed := true)
      case _ => r.(retries := r.retries + 1, processed := true)
  }

  ghost predicate IdsDiffer(rows: seq<Row>) {
    forall i, j :: 0 <= i < j < |rows| ==> rows[i].id != rows[j].id
  }

  lemma CountedAt(s: State, id: nat, k: nat)
    requires k < |s.rows|
    ensures |Counted(s, id).rows| == |s.rows|
    ensures Counted(s, id).rows[k] == if s.rows[k].id == id then s.rows[k].(retries := s.rows[k].retries + 1)
                                      else s.rows[k]
  {
    UpdatedAt(s.rows, id, Incremented(), k);
  }

  lemma ConcludedAt(s: State, msg: Row, outcome: Outcome, k: nat)
    requires k < |s.rows|
    ensures |Concluded(s, msg, outcome).rows| == |s.rows|
    ensures Concluded(s, msg, outcome).rows[k]
         == if s.rows[k].id != msg.id || outcome.EpochError? then s.rows[k]
            else if outcome.OtherError? then s.rows[k].(failed := true)
            else s.rows[k].(processed := true)
  {
    UpdatedAt(s.rows, msg.id, if outcome.OtherError? then Failed() else Processed(), k);
  }

  lemma VisitAt(decrypt: Decrypt, s: State, msg: Row, k: nat)
    requires k < |s.rows| && (s.rows[k].id == msg.id ==> s.rows[k] == msg)
    ensures |Visit(decrypt, s, msg).rows| == |s.rows|
    ensures Visit(decrypt, s, msg).rows[k] == if s.rows[k].id == msg.id then Tried(decrypt, msg) else s.rows[k]
  {
    if msg.retries >= MAX_RETRIES {
      UpdatedAt(s.rows, msg.id, Failed(), k);
    } else {
      CountedAt(s, msg.id, k);
      ConcludedAt(Counted(s, msg.id), msg, decrypt(msg.id, msg.retries + 1), k);
    }
  }

  /** A visit rewrites the visited row alone. */
  lemma VisitRow(decrypt: Decrypt, s: State, msg: Row, k: nat)
    requires IdsDiffer(s.rows) && msg in s.rows && k < |s.rows|
    ensures |Visit(decrypt, s, msg).rows| == |s.rows|
    ensures Visit(decrypt, s, msg).rows[k] == if s.rows[k].id == msg.id then Tried(decrypt, msg) else s.rows[k]
  {
    var j :| 0 <= j < |s.rows| && s.rows[j] == msg;
    assert s.rows[k].id == msg.id ==> k == j;
    VisitAt(decrypt, s, msg, k);
  }

  /** The row after a pass over some conversation. */
  function AfterPass(decrypt: Decrypt, conversation: string, r: Row): Row {
    if r.conversation == conversation && !Settled(r) then Tried(decrypt, r) else r
  }

  function EachAfterPass(decrypt: Decrypt, conversation: string): Row -> Row {
    (r: Row) => AfterPass(decrypt, conversation, r)
  }

  /** Once the first k rows read have been visited, exactly those have been tried. */
  ghost predicate VisitedSoFar(decrypt: Decrypt, before: seq<Row>, todo: seq<Row>, k: nat, now: seq<Row>) {
    && k <= |todo| && |now| == |before|
    && forall i :: 0 <= i < |before| ==>
         now[i] == if before[i] in todo[..k] then Tried(decrypt, before[i]) else before[i]
  }

  lemma IdsKept(decrypt: Decrypt, before: seq<Row>, todo: seq<Row>, k: nat, now: seq<Row>)
    requires IdsDiffer(before) && VisitedSoFar(decrypt, before, todo, k, now)
    ensures IdsDiffer(now)
  {
    forall i, j | 0 <= i < j < |now| ensures now[i].id != now[j].id {
      assert now[i].id == before[i].id && now[j].id == before[j].id;
    }
  }

  lemma NextUntouched(decrypt: Decrypt, before: seq<Row>, todo: seq<Row>, k: nat, now: seq<Row>)
    requires VisitedSoFar(decrypt, before, todo, k, now) && k < |todo|
    requires Distinct(todo) && todo[k] in before
    ensures todo[k] in now
  {
    var j :| 0 <= j < |before| && before[j] == todo[k];
    assert todo[k] !in todo[..k];
    assert now[j] == todo[k];
  }

  lemma VisitedOneMore(decrypt: Decrypt, before: seq<Row>, todo: seq<Row>, k: nat, s: State, t: State)
    requires IdsDiffer(before) && Distinct(todo) && k < |todo| && todo[k] in before
    requires VisitedSoFar(decrypt, before, todo, k, s.rows) && t == Visit(decrypt, s, todo[k])
    ensures VisitedSoFar(decrypt, before, todo, k + 1, t.rows)
  {
    IdsKept(decrypt, before, todo, k, s.rows);
    NextUntouched(decrypt, before, todo, k, s.rows);
    var j :| 0 <= j < |before| && before[j] == todo[k];
    forall i | 0 <= i < |before|
      ensures |t.rows| == |before|
      ensures t.rows[i] == if before[i] in todo[..k + 1] then Tried(decrypt, before[i]) else before[i]
    {
      VisitRow(decrypt, s, todo[k], i);
      OneMoreMember(todo, k, before[i]);
      assert before[i].id == todo[k].id ==> i == j;
    }
    VisitRow(decrypt, s, todo[k], j);
  }

  lemma OneMoreMember<T>(todo: seq<T>, k: nat, x: T)
    requires k < |todo|
    ensures x in todo[..k + 1] <==> x in todo[..k] || x == todo[k]
  {
    assert todo[..k + 1] == todo[..k] + [todo[k]];
  }

  // ----- A whole pass -----

  lemma RowsDistinct(rows: seq<Row>)
    requires IdsDiffer(rows)
    ensures Distinct(rows)
  {
  }

  lemma BufferedRows(rows: seq<Row>, conversation: string)
    requires IdsDiffer(rows)
    ensures Distinct(Buffered(rows, conversation))
    ensures forall r :: r in Buffered(rows, conversation) <==> r in rows && Unsettled(conversation)(r)
  {
    RowsDistinct(rows);
    OrderByDistinct(ReceivedAt(), Unsettled(conversation), rows);
    FilterMembers(Unsettled(conversation), rows);
    OrderByMembers(ReceivedAt(), Filter(Unsettled(conversation), rows));
  }

  lemma {:induction false} FirstVisited(decrypt: Decrypt, s: State, todo: seq<Row>, k: nat)
    requires IdsDiffer(s.rows) && Distinct(todo) && (forall r :: r in todo ==> r in s.rows) && k <= |todo|
    ensures VisitedSoFar(decrypt, s.rows, todo, k, VisitFirst(decrypt, s, todo, k).rows)
  {
    if k > 0 {
      FirstVisited(decrypt, s, todo, k - 1);
      NextVisited(decrypt, s, todo, k, VisitFirst(decrypt, s, todo, k - 1), VisitFirst(decrypt, s, todo, k));
    }
  }

  lemma NextVisited(decrypt: Decrypt, s: State, todo: seq<Row>, k: nat, u: State, v: State)
    requires IdsDiffer(s.rows) && Distinct(todo) && (forall r :: r in todo ==> r in s.rows) && 0 < k <= |todo|
    requires u == VisitFirst(decrypt, s, todo, k - 1) && v == VisitFirst(decrypt, s, todo, k)
    requires VisitedSoFar(decrypt, s.rows, todo, k - 1, u.rows)
    ensures VisitedSoFar(decrypt, s.rows, todo, k, v.rows)
  {
    assert todo[k - 1] in todo;
    VisitedOneMore(decrypt, s.rows, todo, k - 1, u, v);
  }

  lemma NextInTable(decrypt: Decrypt, s: State, todo: seq<Row>, k: nat)
    requires IdsDiffer(s.rows) && Distinct(todo) && (forall r :: r in todo ==> r in s.rows) && k < |todo|
    ensures todo[k] in VisitFirst(decrypt, s, todo, k).rows
  {
    FirstVisited(decrypt, s, todo, k);
    assert todo[k] in todo;
    NextUntouched(decrypt, s.rows, todo, k, VisitFirst(decrypt, s, todo, k).rows);
  }

  /** A pass tries each unsettled row of its conversation once and touches no other row. */
  lemma PassTriesEach(decrypt: Decrypt, s: State, conversation: string)
    requires IdsDiffer(s.rows)
    ensures Passed(decrypt, s, conversation).rows == Map(EachAfterPass(decrypt, conversation), s.rows)
  {
    var todo := Buffered(s.rows, conversation);
    BufferedRows(s.rows, conversation);
    FirstVisited(decrypt, s, todo, |todo|);
    var now := Passed(decrypt, s, conversation).rows;
    forall i | 0 <= i < |s.rows|
      ensures |now| == |s.rows| && now[i] == EachAfterPass(decrypt, conversation)(s.rows[i])
    {
      assert todo[..|todo|] == todo;
      assert s.rows[i] in s.rows;
    }
    assert |now| == |s.rows|;
  }

  // ----- The books: how often each row was tried and saved -----

  function Is(id: nat): nat -> bool { (n: nat) => n == id }

  function From(id: nat): Saved -> bool { (m: Saved) => m.source == id }

  function Times(s: State, id: nat): nat {
    |Filter(Is(id), s.attempts)|
  }

  function Saves(s: State, id: nat): nat {
    |Filter(From(id), s.saved)|
  }

  /** One of the first n attempts on the row yields content. */
  predicate Yielded(decrypt: Decrypt, id: nat, n: nat) {
    exists k :: 1 <= k <= n && decrypt(id, k).Content?
  }

  /** The row's flags say exactly how its attempts went. */
  ghost predicate History(decrypt: Decrypt, r: Row) {
    && r.retries <= 10
    && (forall n :: 1 <= n < r.retries ==> decrypt(r.id, n).EpochError?)
    && (r.processed <==> r.retries > 0 && (decrypt(r.id, r.retries).Content?
                                           || decrypt(r.id, r.retries).NonApplication?))
    && (r.failed ==> r.retries > 0 && (decrypt(r.id, r.retries).OtherError?
                                       || (r.retries == 10 && decrypt(r.id, r.retries).EpochError?)))
    && (!Settled(r) && r.retries > 0 ==> decrypt(r.id, r.retries).EpochError?)
  }

  ghost predicate RowOk(decrypt: Decrypt, s: State, r: Row) {
    r.id < s.nextId && Times(s, r.id) == r.retries && History(decrypt, r)
  }

  ghost predicate RowsOk(decrypt: Decrypt, s: State) {
    forall r :: r in s.rows ==> RowOk(decrypt, s, r)
  }

  ghost predicate BooksOk(decrypt: Decrypt, s: State, id: nat) {
    && Times(s, id) <= 10
    && Saves(s, id) == (if Yielded(decrypt, id, Times(s, id)) then 1 else 0)
    && (id >= s.nextId ==> Times(s, id) == 0)
  }

  ghost predicate Invariant(decrypt: Decrypt, s: State) {
    IdsDiffer(s.rows) && RowsOk(decrypt, s) && forall id :: BooksOk(decrypt, s, id)
  }

  lemma VisitTimes(decrypt: Decrypt, s: State, msg: Row, id: nat)
    ensures Times(Visit(decrypt, s, msg), id)
         == Times(s, id) + (if id == msg.id && msg.retries < MAX_RETRIES then 1 else 0)
  {
    FilterSnoc(Is(id), s.attempts, msg.id);
  }

  lemma ConcludedSaves(s: State, msg: Row, outcome: Outcome, id: nat)
    ensures Saves(Concluded(s, msg, outcome), id) == Saves(s, id) + (if id == msg.id && outcome.Content? then 1 else 0)
  {
    if outcome.Content? {
      FilterSnoc(From(id), s.saved, Saved(msg.id, msg.conversation, outcome.text, msg.receivedAt));
    }
  }

  lemma VisitCounts(decrypt: Decrypt, s: State, msg: Row, id: nat)
    ensures var t := Visit(decrypt, s, msg);
            var tried := id == msg.id && msg.retries < MAX_RETRIES;
            && t.nextId == s.nextId
            && Times(t, id) == Times(s, id) + (if tried then 1 else 0)
            && Saves(t, id) == Saves(s, id) + (if tried && decrypt(id, msg.retries + 1).Content? then 1 else 0)
  {
    VisitTimes(decrypt, s, msg, id);
    if msg.retries < MAX_RETRIES {
      ConcludedSaves(Counted(s, msg.id), msg, decrypt(msg.id, msg.retries + 1), id);
    }
  }

  lemma YieldedMore(decrypt: Decrypt, id: nat, n: nat)
    ensures Yielded(decrypt, id, n + 1) <==> Yielded(decrypt, id, n) || decrypt(id, n + 1).Content?
  {
    if decrypt(id, n + 1).Content? {
      assert 1 <= n + 1 <= n + 1;
    }
  }

  lemma VisitBooks(decrypt: Decrypt, s: State, msg: Row, id: nat)
    requires BooksOk(decrypt, s, id)
    requires msg.id < s.nextId && Times(s, msg.id) == msg.retries && History(decrypt, msg) && !Settled(msg)
    ensures BooksOk(decrypt, Visit(decrypt, s, msg), id)
  {
    VisitCounts(decrypt, s, msg, id);
    if id == msg.id {
      YieldedMore(decrypt, id, msg.retries);
    }
  }

  lemma TriedHistory(decrypt: Decrypt, r: Row)
    requires History(decrypt, r) && !Settled(r)
    ensures History(decrypt, Tried(decrypt, r))
    ensures Tried(decrypt, r).retries == r.retries + (if r.retries < MAX_RETRIES then 1 else 0)
  {
  }

  lemma VisitRowOk(decrypt: Decrypt, s: State, msg: Row, k: nat)
    requires IdsDiffer(s.rows) && RowsOk(decrypt, s) && msg in s.rows && !Settled(msg) && k < |s.rows|
    ensures var t := Visit(decrypt, s, msg);
            |t.rows| == |s.rows| && t.rows[k].id == s.rows[k].id && RowOk(decrypt, t, t.rows[k])
  {
    assert s.rows[k] in s.rows;
    TriedHistory(decrypt, msg);
    VisitRow(decrypt, s, msg, k);
    VisitCounts(decrypt, s, msg, s.rows[k].id);
  }

  lemma VisitRowsOk(decrypt: Decrypt, s: State, msg: Row)
    requires IdsDiffer(s.rows) && RowsOk(decrypt, s) && msg in s.rows && !Settled(msg)
    ensures RowsOk(decrypt, Visit(decrypt, s, msg)) && IdsDiffer(Visit(decrypt, s, msg).rows)
  {
    var t := Visit(decrypt, s, msg);
    forall k | 0 <= k < |s.rows|
      ensures |t.rows| == |s.rows| && t.rows[k].id == s.rows[k].id && RowOk(decrypt, t, t.rows[k])
    {
      VisitRowOk(decrypt, s, msg, k);
    }
    assert |t.rows| == |s.rows|;
  }

  lemma VisitKeeps(decrypt: Decrypt, s: State, msg: Row, t: State)
    requires Invariant(decrypt, s) && msg in s.rows && !Settled(msg) && t == Visit(decrypt, s, msg)
    ensures Invariant(decrypt, t)
  {
    VisitRowsOk(decrypt, s, msg);
    forall id ensures BooksOk(decrypt, t, id) {
      VisitBooks(decrypt, s, msg, id);
    }
  }

  lemma {:induction false} PassKeeps(decrypt: Decrypt, s: State, todo: seq<Row>, k: nat)
    requires Invariant(decrypt, s) && Distinct(todo) && k <= |todo|
    requires forall r :: r in todo ==> r in s.rows && !Settled(r)
    ensures Invariant(decrypt, VisitFirst(decrypt, s, todo, k))
  {
    if k > 0 {
      PassKeeps(decrypt, s, todo, k - 1);
      NextKeeps(decrypt, s, todo, k, VisitFirst(decrypt, s, todo, k - 1), VisitFirst(decrypt, s, todo, k));
    }
  }

  lemma NextKeeps(decrypt: Decrypt, s: State, todo: seq<Row>, k: nat, u: State, v: State)
    requires IdsDiffer(s.rows) && Distinct(todo) && 0 < k <= |todo|
    requires forall r :: r in todo ==> r in s.rows && !Settled(r)
    requires u == VisitFirst(decrypt, s, todo, k - 1) && v == VisitFirst(decrypt, s, todo, k)
    requires Invariant(decrypt, u)
    ensures Invariant(decrypt, v)
  {
    NextInTable(decrypt, s, todo, k - 1);
    assert todo[k - 1] in todo;
    VisitKeeps(decrypt, u, todo[k - 1], v);
  }

  // ----- Whole runs -----

  datatype Event =
    | Receive(conversation: string, body: string, receivedAt: int)
    | Pass(conversation: string)
    | CleanUp(now: int)

  function Kept(now: int): Row -> bool {
    (r: Row) => r.receivedAt >= now - MAX_AGE_SECS && !Settled(r)
  }

  function NewRow(e: Event, id: nat): Row
    requires e.Receive?
  {
    Row(id, e.conversation, e.body, e.receivedAt, 0, false, false)
  }

  function Step(decrypt: Decrypt, s: State, e: Event): State {
    match e
    case Receive(_, _, _) => s.(rows := s.rows + [NewRow(e, s.nextId)], nextId := s.nextId + 1)
    case Pass(conversation) => Passed(decrypt, s, conversation)
    case CleanUp(now) => s.(rows := Filter(Kept(now), s.rows))
  }

  function After(decrypt: Decrypt, run: seq<Event>): State {
    if run == [] then INIT else Step(decrypt, After(decrypt, run[..|run| - 1]), run[|run| - 1])
  }

  // ----- The books balance in every run -----

  lemma {:induction false} IdsDifferFiltered(p: Row -> bool, rows: seq<Row>)
    requires IdsDiffer(rows)
    ensures IdsDiffer(Filter(p, rows))
  {
    if rows != [] {
      var t, x := rows[..|rows| - 1], rows[|rows| - 1];
      assert rows == t + [x];
      IdsDifferFiltered(p, t);
      forall r | r in Filter(p, t) ensures r.id != x.id {
        FilterMember(p, t, r);
        var i :| 0 <= i < |t| && t[i] == r;
        assert rows[i] == r;
      }
    }
  }

  lemma CleanUpKeeps(decrypt: Decrypt, s: State, now: int)
    requires Invariant(decrypt, s)
    ensures Invariant(decrypt, Step(decrypt, s, CleanUp(now)))
  {
    var t := Step(decrypt, s, CleanUp(now));
    IdsDifferFiltered(Kept(now), s.rows);
    FilterMembers(Kept(now), s.rows);
    forall id ensures BooksOk(decrypt, t, id) {
      assert BooksOk(decrypt, s, id);
    }
  }

  lemma ReceiveKeeps(decrypt: Decrypt, s: State, e: Event)
    requires Invariant(decrypt, s) && e.Receive?
    ensures Invariant(decrypt, Step(decrypt, s, e))
  {
    var t := Step(decrypt, s, e);
    assert BooksOk(decrypt, s, s.nextId);
    forall i | 0 <= i < |s.rows| ensures s.rows[i].id < s.nextId {
      assert s.rows[i] in s.rows;
    }
    forall id ensures BooksOk(decrypt, t, id) {
      assert BooksOk(decrypt, s, id);
    }
  }

  lemma PassedKeeps(decrypt: Decrypt, s: State, conversation: string)
    requires Invariant(decrypt, s)
    ensures Invariant(decrypt, Passed(decrypt, s, conversation))
  {
    var todo := Buffered(s.rows, conversation);
    BufferedRows(s.rows, conversation);
    PassKeeps(decrypt, s, todo, |todo|);
  }

  lemma {:induction false} InvariantAlways(decrypt: Decrypt, run: seq<Event>)
    ensures Invariant(decrypt, After(decrypt, run))
  {
    if run != [] {
      InvariantAlways(decrypt, run[..|run| - 1]);
      var s := After(decrypt, run[..|run| - 1]);
      match run[|run| - 1]
      case Receive(_, _, _) => ReceiveKeeps(decrypt, s, run[|run| - 1]);
      case Pass(conversation) => PassedKeeps(decrypt, s, conversation);
      case CleanUp(now) => CleanUpKeeps(decrypt, s, now);
    } else {
      forall id ensures BooksOk(decrypt, INIT, id) {
      }
    }
  }

  /** No message is tried more than ten times; it is saved exactly once if an attempt yields content, else never. */
  lemma TriedAndSaved(decrypt: Decrypt, run: seq<Event>, id: nat)
    ensures Times(After(decrypt, run), id) <= 10
    ensures Saves(After(decrypt, run), id) == if Yielded(decrypt, id, Times(After(decrypt, run), id)) then 1 else 0
  {
    InvariantAlways(decrypt, run);
    assert BooksOk(decrypt, After(decrypt, run), id);
  }

  /** A row's counter and flags say exactly how its attempts went. */
  lemma RowTellsHistory(decrypt: Decrypt, run: seq<Event>, r: Row)
    requires r in After(decrypt, run).rows
    ensures Times(After(decrypt, run), r.id) == r.retries && History(decrypt, r)
  {
    InvariantAlways(decrypt, run);
  }

  // ----- Settling -----

  function RowStep(decrypt: Decrypt, e: Event, r: Row): Row {
    if e.Pass? then AfterPass(decrypt, e.conversation, r) else r
  }

  lemma StepOrigin(decrypt: Decrypt, s: State, e: Event, q: Row)
    requires IdsDiffer(s.rows) && q in Step(decrypt, s, e).rows
    ensures (e.Receive? && q == NewRow(e, s.nextId)) || exists r :: r in s.rows && q == RowStep(decrypt, e, r)
  {
    match e
    case Receive(_, _, _) =>
      if q in s.rows {
        assert q == RowStep(decrypt, e, q);
      }
    case Pass(conversation) =>
      PassTriesEach(decrypt, s, conversation);
      var k :| 0 <= k < |s.rows| && Map(EachAfterPass(decrypt, conversation), s.rows)[k] == q;
      assert s.rows[k] in s.rows && q == RowStep(decrypt, e, s.rows[k]);
    case CleanUp(now) =>
      FilterMember(Kept(now), s.rows, q);
      assert q == RowStep(decrypt, e, q);
  }

  lemma {:induction false} VisitsKeepNextId(decrypt: Decrypt, s: State, todo: seq<Row>, k: nat)
    requires k <= |todo|
    ensures VisitFirst(decrypt, s, todo, k).nextId == s.nextId
  {
    if k > 0 {
      VisitsKeepNextId(decrypt, s, todo, k - 1);
    }
  }

  lemma {:induction false} NextIdGrows(decrypt: Decrypt, run: seq<Event>, j: nat)
    requires j <= |run|
    ensures After(decrypt, run[..j]).nextId <= After(decrypt, run).nextId
  {
    if j == |run| {
      assert run[..j] == run;
    } else {
      var prefix, s := run[..|run| - 1], After(decrypt, run[..|run| - 1]);
      assert prefix[..j] == run[..j];
      NextIdGrows(decrypt, prefix, j);
      if run[|run| - 1].Pass? {
        var todo := Buffered(s.rows, run[|run| - 1].conversation);
        VisitsKeepNextId(decrypt, s, todo, |todo|);
      }
    }
  }

  function PassOver(conversation: string): Event -> bool { (e: Event) => e == Pass(conversation) }

  function PassesOver(conversation: string, events: seq<Event>): nat {
    |Filter(PassOver(conversation), events)|
  }

  /** The row message j put in the table: still of its conversation and, unless settled, tried once per pass. */
  ghost predicate TriedPerPass(run: seq<Event>, j: nat, q: Row)
    requires j < |run| && run[j].Receive?
  {
    && q.conversation == run[j].conversation
    && (Settled(q) || q.retries == PassesOver(run[j].conversation, run[j + 1..]))
  }

  lemma MorePasses(run: seq<Event>, j: nat, conversation: string)
    requires j + 1 < |run|
    ensures PassesOver(conversation, run[j + 1..])
         == PassesOver(conversation, run[..|run| - 1][j + 1..])
            + (if run[|run| - 1] == Pass(conversation) then 1 else 0)
  {
    assert run[j + 1..] == run[..|run| - 1][j + 1..] + [run[|run| - 1]];
    FilterSnoc(PassOver(conversation), run[..|run| - 1][j + 1..], run[|run| - 1]);
  }

  /** A row that is not brand new comes from one row of the step before. */
  lemma Predecessor(decrypt: Decrypt, run: seq<Event>, q: Row) returns (p: Row)
    requires run != [] && q in After(decrypt, run).rows
    requires q.id < After(decrypt, run[..|run| - 1]).nextId
    ensures p in After(decrypt, run[..|run| - 1]).rows && q == RowStep(decrypt, run[|run| - 1], p)
  {
    var s := After(decrypt, run[..|run| - 1]);
    InvariantAlways(decrypt, run[..|run| - 1]);
    StepOrigin(decrypt, s, run[|run| - 1], q);
    p :| p in s.rows && q == RowStep(decrypt, run[|run| - 1], p);
  }

  lemma IdsBelow(decrypt: Decrypt, run: seq<Event>, k: nat, r: Row)
    requires k <= |run| && r in After(decrypt, run[..k]).rows
    ensures r.id < After(decrypt, run).nextId
  {
    InvariantAlways(decrypt, run[..k]);
    NextIdGrows(decrypt, run, k);
  }

  /** The message's own row, right after it came in. */
  lemma FreshRow(decrypt: Decrypt, run: seq<Event>, q: Row)
    requires run != [] && run[|run| - 1].Receive? && q in After(decrypt, run).rows
    requires q.id == After(decrypt, run[..|run| - 1]).nextId
    ensures q == NewRow(run[|run| - 1], q.id)
  {
    InvariantAlways(decrypt, run[..|run| - 1]);
  }

  lemma TriedOnceMore(decrypt: Decrypt, run: seq<Event>, j: nat, p: Row, q: Row)
    requires j + 1 < |run| && run[j].Receive?
    requires TriedPerPass(run[..|run| - 1], j, p) && q == RowStep(decrypt, run[|run| - 1], p)
    ensures TriedPerPass(run, j, q)
  {
    assert run[..|run| - 1][j] == run[j];
    MorePasses(run, j, run[j].conversation);
  }

  lemma ReceivedId(decrypt: Decrypt, run: seq<Event>, j: nat)
    requires j < |run| && run[j].Receive?
    ensures After(decrypt, run[..j]).nextId < After(decrypt, run).nextId
  {
    assert run[..j + 1][..j] == run[..j];
    NextIdGrows(decrypt, run, j + 1);
  }

  lemma OlderRow(decrypt: Decrypt, run: seq<Event>, j: nat, id: nat, q: Row) returns (p: Row)
    requires j + 1 < |run| && run[j].Receive? && id == After(decrypt, run[..|run| - 1][..j]).nextId
    requires q in After(decrypt, run).rows && q.id == id
    ensures p in After(decrypt, run[..|run| - 1]).rows && p.id == id && q == RowStep(decrypt, run[|run| - 1], p)
  {
    ReceivedId(decrypt, run[..|run| - 1], j);
    p := Predecessor(decrypt, run, q);
  }

  lemma {:induction false} RetriesCountPasses(decrypt: Decrypt, run: seq<Event>, j: nat, id: nat, q: Row)
    requires j < |run| && run[j].Receive? && id == After(decrypt, run[..j]).nextId
    requires q in After(decrypt, run).rows && q.id == id
    ensures TriedPerPass(run, j, q)
  {
    var prefix := run[..|run| - 1];
    if j == |prefix| {
      assert run[..j] == prefix && run[j + 1..] == [];
      FreshRow(decrypt, run, q);
    } else {
      assert prefix[..j] == run[..j];
      var p := OlderRow(decrypt, run, j, id, q);
      RetriesCountPasses(decrypt, prefix, j, id, p);
      TriedOnceMore(decrypt, run, j, p, q);
    }
  }

  /** By the eleventh pass over its conversation, whatever else happens, a buffered message is settled or removed. */
  lemma SettledByEleventh(decrypt: Decrypt, run: seq<Event>, j: nat, q: Row)
    requires j < |run| && run[j].Receive?
    requires q in After(decrypt, run).rows && q.id == After(decrypt, run[..j]).nextId
    requires PassesOver(run[j].conversation, run[j + 1..]) >= 11
    ensures Settled(q)
  {
    RetriesCountPasses(decrypt, run, j, q.id, q);
    InvariantAlways(decrypt, run);
  }

  lemma SameIdSameRow(rows: seq<Row>, r: Row, q: Row)
    requires IdsDiffer(rows) && r in rows && q in rows && r.id == q.id
    ensures q == r
  {
  }

  /** A settled message never changes again. */
  lemma {:induction false} SettledStays(decrypt: Decrypt, run: seq<Event>, k: nat, r: Row, q: Row)
    requires k <= |run|
    requires r in After(decrypt, run[..k]).rows && Settled(r)
    requires q in After(decrypt, run).rows && q.id == r.id
    ensures q == r
  {
    if k == |run| {
      assert run[..k] == run;
      InvariantAlways(decrypt, run);
      SameIdSameRow(After(decrypt, run).rows, r, q);
    } else {
      var prefix := run[..|run| - 1];
      assert prefix[..k] == run[..k];
      IdsBelow(decrypt, prefix, k, r);
      var p := Predecessor(decrypt, run, q);
      SettledStays(decrypt, prefix, k, r, p);
    }
  }

  // ----- The same in numbers -----

  /** A pass reads exactly the conversation's rows that are neither processed nor failed, oldest first. */
  lemma ReadInOrder(rows: seq<Row>, conversation: string)
    ensures forall i, j :: 0 <= i < j < |Buffered(rows, conversation)|
              ==> Buffered(rows, conversation)[i].receivedAt <= Buffered(rows, conversation)[j].receivedAt
    ensures forall r :: multiset(Buffered(rows, conversation))[r]
              == if r.conversation == conversation && !r.processed && !r.failed then multiset(rows)[r] else 0
  {
    OrderBySorted(ReceivedAt(), Filter(Unsettled(conversation), rows));
    OrderByPermutes(ReceivedAt(), Filter(Unsettled(conversation), rows));
    forall r ensures multiset(Filter(Unsettled(conversation), rows))[r]
                  == if Unsettled(conversation)(r) then multiset(rows)[r] else 0 {
      FilterCount(Unsettled(conversation), rows, r);
    }
  }

  /** Nothing, or the failure after the tenth retry, or one try and its outcome. */
  predicate PassedOver(decrypt: Decrypt, conversation: string, r: Row, after: Row) {
    after == if r.conversation != conversation || r.processed || r.failed then r
             else if r.retries >= 10 then r.(failed := true)
             else
               match decrypt(r.id, r.retries + 1)
               case Content(_) => r.(retries := r.retries + 1, processed := true)
               case NonApplication => r.(retries := r.retries + 1, processed := true)
               case EpochError => r.(retries := r.retries + 1)
               case OtherError => r.(retries := r.retries + 1, failed := true)
  }

  lemma AfterPassIff(decrypt: Decrypt, conversation: string, r: Row)
    ensures PassedOver(decrypt, conversation, r, AfterPass(decrypt, conversation, r))
  {
  }

  /** What a pass does to each row of the table. */
  lemma PassIff(decrypt: Decrypt, s: State, conversation: string, k: nat)
    requires IdsDiffer(s.rows) && k < |s.rows|
    ensures var after := Passed(decrypt, s, conversation).rows;
            |after| == |s.rows| && PassedOver(decrypt, conversation, s.rows[k], after[k])
  {
    PassTriesEach(decrypt, s, conversation);
    AfterPassIff(decrypt, conversation, s.rows[k]);
    var after := Map(EachAfterPass(decrypt, conversation), s.rows);
    assert after[k] == AfterPass(decrypt, conversation, s.rows[k]);
  }

  function RowId(): Row -> nat { (r: Row) => r.id }

  function BelowTen(): Row -> bool { (r: Row) => r.retries < 10 }

  /** The tries that a pass over these rows makes. */
  function TriesOf(todo: seq<Row>): seq<nat> {
    Map(RowId(), Filter(BelowTen(), todo))
  }

  lemma TriesSnoc(done: seq<Row>, msg: Row)
    ensures TriesOf(done + [msg]) == if msg.retries < 10 then TriesOf(done) + [msg.id] else TriesOf(done)
  {
    FilterSnoc(BelowTen(), done, msg);
    if msg.retries < 10 {
      MapSnoc(RowId(), Filter(BelowTen(), done), msg);
    } else {
      assert Filter(BelowTen(), done) + [] == Filter(BelowTen(), done);
    }
  }

  lemma VisitTries(decrypt: Decrypt, s: State, msg: Row)
    ensures Visit(decrypt, s, msg).attempts == if msg.retries < 10 then s.attempts + [msg.id] else s.attempts
  {
  }

  lemma TriedNext(decrypt: Decrypt, before: seq<nat>, s: State, done: seq<Row>, msg: Row)
    requires s.attempts == before + TriesOf(done)
    ensures Visit(decrypt, s, msg).attempts == before + TriesOf(done + [msg])
  {
    VisitTries(decrypt, s, msg);
    TriesSnoc(done, msg);
  }

  lemma {:induction false} VisitsTry(decrypt: Decrypt, s: State, todo: seq<Row>, k: nat)
    requires k <= |todo|
    ensures VisitFirst(decrypt, s, todo, k).attempts == s.attempts + TriesOf(todo[..k])
  {
    if k == 0 {
      assert todo[..0] == [];
    } else {
      VisitsTry(decrypt, s, todo, k - 1);
      assert todo[..k] == todo[..k - 1] + [todo[k - 1]];
      TriedNext(decrypt, s.attempts, VisitFirst(decrypt, s, todo, k - 1), todo[..k - 1], todo[k - 1]);
    }
  }

  /** A pass tries the rows it read with fewer than ten retries, in the order read, and no others. */
  lemma PassAttempts(decrypt: Decrypt, s: State, conversation: string)
    ensures Passed(decrypt, s, conversation).attempts == s.attempts + TriesOf(Buffered(s.rows, conversation))
  {
    var todo := Buffered(s.rows, conversation);
    VisitsTry(decrypt, s, todo, |todo|);
    assert todo[..|todo|] == todo;
  }

  /** A clean-up keeps a row if and only if it is at most 300 s old and still open. */
  lemma CleanUpIff(decrypt: Decrypt, s: State, now: int, r: Row)
    ensures multiset(Step(decrypt, s, CleanUp(now)).rows)[r]
         == if now - r.receivedAt <= 300 && !r.processed && !r.failed then multiset(s.rows)[r] else 0
  {
    FilterCount(Kept(now), s.rows, r);
  }

  // ----- Where a saved message comes from -----

  /** Event j received the message with this id, in this conversation and at this time. */
  ghost predicate ReceivedAs(decrypt: Decrypt, run: seq<Event>, j: nat, id: nat, conversation: string, at: int) {
    && j < |run| && run[j].Receive?
    && id == After(decrypt, run[..j]).nextId && run[j].conversation == conversation && run[j].receivedAt == at
  }

  lemma ReceivedExtends(decrypt: Decrypt, run: seq<Event>, j: nat, id: nat, conversation: string, at: int)
    requires run != [] && ReceivedAs(decrypt, run[..|run| - 1], j, id, conversation, at)
    ensures ReceivedAs(decrypt, run, j, id, conversation, at)
  {
    assert run[..|run| - 1][..j] == run[..j];
  }

  ghost predicate Received(decrypt: Decrypt, run: seq<Event>, id: nat, conversation: string, at: int) {
    exists j: nat :: ReceivedAs(decrypt, run, j, id, conversation, at)
  }

  lemma StillReceived(decrypt: Decrypt, run: seq<Event>, id: nat, conversation: string, at: int)
    requires run != [] && Received(decrypt, run[..|run| - 1], id, conversation, at)
    ensures Received(decrypt, run, id, conversation, at)
  {
    var j: nat :| ReceivedAs(decrypt, run[..|run| - 1], j, id, conversation, at);
    ReceivedExtends(decrypt, run, j, id, conversation, at);
  }

  /** A row is new, or an earlier one with the same id, conversation and time. */
  lemma RowOrigin(decrypt: Decrypt, s: State, e: Event, q: Row)
    requires IdsDiffer(s.rows) && q in Step(decrypt, s, e).rows
    ensures || (e.Receive? && q.id == s.nextId && q.conversation == e.conversation && q.receivedAt == e.receivedAt)
            || exists r :: r in s.rows && r.id == q.id && r.conversation == q.conversation
                           && r.receivedAt == q.receivedAt
  {
    StepOrigin(decrypt, s, e, q);
    if r :| r in s.rows && q == RowStep(decrypt, e, r) {
      assert r.id == q.id && r.conversation == q.conversation && r.receivedAt == q.receivedAt;
    }
  }

  lemma {:induction false} RowReceived(decrypt: Decrypt, run: seq<Event>, q: Row)
    requires q in After(decrypt, run).rows
    ensures Received(decrypt, run, q.id, q.conversation, q.receivedAt)
  {
    var prefix, e := run[..|run| - 1], run[|run| - 1];
    InvariantAlways(decrypt, prefix);
    RowOrigin(decrypt, After(decrypt, prefix), e, q);
    if r :| && r in After(decrypt, prefix).rows && r.id == q.id && r.conversation == q.conversation
            && r.receivedAt == q.receivedAt {
      RowReceived(decrypt, prefix, r);
      StillReceived(decrypt, run, q.id, q.conversation, q.receivedAt);
    } else {
      assert ReceivedAs(decrypt, run, |run| - 1, q.id, q.conversation, q.receivedAt);
    }
  }

  /** The row was tried once more in this pass, and that try yielded the text. */
  ghost predicate SavedFrom(decrypt: Decrypt, r: Row, x: Saved) {
    && r.retries < 10 && decrypt(r.id, r.retries + 1) == Content(x.text)
    && x == Saved(r.id, r.conversation, x.text, r.receivedAt)
  }

  lemma VisitSaves(decrypt: Decrypt, s: State, msg: Row, x: Saved)
    requires x in Visit(decrypt, s, msg).saved
    ensures x in s.saved || SavedFrom(decrypt, msg, x)
  {
  }

  lemma {:induction false} VisitsSave(decrypt: Decrypt, s: State, todo: seq<Row>, k: nat, x: Saved)
    requires k <= |todo| && x in VisitFirst(decrypt, s, todo, k).saved
    ensures x in s.saved || exists r :: r in todo && SavedFrom(decrypt, r, x)
  {
    if k > 0 {
      VisitSaves(decrypt, VisitFirst(decrypt, s, todo, k - 1), todo[k - 1], x);
      if x in VisitFirst(decrypt, s, todo, k - 1).saved {
        VisitsSave(decrypt, s, todo, k - 1, x);
      }
    }
  }

  lemma StepSaves(decrypt: Decrypt, s: State, e: Event, x: Saved)
    requires x in Step(decrypt, s, e).saved && x !in s.saved
    ensures exists r :: r in s.rows && SavedFrom(decrypt, r, x)
  {
    var todo := Buffered(s.rows, e.conversation);
    BufferedMembers(s.rows, e.conversation);
    VisitsSave(decrypt, s, todo, |todo|, x);
  }

  lemma BufferedMembers(rows: seq<Row>, conversation: string)
    ensures forall r :: r in Buffered(rows, conversation) ==> r in rows
  {
    OrderByMembers(ReceivedAt(), Filter(Unsettled(conversation), rows));
    FilterMembers(Unsettled(conversation), rows);
  }

  /** The text is what one of at most ten attempts on the message yielded. */
  ghost predicate YieldedText(decrypt: Decrypt, id: nat, text: string) {
    exists n :: 1 <= n <= 10 && decrypt(id, n) == Content(text)
  }

  /**
   In every run a saved message is one that was received, in that conversation and at that time, with
   the text that one of its first ten attempts yielded.
   */
  lemma {:induction false} SavedProvenance(decrypt: Decrypt, run: seq<Event>, x: Saved)
    requires x in After(decrypt, run).saved
    ensures Received(decrypt, run, x.source, x.conversation, x.receivedAt)
    ensures YieldedText(decrypt, x.source, x.text)
  {
    var prefix := run[..|run| - 1];
    if x in After(decrypt, prefix).saved {
      SavedProvenance(decrypt, prefix, x);
      StillReceived(decrypt, run, x.source, x.conversation, x.receivedAt);
    } else {
      StepSaves(decrypt, After(decrypt, prefix), run[|run| - 1], x);
      var r :| r in After(decrypt, prefix).rows && SavedFrom(decrypt, r, x);
      RowReceived(decrypt, prefix, r);
      StillReceived(decrypt, run, r.id, r.conversation, r.receivedAt);
      assert 1 <= r.retries + 1 <= 10;
    }
  }
}
