/** The client's offline queue: own messages kept as pending rows and drained after a handshake. */
module PendingDrain {
  import opened Sequences

  datatype Status = Pending | Sent | Other

  /** A row of the messages table; ids are row numbers here. */
  datatype Message = Message(id: nat, conversation: string, content: string, isOwn: bool,
                             timestamp: int, status: Status)

  /** The table, and what has gone out over the wire, oldest first. */
  datatype State = State(messages: seq<Message>, wire: seq<Message>)

  function Id(): Message -> nat { (m: Message) => m.id }

  function Timestamp(): Message -> int { (m: Message) => m.timestamp }

  function Waiting(conversation: string): Message -> bool {
    (m: Message) => m.conversation == conversation && m.status == Pending && m.isOwn
  }

  /** SELECT ... WHERE status = 'pending' AND is_own = 1 ORDER BY timestamp ASC. */
  function PendingIn(messages: seq<Message>, conversation: string): seq<Message> {
    OrderBy(Timestamp(), Filter(Waiting(conversation), messages))
  }

  function MarkIf(ids: seq<nat>): Message -> Message {
    (m: Message) => if m.id in ids then m.(status := Sent) else m
  }

  function Marked(messages: seq<Message>, ids: seq<nat>): seq<Message> {
    Map(MarkIf(ids), messages)
  }

  /** How many of n attempts succeed before the first failure. */
  function Successes(ok: nat -> bool, n: nat): (k: nat)
    ensures k <= n
  {
    if n == 0 then 0
    else
      var before := Successes(ok, n - 1);
      if before == n - 1 && ok(n - 1) then n else before
  }

  function SentOne(s: State, m: Message): State {
    State(Marked(s.messages, [m.id]), s.wire + [m])
  }

  /** The state once the first k of these rows have been sent and marked, one by one. */
  function SentFirst(s: State, pending: seq<Message>, k: nat): State
    requires k <= |pending|
  {
    if k == 0 then s else SentOne(SentFirst(s, pending, k - 1), pending[k - 1])
  }

  function Drained(s: State, conversation: string, ok: nat -> bool): State {
    var todo := PendingIn(s.messages, conversation);
    SentFirst(s, todo, Successes(ok, |todo|))
  }

  lemma MarkedTwice(messages: seq<Message>, ids: seq<nat>, id: nat)
    ensures Marked(Marked(messages, ids), [id]) == Marked(messages, ids + [id])
  {
  }

  lemma SendNext(s: State, pending: seq<Message>, k: nat)
    requires k < |pending|
    ensures SentOne(State(Marked(s.messages, Map(Id(), pending[..k])), s.wire + pending[..k]), pending[k])
         == State(Marked(s.messages, Map(Id(), pending[..k + 1])), s.wire + pending[..k + 1])
  {
    assert pending[..k + 1] == pending[..k] + [pending[k]];
    MapSnoc(Id(), pending[..k], pending[k]);
    MarkedTwice(s.messages, Map(Id(), pending[..k]), pending[k].id);
  }

  lemma {:induction false} SentFirstAtOnce(s: State, pending: seq<Message>, k: nat)
    requires k <= |pending|
    ensures SentFirst(s, pending, k)
         == State(Marked(s.messages, Map(Id(), pending[..k])), s.wire + pending[..k])
  {
    if k == 0 {
      assert Marked(s.messages, []) == s.messages;
    } else {
      SentFirstAtOnce(s, pending, k - 1);
      SendNext(s, pending, k - 1);
    }
  }

  lemma SentNext(s: State, pending: seq<Message>, ok: nat -> bool, k: nat)
    requires k < |pending| && Successes(ok, k) == k && ok(k)
    ensures Successes(ok, k + 1) == k + 1
    ensures SentFirst(s, pending, k + 1) == SentOne(SentFirst(s, pending, k), pending[k])
  {
  }

  /** That number is where the first failure is, or n. */
  lemma {:induction false} SuccessesMean(ok: nat -> bool, n: nat)
    ensures forall j :: 0 <= j < Successes(ok, n) ==> ok(j)
    ensures Successes(ok, n) < n ==> !ok(Successes(ok, n))
  {
    if n > 0 {
      SuccessesMean(ok, n - 1);
    }
  }

  lemma {:induction false} StoppedAt(ok: nat -> bool, n: nat, k: nat)
    requires k <= n && Successes(ok, k) == k && (k < n ==> !ok(k))
    ensures Successes(ok, n) == k
  {
    if k < n {
      StoppedAt(ok, n - 1, k);
    }
  }

  ghost predicate NeverFails(ok: nat -> bool) {
    forall k: nat :: ok(k)
  }

  lemma {:induction false} AllSucceed(ok: nat -> bool, n: nat)
    requires NeverFails(ok)
    ensures Successes(ok, n) == n
  {
    if n > 0 {
      AllSucceed(ok, n - 1);
    }
  }

  class Client {
    var messages: seq<Message>
    var wire: seq<Message>

    ghost function View(): State
      reads this
    {
      State(messages, wire)
    }

    method DrainPendingMessages(conversation: string, ok: nat -> bool)
      modifies this
      ensures View() == Drained(old(View()), conversation, ok)
    {
      SendInOrder(PendingIn(messages, conversation), ok);
    }

    /** Stops at the first failure; ok(k) tells whether the k-th attempt succeeds. */
    method SendInOrder(pending: seq<Message>, ok: nat -> bool)
      modifies this
      ensures View() == SentFirst(old(View()), pending, Successes(ok, |pending|))
    {
      ghost var start := View();
      var k := 0;
      while k < |pending|
        invariant 0 <= k <= |pending| && Successes(ok, k) == k
        invariant View() == SentFirst(start, pending, k)
      {
        if !ok(k) {
          break;
        }
        SentNext(start, pending, ok, k);
        SendMessage(pending[k]);
        k := k + 1;
      }
      StoppedAt(ok, |pending|, k);
    }

    method SendMessage(m: Message)
      modifies this
      ensures View() == SentOne(old(View()), m)
    {
      wire := wire + [m];
      MarkSent(m.id);
    }

    method MarkSent(id: nat)
      modifies this`messages
      ensures messages == Marked(old(messages), [id])
    {
      messages := Marked(messages, [id]);
    }
  }

  // ----- One drain -----

  ghost predicate Numbered(messages: seq<Message>) {
    forall k :: 0 <= k < |messages| ==> messages[k].id == k
  }

  function NotIn(ids: seq<nat>): Message -> bool {
    (m: Message) => m.id !in ids
  }

  lemma MarkedFilteredStep(messages: seq<Message>, m: Message, ids: seq<nat>, conversation: string)
    requires Filter(Waiting(conversation), Marked(messages, ids))
          == Filter(NotIn(ids), Filter(Waiting(conversation), messages))
    ensures Filter(Waiting(conversation), Marked(messages + [m], ids))
         == Filter(NotIn(ids), Filter(Waiting(conversation), messages + [m]))
  {
    MapSnoc(MarkIf(ids), messages, m);
    FilterSnoc(Waiting(conversation), Marked(messages, ids), MarkIf(ids)(m));
    FilterSnoc(Waiting(conversation), messages, m);
    if Waiting(conversation)(m) {
      FilterSnoc(NotIn(ids), Filter(Waiting(conversation), messages), m);
    } else {
      assert Filter(Waiting(conversation), messages) + [] == Filter(Waiting(conversation), messages);
    }
  }

  lemma {:induction false} MarkedFiltered(messages: seq<Message>, ids: seq<nat>, conversation: string)
    ensures Filter(Waiting(conversation), Marked(messages, ids))
         == Filter(NotIn(ids), Filter(Waiting(conversation), messages))
  {
    if messages != [] {
      var t, x := messages[..|messages| - 1], messages[|messages| - 1];
      assert messages == t + [x];
      MarkedFiltered(t, ids, conversation);
      MarkedFilteredStep(t, x, ids, conversation);
    }
  }

  lemma MarkedPending(messages: seq<Message>, ids: seq<nat>, conversation: string)
    ensures PendingIn(Marked(messages, ids), conversation) == Filter(NotIn(ids), PendingIn(messages, conversation))
  {
    MarkedFiltered(messages, ids, conversation);
    OrderByFilter(Timestamp(), NotIn(ids), Filter(Waiting(conversation), messages));
  }

  ghost predicate IdsDiffer(rows: seq<Message>) {
    forall i, j :: 0 <= i < j < |rows| ==> rows[i].id != rows[j].id
  }

  lemma HeadRemoved(head: seq<Message>)
    ensures Filter(NotIn(Map(Id(), head)), head) == []
  {
    var ids := Map(Id(), head);
    forall m | m in head ensures !NotIn(ids)(m) {
      var j :| 0 <= j < |head| && head[j] == m;
      assert ids[j] == m.id;
    }
    FilterNone(NotIn(ids), head);
  }

  lemma TailSpared(head: seq<Message>, tail: seq<Message>)
    requires IdsDiffer(head + tail)
    ensures Filter(NotIn(Map(Id(), head)), tail) == tail
  {
    var ids := Map(Id(), head);
    forall m | m in tail ensures m.id !in ids {
      var i :| 0 <= i < |tail| && tail[i] == m;
      forall j | 0 <= j < |ids| ensures ids[j] != m.id {
        assert (head + tail)[j].id != (head + tail)[|head| + i].id;
      }
    }
    FilterAll(NotIn(ids), tail);
  }

  /** Removing the first k rows by their ids leaves the rest. */
  lemma RestById(rows: seq<Message>, k: nat)
    requires k <= |rows| && IdsDiffer(rows)
    ensures Filter(NotIn(Map(Id(), rows[..k])), rows) == rows[k..]
  {
    assert rows == rows[..k] + rows[k..];
    FilterConcat(NotIn(Map(Id(), rows[..k])), rows[..k], rows[k..]);
    HeadRemoved(rows[..k]);
    TailSpared(rows[..k], rows[k..]);
  }

  lemma PendingIdsDiffer(messages: seq<Message>, conversation: string)
    requires Numbered(messages)
    ensures IdsDiffer(PendingIn(messages, conversation))
  {
    var rows := PendingIn(messages, conversation);
    OrderByDistinct(Timestamp(), Waiting(conversation), messages);
    forall i, j | 0 <= i < j < |rows| ensures rows[i].id != rows[j].id {
      PendingFrom(messages, conversation, rows[i]);
      PendingFrom(messages, conversation, rows[j]);
    }
  }

  /** A pending row is a row of the table; ids being row numbers, it sits at its id. */
  lemma PendingFrom(messages: seq<Message>, conversation: string, m: Message)
    requires Numbered(messages) && m in PendingIn(messages, conversation)
    ensures m.id < |messages| && messages[m.id] == m && Waiting(conversation)(m)
  {
    OrderByMembers(Timestamp(), Filter(Waiting(conversation), messages));
    FilterMember(Waiting(conversation), messages, m);
  }

  /**
   A drain sends the pending messages of its conversation up to the first failure, in timestamp
   order, and exactly those stop being pending; other conversations keep all of theirs.
   */
  lemma DrainSendsPrefix(s: State, conversation: string, ok: nat -> bool, other: string)
    requires Numbered(s.messages)
    ensures var todo := PendingIn(s.messages, conversation);
            var k, t := Successes(ok, |todo|), Drained(s, conversation, ok);
            && t.wire == s.wire + todo[..k]
            && PendingIn(t.messages, conversation) == todo[k..]
            && (other != conversation ==> PendingIn(t.messages, other) == PendingIn(s.messages, other))
            && Numbered(t.messages)
  {
    var todo := PendingIn(s.messages, conversation);
    var done := todo[..Successes(ok, |todo|)];
    SentFirstAtOnce(s, todo, |done|);
    PendingIdsDiffer(s.messages, conversation);
    MarkedPending(s.messages, Map(Id(), done), conversation);
    RestById(todo, |done|);
    if other != conversation {
      MarkedPending(s.messages, Map(Id(), done), other);
      OthersSpared(s.messages, conversation, other, done);
    }
  }

  lemma OthersSpared(messages: seq<Message>, conversation: string, other: string, done: seq<Message>)
    requires Numbered(messages) && other != conversation
    requires forall m :: m in done ==> m in PendingIn(messages, conversation)
    ensures Filter(NotIn(Map(Id(), done)), PendingIn(messages, other)) == PendingIn(messages, other)
  {
    var ids := Map(Id(), done);
    forall m | m in PendingIn(messages, other) ensures m.id !in ids {
      PendingFrom(messages, other, m);
      forall j | 0 <= j < |ids| ensures ids[j] != m.id {
        assert done[j] in done;
        PendingFrom(messages, conversation, done[j]);
      }
    }
    FilterAll(NotIn(ids), PendingIn(messages, other));
  }

  // ----- Whole runs -----

  datatype Event =
    | Store(conversation: string, content: string, isOwn: bool, timestamp: int, status: Status)
    | Drain(conversation: string, ok: nat -> bool)

  /** The row an insertion adds to a table of n rows. */
  function NewRow(e: Event, n: nat): Message
    requires e.Store?
  {
    Message(n, e.conversation, e.content, e.isOwn, e.timestamp, e.status)
  }

  function Step(s: State, e: Event): State {
    match e
    case Store(_, _, _, _, _) => s.(messages := s.messages + [NewRow(e, |s.messages|)])
    case Drain(conversation, ok) => Drained(s, conversation, ok)
  }

  ghost function After(run: seq<Event>): State {
    if |run| == 0 then State([], []) else Step(After(run[..|run| - 1]), run[|run| - 1])
  }

  function InConversation(conversation: string): Message -> bool {
    (m: Message) => m.conversation == conversation
  }

  /** The own messages of a conversation that were put in the queue, oldest first. */
  ghost function Queued(run: seq<Event>, conversation: string): seq<Message> {
    if |run| == 0 then []
    else
      var e, before := run[|run| - 1], run[..|run| - 1];
      Queued(before, conversation)
      + if e.Store? && Waiting(conversation)(NewRow(e, |After(before).messages|))
        then [NewRow(e, |After(before).messages|)] else []
  }

  /** What went out for a conversation, oldest first. */
  ghost function SentOut(run: seq<Event>, conversation: string): seq<Message> {
    Filter(InConversation(conversation), After(run).wire)
  }

  lemma {:induction false} AlwaysNumbered(run: seq<Event>)
    ensures Numbered(After(run).messages)
  {
    if |run| > 0 {
      AlwaysNumbered(run[..|run| - 1]);
      if run[|run| - 1].Drain? {
        DrainSendsPrefix(After(run[..|run| - 1]), run[|run| - 1].conversation, run[|run| - 1].ok, "");
      }
    }
  }

  /** Sent and pending together, which no drain changes. */
  function Known(s: State, conversation: string): seq<Message> {
    Filter(InConversation(conversation), s.wire) + PendingIn(s.messages, conversation)
  }

  lemma WireGrows(wire: seq<Message>, done: seq<Message>, conversation: string, other: string)
    requires forall m :: m in done ==> m.conversation == conversation
    ensures Filter(InConversation(other), wire + done)
         == Filter(InConversation(other), wire) + (if other == conversation then done else [])
  {
    FilterConcat(InConversation(other), wire, done);
    if other == conversation {
      FilterAll(InConversation(other), done);
    } else {
      FilterNone(InConversation(other), done);
    }
  }

  lemma DoneInConversation(s: State, conversation: string, k: nat)
    requires Numbered(s.messages) && k <= |PendingIn(s.messages, conversation)|
    ensures forall m :: m in PendingIn(s.messages, conversation)[..k] ==> m.conversation == conversation
  {
    forall m | m in PendingIn(s.messages, conversation)[..k] ensures m.conversation == conversation {
      PendingFrom(s.messages, conversation, m);
    }
  }

  lemma DrainKeepsOwn(s: State, conversation: string, ok: nat -> bool)
    requires Numbered(s.messages)
    ensures Known(Drained(s, conversation, ok), conversation) == Known(s, conversation)
  {
    var todo := PendingIn(s.messages, conversation);
    var k := Successes(ok, |todo|);
    DoneInConversation(s, conversation, k);
    DrainSendsPrefix(s, conversation, ok, conversation);
    WireGrows(s.wire, todo[..k], conversation, conversation);
    Regroup(Filter(InConversation(conversation), s.wire), todo, k);
  }

  lemma DrainKeepsOthers(s: State, drained: string, ok: nat -> bool, conversation: string)
    requires Numbered(s.messages) && drained != conversation
    ensures Known(Drained(s, drained, ok), conversation) == Known(s, conversation)
  {
    var todo := PendingIn(s.messages, drained);
    var k := Successes(ok, |todo|);
    DoneInConversation(s, drained, k);
    DrainSendsPrefix(s, drained, ok, conversation);
    WireGrows(s.wire, todo[..k], drained, conversation);
    assert Filter(InConversation(conversation), s.wire) + [] == Filter(InConversation(conversation), s.wire);
  }

  lemma DrainKeepsKnown(s: State, drained: string, ok: nat -> bool, conversation: string)
    requires Numbered(s.messages)
    ensures Known(Drained(s, drained, ok), conversation) == Known(s, conversation)
  {
    if drained == conversation {
      DrainKeepsOwn(s, conversation, ok);
    } else {
      DrainKeepsOthers(s, drained, ok, conversation);
    }
  }

  lemma Regroup<T>(sent: seq<T>, todo: seq<T>, k: nat)
    requires k <= |todo|
    ensures sent + todo[..k] + todo[k..] == sent + todo
  {
  }

  /** Pending means: own, in that conversation and not yet sent; by timestamp, oldest first. */
  lemma PendingMeans(messages: seq<Message>, conversation: string)
    ensures forall i, j :: 0 <= i < j < |PendingIn(messages, conversation)|
              ==> PendingIn(messages, conversation)[i].timestamp <= PendingIn(messages, conversation)[j].timestamp
    ensures forall m :: multiset(PendingIn(messages, conversation))[m]
              == if m.conversation == conversation && m.isOwn && m.status == Pending then multiset(messages)[m] else 0
  {
    OrderBySorted(Timestamp(), Filter(Waiting(conversation), messages));
    OrderByPermutes(Timestamp(), Filter(Waiting(conversation), messages));
    forall m ensures multiset(Filter(Waiting(conversation), messages))[m]
                  == if Waiting(conversation)(m) then multiset(messages)[m] else 0 {
      FilterCount(Waiting(conversation), messages, m);
    }
  }

  /** Queued is every own message of the conversation that was stored as pending, as it was stored. */
  lemma {:induction false} QueuedMeans(run: seq<Event>, conversation: string, m: Message)
    ensures m in Queued(run, conversation)
       <==> exists k :: 0 <= k < |run| && run[k] == Store(conversation, m.content, true, m.timestamp, Pending)
                        && m == Message(|After(run[..k]).messages|, conversation, m.content, true, m.timestamp, Pending)
  {
    if |run| > 0 {
      var before, e := run[..|run| - 1], run[|run| - 1];
      QueuedMeans(before, conversation, m);
      forall k | 0 <= k < |before| ensures before[..k] == run[..k] && before[k] == run[k] {
      }
      assert run[..|run| - 1] == before;
    }
  }

  /** An insertion puts its row among the pending ones, if it waits for this conversation. */
  lemma InsertPending(messages: seq<Message>, m: Message, conversation: string)
    ensures PendingIn(messages + [m], conversation)
         == if Waiting(conversation)(m) then Insert(Timestamp(), PendingIn(messages, conversation), m)
            else PendingIn(messages, conversation)
  {
    FilterSnoc(Waiting(conversation), messages, m);
    if Waiting(conversation)(m) {
      OrderBySnoc(Timestamp(), Filter(Waiting(conversation), messages), m);
    } else {
      assert Filter(Waiting(conversation), messages) + [] == Filter(Waiting(conversation), messages);
    }
  }

  /** Whatever fails and whatever the timestamps, each queued message is sent or pending, exactly once. */
  lemma {:induction false} SentOrPending(run: seq<Event>, conversation: string)
    ensures multiset(Known(After(run), conversation)) == multiset(Queued(run, conversation))
  {
    if |run| > 0 {
      var s, e := After(run[..|run| - 1]), run[|run| - 1];
      SentOrPending(run[..|run| - 1], conversation);
      AlwaysNumbered(run[..|run| - 1]);
      match e
      case Store(_, _, _, _, _) =>
        InsertPending(s.messages, NewRow(e, |s.messages|), conversation);
        InsertPermutes(Timestamp(), PendingIn(s.messages, conversation), NewRow(e, |s.messages|));
      case Drain(drained, ok) =>
        DrainKeepsKnown(s, drained, ok, conversation);
    }
  }

  lemma LastIsLatest(sent: seq<Message>, pending: seq<Message>, m: Message)
    requires SortedBy(Timestamp(), sent + pending + [m])
    ensures AtMost(Timestamp(), pending, m.timestamp)
  {
    forall i | 0 <= i < |pending| ensures pending[i].timestamp <= m.timestamp {
      assert (sent + pending + [m])[|sent| + i] == pending[i];
      assert (sent + pending + [m])[|sent| + |pending|] == m;
    }
  }

  lemma InsertedLast(sent: seq<Message>, pending: seq<Message>, m: Message)
    requires SortedBy(Timestamp(), sent + pending + [m])
    ensures sent + Insert(Timestamp(), pending, m) == sent + pending + [m]
  {
    LastIsLatest(sent, pending, m);
    InsertAtEnd(Timestamp(), pending, m);
    assert sent + (pending + [m]) == sent + pending + [m];
  }

  lemma InsertLatest(s: State, m: Message, conversation: string)
    requires SortedBy(Timestamp(), Known(s, conversation) + [m]) && Waiting(conversation)(m)
    ensures Known(s.(messages := s.messages + [m]), conversation) == Known(s, conversation) + [m]
  {
    InsertPending(s.messages, m, conversation);
    InsertedLast(Filter(InConversation(conversation), s.wire), PendingIn(s.messages, conversation), m);
  }

  /**
   When messages are queued in timestamp order, what was sent followed by what is pending is
   always exactly what was queued, in order, whatever the pattern of failures.
   */
  lemma {:induction false} SentThenPending(run: seq<Event>, conversation: string)
    requires SortedBy(Timestamp(), Queued(run, conversation))
    ensures SentOut(run, conversation) + PendingIn(After(run).messages, conversation) == Queued(run, conversation)
  {
    if |run| > 0 {
      var s, e := After(run[..|run| - 1]), run[|run| - 1];
      var before := Queued(run[..|run| - 1], conversation);
      assert before <= Queued(run, conversation);
      SentThenPending(run[..|run| - 1], conversation);
      AlwaysNumbered(run[..|run| - 1]);
      match e
      case Store(_, _, _, _, _) =>
        var m := NewRow(e, |s.messages|);
        if Waiting(conversation)(m) {
          InsertLatest(s, m, conversation);
        } else {
          InsertPending(s.messages, m, conversation);
        }
      case Drain(drained, ok) =>
        DrainKeepsKnown(s, drained, ok, conversation);
    }
  }

  /** A drain without failures leaves nothing pending: everything queued has been sent, in order. */
  lemma DrainFinishes(run: seq<Event>, conversation: string)
    requires |run| > 0 && run[|run| - 1].Drain? && run[|run| - 1].conversation == conversation
    requires NeverFails(run[|run| - 1].ok)
    requires SortedBy(Timestamp(), Queued(run, conversation))
    ensures SentOut(run, conversation) == Queued(run, conversation)
  {
    var s, ok := After(run[..|run| - 1]), run[|run| - 1].ok;
    SentThenPending(run, conversation);
    AlwaysNumbered(run[..|run| - 1]);
    AllSucceed(ok, |PendingIn(s.messages, conversation)|);
    DrainSendsPrefix(s, conversation, ok, conversation);
    assert PendingIn(After(run).messages, conversation) == [];
  }
}
