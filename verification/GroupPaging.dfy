/**
 Reading a growing message log through pages of at most a hundred and a cursor, by a reader that
 asks next from where the last page ended. Module GroupCursor has the client's own cursor table.
 */
module GroupPaging {
  import opened Sequences
  import opened GroupSpec

  /** The client's cursor after a page: the largest id in it, or the old cursor when it is empty. */
  function MaxId(page: seq<Msg>, cursor: int): int {
    if page == [] then cursor
    else
      var k := |page| - 1;
      var rest := MaxId(page[..k], cursor);
      if k == 0 || page[k].id > rest then page[k].id else rest
  }

  method CursorAfter(page: seq<Msg>, cursor: int) returns (next: int)
    ensures next == MaxId(page, cursor)
  {
    next := cursor;
    for k := 0 to |page|
      invariant next == MaxId(page[..k], cursor)
    {
      assert page[..k + 1][..k] == page[..k];
      if k == 0 || page[k].id > next {
        next := page[k].id;
      }
    }
    assert page[..|page|] == page;
  }

  lemma {:induction false} MaxIdIsMax(page: seq<Msg>, cursor: int)
    requires page != []
    ensures forall k :: 0 <= k < |page| ==> page[k].id <= MaxId(page, cursor)
    ensures exists k :: 0 <= k < |page| && page[k].id == MaxId(page, cursor)
  {
    var n := |page| - 1;
    if n > 0 {
      MaxIdIsMax(page[..n], cursor);
      var k :| 0 <= k < n && page[..n][k].id == MaxId(page[..n], cursor);
      assert page[k].id == MaxId(page[..n], cursor);
    }
    assert page[n].id <= MaxId(page, cursor);
  }

  // ----- The log -----

  ghost predicate Numbered(messages: seq<Msg>) {
    forall k :: 0 <= k < |messages| ==> messages[k].id == k + 1
  }

  lemma StepGrowsLog(env: Env, s: State, i: Input)
    requires Numbered(s.log.messages) && s.log.nextId == |s.log.messages| + 1
    ensures var next := NextLog(env, s, i);
            && Numbered(next.messages) && next.nextId == |next.messages| + 1
            && s.log.messages <= next.messages
  {
  }

  lemma {:induction false} LogNumbered(env: Env, run: Run)
    ensures Numbered(After(env, run).log.messages)
    ensures After(env, run).log.nextId == |After(env, run).log.messages| + 1
  {
    if run != [] {
      LogNumbered(env, run[..|run| - 1]);
      StepGrowsLog(env, Seen(env, run), run[|run| - 1]);
    }
  }

  /** The log is append-only, whatever is sent. */
  lemma {:induction false} LogOnlyGrows(env: Env, run: Run, k: nat)
    requires k <= |run|
    ensures After(env, run[..k]).log.messages <= After(env, run).log.messages
  {
    if k == |run| {
      assert run[..k] == run;
    } else {
      assert run[..|run| - 1][..k] == run[..k];
      LogOnlyGrows(env, run[..|run| - 1], k);
      LogNumbered(env, run[..|run| - 1]);
      StepGrowsLog(env, Seen(env, run), run[|run| - 1]);
    }
  }

  // ----- One page -----

  lemma HeadIsBefore(messages: seq<Msg>, cursor: nat)
    requires Numbered(messages) && cursor <= |messages|
    ensures Filter(MsgAfter(cursor), messages[..cursor]) == []
  {
    forall m | m in messages[..cursor] ensures !MsgAfter(cursor)(m) {
      var k :| 0 <= k < cursor && messages[k] == m;
    }
    FilterNone(MsgAfter(cursor), messages[..cursor]);
  }

  lemma TailIsAfter(messages: seq<Msg>, cursor: nat)
    requires Numbered(messages) && cursor <= |messages|
    ensures Filter(MsgAfter(cursor), messages[cursor..]) == messages[cursor..]
  {
    forall m | m in messages[cursor..] ensures MsgAfter(cursor)(m) {
      var k :| cursor <= k < |messages| && messages[k] == m;
    }
    FilterAll(MsgAfter(cursor), messages[cursor..]);
  }

  lemma OnlyTail<T>(p: T -> bool, head: seq<T>, tail: seq<T>)
    requires Filter(p, head) == [] && Filter(p, tail) == tail
    ensures Filter(p, head + tail) == tail
  {
    FilterConcat(p, head, tail);
  }

  lemma AfterIsSlice(messages: seq<Msg>, cursor: nat)
    requires Numbered(messages) && cursor <= |messages|
    ensures Filter(MsgAfter(cursor), messages) == messages[cursor..]
  {
    assert messages == messages[..cursor] + messages[cursor..];
    HeadIsBefore(messages, cursor);
    TailIsAfter(messages, cursor);
    OnlyTail(MsgAfter(cursor), messages[..cursor], messages[cursor..]);
  }

  function Upto(messages: seq<Msg>, cursor: nat): nat {
    if cursor + PAGE <= |messages| then cursor + PAGE else |messages|
  }

  /** A page is the next slice of the log, and its largest id is where the slice ends. */
  lemma PageIsSlice(messages: seq<Msg>, cursor: nat)
    requires Numbered(messages) && cursor <= |messages|
    ensures Page(messages, cursor) == messages[cursor..Upto(messages, cursor)]
    ensures MaxId(Page(messages, cursor), cursor) == Upto(messages, cursor)
  {
    AfterIsSlice(messages, cursor);
    OrderBySortedSame(MsgId(), messages[cursor..]);
    SliceTaken(messages, cursor);
    MaxIdOfSlice(messages, cursor, Upto(messages, cursor));
  }

  lemma SliceTaken(messages: seq<Msg>, cursor: nat)
    requires cursor <= |messages|
    ensures Take(PAGE, messages[cursor..]) == messages[cursor..Upto(messages, cursor)]
  {
  }

  lemma MaxIdOfSlice(messages: seq<Msg>, start: nat, end: nat)
    requires Numbered(messages) && start <= end <= |messages|
    ensures MaxId(messages[start..end], start) == end
  {
    var page := messages[start..end];
    if page != [] {
      MaxIdIsMax(page, start);
      var k :| 0 <= k < |page| && page[k].id == MaxId(page, start);
      assert page[k] == messages[start + k];
      assert page[|page| - 1] == messages[end - 1];
    }
  }

  // ----- Whole readings, with sends in between -----

  /** A poll fetches one page; `stored` says whether the database takes the client's new cursor. */
  datatype Event = Serve(input: Input) | Poll(stored: bool)

  datatype Reader = Reader(cursor: int, got: seq<Msg>)

  function ServedIn(events: seq<Event>): Run {
    if events == [] then []
    else
      ServedIn(events[..|events| - 1])
      + match events[|events| - 1] { case Serve(i) => [i] case Poll(_) => [] }
  }

  /** The log after a history of earlier messages and the events so far. */
  function LogAt(env: Env, past: Run, events: seq<Event>): seq<Msg> {
    After(env, past + ServedIn(events)).log.messages
  }

  function Polled(r: Reader, log: seq<Msg>): Reader {
    var page := Page(log, r.cursor);
    Reader(MaxId(page, r.cursor), r.got + page)
  }

  function ReaderAfter(env: Env, past: Run, start: int, events: seq<Event>): Reader {
    if events == [] then Reader(start, [])
    else
      var before := ReaderAfter(env, past, start, events[..|events| - 1]);
      match events[|events| - 1]
      case Serve(_) => before
      case Poll(_) => Polled(before, LogAt(env, past, events))
  }

  /** The reader holds exactly the log from its start to its cursor, in order. */
  ghost predicate Exact(r: Reader, log: seq<Msg>, start: nat) {
    start <= r.cursor <= |log| && r.got == log[start..r.cursor]
  }

  lemma PolledExact(r: Reader, log: seq<Msg>, start: nat)
    requires Numbered(log) && Exact(r, log, start)
    ensures Exact(Polled(r, log), log, start) && Polled(r, log).cursor == Upto(log, r.cursor)
  {
    PageIsSlice(log, r.cursor);
    SlicesJoin(log, start, r.cursor, Upto(log, r.cursor));
  }

  lemma SlicesJoin<T>(s: seq<T>, a: nat, b: nat, c: nat)
    requires a <= b <= c <= |s|
    ensures s[a..b] + s[b..c] == s[a..c]
  {
  }

  lemma ExactLater(r: Reader, log: seq<Msg>, later: seq<Msg>, start: nat)
    requires Exact(r, log, start) && log <= later
    ensures Exact(r, later, start)
  {
  }

  lemma LogAtGrows(env: Env, past: Run, events: seq<Event>)
    requires events != []
    ensures LogAt(env, past, events[..|events| - 1]) <= LogAt(env, past, events)
  {
    var earlier, later := past + ServedIn(events[..|events| - 1]), past + ServedIn(events);
    assert later[..|earlier|] == earlier;
    LogOnlyGrows(env, later, |earlier|);
  }

  /** Whatever is sent between the polls, there is no gap and no repeat. */
  lemma {:induction false} ReadingIsExact(env: Env, past: Run, start: nat, events: seq<Event>)
    requires start <= |After(env, past).log.messages|
    ensures Exact(ReaderAfter(env, past, start, events), LogAt(env, past, events), start)
  {
    if events == [] {
      assert past + [] == past;
    } else {
      var prefix := events[..|events| - 1];
      var r, log := ReaderAfter(env, past, start, prefix), LogAt(env, past, events);
      ReadingIsExact(env, past, start, prefix);
      LogAtGrows(env, past, events);
      ExactLater(r, LogAt(env, past, prefix), log, start);
      LogNumbered(env, past + ServedIn(events));
      PolledExact(r, log, start);
    }
  }

  // ----- Once sends stop -----

  /** `longer` continues `events` with polls alone. */
  ghost predicate OnlyPollsMore(events: seq<Event>, longer: seq<Event>) {
    events <= longer && forall k :: |events| <= k < |longer| ==> longer[k].Poll?
  }

  lemma {:induction false} PollsKeepLog(env: Env, past: Run, events: seq<Event>, longer: seq<Event>)
    requires OnlyPollsMore(events, longer)
    ensures LogAt(env, past, longer) == LogAt(env, past, events)
  {
    if longer != events {
      PollsKeepLog(env, past, events, longer[..|longer| - 1]);
      assert ServedIn(longer) == ServedIn(longer[..|longer| - 1]);
    }
  }

  lemma OnePoll(env: Env, past: Run, start: nat, events: seq<Event>)
    requires start <= |After(env, past).log.messages| && events != [] && events[|events| - 1].Poll?
    requires LogAt(env, past, events) == LogAt(env, past, events[..|events| - 1])
    ensures var before := ReaderAfter(env, past, start, events[..|events| - 1]).cursor;
            && before <= |LogAt(env, past, events)|
            && ReaderAfter(env, past, start, events).cursor == Ahead(LogAt(env, past, events), before, 1)
  {
    ReadingIsExact(env, past, start, events[..|events| - 1]);
    LogNumbered(env, past + ServedIn(events));
    PolledExact(ReaderAfter(env, past, start, events[..|events| - 1]), LogAt(env, past, events), start);
  }

  function Ahead(log: seq<Msg>, cursor: int, polls: nat): int {
    if cursor + polls * PAGE <= |log| then cursor + polls * PAGE else |log|
  }

  lemma {:induction false} PollsAdvance(env: Env, past: Run, start: nat, events: seq<Event>, longer: seq<Event>)
    requires start <= |After(env, past).log.messages| && OnlyPollsMore(events, longer)
    ensures ReaderAfter(env, past, start, longer).cursor
         == Ahead(LogAt(env, past, events), ReaderAfter(env, past, start, events).cursor, |longer| - |events|)
  {
    if longer == events {
      ReadingIsExact(env, past, start, events);
    } else {
      var prefix := longer[..|longer| - 1];
      PollsAdvance(env, past, start, events, prefix);
      PollsKeepLog(env, past, events, prefix);
      PollsKeepLog(env, past, events, longer);
      OnePoll(env, past, start, longer);
    }
  }

  /** Once sends stop, one poll per hundred outstanding messages gives the reader the whole rest of the log. */
  lemma PollsFinish(env: Env, past: Run, start: nat, events: seq<Event>, longer: seq<Event>)
    requires start <= |After(env, past).log.messages| && OnlyPollsMore(events, longer)
    requires |LogAt(env, past, events)| - ReaderAfter(env, past, start, events).cursor
             <= (|longer| - |events|) * PAGE
    ensures start <= |LogAt(env, past, events)|
    ensures ReaderAfter(env, past, start, longer).got == LogAt(env, past, events)[start..]
  {
    ReadingIsExact(env, past, start, longer);
    PollsAdvance(env, past, start, events, longer);
    PollsKeepLog(env, past, events, longer);
  }
}
