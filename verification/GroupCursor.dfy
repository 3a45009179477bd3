/**
 The desktop client's cursor table for group messages. It is written under the sender named in the
 reply's envelope and read under the group's address, and the write may be refused.
 */
module GroupCursor {
  import opened Sequences
  import opened GroupSpec
  import opened GroupPaging
  import GroupExamples

  /** Rows of group_cursors by server address. */
  type Cursors = map<string, int>

  /** The client keeps the cursors; `arrived` is the record of the messages that ever reached it. */
  datatype Client = Client(cursors: Cursors, arrived: seq<Msg>)

  datatype Wiring = Wiring(writeKey: string, readKey: string)

  /** The group server signs its replies with this name, whatever its address. */
  const ENVELOPE_SENDER := "group-server"

  /** The wiring of the client as it is. */
  function AsWritten(address: string): Wiring {
    Wiring(ENVELOPE_SENDER, address)
  }

  predicate KeysAgree(w: Wiring) {
    w.writeKey == w.readKey
  }

  function CursorOf(cursors: Cursors, key: string): int {
    if key in cursors then cursors[key] else 0
  }

  function Handled(c: Client, sender: string, page: seq<Msg>, stored: bool): Client {
    Client(if page != [] && stored then c.cursors[sender := MaxId(page, 0)] else c.cursors, c.arrived + page)
  }

  class GroupClient {
    var groupCursors: Cursors
    ghost var received: seq<Msg>

    ghost function View(): Client
      reads this
    {
      Client(groupCursors, received)
    }

    /** fetch_group_messages: the cursor the next request carries. */
    method LastSeenId(groupAddress: string) returns (lastSeenId: int)
      ensures lastSeenId == CursorOf(groupCursors, groupAddress)
    {
      if groupAddress in groupCursors {
        return groupCursors[groupAddress];
      }
      return 0;
    }

    /** fetchGroupResponse: a refused write is only logged, and of the messages only the count is announced. */
    method HandleFetchGroupResponse(sender: string, messages: seq<Msg>, stored: bool) returns (count: nat)
      modifies this
      ensures count == |messages|
      ensures View() == Handled(old(View()), sender, messages, stored)
    {
      if messages != [] {
        var maxId := CursorAfter(messages, 0);
        if stored {
          groupCursors := groupCursors[sender := maxId];
        }
      }
      received := received + messages;
      return |messages|;
    }
  }

  // ----- Whole readings -----

  function Fetched(w: Wiring, c: Client, log: seq<Msg>, stored: bool): Client {
    Handled(c, w.writeKey, Page(log, CursorOf(c.cursors, w.readKey)), stored)
  }

  function ClientAfter(env: Env, past: Run, w: Wiring, events: seq<Event>): Client {
    if events == [] then Client(map[], [])
    else
      var before := ClientAfter(env, past, w, events[..|events| - 1]);
      match events[|events| - 1]
      case Serve(_) => before
      case Poll(stored) => Fetched(w, before, LogAt(env, past, events), stored)
  }

  /** The writes that can ever be read back. */
  function UsefulWrites(w: Wiring, events: seq<Event>): nat {
    if events == [] then 0
    else
      UsefulWrites(w, events[..|events| - 1])
      + if KeysAgree(w) && events[|events| - 1] == Poll(true) then 1 else 0
  }

  /** The cursor the next request would carry. */
  function NextCursor(env: Env, past: Run, w: Wiring, events: seq<Event>): int {
    CursorOf(ClientAfter(env, past, w, events).cursors, w.readKey)
  }

  ghost predicate ArrivedBelow(arrived: seq<Msg>, bound: int) {
    forall m :: m in arrived ==> m.id <= bound
  }

  lemma SliceIds(log: seq<Msg>, a: nat, b: nat)
    requires Numbered(log) && a <= b <= |log|
    ensures ArrivedBelow(log[a..b], b)
  {
    forall m | m in log[a..b] ensures m.id <= b {
      var k :| a <= k < b && log[k] == m;
    }
  }

  lemma FetchedCursor(w: Wiring, c: Client, log: seq<Msg>, stored: bool)
    requires Numbered(log) && 0 <= CursorOf(c.cursors, w.readKey) <= |log|
    ensures var cursor := CursorOf(c.cursors, w.readKey);
            var t := Fetched(w, c, log, stored);
            && t.arrived == c.arrived + log[cursor..Upto(log, cursor)]
            && CursorOf(t.cursors, w.readKey) == if KeysAgree(w) && stored then Upto(log, cursor) else cursor
  {
    var cursor := CursorOf(c.cursors, w.readKey);
    PageIsSlice(log, cursor);
    if cursor < |log| {
      MaxIdOfSlice(log, cursor, Upto(log, cursor));
      MaxIdOfSome(Page(log, cursor), cursor, 0);
    }
  }

  lemma {:induction false} MaxIdOfSome(page: seq<Msg>, a: int, b: int)
    requires page != []
    ensures MaxId(page, a) == MaxId(page, b)
  {
    if |page| > 1 {
      MaxIdOfSome(page[..|page| - 1], a, b);
    }
  }

  /** The cursor stays within the log, and moves on only by useful writes, a page at a time. */
  lemma {:induction false} CursorBounded(env: Env, past: Run, w: Wiring, events: seq<Event>)
    ensures 0 <= NextCursor(env, past, w, events) <= |LogAt(env, past, events)|
    ensures NextCursor(env, past, w, events) <= PAGE * UsefulWrites(w, events)
  {
    if events != [] {
      var prefix := events[..|events| - 1];
      CursorBounded(env, past, w, prefix);
      LogAtGrows(env, past, events);
      LogNumbered(env, past + ServedIn(events));
      if events[|events| - 1].Poll? {
        FetchedCursor(w, ClientAfter(env, past, w, prefix), LogAt(env, past, events), events[|events| - 1].stored);
      }
    }
  }

  /** However often the client polls, nothing arrives past id 100 times one more than its useful writes. */
  lemma {:induction false} NothingPast(env: Env, past: Run, w: Wiring, events: seq<Event>)
    ensures ArrivedBelow(ClientAfter(env, past, w, events).arrived, PAGE * (1 + UsefulWrites(w, events)))
  {
    if events != [] {
      var prefix, log := events[..|events| - 1], LogAt(env, past, events);
      NothingPast(env, past, w, prefix);
      CursorBounded(env, past, w, prefix);
      LogAtGrows(env, past, events);
      LogNumbered(env, past + ServedIn(events));
      if events[|events| - 1].Poll? {
        var cursor := NextCursor(env, past, w, prefix);
        FetchedCursor(w, ClientAfter(env, past, w, prefix), log, events[|events| - 1].stored);
        SliceIds(log, cursor, Upto(log, cursor));
      }
    }
  }

  /** Without a useful write every page is the log's first hundred messages again. */
  lemma FirstPageAgain(env: Env, past: Run, w: Wiring, events: seq<Event>)
    requires events != [] && events[|events| - 1].Poll? && UsefulWrites(w, events[..|events| - 1]) == 0
    ensures ClientAfter(env, past, w, events).arrived
         == ClientAfter(env, past, w, events[..|events| - 1]).arrived + Take(PAGE, LogAt(env, past, events))
  {
    CursorBounded(env, past, w, events[..|events| - 1]);
    LogNumbered(env, past + ServedIn(events));
    FetchedCursor(w, ClientAfter(env, past, w, events[..|events| - 1]), LogAt(env, past, events),
                  events[|events| - 1].stored);
  }

  // ----- When everything arrives -----

  ghost predicate AllStored(events: seq<Event>, stored: bool) {
    forall k :: 0 <= k < |events| && events[k].Poll? ==> events[k].stored == stored
  }

  lemma {:induction false} NoUsefulWrites(w: Wiring, events: seq<Event>)
    requires !KeysAgree(w) || AllStored(events, false)
    ensures UsefulWrites(w, events) == 0
  {
    if events != [] {
      NoUsefulWrites(w, events[..|events| - 1]);
    }
  }

  /** If the keys agree and every write is taken, the client is the reader that always reads on. */
  lemma {:induction false} ReadsOn(env: Env, past: Run, w: Wiring, events: seq<Event>)
    requires KeysAgree(w) && AllStored(events, true)
    ensures var r, c := ReaderAfter(env, past, 0, events), ClientAfter(env, past, w, events);
            r.got == c.arrived && r.cursor == CursorOf(c.cursors, w.readKey)
  {
    if events != [] {
      var prefix := events[..|events| - 1];
      ReadsOn(env, past, w, prefix);
      CursorBounded(env, past, w, prefix);
      LogAtGrows(env, past, events);
      LogNumbered(env, past + ServedIn(events));
      if events[|events| - 1].Poll? {
        FetchedCursor(w, ClientAfter(env, past, w, prefix), LogAt(env, past, events), true);
        PageIsSlice(LogAt(env, past, events), NextCursor(env, past, w, prefix));
      }
    }
  }

  ghost predicate AllArrived(arrived: seq<Msg>, log: seq<Msg>) {
    forall m :: m in log ==> m in arrived
  }

  /** What was received is the log's first messages, up to the bound. */
  ghost predicate ArrivedFirst(arrived: seq<Msg>, log: seq<Msg>, bound: nat) {
    && bound <= |log|
    && ArrivedBelow(arrived, bound)
    && forall k :: 0 <= k < bound ==> log[k] in arrived
  }

  lemma FetchArrives(w: Wiring, c: Client, log: seq<Msg>, stored: bool, bound: nat)
    requires Numbered(log) && 0 <= CursorOf(c.cursors, w.readKey) <= bound <= CursorOf(c.cursors, w.readKey) + PAGE
    requires ArrivedFirst(c.arrived, log, bound)
    ensures ArrivedFirst(Fetched(w, c, log, stored).arrived, log, Upto(log, CursorOf(c.cursors, w.readKey)))
  {
    var cursor := CursorOf(c.cursors, w.readKey);
    FetchedCursor(w, c, log, stored);
    SliceIds(log, cursor, Upto(log, cursor));
    forall k | cursor <= k < Upto(log, cursor) ensures log[k] in log[cursor..Upto(log, cursor)] {
      assert log[cursor..Upto(log, cursor)][k - cursor] == log[k];
    }
  }

  lemma ArrivedLater(arrived: seq<Msg>, log: seq<Msg>, later: seq<Msg>, bound: nat)
    requires ArrivedFirst(arrived, log, bound) && log <= later
    ensures ArrivedFirst(arrived, later, bound)
  {
  }

  ghost predicate ArrivedFrom(arrived: seq<Msg>, log: seq<Msg>, cursor: int) {
    exists bound: nat :: cursor <= bound <= cursor + PAGE && ArrivedFirst(arrived, log, bound)
  }

  lemma {:induction false} ArrivedAlways(env: Env, past: Run, w: Wiring, events: seq<Event>)
    ensures ArrivedFrom(ClientAfter(env, past, w, events).arrived, LogAt(env, past, events),
                      NextCursor(env, past, w, events))
  {
    if events == [] {
      assert ArrivedFirst([], LogAt(env, past, events), 0);
    } else {
      var prefix, log := events[..|events| - 1], LogAt(env, past, events);
      ArrivedAlways(env, past, w, prefix);
      CursorBounded(env, past, w, prefix);
      LogAtGrows(env, past, events);
      LogNumbered(env, past + ServedIn(events));
      var c, cursor := ClientAfter(env, past, w, prefix), NextCursor(env, past, w, prefix);
      var bound: nat :| cursor <= bound <= cursor + PAGE && ArrivedFirst(c.arrived, LogAt(env, past, prefix), bound);
      ArrivedLater(c.arrived, LogAt(env, past, prefix), log, bound);
      if events[|events| - 1].Poll? {
        FetchArrives(w, c, log, events[|events| - 1].stored, bound);
        FetchedCursor(w, c, log, events[|events| - 1].stored);
        assert ArrivedFirst(ClientAfter(env, past, w, events).arrived, log, Upto(log, cursor));
      }
    }
  }

  lemma AllArrivedFirst(arrived: seq<Msg>, log: seq<Msg>, bound: nat)
    requires Numbered(log) && ArrivedFirst(arrived, log, bound)
    ensures AllArrived(arrived, log) <==> bound == |log|
  {
    if bound < |log| {
      assert log[bound] in log && log[bound].id == bound + 1;
    }
  }

  /**
   Whatever the wiring and whichever writes were taken: right after a poll the whole log has arrived
   if and only if the log ends at most a page past the cursor that poll carried.
   */
  lemma AllArrivedAfterPoll(env: Env, past: Run, w: Wiring, events: seq<Event>)
    requires events != [] && events[|events| - 1].Poll?
    ensures AllArrived(ClientAfter(env, past, w, events).arrived, LogAt(env, past, events))
       <==> |LogAt(env, past, events)| <= NextCursor(env, past, w, events[..|events| - 1]) + PAGE
  {
    var prefix, log := events[..|events| - 1], LogAt(env, past, events);
    ArrivedAlways(env, past, w, prefix);
    CursorBounded(env, past, w, prefix);
    LogAtGrows(env, past, events);
    LogNumbered(env, past + ServedIn(events));
    var c, cursor := ClientAfter(env, past, w, prefix), NextCursor(env, past, w, prefix);
    var bound: nat :| cursor <= bound <= cursor + PAGE && ArrivedFirst(c.arrived, LogAt(env, past, prefix), bound);
    ArrivedLater(c.arrived, LogAt(env, past, prefix), log, bound);
    FetchArrives(w, c, log, events[|events| - 1].stored, bound);
    AllArrivedFirst(ClientAfter(env, past, w, events).arrived, log, Upto(log, cursor));
  }

  /**
   Once sends stop, after enough polls, the whole log has arrived if and only if the log fits one
   page or the cursor the client writes is the one it reads.
   */
  lemma AllArrivedIff(env: Env, past: Run, w: Wiring, events: seq<Event>, longer: seq<Event>, stored: bool)
    requires OnlyPollsMore(events, longer) && AllStored(longer, stored)
    requires |longer| > |events| && |LogAt(env, past, events)| <= (|longer| - |events|) * PAGE
    ensures AllArrived(ClientAfter(env, past, w, longer).arrived, LogAt(env, past, longer))
       <==> |LogAt(env, past, longer)| <= PAGE || (KeysAgree(w) && stored)
  {
    PollsKeepLog(env, past, events, longer);
    if KeysAgree(w) && stored {
      ReadsOn(env, past, w, longer);
      ReadingIsExact(env, past, 0, events);
      PollsFinish(env, past, 0, events, longer);
    } else {
      NoUsefulWrites(w, longer[..|longer| - 1]);
      CursorBounded(env, past, w, longer[..|longer| - 1]);
      AllArrivedAfterPoll(env, past, w, longer);
    }
  }

  /** Without a useful write, message 101 never arrives. */
  lemma NoSecondPage(env: Env, past: Run, w: Wiring, events: seq<Event>)
    requires UsefulWrites(w, events) == 0 && |LogAt(env, past, events)| > PAGE
    ensures LogAt(env, past, events)[PAGE] !in ClientAfter(env, past, w, events).arrived
  {
    LogNumbered(env, past + ServedIn(events));
    NothingPast(env, past, w, events);
  }

  /**
   The client as written, at the input where it first shows: the log has 101 messages, one more
   than a page, and the last one never arrives, however many times the client polls.
   */
  lemma MissesMessage101(address: string, n: nat, past: Run, polls: seq<Event>)
    requires n == PAGE + 1 && past == GroupExamples.Sends(n)
    requires address != ENVELOPE_SENDER || AllStored(polls, false)
    requires OnlyPollsMore([], polls)
    ensures |LogAt(GroupExamples.Trusting(), past, polls)| == n == 101
    ensures LogAt(GroupExamples.Trusting(), past, polls)[PAGE]
              !in ClientAfter(GroupExamples.Trusting(), past, AsWritten(address), polls).arrived
  {
    var env := GroupExamples.Trusting();
    GroupExamples.LogOfAnyLength(n);
    PollsKeepLog(env, past, [], polls);
    assert past + [] == past;
    NoUsefulWrites(AsWritten(address), polls);
    NoSecondPage(env, past, AsWritten(address), polls);
  }

  lemma PollsSuffice(env: Env, past: Run, key: string, polls: seq<Event>)
    requires AllStored(polls, true) && OnlyPollsMore([], polls)
    requires |After(env, past).log.messages| <= |polls| * PAGE
    ensures ClientAfter(env, past, Wiring(key, key), polls).arrived == After(env, past).log.messages
  {
    assert past + [] == past;
    PollsKeepLog(env, past, [], polls);
    ReadsOn(env, past, Wiring(key, key), polls);
    PollsFinish(env, past, 0, [], polls);
  }

  /** With agreeing keys and stored cursors, two polls bring all 101. */
  lemma TwoPollsSuffice(key: string, n: nat, past: Run, polls: seq<Event>)
    requires n == PAGE + 1 && past == GroupExamples.Sends(n)
    requires |polls| == 2 && OnlyPollsMore([], polls) && AllStored(polls, true)
    ensures |After(GroupExamples.Trusting(), past).log.messages| == n
    ensures ClientAfter(GroupExamples.Trusting(), past, Wiring(key, key), polls).arrived
         == After(GroupExamples.Trusting(), past).log.messages
  {
    GroupExamples.LogOfAnyLength(n);
    PollsSuffice(GroupExamples.Trusting(), past, key, polls);
  }
}
