/** Runs of the group server whose commit buffer takes a catching-up member off the group's history. */
module CommitExamples {
  import opened Base64
  import opened GroupDelivery
  import opened GroupExamples
  import opened GroupIds
  import opened GroupMembership
  import opened GroupSpec
  import opened Sequences
  import opened Validation
  import opened CommitReplay
  import CommitBuffer

  // ----- A toy group -----

  /** Toy group states: the ids of the commits taken; a commit is its epoch and its id. */
  function Toy(): Mls<seq<Byte>> {
    Mls((g: seq<Byte>, c: Bytes) => if |c| == 2 && c[0] == |g| then Some(g + [c[1]]) else None,
        (g: seq<Byte>) => |g|,
        (c: Bytes) => if c == [] then 0 else c[0])
  }

  lemma ToyChecked()
    ensures EpochChecked(Toy())
  {
  }

  function Toys(g: seq<Byte>, entries: seq<Bytes>): seq<Byte> {
    Replay(Toy(), g, Map(Sent(), entries))
  }

  function Taken(g: seq<Byte>, c: Bytes): seq<Byte> {
    if |c| == 2 && c[0] == |g| then g + [c[1]] else g
  }

  lemma ToysSnoc(g: seq<Byte>, entries: seq<Bytes>, c: Bytes)
    ensures Toys(g, entries + [c]) == Taken(Toys(g, entries), c)
  {
    MapSnoc(Sent(), entries, c);
    ReplaySnoc(Toy(), g, Map(Sent(), entries), Some(c));
  }

  lemma ToysThree(g: seq<Byte>, a: Bytes, b: Bytes, c: Bytes)
    ensures Toys(g, [a, b, c]) == Taken(Taken(Taken(g, a), b), c)
  {
    assert [] + [a] == [a] && [a] + [b] == [a, b] && [a, b] + [c] == [a, b, c];
    ToysSnoc(g, [], a);
    ToysSnoc(g, [a], b);
    ToysSnoc(g, [a, b], c);
  }

  lemma HistoryNext(log: seq<Bytes>, k: nat)
    requires k < |log|
    ensures HistoryAt(Toy(), [], log, k + 1) == Taken(HistoryAt(Toy(), [], log, k), log[k])
  {
  }

  // ----- A run of the server that buffers any list of commits -----

  function Buffers(n: nat, group: string, text: string): Input {
    Received(BufferCommit(Stars(n), "admin", Some(group), Some(0), Some(text), "s"))
  }

  /** The admin registers and buffers the commits one by one, each from a fresh tag. */
  function BufferRun(group: string, log: seq<Bytes>): Run {
    if log == [] then [Registers("", "admin", "K")]
    else BufferRun(group, log[..|log| - 1]) + [Buffers(|log|, group, Encode(log[|log| - 1]))]
  }

  function AsksAll(n: nat, group: string): Input {
    Received(SyncEpoch(Stars(n), "admin", Some(group), 0, "s"))
  }

  ghost predicate Ready(s: State, n: nat) {
    && "admin" in s.accounts.users && "admin" in s.accounts.members
    && forall key :: key in s.limits.general ==> |key| <= n
  }

  lemma FreshTagAllowed(l: Limits, n: nat)
    requires forall key :: key in l.general ==> |key| <= n
    ensures GeneralAllows(l, Stars(n + 1), 0)
    ensures CountGeneral(l, Stars(n + 1), 0).general == l.general[Stars(n + 1) := [0]]
  {
    NewKeyAllowed(GENERAL_MAX, l.general, Stars(n + 1));
  }

  lemma AdminAuthentic(a: Accounts, content: Content)
    requires "admin" in a.users
    ensures Authentic(Trusting(), a, "admin", content, "s")
  {
    assert ValidUsername("admin");
  }

  lemma BufferAccepted(s: State, n: nat, group: string, text: string)
    requires Ready(s, n) && ValidGroupId(group) && text != "" && Decode(text).Some?
    ensures BufferOk(Trusting(), s, Buffers(n + 1, group, text))
  {
    FreshTagAllowed(s.limits, n);
    AdminAuthentic(s.accounts, GroupNumber(group, 0));
  }

  lemma StaysReady(s: State, n: nat, group: string, text: string)
    requires Ready(s, n)
    ensures Ready(Step(Trusting(), s, Buffers(n + 1, group, text)), n + 1)
  {
    var i := Buffers(n + 1, group, text);
    StepKeepsUsers(Trusting(), Clean(s, i), i);
    FreshTagAllowed(Clean(s, i).limits, n);
  }

  lemma AsksAccepted(s: State, n: nat, group: string)
    requires Ready(s, n) && ValidGroupId(group)
    ensures SyncOk(Trusting(), s, AsksAll(n + 1, group))
  {
    FreshTagAllowed(s.limits, n);
    AdminAuthentic(s.accounts, GroupNumber(group, 0));
  }

  lemma EntryJoins(entries: seq<CommitBuffer.Entry>, e: CommitBuffer.Entry)
    ensures Map(Data(), CommitBuffer.GroupLog(entries + [e], e.group))
         == Map(Data(), CommitBuffer.GroupLog(entries, e.group)) + [e.data]
  {
    var c := CommitBuffer.Commit(|entries| + 1, e.group, e.epoch, e.data, e.sender);
    assert (entries + [e])[..|entries|] == entries;
    CommitBuffer.GroupLogGrows(entries + [e], e.group);
    MapSnoc(Data(), CommitBuffer.GroupLog(entries, e.group), c);
  }

  lemma CommitEnters(env: Env, run: Run, i: Input)
    requires BufferOk(env, Clean(After(env, run), i), i)
    ensures GroupCommits(env, run + [i], i.request.groupName.value)
         == GroupCommits(env, run, i.request.groupName.value) + [Decode(i.request.commit.value).value]
  {
    assert (run + [i])[..|run|] == run;
    EntryJoins(EntriesIn(env, run), EntriesNow(env, Clean(After(env, run), i), i)[0]);
  }

  lemma RunGrows(run: Run, n: nat, group: string, text: string)
    requires Ready(After(Trusting(), run), n) && ValidGroupId(group) && text != "" && Decode(text).Some?
    ensures Ready(After(Trusting(), run + [Buffers(n + 1, group, text)]), n + 1)
    ensures GroupCommits(Trusting(), run + [Buffers(n + 1, group, text)], group)
         == GroupCommits(Trusting(), run, group) + [Decode(text).value]
  {
    var s, i := After(Trusting(), run), Buffers(n + 1, group, text);
    StaysReady(s, n, group, text);
    BufferAccepted(Clean(s, i), n, group, text);
    AfterSnoc(Trusting(), run, i);
    CommitEnters(Trusting(), run, i);
  }

  lemma EncodedFits(c: Bytes)
    requires c != []
    ensures Encode(c) != "" && Decode(Encode(c)) == Some(c)
  {
    EncodedShape(c);
    DecodeOfEncode(c);
  }

  ghost predicate HasBuffered(run: Run, group: string, log: seq<Bytes>) {
    Ready(After(Trusting(), run), |log|) && GroupCommits(Trusting(), run, group) == log
  }

  lemma OneMore(run: Run, group: string, log: seq<Bytes>, c: Bytes)
    requires HasBuffered(run, group, log) && ValidGroupId(group) && c != []
    ensures HasBuffered(run + [Buffers(|log| + 1, group, Encode(c))], group, log + [c])
  {
    EncodedFits(c);
    RunGrows(run, |log|, group, Encode(c));
  }

  lemma BufferRunSnoc(group: string, before: seq<Bytes>, c: Bytes)
    ensures BufferRun(group, before + [c]) == BufferRun(group, before) + [Buffers(|before| + 1, group, Encode(c))]
  {
    assert (before + [c])[..|before|] == before;
  }

  lemma OneMoreCommit(group: string, before: seq<Bytes>, c: Bytes, log: seq<Bytes>)
    requires HasBuffered(BufferRun(group, before), group, before) && ValidGroupId(group) && c != []
    requires log == before + [c]
    ensures HasBuffered(BufferRun(group, log), group, log)
  {
    BufferRunSnoc(group, before, c);
    OneMore(BufferRun(group, before), group, before, c);
  }

  lemma NoCommitsYet(group: string)
    ensures HasBuffered(BufferRun(group, []), group, [])
  {
    AdminStarts();
    AfterSnoc(Trusting(), [], Registers("", "admin", "K"));
    assert BufferRun(group, []) == [] + [Registers("", "admin", "K")];
    assert EntriesIn(Trusting(), BufferRun(group, [])) == [];
  }

  predicate NonEmpty(log: seq<Bytes>) {
    forall k :: 0 <= k < |log| ==> log[k] != []
  }

  /** Any list of non-empty commits can be what the server has buffered for the group. */
  lemma {:induction false} BuffersAnything(group: string, log: seq<Bytes>)
    requires ValidGroupId(group) && NonEmpty(log)
    ensures HasBuffered(BufferRun(group, log), group, log)
  {
    if log == [] {
      NoCommitsYet(group);
    } else {
      var before, c := log[..|log| - 1], log[|log| - 1];
      assert log == before + [c];
      BuffersAnything(group, before);
      OneMoreCommit(group, before, c, log);
    }
  }

  /** Where the client's sync takes a member, when the server has buffered the log. */
  function SyncedTo(id: Bytes, log: seq<Bytes>, member: seq<Byte>): seq<Byte> {
    var i := AsksAll(|log| + 1, Encode(id));
    AfterReply(Toy(), member, Synced(Trusting(), Clean(After(Trusting(), BufferRun(Encode(id), log)), i), i))
  }

  lemma SyncedToSuffix(id: Bytes, log: seq<Bytes>, member: seq<Byte>)
    requires Sendable(id) && NonEmpty(log)
    ensures ClientSyncs(AsksAll(|log| + 1, Encode(id)), id)
    ensures GroupCommits(Trusting(), BufferRun(Encode(id), log), Encode(id)) == log
    ensures SyncedTo(id, log, member) == Toys(member, log[Dropped(log)..])
  {
    var group := Encode(id);
    ValidIff(id);
    BuffersAnything(group, log);
    AsksAccepted(Clean(After(Trusting(), BufferRun(group, log)), AsksAll(|log| + 1, group)), |log|, group);
    ReplyIsSuffix(Trusting(), BufferRun(group, log), AsksAll(|log| + 1, group));
  }

  /** Sendable ids exist: three zero bytes are the text "AAAA". */
  lemma SendableExists()
    ensures Sendable([0, 0, 0]) && Encode([0, 0, 0]) == "AAAA"
  {
    assert Encode([0, 0, 0]) == Quad(0, 0, 0) + Encode([]);
  }

  // ----- A commit that came early -----

  /** A commit for epoch 1, then two that follow each other. */
  function EarlyLog(): seq<Bytes> { [[1, 7], [0, 5], [1, 6]] }

  lemma EarlyHistory(log: seq<Bytes>)
    requires log == EarlyLog()
    ensures HistoryAt(Toy(), [], log, 2) == [5] && HistoryAt(Toy(), [], log, 3) == [5, 6]
    ensures !NoneEarly(Toy(), [], log) && NoneStale(Toy(), [], log, 0)
  {
    HistoryNext(log, 0);
    HistoryNext(log, 1);
    HistoryNext(log, 2);
    assert !NotEarly(Toy(), [], log, 0);
  }

  lemma EarlyReplayed(log: seq<Bytes>)
    requires log == EarlyLog()
    ensures Toys([5], log[Dropped(log)..]) == [5, 7]
  {
    assert log[0..] == log;
    ToysThree([5], [1, 7], [0, 5], [1, 6]);
  }

  /**
   The commit for epoch 1 was buffered while the group was at epoch 0 and fails then, but it applies
   when a member at epoch 1 syncs: that member leaves the group's history.
   */
  lemma EarlyCommitForks(id: Bytes, log: seq<Bytes>)
    requires Sendable(id) && log == EarlyLog()
    ensures EpochChecked(Toy()) && !NoneEarly(Toy(), [], log) && NoneStale(Toy(), [], log, Dropped(log))
    ensures GroupCommits(Trusting(), BufferRun(Encode(id), log), Encode(id)) == log
    ensures HistoryAt(Toy(), [], log, 2) == [5] && HistoryAt(Toy(), [], log, |log|) == [5, 6]
    ensures SyncedTo(id, log, [5]) == [5, 7]
  {
    ToyChecked();
    EarlyHistory(log);
    SyncedToSuffix(id, log, [5]);
    EarlyReplayed(log);
  }

  // ----- A commit that came late -----

  function Copies(n: nat): (log: seq<Bytes>)
    ensures |log| == n
    ensures forall k :: 0 <= k < n ==> log[k] == [0, 6]
  {
    if n == 0 then [] else Copies(n - 1) + [[0, 6]]
  }

  /** A commit for epoch 0, then n more for the same epoch. */
  function StaleLog(n: nat): (log: seq<Bytes>)
    ensures |log| == n + 1 && log[0] == [0, 5] && NonEmpty(log)
  {
    [[0, 5]] + Copies(n)
  }

  lemma StaleEntry(n: nat, k: nat)
    requires 0 < k <= n
    ensures StaleLog(n)[k] == [0, 6]
  {
    assert StaleLog(n)[k] == Copies(n)[k - 1];
  }

  lemma {:induction false} StaleHistory(n: nat, k: nat)
    requires 0 < k <= n + 1
    ensures HistoryAt(Toy(), [], StaleLog(n), k) == [5]
  {
    HistoryNext(StaleLog(n), k - 1);
    if k > 1 {
      StaleHistory(n, k - 1);
      StaleEntry(n, k - 1);
    } else {
      assert HistoryAt(Toy(), [], StaleLog(n), 0) == [];
    }
  }

  lemma {:induction false} CopiesReplayed(n: nat)
    requires n > 0
    ensures Toys([], Copies(n)) == [6]
  {
    ToysSnoc([], Copies(n - 1), [0, 6]);
    if n > 1 {
      CopiesReplayed(n - 1);
    } else {
      assert Toys([], Copies(0)) == [];
    }
  }

  lemma StaleConditions(n: nat)
    requires n > 0
    ensures NoneEarly(Toy(), [], StaleLog(n)) && !NoneStale(Toy(), [], StaleLog(n), 1)
  {
    StaleHistory(n, 1);
    StaleEntry(n, 1);
    forall i | 0 <= i < |StaleLog(n)| ensures NotEarly(Toy(), [], StaleLog(n), i) {
      if i > 0 {
        StaleEntry(n, i);
      }
    }
  }

  /**
   A hundred commits for an epoch the group has left push the one it took out of the buffer, and
   then take a member that missed it to a state the group was never in.
   */
  lemma StaleCommitForks(id: Bytes, n: nat)
    requires Sendable(id) && n == 100
    ensures var log := StaleLog(n);
            && EpochChecked(Toy()) && NoneEarly(Toy(), [], log) && !NoneStale(Toy(), [], log, Dropped(log))
            && GroupCommits(Trusting(), BufferRun(Encode(id), log), Encode(id)) == log && Dropped(log) == 1
            && HistoryAt(Toy(), [], log, 0) == [] && HistoryAt(Toy(), [], log, |log|) == [5]
            && SyncedTo(id, log, []) == [6]
  {
    ToyChecked();
    StaleConditions(n);
    StaleHistory(n, n + 1);
    SyncedToSuffix(id, StaleLog(n), []);
    assert StaleLog(n)[1..] == Copies(n);
    CopiesReplayed(n);
  }
}
