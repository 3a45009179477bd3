/** The chat view's labels: which messages form a visual block, and where a block shows its sender. */
module MessageGrouping {
  import opened Sequences

  const GAP_MS := 120_000

  /** A timestamp that does not parse has no time; comparisons with it are false. */
  datatype Message = Message(sender: string, time: Option<int>, isOwn: bool)

  datatype Position = Single | First | Normal | Last

  datatype Direction = Outgoing | Incoming

  datatype Labelled = Labelled(message: Message, position: Position, direction: Direction, showSender: bool)

  /** Two neighbours are grouped; a later message with an earlier time counts as close. */
  predicate Grouped(earlier: Message, later: Message) {
    && earlier.sender == later.sender
    && earlier.time.Some? && later.time.Some?
    && later.time.value - earlier.time.value < GAP_MS
  }

  predicate WithPrev(messages: seq<Message>, i: nat)
    requires i < |messages|
  {
    i > 0 && Grouped(messages[i - 1], messages[i])
  }

  predicate WithNext(messages: seq<Message>, i: nat)
    requires i < |messages|
  {
    i + 1 < |messages| && Grouped(messages[i], messages[i + 1])
  }

  function Label(messages: seq<Message>, i: nat): Labelled
    requires i < |messages|
  {
    var prev, next := WithPrev(messages, i), WithNext(messages, i);
    var position :=
      if !prev && !next then Single
      else if !prev && next then First
      else if prev && next then Normal
      else Last;
    Labelled(messages[i], position, if messages[i].isOwn then Outgoing else Incoming, !prev)
  }

  function CalculateMessagePositions(messages: seq<Message>): (labelled: seq<Labelled>)
    ensures |labelled| == |messages|
    ensures forall i :: 0 <= i < |messages| ==> labelled[i].message == messages[i]
  {
    seq(|messages|, i requires 0 <= i < |messages| => Label(messages, i))
  }

  function Positions(labelled: seq<Labelled>): seq<Position> {
    Map((l: Labelled) => l.position, labelled)
  }

  // ----- The reference: maximal runs of grouped neighbours -----

  function Total(lengths: seq<nat>): nat {
    if lengths == [] then 0 else Total(lengths[..|lengths| - 1]) + lengths[|lengths| - 1]
  }

  ghost predicate Positive(lengths: seq<nat>) {
    forall k :: 0 <= k < |lengths| ==> lengths[k] > 0
  }

  /** The last run grows by one. */
  function Extended(lengths: seq<nat>): seq<nat> {
    if lengths == [] then [1]
    else
      var k := |lengths| - 1;
      lengths[..k] + [lengths[k] + 1]
  }

  /** The lengths of the maximal runs, in order. */
  function Runs(messages: seq<Message>): (lengths: seq<nat>)
    ensures messages != [] ==> lengths != []
    ensures Positive(lengths)
  {
    if messages == [] then []
    else
      var k := |messages| - 1;
      var before := Runs(messages[..k]);
      if WithPrev(messages, k) then Extended(before) else before + [1]
  }

  /** Some runs together have i messages: a run starts, or the list ends, at i. */
  ghost predicate Boundary(lengths: seq<nat>, i: nat) {
    exists k :: 0 <= k <= |lengths| && Total(lengths[..k]) == i
  }

  lemma TotalSnoc(lengths: seq<nat>, n: nat)
    ensures Total(lengths + [n]) == Total(lengths) + n
  {
    assert (lengths + [n])[..|lengths|] == lengths;
  }

  lemma TotalExtended(lengths: seq<nat>)
    ensures Total(Extended(lengths)) == Total(lengths) + 1
  {
    if lengths == [] {
      TotalSnoc([], 1);
    } else {
      TotalSnoc(lengths[..|lengths| - 1], lengths[|lengths| - 1] + 1);
    }
  }

  lemma {:induction false} RunsCoverAll(messages: seq<Message>)
    ensures Total(Runs(messages)) == |messages|
  {
    if messages != [] {
      var before := Runs(messages[..|messages| - 1]);
      RunsCoverAll(messages[..|messages| - 1]);
      TotalExtended(before);
      TotalSnoc(before, 1);
    }
  }

  lemma {:induction false} PartialTotal(lengths: seq<nat>, k: nat)
    requires k <= |lengths|
    ensures Total(lengths[..k]) <= Total(lengths)
    ensures Positive(lengths) && k < |lengths| ==> Total(lengths[..k]) < Total(lengths)
  {
    if k == |lengths| {
      assert lengths[..k] == lengths;
    } else {
      var t := lengths[..|lengths| - 1];
      assert t[..k] == lengths[..k];
      PartialTotal(t, k);
    }
  }

  lemma BoundarySnoc(lengths: seq<nat>, n: nat, i: nat)
    requires n > 0 && Positive(lengths)
    ensures Boundary(lengths + [n], i) <==> Boundary(lengths, i) || i == Total(lengths) + n
  {
    TotalSnoc(lengths, n);
    var all := lengths + [n];
    forall k | 0 <= k <= |lengths| ensures all[..k] == lengths[..k] {
    }
    assert all[..|all|] == all;
    if Boundary(lengths, i) {
      var k :| 0 <= k <= |lengths| && Total(lengths[..k]) == i;
      assert Total(all[..k]) == i;
    }
    if i == Total(lengths) + n {
      assert Total(all[..|all|]) == i;
    }
    if Boundary(all, i) {
      var k :| 0 <= k <= |all| && Total(all[..k]) == i;
      assert k <= |lengths| ==> Total(lengths[..k]) == i;
    }
  }

  /** Extending the last run moves the end and keeps every other boundary. */
  lemma BoundaryExtended(lengths: seq<nat>, i: nat)
    requires lengths != [] && Positive(lengths)
    ensures Boundary(Extended(lengths), i)
       <==> (Boundary(lengths, i) && i != Total(lengths)) || i == Total(lengths) + 1
  {
    var t, n := lengths[..|lengths| - 1], lengths[|lengths| - 1];
    assert lengths == t + [n];
    TotalSnoc(t, n);
    BoundarySnoc(t, n, i);
    BoundarySnoc(t, n + 1, i);
    if Boundary(t, i) {
      var k :| 0 <= k <= |t| && Total(t[..k]) == i;
      PartialTotal(t, k);
    }
  }

  lemma {:induction false} BoundaryIff(messages: seq<Message>, i: nat)
    requires i < |messages|
    ensures Boundary(Runs(messages), i) <==> !WithPrev(messages, i)
  {
    var k := |messages| - 1;
    var t := messages[..k];
    RunsCoverAll(t);
    if i < k {
      BoundaryIff(t, i);
    }
    if WithPrev(messages, k) {
      BoundaryExtended(Runs(t), i);
    } else {
      BoundarySnoc(Runs(t), 1, i);
      assert Runs(t)[..|Runs(t)|] == Runs(t);
    }
  }

  /** Another sender, a time that does not parse, or two minutes and more. */
  predicate Apart(earlier: Message, later: Message) {
    || earlier.sender != later.sender
    || earlier.time.None? || later.time.None?
    || later.time.value - earlier.time.value >= 120_000
  }

  /** The runs are the maximal ones: a run starts exactly where two neighbours are not grouped. */
  lemma RunsAreMaximal(messages: seq<Message>, i: nat)
    requires i < |messages|
    ensures Boundary(Runs(messages), i) <==> i == 0 || Apart(messages[i - 1], messages[i])
  {
    BoundaryIff(messages, i);
  }

  // ----- Labels are the runs, written out -----

  function Normals(n: nat): seq<Position> {
    if n == 0 then [] else Normals(n - 1) + [Normal]
  }

  /** single, or first normal* last. */
  function Block(length: nat): seq<Position> {
    if length == 0 then []
    else if length == 1 then [Single]
    else [First] + Normals(length - 2) + [Last]
  }

  function Render(lengths: seq<nat>): seq<Position> {
    if lengths == [] then [] else Render(lengths[..|lengths| - 1]) + Block(lengths[|lengths| - 1])
  }

  /** What becomes of the last label when another message joins its block. */
  function Opened(p: Position): Position {
    match p
    case Single => First
    case Last => Normal
    case _ => p
  }

  function Joined(positions: seq<Position>): seq<Position>
    requires positions != []
  {
    positions[..|positions| - 1] + [Opened(positions[|positions| - 1]), Last]
  }

  lemma RenderSnoc(lengths: seq<nat>, n: nat)
    ensures Render(lengths + [n]) == Render(lengths) + Block(n)
  {
    assert (lengths + [n])[..|lengths|] == lengths;
  }

  lemma BlockGrows(n: nat)
    requires n > 0
    ensures Block(n + 1) == Joined(Block(n))
  {
    if n > 1 {
      var open := [First] + Normals(n - 2);
      assert Block(n)[..n - 1] == open by {
        NormalsLength(n - 2);
      }
      assert open + [Normal, Last] == [First] + (Normals(n - 2) + [Normal]) + [Last];
    }
  }

  lemma {:induction false} NormalsLength(n: nat)
    ensures |Normals(n)| == n
  {
    if n > 0 {
      NormalsLength(n - 1);
    }
  }

  lemma JoinedConcat(a: seq<Position>, b: seq<Position>)
    requires b != []
    ensures Joined(a + b) == a + Joined(b)
  {
    assert (a + b)[..|a + b| - 1] == a + b[..|b| - 1];
  }

  lemma RenderLonger(lengths: seq<nat>, n: nat)
    requires n > 0
    ensures Render(lengths + [n]) != []
    ensures Render(lengths + [n + 1]) == Joined(Render(lengths + [n]))
  {
    RenderSnoc(lengths, n);
    RenderSnoc(lengths, n + 1);
    BlockGrows(n);
    JoinedConcat(Render(lengths), Block(n));
  }

  lemma RenderExtended(lengths: seq<nat>)
    requires lengths != [] && Positive(lengths)
    ensures Render(lengths) != []
    ensures Render(Extended(lengths)) == Joined(Render(lengths))
  {
    var t, n := lengths[..|lengths| - 1], lengths[|lengths| - 1];
    assert lengths == t + [n];
    RenderLonger(t, n);
  }

  function PositionsOf(messages: seq<Message>): seq<Position> {
    Positions(CalculateMessagePositions(messages))
  }

  lemma PositionAt(messages: seq<Message>, i: nat)
    requires i < |messages|
    ensures |PositionsOf(messages)| == |messages|
    ensures PositionsOf(messages)[i] == Label(messages, i).position
  {
  }

  function Appended(positions: seq<Position>, grouped: bool): seq<Position> {
    if grouped && positions != [] then Joined(positions) else positions + [Single]
  }

  lemma AppendedAt(positions: seq<Position>, grouped: bool, i: nat)
    requires i <= |positions|
    ensures |Appended(positions, grouped)| == |positions| + 1
    ensures Appended(positions, grouped)[i]
         == if i == |positions| then (if grouped && i > 0 then Last else Single)
            else if grouped && i == |positions| - 1 then Opened(positions[i])
            else positions[i]
  {
  }

  /** A new message changes at most the label just before it. */
  lemma OlderLabel(messages: seq<Message>, i: nat)
    requires i + 1 < |messages|
    ensures var older := Label(messages[..|messages| - 1], i).position;
            Label(messages, i).position
              == if i + 2 == |messages| && WithPrev(messages, i + 1) then Opened(older) else older
  {
  }

  lemma LabelAfterSnoc(messages: seq<Message>, i: nat)
    requires i < |messages|
    ensures var before, k := PositionsOf(messages[..|messages| - 1]), |messages| - 1;
            |before| == k && PositionsOf(messages)[i] == Appended(before, WithPrev(messages, k))[i]
  {
    var k := |messages| - 1;
    PositionAt(messages, i);
    AppendedAt(PositionsOf(messages[..k]), WithPrev(messages, k), i);
    if i < k {
      PositionAt(messages[..k], i);
      OlderLabel(messages, i);
    }
  }

  lemma SameLabels(a: seq<Position>, b: seq<Position>)
    requires |a| == |b| && forall i :: 0 <= i < |a| ==> a[i] == b[i]
    ensures a == b
  {
  }

  /** A new message leaves all labels but the last one as they were. */
  lemma LabelsSnoc(messages: seq<Message>)
    requires messages != []
    ensures PositionsOf(messages)
         == Appended(PositionsOf(messages[..|messages| - 1]), WithPrev(messages, |messages| - 1))
  {
    var before, grouped := PositionsOf(messages[..|messages| - 1]), WithPrev(messages, |messages| - 1);
    AppendedAt(before, grouped, 0);
    forall i | 0 <= i < |messages| ensures PositionsOf(messages)[i] == Appended(before, grouped)[i] {
      LabelAfterSnoc(messages, i);
    }
    SameLabels(PositionsOf(messages), Appended(before, grouped));
  }

  /** The labels, read in order, are exactly the blocks of the maximal runs. */
  lemma {:induction false} LabelsRenderRuns(messages: seq<Message>)
    ensures PositionsOf(messages) == Render(Runs(messages))
  {
    if messages != [] {
      var before := Runs(messages[..|messages| - 1]);
      LabelsRenderRuns(messages[..|messages| - 1]);
      LabelsSnoc(messages);
      RenderSnoc(before, 1);
      if before != [] {
        RenderExtended(before);
      }
    }
  }

  // ----- The runs can be read back from the labels -----

  function Decode(positions: seq<Position>): seq<nat> {
    if positions == [] then []
    else
      var k := |positions| - 1;
      match positions[k]
      case Single => Decode(positions[..k]) + [1]
      case First => Decode(positions[..k]) + [1]
      case _ => Extended(Decode(positions[..k]))
  }

  lemma DecodeSnoc(positions: seq<Position>, p: Position)
    ensures Decode(positions + [p])
         == if p.Single? || p.First? then Decode(positions) + [1] else Extended(Decode(positions))
  {
    assert (positions + [p])[..|positions|] == positions;
  }

  lemma ExtendedSnoc(lengths: seq<nat>, n: nat)
    ensures Extended(lengths + [n]) == lengths + [n + 1]
  {
    assert (lengths + [n])[..|lengths|] == lengths;
  }

  lemma DecodeLonger(open: seq<Position>, p: Position, lengths: seq<nat>, n: nat)
    requires Decode(open) == lengths + [n] && (p.Normal? || p.Last?)
    ensures Decode(open + [p]) == lengths + [n + 1]
  {
    DecodeSnoc(open, p);
    ExtendedSnoc(lengths, n);
  }

  lemma DecodeNext(open: seq<Position>, longer: seq<Position>, lengths: seq<nat>, n: nat)
    requires Decode(open) == lengths + [n] && longer == open + [Normal]
    ensures Decode(longer) == lengths + [n + 1]
  {
    DecodeLonger(open, Normal, lengths, n);
  }

  /** An unfinished block after these positions. */
  function Open(positions: seq<Position>, n: nat): seq<Position> {
    if n == 0 then positions + [First] else Open(positions, n - 1) + [Normal]
  }

  lemma OpenGrows(positions: seq<Position>, n: nat)
    ensures Open(positions, n + 1) == Open(positions, n) + [Normal]
  {
  }

  lemma {:induction false} DecodeOpen(positions: seq<Position>, n: nat)
    ensures Decode(Open(positions, n)) == Decode(positions) + [n + 1]
    decreases n
  {
    if n == 0 {
      DecodeSnoc(positions, First);
      assert Open(positions, 0) == positions + [First];
    } else {
      var open, longer := Open(positions, n - 1), Open(positions, n);
      OpenGrows(positions, n - 1);
      DecodeOpen(positions, n - 1);
      DecodeNext(open, longer, Decode(positions), n);
    }
  }

  lemma {:induction false} OpenIsBlock(positions: seq<Position>, n: nat)
    ensures Open(positions, n) == positions + ([First] + Normals(n))
  {
    if n > 0 {
      OpenIsBlock(positions, n - 1);
    }
  }

  lemma ClosedIsBlock(positions: seq<Position>, n: nat)
    requires n > 1
    ensures positions + Block(n) == Open(positions, n - 2) + [Last]
  {
    OpenIsBlock(positions, n - 2);
    assert positions + ([First] + Normals(n - 2) + [Last]) == positions + ([First] + Normals(n - 2)) + [Last];
  }

  lemma DecodeClosed(positions: seq<Position>, n: nat)
    requires n > 1
    ensures Decode(Open(positions, n - 2) + [Last]) == Decode(positions) + [n]
  {
    DecodeOpen(positions, n - 2);
    DecodeLonger(Open(positions, n - 2), Last, Decode(positions), n - 1);
  }

  lemma DecodeBlock(positions: seq<Position>, n: nat)
    requires n > 0
    ensures Decode(positions + Block(n)) == Decode(positions) + [n]
  {
    if n == 1 {
      DecodeSnoc(positions, Single);
    } else {
      ClosedIsBlock(positions, n);
      DecodeClosed(positions, n);
    }
  }

  lemma {:induction false} DecodeUndoesRender(lengths: seq<nat>)
    requires Positive(lengths)
    ensures Decode(Render(lengths)) == lengths
  {
    if lengths != [] {
      var t, n := lengths[..|lengths| - 1], lengths[|lengths| - 1];
      assert lengths == t + [n];
      DecodeUndoesRender(t);
      RenderSnoc(t, n);
      DecodeBlock(Render(t), n);
    }
  }

  /** Nothing about the runs is lost: decoding the labels gives their lengths back. */
  lemma LabelsDecode(messages: seq<Message>)
    ensures Decode(PositionsOf(messages)) == Runs(messages)
  {
    LabelsRenderRuns(messages);
    DecodeUndoesRender(Runs(messages));
  }

  /** The sender is shown at the first message of each run and nowhere else; each message keeps its place. */
  lemma SenderAtStarts(messages: seq<Message>, i: nat)
    requires i < |messages|
    ensures var l := CalculateMessagePositions(messages)[i];
            && (l.showSender <==> Boundary(Runs(messages), i))
            && (l.showSender <==> l.position.Single? || l.position.First?)
            && l.message == messages[i]
            && (l.direction == Outgoing <==> messages[i].isOwn)
  {
    BoundaryIff(messages, i);
  }
}
