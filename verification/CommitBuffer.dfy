/** The group server's commit buffer: one table for all groups, trimmed to the last hundred of each. */
module CommitBuffer {
  import opened Base64
  import opened Sequences

  const KEEP := 100
  const PAGE := 100

  datatype Commit = Commit(id: nat, group: string, epoch: int, data: Bytes, sender: string)

  /** Ids are handed out by the table, from 1, and never reused. */
  datatype Buffer = Buffer(rows: seq<Commit>, nextId: nat)

  const EMPTY := Buffer([], 1)

  function Id(): Commit -> int { (c: Commit) => c.id }

  function InGroup(group: string): Commit -> bool { (c: Commit) => c.group == group }

  function After(since: int): Commit -> bool { (c: Commit) => c.id > since }

  function OfGroupAfter(group: string, since: int): Commit -> bool {
    (c: Commit) => c.group == group && c.id > since
  }

  /** Rows of the group outside its newest ones: the target of the trimming DELETE. */
  function Outdated(group: string, keep: seq<int>): Commit -> bool {
    (c: Commit) => c.group == group && c.id !in keep
  }

  function Append(b: Buffer, group: string, epoch: int, data: Bytes, sender: string): Buffer {
    Buffer(b.rows + [Commit(b.nextId, group, epoch, data, sender)], b.nextId + 1)
  }

  /** SELECT id ... WHERE group ORDER BY id DESC LIMIT n. */
  function NewestIds(b: Buffer, group: string, n: nat): seq<int> {
    Map(Id(), LastN(n, OrderBy(Id(), Filter(InGroup(group), b.rows))))
  }

  function Trim(b: Buffer, group: string, n: nat): Buffer {
    b.(rows := Filter(Not(Outdated(group, NewestIds(b, group, n))), b.rows))
  }

  /** bufferCommit: store, then trim that group. */
  function Buffered(b: Buffer, group: string, epoch: int, data: Bytes, sender: string): Buffer {
    Trim(Append(b, group, epoch, data, sender), group, KEEP)
  }

  /** syncEpoch: the group's commits after the cursor, by id, at most a page. */
  function Sync(b: Buffer, group: string, since: int): seq<Commit> {
    Take(PAGE, OrderBy(Id(), Filter(OfGroupAfter(group, since), b.rows)))
  }

  // ----- The invariant -----

  ghost predicate Ordered(rows: seq<Commit>) {
    forall i, j :: 0 <= i < j < |rows| ==> rows[i].id < rows[j].id
  }

  ghost predicate Below(rows: seq<Commit>, bound: nat) {
    forall i :: 0 <= i < |rows| ==> 1 <= rows[i].id < bound
  }

  ghost predicate Valid(b: Buffer) {
    b.nextId >= 1 && Ordered(b.rows) && Below(b.rows, b.nextId)
  }

  lemma {:induction false} FilterBelow(p: Commit -> bool, rows: seq<Commit>, bound: nat)
    requires Below(rows, bound)
    ensures Below(Filter(p, rows), bound)
  {
    if rows != [] {
      FilterBelow(p, rows[..|rows| - 1], bound);
    }
  }

  lemma {:induction false} FilterOrdered(p: Commit -> bool, rows: seq<Commit>)
    requires Ordered(rows) && forall i :: 0 <= i < |rows| ==> rows[i].id >= 1
    ensures Ordered(Filter(p, rows))
  {
    if rows != [] {
      var k := |rows| - 1;
      FilterOrdered(p, rows[..k]);
      FilterBelow(p, rows[..k], rows[k].id);
    }
  }

  lemma OrderedIsSorted(rows: seq<Commit>)
    requires Ordered(rows)
    ensures SortedBy(Id(), rows) && OrderBy(Id(), rows) == rows
  {
    OrderBySortedSame(Id(), rows);
  }

  lemma BufferedValid(b: Buffer, group: string, epoch: int, data: Bytes, sender: string)
    requires Valid(b)
    ensures Valid(Buffered(b, group, epoch, data, sender))
  {
    var a := Append(b, group, epoch, data, sender);
    var keep := Not(Outdated(group, NewestIds(a, group, KEEP)));
    FilterOrdered(keep, a.rows);
    FilterBelow(keep, a.rows, a.nextId);
  }

  // ----- Trimming -----

  function IdIn(ids: seq<int>): Commit -> bool { (c: Commit) => c.id in ids }

  lemma OwnIdsSelect(rows: seq<Commit>)
    ensures Filter(IdIn(Map(Id(), rows)), rows) == rows
  {
    var ids := Map(Id(), rows);
    forall c | c in rows ensures c.id in ids {
      var j :| 0 <= j < |rows| && rows[j] == c;
      assert ids[j] == c.id;
    }
    FilterAll(IdIn(ids), rows);
  }

  lemma LaterIdsMiss(older: seq<Commit>, newer: seq<Commit>)
    requires Ordered(older + newer)
    ensures Filter(IdIn(Map(Id(), newer)), older) == []
  {
    var ids := Map(Id(), newer);
    forall c | c in older ensures c.id !in ids {
      var i :| 0 <= i < |older| && older[i] == c;
      forall j | 0 <= j < |ids| ensures ids[j] > c.id {
        assert (older + newer)[i].id < (older + newer)[|older| + j].id;
      }
    }
    FilterNone(IdIn(ids), older);
  }

  /** Among ordered rows, selecting the ids of a suffix selects the suffix. */
  lemma SuffixById(rows: seq<Commit>, cut: nat)
    requires Ordered(rows) && cut <= |rows|
    ensures Filter(IdIn(Map(Id(), rows[cut..])), rows) == rows[cut..]
  {
    assert rows == rows[..cut] + rows[cut..];
    FilterConcat(IdIn(Map(Id(), rows[cut..])), rows[..cut], rows[cut..]);
    LaterIdsMiss(rows[..cut], rows[cut..]);
    OwnIdsSelect(rows[cut..]);
  }

  lemma KeptById(rows: seq<Commit>, group: string, ids: seq<int>)
    ensures Filter(InGroup(group), Filter(Not(Outdated(group, ids)), rows))
         == Filter(IdIn(ids), Filter(InGroup(group), rows))
  {
    var mine := Filter(InGroup(group), rows);
    FilterCommutes(InGroup(group), Not(Outdated(group, ids)), rows);
    forall c | c in mine ensures Not(Outdated(group, ids))(c) == IdIn(ids)(c) {
      FilterMember(InGroup(group), rows, c);
    }
    FilterAgree(Not(Outdated(group, ids)), IdIn(ids), mine);
  }

  /** Trimming leaves the group exactly its n newest commits. */
  lemma TrimKeepsNewest(b: Buffer, group: string, n: nat)
    requires Valid(b)
    ensures Filter(InGroup(group), Trim(b, group, n).rows) == LastN(n, Filter(InGroup(group), b.rows))
  {
    var mine := Filter(InGroup(group), b.rows);
    FilterOrdered(InGroup(group), b.rows);
    OrderedIsSorted(mine);
    KeptById(b.rows, group, NewestIds(b, group, n));
    SuffixById(mine, if |mine| <= n then 0 else |mine| - n);
  }

  /** Trimming one group never touches another, although they share the table and the ids. */
  lemma TrimSparesOthers(b: Buffer, group: string, n: nat, other: string)
    requires other != group
    ensures Filter(InGroup(other), Trim(b, group, n).rows) == Filter(InGroup(other), b.rows)
  {
    FilterWithin(Not(Outdated(group, NewestIds(b, group, n))), InGroup(other), b.rows);
  }

  // ----- Whole runs against the untrimmed log -----

  datatype Entry = Entry(group: string, epoch: int, data: Bytes, sender: string)

  function BufferOf(run: seq<Entry>): Buffer {
    if run == [] then EMPTY
    else
      var e := run[|run| - 1];
      Buffered(BufferOf(run[..|run| - 1]), e.group, e.epoch, e.data, e.sender)
  }

  /** Every commit ever buffered, in order, none forgotten. */
  function LogOf(run: seq<Entry>): seq<Commit> {
    if run == [] then []
    else
      var k := |run| - 1;
      LogOf(run[..k]) + [Commit(k + 1, run[k].group, run[k].epoch, run[k].data, run[k].sender)]
  }

  function GroupLog(run: seq<Entry>, group: string): seq<Commit> {
    Filter(InGroup(group), LogOf(run))
  }

  lemma {:induction false} BufferOfValid(run: seq<Entry>)
    ensures Valid(BufferOf(run)) && BufferOf(run).nextId == |run| + 1
  {
    if run != [] {
      var e := run[|run| - 1];
      BufferOfValid(run[..|run| - 1]);
      BufferedValid(BufferOf(run[..|run| - 1]), e.group, e.epoch, e.data, e.sender);
    }
  }

  lemma {:induction false} LogOrdered(run: seq<Entry>)
    ensures Ordered(LogOf(run)) && Below(LogOf(run), |run| + 1)
  {
    if run != [] {
      LogOrdered(run[..|run| - 1]);
    }
  }

  lemma LastNSnoc<T>(n: nat, s: seq<T>, x: T)
    ensures LastN(n, LastN(n, s) + [x]) == LastN(n, s + [x])
  {
  }

  lemma AppendedRows(b: Buffer, c: Commit, log: seq<Commit>)
    requires Filter(InGroup(c.group), b.rows) == LastN(KEEP, log)
    ensures LastN(KEEP, Filter(InGroup(c.group), b.rows + [c])) == LastN(KEEP, log + [c])
  {
    FilterSnoc(InGroup(c.group), b.rows, c);
    LastNSnoc(KEEP, log, c);
  }

  lemma AppendValid(b: Buffer, group: string, epoch: int, data: Bytes, sender: string)
    requires Valid(b)
    ensures Valid(Append(b, group, epoch, data, sender))
  {
  }

  lemma TrimmedOwn(a: Buffer, group: string, log: seq<Commit>)
    requires Valid(a) && LastN(KEEP, Filter(InGroup(group), a.rows)) == LastN(KEEP, log)
    ensures Filter(InGroup(group), Trim(a, group, KEEP).rows) == LastN(KEEP, log)
  {
    TrimKeepsNewest(a, group, KEEP);
  }

  /** A commit of the group itself joins its newest ones. */
  lemma BufferedOwn(b: Buffer, group: string, epoch: int, data: Bytes, sender: string, log: seq<Commit>)
    requires Valid(b) && Filter(InGroup(group), b.rows) == LastN(KEEP, log)
    ensures Filter(InGroup(group), Buffered(b, group, epoch, data, sender).rows)
         == LastN(KEEP, log + [Commit(b.nextId, group, epoch, data, sender)])
  {
    var c, a := Commit(b.nextId, group, epoch, data, sender), Append(b, group, epoch, data, sender);
    AppendedRows(b, c, log);
    AppendValid(b, group, epoch, data, sender);
    TrimmedOwn(a, group, log + [c]);
  }

  /** A commit of another group changes nothing. */
  lemma BufferedOther(b: Buffer, group: string, epoch: int, data: Bytes, sender: string, other: string)
    requires other != group
    ensures Filter(InGroup(other), Buffered(b, group, epoch, data, sender).rows) == Filter(InGroup(other), b.rows)
  {
    FilterSnoc(InGroup(other), b.rows, Commit(b.nextId, group, epoch, data, sender));
    TrimSparesOthers(Append(b, group, epoch, data, sender), group, KEEP, other);
  }

  function Entered(log: seq<Commit>, id: nat, e: Entry, group: string): seq<Commit> {
    if e.group == group then log + [Commit(id, e.group, e.epoch, e.data, e.sender)] else log
  }

  lemma GroupLogGrows(run: seq<Entry>, group: string)
    requires run != []
    ensures GroupLog(run, group) == Entered(GroupLog(run[..|run| - 1], group), |run|, run[|run| - 1], group)
  {
    var k, e := |run| - 1, run[|run| - 1];
    FilterSnoc(InGroup(group), LogOf(run[..k]), Commit(k + 1, e.group, e.epoch, e.data, e.sender));
  }

  lemma BufferedStep(b: Buffer, e: Entry, group: string, log: seq<Commit>)
    requires Valid(b) && Filter(InGroup(group), b.rows) == LastN(KEEP, log)
    ensures Filter(InGroup(group), Buffered(b, e.group, e.epoch, e.data, e.sender).rows)
         == LastN(KEEP, Entered(log, b.nextId, e, group))
  {
    if e.group == group {
      BufferedOwn(b, group, e.epoch, e.data, e.sender, log);
    } else {
      BufferedOther(b, e.group, e.epoch, e.data, e.sender, group);
    }
  }

  /** After every buffered commit, each group holds exactly its last min(100, total) commits. */
  lemma {:induction false} BufferRefinesLog(run: seq<Entry>, group: string)
    ensures Filter(InGroup(group), BufferOf(run).rows) == LastN(100, GroupLog(run, group))
  {
    if run != [] {
      var prefix := run[..|run| - 1];
      BufferRefinesLog(prefix, group);
      BufferOfValid(prefix);
      GroupLogGrows(run, group);
      BufferedStep(BufferOf(prefix), run[|run| - 1], group, GroupLog(prefix, group));
    }
  }

  /** The commits of the group after the cursor, over the whole history. */
  function Later(run: seq<Entry>, group: string, since: int): seq<Commit> {
    Filter(After(since), GroupLog(run, group))
  }

  /** If an earlier part reaches past the cursor, all of a later part does. */
  lemma AfterAll(older: seq<Commit>, newer: seq<Commit>, since: int)
    requires Ordered(older + newer) && Filter(After(since), older) != []
    ensures Filter(After(since), newer) == newer
  {
    var c := Filter(After(since), older)[0];
    FilterMember(After(since), older, c);
    var i :| 0 <= i < |older| && older[i] == c;
    forall d | d in newer ensures After(since)(d) {
      var j :| 0 <= j < |newer| && newer[j] == d;
      assert (older + newer)[i].id < (older + newer)[|older| + j].id;
    }
    FilterAll(After(since), newer);
  }

  lemma AfterOfLastN(n: nat, rows: seq<Commit>, since: int)
    requires Ordered(rows)
    ensures Filter(After(since), LastN(n, rows)) == LastN(n, Filter(After(since), rows))
  {
    if |rows| > n {
      var older, newer := rows[..|rows| - n], rows[|rows| - n..];
      assert rows == older + newer;
      FilterConcat(After(since), older, newer);
      if Filter(After(since), older) != [] {
        AfterAll(older, newer, since);
      }
    }
  }

  lemma SyncedRows(run: seq<Entry>, group: string, since: int)
    ensures Filter(OfGroupAfter(group, since), BufferOf(run).rows) == LastN(KEEP, Later(run, group, since))
  {
    LogOrdered(run);
    FilterOrdered(InGroup(group), LogOf(run));
    BufferRefinesLog(run, group);
    AfterOfLastN(KEEP, GroupLog(run, group), since);
    BothConditions(BufferOf(run).rows, group, since);
  }

  lemma LastNLength<T>(n: nat, s: seq<T>)
    ensures |LastN(n, s)| <= n
  {
  }

  /**
   A sync returns, in order, the last hundred of everything its group committed after the
   cursor; the page limit never cuts anything off.
   */
  lemma SyncIsLatest(run: seq<Entry>, group: string, since: int)
    ensures Sync(BufferOf(run), group, since) == LastN(100, Later(run, group, since))
    ensures |Filter(OfGroupAfter(group, since), BufferOf(run).rows)| <= 100
  {
    var found := Filter(OfGroupAfter(group, since), BufferOf(run).rows);
    SyncedRows(run, group, since);
    LastNLength(KEEP, Later(run, group, since));
    BufferOfValid(run);
    FilterOrdered(OfGroupAfter(group, since), BufferOf(run).rows);
    OrderedIsSorted(found);
  }

  lemma {:induction false} BothConditions(rows: seq<Commit>, group: string, since: int)
    ensures Filter(OfGroupAfter(group, since), rows) == Filter(After(since), Filter(InGroup(group), rows))
  {
    if rows != [] {
      var k := |rows| - 1;
      BothConditions(rows[..k], group, since);
      FilterSnoc(After(since), Filter(InGroup(group), rows[..k]), rows[k]);
      assert Filter(InGroup(group), rows[..k]) + [] == Filter(InGroup(group), rows[..k]);
    }
  }

  /** Hence nothing is missed if and only if at most a hundred commits came after the cursor. */
  lemma SyncCompleteIff(run: seq<Entry>, group: string, since: int)
    ensures Sync(BufferOf(run), group, since) == Later(run, group, since)
       <==> |Later(run, group, since)| <= 100
  {
    SyncIsLatest(run, group, since);
  }
}
