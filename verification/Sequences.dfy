/** Table queries over sequences: a table is a sequence of rows in insertion order. */
module Sequences {

  datatype Option<+T> = None | Some(value: T)

  /** The rows that satisfy p, in table order: "SELECT ... WHERE p". */
  function Filter<T>(p: T -> bool, s: seq<T>): (r: seq<T>)
    ensures |r| <= |s|
  {
    if s == [] then []
    else
      var k := |s| - 1;
      Filter(p, s[..k]) + (if p(s[k]) then [s[k]] else [])
  }

  ghost function Places<T>(p: T -> bool, s: seq<T>): set<nat> {
    set k: nat | k < |s| && p(s[k])
  }

  function Not<T>(p: T -> bool): T -> bool {
    x => !p(x)
  }

  function Map<T, U>(f: T -> U, s: seq<T>): (r: seq<U>)
    ensures |r| == |s|
    ensures forall k :: 0 <= k < |s| ==> r[k] == f(s[k])
  {
    if s == [] then [] else Map(f, s[..|s| - 1]) + [f(s[|s| - 1])]
  }

  /** The last n elements, or all of them when there are fewer. */
  function LastN<T>(n: nat, s: seq<T>): seq<T> {
    if |s| <= n then s else s[|s| - n..]
  }

  /** LIMIT n. */
  function Take<T>(n: nat, s: seq<T>): seq<T> {
    if |s| <= n then s else s[..n]
  }

  ghost predicate Distinct<T>(s: seq<T>) {
    forall i, j :: 0 <= i < j < |s| ==> s[i] != s[j]
  }

  ghost predicate SortedBy<T>(key: T -> int, s: seq<T>) {
    forall i, j :: 0 <= i < j < |s| ==> key(s[i]) <= key(s[j])
  }

  ghost predicate AtMost<T>(key: T -> int, s: seq<T>, bound: int) {
    forall i :: 0 <= i < |s| ==> key(s[i]) <= bound
  }

  ghost predicate Injective<T(!new), U>(f: T -> U) {
    forall a, b :: f(a) == f(b) ==> a == b
  }

  /** Exactly the rows of the table that satisfy the condition are selected. */
  lemma {:induction false} FilterMember<T>(p: T -> bool, s: seq<T>, x: T)
    ensures x in Filter(p, s) <==> x in s && p(x)
  {
    if s != [] {
      var k := |s| - 1;
      FilterMember(p, s[..k], x);
      assert s == s[..k] + [s[k]];
    }
  }

  lemma FilterMembers<T(!new)>(p: T -> bool, s: seq<T>)
    ensures forall x :: x in Filter(p, s) <==> x in s && p(x)
  {
    forall x ensures x in Filter(p, s) <==> x in s && p(x) {
      FilterMember(p, s, x);
    }
  }

  lemma FilterSnoc<T>(p: T -> bool, s: seq<T>, x: T)
    ensures Filter(p, s + [x]) == Filter(p, s) + (if p(x) then [x] else [])
  {
    assert (s + [x])[..|s|] == s;
  }

  lemma FilterOne<T>(p: T -> bool, x: T)
    ensures Filter(p, [x]) == if p(x) then [x] else []
  {
    assert [x][..0] == [];
  }

  lemma MapOne<T, U>(f: T -> U, x: T)
    ensures Map(f, [x]) == [f(x)]
  {
  }

  lemma {:induction false} FilterConcat<T>(p: T -> bool, s: seq<T>, t: seq<T>)
    ensures Filter(p, s + t) == Filter(p, s) + Filter(p, t)
  {
    if t == [] {
      assert s + t == s;
    } else {
      var u, x := t[..|t| - 1], t[|t| - 1];
      assert t == u + [x] && s + t == (s + u) + [x];
      FilterConcat(p, s, u);
      FilterSnoc(p, s + u, x);
    }
  }

  lemma {:induction false} FilterAll<T>(p: T -> bool, s: seq<T>)
    requires forall x :: x in s ==> p(x)
    ensures Filter(p, s) == s
  {
    if s != [] {
      var t, x := s[..|s| - 1], s[|s| - 1];
      assert s == t + [x];
      FilterAll(p, t);
    }
  }

  lemma {:induction false} FilterNone<T>(p: T -> bool, s: seq<T>)
    requires forall x :: x in s ==> !p(x)
    ensures Filter(p, s) == []
  {
    if s != [] {
      var t, x := s[..|s| - 1], s[|s| - 1];
      assert s == t + [x];
      FilterNone(p, t);
    }
  }

  /** Two conditions that agree on the rows select the same rows. */
  lemma {:induction false} FilterAgree<T>(p: T -> bool, q: T -> bool, s: seq<T>)
    requires forall x :: x in s ==> p(x) == q(x)
    ensures Filter(p, s) == Filter(q, s)
  {
    if s != [] {
      FilterAgree(p, q, s[..|s| - 1]);
    }
  }

  /** Filtering by q what p already selected, when q implies p, is filtering by q. */
  lemma {:induction false} FilterWithin<T>(p: T -> bool, q: T -> bool, s: seq<T>)
    requires forall x :: x in s && q(x) ==> p(x)
    ensures Filter(q, Filter(p, s)) == Filter(q, s)
  {
    if s != [] {
      var k := |s| - 1;
      FilterWithin(p, q, s[..k]);
      FilterSnoc(q, Filter(p, s[..k]), s[k]);
      assert Filter(p, s[..k]) + [] == Filter(p, s[..k]);
    }
  }

  lemma {:induction false} FilterCommutes<T>(p: T -> bool, q: T -> bool, s: seq<T>)
    ensures Filter(p, Filter(q, s)) == Filter(q, Filter(p, s))
  {
    if s != [] {
      var t, x := s[..|s| - 1], s[|s| - 1];
      FilterCommutes(p, q, t);
      FilterSnoc(p, Filter(q, t), x);
      FilterSnoc(q, Filter(p, t), x);
      assert Filter(q, t) + [] == Filter(q, t) && Filter(p, t) + [] == Filter(p, t);
    }
  }

  /** A condition and its negation split a table without loss or duplication. */
  lemma {:induction false} FilterSplits<T>(p: T -> bool, s: seq<T>)
    ensures multiset(Filter(p, s)) + multiset(Filter(Not(p), s)) == multiset(s)
  {
    if s != [] {
      var k := |s| - 1;
      FilterSplits(p, s[..k]);
      assert s == s[..k] + [s[k]];
    }
  }

  /** A selected row occurs as often as in the table, any other not at all. */
  lemma {:induction false} FilterCount<T>(p: T -> bool, s: seq<T>, x: T)
    ensures multiset(Filter(p, s))[x] == if p(x) then multiset(s)[x] else 0
  {
    if s != [] {
      var k := |s| - 1;
      FilterCount(p, s[..k], x);
      assert s == s[..k] + [s[k]];
    }
  }

  /** As many rows are selected as positions satisfy the condition. */
  lemma {:induction false} FilterSize<T>(p: T -> bool, s: seq<T>)
    ensures |Filter(p, s)| == |Places(p, s)|
  {
    if s != [] {
      var n := |s| - 1;
      FilterSize(p, s[..n]);
      assert Places(p, s) == Places(p, s[..n]) + if p(s[n]) then {n} else {};
    }
  }

  /** Selecting does not depend on the order of the table. */
  lemma FilterPermuted<T(!new)>(p: T -> bool, s: seq<T>, t: seq<T>)
    requires multiset(s) == multiset(t)
    ensures multiset(Filter(p, s)) == multiset(Filter(p, t))
  {
    var a, b := multiset(Filter(p, s)), multiset(Filter(p, t));
    forall x ensures a[x] == b[x] {
      FilterCount(p, s, x);
      FilterCount(p, t, x);
    }
    assert a == b;
  }

  lemma {:induction false} FilterAtMost<T>(key: T -> int, p: T -> bool, s: seq<T>, bound: int)
    requires AtMost(key, s, bound)
    ensures AtMost(key, Filter(p, s), bound)
  {
    if s != [] {
      FilterAtMost(key, p, s[..|s| - 1], bound);
    }
  }

  lemma {:induction false} FilterSorted<T>(key: T -> int, p: T -> bool, s: seq<T>)
    requires SortedBy(key, s)
    ensures SortedBy(key, Filter(p, s))
  {
    if s != [] {
      FilterSorted(key, p, s[..|s| - 1]);
      FilterAtMost(key, p, s[..|s| - 1], key(s[|s| - 1]));
    }
  }

  lemma {:induction false} DistinctCount<T>(s: seq<T>, x: T)
    requires Distinct(s)
    ensures multiset(s)[x] == if x in s then 1 else 0
  {
    if s != [] {
      var k := |s| - 1;
      DistinctCount(s[..k], x);
      assert s == s[..k] + [s[k]];
    }
  }

  /** One step of a ledger: if a run's books balance and a step's do, the longer run's balance. */
  lemma LedgerStep<T(!new)>(entered: seq<T>, added: seq<T>, before: seq<T>, after: seq<T>,
                            left: seq<T>, leftNow: seq<T>, dropped: seq<T>, droppedNow: seq<T>)
    requires multiset(entered) == multiset(before) + multiset(left) + multiset(dropped)
    requires multiset(before) + multiset(added) == multiset(after) + multiset(leftNow) + multiset(droppedNow)
    ensures multiset(entered + added) == multiset(after) + multiset(left + leftNow) + multiset(dropped + droppedNow)
  {
    var a := multiset(entered + added);
    var b := multiset(after) + multiset(left + leftNow) + multiset(dropped + droppedNow);
    forall r ensures a[r] == b[r] {
      assert (multiset(before) + multiset(added))[r]
          == (multiset(after) + multiset(leftNow) + multiset(droppedNow))[r];
    }
    assert a == b;
  }

  lemma MapSnoc<T, U>(f: T -> U, s: seq<T>, x: T)
    ensures Map(f, s + [x]) == Map(f, s) + [f(x)]
  {
    assert (s + [x])[..|s|] == s;
  }

  lemma MapConcat<T, U>(f: T -> U, s: seq<T>, t: seq<T>)
    ensures Map(f, s + t) == Map(f, s) + Map(f, t)
  {
  }

  // ----- ORDER BY key ASC: a stable insertion sort -----

  function Insert<T>(key: T -> int, s: seq<T>, x: T): seq<T> {
    if s == [] || key(s[|s| - 1]) <= key(x) then s + [x]
    else Insert(key, s[..|s| - 1], x) + [s[|s| - 1]]
  }

  function OrderBy<T>(key: T -> int, s: seq<T>): seq<T> {
    if s == [] then [] else Insert(key, OrderBy(key, s[..|s| - 1]), s[|s| - 1])
  }

  lemma {:induction false} InsertPermutes<T>(key: T -> int, s: seq<T>, x: T)
    ensures multiset(Insert(key, s, x)) == multiset(s) + multiset{x}
  {
    if s != [] && key(s[|s| - 1]) > key(x) {
      assert s == s[..|s| - 1] + [s[|s| - 1]];
      InsertPermutes(key, s[..|s| - 1], x);
    }
  }

  /** Sorting neither loses nor repeats a row. */
  lemma {:induction false} OrderByPermutes<T>(key: T -> int, s: seq<T>)
    ensures multiset(OrderBy(key, s)) == multiset(s)
  {
    if s != [] {
      assert s == s[..|s| - 1] + [s[|s| - 1]];
      OrderByPermutes(key, s[..|s| - 1]);
      InsertPermutes(key, OrderBy(key, s[..|s| - 1]), s[|s| - 1]);
    }
  }

  lemma OrderByMembers<T>(key: T -> int, s: seq<T>)
    ensures |OrderBy(key, s)| == |s|
    ensures forall x :: x in OrderBy(key, s) <==> x in s
  {
    OrderByPermutes(key, s);
    MultisetMembers(OrderBy(key, s), s);
  }

  lemma {:induction false} InsertAtMost<T>(key: T -> int, s: seq<T>, x: T, bound: int)
    requires AtMost(key, s, bound) && key(x) <= bound
    ensures AtMost(key, Insert(key, s, x), bound)
  {
    if s != [] && key(s[|s| - 1]) > key(x) {
      InsertAtMost(key, s[..|s| - 1], x, bound);
    }
  }

  lemma {:induction false} InsertSorted<T>(key: T -> int, s: seq<T>, x: T)
    requires SortedBy(key, s)
    ensures SortedBy(key, Insert(key, s, x))
  {
    if s != [] && key(s[|s| - 1]) > key(x) {
      InsertSorted(key, s[..|s| - 1], x);
      InsertAtMost(key, s[..|s| - 1], x, key(s[|s| - 1]));
    }
  }

  lemma {:induction false} OrderBySorted<T>(key: T -> int, s: seq<T>)
    ensures SortedBy(key, OrderBy(key, s))
  {
    if s != [] {
      OrderBySorted(key, s[..|s| - 1]);
      InsertSorted(key, OrderBy(key, s[..|s| - 1]), s[|s| - 1]);
    }
  }

  lemma {:induction false} OrderBySortedSame<T>(key: T -> int, s: seq<T>)
    requires SortedBy(key, s)
    ensures OrderBy(key, s) == s
  {
    if s != [] {
      OrderBySortedSame(key, s[..|s| - 1]);
    }
  }

  lemma InsertAtEnd<T>(key: T -> int, s: seq<T>, x: T)
    requires AtMost(key, s, key(x))
    ensures Insert(key, s, x) == s + [x]
  {
  }

  lemma InsertBefore<T>(key: T -> int, s: seq<T>, y: T, x: T)
    requires key(y) > key(x)
    ensures Insert(key, s + [y], x) == Insert(key, s, x) + [y]
  {
    assert (s + [y])[..|s|] == s;
  }

  /** Inserting into a sorted table and selecting commute. */
  lemma {:induction false} InsertFilter<T>(key: T -> int, p: T -> bool, s: seq<T>, x: T)
    requires SortedBy(key, s)
    ensures Filter(p, Insert(key, s, x)) == if p(x) then Insert(key, Filter(p, s), x) else Filter(p, s)
  {
    if s == [] || key(s[|s| - 1]) <= key(x) {
      InsertAtEnd(key, s, x);
      FilterSnoc(p, s, x);
      FilterAtMost(key, p, s, key(x));
      InsertAtEnd(key, Filter(p, s), x);
    } else {
      var t, y := s[..|s| - 1], s[|s| - 1];
      assert s == t + [y];
      InsertFilter(key, p, t, x);
      FilterInsertBefore(key, p, t, y, x);
    }
  }

  /** Case by case: the inserted row is selected or not, and so is the row it goes before. */
  lemma FilterInsertBefore<T>(key: T -> int, p: T -> bool, s: seq<T>, y: T, x: T)
    requires key(y) > key(x)
    requires Filter(p, Insert(key, s, x)) == if p(x) then Insert(key, Filter(p, s), x) else Filter(p, s)
    ensures Filter(p, Insert(key, s + [y], x))
         == if p(x) then Insert(key, Filter(p, s + [y]), x) else Filter(p, s + [y])
  {
    InsertBefore(key, s, y, x);
    FilterSnoc(p, s, y);
    FilterSnoc(p, Insert(key, s, x), y);
    if p(y) {
      InsertBefore(key, Filter(p, s), y, x);
    } else {
      assert Filter(p, s) + [] == Filter(p, s);
      assert Filter(p, Insert(key, s, x)) + [] == Filter(p, Insert(key, s, x));
    }
  }

  lemma OrderBySnoc<T>(key: T -> int, s: seq<T>, x: T)
    ensures OrderBy(key, s + [x]) == Insert(key, OrderBy(key, s), x)
  {
    assert (s + [x])[..|s|] == s;
  }

  lemma OrderByFilterStep<T>(key: T -> int, p: T -> bool, s: seq<T>, x: T)
    requires OrderBy(key, Filter(p, s)) == Filter(p, OrderBy(key, s))
    ensures OrderBy(key, Filter(p, s + [x])) == Filter(p, OrderBy(key, s + [x]))
  {
    OrderBySnoc(key, s, x);
    OrderBySorted(key, s);
    InsertFilter(key, p, OrderBy(key, s), x);
    FilterSnoc(p, s, x);
    if p(x) {
      OrderBySnoc(key, Filter(p, s), x);
    } else {
      assert Filter(p, s) + [] == Filter(p, s);
    }
  }

  /** Sorting and selecting commute: the sort is stable. */
  lemma {:induction false} OrderByFilter<T>(key: T -> int, p: T -> bool, s: seq<T>)
    ensures OrderBy(key, Filter(p, s)) == Filter(p, OrderBy(key, s))
  {
    if s != [] {
      var t, x := s[..|s| - 1], s[|s| - 1];
      assert s == t + [x];
      OrderByFilter(key, p, t);
      OrderByFilterStep(key, p, t, x);
    }
  }

  lemma DistinctByCount<T(!new)>(s: seq<T>)
    requires forall x :: multiset(s)[x] <= 1
    ensures Distinct(s)
  {
    forall i, j | 0 <= i < j < |s| ensures s[i] != s[j] {
      assert s == s[..j] + s[j..];
      assert s[i] == s[..j][i] && s[j] == s[j..][0];
      assert multiset(s)[s[i]] == multiset(s[..j])[s[i]] + multiset(s[j..])[s[i]];
    }
  }

  lemma OrderByDistinct<T(!new)>(key: T -> int, p: T -> bool, s: seq<T>)
    requires Distinct(s)
    ensures Distinct(OrderBy(key, Filter(p, s)))
  {
    forall x ensures multiset(Filter(p, s))[x] <= 1 {
      FilterCount(p, s, x);
      DistinctCount(s, x);
    }
    OrderByPermutes(key, Filter(p, s));
    DistinctByCount(OrderBy(key, Filter(p, s)));
  }

  lemma MultisetMembers<T>(s: seq<T>, t: seq<T>)
    requires multiset(s) == multiset(t)
    ensures |s| == |t|
    ensures forall x :: x in s <==> x in t
  {
    assert |s| == |multiset(s)| == |multiset(t)| == |t|;
    forall x ensures x in s <==> x in t {
      assert x in s <==> x in multiset(s);
    }
  }
}
