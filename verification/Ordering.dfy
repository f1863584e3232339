/** Dropping ORDER BY (chooseOrderedPlan in sql/plan.go) and cutting collection at
    OFFSET + LIMIT (sql/exec.go). */
module Ordering {
  import opened Values
  import opened Schema
  import opened Condition
  import opened Planner
  import opened Scan
  import opened Sorting

  const MAX_INT64: int := 0x7fff_ffff_ffff_ffff

  function PinnedBy(stops: seq<Stop>): set<nat> {
    set i | 0 <= i < |stops| && stops[i].kind == StopNE :: stops[i].ord
  }

  function OrderSatisfied<C>(d: TableDesc, p: Plan<C>, keys: seq<SortKey>): (bool, bool) {
    if p.get.Some? then (false, false) else PathOrder(d, p.path, PinnedBy(p.stops), keys)
  }

  /** The first index from i on whose unbounded walk serves the keys. */
  function FirstServing<C>(d: TableDesc, where: BoolExpr<C>, keys: seq<SortKey>, i: nat): Option<Plan<C>>
    requires i <= |d.indexes|
    decreases |d.indexes| - i
  {
    if i == |d.indexes| then None
    else
      var cand := FullScan(where, Secondary(d.indexes[i]));
      var (ok, rev) := OrderSatisfied(d, cand, keys);
      if ok then Some(cand.(reverse := rev)) else FirstServing(d, where, keys, i + 1)
  }

  /** The plan for a single-table SELECT, and whether its sort can be skipped. */
  function ChooseOrdered<C>(d: TableDesc, where: BoolExpr<C>, keys: seq<SortKey>, limited: bool): (Plan<C>, bool) {
    var p := PlanOf(d, where, keys);
    if keys == [] then (p, false)
    else
      var (ok, rev) := OrderSatisfied(d, p, keys);
      if ok then (p.(reverse := rev), true)
      else if !limited || p.get.Some? || p.path.Secondary? || p.from != [] || p.stops != [] then (p, false)
      else match FirstServing(d, where, keys, 0)
           case Some(cand) => (cand, true)
           case None => (p, false)
  }

  method ChooseOrderedPlan<C>(d: TableDesc, where: BoolExpr<C>, keys: seq<SortKey>, limited: bool)
      returns (p: Plan<C>, elim: bool)
    ensures (p, elim) == ChooseOrdered(d, where, keys, limited)
  {
    hide OrderSatisfied, PlanOf, FullScan;
    p := PlanScanOrdered(d, where, keys);
    if keys == [] {
      return p, false;
    }
    var (ok, rev) := OrderSatisfied(d, p, keys);
    if ok {
      return p.(reverse := rev), true;
    }
    if !limited || p.get.Some? || p.path.Secondary? || p.from != [] || p.stops != [] {
      return p, false;
    }
    var i := 0;
    while i < |d.indexes|
      invariant 0 <= i <= |d.indexes|
      invariant FirstServing(d, where, keys, i) == FirstServing(d, where, keys, 0)
    {
      var cand := FullScan(where, Secondary(d.indexes[i]));
      var (ok', rev') := OrderSatisfied(d, cand, keys);
      if ok' {
        return cand.(reverse := rev'), true;
      }
      i := i + 1;
    }
    return p, false;
  }

  /** Two rows in path order, equal on the pinned columns and on the path columns
      before ki, are in the order the remaining sort keys ask for. */
  lemma {:induction false} TrySorted(d: TableDesc, path: Path, pinned: set<nat>, keys: seq<SortKey>, ki: nat,
                                     rev: bool, a: Row, b: Row)
    requires ValidDesc(d) && PathOf(d, path) && RowOK(d, a) && RowOK(d, b)
    requires ki <= |PathCols(d, path)| && TryOrder(d, path, pinned, keys, ki, rev)
    requires forall c :: c in pinned ==> At(a, c) == At(b, c)
    requires if rev then TupleCmp(PathDirs(path), PathKey(d, path, b), PathKey(d, path, a), ki) <= 0
             else TupleCmp(PathDirs(path), PathKey(d, path, a), PathKey(d, path, b), ki) <= 0
    ensures KeysCmp(keys, a, b) <= 0
    decreases |keys|
  {
    hide TupleCmp, PathKey, RowOK, PathOf, OrderCmp;
    if keys != [] {
      var k := keys[0];
      if k.ord in pinned {
        OrderCmpSame(At(a, k.ord));
        TrySorted(d, path, pinned, keys[1..], ki, rev, a, b);
      } else {
        var kj := SkipPinned(PathCols(d, path), pinned, ki);
        PathColumnOrder(d, path, pinned, k, ki, rev, a, b);
        if At(a, k.ord) == At(b, k.ord) {
          OrderCmpSame(At(a, k.ord));
          TrySorted(d, path, pinned, keys[1..], kj + 1, rev, a, b);
        }
      }
    }
  }

  /** The next unpinned path column decides the sort key it serves, or is equal and
      leaves the decision to the columns after it. */
  lemma PathColumnOrder(d: TableDesc, path: Path, pinned: set<nat>, k: SortKey, ki: nat, rev: bool, a: Row, b: Row)
    requires ValidDesc(d) && RowOK(d, a) && RowOK(d, b) && ki <= |PathCols(d, path)|
    requires forall c :: c in pinned ==> At(a, c) == At(b, c)
    requires var kj := SkipPinned(PathCols(d, path), pinned, ki);
             && kj < |PathCols(d, path)| && PathCols(d, path)[kj] == k.ord && k.ord < |d.columns|
             && NonNullCol(d, k.ord)
             && k.desc == (DescAt(PathDirs(path), kj) != rev)
    requires var (x, y) := if rev then (b, a) else (a, b);
             TupleCmp(PathDirs(path), PathKey(d, path, x), PathKey(d, path, y), ki) <= 0
    ensures var c := OrderCmp(At(a, k.ord), At(b, k.ord));
            (if k.desc then -c else c) < 0 || At(a, k.ord) == At(b, k.ord)
    ensures var (x, y) := if rev then (b, a) else (a, b);
            At(a, k.ord) == At(b, k.ord) ==>
            TupleCmp(PathDirs(path), PathKey(d, path, x), PathKey(d, path, y),
                     SkipPinned(PathCols(d, path), pinned, ki) + 1) <= 0
  {
    hide RowOK, OrderCmp, KeyCmp;
    var kj := SkipPinned(PathCols(d, path), pinned, ki);
    var (x, y) := if rev then (b, a) else (a, b);
    var kx, ky := PathKey(d, path, x), PathKey(d, path, y);
    assert forall j :: ki <= j < kj ==> kx[j] == At(x, PathCols(d, path)[j]) && ky[j] == At(y, PathCols(d, path)[j]);
    TupleSkip(PathDirs(path), kx, ky, ki, kj);
    assert kx[kj] == At(x, k.ord) && ky[kj] == At(y, k.ord);
    KeyColumnOrder(d, k, a, b);
    DirCmpOrder(DescAt(PathDirs(path), kj), kx[kj], ky[kj]);
  }

  /** On a column that holds no NULL, ORDER BY's comparison is key order. */
  lemma KeyColumnOrder(d: TableDesc, k: SortKey, a: Row, b: Row)
    requires RowOK(d, a) && RowOK(d, b) && k.ord < |d.columns| && NonNullCol(d, k.ord)
    ensures OrderCmp(At(a, k.ord), At(b, k.ord)) == KeyCmp(At(a, k.ord), At(b, k.ord))
    ensures KeyCmp(At(b, k.ord), At(a, k.ord)) == -KeyCmp(At(a, k.ord), At(b, k.ord))
  {
    CompareIsKeyOrder(a[k.ord], b[k.ord], d.columns[k.ord].typ);
    KeyCmpOrder(a[k.ord], b[k.ord]);
  }

  /** Matching rows agree on the columns an equality stop pins. */
  lemma PinnedSame<C>(d: TableDesc, p: Plan<C>, a: Row, b: Row, cond: CondFn<C>)
    requires ValidDesc(d) && Justified(d, p) && RowOK(d, a) && RowOK(d, b)
    requires IsTrue(p.filter, a, cond) && IsTrue(p.filter, b, cond)
    ensures forall c :: c in PinnedBy(p.stops) ==> At(a, c) == At(b, c)
  {
    forall c | c in PinnedBy(p.stops) ensures At(a, c) == At(b, c) {
      var i :| 0 <= i < |p.stops| && p.stops[i].kind == StopNE && p.stops[i].ord == c;
      assert i < EqCount(p.stops, 0);
      assert EqRequired(d, p, i);
      EqColumn(d, p, a, cond, i);
      EqColumn(d, p, b, cond, i);
    }
  }

  /** A matching sequence keeps the listing's order. */
  lemma {:induction false} MatchingSorted<C>(d: TableDesc, rows: seq<Row>, p: Plan<C>, keys: seq<SortKey>,
                                             cond: CondFn<C>, rev: bool)
    requires ValidDesc(d) && Justified(d, p) && Listed(d, p.path, rows)
    requires TryOrder(d, p.path, PinnedBy(p.stops), keys, 0, rev)
    ensures forall i, j :: 0 <= i < j < |Matching(rows, p.filter, cond)| ==>
              var m := Matching(rows, p.filter, cond);
              if rev then KeysCmp(keys, m[j], m[i]) <= 0 else KeysCmp(keys, m[i], m[j]) <= 0
  {
    hide Justified, TryOrder, KeysCmp, IsTrue;
    if rows != [] {
      var m, rest := Matching(rows, p.filter, cond), Matching(rows[1..], p.filter, cond);
      MatchingSorted(d, rows[1..], p, keys, cond, rev);
      MatchingMembers(rows[1..], p.filter, cond);
      if IsTrue(p.filter, rows[0], cond) {
        forall r | r in rest ensures if rev then KeysCmp(keys, r, rows[0]) <= 0 else KeysCmp(keys, rows[0], r) <= 0 {
          HeadSorted(d, rows, p, keys, cond, rev, r);
        }
        assert m == [rows[0]] + rest;
        assert forall j :: 1 <= j < |m| ==> m[j] in rest;
      } else {
        assert m == rest;
      }
    }
  }

  lemma HeadSorted<C>(d: TableDesc, rows: seq<Row>, p: Plan<C>, keys: seq<SortKey>, cond: CondFn<C>, rev: bool, r: Row)
    requires ValidDesc(d) && Justified(d, p) && Listed(d, p.path, rows) && rows != []
    requires TryOrder(d, p.path, PinnedBy(p.stops), keys, 0, rev)
    requires IsTrue(p.filter, rows[0], cond) && IsTrue(p.filter, r, cond) && r in rows[1..]
    ensures if rev then KeysCmp(keys, r, rows[0]) <= 0 else KeysCmp(keys, rows[0], r) <= 0
  {
    var n :| 0 <= n < |rows[1..]| && rows[1..][n] == r;
    assert r == rows[n + 1];
    PairSorted(d, p, keys, cond, rev, rows[0], r);
  }

  lemma PairSorted<C>(d: TableDesc, p: Plan<C>, keys: seq<SortKey>, cond: CondFn<C>, rev: bool, first: Row, later: Row)
    requires ValidDesc(d) && Justified(d, p) && RowOK(d, first) && RowOK(d, later)
    requires TryOrder(d, p.path, PinnedBy(p.stops), keys, 0, rev)
    requires PathCmp(d, p.path, first, later) < 0
    requires IsTrue(p.filter, first, cond) && IsTrue(p.filter, later, cond)
    ensures if rev then KeysCmp(keys, later, first) <= 0 else KeysCmp(keys, first, later) <= 0
  {
    PinnedSame(d, p, first, later, cond);
    if rev {
      TrySorted(d, p.path, PinnedBy(p.stops), keys, 0, rev, later, first);
    } else {
      TrySorted(d, p.path, PinnedBy(p.stops), keys, 0, rev, first, later);
    }
  }

  lemma {:induction false} ReverseAt<T>(s: seq<T>, i: nat)
    requires i < |s|
    ensures Reverse(s)[i] == s[|s| - 1 - i]
  {
    if i < |s| - 1 {
      ReverseAt(s[1..], i);
    }
  }

  lemma {:induction false} ReverseMultiset<T>(s: seq<T>)
    ensures multiset(Reverse(s)) == multiset(s)
  {
    if s != [] {
      ReverseMultiset(s[1..]);
      assert s == [s[0]] + s[1..];
    }
  }

  lemma {:induction false} ServingFound<C>(d: TableDesc, where: BoolExpr<C>, keys: seq<SortKey>, i: nat)
    requires i <= |d.indexes| && FirstServing(d, where, keys, i).Some?
    ensures var p := FirstServing(d, where, keys, i).value;
            && p.filter == where && Justified(d, p) && p.get.None?
            && TryOrder(d, p.path, PinnedBy(p.stops), keys, 0, p.reverse)
    decreases |d.indexes| - i
  {
    var cand := FullScan(where, Secondary(d.indexes[i]));
    var (ok, rev) := OrderSatisfied(d, cand, keys);
    if !ok {
      ServingFound(d, where, keys, i + 1);
    }
  }

  /** A plan's direction plays no part in what justifies its bounds. */
  lemma JustifiedReverse<C>(d: TableDesc, p: Plan<C>, rev: bool)
    requires Justified(d, p)
    ensures Justified(d, p.(reverse := rev))
  {
    var q := p.(reverse := rev);
    assert forall i :: EqRequired(d, p, i) ==> EqRequired(d, q, i);
    var k := EqCount(p.stops, 0);
    assert StartRequired(d, p, k) ==> StartRequired(d, q, k);
  }

  lemma ChosenServes<C>(d: TableDesc, where: BoolExpr<C>, keys: seq<SortKey>, limited: bool)
    requires ChooseOrdered(d, where, keys, limited).1
    ensures var p := ChooseOrdered(d, where, keys, limited).0;
            && p.filter == where && Justified(d, p) && p.get.None?
            && TryOrder(d, p.path, PinnedBy(p.stops), keys, 0, p.reverse)
  {
    PlanJustified(d, where, keys);
    var p := PlanOf(d, where, keys);
    if OrderSatisfied(d, p, keys).0 {
      JustifiedReverse(d, p, OrderSatisfied(d, p, keys).1);
    } else {
      ServingFound(d, where, keys, 0);
    }
  }

  /** When the sort is dropped, the walk emits the matching rows, each once, in the
      order ORDER BY asks for. */
  lemma SortDropped<C>(d: TableDesc, rows: seq<Row>, where: BoolExpr<C>, keys: seq<SortKey>, limited: bool,
                       cond: CondFn<C>)
    requires ValidDesc(d) && ChooseOrdered(d, where, keys, limited).1
    requires Listed(d, ChooseOrdered(d, where, keys, limited).0.path, rows)
    ensures var out := ScanRows(d, rows, ChooseOrdered(d, where, keys, limited).0, cond);
            && multiset(out) == multiset(Matching(rows, where, cond))
            && Sorted(keys, out)
  {
    var p := ChooseOrdered(d, where, keys, limited).0;
    ChosenServes(d, where, keys, limited);
    ScanExact(d, rows, p, cond);
    MatchingSorted(d, rows, p, keys, cond, p.reverse);
    var m := Matching(rows, where, cond);
    if p.reverse {
      ReverseMultiset(m);
      forall i, j | 0 <= i < j < |m| ensures KeysCmp(keys, Reverse(m)[i], Reverse(m)[j]) <= 0 {
        ReverseAt(m, i);
        ReverseAt(m, j);
      }
    }
  }

  // --- OFFSET and LIMIT ---

  /** Addition of non-negative int64s, saturating at the top. */
  function SatAdd(a: int, b: int): (r: int)
    requires 0 <= a <= MAX_INT64 && 0 <= b <= MAX_INT64
    ensures 0 <= r <= MAX_INT64
    ensures r == a + b || (r == MAX_INT64 < a + b)
  {
    if a > MAX_INT64 - b then MAX_INT64 else a + b
  }

  /** The rows OFFSET and LIMIT keep; a negative limit is none. */
  function Slice(rows: seq<Row>, offset: nat, limit: int): seq<Row> {
    var rest := if offset >= |rows| then [] else rows[offset..];
    if 0 <= limit < |rest| then rest[..limit] else rest
  }

  /** How many rows a SELECT without a sort collects. */
  function Wanted(offset: int, limit: int): Option<nat>
    requires 0 <= offset <= MAX_INT64 && limit <= MAX_INT64
  {
    if limit < 0 then None else Some(SatAdd(offset, limit))
  }

  /** Stopping collection at the saturated OFFSET + LIMIT keeps the same slice. */
  lemma CutKeepsSlice(rows: seq<Row>, offset: int, limit: int)
    requires 0 <= offset <= MAX_INT64 && limit <= MAX_INT64 && |rows| <= MAX_INT64
    ensures Slice(Cut(rows, Wanted(offset, limit)), offset, limit) == Slice(rows, offset, limit)
  {
    var cut := Cut(rows, Wanted(offset, limit));
    if cut != rows && offset < |cut| {
      assert cut[offset..] == rows[offset..][..|cut| - offset];
    }
  }

  /** The listings of a table's rows, one per access path. */
  ghost predicate Listings(d: TableDesc, rows: seq<Row>, listings: map<Path, seq<Row>>) {
    forall path ::
      PathOf(d, path) ==>
        path in listings && Listed(d, path, listings[path]) && multiset(listings[path]) == multiset(rows)
  }

  /** A slice of the matching rows, each once, in the order ORDER BY asks for. */
  ghost predicate OrderedSlice<C>(out: seq<Row>, rows: seq<Row>, where: BoolExpr<C>, keys: seq<SortKey>,
                                  offset: nat, limit: int, cond: CondFn<C>) {
    exists full ::
      multiset(full) == multiset(Matching(rows, where, cond)) && Sorted(keys, full) && out == Slice(full, offset, limit)
  }

  lemma {:induction false} MatchingCount<C>(rows: seq<Row>, e: BoolExpr<C>, cond: CondFn<C>, x: Row)
    ensures multiset(Matching(rows, e, cond))[x] == if IsTrue(e, x, cond) then multiset(rows)[x] else 0
  {
    if rows != [] {
      assert rows == [rows[0]] + rows[1..];
      MatchingCount(rows[1..], e, cond, x);
    }
  }

  lemma MatchingPerm<C>(a: seq<Row>, b: seq<Row>, e: BoolExpr<C>, cond: CondFn<C>)
    requires multiset(a) == multiset(b)
    ensures multiset(Matching(a, e, cond)) == multiset(Matching(b, e, cond))
  {
    forall x: Row ensures multiset(Matching(a, e, cond))[x] == multiset(Matching(b, e, cond))[x] {
      MatchingCount(a, e, cond, x);
      MatchingCount(b, e, cond, x);
    }
  }

  /** The chosen plan reads a path of the table, and its full walk is the matching rows. */
  lemma ChosenWalk<C>(d: TableDesc, rows: seq<Row>, listings: map<Path, seq<Row>>, where: BoolExpr<C>,
                      keys: seq<SortKey>, limited: bool, cond: CondFn<C>)
    requires ValidDesc(d) && Listings(d, rows, listings)
    ensures var (p, elim) := ChooseOrdered(d, where, keys, limited);
            && p.path in listings
            && multiset(ScanRows(d, listings[p.path], p, cond)) == multiset(Matching(rows, where, cond))
            && (elim || keys == [] ==> Sorted(keys, ScanRows(d, listings[p.path], p, cond)))
  {
    var (p, elim) := ChooseOrdered(d, where, keys, limited);
    PlanJustified(d, where, keys);
    if elim {
      ChosenServes(d, where, keys, limited);
      SortDropped(d, listings[p.path], where, keys, limited, cond);
    } else {
      PlannedScanExact(d, listings[p.path], where, keys, cond);
    }
    MatchingPerm(listings[p.path], rows, where, cond);
  }

  lemma ChosenOK<C>(d: TableDesc, rows: seq<Row>, p: Plan<C>, cond: CondFn<C>)
    requires ValidDesc(d) && Justified(d, p) && Listed(d, p.path, rows)
    ensures AllOK(d, ScanRows(d, rows, p, cond))
  {
    ScanExact(d, rows, p, cond);
    MatchingMembers(rows, p.filter, cond);
    var m := Matching(rows, p.filter, cond);
    ReverseMultiset(m);
    forall i | 0 <= i < |m| ensures RowOK(d, m[i]) {
      assert m[i] in m;
    }
    PermOK(d, m, ScanRows(d, rows, p, cond));
  }

  /** The rows an ordered, limited SELECT returns: the chosen walk's rows, stably sorted by
      the keys, cut by OFFSET and LIMIT. */
  ghost function Selected<C>(d: TableDesc, listings: map<Path, seq<Row>>, where: BoolExpr<C>, keys: seq<SortKey>,
                             offset: nat, limit: int, cond: CondFn<C>): seq<Row>
    requires ChooseOrdered(d, where, keys, limit >= 0).0.path in listings
  {
    var p := ChooseOrdered(d, where, keys, limit >= 0).0;
    Slice(StableSort(keys, ScanRows(d, listings[p.path], p, cond)), offset, limit)
  }

  /** A sorted, limited SELECT over one table: plan, walk only as far as needed when the
      order comes for free, otherwise collect and sort, then slice. Either way the rows
      are those of collecting everything and sorting. */
  method SelectOrdered<C>(d: TableDesc, rows: seq<Row>, listings: map<Path, seq<Row>>, where: BoolExpr<C>,
                          keys: seq<SortKey>, offset: int, limit: int, cond: CondFn<C>)
      returns (out: seq<Row>)
    requires ValidDesc(d) && Listings(d, rows, listings) && |rows| <= MAX_INT64
    requires 0 <= offset <= MAX_INT64 && limit <= MAX_INT64
    ensures ChooseOrdered(d, where, keys, limit >= 0).0.path in listings
    ensures out == Selected(d, listings, where, keys, offset, limit, cond)
    ensures OrderedSlice(out, rows, where, keys, offset, limit, cond)
  {
    var p, elim := ChooseOrderedPlan(d, where, keys, limit >= 0);
    ChosenWalk(d, rows, listings, where, keys, limit >= 0, cond);
    ghost var full := ScanRows(d, listings[p.path], p, cond);
    SortedWalk(d, rows, listings, where, keys, limit >= 0, cond);
    if elim || keys == [] {
      var got := ScanPlan(d, listings[p.path], p, cond, Wanted(offset, limit));
      FewerRows(full, rows, where, cond);
      CutKeepsSlice(full, offset, limit);
      out := Slice(got, offset, limit);
    } else {
      var got := ScanPlan(d, listings[p.path], p, cond, None);
      var sorted := SortRows(got, keys);
      out := Slice(sorted, offset, limit);
    }
  }

  /** The chosen walk's rows, sorted: a sorted permutation of the matching rows, and the
      walk itself when the sort is dropped. */
  lemma SortedWalk<C>(d: TableDesc, rows: seq<Row>, listings: map<Path, seq<Row>>, where: BoolExpr<C>,
                      keys: seq<SortKey>, limited: bool, cond: CondFn<C>)
    requires ValidDesc(d) && Listings(d, rows, listings)
    ensures var (p, elim) := ChooseOrdered(d, where, keys, limited);
            && p.path in listings
            && var full := ScanRows(d, listings[p.path], p, cond);
            && StablyOrdered(d, keys, full, StableSort(keys, full))
            && (elim || keys == [] ==> StableSort(keys, full) == full)
  {
    var (p, elim) := ChooseOrdered(d, where, keys, limited);
    ChosenWalk(d, rows, listings, where, keys, limited, cond);
    ChosenJustified(d, where, keys, limited);
    ChosenOK(d, listings[p.path], p, cond);
    SortIsStable(d, keys, ScanRows(d, listings[p.path], p, cond));
    if elim || keys == [] {
      SortedStays(keys, ScanRows(d, listings[p.path], p, cond));
    }
  }

  lemma ChosenJustified<C>(d: TableDesc, where: BoolExpr<C>, keys: seq<SortKey>, limited: bool)
    ensures Justified(d, ChooseOrdered(d, where, keys, limited).0)
  {
    PlanJustified(d, where, keys);
    if ChooseOrdered(d, where, keys, limited).1 {
      ChosenServes(d, where, keys, limited);
    }
  }

  lemma FewerRows<C>(full: seq<Row>, rows: seq<Row>, where: BoolExpr<C>, cond: CondFn<C>)
    requires multiset(full) == multiset(Matching(rows, where, cond))
    ensures |full| <= |rows|
  {
    MatchingShorter(rows, where, cond);
    assert |multiset(full)| == |full| && |multiset(Matching(rows, where, cond))| == |Matching(rows, where, cond)|;
  }

  lemma {:induction false} MatchingShorter<C>(rows: seq<Row>, e: BoolExpr<C>, cond: CondFn<C>)
    ensures |Matching(rows, e, cond)| <= |rows|
  {
    if rows != [] {
      MatchingShorter(rows[1..], e, cond);
    }
  }
}
