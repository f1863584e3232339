/** Running a plan (sql/exec.go, scanPlan) and why it is exact: narrowing by bounds
    and early stops never changes which rows a read returns. */
module Scan {
  import opened Values
  import opened Schema
  import opened Condition
  import opened Planner

  predicate StopHit(kind: StopKind, c: Option<int>) {
    match c
    case None => kind == StopNE || kind == StopLE || kind == StopLT
    case Some(n) =>
      match kind
      case StopNE => n != 0
      case StopGE => n >= 0
      case StopGT => n > 0
      case StopLE => n <= 0
      case StopLT => n < 0
  }

  /** Does some stop, taken in order, end the walk at this row? */
  predicate Stopped(stops: seq<Stop>, row: Row) {
    if stops == [] then false
    else StopHit(stops[0].kind, CompareVals(At(row, stops[0].ord), stops[0].val)) || Stopped(stops[1..], row)
  }

  /** A reverse walk's entry bound, from the plan's forward stops. */
  function RevEnd(stops: seq<Stop>): (seq<Value>, bool) {
    (seq(|stops|, i requires 0 <= i < |stops| => stops[i].val),
     stops == [] || stops[|stops| - 1].kind in {StopNE, StopGT, StopLT})
  }

  predicate Between(d: TableDesc, path: Path, row: Row, from: seq<Value>, to: seq<Value>, incl: bool) {
    AtOrAbove(d, path, row, from) && Below(d, path, row, to, incl)
  }

  /** The engine's bounded read of a path: the listed rows between the bounds, in key
      order. An empty bound is no bound. */
  function RowsBetween(d: TableDesc, path: Path, rows: seq<Row>, from: seq<Value>, to: seq<Value>, incl: bool): seq<Row>
  {
    if rows == [] then []
    else (if Between(d, path, rows[0], from, to, incl) then [rows[0]] else []) +
         RowsBetween(d, path, rows[1..], from, to, incl)
  }

  /** The row stored under a primary key, if any. */
  function Lookup(d: TableDesc, rows: seq<Row>, key: seq<Value>): (found: seq<Row>)
    ensures |found| <= 1
  {
    if rows == [] then []
    else if Project(rows[0], d.pkCols) == key then [rows[0]] else Lookup(d, rows[1..], key)
  }

  function Reverse<T>(s: seq<T>): (r: seq<T>)
    ensures |r| == |s|
  {
    if s == [] then [] else Reverse(s[1..]) + [s[0]]
  }

  /** Walks rows until a stop, keeping those that match. */
  function Walk<C>(rows: seq<Row>, stops: seq<Stop>, filter: BoolExpr<C>, cond: CondFn<C>): seq<Row> {
    if rows == [] || Stopped(stops, rows[0]) then []
    else (if IsTrue(filter, rows[0], cond) then [rows[0]] else []) + Walk(rows[1..], stops, filter, cond)
  }

  /** What a plan yields over its path's listing. */
  function ScanRows<C>(d: TableDesc, rows: seq<Row>, p: Plan<C>, cond: CondFn<C>): seq<Row> {
    if p.get.Some? then Walk(Lookup(d, rows, CoerceBound(d, Primary, p.get.value)), [], p.filter, cond)
    else if p.reverse then
      var (to, incl) := RevEnd(p.stops);
      Walk(Reverse(RowsBetween(d, p.path, rows, p.from, to, incl)), [], p.filter, cond)
    else Walk(RowsBetween(d, p.path, rows, p.from, [], true), p.stops, p.filter, cond)
  }

  /** A consumer that stops after n rows, but always takes the first. */
  function Cut(rows: seq<Row>, take: Option<nat>): seq<Row> {
    if take.None? then rows
    else
      var n := if take.value == 0 then 1 else take.value;
      if |rows| <= n then rows else rows[..n]
  }

  /** scanPlan with a collecting consumer that stops once it holds `take` rows. */
  method ScanPlan<C>(d: TableDesc, rows: seq<Row>, p: Plan<C>, cond: CondFn<C>, take: Option<nat>)
      returns (out: seq<Row>)
    ensures out == Cut(ScanRows(d, rows, p, cond), take)
  {
    if p.get.Some? {
      var got := Lookup(d, rows, CoerceBound(d, Primary, p.get.value));
      out := [];
      if got != [] {
        assert got[1..] == [] && Walk(got[1..], [], p.filter, cond) == [];
        if IsTrue(p.filter, got[0], cond) {
          out := [got[0]];
        }
      }
      return;
    }
    var visit: seq<Row>;
    if p.reverse {
      var (to, incl) := RevEnd(p.stops);
      visit := Reverse(RowsBetween(d, p.path, rows, p.from, to, incl));
    } else {
      visit := RowsBetween(d, p.path, rows, p.from, [], true);
    }
    out := WalkRows(visit, if p.reverse then [] else p.stops, p.filter, cond, take);
  }

  method WalkRows<C>(visit: seq<Row>, stops: seq<Stop>, filter: BoolExpr<C>, cond: CondFn<C>, take: Option<nat>)
      returns (out: seq<Row>)
    ensures out == Cut(Walk(visit, stops, filter, cond), take)
  {
    out := [];
    var i := 0;
    while i < |visit|
      invariant 0 <= i <= |visit|
      invariant out + Walk(visit[i..], stops, filter, cond) == Walk(visit, stops, filter, cond)
      invariant take.Some? && out != [] ==> |out| < take.value
    {
      WalkStep(out, visit, i, stops, filter, cond);
      if Stopped(stops, visit[i]) {
        return;
      }
      if IsTrue(filter, visit[i], cond) {
        out := out + [visit[i]];
        if take.Some? && |out| >= take.value {
          CutFull(out, Walk(visit[i + 1..], stops, filter, cond), take);
          return;
        }
      }
      i := i + 1;
    }
    assert visit[|visit|..] == [] && out + [] == out;
  }

  lemma WalkStep<C>(out: seq<Row>, visit: seq<Row>, i: nat, stops: seq<Stop>, filter: BoolExpr<C>, cond: CondFn<C>)
    requires i < |visit|
    ensures out + Walk(visit[i..], stops, filter, cond)
         == if Stopped(stops, visit[i]) then out
            else (if IsTrue(filter, visit[i], cond) then out + [visit[i]] else out)
                 + Walk(visit[i + 1..], stops, filter, cond)
  {
    assert visit[i..][0] == visit[i] && visit[i..][1..] == visit[i + 1..];
    var rest := Walk(visit[i + 1..], stops, filter, cond);
    assert out + ([visit[i]] + rest) == (out + [visit[i]]) + rest && out + ([] + rest) == out + rest && out + [] == out;
  }

  lemma CutFull(out: seq<Row>, rest: seq<Row>, take: Option<nat>)
    requires take.Some? && out != [] && |out| >= take.value && (|out| == 1 || |out| - 1 < take.value)
    ensures Cut(out + rest, take) == out
  {
    assert (out + rest)[..|out|] == out;
  }

  // --- exactness ---

  /** A true comparison against a usable literal, read in key order. */
  lemma PredKeyOrder(d: TableDesc, row: Row, c: nat, op: Op, v: Value)
    requires RowOK(d, row) && Usable(d, Pred(c, op, Lit(v)))
    requires op != IsNull && op != IsNotNull
    ensures EvalPred(Pred(c, op, Lit(v)), row) == True3 <==>
              At(row, c) != Null && Holds(op, KeyCmp(At(row, c), Coerce(v, d.columns[c].typ)))
  {
    if row[c] != Null {
      CompareIsKeyOrder(row[c], v, d.columns[c].typ);
    }
  }

  lemma RequiredTrue<C>(d: TableDesc, p: Plan<C>, row: Row, cond: CondFn<C>, c: nat, op: Op, v: Value)
    requires RowOK(d, row) && IsTrue(p.filter, row, cond) && Requires(d, p.filter, c, op, v)
    requires op != IsNull && op != IsNotNull
    ensures At(row, c) != Null && Holds(op, KeyCmp(At(row, c), Coerce(v, d.columns[c].typ)))
  {
    ConjunctsHold(p.filter, row, cond);
    PredKeyOrder(d, row, c, op, v);
  }

  /** A matching row carries the equality prefix of the plan in its key. */
  lemma EqColumn<C>(d: TableDesc, p: Plan<C>, row: Row, cond: CondFn<C>, i: nat)
    requires ValidDesc(d) && Justified(d, p) && RowOK(d, row) && IsTrue(p.filter, row, cond)
    requires i < EqCount(p.stops, 0)
    ensures i < |PathCols(d, p.path)| && i < |p.from|
    ensures PathKey(d, p.path, row)[i] == CoerceBound(d, p.path, p.from)[i]
  {
    assert EqRequired(d, p, i);
    var c := PathCols(d, p.path)[i];
    RequiredTrue(d, p, row, cond, c, EQ, p.from[i]);
    KeyCmpOrder(At(row, c), Coerce(p.from[i], d.columns[c].typ));
  }

  lemma EqColumns<C>(d: TableDesc, p: Plan<C>, row: Row, cond: CondFn<C>)
    requires ValidDesc(d) && Justified(d, p) && RowOK(d, row) && IsTrue(p.filter, row, cond)
    ensures EqCount(p.stops, 0) <= |PathCols(d, p.path)| && EqCount(p.stops, 0) <= |p.from|
    ensures forall i :: 0 <= i < EqCount(p.stops, 0) ==> PathKey(d, p.path, row)[i] == CoerceBound(d, p.path, p.from)[i]
  {
    JustifiedLengths(d, p);
    forall i | 0 <= i < EqCount(p.stops, 0)
      ensures PathKey(d, p.path, row)[i] == CoerceBound(d, p.path, p.from)[i]
    {
      EqColumn(d, p, row, cond, i);
    }
  }

  lemma JustifiedLengths<C>(d: TableDesc, p: Plan<C>)
    requires Justified(d, p)
    ensures var k := EqCount(p.stops, 0);
            && k <= |PathCols(d, p.path)| && |p.from| <= |PathCols(d, p.path)| && |p.stops| <= |PathCols(d, p.path)|
  {
    var k := EqCount(p.stops, 0);
    if k > 0 {
      assert EqRequired(d, p, k - 1);
    }
  }

  /** No matching row lies below the scan's entry bound. */
  lemma MatchAbove<C>(d: TableDesc, p: Plan<C>, row: Row, cond: CondFn<C>)
    requires ValidDesc(d) && Justified(d, p) && RowOK(d, row) && IsTrue(p.filter, row, cond)
    ensures AtOrAbove(d, p.path, row, p.from)
  {
    var k := EqCount(p.stops, 0);
    var key, cb := PathKey(d, p.path, row), CoerceBound(d, p.path, p.from);
    JustifiedLengths(d, p);
    EqColumns(d, p, row, cond);
    TupleSkip(PathDirs(p.path), key, cb, 0, k);
    if |p.from| == k + 1 {
      var c := PathCols(d, p.path)[k];
      var strict :| Requires(d, p.filter, c, OpStarting(DescAt(PathDirs(p.path), k), strict), p.from[k]);
      RequiredTrue(d, p, row, cond, c, OpStarting(DescAt(PathDirs(p.path), k), strict), p.from[k]);
      KeyCmpOrder(key[k], cb[k]);
    }
  }

  /** The range stop of the plan is not hit by a matching row, in key order. */
  lemma MatchInRange<C>(d: TableDesc, p: Plan<C>, row: Row, cond: CondFn<C>)
    requires ValidDesc(d) && Justified(d, p) && RowOK(d, row) && IsTrue(p.filter, row, cond)
    requires |p.stops| == EqCount(p.stops, 0) + 1
    ensures var k := EqCount(p.stops, 0);
            var st := p.stops[k];
            && k < |PathCols(d, p.path)| && PathCols(d, p.path)[k] < |d.columns|
            && var v := Coerce(st.val, d.columns[PathCols(d, p.path)[k]].typ);
               var c := DirCmp(DescAt(PathDirs(p.path), k), PathKey(d, p.path, row)[k], v);
               c < 0 || (c == 0 && st.kind in {StopGT, StopLT})
  {
    var k := EqCount(p.stops, 0);
    assert StopRequired(d, p, k);
    var st := p.stops[k];
    var op :| StopMatches(DescAt(PathDirs(p.path), k), st.kind, op) && Requires(d, p.filter, st.ord, op, st.val);
    RequiredTrue(d, p, row, cond, st.ord, op, st.val);
    KeyCmpOrder(At(row, st.ord), Coerce(st.val, d.columns[st.ord].typ));
  }

  /** No matching row lies past the reverse walk's entry bound. */
  lemma MatchBelow<C>(d: TableDesc, p: Plan<C>, row: Row, cond: CondFn<C>)
    requires ValidDesc(d) && Justified(d, p) && RowOK(d, row) && IsTrue(p.filter, row, cond)
    ensures Below(d, p.path, row, RevEnd(p.stops).0, RevEnd(p.stops).1)
  {
    hide IsTrue, KeyCmp, RowOK;
    var k := EqCount(p.stops, 0);
    var (to, incl) := RevEnd(p.stops);
    var key, cb := PathKey(d, p.path, row), CoerceBound(d, p.path, to);
    JustifiedLengths(d, p);
    EndColumns(d, p, row, cond);
    TupleSkip(PathDirs(p.path), key, cb, 0, k);
    if |p.stops| == k + 1 {
      MatchInRange(d, p, row, cond);
      DirCmpOrder(DescAt(PathDirs(p.path), k), key[k], cb[k]);
    }
    if BoundCmp(d, p.path, row, to) >= 0 {
      assert cb == key[..|cb|];
    }
  }

  /** A matching row carries the equality prefix of the reverse bound too. */
  lemma EndColumns<C>(d: TableDesc, p: Plan<C>, row: Row, cond: CondFn<C>)
    requires ValidDesc(d) && Justified(d, p) && RowOK(d, row) && IsTrue(p.filter, row, cond)
    ensures EqCount(p.stops, 0) <= |PathCols(d, p.path)|
    ensures forall i :: 0 <= i < EqCount(p.stops, 0) ==>
              PathKey(d, p.path, row)[i] == CoerceBound(d, p.path, RevEnd(p.stops).0)[i]
  {
    JustifiedLengths(d, p);
    forall i | 0 <= i < EqCount(p.stops, 0)
      ensures PathKey(d, p.path, row)[i] == CoerceBound(d, p.path, RevEnd(p.stops).0)[i]
    {
      EqColumn(d, p, row, cond, i);
      assert EqRequired(d, p, i);
      assert p.stops[i].val == p.from[i];
    }
  }

  lemma {:induction false} StoppedAt(stops: seq<Stop>, row: Row) returns (i: nat)
    requires Stopped(stops, row)
    ensures i < |stops| && StopHit(stops[i].kind, CompareVals(At(row, stops[i].ord), stops[i].val))
  {
    if StopHit(stops[0].kind, CompareVals(At(row, stops[0].ord), stops[0].val)) {
      i := 0;
    } else {
      var j := StoppedAt(stops[1..], row);
      i := j + 1;
    }
  }

  /** Between the entry bound and a matching row, the equality prefix is constant. */
  lemma {:induction false} Squeezed(dirs: seq<bool>, lo: seq<Value>, x: seq<Value>, hi: seq<Value>, i: nat, k: nat)
    requires i <= k <= |lo| && k <= |x| && k <= |hi|
    requires forall j :: 0 <= j < k ==> lo[j] == hi[j]
    requires TupleCmp(dirs, x, lo, i) >= 0 && TupleCmp(dirs, x, hi, i) <= 0
    ensures forall j :: i <= j < k ==> x[j] == lo[j]
    ensures TupleCmp(dirs, x, hi, k) <= 0
    decreases k - i
  {
    if i < k {
      DirCmpOrder(DescAt(dirs, i), x[i], lo[i]);
      Squeezed(dirs, lo, x, hi, i + 1, k);
    }
  }

  /** The stop of one column, in key order. */
  lemma StopKeyOrder(d: TableDesc, row: Row, st: Stop, desc: bool)
    requires RowOK(d, row) && st.ord < |d.columns| && st.val != Null && LitFits(st.val, d.columns[st.ord].typ)
    requires StopHit(st.kind, CompareVals(At(row, st.ord), st.val))
    requires st.kind == StopNE || (desc == (st.kind in {StopLE, StopLT}))
    ensures var v := Coerce(st.val, d.columns[st.ord].typ);
            var c := DirCmp(desc, row[st.ord], v);
            if st.kind == StopNE then row[st.ord] != v
            else c > 0 || (c == 0 && st.kind in {StopGE, StopLE})
  {
    var v := Coerce(st.val, d.columns[st.ord].typ);
    KeyCmpOrder(row[st.ord], v);
    if row[st.ord] != Null {
      CompareIsKeyOrder(row[st.ord], st.val, d.columns[st.ord].typ);
    }
  }

  /** A row that hits an equality stop differs from the bound in that column. */
  lemma EqStopApart<C>(d: TableDesc, p: Plan<C>, row: Row, i: nat)
    requires ValidDesc(d) && Justified(d, p) && RowOK(d, row)
    requires i < EqCount(p.stops, 0) <= |p.stops| && i < |CoerceBound(d, p.path, p.from)|
    requires i < |PathKey(d, p.path, row)|
    requires StopHit(p.stops[i].kind, CompareVals(At(row, p.stops[i].ord), p.stops[i].val))
    ensures PathKey(d, p.path, row)[i] != CoerceBound(d, p.path, p.from)[i]
  {
    hide IsTrue, KeyCmp;
    assert EqRequired(d, p, i);
    StopKeyOrder(d, row, p.stops[i], false);
  }

  /** Once a row at or above the entry bound hits a stop, no later row matches. */
  lemma StopSound<C>(d: TableDesc, p: Plan<C>, row: Row, later: Row, cond: CondFn<C>)
    requires ValidDesc(d) && Justified(d, p) && RowOK(d, row) && RowOK(d, later)
    requires AtOrAbove(d, p.path, row, p.from) && Stopped(p.stops, row)
    requires PathCmp(d, p.path, row, later) <= 0
    ensures !IsTrue(p.filter, later, cond)
  {
    hide IsTrue, TupleCmp, Coerce, KeyCmp;
    if IsTrue(p.filter, later, cond) {
      var k := EqCount(p.stops, 0);
      var dirs := PathDirs(p.path);
      var key, cb, lkey := PathKey(d, p.path, row), CoerceBound(d, p.path, p.from), PathKey(d, p.path, later);
      JustifiedLengths(d, p);
      EqColumns(d, p, later, cond);
      Squeezed(dirs, cb, key, lkey, 0, k);
      var i := StoppedAt(p.stops, row);
      if i < k {
        EqStopApart(d, p, row, i);
        assert false;
      } else {
        RangeStopSound(d, p, row, later, cond);
        assert false;
      }
    }
  }

  lemma RangeStopSound<C>(d: TableDesc, p: Plan<C>, row: Row, later: Row, cond: CondFn<C>)
    requires ValidDesc(d) && Justified(d, p) && RowOK(d, row) && RowOK(d, later)
    requires var k := EqCount(p.stops, 0);
             && |p.stops| == k + 1
             && StopHit(p.stops[k].kind, CompareVals(At(row, p.stops[k].ord), p.stops[k].val))
             && TupleCmp(PathDirs(p.path), PathKey(d, p.path, row), PathKey(d, p.path, later), k) <= 0
    ensures !IsTrue(p.filter, later, cond)
  {
    if IsTrue(p.filter, later, cond) {
      var k := EqCount(p.stops, 0);
      var st := p.stops[k];
      var desc := DescAt(PathDirs(p.path), k);
      assert StopRequired(d, p, k);
      MatchInRange(d, p, later, cond);
      StopKeyOrder(d, row, st, desc);
      var v := Coerce(st.val, d.columns[st.ord].typ);
      DirCmpOrder(desc, At(row, st.ord), v);
      DirCmpOrder(desc, At(row, st.ord), At(later, st.ord));
      DirCmpTrans(desc, At(row, st.ord), At(later, st.ord), v);
      assert false;
    }
  }

  lemma {:induction false} WalkExact<C>(d: TableDesc, rows: seq<Row>, p: Plan<C>, cond: CondFn<C>)
    requires ValidDesc(d) && Justified(d, p) && Listed(d, p.path, rows)
    ensures Walk(RowsBetween(d, p.path, rows, p.from, [], true), p.stops, p.filter, cond)
         == Matching(rows, p.filter, cond)
  {
    hide Justified, IsTrue, TupleCmp;
    if rows != [] {
      var row, rest := rows[0], rows[1..];
      WalkExact(d, rest, p, cond);
      if !Between(d, p.path, row, p.from, [], true) {
        assert Below(d, p.path, row, [], true);
        if IsTrue(p.filter, row, cond) {
          MatchAbove(d, p, row, cond);
        }
        assert [] + Matching(rest, p.filter, cond) == Matching(rest, p.filter, cond);
        assert [] + RowsBetween(d, p.path, rest, p.from, [], true) == RowsBetween(d, p.path, rest, p.from, [], true);
      } else if Stopped(p.stops, row) {
        assert RowsBetween(d, p.path, rows, p.from, [], true)[0] == row;
        forall j | 0 <= j < |rows| ensures !IsTrue(p.filter, rows[j], cond) {
          TupleCmpOrder(PathDirs(p.path), PathKey(d, p.path, row), PathKey(d, p.path, row), 0);
          StopSound(d, p, row, rows[j], cond);
        }
        MatchingNone(rows, p.filter, cond);
      } else {
        var tail := RowsBetween(d, p.path, rest, p.from, [], true);
        assert ([row] + tail)[1..] == tail;
      }
    }
  }

  lemma {:induction false} ReverseConcat<T>(a: seq<T>, b: seq<T>)
    ensures Reverse(a + b) == Reverse(b) + Reverse(a)
  {
    if a == [] {
      assert a + b == b;
    } else {
      assert (a + b)[1..] == a[1..] + b && (a + b)[0] == a[0];
      ReverseConcat(a[1..], b);
    }
  }

  lemma {:induction false} MatchingReverse<C>(rows: seq<Row>, e: BoolExpr<C>, cond: CondFn<C>)
    ensures Matching(Reverse(rows), e, cond) == Reverse(Matching(rows, e, cond))
  {
    if rows != [] {
      MatchingReverse(rows[1..], e, cond);
      MatchingConcat(Reverse(rows[1..]), [rows[0]], e, cond);
      ReverseConcat(if IsTrue(e, rows[0], cond) then [rows[0]] else [], Matching(rows[1..], e, cond));
    }
  }

  lemma {:induction false} WalkNoStops<C>(rows: seq<Row>, filter: BoolExpr<C>, cond: CondFn<C>)
    ensures Walk(rows, [], filter, cond) == Matching(rows, filter, cond)
  {
    if rows != [] {
      WalkNoStops(rows[1..], filter, cond);
    }
  }

  lemma {:induction false} BetweenExact<C>(d: TableDesc, rows: seq<Row>, p: Plan<C>, cond: CondFn<C>)
    requires ValidDesc(d) && Justified(d, p) && Listed(d, p.path, rows)
    ensures Matching(RowsBetween(d, p.path, rows, p.from, RevEnd(p.stops).0, RevEnd(p.stops).1), p.filter, cond)
         == Matching(rows, p.filter, cond)
  {
    if rows != [] {
      BetweenExact(d, rows[1..], p, cond);
      var tail := RowsBetween(d, p.path, rows[1..], p.from, RevEnd(p.stops).0, RevEnd(p.stops).1);
      assert ([rows[0]] + tail)[1..] == tail && [] + tail == tail;
      assert [] + Matching(tail, p.filter, cond) == Matching(tail, p.filter, cond);
      if IsTrue(p.filter, rows[0], cond) {
        MatchAbove(d, p, rows[0], cond);
        MatchBelow(d, p, rows[0], cond);
      }
    }
  }

  lemma {:induction false} LookupExact<C>(d: TableDesc, rows: seq<Row>, p: Plan<C>, cond: CondFn<C>)
    requires ValidDesc(d) && Justified(d, p) && Listed(d, Primary, rows) && p.get.Some?
    ensures Matching(Lookup(d, rows, CoerceBound(d, Primary, p.get.value)), p.filter, cond)
         == Matching(rows, p.filter, cond)
  {
    hide Justified, IsTrue, RowOK, CoerceBound, Project;
    if rows != [] {
      var key := CoerceBound(d, Primary, p.get.value);
      LookupExact(d, rows[1..], p, cond);
      if Project(rows[0], d.pkCols) == key {
        forall j | 1 <= j < |rows| ensures !IsTrue(p.filter, rows[j], cond) {
          KeyUnique(d, p, rows[0], rows[j], cond);
        }
        MatchingNone(rows[1..], p.filter, cond);
      } else if IsTrue(p.filter, rows[0], cond) {
        GetColumns(d, p, rows[0], cond);
      }
    }
  }

  lemma KeyUnique<C>(d: TableDesc, p: Plan<C>, row: Row, other: Row, cond: CondFn<C>)
    requires ValidDesc(d) && Justified(d, p) && p.get.Some? && RowOK(d, other)
    requires Project(row, d.pkCols) == CoerceBound(d, Primary, p.get.value)
    requires PathCmp(d, Primary, row, other) != 0
    ensures !IsTrue(p.filter, other, cond)
  {
    if IsTrue(p.filter, other, cond) {
      GetColumns(d, p, other, cond);
      TupleCmpOrder([], PathKey(d, Primary, row), PathKey(d, Primary, other), 0);
    }
  }

  /** A row that matches a point get's filter has exactly its key. */
  lemma GetColumns<C>(d: TableDesc, p: Plan<C>, row: Row, cond: CondFn<C>)
    requires ValidDesc(d) && Justified(d, p) && p.get.Some? && RowOK(d, row) && IsTrue(p.filter, row, cond)
    ensures Project(row, d.pkCols) == CoerceBound(d, Primary, p.get.value)
  {
    forall i | 0 <= i < |d.pkCols| ensures Project(row, d.pkCols)[i] == CoerceBound(d, Primary, p.get.value)[i] {
      var c := d.pkCols[i];
      RequiredTrue(d, p, row, cond, c, EQ, p.get.value[i]);
      KeyCmpOrder(At(row, c), Coerce(p.get.value[i], d.columns[c].typ));
    }
  }

  /** Exactness of every justified plan: it yields the rows on which the whole
      condition is definitely true, in the path's key order (or its reverse). */
  lemma ScanExact<C>(d: TableDesc, rows: seq<Row>, p: Plan<C>, cond: CondFn<C>)
    requires ValidDesc(d) && Justified(d, p) && Listed(d, p.path, rows)
    ensures ScanRows(d, rows, p, cond)
         == if p.reverse && p.get.None? then Reverse(Matching(rows, p.filter, cond)) else Matching(rows, p.filter, cond)
  {
    if p.get.Some? {
      LookupExact(d, rows, p, cond);
      WalkNoStops(Lookup(d, rows, CoerceBound(d, Primary, p.get.value)), p.filter, cond);
    } else if p.reverse {
      var (to, incl) := RevEnd(p.stops);
      var region := RowsBetween(d, p.path, rows, p.from, to, incl);
      BetweenExact(d, rows, p, cond);
      MatchingReverse(region, p.filter, cond);
      WalkNoStops(Reverse(region), p.filter, cond);
    } else {
      WalkExact(d, rows, p, cond);
    }
  }

  /** The planner's choice, run over any listing of its path, is the naive filter. */
  lemma PlannedScanExact<C>(d: TableDesc, rows: seq<Row>, where: BoolExpr<C>, keys: seq<SortKey>, cond: CondFn<C>)
    requires ValidDesc(d) && Listed(d, PlanOf(d, where, keys).path, rows)
    ensures ScanRows(d, rows, PlanOf(d, where, keys), cond) == Matching(rows, where, cond)
  {
    PlanJustified(d, where, keys);
    ScanExact(d, rows, PlanOf(d, where, keys), cond);
  }
}
