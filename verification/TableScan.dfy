/** Reading a table through its access paths (scanRows, scanIndexRows,
    rowFromIndexEntry): over a consistent store, a bounded scan of any path yields
    exactly the rows in range, in the path's directed key order. */
module TableScan {
  import opened Values
  import opened Schema
  import opened Store
  import opened Table
  import opened TableProof
  import opened Scan
  import opened Join

  /** The key range a bounded scan of a path reads. */
  function RangeOf(d: TableDesc, path: Path, from: seq<Value>, to: seq<Value>, incl: bool): Range {
    Range(d.id, if path.Primary? then PRIMARY else path.idx.id, PathDirs(path),
          CoerceBound(d, path, from), CoerceBound(d, path, to), incl)
  }

  /** The primary key an index entry points at: after the indexed values in the key,
      or in the value when the key ends there. */
  function EntryPK(idx: IndexDesc, k: Key, v: Stored): seq<Value> {
    if |k.vals| > |idx.cols| then k.vals[|idx.cols|..] else if v.Entry? then v.pk else []
  }

  /** The row key behind a path's key. */
  function RowKeyAt(s: KV, d: TableDesc, path: Path, k: Key): Key
    requires k in s
  {
    if path.Primary? then k else RowKey(d, EntryPK(path.idx, k, s[k]))
  }

  /** The row a path's key resolves to; a missing row is an error. */
  function RowFrom(s: KV, d: TableDesc, path: Path, k: Key): Option<Row>
    requires k in s
  {
    var rk := RowKeyAt(s, d, path, k);
    if rk in s then Some(RowAt(s, d, rk)) else None
  }

  /** The rows behind a list of path keys. */
  function RowsFrom(s: KV, d: TableDesc, path: Path, ks: seq<Key>): (rows: seq<Row>)
    requires forall k :: k in ks ==> k in s && RowFrom(s, d, path, k).Some?
    ensures |rows| == |ks|
    ensures forall i :: 0 <= i < |ks| ==> rows[i] == RowFrom(s, d, path, ks[i]).value
  {
    if ks == [] then [] else [RowFrom(s, d, path, ks[0]).value] + RowsFrom(s, d, path, ks[1..])
  }

  // --- entry order is path order ---

  lemma {:induction false} PrefixDecides(dirs: seq<bool>, p: seq<Value>, q: seq<Value>, u: seq<Value>, v: seq<Value>,
                                         x: seq<Value>, y: seq<Value>, i: nat)
    requires |p| == |q| && i <= |p| && p[i..] != q[i..]
    ensures TupleCmp(dirs, p + u, q + v, i) == TupleCmp(dirs, p + x, q + y, i)
    decreases |p| - i
  {
    if i < |p| {
      if p[i] == q[i] {
        assert p[i..] == [p[i]] + p[i + 1..] && q[i..] == [q[i]] + q[i + 1..];
        PrefixDecides(dirs, p, q, u, v, x, y, i + 1);
      }
    }
  }

  lemma {:induction false} BoundSame(dirs: seq<bool>, p: seq<Value>, u: seq<Value>, v: seq<Value>, b: seq<Value>,
                                     i: nat)
    requires i <= |b| <= |p|
    ensures TupleCmp(dirs, p + u, b, i) >= 0 <==> TupleCmp(dirs, p + v, b, i) >= 0
    decreases |b| - i
  {
    if i < |b| && p[i] == b[i] {
      BoundSame(dirs, p, u, v, b, i + 1);
    }
  }

  /** Two rows' entries compare as the rows do in the index's path order. */
  lemma EntryOrder(d: TableDesc, idx: IndexDesc, a: Row, b: Row)
    requires d.pkCols != []
    requires TupleCmp(idx.desc, EntryKey(d, idx, a).vals, EntryKey(d, idx, b).vals, 0) < 0
    ensures PathCmp(d, Secondary(idx), a, b) < 0
  {
    var p, q := Project(a, idx.cols), Project(b, idx.cols);
    var pa, pb := Project(a, d.pkCols), Project(b, d.pkCols);
    if p != q {
      assert p[0..] == p && q[0..] == q;
      PrefixDecides(idx.desc, p, q, if Enforced(idx, a) then [] else pa, if Enforced(idx, b) then [] else pb, pa, pb,
                    0);
    } else {
      TupleCmpOrder(idx.desc, p + [], p + [], 0);
      assert !Enforced(idx, a);
    }
  }

  /** An entry lies in a key range exactly when its row lies between the bounds. */
  lemma EntryInRange(d: TableDesc, idx: IndexDesc, row: Row, from: seq<Value>, to: seq<Value>, incl: bool)
    requires |from| <= |idx.cols| && |to| <= |idx.cols|
    ensures InRange(EntryKey(d, idx, row), RangeOf(d, Secondary(idx), from, to, incl))
       <==> Between(d, Secondary(idx), row, from, to, incl)
  {
    var p, pk := Project(row, idx.cols), Project(row, d.pkCols);
    var u := if Enforced(idx, row) then [] else pk;
    var f, t := CoerceBound(d, Secondary(idx), from), CoerceBound(d, Secondary(idx), to);
    BoundSame(idx.desc, p, u, pk, f, 0);
    BoundSame(idx.desc, p, u, pk, t, 0);
    assert t <= p + u <==> t <= p + pk;
  }

  lemma RowInRange(s: KV, d: TableDesc, k: Key, from: seq<Value>, to: seq<Value>, incl: bool)
    requires Consistent(s, d) && k in s && IsRowKey(d, k)
    ensures InRange(k, RangeOf(d, Primary, from, to, incl)) <==> Between(d, Primary, RowAt(s, d, k), from, to, incl)
  {
    assert RowGood(s, d, k);
    assert PathKey(d, Primary, RowAt(s, d, k)) == k.vals + [] == k.vals;
  }

  // --- resolving entries ---

  /** A row's entry leads back to the row. */
  lemma EntryResolves(s: KV, d: TableDesc, i: nat, k: Key)
    requires Consistent(s, d) && i < |d.indexes| && k in s && IsRowKey(d, k)
    ensures var ek := EntryKey(d, d.indexes[i], RowAt(s, d, k));
            ek in s && RowKeyAt(s, d, Secondary(d.indexes[i]), ek) == k
  {
    var row, idx := RowAt(s, d, k), d.indexes[i];
    assert RowGood(s, d, k) && HasEntry(s, d, i, row);
    var ek := EntryKey(d, idx, row);
    if !Enforced(idx, row) {
      assert ek.vals[|idx.cols|..] == Project(row, d.pkCols);
    }
  }

  ghost predicate OfPath(d: TableDesc, path: Path, k: Key) {
    k.table == d.id && k.index == if path.Primary? then PRIMARY else path.idx.id
  }

  /** Every key of a path resolves to a stored row that derives it. */
  lemma PathKeyResolves(s: KV, d: TableDesc, path: Path, k: Key)
    requires Consistent(s, d) && PathOf(d, path) && k in s && OfPath(d, path, k)
    ensures RowKeyAt(s, d, path, k) in s && IsRowKey(d, RowKeyAt(s, d, path, k))
    ensures path.Secondary? ==> k == EntryKey(d, path.idx, RowAt(s, d, RowKeyAt(s, d, path, k)))
    ensures RowFrom(s, d, path, k) == Some(RowAt(s, d, RowKeyAt(s, d, path, k)))
    ensures RowOK(d, RowFrom(s, d, path, k).value)
  {
    if path.Secondary? {
      var i :| 0 <= i < |d.indexes| && d.indexes[i] == path.idx;
      assert IsEntryKey(d, k);
      assert Explained(s, d, k);
      var rk :| DerivedBy(s, d, k, rk);
      IdxOfIndex(d, i);
      EntryResolves(s, d, i, rk);
    }
    assert RowGood(s, d, RowKeyAt(s, d, path, k));
  }

  /** Key order within a path is the rows' path order. */
  lemma PathKeysOrdered(s: KV, d: TableDesc, path: Path, a: Key, b: Key)
    requires Consistent(s, d) && PathOf(d, path)
    requires a in s && OfPath(d, path, a) && b in s && OfPath(d, path, b) && Before(PathDirs(path), a, b)
    ensures RowFrom(s, d, path, a).Some? && RowFrom(s, d, path, b).Some?
    ensures PathCmp(d, path, RowFrom(s, d, path, a).value, RowFrom(s, d, path, b).value) < 0
  {
    PathKeyResolves(s, d, path, a);
    PathKeyResolves(s, d, path, b);
    if path.Secondary? {
      EntryOrder(d, path.idx, RowFrom(s, d, path, a).value, RowFrom(s, d, path, b).value);
    } else {
      assert RowGood(s, d, a) && RowGood(s, d, b);
      assert PathKey(d, Primary, RowAt(s, d, a)) == a.vals && PathKey(d, Primary, RowAt(s, d, b)) == b.vals;
    }
  }

  lemma PathKeyInRange(s: KV, d: TableDesc, path: Path, k: Key, from: seq<Value>, to: seq<Value>, incl: bool)
    requires Consistent(s, d) && PathOf(d, path) && k in s && OfPath(d, path, k)
    requires |from| <= |PathCols(d, path)| && |to| <= |PathCols(d, path)|
    ensures RowFrom(s, d, path, k).Some?
    ensures InRange(k, RangeOf(d, path, from, to, incl)) <==> Between(d, path, RowFrom(s, d, path, k).value, from, to,
                                                                      incl)
  {
    PathKeyResolves(s, d, path, k);
    if path.Secondary? {
      EntryInRange(d, path.idx, RowFrom(s, d, path, k).value, from, to, incl);
    } else {
      RowInRange(s, d, k, from, to, incl);
    }
  }

  // --- scans ---

  ghost predicate Resolvable(s: KV, d: TableDesc, path: Path, ks: seq<Key>) {
    forall k :: k in ks ==> k in s && OfPath(d, path, k)
  }

  lemma ResolvableRows(s: KV, d: TableDesc, path: Path, ks: seq<Key>)
    requires Consistent(s, d) && PathOf(d, path) && Resolvable(s, d, path, ks)
    ensures forall k :: k in ks ==> k in s && RowFrom(s, d, path, k).Some?
  {
    forall k | k in ks ensures RowFrom(s, d, path, k).Some? {
      PathKeyResolves(s, d, path, k);
    }
  }

  /** The rows a bounded scan of a path yields, in ascending key order. */
  ghost function PathRows(s: KV, d: TableDesc, path: Path, from: seq<Value>, to: seq<Value>, incl: bool): seq<Row>
    requires Consistent(s, d) && PathOf(d, path)
  {
    var ks := Ascend(s, RangeOf(d, path, from, to, incl));
    ResolvableRows(s, d, path, ks);
    RowsFrom(s, d, path, ks)
  }

  /** A table's rows in a path's key order. */
  ghost function Listing(s: KV, d: TableDesc, path: Path): seq<Row>
    requires Consistent(s, d) && PathOf(d, path)
  {
    PathRows(s, d, path, [], [], true)
  }

  lemma UnboundedHolds(d: TableDesc, path: Path, k: Key)
    ensures InRange(k, RangeOf(d, path, [], [], true)) <==> OfPath(d, path, k)
  {
    assert CoerceBound(d, path, []) == [];
  }

  /** The listing of a path is in its key order and holds typed rows. */
  lemma ListingListed(s: KV, d: TableDesc, path: Path)
    requires Consistent(s, d) && PathOf(d, path)
    ensures Listed(d, path, Listing(s, d, path))
  {
    var ks := Ascend(s, RangeOf(d, path, [], [], true));
    var rows := Listing(s, d, path);
    forall i | 0 <= i < |rows| ensures RowOK(d, rows[i]) {
      assert ks[i] in ks;
      PathKeyResolves(s, d, path, ks[i]);
    }
    forall i, j | 0 <= i < j < |rows| ensures PathCmp(d, path, rows[i], rows[j]) < 0 {
      assert ks[i] in ks && ks[j] in ks;
      PathKeysOrdered(s, d, path, ks[i], ks[j]);
    }
  }

  /** The listing of every path holds exactly the stored rows. */
  lemma ListingMembers(s: KV, d: TableDesc, path: Path, row: Row)
    requires Consistent(s, d) && PathOf(d, path)
    ensures row in Listing(s, d, path) <==> exists k :: k in s && IsRowKey(d, k) && RowAt(s, d, k) == row
  {
    hide Consistent, RowAt;
    var ks := Ascend(s, RangeOf(d, path, [], [], true));
    var rows := Listing(s, d, path);
    if row in rows {
      var i :| 0 <= i < |rows| && rows[i] == row;
      assert ks[i] in ks;
      PathKeyResolves(s, d, path, ks[i]);
    }
    if k :| k in s && IsRowKey(d, k) && RowAt(s, d, k) == row {
      RowListed(s, d, path, k);
    }
  }

  lemma RowListed(s: KV, d: TableDesc, path: Path, k: Key)
    requires Consistent(s, d) && PathOf(d, path) && k in s && IsRowKey(d, k)
    ensures RowAt(s, d, k) in Listing(s, d, path)
  {
    hide Consistent, RowAt;
    var ks := Ascend(s, RangeOf(d, path, [], [], true));
    var pk := k;
    if path.Secondary? {
      var i :| 0 <= i < |d.indexes| && d.indexes[i] == path.idx;
      EntryResolves(s, d, i, k);
      pk := EntryKey(d, path.idx, RowAt(s, d, k));
    }
    UnboundedHolds(d, path, pk);
    assert pk in ks;
    var n :| 0 <= n < |ks| && ks[n] == pk;
    assert Listing(s, d, path)[n] == RowAt(s, d, k);
  }

  lemma {:induction false} DistinctMultiset(a: seq<Row>, b: seq<Row>)
    requires forall i, j :: 0 <= i < j < |a| ==> a[i] != a[j]
    requires forall i, j :: 0 <= i < j < |b| ==> b[i] != b[j]
    requires forall x :: x in a <==> x in b
    ensures multiset(a) == multiset(b)
  {
    forall x: Row ensures multiset(a)[x] == multiset(b)[x] {
      DistinctCount(a, x);
      DistinctCount(b, x);
    }
  }

  lemma {:induction false} DistinctCount(a: seq<Row>, x: Row)
    requires forall i, j :: 0 <= i < j < |a| ==> a[i] != a[j]
    ensures multiset(a)[x] == if x in a then 1 else 0
  {
    if a != [] {
      assert a == [a[0]] + a[1..];
      DistinctCount(a[1..], x);
      assert forall j :: 0 <= j < |a[1..]| ==> a[1..][j] == a[j + 1] != a[0];
    }
  }

  lemma ListedDistinct(d: TableDesc, path: Path, rows: seq<Row>)
    requires Listed(d, path, rows)
    ensures forall i, j :: 0 <= i < j < |rows| ==> rows[i] != rows[j]
  {
    forall i, j | 0 <= i < j < |rows| ensures rows[i] != rows[j] {
      TupleCmpOrder(PathDirs(path), PathKey(d, path, rows[i]), PathKey(d, path, rows[i]), 0);
    }
  }

  /** Every path lists the same rows. */
  lemma ListingsAgree(s: KV, d: TableDesc, path: Path)
    requires Consistent(s, d) && PathOf(d, path)
    ensures multiset(Listing(s, d, path)) == multiset(Listing(s, d, Primary))
  {
    var a, b := Listing(s, d, path), Listing(s, d, Primary);
    ListingListed(s, d, path);
    ListingListed(s, d, Primary);
    ListedDistinct(d, path, a);
    ListedDistinct(d, Primary, b);
    forall x: Row ensures x in a <==> x in b {
      ListingMembers(s, d, path, x);
      ListingMembers(s, d, Primary, x);
    }
    DistinctMultiset(a, b);
  }

  /** The keys of a range, as a filter of all the path's keys. */
  ghost function KeepKeys(ks: seq<Key>, r: Range): (out: seq<Key>)
    ensures forall k :: k in out <==> k in ks && InRange(k, r)
  {
    if ks == [] then [] else (if InRange(ks[0], r) then [ks[0]] else []) + KeepKeys(ks[1..], r)
  }

  lemma {:induction false} KeepSorted(ks: seq<Key>, r: Range)
    requires forall i, j :: 0 <= i < j < |ks| ==> Before(r.dirs, ks[i], ks[j])
    ensures forall i, j :: 0 <= i < j < |KeepKeys(ks, r)| ==> Before(r.dirs, KeepKeys(ks, r)[i], KeepKeys(ks, r)[j])
  {
    hide InRange;
    if ks != [] {
      KeepSorted(ks[1..], r);
      var rest := KeepKeys(ks[1..], r);
      forall k | k in rest ensures Before(r.dirs, ks[0], k) {
        var j :| 0 <= j < |ks[1..]| && ks[1..][j] == k;
        assert ks[j + 1] == k;
      }
      assert forall j :: 0 <= j < |rest| ==> rest[j] in rest;
    }
  }

  lemma {:induction false} KeepIsBetween(s: KV, d: TableDesc, path: Path, ks: seq<Key>, from: seq<Value>,
                                         to: seq<Value>, incl: bool)
    requires Consistent(s, d) && PathOf(d, path) && Resolvable(s, d, path, ks)
    requires |from| <= |PathCols(d, path)| && |to| <= |PathCols(d, path)|
    requires forall k :: k in ks ==> k in s && RowFrom(s, d, path, k).Some?
    ensures RowsFrom(s, d, path, KeepKeys(ks, RangeOf(d, path, from, to, incl)))
         == RowsBetween(d, path, RowsFrom(s, d, path, ks), from, to, incl)
  {
    hide Consistent, Between, InRange, RowAt, RangeOf;
    if ks != [] {
      var r := RangeOf(d, path, from, to, incl);
      var rest := KeepKeys(ks[1..], r);
      KeepIsBetween(s, d, path, ks[1..], from, to, incl);
      PathKeyInRange(s, d, path, ks[0], from, to, incl);
      assert ([ks[0]] + rest)[1..] == rest && [] + rest == rest;
      var rows := RowsFrom(s, d, path, ks[1..]);
      assert RowsFrom(s, d, path, ks)[1..] == rows;
      assert [] + RowsBetween(d, path, rows, from, to, incl) == RowsBetween(d, path, rows, from, to, incl);
    }
  }

  /** A bounded scan yields exactly the listed rows between its bounds, in order. */
  lemma BoundedScan(s: KV, d: TableDesc, path: Path, from: seq<Value>, to: seq<Value>, incl: bool)
    requires Consistent(s, d) && PathOf(d, path)
    requires |from| <= |PathCols(d, path)| && |to| <= |PathCols(d, path)|
    ensures PathRows(s, d, path, from, to, incl) == RowsBetween(d, path, Listing(s, d, path), from, to, incl)
  {
    var r := RangeOf(d, path, from, to, incl);
    var all := Ascend(s, RangeOf(d, path, [], [], true));
    var some := Ascend(s, r);
    KeepSorted(all, r);
    forall k: Key ensures k in some <==> k in KeepKeys(all, r) {
      UnboundedHolds(d, path, k);
    }
    ListingUnique(r.dirs, some, KeepKeys(all, r));
    ResolvableRows(s, d, path, all);
    KeepIsBetween(s, d, path, all, from, to, incl);
  }

  /** The rows of a consistent table, listed by each of its paths: what the planner
      and the join executor assume of a table holds of the store. */
  ghost function SourceOf(s: KV, d: TableDesc): Source
    requires Consistent(s, d)
  {
    Source(Listing(s, d, Primary),
           map p | p in PathSet(d) :: Listing(s, d, p))
  }

  ghost function PathSet(d: TableDesc): (ps: set<Path>)
    ensures forall p :: p in ps <==> PathOf(d, p)
  {
    {Primary} + set idx | idx in d.indexes :: Secondary(idx)
  }

  lemma StoreIsSource(s: KV, d: TableDesc)
    requires Consistent(s, d)
    ensures ValidSource(d, false, SourceOf(s, d))
  {
    var src := SourceOf(s, d);
    ListingListed(s, d, Primary);
    forall path | PathOf(d, path)
      ensures path in src.paths && Listed(d, path, src.paths[path]) && multiset(src.paths[path]) == multiset(src.rows)
    {
      ListingListed(s, d, path);
      ListingsAgree(s, d, path);
    }
  }
}
