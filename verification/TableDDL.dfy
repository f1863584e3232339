/** Table-wide operations: TRUNCATE, CREATE INDEX with its backfill, and DROP INDEX. Each
    leaves every index complete. */
module TableDDL {
  import opened Values
  import opened Schema
  import opened Store
  import opened Table
  import opened TableProof
  import opened TableScan

  // --- descriptors that differ only in their indexes ---

  ghost predicate SameRows(d: TableDesc, e: TableDesc) {
    d.id == e.id && d.columns == e.columns && d.pkCols == e.pkCols
  }

  lemma {:induction false} OverlaySame(d: TableDesc, e: TableDesc, vals: Row, pairs: seq<(nat, Value)>)
    requires SameRows(d, e) && |vals| == |d.columns|
    ensures Overlay(d, vals, pairs) == Overlay(e, vals, pairs)
    decreases |pairs|
  {
    if pairs != [] {
      var o := OrdByID(d.columns, pairs[0].0, 0);
      OverlaySame(d, e, if o.Some? then vals[o.value := pairs[0].1] else vals, pairs[1..]);
    }
  }

  lemma RowAtSame(s: KV, d: TableDesc, e: TableDesc, k: Key)
    requires SameRows(d, e) && k in s
    ensures RowAt(s, d, k) == RowAt(s, e, k)
  {
    assert KeyColumns(d, k.vals) == KeyColumns(e, k.vals);
    OverlaySame(d, e, KeyColumns(d, k.vals), if s[k].RowVal? then s[k].pairs else []);
  }

  lemma RowsOfSame(s: KV, t: KV, d: TableDesc, e: TableDesc)
    requires SameRows(d, e) && forall k :: IsRowKey(d, k) ==> Lookup(s, k) == Lookup(t, k)
    ensures RowsOf(s, d) == RowsOf(t, e)
  {
    forall k | k in RowsOf(s, d) || k in RowsOf(t, e)
      ensures k in RowsOf(s, d) && k in RowsOf(t, e) && RowsOf(s, d)[k] == RowsOf(t, e)[k]
    {
      assert Lookup(s, k) == Lookup(t, k);
      RowAtSame(s, d, e, k);
      assert RowAt(s, e, k) == RowAt(t, e, k);
    }
  }

  lemma RowGoodSame(s: KV, t: KV, d: TableDesc, e: TableDesc, k: Key)
    requires SameRows(d, e) && k in s && Lookup(s, k) == Lookup(t, k) && RowGood(s, d, k)
    ensures RowGood(t, e, k) && RowAt(t, e, k) == RowAt(s, d, k)
  {
    RowAtSame(s, d, e, k);
  }

  // --- TRUNCATE ---

  /** The store without one table's key space. */
  function Truncate(s: KV, d: TableDesc): KV {
    map k | k in s && k.table != d.id :: s[k]
  }

  /** A truncated table is empty and consistent; other tables are untouched. */
  lemma TruncateConsistent(s: KV, d: TableDesc, k: Key)
    requires ValidTable(d)
    ensures Consistent(Truncate(s, d), d) && RowsOf(Truncate(s, d), d) == map[]
    ensures k.table != d.id ==> Lookup(Truncate(s, d), k) == Lookup(s, k)
  {
  }

  // --- CREATE INDEX ---

  datatype IndexCol = IndexCol(name: string, desc: bool)

  datatype IndexError = NameRequired | NoColumns | IndexExists | NoSuchColumn | DuplicateColumn | RowsCollide

  datatype Made<T> = Refused(err: IndexError) | Made(value: T)

  /** The index keys the named columns, each in its direction. */
  predicate Names(d: TableDesc, idx: IndexDesc, cols: seq<IndexCol>) {
    && ValidIndex(idx, |d.columns|) && |idx.cols| == |cols| > 0
    && (forall i :: 0 <= i < |cols| ==>
         d.columns[idx.cols[i]].name == cols[i].name && DescAt(idx.desc, i) == cols[i].desc)
    && (forall i, j :: 0 <= i < j < |cols| ==> idx.cols[i] != idx.cols[j])
  }

  /** A definition refused before any row is read: no name or columns, a taken name, an
      unknown column, or one named twice. */
  predicate BadIndex(d: TableDesc, name: string, cols: seq<IndexCol>) {
    || name == "" || cols == [] || (exists i :: 0 <= i < |d.indexes| && d.indexes[i].name == name)
    || (exists i :: 0 <= i < |cols| && ColIndex(d, cols[i].name, 0).None?)
    || (exists i, j :: 0 <= i < j < |cols| && ColIndex(d, cols[i].name, 0) == ColIndex(d, cols[j].name, 0))
  }

  /** The descriptor of a new index: an ID above every one in use, and the ordinals
      of distinct declared columns. */
  method NewIndex(d: TableDesc, name: string, unique: bool, cols: seq<IndexCol>) returns (r: Made<IndexDesc>)
    ensures r.Made? ==>
      && r.value.id > PRIMARY && (forall i :: 0 <= i < |d.indexes| ==> d.indexes[i].id < r.value.id)
      && (forall i :: 0 <= i < |d.indexes| ==> d.indexes[i].name != name)
      && r.value.name == name && r.value.unique == unique && Names(d, r.value, cols)
    ensures r.Refused? ==> r.err != RowsCollide
    ensures r.Refused? <==> BadIndex(d, name, cols)
  {
    if name == "" { return Refused(NameRequired); }
    if cols == [] { return Refused(NoColumns); }
    var id := PRIMARY + 1;
    var n := 0;
    while n < |d.indexes|
      invariant 0 <= n <= |d.indexes| && id > PRIMARY
      invariant forall i :: 0 <= i < n ==> d.indexes[i].id < id && d.indexes[i].name != name
    {
      if d.indexes[n].name == name { return Refused(IndexExists); }
      if d.indexes[n].id >= id { id := d.indexes[n].id + 1; }
      n := n + 1;
    }
    var ords, desc, any := [], [], false;
    var c := 0;
    while c < |cols|
      invariant 0 <= c <= |cols| && |ords| == |desc| == c
      invariant forall i :: 0 <= i < c ==> ColIndex(d, cols[i].name, 0) == Some(ords[i])
      invariant forall i :: 0 <= i < c ==> desc[i] == cols[i].desc
      invariant any <==> exists i :: 0 <= i < c && desc[i]
      invariant forall i, j :: 0 <= i < j < c ==> ords[i] != ords[j]
    {
      var ord := ColIndex(d, cols[c].name, 0);
      if ord.None? { return Refused(NoSuchColumn); }
      if ord.value in ords {
        var i :| 0 <= i < |ords| && ords[i] == ord.value;
        assert ColIndex(d, cols[i].name, 0) == ColIndex(d, cols[c].name, 0);
        return Refused(DuplicateColumn);
      }
      ords, desc, any := ords + [ord.value], desc + [cols[c].desc], any || cols[c].desc;
      c := c + 1;
    }
    r := Made(IndexDesc(id, name, ords, unique, if any then desc else []));
  }

  /** Two stored rows a unique index cannot both hold. */
  ghost predicate Clash(s: KV, d: TableDesc, idx: IndexDesc, a: Key, b: Key) {
    && a in s && IsRowKey(d, a) && b in s && IsRowKey(d, b) && a != b
    && Enforced(idx, RowAt(s, d, a)) && Project(RowAt(s, d, a), idx.cols) == Project(RowAt(s, d, b), idx.cols)
  }

  ghost predicate FreshIndex(d: TableDesc, idx: IndexDesc) {
    && idx.id > PRIMARY && ValidIndex(idx, |d.columns|)
    && forall i :: 0 <= i < |d.indexes| ==> d.indexes[i].id != idx.id
  }

  function WithIndex(d: TableDesc, idx: IndexDesc): TableDesc {
    d.(indexes := d.indexes + [idx])
  }

  function EntryAt(s: KV, d: TableDesc, idx: IndexDesc, k: Key): Key
    requires k in s
  {
    EntryKey(d, idx, RowAt(s, d, k))
  }

  /** The entry of a row in an index. */
  function EntryOf(s: KV, d: TableDesc, idx: IndexDesc, k: Key): (Key, Stored)
    requires k in s
  {
    var row := RowAt(s, d, k);
    (EntryKey(d, idx, row), EntryVal(d, idx, row))
  }

  function Derive(s: KV, d: TableDesc, idx: IndexDesc): Key -> (Key, Stored) {
    k => if k in s then EntryOf(s, d, idx, k) else (k, Entry([]))
  }

  ghost predicate EntryFrom(f: Key -> (Key, Stored), ks: set<Key>, ek: Key) {
    exists r :: r in ks && f(r).0 == ek
  }

  /** The store s with the distinct entries of the rows at ks added. */
  ghost predicate Filled(s: KV, f: Key -> (Key, Stored), ks: set<Key>, t: KV) {
    && (forall k :: k in ks ==> f(k).0 in t && t[f(k).0] == f(k).1)
    && (forall k :: k in s ==> k in t && t[k] == s[k])
    && (forall k :: k in t && k !in s ==> EntryFrom(f, ks, k))
    && (forall a, b :: a in ks && b in ks && a != b ==> f(a).0 != f(b).0)
  }

  lemma NoStrayEntries(s: KV, d: TableDesc, idx: IndexDesc, k: Key)
    requires Consistent(s, d) && FreshIndex(d, idx) && k.table == d.id && k.index == idx.id
    ensures k !in s
  {
    assert IdxOf(d, k.index, |d.indexes|).None?;
    assert !Explained(s, d, k);
  }

  /** Rows with one entry key in a new index are one row, or clash. */
  lemma SharedEntry(s: KV, d: TableDesc, idx: IndexDesc, a: Key, b: Key)
    requires Consistent(s, d) && a in s && IsRowKey(d, a) && b in s && IsRowKey(d, b) && a != b
    ensures EntryAt(s, d, idx, a) == EntryAt(s, d, idx, b) <==> Clash(s, d, idx, a, b)
  {
    assert RowGood(s, d, a) && RowGood(s, d, b);
    if EntryAt(s, d, idx, a) == EntryAt(s, d, idx, b) {
      EntryKeysDiffer(d, idx, RowAt(s, d, a), RowAt(s, d, b));
    }
  }

  ghost function FirstKeys(keys: seq<Key>, n: nat): set<Key>
    requires n <= |keys|
  {
    set j | 0 <= j < n :: keys[j]
  }

  /** The backfill's pass over the rows: the entry of each, in row order. */
  method CollectEntries(entryOf: Key -> (Key, Stored), keys: seq<Key>) returns (entries: seq<(Key, Stored)>)
    ensures |entries| == |keys| && forall j :: 0 <= j < |keys| ==> entries[j] == entryOf(keys[j])
  {
    entries := [];
    var i := 0;
    while i < |keys|
      invariant 0 <= i <= |keys| && |entries| == i
      invariant forall j :: 0 <= j < i ==> entries[j] == entryOf(keys[j])
    {
      entries := entries + [entryOf(keys[i])];
      i := i + 1;
    }
  }

  /** The backfill's writes, stopping at an entry already taken when the index is
      unique. */
  method FillIndex(s: KV, entryOf: Key -> (Key, Stored), unique: bool, keys: seq<Key>) returns (r: Option<KV>)
    requires forall i :: 0 <= i < |keys| ==> entryOf(keys[i]).0 !in s
    requires forall i, j :: 0 <= i < j < |keys| ==> keys[i] != keys[j]
    requires !unique ==> forall i, j :: 0 <= i < j < |keys| ==> entryOf(keys[i]).0 != entryOf(keys[j]).0
    ensures r.None? <==> exists i, j :: 0 <= i < j < |keys| && entryOf(keys[i]).0 == entryOf(keys[j]).0
    ensures r.Some? ==> Filled(s, entryOf, FirstKeys(keys, |keys|), r.value)
  {
    var entries := CollectEntries(entryOf, keys);
    var t := s;
    var i := 0;
    while i < |entries|
      invariant 0 <= i <= |entries|
      invariant Filled(s, entryOf, FirstKeys(keys, i), t)
    {
      if unique && entries[i].0 in t {
        assert EntryFrom(entryOf, FirstKeys(keys, i), entries[i].0);
        return None;
      }
      assert FirstKeys(keys, i + 1) == FirstKeys(keys, i) + {keys[i]};
      StepFills(s, entryOf, FirstKeys(keys, i), keys[i], t);
      t := t[entries[i].0 := entries[i].1];
      i := i + 1;
    }
    assert forall j :: 0 <= j < |keys| ==> keys[j] in FirstKeys(keys, |keys|);
    r := Some(t);
  }

  /** The backfill stops exactly when two rows clash in a unique index. */
  method Backfill(s: KV, d: TableDesc, idx: IndexDesc, keys: seq<Key>) returns (r: Option<KV>)
    requires Consistent(s, d) && FreshIndex(d, idx)
    requires keys == Ascend(s, RangeOf(d, Primary, [], [], true))
    ensures r.None? <==> exists a, b :: Clash(s, d, idx, a, b)
    ensures r.Some? ==> Filled(s, Derive(s, d, idx), RowKeys(s, d), r.value)
  {
    AllRowKeys(s, d, keys);
    forall i: nat | i < |keys| ensures Derive(s, d, idx)(keys[i]).0 !in s {
      NoStrayEntries(s, d, idx, EntryOf(s, d, idx, keys[i]).0);
    }
    forall i, j | 0 <= i < j < |keys|
      ensures Derive(s, d, idx)(keys[i]).0 == Derive(s, d, idx)(keys[j]).0 <==> Clash(s, d, idx, keys[i], keys[j])
    {
      SharedEntry(s, d, idx, keys[i], keys[j]);
    }
    r := FillIndex(s, Derive(s, d, idx), idx.unique, keys);
    if r.Some? {
      NoneClash(s, d, idx, r.value);
    }
  }

  ghost function RowKeys(s: KV, d: TableDesc): set<Key> {
    set k | k in s && IsRowKey(d, k)
  }

  lemma AllRowKeys(s: KV, d: TableDesc, keys: seq<Key>)
    requires keys == Ascend(s, RangeOf(d, Primary, [], [], true))
    ensures FirstKeys(keys, |keys|) == RowKeys(s, d)
    ensures forall j :: 0 <= j < |keys| ==> keys[j] in s && IsRowKey(d, keys[j])
    ensures forall i, j :: 0 <= i < j < |keys| ==> keys[i] != keys[j]
  {
    forall k: Key ensures k in keys <==> k in s && IsRowKey(d, k) {
      UnboundedHolds(d, Primary, k);
    }
    forall j | 0 <= j < |keys| ensures keys[j] in s && IsRowKey(d, keys[j]) {
      assert keys[j] in keys;
    }
    forall i, j | 0 <= i < j < |keys| ensures keys[i] != keys[j] {
      TupleCmpOrder(PathDirs(Primary), keys[i].vals, keys[i].vals, 0);
    }
    forall k: Key ensures k in keys <==> k in FirstKeys(keys, |keys|) {
    }
  }

  lemma StepFills(s: KV, f: Key -> (Key, Stored), ks: set<Key>, k: Key, t: KV)
    requires Filled(s, f, ks, t) && f(k).0 !in s && forall b :: b in ks ==> f(b).0 != f(k).0
    ensures Filled(s, f, ks + {k}, t[f(k).0 := f(k).1])
  {
    forall x | x in t[f(k).0 := f(k).1] && x !in s ensures EntryFrom(f, ks + {k}, x) {
      if x != f(k).0 {
        assert EntryFrom(f, ks, x);
        var r :| r in ks && f(r).0 == x;
        assert r in ks + {k};
      } else {
        assert k in ks + {k};
      }
    }
  }

  lemma NoneClash(s: KV, d: TableDesc, idx: IndexDesc, t: KV)
    requires Consistent(s, d) && Filled(s, Derive(s, d, idx), RowKeys(s, d), t)
    ensures !exists a, b :: Clash(s, d, idx, a, b)
  {
    forall a, b | a in RowKeys(s, d) && b in RowKeys(s, d) && a != b ensures !Clash(s, d, idx, a, b) {
      assert Derive(s, d, idx)(a).0 != Derive(s, d, idx)(b).0;
      SharedEntry(s, d, idx, a, b);
    }
  }

  /** The new index is complete, and nothing else changed. */
  lemma IndexComplete(s: KV, d: TableDesc, idx: IndexDesc, t: KV)
    requires Consistent(s, d) && FreshIndex(d, idx) && Filled(s, Derive(s, d, idx), RowKeys(s, d), t)
    ensures Consistent(t, WithIndex(d, idx)) && RowsOf(t, WithIndex(d, idx)) == RowsOf(s, d)
    ensures forall k: Key :: k.table != d.id || k.index != idx.id ==> Lookup(t, k) == Lookup(s, k)
  {
    hide Derive, Filled, HasEntry, Explained;
    var e := WithIndex(d, idx);
    forall k: Key | k.table != d.id || k.index != idx.id ensures Lookup(t, k) == Lookup(s, k) {
      FilledElsewhere(s, d, idx, t, k);
    }
    RowsOfSame(s, t, d, e);
    assert ValidTable(e);
    forall k | k in t && IsRowKey(e, k)
      ensures RowGood(t, e, k) && forall i: nat :: i < |e.indexes| ==> HasEntry(t, e, i, RowAt(t, e, k))
    {
      assert Lookup(t, k) == Lookup(s, k);
      NewRow(s, d, idx, t, k);
    }
    forall ek | ek in t && IsEntryKey(e, ek) ensures Explained(t, e, ek) {
      NewExplained(s, d, idx, t, ek);
    }
  }

  lemma FilledElsewhere(s: KV, d: TableDesc, idx: IndexDesc, t: KV, k: Key)
    requires Filled(s, Derive(s, d, idx), RowKeys(s, d), t)
    requires k.table != d.id || k.index != idx.id
    ensures Lookup(t, k) == Lookup(s, k)
  {
    assert !EntryFrom(Derive(s, d, idx), RowKeys(s, d), k);
  }

  lemma NewRow(s: KV, d: TableDesc, idx: IndexDesc, t: KV, k: Key)
    requires Consistent(s, d) && Filled(s, Derive(s, d, idx), RowKeys(s, d), t) && k in RowKeys(s, d)
    ensures var e := WithIndex(d, idx);
            Lookup(t, k) == Lookup(s, k) && RowGood(t, e, k)
            && forall i: nat :: i < |e.indexes| ==> HasEntry(t, e, i, RowAt(t, e, k))
  {
    var e, row := WithIndex(d, idx), RowAt(s, d, k);
    assert RowGood(s, d, k);
    RowGoodSame(s, t, d, e, k);
    forall i: nat | i < |e.indexes| ensures HasEntry(t, e, i, row) {
      EntrySame(d, e, e.indexes[i], row);
      if i < |d.indexes| {
        assert HasEntry(s, d, i, row);
      } else {
        assert Derive(s, d, idx)(k).0 in t;
      }
    }
  }

  lemma EntrySame(d: TableDesc, e: TableDesc, idx: IndexDesc, row: Row)
    requires SameRows(d, e)
    ensures EntryKey(d, idx, row) == EntryKey(e, idx, row) && EntryVal(d, idx, row) == EntryVal(e, idx, row)
  {
  }

  lemma NewExplained(s: KV, d: TableDesc, idx: IndexDesc, t: KV, ek: Key)
    requires Consistent(s, d) && ValidTable(WithIndex(d, idx)) && Filled(s, Derive(s, d, idx), RowKeys(s, d), t)
    requires ek in t && IsEntryKey(d, ek)
    ensures Explained(t, WithIndex(d, idx), ek)
  {
    var e := WithIndex(d, idx);
    if ek in s {
      assert Explained(s, d, ek);
      var r :| DerivedBy(s, d, ek, r);
      var j := IdxOf(d, ek.index, |d.indexes|).value;
      assert e.indexes[j] == d.indexes[j];
      DerivedStays(s, t, d, e, ek, r, j);
    } else {
      assert EntryFrom(Derive(s, d, idx), RowKeys(s, d), ek);
      var r :| r in RowKeys(s, d) && Derive(s, d, idx)(r).0 == ek;
      DerivedStays(s, t, d, e, ek, r, |d.indexes|);
    }
  }

  /** A row kept under a descriptor with index j explains its entry there. */
  lemma DerivedStays(s: KV, t: KV, d: TableDesc, e: TableDesc, ek: Key, r: Key, j: nat)
    requires ValidTable(e) && SameRows(d, e) && j < |e.indexes|
    requires r in s && IsRowKey(d, r) && Lookup(s, r) == Lookup(t, r)
    requires ek == EntryKey(d, e.indexes[j], RowAt(s, d, r))
    ensures Explained(t, e, ek)
  {
    RowAtSame(s, d, e, r);
    EntrySame(d, e, e.indexes[j], RowAt(s, d, r));
    IdxOfIndex(e, j);
    assert DerivedBy(t, e, ek, r);
  }

  /** An index as declared, that the table does not have yet. */
  ghost predicate Declared(d: TableDesc, idx: IndexDesc, name: string, unique: bool, cols: seq<IndexCol>) {
    FreshIndex(d, idx) && idx.name == name && idx.unique == unique && Names(d, idx, cols)
  }

  /** The index added and backfilled, with no two rows clashing in it. */
  ghost predicate Indexed(s: KV, d: TableDesc, idx: IndexDesc, t: KV, e: TableDesc) {
    && e == WithIndex(d, idx) && Filled(s, Derive(s, d, idx), RowKeys(s, d), t)
    && !exists a, b :: Clash(s, d, idx, a, b)
  }

  /** CREATE INDEX: refused exactly for a bad definition or clashing rows; otherwise a
      complete index over unchanged rows, and nothing else changes. */
  method CreateIndex(s: KV, d: TableDesc, name: string, unique: bool, cols: seq<IndexCol>, keys: seq<Key>)
      returns (r: Made<(KV, TableDesc)>)
    requires Consistent(s, d) && keys == Ascend(s, RangeOf(d, Primary, [], [], true))
    ensures r.Refused? && r.err != RowsCollide <==> BadIndex(d, name, cols)
    ensures r == Refused(RowsCollide) ==> exists idx, a, b ::
      Declared(d, idx, name, unique, cols) && Clash(s, d, idx, a, b)
    ensures r.Made? ==> exists idx :: Declared(d, idx, name, unique, cols) && Indexed(s, d, idx, r.value.0, r.value.1)
    ensures r.Made? ==> Consistent(r.value.0, r.value.1) && RowsOf(r.value.0, r.value.1) == RowsOf(s, d)
    ensures r.Made? ==> forall k: Key :: k.table != d.id ==> Lookup(r.value.0, k) == Lookup(s, k)
  {
    var made := NewIndex(d, name, unique, cols);
    if made.Refused? {
      return Refused(made.err);
    }
    var idx := made.value;
    assert Declared(d, idx, name, unique, cols);
    var filled := Backfill(s, d, idx, keys);
    if filled.None? {
      ghost var a, b :| Clash(s, d, idx, a, b);
      return Refused(RowsCollide);
    }
    IndexComplete(s, d, idx, filled.value);
    r := Made((filled.value, WithIndex(d, idx)));
  }

  // --- DROP INDEX ---

  function Others(ix: seq<IndexDesc>, name: string): (r: seq<IndexDesc>)
    ensures forall x :: x in r <==> x in ix && x.name != name
  {
    if ix == [] then [] else (if ix[0].name != name then [ix[0]] else []) + Others(ix[1..], name)
  }

  predicate DistinctIDs(ix: seq<IndexDesc>) {
    forall i, j :: 0 <= i < j < |ix| ==> ix[i].id != ix[j].id
  }

  lemma {:induction false} OthersDistinct(ix: seq<IndexDesc>, name: string)
    requires DistinctIDs(ix)
    ensures DistinctIDs(Others(ix, name))
  {
    if ix != [] {
      OthersDistinct(ix[1..], name);
      forall x | x in Others(ix[1..], name) ensures x.id != ix[0].id {
        var j :| 0 <= j < |ix[1..]| && ix[1..][j] == x;
        assert ix[j + 1] == x;
      }
      ConsDistinct(ix[0], Others(ix[1..], name));
      assert [] + Others(ix[1..], name) == Others(ix[1..], name);
    }
  }

  lemma ConsDistinct(x: IndexDesc, rest: seq<IndexDesc>)
    requires DistinctIDs(rest) && forall y :: y in rest ==> y.id != x.id
    ensures DistinctIDs([x] + rest)
  {
    assert forall i :: 0 <= i < |rest| ==> rest[i] in rest;
  }

  function WithoutIndex(d: TableDesc, name: string): TableDesc {
    d.(indexes := Others(d.indexes, name))
  }

  /** The store without one index's key space. */
  function DropEntries(s: KV, d: TableDesc, idx: IndexDesc): KV {
    map k | k in s && !(k.table == d.id && k.index == idx.id) :: s[k]
  }

  predicate DistinctNames(ix: seq<IndexDesc>) {
    forall i, j :: 0 <= i < j < |ix| ==> ix[i].name != ix[j].name
  }

  predicate NamesDiffer(d: TableDesc) {
    DistinctNames(d.indexes)
  }

  /** Dropping an index removes its entries and no row, and the rest stays complete. */
  lemma DropIndexConsistent(s: KV, d: TableDesc, n: nat)
    requires Consistent(s, d) && NamesDiffer(d) && n < |d.indexes|
    ensures var e, t := WithoutIndex(d, d.indexes[n].name), DropEntries(s, d, d.indexes[n]);
            Consistent(t, e) && RowsOf(t, e) == RowsOf(s, d)
            && forall k: Key :: k.table != d.id || k.index != d.indexes[n].id ==> Lookup(t, k) == Lookup(s, k)
  {
    var idx := d.indexes[n];
    var e, t := WithoutIndex(d, idx.name), DropEntries(s, d, idx);
    assert DistinctIDs(d.indexes);
    OthersDistinct(d.indexes, idx.name);
    forall i | 0 <= i < |e.indexes| ensures e.indexes[i].id > PRIMARY && ValidIndex(e.indexes[i], |e.columns|) {
      assert e.indexes[i] in e.indexes;
      var j :| 0 <= j < |d.indexes| && d.indexes[j] == e.indexes[i];
    }
    assert ValidTable(e);
    RowsOfSame(s, t, d, e);
    forall k | k in t && IsRowKey(e, k)
      ensures RowGood(t, e, k) && forall i: nat :: i < |e.indexes| ==> HasEntry(t, e, i, RowAt(t, e, k))
    {
      KeptRow(s, d, n, k);
    }
    forall ek | ek in t && IsEntryKey(e, ek) ensures Explained(t, e, ek) {
      KeptExplained(s, d, n, ek);
    }
  }

  lemma KeptRow(s: KV, d: TableDesc, n: nat, k: Key)
    requires Consistent(s, d) && NamesDiffer(d) && n < |d.indexes| && k in s && IsRowKey(d, k)
    ensures var e, t := WithoutIndex(d, d.indexes[n].name), DropEntries(s, d, d.indexes[n]);
            k in t && RowGood(t, e, k) && forall i: nat :: i < |e.indexes| ==> HasEntry(t, e, i, RowAt(t, e, k))
  {
    var e, t := WithoutIndex(d, d.indexes[n].name), DropEntries(s, d, d.indexes[n]);
    var row := RowAt(s, d, k);
    assert RowGood(s, d, k);
    RowGoodSame(s, t, d, e, k);
    forall i: nat | i < |e.indexes| ensures HasEntry(t, e, i, row) {
      assert e.indexes[i] in e.indexes;
      var j: nat :| j < |d.indexes| && d.indexes[j] == e.indexes[i];
      assert HasEntry(s, d, j, row);
      EntrySame(d, e, e.indexes[i], row);
    }
  }

  lemma KeptExplained(s: KV, d: TableDesc, n: nat, ek: Key)
    requires Consistent(s, d) && NamesDiffer(d) && n < |d.indexes|
    requires ValidTable(WithoutIndex(d, d.indexes[n].name))
    requires ek in DropEntries(s, d, d.indexes[n]) && IsEntryKey(d, ek)
    ensures Explained(DropEntries(s, d, d.indexes[n]), WithoutIndex(d, d.indexes[n].name), ek)
  {
    hide HasEntry, RowGood;
    var e := WithoutIndex(d, d.indexes[n].name);
    assert Explained(s, d, ek);
    var r :| DerivedBy(s, d, ek, r);
    var j := IdxOf(d, ek.index, |d.indexes|).value;
    assert d.indexes[j].name != d.indexes[n].name;
    assert d.indexes[j] in e.indexes;
    var i :| 0 <= i < |e.indexes| && e.indexes[i] == d.indexes[j];
    DerivedStays(s, DropEntries(s, d, d.indexes[n]), d, e, ek, r, i);
  }
}
