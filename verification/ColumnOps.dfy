/** ADD, DROP and RENAME COLUMN, and what they leave every stored row reading. */
module ColumnOps {
  import opened Values
  import opened Schema
  import opened Store
  import opened Table
  import opened TableProof
  import opened TableScan
  import opened TableDDL
  import opened Columns

  // --- rows carried from one descriptor to another ---

  /** The row at k reads the same, under both, for every column ID they share. */
  ghost predicate ReadsSame(s: KV, d: TableDesc, t: KV, e: TableDesc, k: Key)
    requires k in s && k in t
  {
    forall id: nat {:trigger ReadAt(t, e, k, id)} ::
      HasID(d, id) && HasID(e, id) ==> ReadAt(t, e, k, id) == ReadAt(s, d, k, id)
  }

  /** The same keys, the same entries, and rows that read the same. */
  ghost predicate Carries(s: KV, d: TableDesc, t: KV, e: TableDesc) {
    && t.Keys == s.Keys
    && (forall k :: k in s && !IsRowKey(d, k) ==> t[k] == s[k])
    && (forall k :: k in s && IsRowKey(d, k) ==> t[k].RowVal? && ReadsSame(s, d, t, e, k))
  }

  lemma {:induction false} OrdHasID(d: TableDesc, c: nat)
    requires ValidTable(d) && c < |d.columns|
    ensures OrdByID(d.columns, d.columns[c].id, 0) == Some(c) && HasID(d, d.columns[c].id)
  {
    OrdOfColumn(d, c, 0);
  }

  /** Columns with the same IDs project the same values. */
  lemma SameProject(s: KV, d: TableDesc, t: KV, e: TableDesc, k: Key, cols: seq<nat>, ecols: seq<nat>)
    requires ValidTable(d) && ValidTable(e) && k in s && k in t && ReadsSame(s, d, t, e, k)
    requires OrdsIn(cols, |d.columns|) && OrdsIn(ecols, |e.columns|) && IdsOf(e, ecols) == IdsOf(d, cols)
    ensures Project(RowAt(t, e, k), ecols) == Project(RowAt(s, d, k), cols)
  {
    forall i | 0 <= i < |cols| ensures Project(RowAt(t, e, k), ecols)[i] == Project(RowAt(s, d, k), cols)[i] {
      var id := IdsOf(d, cols)[i];
      assert IdsOf(e, ecols)[i] == id;
      OrdHasID(d, cols[i]);
      OrdHasID(e, ecols[i]);
      assert ReadAt(t, e, k, id) == ReadAt(s, d, k, id);
    }
  }

  lemma SameEntries(s: KV, d: TableDesc, t: KV, e: TableDesc, k: Key, i: nat)
    requires ValidTable(d) && ValidTable(e) && FKsIn(d) && FKsIn(e) && SameKeys(d, e)
    requires k in s && k in t && ReadsSame(s, d, t, e, k) && i < |d.indexes|
    ensures var a, b := RowAt(s, d, k), RowAt(t, e, k);
            && EntryKey(e, e.indexes[i], b) == EntryKey(d, d.indexes[i], a)
            && EntryVal(e, e.indexes[i], b) == EntryVal(d, d.indexes[i], a)
  {
    assert SameIndex(d, e, d.indexes[i], e.indexes[i]);
    SameProject(s, d, t, e, k, d.indexes[i].cols, e.indexes[i].cols);
    SameProject(s, d, t, e, k, d.pkCols, e.pkCols);
  }

  lemma CarriedRow(s: KV, d: TableDesc, t: KV, e: TableDesc, k: Key)
    requires Consistent(s, d) && ValidTable(e) && FKsIn(d) && FKsIn(e) && SameKeys(d, e) && Carries(s, d, t, e)
    requires k in s && IsRowKey(d, k) && RowOK(e, RowAt(t, e, k))
    ensures RowGood(t, e, k) && forall i: nat :: i < |e.indexes| ==> HasEntry(t, e, i, RowAt(t, e, k))
  {
    assert RowGood(s, d, k);
    SameProject(s, d, t, e, k, d.pkCols, e.pkCols);
    assert |IdsOf(e, e.pkCols)| == |IdsOf(d, d.pkCols)|;
    forall i: nat | i < |e.indexes| ensures HasEntry(t, e, i, RowAt(t, e, k)) {
      SameEntries(s, d, t, e, k, i);
      assert HasEntry(s, d, i, RowAt(s, d, k));
      assert d.indexes[i].id > PRIMARY;
    }
  }

  lemma CarriedExplained(s: KV, d: TableDesc, t: KV, e: TableDesc, ek: Key)
    requires Consistent(s, d) && ValidTable(e) && FKsIn(d) && FKsIn(e) && SameKeys(d, e) && Carries(s, d, t, e)
    requires ek in s && IsEntryKey(d, ek)
    ensures Explained(t, e, ek)
  {
    assert Explained(s, d, ek);
    var k :| DerivedBy(s, d, ek, k);
    var i := IdxOf(d, ek.index, |d.indexes|).value;
    SameEntries(s, d, t, e, k, i);
    assert SameIndex(d, e, d.indexes[i], e.indexes[i]);
    IdxOfIndex(e, i);
    assert DerivedBy(t, e, ek, k);
  }

  /** Carried rows keep every index complete. */
  lemma CarriedConsistent(s: KV, d: TableDesc, t: KV, e: TableDesc)
    requires Consistent(s, d) && ValidTable(e) && FKsIn(d) && FKsIn(e) && SameKeys(d, e) && Carries(s, d, t, e)
    requires forall k :: k in s && IsRowKey(d, k) ==> RowOK(e, RowAt(t, e, k))
    ensures Consistent(t, e)
  {
    forall k | k in t && IsRowKey(e, k)
      ensures RowGood(t, e, k) && forall i: nat :: i < |e.indexes| ==> HasEntry(t, e, i, RowAt(t, e, k))
    {
      assert k in s;
      CarriedRow(s, d, t, e, k);
    }
    forall ek | ek in t && IsEntryKey(e, ek) ensures Explained(t, e, ek) {
      assert ek in s;
      CarriedExplained(s, d, t, e, ek);
    }
  }

  /** Each column of e is one of d's, with the same type and NULL rules, or holds a
      fitting value in this row. */
  ghost predicate ColumnFits(d: TableDesc, e: TableDesc, row: Row, c: nat)
    requires c < |e.columns| && c < |row|
  {
    var col := e.columns[c];
    if HasID(d, col.id) then TypeOf(d, col.id) == (col.typ, col.notNull, col.identity)
    else Fits(row[c], col.typ) && (row[c] == Null ==> !NonNullCol(e, c) && !col.identity)
  }

  lemma CarriedRowOK(s: KV, d: TableDesc, t: KV, e: TableDesc, k: Key)
    requires Consistent(s, d) && ValidTable(e) && FKsIn(d) && FKsIn(e) && SameKeys(d, e) && Carries(s, d, t, e)
    requires k in s && IsRowKey(d, k)
    requires forall c: nat {:trigger e.columns[c]} :: c < |e.columns| ==> ColumnFits(d, e, RowAt(t, e, k), c)
    ensures RowOK(e, RowAt(t, e, k))
  {
    var row := RowAt(t, e, k);
    assert RowGood(s, d, k);
    forall c: nat | c < |row|
      ensures Fits(row[c], e.columns[c].typ) && ((NonNullCol(e, c) || e.columns[c].identity) ==> row[c] != Null)
    {
      var id := e.columns[c].id;
      assert ColumnFits(d, e, row, c);
      OrdHasID(e, c);
      if HasID(d, id) {
        assert ReadAt(t, e, k, id) == ReadAt(s, d, k, id);
        SamePkCol(d, e, c);
      }
    }
  }

  /** A surviving column is a key column in both or in neither. */
  lemma SamePkCol(d: TableDesc, e: TableDesc, c: nat)
    requires ValidTable(d) && ValidTable(e) && IdsOf(e, e.pkCols) == IdsOf(d, d.pkCols)
    requires c < |e.columns| && HasID(d, e.columns[c].id)
    ensures c in e.pkCols <==> OrdByID(d.columns, e.columns[c].id, 0).value in d.pkCols
  {
    IndexInIds(e, e.pkCols, c);
    IndexInIds(d, d.pkCols, OrdByID(d.columns, e.columns[c].id, 0).value);
  }

  /** One column operation: the table stays good, key, index and foreign-key ordinals
      name the same IDs, rows read the same for every surviving column, and a column not
      there before has an ID never used before. */
  ghost predicate ColumnStep(s: KV, d: TableDesc, t: KV, e: TableDesc) {
    && Good(s, d) && Good(t, e) && SameKeys(d, e) && Carries(s, d, t, e)
    && d.nextColID <= e.nextColID
    && (forall id: nat {:trigger HasID(e, id)} :: HasID(e, id) && !HasID(d, id) ==> id >= d.nextColID)
  }

  // --- ADD COLUMN ---

  /** Identity counters by column ID; an absent one starts at 1. */
  type Counters = map<nat, nat>

  /** bumpCounterTo: a counter never moves backward, and 1 is its implicit start. */
  function BumpTo(counters: Counters, id: nat, next: nat): Counters {
    if id in counters then (if counters[id] >= next then counters else counters[id := next])
    else if next <= 1 then counters else counters[id := next]
  }

  datatype Altered = Rejected | Altered(s: KV, d: TableDesc, counters: Counters)

  function Added(d: TableDesc, name: string, typ: ColType, notNull: bool, identity: bool): TableDesc {
    d.(columns := d.columns + [Column(d.nextColID, name, typ, notNull, identity)], nextColID := d.nextColID + 1)
  }

  /** backfillColumn and backfillIdentity: a pair for the new column is appended to each
      stored row, from the keys collected before any write. */
  method BackfillColumn(s: KV, keys: seq<Key>, id: nat, fill: nat -> Value) returns (t: KV)
    requires forall i :: 0 <= i < |keys| ==> keys[i] in s && s[keys[i]].RowVal?
    requires forall i, j :: 0 <= i < j < |keys| ==> keys[i] != keys[j]
    ensures Backfilled(s, keys, id, fill, t)
  {
    t := s;
    var i := 0;
    while i < |keys|
      invariant 0 <= i <= |keys| && t.Keys == s.Keys
      invariant forall j ::
        0 <= j < |keys| ==> t[keys[j]] == if j < i then RowVal(s[keys[j]].pairs + [(id, fill(j))]) else s[keys[j]]
      invariant forall k :: k in s && k !in keys ==> t[k] == s[k]
    {
      t := t[keys[i] := RowVal(s[keys[i]].pairs + [(id, fill(i))])];
      i := i + 1;
    }
  }

  /** The store s with the pair of the new column appended to the row at each key. */
  ghost predicate Backfilled(s: KV, keys: seq<Key>, id: nat, fill: nat -> Value, t: KV) {
    && t.Keys == s.Keys
    && (forall i :: 0 <= i < |keys| ==> PairAdded(s, t, keys[i], id, fill(i)))
    && (forall k :: k in s && k !in keys ==> t[k] == s[k])
  }

  predicate PairAdded(s: KV, t: KV, k: Key, id: nat, v: Value) {
    k in s && k in t && s[k].RowVal? && t[k] == RowVal(s[k].pairs + [(id, v)])
  }

  /** What the new column holds in the i-th row: a running number, or the default. */
  function FillOf(identity: bool, dflt: Value): nat -> Value {
    (i: nat) => if identity then Int(i + 1) else dflt
  }

  /** The new column as declared, with its default evaluated. */
  datatype NewCol = NewCol(name: string, typ: ColType, notNull: bool, identity: bool, dflt: Value)

  /** No name, a taken name, an identity column that is not an int or has a default, or
      NOT NULL without a value for the rows there are. */
  predicate AddRefused(d: TableDesc, c: NewCol, rows: nat) {
    || c.name == "" || ColIndex(d, c.name, 0).Some? || (c.identity && (c.typ != TInt || c.dflt != Null))
    || (!c.identity && c.dflt == Null && c.notNull && rows != 0)
  }

  function AddedTo(d: TableDesc, c: NewCol): TableDesc {
    Added(d, c.name, c.typ, c.notNull, c.identity)
  }

  /** The rows after ADD COLUMN: numbered, given the default, or not rewritten at all. */
  ghost predicate AddedRows(s: KV, keys: seq<Key>, id: nat, c: NewCol, t: KV) {
    if c.identity || c.dflt != Null then Backfilled(s, keys, id, FillOf(c.identity, c.dflt), t) else t == s
  }

  /** The counters after it: a new identity column draws next past its numbered rows. */
  function AddedCounters(counters: Counters, id: nat, c: NewCol, rows: nat): Counters {
    if c.identity then BumpTo(counters, id, rows + 1) else counters
  }

  /** AddColumn, given the evaluated default and the list of row keys: existing rows read
      the default (or NULL, or 1..n in the list's order), and nothing else changes. */
  method AddColumn(s: KV, d: TableDesc, counters: Counters, c: NewCol, keys: seq<Key>) returns (r: Altered)
    requires Good(s, d) && Fits(c.dflt, c.typ) && ListsRows(s, d, keys)
    ensures r.Rejected? <==> AddRefused(d, c, |keys|)
    ensures r.Altered? ==> r.d == AddedTo(d, c) && AddedRows(s, keys, d.nextColID, c, r.s)
    ensures r.Altered? ==> r.counters == AddedCounters(counters, d.nextColID, c, |keys|)
    ensures r.Altered? ==> ColumnStep(s, d, r.s, r.d)
    ensures r.Altered? ==> ReadsFilled(r.s, r.d, keys, d.nextColID, FillOf(c.identity, c.dflt))
  {
    if c.name == "" || (c.identity && (c.typ != TInt || c.dflt != Null)) || ColIndex(d, c.name, 0).Some? {
      return Rejected;
    }
    if !c.identity && c.dflt == Null && c.notNull && keys != [] {
      return Rejected;
    }
    var t := FillRows(s, d, c, keys);
    AddStep(s, d, c, keys, t);
    r := Altered(t, AddedTo(d, c), if c.identity then BumpTo(counters, d.nextColID, |keys| + 1) else counters);
  }

  /** The backfill, skipped when the new column reads NULL anyway. */
  method FillRows(s: KV, d: TableDesc, c: NewCol, keys: seq<Key>) returns (t: KV)
    requires ListsRows(s, d, keys)
    ensures AddedRows(s, keys, d.nextColID, c, t)
  {
    t := s;
    if c.identity || c.dflt != Null {
      t := BackfillColumn(s, keys, d.nextColID, FillOf(c.identity, c.dflt));
    }
  }

  ghost predicate ReadsFill(s: KV, d: TableDesc, k: Key, id: nat, v: Value) {
    k in s && HasID(d, id) && ReadAt(s, d, k, id) == v
  }

  /** The column is there, and the i-th row reads the i-th filled-in value. */
  ghost predicate ReadsFilled(s: KV, d: TableDesc, keys: seq<Key>, id: nat, fill: nat -> Value) {
    HasID(d, id) && forall i :: 0 <= i < |keys| ==> ReadsFill(s, d, keys[i], id, fill(i))
  }

  /** The keys of all stored rows, each once. */
  ghost predicate ListsRows(s: KV, d: TableDesc, keys: seq<Key>) {
    && (forall i :: 0 <= i < |keys| ==> keys[i] in s && IsRowKey(d, keys[i]) && s[keys[i]].RowVal?)
    && (forall i, j :: 0 <= i < j < |keys| ==> keys[i] != keys[j])
    && (forall k :: k in s && IsRowKey(d, k) ==> k in keys)
  }

  /** The listing in key order is such a list. */
  lemma RowsStored(s: KV, d: TableDesc, keys: seq<Key>)
    requires Good(s, d) && keys == Ascend(s, RangeOf(d, Primary, [], [], true))
    ensures ListsRows(s, d, keys)
  {
    AllRowKeys(s, d, keys);
    forall i | 0 <= i < |keys| ensures s[keys[i]].RowVal? {
      assert RowGood(s, d, keys[i]);
    }
    forall k | k in s && IsRowKey(d, k) ensures k in keys {
      assert k in FirstKeys(keys, |keys|);
    }
  }

  /** An accepted ADD COLUMN is a column step, and the rows read what it filled in. */
  lemma AddStep(s: KV, d: TableDesc, c: NewCol, keys: seq<Key>, t: KV)
    requires Good(s, d) && Fits(c.dflt, c.typ) && ListsRows(s, d, keys)
    requires !AddRefused(d, c, |keys|) && AddedRows(s, keys, d.nextColID, c, t)
    ensures ColumnStep(s, d, t, AddedTo(d, c))
    ensures ReadsFilled(t, AddedTo(d, c), keys, d.nextColID, FillOf(c.identity, c.dflt))
  {
    AddedValid(d, c);
    AddedPairs(s, d, c, keys, t);
    FillFits(d, c, |keys|);
    AddKeeps(s, d, t, AddedTo(d, c), keys, FillOf(c.identity, c.dflt));
  }

  lemma FillFits(d: TableDesc, c: NewCol, rows: nat)
    requires Fits(c.dflt, c.typ) && !AddRefused(d, c, rows)
    ensures forall i :: 0 <= i < rows ==> FitsColumn(FillOf(c.identity, c.dflt)(i), AddedTo(d, c).columns[|d.columns|])
  {
  }

  lemma AddedPairs(s: KV, d: TableDesc, c: NewCol, keys: seq<Key>, t: KV)
    requires Good(s, d) && ListsRows(s, d, keys) && AddedRows(s, keys, d.nextColID, c, t)
    ensures RowsAdded(s, d, t, keys, FillOf(c.identity, c.dflt))
  {
    forall i | 0 <= i < |keys| ensures RowAdded(s, t, keys[i], d.nextColID, FillOf(c.identity, c.dflt)(i)) {
      assert c.identity || c.dflt != Null ==> PairAdded(s, t, keys[i], d.nextColID, FillOf(c.identity, c.dflt)(i));
    }
  }

  /** A stored row with a pair appended, or untouched when the value is NULL. */
  ghost predicate RowAdded(s: KV, t: KV, k: Key, id: nat, v: Value)
  {
    && k in s && k in t && s[k].RowVal?
    && (t[k] == RowVal(s[k].pairs + [(id, v)]) || (v == Null && t[k] == s[k]))
  }

  /** The listed keys are the table's, each row has its pair, and nothing else moved. */
  ghost predicate RowsAdded(s: KV, d: TableDesc, t: KV, keys: seq<Key>, fill: nat -> Value) {
    && t.Keys == s.Keys
    && (forall k :: k in s && !IsRowKey(d, k) ==> t[k] == s[k])
    && (forall k :: k in s && IsRowKey(d, k) ==> k in keys)
    && (forall i :: 0 <= i < |keys| ==> IsRowKey(d, keys[i]) && RowAdded(s, t, keys[i], d.nextColID, fill(i)))
  }

  /** The descriptor e is d with one column more, under the next ID. */
  ghost predicate OneMore(d: TableDesc, e: TableDesc) {
    && |e.columns| == |d.columns| + 1 && e.columns[..|d.columns|] == d.columns && e.pkCols == d.pkCols
    && e.columns[|d.columns|].id == d.nextColID && e.nextColID == d.nextColID + 1
    && ValidTable(d) && ValidTable(e) && FKsIn(d) && FKsIn(e) && SameKeys(d, e)
  }

  predicate FitsColumn(v: Value, c: Column) {
    Fits(v, c.typ) && (v == Null ==> !c.notNull && !c.identity)
  }

  lemma AddedValid(d: TableDesc, c: NewCol)
    requires ValidTable(d) && FKsIn(d) && forall i :: 0 <= i < |d.columns| ==> d.columns[i].id < d.nextColID
    ensures OneMore(d, AddedTo(d, c))
  {
    var e := AddedTo(d, c);
    assert forall i :: 0 <= i < |d.columns| ==> e.columns[i] == d.columns[i];
    forall i | 0 <= i < |d.indexes| ensures ValidIndex(e.indexes[i], |e.columns|) {
      assert ValidIndex(d.indexes[i], |d.columns|);
    }
    forall i | 0 <= i < |d.indexes| ensures SameIndex(d, e, d.indexes[i], e.indexes[i]) {
      assert ValidIndex(d.indexes[i], |d.columns|);
    }
    forall i | 0 <= i < |d.foreignKeys|
      ensures OrdsIn(e.foreignKeys[i].cols, |e.columns|)
      ensures IdsOf(e, e.foreignKeys[i].cols) == IdsOf(d, d.foreignKeys[i].cols)
    {
      assert OrdsIn(d.foreignKeys[i].cols, |d.columns|);
    }
  }

  lemma {:induction false} AddedOrd(cols: seq<Column>, col: Column, id: nat, i: nat)
    requires i <= |cols|
    ensures var was := OrdByID(cols, id, i);
            OrdByID(cols + [col], id, i) == if was.Some? then was else if col.id == id then Some(|cols|) else None
    decreases |cols| - i
  {
    if i < |cols| {
      AddedOrd(cols, col, id, i + 1);
    }
  }

  lemma LastSnoc(pairs: seq<(nat, Value)>, p: (nat, Value), id: nat, dflt: Value)
    ensures LastPair(pairs + [p], id, dflt) == if p.0 == id then p.1 else LastPair(pairs, id, dflt)
  {
    assert (pairs + [p])[..|pairs|] == pairs;
  }

  lemma {:induction false} NoPair(pairs: seq<(nat, Value)>, id: nat, dflt: Value)
    requires forall i :: 0 <= i < |pairs| ==> pairs[i].0 < id
    ensures LastPair(pairs, id, dflt) == dflt
  {
    if pairs != [] {
      NoPair(pairs[..|pairs| - 1], id, dflt);
    }
  }

  /** What a row with the pair appended reads, by ID. */
  lemma AddedReads(s: KV, d: TableDesc, t: KV, e: TableDesc, k: Key, v: Value, id: nat)
    requires Good(s, d) && ValidTable(e) && IdsOf(e, e.pkCols) == IdsOf(d, d.pkCols)
    requires IsRowKey(d, k) && RowAdded(s, t, k, d.nextColID, v) && HasID(e, id)
    ensures id == d.nextColID ==> ReadAt(t, e, k, id) == v
    ensures HasID(d, id) ==> ReadAt(t, e, k, id) == ReadAt(s, d, k, id)
  {
    ReadAtIs(t, e, k, id);
    assert PairsBelow(s[k], d.nextColID);
    var ids := IdsOf(d, d.pkCols);
    var dflt := if id in ids && IndexIn(ids, id) < |k.vals| then k.vals[IndexIn(ids, id)] else Null;
    LastSnoc(s[k].pairs, (d.nextColID, v), id, dflt);
    if HasID(d, id) {
      ReadAtIs(s, d, k, id);
    }
    if id == d.nextColID {
      NoPair(s[k].pairs, id, dflt);
    }
  }

  lemma AddKeeps(s: KV, d: TableDesc, t: KV, e: TableDesc, keys: seq<Key>, fill: nat -> Value)
    requires Good(s, d) && OneMore(d, e) && RowsAdded(s, d, t, keys, fill)
    requires forall i :: 0 <= i < |keys| ==> FitsColumn(fill(i), e.columns[|d.columns|])
    ensures ColumnStep(s, d, t, e) && ReadsFilled(t, e, keys, d.nextColID, fill)
  {
    AddCarries(s, d, t, e, keys, fill);
    AddConsistent(s, d, t, e, keys, fill);
    AddedIDs(d, e);
    forall i | 0 <= i < |keys| ensures ReadsFill(t, e, keys[i], d.nextColID, fill(i)) {
      AddedReads(s, d, t, e, keys[i], fill(i), d.nextColID);
    }
  }

  lemma AddedIDs(d: TableDesc, e: TableDesc)
    requires OneMore(d, e)
    ensures HasID(e, d.nextColID)
    ensures forall id: nat {:trigger HasID(e, id)} :: HasID(e, id) && !HasID(d, id) ==> id >= d.nextColID
  {
    assert e.columns == d.columns + [e.columns[|d.columns|]];
    AddedOrd(d.columns, e.columns[|d.columns|], d.nextColID, 0);
    forall id: nat | HasID(e, id) && !HasID(d, id) ensures id >= d.nextColID {
      AddedOrd(d.columns, e.columns[|d.columns|], id, 0);
    }
  }

  lemma AddCarries(s: KV, d: TableDesc, t: KV, e: TableDesc, keys: seq<Key>, fill: nat -> Value)
    requires Good(s, d) && OneMore(d, e) && RowsAdded(s, d, t, keys, fill)
    ensures Carries(s, d, t, e) && Fresh(t, e)
  {
    forall k | k in s && IsRowKey(d, k)
      ensures t[k].RowVal? && ReadsSame(s, d, t, e, k) && PairsBelow(t[k], e.nextColID)
    {
      var i :| 0 <= i < |keys| && keys[i] == k;
      AddRow(s, d, t, e, k, fill(i));
    }
    assert forall i :: 0 <= i < |d.columns| ==> e.columns[i] == d.columns[i];
  }

  lemma AddConsistent(s: KV, d: TableDesc, t: KV, e: TableDesc, keys: seq<Key>, fill: nat -> Value)
    requires Good(s, d) && OneMore(d, e) && RowsAdded(s, d, t, keys, fill) && Carries(s, d, t, e)
    requires forall i :: 0 <= i < |keys| ==> FitsColumn(fill(i), e.columns[|d.columns|])
    ensures Consistent(t, e)
  {
    forall k | k in s && IsRowKey(d, k) ensures RowOK(e, RowAt(t, e, k)) {
      var i :| 0 <= i < |keys| && keys[i] == k;
      AddRowOK(s, d, t, e, k, fill(i));
    }
    CarriedConsistent(s, d, t, e);
  }

  lemma AddRow(s: KV, d: TableDesc, t: KV, e: TableDesc, k: Key, v: Value)
    requires Good(s, d) && OneMore(d, e) && IsRowKey(d, k) && RowAdded(s, t, k, d.nextColID, v)
    ensures t[k].RowVal? && ReadsSame(s, d, t, e, k) && PairsBelow(t[k], e.nextColID)
  {
    assert PairsBelow(s[k], d.nextColID);
    forall id: nat | HasID(d, id) && HasID(e, id) ensures ReadAt(t, e, k, id) == ReadAt(s, d, k, id) {
      AddedReads(s, d, t, e, k, v, id);
    }
  }

  lemma AddRowOK(s: KV, d: TableDesc, t: KV, e: TableDesc, k: Key, v: Value)
    requires Good(s, d) && OneMore(d, e) && Carries(s, d, t, e)
    requires IsRowKey(d, k) && RowAdded(s, t, k, d.nextColID, v) && FitsColumn(v, e.columns[|d.columns|])
    ensures RowOK(e, RowAt(t, e, k))
  {
    forall c: nat | c < |e.columns| ensures ColumnFits(d, e, RowAt(t, e, k), c) {
      AddColumnFits(s, d, t, e, k, v, c);
    }
    CarriedRowOK(s, d, t, e, k);
  }

  lemma AddColumnFits(s: KV, d: TableDesc, t: KV, e: TableDesc, k: Key, v: Value, c: nat)
    requires Good(s, d) && OneMore(d, e) && Carries(s, d, t, e)
    requires IsRowKey(d, k) && RowAdded(s, t, k, d.nextColID, v) && FitsColumn(v, e.columns[|d.columns|])
    requires c < |e.columns|
    ensures ColumnFits(d, e, RowAt(t, e, k), c)
  {
    hide Good, RowAt;
    OrdHasID(e, c);
    if c < |d.columns| {
      assert e.columns[c] == d.columns[c];
      OrdHasID(d, c);
    } else {
      AddedReads(s, d, t, e, k, v, d.nextColID);
    }
  }

  // --- DROP COLUMN ---

  function Shift(c: nat, ord: nat): nat {
    if c > ord then c - 1 else c
  }

  function ShiftAll(cols: seq<nat>, ord: nat): (r: seq<nat>)
    ensures |r| == |cols| && forall i :: 0 <= i < |cols| ==> r[i] == Shift(cols[i], ord)
  {
    if cols == [] then [] else [Shift(cols[0], ord)] + ShiftAll(cols[1..], ord)
  }

  /** The in-place loop over one list of ordinals. */
  method ShiftCols(cols: seq<nat>, ord: nat) returns (r: seq<nat>)
    ensures r == ShiftAll(cols, ord)
  {
    r := cols;
    var i := 0;
    while i < |cols|
      invariant 0 <= i <= |cols| && |r| == |cols|
      invariant forall j :: 0 <= j < |cols| ==> r[j] == if j < i then Shift(cols[j], ord) else cols[j]
    {
      if r[i] > ord {
        r := r[i := r[i] - 1];
      }
      i := i + 1;
    }
  }

  /** The descriptor e is d without the column at ord, every ordinal shifted. */
  ghost predicate Dropped(d: TableDesc, e: TableDesc, ord: nat) {
    && ord < |d.columns| && e.id == d.id && e.name == d.name && e.nextColID == d.nextColID
    && e.columns == d.columns[..ord] + d.columns[ord + 1..]
    && e.pkCols == ShiftAll(d.pkCols, ord)
    && |e.indexes| == |d.indexes| && |e.foreignKeys| == |d.foreignKeys|
    && (forall i :: 0 <= i < |d.indexes| ==> e.indexes[i] == d.indexes[i].(cols := ShiftAll(d.indexes[i].cols, ord)))
    && (forall i :: 0 <= i < |d.foreignKeys| ==>
         e.foreignKeys[i] == d.foreignKeys[i].(cols := ShiftAll(d.foreignKeys[i].cols, ord)))
  }

  /** No key, index or foreign key uses the column. */
  predicate Unused(d: TableDesc, ord: nat) {
    && ord !in d.pkCols
    && (forall i :: 0 <= i < |d.indexes| ==> ord !in d.indexes[i].cols)
    && (forall i :: 0 <= i < |d.foreignKeys| ==> ord !in d.foreignKeys[i].cols)
  }

  function DroppedCounters(counters: Counters, d: TableDesc, ord: nat): Counters
    requires ord < |d.columns|
  {
    if d.columns[ord].identity then counters - {d.columns[ord].id} else counters
  }

  predicate DropRefused(d: TableDesc, name: string, refs: set<string>) {
    var o := ColIndex(d, name, 0);
    o.None? || !Unused(d, o.value) || name in refs
  }

  /** DropColumn: refused for key, indexed and foreign-key columns, and for columns a
      foreign key references (`refs`); no row is rewritten, and an identity counter goes
      with its column. */
  method DropColumn(ghost s: KV, d: TableDesc, counters: Counters, name: string, refs: set<string>)
      returns (r: Option<(TableDesc, Counters)>)
    requires Good(s, d)
    ensures r.None? <==> DropRefused(d, name, refs)
    ensures r.Some? ==> Dropped(d, r.value.0, ColIndex(d, name, 0).value)
    ensures r.Some? ==> r.value.1 == DroppedCounters(counters, d, ColIndex(d, name, 0).value)
    ensures r.Some? ==> ColumnStep(s, d, s, r.value.0) && !HasID(r.value.0, d.columns[ColIndex(d, name, 0).value].id)
  {
    var o := ColIndex(d, name, 0);
    if o.None? { return None; }
    var ord := o.value;
    if ord in d.pkCols { return None; }
    var i := 0;
    while i < |d.indexes|
      invariant 0 <= i <= |d.indexes| && forall j :: 0 <= j < i ==> ord !in d.indexes[j].cols
    {
      if ord in d.indexes[i].cols { return None; }
      i := i + 1;
    }
    i := 0;
    while i < |d.foreignKeys|
      invariant 0 <= i <= |d.foreignKeys| && forall j :: 0 <= j < i ==> ord !in d.foreignKeys[j].cols
    {
      if ord in d.foreignKeys[i].cols { return None; }
      i := i + 1;
    }
    if name in refs { return None; }
    var e := ShiftDesc(d, ord);
    DropKeeps(s, d, e, ord);
    r := Some((e, if d.columns[ord].identity then counters - {d.columns[ord].id} else counters));
  }

  /** The cloned descriptor with the column gone and every ordinal shifted. */
  method ShiftDesc(d: TableDesc, ord: nat) returns (e: TableDesc)
    requires ord < |d.columns|
    ensures Dropped(d, e, ord)
  {
    var pk := ShiftCols(d.pkCols, ord);
    var ixs, fks, i := d.indexes, d.foreignKeys, 0;
    while i < |ixs|
      invariant 0 <= i <= |ixs| == |d.indexes|
      invariant forall j ::
        0 <= j < |ixs| ==>
          ixs[j] == if j < i then d.indexes[j].(cols := ShiftAll(d.indexes[j].cols, ord)) else d.indexes[j]
    {
      var cols := ShiftCols(ixs[i].cols, ord);
      ixs, i := ixs[i := ixs[i].(cols := cols)], i + 1;
    }
    i := 0;
    while i < |fks|
      invariant 0 <= i <= |fks| == |d.foreignKeys|
      invariant forall j ::
        0 <= j < |fks| ==>
          fks[j] == if j < i then d.foreignKeys[j].(cols := ShiftAll(d.foreignKeys[j].cols, ord)) else d.foreignKeys[j]
    {
      var cols := ShiftCols(fks[i].cols, ord);
      fks, i := fks[i := fks[i].(cols := cols)], i + 1;
    }
    e := d.(columns := d.columns[..ord] + d.columns[ord + 1..], pkCols := pk, indexes := ixs, foreignKeys := fks);
  }

  /** A shifted ordinal names the same column. */
  lemma ShiftNames(d: TableDesc, e: TableDesc, ord: nat, cols: seq<nat>)
    requires ord < |d.columns| && e.columns == d.columns[..ord] + d.columns[ord + 1..] && OrdsIn(cols, |d.columns|)
    requires ord !in cols
    ensures OrdsIn(ShiftAll(cols, ord), |e.columns|) && IdsOf(e, ShiftAll(cols, ord)) == IdsOf(d, cols)
  {
    forall i | 0 <= i < |cols|
      ensures ShiftAll(cols, ord)[i] < |e.columns| && e.columns[ShiftAll(cols, ord)[i]] == d.columns[cols[i]]
    {
      assert cols[i] in cols;
    }
  }

  lemma DroppedValid(d: TableDesc, e: TableDesc, ord: nat)
    requires ValidTable(d) && FKsIn(d) && Dropped(d, e, ord) && Unused(d, ord)
    ensures ValidTable(e) && FKsIn(e) && SameKeys(d, e)
  {
    ShiftNames(d, e, ord, d.pkCols);
    forall i | 0 <= i < |d.indexes|
      ensures ValidIndex(e.indexes[i], |e.columns|) && SameIndex(d, e, d.indexes[i], e.indexes[i])
    {
      assert ValidIndex(d.indexes[i], |d.columns|);
      ShiftNames(d, e, ord, d.indexes[i].cols);
    }
    forall i | 0 <= i < |d.foreignKeys|
      ensures OrdsIn(e.foreignKeys[i].cols, |e.columns|)
      ensures IdsOf(e, e.foreignKeys[i].cols) == IdsOf(d, d.foreignKeys[i].cols)
    {
      ShiftNames(d, e, ord, d.foreignKeys[i].cols);
    }
    forall i, j | 0 <= i < j < |d.pkCols| ensures e.pkCols[i] != e.pkCols[j] {
      assert d.pkCols[i] in d.pkCols && d.pkCols[j] in d.pkCols;
    }
  }

  /** The columns left are those of d but the dropped one. */
  lemma DroppedIDs(d: TableDesc, e: TableDesc, ord: nat, id: nat)
    requires ValidTable(d) && ValidTable(e) && ord < |d.columns| && e.columns == d.columns[..ord] + d.columns[ord + 1..]
    ensures HasID(e, id) <==> HasID(d, id) && id != d.columns[ord].id
    ensures HasID(e, id) ==> TypeOf(e, id) == TypeOf(d, id)
  {
    if HasID(e, id) {
      var c := OrdByID(e.columns, id, 0).value;
      OrdHasID(d, if c < ord then c else c + 1);
    }
    if HasID(d, id) && id != d.columns[ord].id {
      var c := OrdByID(d.columns, id, 0).value;
      OrdHasID(e, Shift(c, ord));
    }
  }

  /** The same stored rows read the same under a descriptor with the same key IDs. */
  lemma SameStoreReads(s: KV, d: TableDesc, e: TableDesc, k: Key)
    requires ValidTable(d) && ValidTable(e) && IdsOf(e, e.pkCols) == IdsOf(d, d.pkCols) && k in s
    ensures ReadsSame(s, d, s, e, k)
  {
    forall id: nat | HasID(d, id) && HasID(e, id) ensures ReadAt(s, e, k, id) == ReadAt(s, d, k, id) {
      ReadAtIs(s, d, k, id);
      ReadAtIs(s, e, k, id);
    }
  }

  /** A descriptor-only change that keeps key IDs and drops or keeps whole columns. */
  lemma DescOnly(s: KV, d: TableDesc, e: TableDesc)
    requires Good(s, d) && ValidTable(e) && FKsIn(e) && SameKeys(d, e) && e.nextColID == d.nextColID
    requires forall id: nat {:trigger HasID(e, id)} :: HasID(e, id) ==> HasID(d, id) && TypeOf(e, id) == TypeOf(d, id)
    ensures ColumnStep(s, d, s, e)
  {
    forall k | k in s && IsRowKey(d, k) ensures s[k].RowVal? && ReadsSame(s, d, s, e, k) {
      assert RowGood(s, d, k);
      SameStoreReads(s, d, e, k);
    }
    forall k | k in s && IsRowKey(d, k) ensures RowOK(e, RowAt(s, e, k)) {
      var row := RowAt(s, e, k);
      forall c: nat | c < |e.columns| ensures ColumnFits(d, e, row, c) {
        OrdHasID(e, c);
        assert HasID(d, e.columns[c].id);
      }
      CarriedRowOK(s, d, s, e, k);
    }
    CarriedConsistent(s, d, s, e);
    forall i | 0 <= i < |e.columns| ensures e.columns[i].id < e.nextColID {
      OrdHasID(e, i);
      assert HasID(d, e.columns[i].id);
    }
  }

  lemma DropKeeps(s: KV, d: TableDesc, e: TableDesc, ord: nat)
    requires Good(s, d) && Dropped(d, e, ord) && Unused(d, ord)
    ensures ColumnStep(s, d, s, e) && !HasID(e, d.columns[ord].id)
  {
    DroppedValid(d, e, ord);
    forall id: nat | HasID(e, id) ensures HasID(d, id) && TypeOf(e, id) == TypeOf(d, id) {
      DroppedIDs(d, e, ord, id);
    }
    DroppedIDs(d, e, ord, d.columns[ord].id);
    DescOnly(s, d, e);
  }

  // --- RENAME COLUMN ---

  function RenameRef(names: seq<string>, was: string, now: string): (r: seq<string>)
    ensures |r| == |names| && forall i :: 0 <= i < |names| ==> r[i] == if names[i] == was then now else names[i]
  {
    if names == [] then [] else [if names[0] == was then now else names[0]] + RenameRef(names[1..], was, now)
  }

  /** The foreign keys with the table's references to itself following the new name. */
  function RenamedFKs(d: TableDesc, was: string, now: string): (fks: seq<FKDesc>)
    ensures |fks| == |d.foreignKeys|
  {
    seq(|d.foreignKeys|, i requires 0 <= i < |d.foreignKeys| => RenamedFK(d.foreignKeys[i], d.name, was, now))
  }

  function RenamedFK(fk: FKDesc, table: string, was: string, now: string): FKDesc {
    if fk.refTable == table then fk.(refCols := RenameRef(fk.refCols, was, now)) else fk
  }

  /** The descriptor with one column's name changed, and nothing else but those. */
  function Renamed(d: TableDesc, ord: nat, was: string, now: string): TableDesc
    requires ord < |d.columns|
  {
    d.(columns := d.columns[ord := d.columns[ord].(name := now)], foreignKeys := RenamedFKs(d, was, now))
  }

  predicate RenameRefused(d: TableDesc, was: string, now: string, refs: set<string>) {
    now == "" || ColIndex(d, was, 0).None? || ColIndex(d, now, 0).Some? || was in refs
  }

  /** RenameColumn: a name change in the descriptor, and in the table's own references to
      itself; refused while another table references the column (`refs`). */
  method RenameColumn(ghost s: KV, d: TableDesc, was: string, now: string, refs: set<string>)
      returns (r: Option<TableDesc>)
    requires Good(s, d)
    ensures r.None? <==> RenameRefused(d, was, now, refs)
    ensures r.Some? ==> r.value == Renamed(d, ColIndex(d, was, 0).value, was, now)
    ensures r.Some? ==> ColumnStep(s, d, s, r.value) && forall id: nat :: HasID(r.value, id) <==> HasID(d, id)
    ensures r.Some? ==> ColIndex(r.value, now, 0) == ColIndex(d, was, 0)
  {
    if now == "" { return None; }
    var o := ColIndex(d, was, 0);
    if o.None? || ColIndex(d, now, 0).Some? || was in refs { return None; }
    var fks, i := d.foreignKeys, 0;
    while i < |fks|
      invariant 0 <= i <= |fks| == |d.foreignKeys|
      invariant forall j :: 0 <= j < |fks| ==> fks[j] == if j < i then RenamedFKs(d, was, now)[j] else d.foreignKeys[j]
    {
      if fks[i].refTable == d.name {
        fks := fks[i := fks[i].(refCols := RenameRef(fks[i].refCols, was, now))];
      }
      i := i + 1;
    }
    assert fks == RenamedFKs(d, was, now);
    var e := d.(columns := d.columns[o.value := d.columns[o.value].(name := now)], foreignKeys := fks);
    RenameKeeps(s, d, e, o.value, now);
    r := Some(e);
  }

  lemma {:induction false} SameOrds(a: seq<Column>, b: seq<Column>, id: nat, i: nat)
    requires |a| == |b| && i <= |a| && forall j :: 0 <= j < |a| ==> a[j].id == b[j].id
    ensures OrdByID(a, id, i) == OrdByID(b, id, i)
    decreases |a| - i
  {
    if i < |a| {
      SameOrds(a, b, id, i + 1);
    }
  }

  lemma RenameKeeps(s: KV, d: TableDesc, e: TableDesc, ord: nat, now: string)
    requires Good(s, d) && ord < |d.columns| && ColIndex(d, now, 0).None?
    requires e == d.(columns := d.columns[ord := d.columns[ord].(name := now)], foreignKeys := e.foreignKeys)
    requires |e.foreignKeys| == |d.foreignKeys|
    requires forall j :: 0 <= j < |d.foreignKeys| ==> e.foreignKeys[j].cols == d.foreignKeys[j].cols
    ensures ColumnStep(s, d, s, e) && (forall id: nat :: HasID(e, id) <==> HasID(d, id))
    ensures ColIndex(e, now, 0) == Some(ord)
  {
    forall i | 0 <= i < |d.indexes| ensures SameIndex(d, e, d.indexes[i], e.indexes[i]) {
      assert ValidIndex(d.indexes[i], |d.columns|);
    }
    assert FKsIn(e) by {
      forall i | 0 <= i < |e.foreignKeys| ensures OrdsIn(e.foreignKeys[i].cols, |e.columns|) {
        assert OrdsIn(d.foreignKeys[i].cols, |d.columns|);
      }
    }
    forall id: nat ensures OrdByID(e.columns, id, 0) == OrdByID(d.columns, id, 0) {
      SameOrds(e.columns, d.columns, id, 0);
    }
    DescOnly(s, d, e);
  }

  // --- chains of column steps ---

  datatype Tab = Tab(s: KV, d: TableDesc, counters: Counters)

  ghost predicate Chain(c: seq<Tab>) {
    forall i :: 0 <= i < |c| - 1 ==> ColumnStep(c[i].s, c[i].d, c[i + 1].s, c[i + 1].d)
  }

  /** A dropped column's ID never comes back, so its data never resurfaces. */
  lemma {:induction false} ChainNeverBack(c: seq<Tab>, i: nat, j: nat, id: nat)
    requires Chain(c) && i <= j < |c| && id < c[i].d.nextColID && !HasID(c[i].d, id)
    ensures !HasID(c[j].d, id) && c[i].d.nextColID <= c[j].d.nextColID
    decreases j
  {
    if i < j {
      ChainNeverBack(c, i, j - 1, id);
      assert ColumnStep(c[j - 1].s, c[j - 1].d, c[j].s, c[j].d);
    }
  }

  /** Over any sequence of column operations, a row reads the same for every column that
      is there before and after. */
  lemma {:induction false} ChainReads(c: seq<Tab>, i: nat, j: nat, k: Key, id: nat)
    requires Chain(c) && i <= j < |c| && k in c[i].s && IsRowKey(c[i].d, k)
    requires HasID(c[i].d, id) && HasID(c[j].d, id)
    ensures k in c[j].s && IsRowKey(c[j].d, k) && ReadAt(c[j].s, c[j].d, k, id) == ReadAt(c[i].s, c[i].d, k, id)
    decreases j
  {
    if i < j {
      StillThere(c, i, j - 1, j, id);
      ChainReads(c, i, j - 1, k, id);
      assert ColumnStep(c[j - 1].s, c[j - 1].d, c[j].s, c[j].d);
      assert ReadsSame(c[j - 1].s, c[j - 1].d, c[j].s, c[j].d, k);
    }
  }

  /** A column there before and after was there all along. */
  lemma StillThere(c: seq<Tab>, i: nat, m: nat, j: nat, id: nat)
    requires Chain(c) && i <= m <= j < |c| && i < j && HasID(c[i].d, id) && HasID(c[j].d, id)
    ensures HasID(c[m].d, id)
  {
    if !HasID(c[m].d, id) {
      IdsBelow(c, i, m, id);
      ChainNeverBack(c, m, j, id);
    }
  }

  lemma {:induction false} IdsBelow(c: seq<Tab>, i: nat, m: nat, id: nat)
    requires Chain(c) && i <= m < |c| && i + 1 < |c| && HasID(c[i].d, id)
    ensures id < c[m].d.nextColID
    decreases m
  {
    if i == m {
      assert ColumnStep(c[i].s, c[i].d, c[i + 1].s, c[i + 1].d);
    } else {
      IdsBelow(c, i, m - 1, id);
      assert ColumnStep(c[m - 1].s, c[m - 1].d, c[m].s, c[m].d);
    }
  }

  /** Key, index and foreign-key ordinals name the same column IDs at both ends. */
  lemma {:induction false} ChainKeys(c: seq<Tab>, i: nat, j: nat)
    requires Chain(c) && i < j < |c|
    ensures Good(c[i].s, c[i].d) && Good(c[j].s, c[j].d) && SameKeys(c[i].d, c[j].d)
    decreases j
  {
    assert ColumnStep(c[j - 1].s, c[j - 1].d, c[j].s, c[j].d);
    if i < j - 1 {
      ChainKeys(c, i, j - 1);
      KeysCompose(c[i].d, c[j - 1].d, c[j].d);
    }
  }

  lemma KeysCompose(d: TableDesc, e: TableDesc, f: TableDesc)
    requires ValidTable(d) && ValidTable(e) && ValidTable(f) && FKsIn(d) && FKsIn(e) && FKsIn(f)
    requires SameKeys(d, e) && SameKeys(e, f)
    ensures SameKeys(d, f)
  {
    forall i | 0 <= i < |d.indexes| ensures SameIndex(d, f, d.indexes[i], f.indexes[i]) {
      assert SameIndex(d, e, d.indexes[i], e.indexes[i]) && SameIndex(e, f, e.indexes[i], f.indexes[i]);
    }
  }
}
