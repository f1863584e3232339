/** Adding, dropping and renaming columns (ddl.go): rows are tagged by column ID, so
    what a stored row reads for a column follows its ID through every change. */
module Columns {
  import opened Values
  import opened Schema
  import opened Store
  import opened Table
  import opened TableProof

  // --- what a stored row reads, by column ID ---

  /** The last pair with an ID, or a default. */
  function LastPair(pairs: seq<(nat, Value)>, id: nat, dflt: Value): Value {
    if pairs == [] then dflt
    else if pairs[|pairs| - 1].0 == id then pairs[|pairs| - 1].1
    else LastPair(pairs[..|pairs| - 1], id, dflt)
  }

  function IdsOf(d: TableDesc, ords: seq<nat>): (ids: seq<nat>)
    requires OrdsIn(ords, |d.columns|)
    ensures |ids| == |ords| && forall i :: 0 <= i < |ords| ==> ids[i] == d.columns[ords[i]].id
  {
    seq(|ords|, i requires 0 <= i < |ords| => d.columns[ords[i]].id)
  }

  /** The value a stored row has for a column ID: from the key when it is a key column,
      from the pairs otherwise. */
  function ReadID(pkIds: seq<nat>, pk: seq<Value>, pairs: seq<(nat, Value)>, id: nat): Value {
    LastPair(pairs, id, if id in pkIds && IndexIn(pkIds, id) < |pk| then pk[IndexIn(pkIds, id)] else Null)
  }

  lemma {:induction false} OverlayLast(d: TableDesc, vals: Row, pairs: seq<(nat, Value)>, c: nat)
    requires |vals| == |d.columns| && c < |vals|
    requires forall a, b :: 0 <= a < b < |d.columns| ==> d.columns[a].id != d.columns[b].id
    ensures Overlay(d, vals, pairs)[c] == LastPair(pairs, d.columns[c].id, vals[c])
    decreases |pairs|
  {
    if pairs != [] {
      var o := OrdByID(d.columns, pairs[0].0, 0);
      var v2 := if o.Some? then vals[o.value := pairs[0].1] else vals;
      OverlayLast(d, v2, pairs[1..], c);
      OrdOfColumn(d, c, 0);
      LastCons(pairs, d.columns[c].id, vals[c]);
    }
  }

  lemma {:induction false} LastCons(pairs: seq<(nat, Value)>, id: nat, dflt: Value)
    requires pairs != []
    ensures LastPair(pairs, id, dflt) == LastPair(pairs[1..], id, if pairs[0].0 == id then pairs[0].1 else dflt)
  {
    if |pairs| > 1 {
      var front := pairs[..|pairs| - 1];
      LastCons(front, id, dflt);
      assert front[1..] == pairs[1..][..|pairs| - 2];
      assert front[0] == pairs[0] && pairs[1..][|pairs| - 2] == pairs[|pairs| - 1];
    }
  }

  lemma {:induction false} IndexInIds(d: TableDesc, cols: seq<nat>, c: nat)
    requires OrdsIn(cols, |d.columns|) && c < |d.columns|
    requires forall a, b :: 0 <= a < b < |d.columns| ==> d.columns[a].id != d.columns[b].id
    ensures c in cols <==> d.columns[c].id in IdsOf(d, cols)
    ensures c in cols ==> IndexIn(cols, c) == IndexIn(IdsOf(d, cols), d.columns[c].id)
    decreases |cols|
  {
    hide IdsOf;
    if cols != [] {
      var rest, ids, id := IdsOf(d, cols[1..]), IdsOf(d, cols), d.columns[c].id;
      IndexInIds(d, cols[1..], c);
      assert cols == [cols[0]] + cols[1..] && ids == [d.columns[cols[0]].id] + rest;
      assert ids[1..] == rest && (ids[0] == id <==> cols[0] == c);
    }
  }

  /** A decoded row holds, in each column, what its ID reads. */
  lemma DecodeByID(d: TableDesc, pk: seq<Value>, pairs: seq<(nat, Value)>, c: nat)
    requires ValidTable(d) && c < |d.columns|
    ensures DecodeRow(d, pk, pairs)[c] == ReadID(IdsOf(d, d.pkCols), pk, pairs, d.columns[c].id)
  {
    OverlayLast(d, KeyColumns(d, pk), pairs, c);
    IndexInIds(d, d.pkCols, c);
  }

  // --- the ID lookup table ---

  /** buildOrdByID: direct indexing by ID; a table with an ID past the cap keeps the
      linear scan. */
  method BuildOrdByID(cols: seq<Column>) returns (table: Option<seq<Option<nat>>>)
    requires forall a, b :: 0 <= a < b < |cols| ==> cols[a].id != cols[b].id
    ensures forall id: nat ::
      (if table.Some? then TableLookup(table.value, id) else OrdByID(cols, id, 0)) == OrdByID(cols, id, 0)
    ensures table.None? <==> exists i :: 0 <= i < |cols| && cols[i].id > 4096
  {
    var maxID, i := 0, 0;
    while i < |cols|
      invariant 0 <= i <= |cols| && forall j :: 0 <= j < i ==> cols[j].id <= maxID
      invariant maxID == 0 || exists j :: 0 <= j < i && cols[j].id == maxID
    {
      if cols[i].id > maxID { maxID := cols[i].id; }
      i := i + 1;
    }
    if maxID > 4096 {
      return None;
    }
    var t: seq<Option<nat>> := seq(maxID + 1, _ => None);
    i := 0;
    while i < |cols|
      invariant 0 <= i <= |cols| && |t| == maxID + 1
      invariant forall id: nat :: id <= maxID ==> (t[id].Some? ==> t[id].value < i && cols[t[id].value].id == id)
      invariant forall j :: 0 <= j < i ==> t[cols[j].id] == Some(j)
    {
      t := t[cols[i].id := Some(i)];
      i := i + 1;
    }
    forall id: nat ensures TableLookup(t, id) == OrdByID(cols, id, 0) {
      var o := OrdByID(cols, id, 0);
      if o.Some? {
        assert t[cols[o.value].id] == Some(o.value);
      }
    }
    table := Some(t);
  }

  function TableLookup(t: seq<Option<nat>>, id: nat): Option<nat> {
    if id < |t| then t[id] else None
  }

  // --- descriptors ---

  /** A descriptor whose IDs and stored pairs are all below the next ID. */
  ghost predicate Fresh(s: KV, d: TableDesc) {
    && (forall i :: 0 <= i < |d.columns| ==> d.columns[i].id < d.nextColID)
    && (forall k :: k in s && IsRowKey(d, k) ==> PairsBelow(s[k], d.nextColID))
  }

  predicate PairsBelow(v: Stored, n: nat) {
    v.RowVal? ==> forall i :: 0 <= i < |v.pairs| ==> v.pairs[i].0 < n
  }

  ghost predicate FKsIn(d: TableDesc) {
    forall i :: 0 <= i < |d.foreignKeys| ==> OrdsIn(d.foreignKeys[i].cols, |d.columns|)
  }

  /** A table the column operations act on: consistent, with IDs in order. */
  ghost predicate Good(s: KV, d: TableDesc) {
    Consistent(s, d) && Fresh(s, d) && FKsIn(d)
  }

  /** Key, index and foreign-key ordinals name the same column IDs in both. */
  ghost predicate SameKeys(d: TableDesc, e: TableDesc)
    requires ValidTable(d) && ValidTable(e) && FKsIn(d) && FKsIn(e)
  {
    && e.id == d.id && IdsOf(e, e.pkCols) == IdsOf(d, d.pkCols)
    && |e.indexes| == |d.indexes| && |e.foreignKeys| == |d.foreignKeys|
    && (forall i :: 0 <= i < |d.indexes| ==> SameIndex(d, e, d.indexes[i], e.indexes[i]))
    && (forall i :: 0 <= i < |d.foreignKeys| ==> IdsOf(e, e.foreignKeys[i].cols) == IdsOf(d, d.foreignKeys[i].cols))
  }

  ghost predicate SameIndex(d: TableDesc, e: TableDesc, x: IndexDesc, y: IndexDesc)
    requires ValidIndex(x, |d.columns|) && ValidIndex(y, |e.columns|)
  {
    y.id == x.id && y.unique == x.unique && y.desc == x.desc && IdsOf(e, y.cols) == IdsOf(d, x.cols)
  }

  /** A column ID of a descriptor. */
  predicate HasID(d: TableDesc, id: nat) {
    OrdByID(d.columns, id, 0).Some?
  }

  function TypeOf(d: TableDesc, id: nat): (ColType, bool, bool)
    requires HasID(d, id)
  {
    var c := d.columns[OrdByID(d.columns, id, 0).value];
    (c.typ, c.notNull, c.identity)
  }

  /** What the row at a key reads for a column ID. */
  function ReadAt(s: KV, d: TableDesc, k: Key, id: nat): Value
    requires k in s && HasID(d, id)
  {
    RowAt(s, d, k)[OrdByID(d.columns, id, 0).value]
  }

  lemma ReadAtIs(s: KV, d: TableDesc, k: Key, id: nat)
    requires ValidTable(d) && k in s && HasID(d, id)
    ensures ReadAt(s, d, k, id) == ReadID(IdsOf(d, d.pkCols), k.vals, if s[k].RowVal? then s[k].pairs else [], id)
  {
    DecodeByID(d, k.vals, if s[k].RowVal? then s[k].pairs else [], OrdByID(d.columns, id, 0).value);
  }
}
