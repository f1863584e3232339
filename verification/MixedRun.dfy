/** One run that mixes row operations, index changes and rebuilds with ADD, DROP and RENAME
    COLUMN: indexes stay exact throughout, and a row written between column changes reads
    what was written for as long as nothing rewrites it. */
module MixedRun {
  import opened Values
  import opened Schema
  import opened Store
  import opened Table
  import opened TableProof
  import opened TableScan
  import opened TableDDL
  import opened Rebuild
  import opened Columns
  import opened ColumnOps
  import TableRun
  import ColumnRun

  datatype Op = OnRows(rows: TableRun.Op) | OnColumns(cols: ColumnRun.Op)

  /** The same column IDs in the same order: neither statement that rebuilds a table moves
      a column. */
  predicate SameIDs(d: TableDesc, e: TableDesc) {
    && |e.columns| == |d.columns| && e.nextColID == d.nextColID && e.foreignKeys == d.foreignKeys
    && forall i :: 0 <= i < |d.columns| ==> e.columns[i].id == d.columns[i].id
  }

  predicate KeepsIDs(d: TableDesc, o: TableRun.Op) {
    o.RebuildAs? ==> SameIDs(d, o.next)
  }

  /** Row operations may move, start or clear counters, of the columns there are. */
  ghost predicate CountersMove(a: Tab, b: Tab) {
    forall id :: id in b.counters ==> id in a.counters || HasID(a.d, id)
  }

  ghost predicate StepBy(a: Tab, op: Op, b: Tab) {
    match op
    case OnRows(o) => KeepsIDs(a.d, o) && RowsStep(a, o, b) && CountersMove(a, b)
    case OnColumns(o) => ColumnRun.StepBy(a, o, b)
  }

  ghost predicate RowsStep(a: Tab, o: TableRun.Op, b: Tab) {
    TableRun.StepBy(TableRun.State(a.s, a.d), o, TableRun.State(b.s, b.d))
  }

  /** Rows and entries agree, index names are distinct, every ID and stored pair is below
      the next ID, and counters belong to IDs already used. */
  ghost predicate Whole(a: Tab) {
    ColumnRun.GoodTab(a) && NamesDiffer(a.d)
  }

  // --- row operations keep stored pairs below the next ID ---

  ghost predicate Below(s: KV, d: TableDesc) {
    forall k :: k in s && IsRowKey(d, k) ==> PairsBelow(s[k], d.nextColID)
  }

  predicate IDsBelow(d: TableDesc) {
    forall i :: 0 <= i < |d.columns| ==> d.columns[i].id < d.nextColID
  }

  lemma {:induction false} EncodedBelow(d: TableDesc, row: Row, i: nat)
    requires IDsBelow(d) && i <= |d.columns| == |row|
    ensures forall j :: 0 <= j < |EncodePairs(d, row, i)| ==> EncodePairs(d, row, i)[j].0 < d.nextColID
    decreases |row| - i
  {
    if i < |row| {
      EncodedBelow(d, row, i + 1);
    }
  }

  lemma InsertBelow(s: KV, d: TableDesc, vals: seq<Value>)
    requires ValidTable(d) && IDsBelow(d) && Insert(s, d, vals).Done? && Below(s, d)
    ensures Below(Apply(s, Insert(s, d, vals).writes), d)
  {
    var o := Insert(s, d, vals);
    var t := Apply(s, o.writes);
    EncodedBelow(d, o.result, 0);
    forall k | k in t && IsRowKey(d, k) ensures PairsBelow(t[k], d.nextColID) {
      InsertAt(s, d, vals, k);
      assert Lookup(t, k) == Some(t[k]);
    }
  }

  /** An update that finds its row can go ahead. */
  lemma UpdateCan(s: KV, d: TableDesc, pk: seq<Value>, sets: map<nat, Value>)
    requires Consistent(s, d) && Update(s, d, pk, sets).Done? && KeyOf(d, pk).value in s
    ensures var o, rk := Update(s, d, pk, sets), KeyOf(d, pk).value;
            && o.result.Some? && CanUpdate(s, d, rk, o.result.value)
            && Apply(s, o.writes) == Updated(s, d, rk, o.result.value)
  {
    assert RowGood(s, d, KeyOf(d, pk).value);
  }

  lemma UpdateBelow(s: KV, d: TableDesc, pk: seq<Value>, sets: map<nat, Value>)
    requires Consistent(s, d) && IDsBelow(d) && Update(s, d, pk, sets).Done? && Below(s, d)
    ensures Below(Apply(s, Update(s, d, pk, sets).writes), d)
  {
    var rk, t := KeyOf(d, pk).value, Apply(s, Update(s, d, pk, sets).writes);
    if rk in s {
      UpdateCan(s, d, pk, sets);
      UpdatedBelow(s, d, rk, Update(s, d, pk, sets).result.value);
    } else {
      assert t == s;
    }
  }

  lemma UpdatedBelow(s: KV, d: TableDesc, rk: Key, now: Row)
    requires CanUpdate(s, d, rk, now) && IDsBelow(d) && Below(s, d)
    ensures Below(Updated(s, d, rk, now), d)
  {
    var t := Updated(s, d, rk, now);
    EncodedBelow(d, now, 0);
    forall k | k in t && IsRowKey(d, k) ensures PairsBelow(t[k], d.nextColID) {
      UpdateAt(s, d, rk, now, k);
      assert Lookup(t, k) == Some(t[k]);
    }
  }

  lemma DeleteBelow(s: KV, d: TableDesc, pk: seq<Value>)
    requires Consistent(s, d) && Delete(s, d, pk).Done? && Below(s, d)
    ensures Below(Apply(s, Delete(s, d, pk).writes), d)
  {
    var rk, t := KeyOf(d, pk).value, Apply(s, Delete(s, d, pk).writes);
    if rk in s {
      forall k | k in t && IsRowKey(d, k) ensures PairsBelow(t[k], d.nextColID) {
        DeleteRows(s, d, rk, k);
      }
    } else {
      assert t == s;
    }
  }

  lemma RebuiltBelow(s: KV, d: TableDesc, next: TableDesc, rewrite: Rewrite)
    requires ValidRewrite(d, next, rewrite) && Rebuilds(s, d, next, rewrite) && IDsBelow(next)
    ensures Below(Rebuilt(s, d, next, rewrite), next)
  {
    var rows := Rewritten(StoredRows(s, d), rewrite);
    RefilledBelow(Truncate(s, next), next, rows, |rows|);
  }

  lemma {:induction false} RefilledBelow(t: KV, d: TableDesc, rows: seq<Row>, n: nat)
    requires ValidTable(d) && IDsBelow(d) && n <= |rows| && Below(t, d)
    ensures Below(Refilled(t, rows, n, InsertInto(d)), d)
  {
    if n > 0 {
      RefilledBelow(t, d, rows, n - 1);
      var u := Refilled(t, rows, n - 1, InsertInto(d));
      if Insert(u, d, rows[n - 1]).Done? {
        InsertBelow(u, d, rows[n - 1]);
      }
    }
  }

  // --- every step keeps the table whole ---

  /** Row operations other than a rebuild leave the columns alone, and index changes leave
      every row as it is stored. */
  lemma IndexLeaves(a: Tab, o: TableRun.Op, b: Tab)
    requires Whole(a) && RowsStep(a, o, b) && (o.AddIndex? || o.RemoveIndex?)
    ensures b.d == a.d.(indexes := b.d.indexes) && RowsOf(b.s, b.d) == RowsOf(a.s, a.d)
    ensures forall k: Key :: IsRowKey(a.d, k) ==> Lookup(b.s, k) == Lookup(a.s, k)
  {
    var x, y := TableRun.State(a.s, a.d), TableRun.State(b.s, b.d);
    if o.AddIndex? {
      if !BadIndex(a.d, o.name, o.cols) {
        var idx :| Declared(a.d, idx, o.name, o.unique, o.cols) && TableRun.IndexStep(x, idx, y);
        if y != x {
          IndexComplete(a.s, a.d, idx, b.s);
        }
      }
    } else if n :| TableRun.HasIndex(a.d, n, o.name) && y == TableRun.Unindexed(x, n) {
      DropIndexConsistent(a.s, a.d, n);
    }
  }

  lemma RowsBelow(a: Tab, o: TableRun.Op, b: Tab)
    requires Whole(a) && KeepsIDs(a.d, o) && RowsStep(a, o, b)
    ensures Below(b.s, b.d) && SameIDs(a.d, b.d)
  {
    hide Insert, Update, Delete;
    var s, d := a.s, a.d;
    match o
    case InsertRow(vals) =>
      if Insert(s, d, vals).Done? { InsertBelow(s, d, vals); }
    case UpdateRow(pk, sets) =>
      if Update(s, d, pk, sets).Done? { UpdateBelow(s, d, pk, sets); }
    case DeleteRow(pk) =>
      if Delete(s, d, pk).Done? { DeleteBelow(s, d, pk); }
    case TruncateTable =>
    case RebuildAs(next, rewrite) =>
      if ValidRewrite(d, next, rewrite) && NamesDiffer(next) && Rebuilds(s, d, next, rewrite) {
        RebuiltBelow(s, d, next, rewrite);
      }
    case _ =>
      IndexLeaves(a, o, b);
      forall k | k in b.s && IsRowKey(b.d, k) ensures PairsBelow(b.s[k], b.d.nextColID) {
        assert Lookup(b.s, k) == Lookup(a.s, k);
      }
  }

  lemma SameOrds(d: TableDesc, e: TableDesc, id: nat, i: nat)
    requires SameIDs(d, e) && i <= |d.columns|
    ensures OrdByID(e.columns, id, i) == OrdByID(d.columns, id, i)
    decreases |d.columns| - i
  {
    if i < |d.columns| {
      SameOrds(d, e, id, i + 1);
    }
  }

  lemma RowsKeep(a: Tab, o: TableRun.Op, b: Tab)
    requires Whole(a) && StepBy(a, OnRows(o), b)
    ensures Whole(b)
  {
    hide TableRun.StepBy, Consistent;
    TableRun.StepKeeps(TableRun.State(a.s, a.d), o, TableRun.State(b.s, b.d));
    RowsBelow(a, o, b);
    CountersBelow(a, b);
  }

  lemma CountersBelow(a: Tab, b: Tab)
    requires Whole(a) && CountersMove(a, b) && SameIDs(a.d, b.d)
    ensures forall id :: id in b.counters ==> id < b.d.nextColID
  {
    forall id | id in b.counters ensures id < b.d.nextColID {
      if HasID(a.d, id) {
        assert a.d.columns[OrdByID(a.d.columns, id, 0).value].id == id;
      }
    }
  }

  /** A column change leaves the names of the indexes alone. */
  lemma NamesStay(a: Tab, o: ColumnRun.Op, b: Tab)
    requires NamesDiffer(a.d) && ColumnRun.StepBy(a, o, b)
    ensures NamesDiffer(b.d)
  {
  }

  /** Every operation takes a whole table to a whole one. */
  lemma StepKeeps(a: Tab, op: Op, b: Tab)
    requires Whole(a) && StepBy(a, op, b)
    ensures Whole(b)
  {
    match op
    case OnRows(o) => RowsKeep(a, o, b);
    case OnColumns(o) =>
      ColumnRun.StepKeeps(a, o, b);
      NamesStay(a, o, b);
  }

  // --- what one step leaves a row reading ---

  /** The operation may rewrite, move or remove the row at k. */
  predicate Touches(d: TableDesc, op: Op, k: Key) {
    match op
    case OnColumns(_) => false
    case OnRows(o) =>
      (match o
       case InsertRow(_) => false
       case UpdateRow(pk, _) => KeyOf(d, pk) == Some(k)
       case DeleteRow(pk) => KeyOf(d, pk) == Some(k)
       case TruncateTable => true
       case AddIndex(_, _, _) => false
       case RemoveIndex(_) => false
       case RebuildAs(_, _) => true)
  }

  /** The row is still there and reads the same for every column that is. */
  ghost predicate RowStays(a: Tab, b: Tab, k: Key) {
    k in a.s && k in b.s && IsRowKey(b.d, k) && ReadsSame(a.s, a.d, b.s, b.d, k)
  }

  lemma SameStored(a: Tab, b: Tab, k: Key)
    requires k in a.s && k in b.s && b.s[k] == a.s[k] && b.d == a.d && IsRowKey(a.d, k)
    ensures RowStays(a, b, k)
  {
  }

  lemma IndexStays(a: Tab, o: TableRun.Op, b: Tab, k: Key)
    requires Whole(a) && RowsStep(a, o, b) && (o.AddIndex? || o.RemoveIndex?) && k in a.s && IsRowKey(a.d, k)
    ensures RowStays(a, b, k)
  {
    IndexLeaves(a, o, b);
    assert Lookup(b.s, k) == Lookup(a.s, k);
    assert RowsOf(a.s, a.d)[k] == RowAt(a.s, a.d, k) && RowsOf(b.s, b.d)[k] == RowAt(b.s, b.d, k);
  }

  lemma UpdateLeaves(s: KV, d: TableDesc, pk: seq<Value>, sets: map<nat, Value>, k: Key)
    requires Consistent(s, d) && Update(s, d, pk, sets).Done? && k in s && IsRowKey(d, k) && KeyOf(d, pk) != Some(k)
    ensures var t := Apply(s, Update(s, d, pk, sets).writes); k in t && t[k] == s[k]
  {
    if KeyOf(d, pk).value in s {
      UpdateCan(s, d, pk, sets);
      UpdateRows(s, d, KeyOf(d, pk).value, Update(s, d, pk, sets).result.value, k);
    }
  }

  lemma DeleteLeaves(s: KV, d: TableDesc, pk: seq<Value>, k: Key)
    requires Consistent(s, d) && Delete(s, d, pk).Done? && k in s && IsRowKey(d, k) && KeyOf(d, pk) != Some(k)
    ensures var t := Apply(s, Delete(s, d, pk).writes); k in t && t[k] == s[k]
  {
    if KeyOf(d, pk).value in s {
      DeleteRows(s, d, KeyOf(d, pk).value, k);
    }
  }

  lemma OtherRowStays(a: Tab, o: TableRun.Op, b: Tab, k: Key)
    requires Whole(a) && RowsStep(a, o, b) && (o.InsertRow? || o.UpdateRow? || o.DeleteRow?)
    requires k in a.s && IsRowKey(a.d, k) && !Touches(a.d, OnRows(o), k)
    ensures RowStays(a, b, k)
  {
    hide Insert, Update, Delete, RowStays;
    match o {
      case InsertRow(vals) =>
        if Insert(a.s, a.d, vals).Done? { InsertRows(a.s, a.d, vals, k); }
      case UpdateRow(pk, sets) =>
        if Update(a.s, a.d, pk, sets).Done? { UpdateLeaves(a.s, a.d, pk, sets, k); }
      case DeleteRow(pk) =>
        if Delete(a.s, a.d, pk).Done? { DeleteLeaves(a.s, a.d, pk, k); }
    }
    SameStored(a, b, k);
  }

  /** A step that does not touch a row leaves it, reading the same. */
  lemma StepReads(a: Tab, op: Op, b: Tab, k: Key)
    requires Whole(a) && StepBy(a, op, b) && k in a.s && IsRowKey(a.d, k) && !Touches(a.d, op, k)
    ensures RowStays(a, b, k)
  {
    match op
    case OnColumns(o) =>
      ColumnRun.StepKeeps(a, o, b);
    case OnRows(o) =>
      if o.AddIndex? || o.RemoveIndex? {
        IndexStays(a, o, b, k);
      } else {
        OtherRowStays(a, o, b, k);
      }
  }

  /** IDs are never used again: one that is new is at or past the next ID before. */
  lemma StepIDs(a: Tab, op: Op, b: Tab)
    requires Whole(a) && StepBy(a, op, b)
    ensures a.d.nextColID <= b.d.nextColID
    ensures forall id: nat {:trigger HasID(b.d, id)} :: HasID(b.d, id) && !HasID(a.d, id) ==> id >= a.d.nextColID
  {
    match op
    case OnColumns(o) =>
      ColumnRun.StepKeeps(a, o, b);
    case OnRows(o) =>
      RowsBelow(a, o, b);
      forall id: nat | HasID(b.d, id) ensures HasID(a.d, id) {
        SameOrds(a.d, b.d, id, 0);
      }
  }

  // --- runs ---

  /** The tables a list of operations passes through. */
  ghost predicate IsRun(ops: seq<Op>, c: seq<Tab>) {
    |c| == |ops| + 1 && forall i :: 0 <= i < |ops| ==> StepAt(ops, c, i)
  }

  ghost predicate StepAt(ops: seq<Op>, c: seq<Tab>, i: nat)
    requires i < |ops| && i + 1 < |c|
  {
    StepBy(c[i], ops[i], c[i + 1])
  }

  /** At every point of every mixed run, rows and entries agree. */
  lemma {:induction false} RunWhole(ops: seq<Op>, c: seq<Tab>, i: nat)
    requires IsRun(ops, c) && i < |c| && Whole(c[0])
    ensures Whole(c[i]) && TableRun.Exact(TableRun.State(c[i].s, c[i].d))
  {
    if i > 0 {
      RunWhole(ops, c, i - 1);
      assert StepAt(ops, c, i - 1);
      StepKeeps(c[i - 1], ops[i - 1], c[i]);
    }
  }

  /** So every index lists exactly the rows there are, in its own order. */
  lemma AnyIndexServes(ops: seq<Op>, c: seq<Tab>, i: nat, path: Path)
    requires IsRun(ops, c) && i < |c| && Whole(c[0]) && PathOf(c[i].d, path)
    ensures Consistent(c[i].s, c[i].d) && Listed(c[i].d, path, Listing(c[i].s, c[i].d, path))
    ensures multiset(Listing(c[i].s, c[i].d, path)) == multiset(Listing(c[i].s, c[i].d, Primary))
  {
    RunWhole(ops, c, i);
    ListingListed(c[i].s, c[i].d, path);
    ListingsAgree(c[i].s, c[i].d, path);
  }

  /** An ID once used and not there never comes back. */
  lemma {:induction false} NeverBack(ops: seq<Op>, c: seq<Tab>, i: nat, j: nat, id: nat)
    requires IsRun(ops, c) && Whole(c[0]) && i <= j < |c| && id < c[i].d.nextColID && !HasID(c[i].d, id)
    ensures !HasID(c[j].d, id) && id < c[j].d.nextColID
    decreases j
  {
    hide Whole, StepBy;
    if i < j {
      NeverBack(ops, c, i, j - 1, id);
      RunWhole(ops, c, j - 1);
      assert StepAt(ops, c, j - 1);
      StepIDs(c[j - 1], ops[j - 1], c[j]);
    }
  }

  lemma {:induction false} IDStays(ops: seq<Op>, c: seq<Tab>, i: nat, j: nat, id: nat)
    requires IsRun(ops, c) && Whole(c[0]) && i <= j < |c| && HasID(c[i].d, id)
    ensures id < c[j].d.nextColID
    decreases j
  {
    hide StepBy, Consistent;
    if i == j {
      RunWhole(ops, c, i);
      assert c[i].d.columns[OrdByID(c[i].d.columns, id, 0).value].id == id;
    } else {
      IDStays(ops, c, i, j - 1, id);
      RunWhole(ops, c, j - 1);
      assert StepAt(ops, c, j - 1);
      StepIDs(c[j - 1], ops[j - 1], c[j]);
    }
  }

  /** No operation from i up to j touches the row at k. */
  ghost predicate Quiet(ops: seq<Op>, c: seq<Tab>, i: nat, j: nat, k: Key)
    requires |c| == |ops| + 1 && j < |c|
  {
    forall m :: i <= m < j ==> !Touches(c[m].d, ops[m], k)
  }

  /** Through any mix of operations that do not touch it, a row reads the same for every
      column there before and after. */
  lemma {:induction false} ReadsOn(ops: seq<Op>, c: seq<Tab>, i: nat, j: nat, k: Key, id: nat)
    requires IsRun(ops, c) && Whole(c[0]) && i <= j < |c| && k in c[i].s && IsRowKey(c[i].d, k)
    requires Quiet(ops, c, i, j, k) && HasID(c[i].d, id) && HasID(c[j].d, id)
    ensures k in c[j].s && IsRowKey(c[j].d, k) && ReadAt(c[j].s, c[j].d, k, id) == ReadAt(c[i].s, c[i].d, k, id)
    decreases j
  {
    hide Whole, StepBy, Touches, HasID, RowAt;
    if i < j {
      if !HasID(c[j - 1].d, id) {
        IDStays(ops, c, i, j - 1, id);
        NeverBack(ops, c, j - 1, j, id);
      }
      ReadsOn(ops, c, i, j - 1, k, id);
      RunWhole(ops, c, j - 1);
      assert StepAt(ops, c, j - 1);
      StepReads(c[j - 1], ops[j - 1], c[j], k);
    }
  }

  // --- rows written, and columns added, in the middle of a run ---

  /** The operation stored this row, under this key. */
  ghost predicate Wrote(a: Tab, op: Op, k: Key, row: Row) {
    && op.OnRows? && k == RowKey(a.d, Project(row, a.d.pkCols))
    && match op.rows
       case InsertRow(vals) => var o := Insert(a.s, a.d, vals); o.Done? && o.result == row
       case UpdateRow(pk, sets) => var o := Update(a.s, a.d, pk, sets); o.Done? && o.result == Some(row)
       case _ => false
  }

  lemma WroteRow(a: Tab, op: Op, b: Tab, k: Key, row: Row)
    requires Whole(a) && StepBy(a, op, b) && Wrote(a, op, k, row)
    ensures b.d == a.d && k in b.s && IsRowKey(b.d, k) && RowAt(b.s, b.d, k) == row && |row| == |a.d.columns|
  {
    var s, d := a.s, a.d;
    match op.rows
    case InsertRow(vals) => InsertRows(s, d, vals, k);
    case UpdateRow(pk, sets) =>
      UpdateCan(s, d, pk, sets);
      UpdateRows(s, d, KeyOf(d, pk).value, row, k);
  }

  /** A row written at any point reads, in every column it was written with, what was
      written, whatever columns, indexes and other rows come and go after it. */
  lemma WrittenReads(ops: seq<Op>, c: seq<Tab>, i: nat, j: nat, k: Key, row: Row, id: nat)
    requires IsRun(ops, c) && Whole(c[0]) && i < j < |c| && Wrote(c[i], ops[i], k, row)
    requires Quiet(ops, c, i + 1, j, k) && HasID(c[i].d, id) && HasID(c[j].d, id)
    ensures k in c[j].s && IsRowKey(c[j].d, k) && |row| == |c[i].d.columns|
    ensures ReadAt(c[j].s, c[j].d, k, id) == row[OrdByID(c[i].d.columns, id, 0).value]
  {
    hide Whole, StepBy, Wrote, Quiet, RowAt;
    RunWhole(ops, c, i);
    assert StepAt(ops, c, i);
    WroteRow(c[i], ops[i], c[i + 1], k, row);
    assert ReadAt(c[i + 1].s, c[i + 1].d, k, id) == row[OrdByID(c[i].d.columns, id, 0).value];
    ReadsOn(ops, c, i + 1, j, k, id);
  }

  /** And in a column added after it, the default, NULL or number it was then given. */
  lemma NewColumnReads(ops: seq<Op>, c: seq<Tab>, m: nat, j: nat, n: nat)
    requires IsRun(ops, c) && Whole(c[0]) && m < j < |c| && ops[m].OnColumns? && ops[m].cols.Add?
    requires !ColumnRun.Refuses(c[m], ops[m].cols) && n < |ColumnRun.RowList(c[m])|
    requires Quiet(ops, c, m + 1, j, ColumnRun.RowList(c[m])[n]) && HasID(c[j].d, c[m].d.nextColID)
    ensures var col, k := ops[m].cols.c, ColumnRun.RowList(c[m])[n];
            ReadsFill(c[j].s, c[j].d, k, c[m].d.nextColID, FillOf(col.identity, col.dflt)(n))
  {
    hide Quiet, RowAt, Good, ColumnRun.RowList;
    RunWhole(ops, c, m);
    assert StepAt(ops, c, m);
    ColumnRun.DefaultRead(c[m], ops[m].cols.c, c[m + 1], n);
    ReadsOn(ops, c, m + 1, j, ColumnRun.RowList(c[m])[n], c[m].d.nextColID);
  }
}
