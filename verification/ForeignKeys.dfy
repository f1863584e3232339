/** Row-level foreign keys (sql/fk.go, fk.go): MATCH SIMPLE, checked at the end of the
    statement, with ON DELETE CASCADE run from a worklist. */
module ForeignKeys {
  import opened Values
  import opened Schema
  import opened Table

  /** A row's place: its table and primary key. */
  datatype RowId = RowId(table: string, pk: seq<Value>)

  type DB = map<RowId, Row>
  type Cat = map<string, TableDesc>

  // --- references ---

  /** fkRefTuple: a parent row's referenced values; None when one is NULL or gone. */
  function RefTuple(d: TableDesc, refCols: seq<string>, row: Row): (r: Option<seq<Value>>)
    ensures r.Some? ==> |r.value| == |refCols| && Null !in r.value
  {
    if refCols == [] then Some([])
    else
      var ord, rest := ColIndex(d, refCols[0], 0), RefTuple(d, refCols[1..], row);
      if ord.None? || At(row, ord.value) == Null || rest.None? then None else Some([At(row, ord.value)] + rest.value)
  }

  /** A child row's foreign-key values; None, under MATCH SIMPLE, when one is NULL. */
  function ChildTuple(fk: FKDesc, row: Row): Option<seq<Value>> {
    if Null in Project(row, fk.cols) then None else Some(Project(row, fk.cols))
  }

  predicate HasFK(cat: Cat, table: string, fk: FKDesc) {
    table in cat && fk in cat[table].foreignKeys
  }

  /** Child c references parent p through fk. */
  predicate Refers(cat: Cat, db: DB, c: RowId, fk: FKDesc, p: RowId) {
    && c in db && p in db && HasFK(cat, c.table, fk) && p.table == fk.refTable && p.table in cat
    && ChildTuple(fk, db[c]).Some? && RefTuple(cat[p.table], fk.refCols, db[p]) == ChildTuple(fk, db[c])
  }

  /** Some row carries the referenced values. */
  ghost predicate Answered(cat: Cat, db: DB, fk: FKDesc, t: seq<Value>) {
    exists p ::
      p in db && p.table == fk.refTable && p.table in cat && RefTuple(cat[p.table], fk.refCols, db[p]) == Some(t)
  }

  ghost predicate RowSound(cat: Cat, db: DB, table: string, row: Row) {
    forall fk :: HasFK(cat, table, fk) && ChildTuple(fk, row).Some? ==> Answered(cat, db, fk, ChildTuple(fk, row).value)
  }

  /** No dangling reference. */
  ghost predicate NoDangling(cat: Cat, db: DB) {
    forall c :: c in db ==> RowSound(cat, db, c.table, db[c])
  }

  // --- the checks ---

  /** fkRefTuple's loop. */
  method RefTupleLoop(d: TableDesc, refCols: seq<string>, row: Row) returns (r: Option<seq<Value>>)
    ensures r == RefTuple(d, refCols, row)
  {
    var vals, i := [], 0;
    assert refCols[0..] == refCols;
    if RefTuple(d, refCols, row).Some? {
      assert [] + RefTuple(d, refCols, row).value == RefTuple(d, refCols, row).value;
    }
    while i < |refCols|
      invariant 0 <= i <= |refCols|
      invariant RefTuple(d, refCols, row) == Prepend(vals, RefTuple(d, refCols[i..], row))
    {
      assert refCols[i..][1..] == refCols[i + 1..];
      var ord := ColIndex(d, refCols[i], 0);
      if ord.None? || At(row, ord.value) == Null {
        return None;
      }
      PrependStep(vals, At(row, ord.value), RefTuple(d, refCols[i + 1..], row));
      vals, i := vals + [At(row, ord.value)], i + 1;
    }
    assert vals + [] == vals;
    r := Some(vals);
  }

  function Prepend(vs: seq<Value>, r: Option<seq<Value>>): Option<seq<Value>> {
    if r.None? then None else Some(vs + r.value)
  }

  lemma PrependStep(vs: seq<Value>, v: Value, r: Option<seq<Value>>)
    ensures Prepend(vs, Prepend([v], r)) == Prepend(vs + [v], r)
  {
    if r.Some? {
      assert vs + ([v] + r.value) == vs + [v] + r.value;
    }
  }

  /** fkVerifyRow: each fully non-NULL tuple must be answered. */
  method VerifyRow(cat: Cat, db: DB, table: string, row: Row) returns (ok: bool)
    requires table in cat
    ensures ok <==> RowSound(cat, db, table, row)
  {
    var fks, i := cat[table].foreignKeys, 0;
    while i < |fks|
      invariant 0 <= i <= |fks|
      invariant forall j ::
        0 <= j < i && ChildTuple(fks[j], row).Some? ==> Answered(cat, db, fks[j], ChildTuple(fks[j], row).value)
    {
      var t := ChildTuple(fks[i], row);
      if t.Some? {
        var found := RowExists(cat, db, fks[i], t.value);
        if !found {
          assert HasFK(cat, table, fks[i]);
          return false;
        }
      }
      i := i + 1;
    }
    forall fk | HasFK(cat, table, fk) && ChildTuple(fk, row).Some?
      ensures Answered(cat, db, fk, ChildTuple(fk, row).value)
    {
      var j :| 0 <= j < |fks| && fks[j] == fk;
    }
    ok := true;
  }

  /** fkRowExists on a parent: the first match ends the scan. */
  method RowExists(cat: Cat, db: DB, fk: FKDesc, t: seq<Value>) returns (found: bool)
    ensures found <==> Answered(cat, db, fk, t)
  {
    var todo := db.Keys;
    while todo != {}
      invariant todo <= db.Keys
      invariant forall p ::
        p in db.Keys - todo ==>
          !(p.table == fk.refTable && p.table in cat && RefTuple(cat[p.table], fk.refCols, db[p]) == Some(t))
      decreases |todo|
    {
      var p :| p in todo;
      if p.table == fk.refTable && p.table in cat && RefTuple(cat[p.table], fk.refCols, db[p]) == Some(t) {
        return true;
      }
      todo := todo - {p};
    }
    found := false;
  }

  // --- refusals of the row itself ---

  /** Is a row refused where it is to stand? The id is that of the row an UPDATE replaces,
      or of the row an INSERT adds. */
  type Refusal = (DB, RowId, Row) -> bool

  /** Another row of the table holds the same values, none NULL, in a unique index. */
  predicate TakenByOther(cat: Cat, db: DB, id: RowId, row: Row) {
    id.table in cat && exists o :: o in db && o != id && o.table == id.table && SharesUnique(cat[id.table], row, db[o])
  }

  /** What the unique indexes refuse. */
  function UniqueRefusal(cat: Cat): Refusal {
    (db, id, row) => TakenByOther(cat, db, id, row)
  }

  /** A refusal that leaves out nothing the unique indexes refuse. */
  ghost predicate KeepsUnique(cat: Cat, refused: Refusal) {
    forall db, id, row :: TakenByOther(cat, db, id, row) ==> refused(db, id, row)
  }

  /** No two rows of a table share the values of a unique index. */
  ghost predicate UniqueRows(cat: Cat, db: DB) {
    forall a, b :: a in db && b in db && a != b && a.table == b.table && a.table in cat ==>
      !SharesUnique(cat[a.table], db[a], db[b])
  }

  lemma SharesBoth(d: TableDesc, a: Row, b: Row)
    ensures SharesUnique(d, a, b) == SharesUnique(d, b, a)
  {
    if i :| 0 <= i < |d.indexes| && SharesIn(d.indexes[i], a, b) {
      assert SharesIn(d.indexes[i], b, a);
    }
    if i :| 0 <= i < |d.indexes| && SharesIn(d.indexes[i], b, a) {
      assert SharesIn(d.indexes[i], a, b);
    }
  }

  /** A row that is not taken goes in, or takes another's place, and unique rows stay so. */
  lemma PutUnique(cat: Cat, db: DB, id: RowId, nid: RowId, row: Row)
    requires UniqueRows(cat, db) && nid.table == id.table && !TakenByOther(cat, db, id, row)
    ensures UniqueRows(cat, (db - {id})[nid := row])
  {
    hide SharesUnique;
    var next := (db - {id})[nid := row];
    forall a, b | a in next && b in next && a != b && a.table == b.table && a.table in cat
      ensures !SharesUnique(cat[a.table], next[a], next[b])
    {
      SharesBoth(cat[a.table], next[a], next[b]);
    }
  }

  // --- INSERT ---

  /** The database with the first i rows stored. */
  function Inserted(db: DB, rows: seq<(RowId, Row)>, i: nat): DB
    requires i <= |rows|
  {
    if i == 0 then db else Inserted(db, rows, i - 1)[rows[i - 1].0 := rows[i - 1].1]
  }

  /** Row i has a free key, nothing else refuses it, and its references are answered once
      it is stored. */
  ghost predicate InsertFine(cat: Cat, db: DB, table: string, rows: seq<(RowId, Row)>, refused: Refusal,
                             i: nat)
    requires i < |rows|
  {
    && rows[i].0 !in Inserted(db, rows, i) && !refused(Inserted(db, rows, i), rows[i].0, rows[i].1)
    && RowSound(cat, Inserted(db, rows, i + 1), table, rows[i].1)
  }

  /** Rows go in one by one, each checked once it is stored; the first that cannot go in
      or has an unanswered reference refuses the statement. `refused` stands for the
      refusals of the row itself: UniqueRefusal's, NOT NULL, CHECK. */
  method InsertRows(cat: Cat, db: DB, table: string, rows: seq<(RowId, Row)>, refused: Refusal)
      returns (r: Option<DB>)
    requires NoDangling(cat, db) && table in cat && forall i :: 0 <= i < |rows| ==> rows[i].0.table == table
    ensures r.Some? <==> forall i :: 0 <= i < |rows| ==> InsertFine(cat, db, table, rows, refused, i)
    ensures r.Some? ==> r.value == Inserted(db, rows, |rows|) && NoDangling(cat, r.value)
  {
    var cur, i := db, 0;
    while i < |rows|
      invariant 0 <= i <= |rows| && NoDangling(cat, cur) && cur == Inserted(db, rows, i)
      invariant forall j :: 0 <= j < i ==> InsertFine(cat, db, table, rows, refused, j)
    {
      var next := cur[rows[i].0 := rows[i].1];
      assert next == Inserted(db, rows, i + 1);
      if rows[i].0 in cur || refused(cur, rows[i].0, rows[i].1) {
        assert !InsertFine(cat, db, table, rows, refused, i);
        return None;
      }
      var ok := VerifyRow(cat, next, table, rows[i].1);
      if !ok {
        assert !InsertFine(cat, db, table, rows, refused, i);
        return None;
      }
      InsertKeeps(cat, cur, rows[i].0, rows[i].1);
      cur, i := next, i + 1;
    }
    r := Some(cur);
  }

  /** An accepted INSERT keeps unique rows unique. */
  lemma {:induction false} InsertUnique(cat: Cat, db: DB, table: string, rows: seq<(RowId, Row)>, refused: Refusal,
                                        i: nat)
    requires UniqueRows(cat, db) && KeepsUnique(cat, refused) && i <= |rows|
    requires forall j :: 0 <= j < i ==> InsertFine(cat, db, table, rows, refused, j)
    ensures UniqueRows(cat, Inserted(db, rows, i))
  {
    hide UniqueRows, RowSound, TakenByOther;
    if i > 0 {
      InsertUnique(cat, db, table, rows, refused, i - 1);
      var w, id := Inserted(db, rows, i - 1), rows[i - 1].0;
      assert InsertFine(cat, db, table, rows, refused, i - 1);
      PutUnique(cat, w, id, id, rows[i - 1].1);
      assert (w - {id})[id := rows[i - 1].1] == Inserted(db, rows, i);
    }
  }

  /** A new row takes no reference away. */
  lemma InsertKeeps(cat: Cat, db: DB, id: RowId, row: Row)
    requires NoDangling(cat, db) && id !in db && RowSound(cat, db[id := row], id.table, row)
    ensures NoDangling(cat, db[id := row])
  {
    var next := db[id := row];
    forall c | c in next ensures RowSound(cat, next, c.table, next[c]) {
      if c != id {
        assert RowSound(cat, db, c.table, db[c]);
        forall fk | HasFK(cat, c.table, fk) && ChildTuple(fk, db[c]).Some?
          ensures Answered(cat, next, fk, ChildTuple(fk, db[c]).value)
        {
          var p :| && p in db && p.table == fk.refTable && p.table in cat
                   && RefTuple(cat[p.table], fk.refCols, db[p]) == Some(ChildTuple(fk, db[c]).value);
          assert p in next && next[p] == db[p];
        }
      }
    }
  }
}
