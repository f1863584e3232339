/** The full-table rewrite behind ALTER COLUMN TYPE (alter.go): every row is read and
    transformed, the table's key space is cleared, and the rows are written back under
    the new descriptor. */
module Rebuild {
  import opened Values
  import opened Schema
  import opened Store
  import opened Table
  import opened TableProof
  import opened TableScan
  import opened TableDDL

  lemma CoerceFits(d: TableDesc, row: Row)
    requires RowOK(d, row)
    ensures CoerceRow(d, row) == Some(row)
  {
    assert seq(|row|, i requires 0 <= i < |row| => Coerce(row[i], d.columns[i].typ)) == row;
  }

  /** One row's entry in an index, and whether it is probed. */
  datatype Probed = Probed(key: Key, val: Stored, enforced: bool)

  function ProbedEntry(d: TableDesc, row: Row): nat -> Probed {
    (i: nat) => if i < |d.indexes|
                then Probed(EntryKey(d, d.indexes[i], row), EntryVal(d, d.indexes[i], row), Enforced(d.indexes[i], row))
                else Probed(Key(0, 0, []), Entry([]), false)
  }

  function Puts(entry: nat -> Probed, n: nat): Writes {
    if n == 0 then map[] else Puts(entry, n - 1)[entry(n - 1).key := Some(entry(n - 1).val)]
  }

  /** Writes entries one by one, stopping at a probed one that is taken. */
  method PutProbed(t: KV, entry: nat -> Probed, n: nat) returns (r: Option<KV>)
    requires forall i, j :: 0 <= i < j < n ==> entry(i).key != entry(j).key
    ensures r.None? <==> exists i :: 0 <= i < n && entry(i).enforced && entry(i).key in t
    ensures r.Some? ==> r.value == Apply(t, Puts(entry, n))
  {
    hide Apply;
    var cur, i := t, 0;
    while i < n
      invariant 0 <= i <= n && cur == Apply(t, Puts(entry, i))
      invariant forall j :: 0 <= j < i ==> !(entry(j).enforced && entry(j).key in t)
    {
      PutsKeys(entry, i, entry(i).key);
      if entry(i).enforced && entry(i).key in cur { return None; }
      cur, i := cur[entry(i).key := entry(i).val], i + 1;
    }
    r := Some(cur);
  }

  lemma {:induction false} PutsKeys(entry: nat -> Probed, n: nat, k: Key)
    ensures k in Puts(entry, n) <==> exists i :: 0 <= i < n && entry(i).key == k
  {
    if n > 0 {
      PutsKeys(entry, n - 1, k);
    }
  }

  lemma {:induction false} PutsAreEntries(d: TableDesc, row: Row, n: nat)
    requires n <= |d.indexes|
    ensures Puts(ProbedEntry(d, row), n) == EntryPuts(d, row, n)
  {
    hide EntryKey, EntryVal;
    if n > 0 {
      PutsAreEntries(d, row, n - 1);
    }
  }

  /** Writes one rebuilt row: the row, then each index entry, probing uniqueness as it
      goes. It fails exactly when an insert of the row would. */
  method PutRow(t: KV, d: TableDesc, row: Row) returns (r: Option<KV>)
    requires ValidTable(d) && RowOK(d, row)
    ensures r == InsertInto(d)(t, row)
  {
    hide EncodeRow, EntryKey, ProbedEntry;
    CoerceFits(d, row);
    var key := RowKey(d, Project(row, d.pkCols));
    if key in t { return None; }
    ProbesDiffer(d, row);
    r := PutProbed(t[key := EncodeRow(d, row)], ProbedEntry(d, row), |d.indexes|);
    ProbesAgree(t, d, row, key);
    PutsAreEntries(d, row, |d.indexes|);
    PutsKeys(ProbedEntry(d, row), |d.indexes|, key);
    if r.Some? {
      RowThenEntries(t, EntryPuts(d, row, |d.indexes|), key, EncodeRow(d, row));
    }
  }

  lemma ProbesDiffer(d: TableDesc, row: Row)
    requires ValidTable(d)
    ensures forall i, j :: 0 <= i < j < |d.indexes| ==> ProbedEntry(d, row)(i).key != ProbedEntry(d, row)(j).key
  {
  }

  lemma ProbesAgree(t: KV, d: TableDesc, row: Row, key: Key)
    requires ValidTable(d) && RowOK(d, row) && IsRowKey(d, key)
    ensures forall i :: 0 <= i < |d.indexes| ==> ProbedEntry(d, row)(i).key != key
    ensures forall i :: 0 <= i < |d.indexes| ==>
      var e := ProbedEntry(d, row)(i);
      e.enforced && e.key in t[key := EncodeRow(d, row)] <==> Taken(t, d, row, i)
  {
  }

  lemma RowThenEntries(t: KV, w: Writes, key: Key, val: Stored)
    requires key !in w
    ensures Apply(t[key := val], w) == Apply(t, w[key := Some(val)])
  {
  }

  function KeyAt(d: TableDesc, row: Row): Key {
    RowKey(d, Project(row, d.pkCols))
  }

  /** Two rows one table cannot hold: one primary key, or one unique value. */
  ghost predicate Collide(d: TableDesc, a: Row, b: Row) {
    Project(a, d.pkCols) == Project(b, d.pkCols) || SharesUnique(d, a, b)
  }

  /** A table that holds exactly some rows, each under its key. */
  ghost predicate Holds(t: KV, d: TableDesc, rows: seq<Row>) {
    && Consistent(t, d)
    && (forall i :: 0 <= i < |rows| ==> KeyAt(d, rows[i]) in t && RowAt(t, d, KeyAt(d, rows[i])) == rows[i])
    && (forall k :: k in t && IsRowKey(d, k) ==> exists i :: 0 <= i < |rows| && k == KeyAt(d, rows[i]))
  }

  /** Two stores that differ in one table at most. */
  ghost predicate SameElsewhere(s: KV, t: KV, table: nat) {
    forall k: Key :: k.table != table ==> Lookup(s, k) == Lookup(t, k)
  }

  lemma InsertElsewhere(t: KV, d: TableDesc, row: Row)
    requires Insert(t, d, row).Done?
    ensures SameElsewhere(t, Apply(t, Insert(t, d, row).writes), d.id)
  {
    var w := Insert(t, d, row).writes;
    EntriesInTable(d, Insert(t, d, row).result, |d.indexes|);
    forall k: Key | k.table != d.id ensures Lookup(t, k) == Lookup(Apply(t, w), k) {
      ApplyAt(t, w, k);
    }
  }

  ghost predicate PairwiseApart(d: TableDesc, rows: seq<Row>) {
    forall i, j :: 0 <= i < j < |rows| ==> !Collide(d, rows[i], rows[j])
  }

  /** An insert into a table holding some rows fails exactly when it collides with one. */
  lemma InsertCollides(t: KV, d: TableDesc, rows: seq<Row>, row: Row)
    requires Holds(t, d, rows) && RowOK(d, row)
    ensures Insert(t, d, row).Failed? <==> exists i :: 0 <= i < |rows| && Collide(d, rows[i], row)
  {
    CoerceFits(d, row);
    if Insert(t, d, row).Failed? {
      if KeyAt(d, row) in t {
        var i :| 0 <= i < |rows| && KeyAt(d, row) == KeyAt(d, rows[i]);
        assert Collide(d, rows[i], row);
      } else {
        var j :| 0 <= j < |d.indexes| && Taken(t, d, row, j);
        TakenBy(t, d, rows, row, j);
      }
    }
    if i :| 0 <= i < |rows| && Collide(d, rows[i], row) {
      CollideFails(t, d, rows, row, i);
    }
  }

  lemma TakenBy(t: KV, d: TableDesc, rows: seq<Row>, row: Row, j: nat)
    requires Holds(t, d, rows) && j < |d.indexes| && Taken(t, d, row, j)
    ensures exists i :: 0 <= i < |rows| && Collide(d, rows[i], row)
  {
    var ek := EntryKey(d, d.indexes[j], row);
    assert Explained(t, d, ek);
    var k :| DerivedBy(t, d, ek, k);
    IdxOfIndex(d, j);
    var i :| 0 <= i < |rows| && k == KeyAt(d, rows[i]);
    EntryKeysDiffer(d, d.indexes[j], rows[i], row);
    assert Collide(d, rows[i], row);
  }

  lemma CollideFails(t: KV, d: TableDesc, rows: seq<Row>, row: Row, i: nat)
    requires Holds(t, d, rows) && RowOK(d, row) && i < |rows| && Collide(d, rows[i], row)
    ensures Insert(t, d, row).Failed?
  {
    CoerceFits(d, row);
    if Project(rows[i], d.pkCols) != Project(row, d.pkCols) {
      var j: nat :| j < |d.indexes| && SharesIn(d.indexes[j], rows[i], row);
      assert HasEntry(t, d, j, RowAt(t, d, KeyAt(d, rows[i])));
      assert EntryKey(d, d.indexes[j], rows[i]) == EntryKey(d, d.indexes[j], row);
      assert Taken(t, d, row, j);
    }
  }

  lemma HoldsMore(t: KV, d: TableDesc, rows: seq<Row>, row: Row)
    requires Holds(t, d, rows) && RowOK(d, row) && Insert(t, d, row).Done?
    ensures Holds(Apply(t, Insert(t, d, row).writes), d, rows + [row])
  {
    hide Consistent, EntryPuts;
    CoerceFits(d, row);
    InsertConsistent(t, d, row);
    var u := Apply(t, Insert(t, d, row).writes);
    forall i | 0 <= i < |rows + [row]|
      ensures KeyAt(d, (rows + [row])[i]) in u && RowAt(u, d, KeyAt(d, (rows + [row])[i])) == (rows + [row])[i]
    {
      InsertRows(t, d, row, KeyAt(d, (rows + [row])[i]));
    }
    forall k | k in u && IsRowKey(d, k)
      ensures exists i :: 0 <= i < |rows + [row]| && k == KeyAt(d, (rows + [row])[i])
    {
      InsertRows(t, d, row, k);
      if k in t {
        var i :| 0 <= i < |rows| && k == KeyAt(d, rows[i]);
        assert (rows + [row])[i] == rows[i];
      } else {
        assert (rows + [row])[|rows|] == row;
      }
    }
  }

  lemma ApartMore(d: TableDesc, rows: seq<Row>, row: Row)
    ensures PairwiseApart(d, rows + [row]) <==>
      && PairwiseApart(d, rows)
      && forall i :: 0 <= i < |rows| ==> !Collide(d, rows[i], row)
  {
    var all := rows + [row];
    if PairwiseApart(d, all) {
      forall i, j | 0 <= i < j < |rows| ensures !Collide(d, rows[i], rows[j]) {
        assert all[i] == rows[i] && all[j] == rows[j];
      }
      forall i | 0 <= i < |rows| ensures !Collide(d, rows[i], row) {
        assert all[i] == rows[i] && all[|rows|] == row;
      }
    }
  }

  /** A row under the new descriptor, or None when the rewrite refuses it. */
  type Rewrite = Row -> Option<Row>

  predicate AllRewrite(rows: seq<Row>, rewrite: Rewrite) {
    forall i :: 0 <= i < |rows| ==> rewrite(rows[i]).Some?
  }

  function Rewritten(rows: seq<Row>, rewrite: Rewrite): (out: seq<Row>)
    requires AllRewrite(rows, rewrite)
    ensures |out| == |rows| && forall i :: 0 <= i < |rows| ==> out[i] == rewrite(rows[i]).value
  {
    if rows == [] then [] else Rewritten(rows[..|rows| - 1], rewrite) + [rewrite(rows[|rows| - 1]).value]
  }

  /** The read pass: every row rewritten, in key order. */
  method RewriteRows(rows: seq<Row>, rewrite: Rewrite) returns (r: Option<seq<Row>>)
    ensures r.Some? <==> AllRewrite(rows, rewrite)
    ensures r.Some? ==> r.value == Rewritten(rows, rewrite)
  {
    var out: seq<Row>, i := [], 0;
    while i < |rows|
      invariant 0 <= i <= |rows| && |out| == i
      invariant forall j :: 0 <= j < i ==> rewrite(rows[j]) == Some(out[j])
    {
      var row := rewrite(rows[i]);
      if row.None? { return None; }
      out, i := out + [row.value], i + 1;
    }
    r := Some(out);
  }

  /** Inserting one row into a table, or None. */
  type Put = (KV, Row) -> Option<KV>

  function InsertInto(d: TableDesc): Put {
    (t: KV, row: Row) => var o := Insert(t, d, row); if o.Done? then Some(Apply(t, o.writes)) else None
  }

  /** The store after putting the first n rows one by one, skipping any that fail. */
  function Refilled(t: KV, rows: seq<Row>, n: nat, put: Put): KV
    requires n <= |rows|
  {
    if n == 0 then t
    else
      var u := Refilled(t, rows, n - 1, put);
      var v := put(u, rows[n - 1]);
      if v.Some? then v.value else u
  }

  /** Each of the first n rows goes in after those before it. */
  predicate GoIn(t: KV, rows: seq<Row>, n: nat, put: Put)
    requires n <= |rows|
  {
    n == 0 || (GoIn(t, rows, n - 1, put) && put(Refilled(t, rows, n - 1, put), rows[n - 1]).Some?)
  }

  /** The table's rows in primary-key order, as its primary keys decode. */
  ghost function StoredRows(s: KV, d: TableDesc): seq<Row> {
    var keys := Ascend(s, RangeOf(d, Primary, [], [], true));
    seq(|keys|, i requires 0 <= i < |keys| => assert keys[i] in keys; RowAt(s, d, keys[i]))
  }

  lemma StoredIsListing(s: KV, d: TableDesc)
    requires Consistent(s, d)
    ensures StoredRows(s, d) == Listing(s, d, Primary)
  {
    var keys := Ascend(s, RangeOf(d, Primary, [], [], true));
    ResolvableRows(s, d, Primary, keys);
    forall i | 0 <= i < |keys| ensures StoredRows(s, d)[i] == RowsFrom(s, d, Primary, keys)[i] {
      assert keys[i] in keys;
      PathKeyResolves(s, d, Primary, keys[i]);
    }
  }

  /** What a rebuild demands of the new descriptor and the rewrite. */
  ghost predicate ValidRewrite(d: TableDesc, next: TableDesc, rewrite: Rewrite) {
    && ValidTable(next) && next.id == d.id
    && forall row :: rewrite(row).Some? ==> RowOK(next, rewrite(row).value)
  }

  /** Every row rewrites and no two rewritten rows collide. */
  ghost predicate Rebuilds(s: KV, d: TableDesc, next: TableDesc, rewrite: Rewrite) {
    var rows := StoredRows(s, d);
    AllRewrite(rows, rewrite) && PairwiseApart(next, Rewritten(rows, rewrite))
  }

  /** The cleared table refilled with the rewritten rows. */
  ghost function Rebuilt(s: KV, d: TableDesc, next: TableDesc, rewrite: Rewrite): KV
    requires Rebuilds(s, d, next, rewrite)
  {
    var rows := Rewritten(StoredRows(s, d), rewrite);
    Refilled(Truncate(s, next), rows, |rows|, InsertInto(next))
  }

  /** rebuildTable: succeeds exactly when every row rewrites and no two rewritten rows
      collide, and then the cleared table is refilled with the rewritten rows. */
  method RebuildTable(s: KV, old_: TableDesc, next: TableDesc, rewrite: Rewrite, keys: seq<Key>) returns (r: Option<KV>)
    requires Consistent(s, old_) && ValidRewrite(old_, next, rewrite)
    requires keys == Ascend(s, RangeOf(old_, Primary, [], [], true))
    ensures r.Some? <==> Rebuilds(s, old_, next, rewrite)
    ensures r.Some? ==> r.value == Rebuilt(s, old_, next, rewrite)
    ensures r.Some? ==> Holds(r.value, next, Rewritten(StoredRows(s, old_), rewrite))
    ensures r.Some? ==> SameElsewhere(s, r.value, old_.id)
  {
    ResolvableRows(s, old_, Primary, keys);
    StoredIsListing(s, old_);
    var rows := RewriteRows(RowsFrom(s, old_, Primary, keys), rewrite);
    if rows.None? { return None; }
    EmptyHolds(s, next);
    r := WriteBack(Truncate(s, next), next, rows.value);
  }

  /** So a rebuild leaves exactly the rewritten rows, fully indexed, with every other
      table untouched. */
  lemma RebuiltHolds(s: KV, d: TableDesc, next: TableDesc, rewrite: Rewrite)
    requires ValidRewrite(d, next, rewrite) && Rebuilds(s, d, next, rewrite)
    ensures Holds(Rebuilt(s, d, next, rewrite), next, Rewritten(StoredRows(s, d), rewrite))
    ensures SameElsewhere(s, Rebuilt(s, d, next, rewrite), d.id)
  {
    hide Truncate, Holds, InsertInto, Rewritten;
    var rows := Rewritten(StoredRows(s, d), rewrite);
    EmptyHolds(s, next);
    ApartGoIn(Truncate(s, next), next, rows);
    GoInHolds(Truncate(s, next), next, rows, |rows|);
    assert rows[..|rows|] == rows;
  }

  lemma EmptyHolds(s: KV, d: TableDesc)
    requires ValidTable(d)
    ensures Holds(Truncate(s, d), d, []) && SameElsewhere(s, Truncate(s, d), d.id)
  {
  }

  /** The first n rows are apart and are what the table holds. */
  ghost predicate RefillInv(t: KV, d: TableDesc, rows: seq<Row>, n: nat, u: KV) {
    n <= |rows| && PairwiseApart(d, rows[..n]) && Holds(u, d, rows[..n]) && SameElsewhere(t, u, d.id)
  }

  /** One more row goes in, or collides with one before it. */
  lemma RefillStep(t: KV, d: TableDesc, rows: seq<Row>, n: nat, u: KV)
    requires n < |rows| && RowOK(d, rows[n]) && RefillInv(t, d, rows, n, u)
    ensures var v := InsertInto(d)(u, rows[n]);
            if v.Some? then RefillInv(t, d, rows, n + 1, v.value) else !PairwiseApart(d, rows)
  {
    hide Holds, Insert;
    assert rows[..n + 1] == rows[..n] + [rows[n]];
    WriteStep(u, d, rows[..n], rows[n]);
    if Insert(u, d, rows[n]).Done? {
      InsertElsewhere(u, d, rows[n]);
    } else {
      NotApart(d, rows, n + 1);
    }
  }

  lemma RefillStart(t: KV, d: TableDesc, rows: seq<Row>)
    requires Holds(t, d, [])
    ensures RefillInv(t, d, rows, 0, t)
  {
    assert rows[..0] == [];
  }

  /** Whatever each put keeps, the refill keeps. */
  lemma {:induction false} GoInKeeps(t: KV, rows: seq<Row>, n: nat, put: Put, inv: (nat, KV) -> bool)
    requires n <= |rows| && inv(0, t) && GoIn(t, rows, n, put)
    requires forall i: nat, u: KV :: i < |rows| && inv(i, u) ==> KeptBy(rows, put, inv, i, u)
    ensures inv(n, Refilled(t, rows, n, put))
  {
    if n > 0 {
      GoInKeeps(t, rows, n - 1, put, inv);
      assert KeptBy(rows, put, inv, n - 1, Refilled(t, rows, n - 1, put));
    }
  }

  ghost predicate KeptBy(rows: seq<Row>, put: Put, inv: (nat, KV) -> bool, i: nat, u: KV)
    requires i < |rows|
  {
    put(u, rows[i]).Some? ==> inv(i + 1, put(u, rows[i]).value)
  }

  /** When every put succeeds, every row goes in. */
  lemma {:induction false} AllGoIn(t: KV, rows: seq<Row>, n: nat, put: Put, inv: (nat, KV) -> bool)
    requires n <= |rows| && inv(0, t)
    requires forall i: nat, u: KV :: i < |rows| && inv(i, u) ==> KeptBy(rows, put, inv, i, u) && put(u, rows[i]).Some?
    ensures GoIn(t, rows, n, put)
  {
    if n > 0 {
      AllGoIn(t, rows, n - 1, put, inv);
      GoInKeeps(t, rows, n - 1, put, inv);
    }
  }

  /** Rows that go in one after another are what the refilled table holds. */
  lemma GoInHolds(t: KV, d: TableDesc, rows: seq<Row>, n: nat)
    requires n <= |rows| && Holds(t, d, []) && GoIn(t, rows, n, InsertInto(d))
    requires forall i :: 0 <= i < |rows| ==> RowOK(d, rows[i])
    ensures RefillInv(t, d, rows, n, Refilled(t, rows, n, InsertInto(d)))
  {
    var inv := (i: nat, u: KV) => RefillInv(t, d, rows, i, u);
    RefillStart(t, d, rows);
    forall i: nat, u: KV | i < |rows| && inv(i, u) ensures KeptBy(rows, InsertInto(d), inv, i, u) {
      RefillStep(t, d, rows, i, u);
    }
    GoInKeeps(t, rows, n, InsertInto(d), inv);
  }

  /** Rows that are apart all go in. */
  lemma ApartGoIn(t: KV, d: TableDesc, rows: seq<Row>)
    requires Holds(t, d, []) && PairwiseApart(d, rows) && forall i :: 0 <= i < |rows| ==> RowOK(d, rows[i])
    ensures GoIn(t, rows, |rows|, InsertInto(d))
  {
    var inv := (i: nat, u: KV) => RefillInv(t, d, rows, i, u);
    RefillStart(t, d, rows);
    forall i: nat, u: KV | i < |rows| && inv(i, u)
      ensures KeptBy(rows, InsertInto(d), inv, i, u) && InsertInto(d)(u, rows[i]).Some?
    {
      RefillStep(t, d, rows, i, u);
    }
    AllGoIn(t, rows, |rows|, InsertInto(d), inv);
  }

  /** The write pass: it succeeds exactly when no two rows collide. */
  method WriteBack(t: KV, d: TableDesc, rows: seq<Row>) returns (r: Option<KV>)
    requires ValidTable(d) && Holds(t, d, []) && forall i :: 0 <= i < |rows| ==> RowOK(d, rows[i])
    ensures r.Some? <==> PairwiseApart(d, rows)
    ensures r.Some? ==> r.value == Refilled(t, rows, |rows|, InsertInto(d))
    ensures r.Some? ==> Holds(r.value, d, rows) && SameElsewhere(t, r.value, d.id)
  {
    var done;
    r, done := WriteRows(t, d, rows, InsertInto(d));
    GoInHolds(t, d, rows, done);
    if r.None? {
      RefillStep(t, d, rows, done, Refilled(t, rows, done, InsertInto(d)));
    }
    assert rows[..|rows|] == rows;
  }

  ghost predicate PutAt(put: Put, d: TableDesc, t: KV, row: Row) {
    put(t, row) == InsertInto(d)(t, row)
  }

  /** The write loop, and how many rows went in. */
  method WriteRows(t: KV, d: TableDesc, rows: seq<Row>, ghost put: Put) returns (r: Option<KV>, done: nat)
    requires ValidTable(d) && forall i :: 0 <= i < |rows| ==> RowOK(d, rows[i])
    requires forall u: KV, row: Row {:trigger PutAt(put, d, u, row)} :: PutAt(put, d, u, row)
    ensures done <= |rows| && GoIn(t, rows, done, put)
    ensures r.Some? ==> done == |rows| && r.value == Refilled(t, rows, |rows|, put)
    ensures r.None? ==> done < |rows| && put(Refilled(t, rows, done, put), rows[done]).None?
  {
    hide InsertInto, RowOK;
    var cur := t;
    done := 0;
    while done < |rows|
      invariant 0 <= done <= |rows| && cur == Refilled(t, rows, done, put) && GoIn(t, rows, done, put)
    {
      var next := PutRow(cur, d, rows[done]);
      assert PutAt(put, d, cur, rows[done]);
      if next.None? {
        return None, done;
      }
      cur, done := next.value, done + 1;
    }
    r := Some(cur);
  }

  lemma WriteStep(t: KV, d: TableDesc, rows: seq<Row>, row: Row)
    requires Holds(t, d, rows) && PairwiseApart(d, rows) && RowOK(d, row)
    ensures Insert(t, d, row).Done? <==> PairwiseApart(d, rows + [row])
    ensures Insert(t, d, row).Done? ==> Holds(Apply(t, Insert(t, d, row).writes), d, rows + [row])
  {
    ApartMore(d, rows, row);
    InsertCollides(t, d, rows, row);
    if Insert(t, d, row).Done? {
      HoldsMore(t, d, rows, row);
    }
  }

  lemma NotApart(d: TableDesc, rows: seq<Row>, n: nat)
    requires n <= |rows| && !PairwiseApart(d, rows[..n])
    ensures !PairwiseApart(d, rows)
  {
  }
}
