/** Rows and index entries as they are stored (dml.go, index.go), and each row
    operation as a function of the store it reads: what it would write, what it
    returns, and what it marks as read. */
module Table {
  import opened Values
  import opened Schema
  import opened Store

  /** Distinct column and index IDs, a primary key, and indexes apart from it. */
  ghost predicate ValidTable(d: TableDesc) {
    && ValidDesc(d)
    && d.pkCols != []
    && (forall i, j :: 0 <= i < j < |d.pkCols| ==> d.pkCols[i] != d.pkCols[j])
    && (forall i, j :: 0 <= i < j < |d.columns| ==> d.columns[i].id != d.columns[j].id)
    && (forall i :: 0 <= i < |d.indexes| ==> d.indexes[i].id > PRIMARY)
    && (forall i, j :: 0 <= i < j < |d.indexes| ==> d.indexes[i].id != d.indexes[j].id)
  }

  // --- row codec ---

  /** The ordinal of the column with an ID, by linear scan from i. */
  function OrdByID(cols: seq<Column>, id: nat, i: nat): (r: Option<nat>)
    requires i <= |cols|
    ensures r.Some? ==> i <= r.value < |cols| && cols[r.value].id == id
    ensures r.None? ==> forall j :: i <= j < |cols| ==> cols[j].id != id
    decreases |cols| - i
  {
    if i == |cols| then None else if cols[i].id == id then Some(i) else OrdByID(cols, id, i + 1)
  }

  /** The non-key columns from ordinal i on, as (column ID, value) pairs; NULLs are
      left out. */
  function EncodePairs(d: TableDesc, row: Row, i: nat): seq<(nat, Value)>
    requires i <= |d.columns| == |row|
    decreases |row| - i
  {
    if i == |row| then []
    else (if i in d.pkCols || row[i] == Null then [] else [(d.columns[i].id, row[i])]) + EncodePairs(d, row, i + 1)
  }

  function EncodeRow(d: TableDesc, row: Row): Stored
    requires |row| == |d.columns|
  {
    RowVal(EncodePairs(d, row, 0))
  }

  function IndexIn(s: seq<nat>, x: nat): (i: nat)
    requires x in s
    ensures i < |s| && s[i] == x
  {
    if s[0] == x then 0 else 1 + IndexIn(s[1..], x)
  }

  /** A row with only its key columns filled. */
  function KeyColumns(d: TableDesc, pk: seq<Value>): (r: Row)
    ensures |r| == |d.columns|
  {
    seq(|d.columns|, c requires 0 <= c < |d.columns| =>
      if c in d.pkCols && IndexIn(d.pkCols, c) < |pk| then pk[IndexIn(d.pkCols, c)] else Null)
  }

  /** Overlays stored pairs; pairs of unknown columns are skipped. */
  function Overlay(d: TableDesc, vals: Row, pairs: seq<(nat, Value)>): (r: Row)
    requires |vals| == |d.columns|
    ensures |r| == |vals|
    decreases |pairs|
  {
    if pairs == [] then vals
    else
      var o := OrdByID(d.columns, pairs[0].0, 0);
      Overlay(d, if o.Some? then vals[o.value := pairs[0].1] else vals, pairs[1..])
  }

  function DecodeRow(d: TableDesc, pk: seq<Value>, pairs: seq<(nat, Value)>): (r: Row)
    ensures |r| == |d.columns|
  {
    Overlay(d, KeyColumns(d, pk), pairs)
  }

  /** decodeRow's two loops: key columns from the key, the rest from the pairs. */
  method DecodeRowLoop(d: TableDesc, pk: seq<Value>, pairs: seq<(nat, Value)>) returns (vals: Row)
    requires ValidDesc(d) && |pk| == |d.pkCols|
    requires forall i, j :: 0 <= i < j < |d.pkCols| ==> d.pkCols[i] != d.pkCols[j]
    ensures vals == DecodeRow(d, pk, pairs)
  {
    vals := seq(|d.columns|, i => Null);
    var i := 0;
    while i < |d.pkCols|
      invariant 0 <= i <= |d.pkCols| && |vals| == |d.columns|
      invariant forall j :: 0 <= j < i ==> vals[d.pkCols[j]] == pk[j]
      invariant forall c :: 0 <= c < |vals| && c !in d.pkCols[..i] ==> vals[c] == Null
    {
      vals := vals[d.pkCols[i] := pk[i]];
      i := i + 1;
    }
    assert d.pkCols[..i] == d.pkCols;
    assert vals == KeyColumns(d, pk);
    var j := 0;
    while j < |pairs|
      invariant 0 <= j <= |pairs| && |vals| == |d.columns|
      invariant Overlay(d, vals, pairs[j..]) == DecodeRow(d, pk, pairs)
    {
      assert pairs[j..][1..] == pairs[j + 1..];
      var o := OrdByID(d.columns, pairs[j].0, 0);
      if o.Some? {
        vals := vals[o.value := pairs[j].1];
      }
      j := j + 1;
    }
  }

  lemma {:induction false} OrdOfColumn(d: TableDesc, c: nat, i: nat)
    requires i <= c < |d.columns|
    requires forall a, b :: 0 <= a < b < |d.columns| ==> d.columns[a].id != d.columns[b].id
    ensures OrdByID(d.columns, d.columns[c].id, i) == Some(c)
    decreases c - i
  {
    if i < c {
      OrdOfColumn(d, c, i + 1);
    }
  }

  lemma OverlayCons(d: TableDesc, vals: Row, c: nat, v: Value, pairs: seq<(nat, Value)>)
    requires c < |d.columns| == |vals|
    requires forall a, b :: 0 <= a < b < |d.columns| ==> d.columns[a].id != d.columns[b].id
    ensures Overlay(d, vals, [(d.columns[c].id, v)] + pairs) == Overlay(d, vals[c := v], pairs)
  {
    OrdOfColumn(d, c, 0);
    assert ([(d.columns[c].id, v)] + pairs)[1..] == pairs;
  }

  lemma {:induction false} OverlayEncoded(d: TableDesc, vals: Row, row: Row, i: nat, c: nat)
    requires i <= |d.columns| == |row| == |vals| && c < |row|
    requires forall a, b :: 0 <= a < b < |d.columns| ==> d.columns[a].id != d.columns[b].id
    ensures Overlay(d, vals, EncodePairs(d, row, i))[c]
         == if i <= c && c !in d.pkCols && row[c] != Null then row[c] else vals[c]
    decreases |row| - i
  {
    hide OrdByID;
    if i < |row| {
      if i in d.pkCols || row[i] == Null {
        assert [] + EncodePairs(d, row, i + 1) == EncodePairs(d, row, i + 1);
        OverlayEncoded(d, vals, row, i + 1, c);
      } else {
        OverlayCons(d, vals, i, row[i], EncodePairs(d, row, i + 1));
        OverlayEncoded(d, vals[i := row[i]], row, i + 1, c);
      }
    }
  }

  /** Decoding what was encoded gives the row back. */
  lemma RowRoundTrip(d: TableDesc, row: Row)
    requires ValidTable(d) && |row| == |d.columns|
    ensures DecodeRow(d, Project(row, d.pkCols), EncodeRow(d, row).pairs) == row
  {
    var pk := Project(row, d.pkCols);
    forall c | 0 <= c < |row| ensures DecodeRow(d, pk, EncodeRow(d, row).pairs)[c] == row[c] {
      OverlayEncoded(d, KeyColumns(d, pk), row, 0, c);
    }
  }

  // --- keys ---

  function RowKey(d: TableDesc, pk: seq<Value>): Key {
    Key(d.id, PRIMARY, pk)
  }

  predicate IsRowKey(d: TableDesc, k: Key) {
    k.table == d.id && k.index == PRIMARY
  }

  predicate IsEntryKey(d: TableDesc, k: Key) {
    k.table == d.id && k.index != PRIMARY
  }

  /** A row takes the unique entry form in a unique index unless an indexed value is NULL. */
  predicate Enforced(idx: IndexDesc, row: Row) {
    idx.unique && Null !in Project(row, idx.cols)
  }

  /** Two rows hold the same values, none NULL, in a unique index. */
  predicate SharesIn(idx: IndexDesc, a: Row, b: Row) {
    Enforced(idx, a) && Project(a, idx.cols) == Project(b, idx.cols)
  }

  predicate SharesUnique(d: TableDesc, a: Row, b: Row) {
    exists i :: 0 <= i < |d.indexes| && SharesIn(d.indexes[i], a, b)
  }

  function EntryKey(d: TableDesc, idx: IndexDesc, row: Row): Key {
    Key(d.id, idx.id, Project(row, idx.cols) + (if Enforced(idx, row) then [] else Project(row, d.pkCols)))
  }

  function EntryVal(d: TableDesc, idx: IndexDesc, row: Row): Stored {
    Entry(if Enforced(idx, row) then Project(row, d.pkCols) else [])
  }

  function RowAt(s: KV, d: TableDesc, k: Key): Row
    requires k in s
  {
    DecodeRow(d, k.vals, if s[k].RowVal? then s[k].pairs else [])
  }

  // --- what a row operation does, as a function of the store ---

  datatype Error = BadRow | DuplicateKey | UniqueViolation | NoSuchRow | BadKey

  /** The result of an operation: an error that writes nothing, or the writes. */
  datatype Outcome<T> = Failed(err: Error) | Done(writes: Writes, result: T)

  /** Coercion of the values of an INSERT: arity, types, NOT NULL. */
  function CoerceRow(d: TableDesc, vals: seq<Value>): Option<Row> {
    if |vals| != |d.columns| then None
    else
      var row := seq(|vals|, i requires 0 <= i < |vals| => Coerce(vals[i], d.columns[i].typ));
      if RowOK(d, row) then Some(row) else None
  }

  /** A full primary key from caller values. */
  function KeyOf(d: TableDesc, pk: seq<Value>): Option<Key> {
    if |pk| != |d.pkCols| || Null in pk then None
    else
      var vs := CoerceBound(d, Primary, pk);
      if forall i :: 0 <= i < |vs| ==> d.pkCols[i] < |d.columns| && Fits(vs[i], d.columns[d.pkCols[i]].typ)
      then Some(RowKey(d, vs)) else None
  }

  /** The entries of a row in the first n indexes. */
  function EntryPuts(d: TableDesc, row: Row, n: nat): Writes
    requires n <= |d.indexes|
  {
    if n == 0 then map[]
    else EntryPuts(d, row, n - 1)[EntryKey(d, d.indexes[n - 1], row) := Some(EntryVal(d, d.indexes[n - 1], row))]
  }

  function EntryDels(d: TableDesc, row: Row, n: nat): Writes
    requires n <= |d.indexes|
  {
    if n == 0 then map[] else EntryDels(d, row, n - 1)[EntryKey(d, d.indexes[n - 1], row) := None]
  }

  predicate Taken(s: KV, d: TableDesc, row: Row, i: nat)
    requires i < |d.indexes|
  {
    Enforced(d.indexes[i], row) && EntryKey(d, d.indexes[i], row) in s
  }

  function Insert(s: KV, d: TableDesc, vals: seq<Value>): Outcome<Row> {
    match CoerceRow(d, vals)
    case None => Failed(BadRow)
    case Some(row) =>
      var k := RowKey(d, Project(row, d.pkCols));
      if k in s then Failed(DuplicateKey)
      else if exists i :: 0 <= i < |d.indexes| && Taken(s, d, row, i) then Failed(UniqueViolation)
      else Done(EntryPuts(d, row, |d.indexes|)[k := Some(EncodeRow(d, row))], row)
  }

  /** The row after SET, coerced; None when a value does not fit its column. */
  function SetRow(d: TableDesc, was: Row, sets: map<nat, Value>): Option<Row> {
    if |was| != |d.columns| || exists c :: c in sets && c >= |d.columns| then None
    else
      var row := seq(|was|,
                     i requires 0 <= i < |was| => if i in sets then Coerce(sets[i], d.columns[i].typ) else was[i]);
      if RowOK(d, row) then Some(row) else None
  }

  predicate Moved(d: TableDesc, was: Row, now: Row, i: nat)
    requires i < |d.indexes|
  {
    || EntryKey(d, d.indexes[i], was) != EntryKey(d, d.indexes[i], now)
    || EntryVal(d, d.indexes[i], was) != EntryVal(d, d.indexes[i], now)
  }

  /** One entry an update moves. */
  datatype Move = Move(oldKey: Key, newKey: Key, newVal: Stored)

  function MoveOf(d: TableDesc, was: Row, now: Row, i: nat): Move
    requires i < |d.indexes|
  {
    Move(EntryKey(d, d.indexes[i], was), EntryKey(d, d.indexes[i], now), EntryVal(d, d.indexes[i], now))
  }

  function ApplyMove(m: Writes, v: Move): Writes {
    m[v.oldKey := None][v.newKey := Some(v.newVal)]
  }

  function MovesOf(moves: seq<Move>): Writes {
    if moves == [] then map[] else ApplyMove(MovesOf(moves[..|moves| - 1]), moves[|moves| - 1])
  }

  lemma MovesSnoc(moves: seq<Move>, v: Move)
    ensures MovesOf(moves + [v]) == ApplyMove(MovesOf(moves), v)
  {
    assert (moves + [v])[..|moves|] == moves;
  }

  /** The entries an update moves in the first n indexes. */
  function MovedIn(d: TableDesc, was: Row, now: Row, n: nat): seq<Move>
    requires n <= |d.indexes|
  {
    if n == 0 then []
    else MovedIn(d, was, now, n - 1) + (if Moved(d, was, now, n - 1) then [MoveOf(d, was, now, n - 1)] else [])
  }

  function EntryMoves(d: TableDesc, was: Row, now: Row, n: nat): Writes
    requires n <= |d.indexes|
  {
    MovesOf(MovedIn(d, was, now, n))
  }

  lemma {:induction false} MovedInHas(d: TableDesc, was: Row, now: Row, n: nat, v: Move)
    requires n <= |d.indexes|
    ensures v in MovedIn(d, was, now, n) <==> exists i ::
      0 <= i < n && Moved(d, was, now, i) && v == MoveOf(d, was, now, i)
  {
    hide Moved, MoveOf;
    if n > 0 {
      MovedInHas(d, was, now, n - 1, v);
      var before := MovedIn(d, was, now, n - 1);
      assert v in MovedIn(d, was, now, n) <==>
        v in before || (Moved(d, was, now, n - 1) && v == MoveOf(d, was, now, n - 1));
    }
  }

  predicate Touches(v: Move, k: Key) {
    k == v.oldKey || k == v.newKey
  }

  /** What moves do at a key that at most one of them touches. */
  lemma {:induction false} MovesAtKey(moves: seq<Move>, k: Key, v: Move)
    requires forall x :: x in moves && Touches(x, k) ==> x == v
    ensures k in MovesOf(moves) <==> v in moves && Touches(v, k)
    ensures k in MovesOf(moves) ==> MovesOf(moves)[k] == if k == v.newKey then Some(v.newVal) else None
  {
    if moves != [] {
      var front, last := moves[..|moves| - 1], moves[|moves| - 1];
      assert moves == front + [last] && last in moves;
      MovesAtKey(front, k, v);
      assert MovesOf(moves) == ApplyMove(MovesOf(front), last);
      assert v in moves <==> v in front || v == last;
    }
  }

  function UpdateWrites(d: TableDesc, was: Row, now: Row): Writes
    requires |now| == |d.columns|
  {
    EntryMoves(d, was, now, |d.indexes|)
      [RowKey(d, Project(was, d.pkCols)) := None]
      [RowKey(d, Project(now, d.pkCols)) := Some(EncodeRow(d, now))]
  }

  predicate MoveTaken(s: KV, d: TableDesc, was: Row, now: Row, i: nat)
    requires i < |d.indexes|
  {
    && EntryKey(d, d.indexes[i], was) != EntryKey(d, d.indexes[i], now)
    && Taken(s, d, now, i)
  }

  /** An update of a row that is there. */
  function UpdateFrom(s: KV, d: TableDesc, k: Key, was: Row, sets: map<nat, Value>): Outcome<Option<Row>> {
    match SetRow(d, was, sets)
    case None => Failed(BadRow)
    case Some(row) =>
      var nk := RowKey(d, Project(row, d.pkCols));
      if nk != k && nk in s then Failed(DuplicateKey)
      else if exists i :: 0 <= i < |d.indexes| && MoveTaken(s, d, was, row, i) then Failed(UniqueViolation)
      else Done(UpdateWrites(d, was, row), Some(row))
  }

  /** An update of the row at pk; no such row is a result, not an error. */
  function Update(s: KV, d: TableDesc, pk: seq<Value>, sets: map<nat, Value>): Outcome<Option<Row>> {
    match KeyOf(d, pk)
    case None => Failed(BadKey)
    case Some(k) =>
      if k !in s then Done(map[], None) else UpdateFrom(s, d, k, RowAt(s, d, k), sets)
  }

  function Delete(s: KV, d: TableDesc, pk: seq<Value>): Outcome<bool> {
    match KeyOf(d, pk)
    case None => Failed(BadKey)
    case Some(k) =>
      if k !in s then Done(map[], false)
      else Done(EntryDels(d, RowAt(s, d, k), |d.indexes|)[k := None], true)
  }
}
