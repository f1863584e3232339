/** What a transaction's operations read, and what they mark as read for commit-time
    validation: marked keys and ranges, together with the written keys, determine
    every result. */
module ReadSet {
  import opened Values
  import opened Schema
  import opened Store
  import opened Table
  import opened TableProof
  import opened TableScan

  /** The keys and key ranges an operation claims to have read. */
  datatype Marks = Marks(keys: set<Key>, ranges: set<Range>)

  /** One operation of a transaction. A scan's consumer sees the rows so far and says
      whether it wants more. */
  datatype Op =
    | OpGet(d: TableDesc, pk: seq<Value>)
    | OpScan(d: TableDesc, path: Path, from: seq<Value>, to: seq<Value>, incl: bool, rev: bool, more: seq<Row> -> bool)
    | OpInsert(d: TableDesc, vals: seq<Value>)
    | OpUpdate(d: TableDesc, pk: seq<Value>, sets: map<nat, Value>)
    | OpDelete(d: TableDesc, pk: seq<Value>)

  datatype Res =
    | Got(row: Option<Row>) | Rows(rows: seq<Row>) | Put(now: Row)
    | Changed(to: Option<Row>) | Removed(was: bool) | Err(err: Error)

  datatype Effect = Effect(res: Res, writes: Writes, marks: Marks)

  const NONE := Marks({}, {})

  /** Resolving a scan's keys one by one: the rows seen, whether an entry led
      nowhere, and the row keys fetched. */
  datatype Fetched = Fetched(rows: seq<Row>, ok: bool, keys: set<Key>)

  function Fetch(v: KV, d: TableDesc, path: Path, ks: seq<Key>, more: seq<Row> -> bool, acc: seq<Row>): Fetched
    requires forall k :: k in ks ==> k in v
    decreases |ks|
  {
    if ks == [] then Fetched(acc, true, {})
    else
      assert ks[0] in ks;
      var rk := RowKeyAt(v, d, path, ks[0]);
      if rk !in v then Fetched(acc, false, {rk})
      else
        var seen := acc + [RowAt(v, d, rk)];
        if !more(seen) then Fetched(seen, true, {rk})
        else
          var rest := Fetch(v, d, path, ks[1..], more, seen);
          rest.(keys := rest.keys + {rk})
  }

  ghost function ScanKeys(v: KV, r: Range, rev: bool): (ks: seq<Key>)
    ensures forall k :: k in ks ==> k in v && InRange(k, r)
  {
    ReverseMembers(Ascend(v, r));
    if rev then Scan.Reverse(Ascend(v, r)) else Ascend(v, r)
  }

  lemma {:induction false} ReverseMembers<T>(s: seq<T>)
    ensures forall x :: x in Scan.Reverse(s) <==> x in s
  {
    if s != [] {
      ReverseMembers(s[1..]);
      assert s == [s[0]] + s[1..];
    }
  }

  ghost function ExecScan(v: KV, d: TableDesc, path: Path, r: Range, rev: bool, more: seq<Row> -> bool): Effect {
    var f := Fetch(v, d, path, ScanKeys(v, r, rev), more, []);
    Effect(if f.ok then Rows(f.rows) else Err(NoSuchRow), map[], Marks(if path.Primary? then {} else f.keys, {r}))
  }

  /** What an operation does on a view of the store: its result, the writes it
      stages, and what it marks. Inserts mark nothing: what they probe, they write. */
  ghost function Exec(v: KV, op: Op): Effect {
    match op
    case OpGet(d, pk) =>
      (match KeyOf(d, pk)
       case None => Effect(Err(BadKey), map[], NONE)
       case Some(k) => Effect(Got(if k in v then Some(RowAt(v, d, k)) else None), map[], Marks({k}, {})))
    case OpScan(d, path, from, to, incl, rev, more) =>
      if |from| > |PathCols(d, path)| || |to| > |PathCols(d, path)| then Effect(Err(BadKey), map[], NONE)
      else ExecScan(v, d, path, RangeOf(d, path, from, to, incl), rev, more)
    case OpInsert(d, vals) =>
      (match Insert(v, d, vals)
       case Failed(e) => Effect(Err(e), map[], NONE)
       case Done(w, row) => Effect(Put(row), w, NONE))
    case OpUpdate(d, pk, sets) =>
      var marks := if KeyOf(d, pk).Some? then Marks({KeyOf(d, pk).value}, {}) else NONE;
      (match Update(v, d, pk, sets)
       case Failed(e) => Effect(Err(e), map[], marks)
       case Done(w, row) => Effect(Changed(row), w, marks))
    case OpDelete(d, pk) =>
      var marks := if KeyOf(d, pk).Some? then Marks({KeyOf(d, pk).value}, {}) else NONE;
      (match Delete(v, d, pk)
       case Failed(e) => Effect(Err(e), map[], marks)
       case Done(w, was) => Effect(Removed(was), w, marks))
  }

  // --- agreement ---

  ghost predicate Agree(v: KV, u: KV, k: Key) {
    Lookup(v, k) == Lookup(u, k)
  }

  /** Views that agree on what was marked and on what was written. */
  ghost predicate AgreeOn(v: KV, u: KV, m: Marks, w: Writes) {
    && (forall k :: k in m.keys || k in w ==> Agree(v, u, k))
    && (forall r, k :: r in m.ranges && InRange(k, r) ==> Agree(v, u, k))
  }

  /** A failure that rests on a probe no mark covers: the key was already taken. */
  predicate ProbeFailed(r: Res) {
    r.Err? && (r.err == DuplicateKey || r.err == UniqueViolation)
  }

  // --- each operation is determined by what it marks and writes ---

  lemma InsertSame(v: KV, u: KV, d: TableDesc, vals: seq<Value>)
    requires Insert(v, d, vals).Done? && forall k :: k in Insert(v, d, vals).writes ==> Agree(v, u, k)
    ensures Insert(u, d, vals) == Insert(v, d, vals)
  {
    var row := Insert(v, d, vals).result;
    forall i | 0 <= i < |d.indexes| ensures Taken(u, d, row, i) == Taken(v, d, row, i) {
      PutsHold(d, row, i, |d.indexes|);
      assert Agree(v, u, EntryKey(d, d.indexes[i], row));
    }
    assert Agree(v, u, RowKey(d, Project(row, d.pkCols)));
  }

  lemma {:induction false} PutsHold(d: TableDesc, row: Row, i: nat, n: nat)
    requires i < n <= |d.indexes|
    ensures EntryKey(d, d.indexes[i], row) in EntryPuts(d, row, n)
  {
    if i < n - 1 {
      PutsHold(d, row, i, n - 1);
    }
  }

  lemma MovesHold(d: TableDesc, was: Row, now: Row, i: nat)
    requires i < |d.indexes| && Moved(d, was, now, i)
    ensures EntryKey(d, d.indexes[i], now) in EntryMoves(d, was, now, |d.indexes|)
  {
    var v := MoveOf(d, was, now, i);
    MovedInHas(d, was, now, |d.indexes|, v);
    MovedKeyIn(MovedIn(d, was, now, |d.indexes|), v);
  }

  lemma {:induction false} MovedKeyIn(moves: seq<Move>, v: Move)
    requires v in moves
    ensures v.newKey in MovesOf(moves)
  {
    var front := moves[..|moves| - 1];
    assert moves == front + [moves[|moves| - 1]];
    if v in front {
      MovedKeyIn(front, v);
    }
  }

  lemma UpdateSame(v: KV, u: KV, d: TableDesc, pk: seq<Value>, sets: map<nat, Value>)
    requires KeyOf(d, pk).Some? ==> Agree(v, u, KeyOf(d, pk).value)
    requires Update(v, d, pk, sets).Done? && forall k :: k in Update(v, d, pk, sets).writes ==> Agree(v, u, k)
    ensures Update(u, d, pk, sets) == Update(v, d, pk, sets)
  {
    hide SetRow;
    var k := KeyOf(d, pk).value;
    if k in v {
      var was := RowAt(v, d, k);
      var row := SetRow(d, was, sets).value;
      assert RowAt(u, d, k) == was;
      forall i | 0 <= i < |d.indexes| ensures MoveTaken(u, d, was, row, i) == MoveTaken(v, d, was, row, i) {
        if Moved(d, was, row, i) {
          MovesHold(d, was, row, i);
          assert Agree(v, u, EntryKey(d, d.indexes[i], row));
        }
      }
      assert Agree(v, u, RowKey(d, Project(row, d.pkCols)));
    }
  }

  lemma UpdateFailsSame(v: KV, u: KV, d: TableDesc, pk: seq<Value>, sets: map<nat, Value>)
    requires KeyOf(d, pk).Some? ==> Agree(v, u, KeyOf(d, pk).value)
    requires Update(v, d, pk, sets).Failed? && Update(v, d, pk, sets).err != DuplicateKey
    requires Update(v, d, pk, sets).err != UniqueViolation
    ensures Update(u, d, pk, sets) == Update(v, d, pk, sets)
  {
    if KeyOf(d, pk).Some? && KeyOf(d, pk).value in v {
      assert RowAt(u, d, KeyOf(d, pk).value) == RowAt(v, d, KeyOf(d, pk).value);
    }
  }

  lemma DeleteSame(v: KV, u: KV, d: TableDesc, pk: seq<Value>)
    requires KeyOf(d, pk).Some? ==> Agree(v, u, KeyOf(d, pk).value)
    ensures Delete(u, d, pk) == Delete(v, d, pk)
  {
  }

  lemma AscendSame(v: KV, u: KV, r: Range)
    requires forall k :: InRange(k, r) ==> Agree(v, u, k)
    ensures Ascend(v, r) == Ascend(u, r)
  {
    forall k ensures k in Ascend(v, r) <==> k in Ascend(u, r) {
      assert InRange(k, r) ==> Agree(v, u, k);
    }
    ListingUnique(r.dirs, Ascend(v, r), Ascend(u, r));
  }

  lemma {:induction false} FetchSame(v: KV, u: KV, d: TableDesc, path: Path, ks: seq<Key>, more: seq<Row> -> bool,
                                     acc: seq<Row>)
    requires forall k :: k in ks ==> k in v && k in u && v[k] == u[k]
    requires path.Secondary? ==> forall k :: k in Fetch(v, d, path, ks, more, acc).keys ==> Agree(v, u, k)
    ensures Fetch(u, d, path, ks, more, acc) == Fetch(v, d, path, ks, more, acc)
    decreases |ks|
  {
    if ks != [] {
      assert ks[0] in ks;
      var rk := RowKeyAt(v, d, path, ks[0]);
      assert rk in Fetch(v, d, path, ks, more, acc).keys;
      assert Agree(v, u, rk);
      if rk in v {
        var seen := acc + [RowAt(v, d, rk)];
        assert RowAt(u, d, rk) == RowAt(v, d, rk);
        if more(seen) {
          FetchSame(v, u, d, path, ks[1..], more, seen);
        }
      }
    }
  }

  lemma ScanSame(v: KV, u: KV, d: TableDesc, path: Path, r: Range, rev: bool, more: seq<Row> -> bool)
    requires var e := ExecScan(v, d, path, r, rev, more); AgreeOn(v, u, e.marks, e.writes)
    ensures ExecScan(u, d, path, r, rev, more) == ExecScan(v, d, path, r, rev, more)
  {
    var e := ExecScan(v, d, path, r, rev, more);
    assert r in e.marks.ranges;
    AscendSame(v, u, r);
    var ks := ScanKeys(v, r, rev);
    forall k | k in ks ensures k in u && v[k] == u[k] {
      assert Agree(v, u, k);
    }
    FetchSame(v, u, d, path, ks, more, []);
  }

  /** Marks and writes determine the operation: on any view that agrees with them it
      has the same result, writes the same and marks the same. The exception is an
      operation that failed on an unmarked probe. */
  lemma ExecSame(v: KV, u: KV, op: Op)
    requires var e := Exec(v, op); AgreeOn(v, u, e.marks, e.writes) && !ProbeFailed(e.res)
    ensures Exec(u, op) == Exec(v, op)
  {
    match op
    case OpGet(d, pk) =>
      if KeyOf(d, pk).Some? {
        assert Agree(v, u, KeyOf(d, pk).value);
      }
    case OpScan(d, path, from, to, incl, rev, more) =>
      if |from| <= |PathCols(d, path)| && |to| <= |PathCols(d, path)| {
        ScanSame(v, u, d, path, RangeOf(d, path, from, to, incl), rev, more);
      }
    case OpInsert(d, vals) =>
      if Insert(v, d, vals).Done? {
        InsertSame(v, u, d, vals);
      }
    case OpUpdate(d, pk, sets) =>
      if Update(v, d, pk, sets).Done? {
        UpdateSame(v, u, d, pk, sets);
      } else {
        UpdateFailsSame(v, u, d, pk, sets);
      }
    case OpDelete(d, pk) =>
      DeleteSame(v, u, d, pk);
  }

  /** Whatever an operation writes, it writes on every view that agrees on the
      written keys: marks are not needed for that. */
  lemma WritesSame(v: KV, u: KV, op: Op)
    requires ValidTable(op.d)
    requires Consistent(v, op.d) && Exec(v, op).writes != map[]
    requires forall k :: k in Exec(v, op).writes ==> Agree(v, u, k)
    ensures Exec(u, op) == Exec(v, op)
  {
    hide RowAt, SetRow, EntryKey;
    match op
    case OpInsert(d, vals) => InsertSame(v, u, d, vals);
    case OpUpdate(d, pk, sets) =>
      var k := KeyOf(d, pk).value;
      assert RowGood(v, d, k);
      assert k in Update(v, d, pk, sets).writes;
      UpdateSame(v, u, d, pk, sets);
    case OpDelete(d, pk) =>
      assert KeyOf(d, pk).value in Delete(v, d, pk).writes;
      DeleteSame(v, u, d, pk);
    case _ =>
  }

  // --- the exception is real ---

  const KEYED: TableDesc := TableDesc(7, "t", [Column(1, "id", TInt, true, false)], [0], [], [], 2)

  /** A view on which an operation's marks and writes agree, and its outcome does not. */
  ghost predicate Escapes(v: KV, u: KV, op: Op) {
    AgreeOn(v, u, Exec(v, op).marks, Exec(v, op).writes) && ProbeFailed(Exec(v, op).res) && Exec(u, op) != Exec(v, op)
  }

  /** A failed insert marks and writes nothing, yet its failure is not determined by
      what it marked: on a view without the row it succeeds. */
  lemma ProbeUnmarked()
    ensures exists v: KV, u: KV, op :: Escapes(v, u, op)
  {
    var five := [Int(5)];
    var k := RowKey(KEYED, five);
    var v: KV := map[k := RowVal([])];
    var u: KV := map[];
    var op := OpInsert(KEYED, five);
    assert seq(1, i requires 0 <= i < 1 => Coerce(five[i], KEYED.columns[i].typ)) == five;
    assert CoerceRow(KEYED, five) == Some(five);
    assert Project(five, KEYED.pkCols) == five;
    assert Insert(v, KEYED, five) == Failed(DuplicateKey);
    assert Exec(u, op).res.Put?;
    assert Escapes(v, u, op);
  }

  /** And it is exactly the exception: every operation that failed on a probe succeeds
      on some view that agrees with its marks. */
  lemma ProbeEscapes(v: KV, op: Op)
    requires ValidTable(op.d) && ProbeFailed(Exec(v, op).res)
    ensures exists u: KV :: Escapes(v, u, op)
  {
    match op
    case OpInsert(d, vals) => InsertEscapes(v, d, vals);
    case OpUpdate(d, pk, sets) => UpdateEscapes(v, d, pk, sets);
    case _ =>
  }

  lemma InsertEscapes(v: KV, d: TableDesc, vals: seq<Value>)
    requires Insert(v, d, vals).Failed? && Insert(v, d, vals).err in {DuplicateKey, UniqueViolation}
    ensures Escapes(v, map[], OpInsert(d, vals))
  {
    assert Insert(map[], d, vals).Done?;
  }

  lemma UpdateEscapes(v: KV, d: TableDesc, pk: seq<Value>, sets: map<nat, Value>)
    requires ValidTable(d) && Update(v, d, pk, sets).Failed?
    requires Update(v, d, pk, sets).err in {DuplicateKey, UniqueViolation}
    ensures exists u: KV :: Escapes(v, u, OpUpdate(d, pk, sets))
  {
    var k := KeyOf(d, pk).value;
    var u: KV := map[k := v[k]];
    var was := RowAt(v, d, k);
    assert RowAt(u, d, k) == was;
    UpdateAlone(u, d, pk, sets);
    UpdateFailure(v, d, pk, sets);
    UpdateSuccess(u, d, pk, sets);
    KeyEscapes(v, u, OpUpdate(d, pk, sets), k);
  }

  lemma UpdateFailure(v: KV, d: TableDesc, pk: seq<Value>, sets: map<nat, Value>)
    requires Update(v, d, pk, sets).Failed? && KeyOf(d, pk).Some?
    ensures Exec(v, OpUpdate(d, pk, sets))
         == Effect(Err(Update(v, d, pk, sets).err), map[], Marks({KeyOf(d, pk).value}, {}))
  {
  }

  lemma UpdateSuccess(u: KV, d: TableDesc, pk: seq<Value>, sets: map<nat, Value>)
    requires Update(u, d, pk, sets).Done?
    ensures Exec(u, OpUpdate(d, pk, sets)).res == Changed(Update(u, d, pk, sets).result)
  {
  }

  lemma KeyEscapes(v: KV, u: KV, op: Op, k: Key)
    requires Agree(v, u, k) && ProbeFailed(Exec(v, op).res) && Exec(u, op).res.Changed?
    requires Exec(v, op).marks == Marks({k}, {}) && Exec(v, op).writes == map[]
    ensures Escapes(v, u, op)
  {
  }

  /** In a store holding one row alone, an update of it finds nothing taken. */
  lemma UpdateAlone(u: KV, d: TableDesc, pk: seq<Value>, sets: map<nat, Value>)
    requires ValidTable(d) && KeyOf(d, pk).Some? && u.Keys == {KeyOf(d, pk).value}
    requires SetRow(d, RowAt(u, d, KeyOf(d, pk).value), sets).Some?
    ensures Update(u, d, pk, sets).Done?
  {
    hide RowAt, SetRow;
    var k := KeyOf(d, pk).value;
    forall row, i: nat | i < |d.indexes| ensures !Taken(u, d, row, i) {
      assert EntryKey(d, d.indexes[i], row).index != PRIMARY;
    }
    assert UpdateFrom(u, d, k, RowAt(u, d, k), sets).Done?;
  }
}
