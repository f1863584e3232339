/** The row operations as the engine runs them inside a transaction: checks first,
    then writes staged one by one, marking what they read (dml.go, index.go, txn.go).
    Each is proved against its function of the store. */
module TxnOps {
  import opened Values
  import opened Schema
  import opened Store
  import opened Table
  import opened TableProof
  import opened TableScan
  import opened ReadSet

  /** A transaction on a snapshot: staged writes and read marks. */
  class Tx {
    const base: KV
    var writes: Writes
    var marks: Marks

    constructor (snapshot: KV)
      ensures base == snapshot && writes == map[] && marks == NONE && View() == snapshot
    {
      base, writes, marks := snapshot, map[], NONE;
      new;
      assert Apply(base, map[]) == base;
    }

    /** What the transaction sees: the snapshot under its own writes. */
    function View(): KV
      reads this`writes
    {
      Apply(base, writes)
    }

    predicate Contains(k: Key)
      reads this`writes
      ensures Contains(k) <==> k in View()
    {
      if k in writes then writes[k].Some? else k in base
    }

    function Get(k: Key): (v: Option<Stored>)
      reads this`writes
      ensures v == Lookup(View(), k)
    {
      if k in writes then writes[k] else if k in base then Some(base[k]) else None
    }

    method Set(k: Key, v: Stored)
      modifies this`writes
      ensures writes == old(writes)[k := Some(v)]
    {
      writes := writes[k := Some(v)];
    }

    method Remove(k: Key)
      modifies this`writes
      ensures writes == old(writes)[k := None]
    {
      writes := writes[k := None];
    }

    method MarkRead(k: Key)
      modifies this`marks
      ensures marks == Marks(old(marks).keys + {k}, old(marks).ranges)
    {
      marks := marks.(keys := marks.keys + {k});
    }

    method MarkReadRange(r: Range)
      modifies this`marks
      ensures marks == Marks(old(marks).keys, old(marks).ranges + {r})
    {
      marks := marks.(ranges := marks.ranges + {r});
    }

    /** The first unique index in which a row's entry is taken. */
    method ProbeUnique(d: TableDesc, row: Row) returns (taken: bool)
      ensures taken <==> exists i :: 0 <= i < |d.indexes| && Taken(View(), d, row, i)
    {
      var i := 0;
      while i < |d.indexes|
        invariant 0 <= i <= |d.indexes|
        invariant forall j :: 0 <= j < i ==> !Taken(View(), d, row, j)
      {
        if Enforced(d.indexes[i], row) && Contains(EntryKey(d, d.indexes[i], row)) {
          assert Taken(View(), d, row, i);
          return true;
        }
        i := i + 1;
      }
      taken := false;
    }

    /** Writes a row's entries, index by index. */
    method PutEntries(d: TableDesc, row: Row)
      modifies this`writes
      ensures writes == old(writes) + EntryPuts(d, row, |d.indexes|)
    {
      hide EntryKey, EntryVal;
      var i := 0;
      while i < |d.indexes|
        invariant 0 <= i <= |d.indexes|
        invariant writes == old(writes) + EntryPuts(d, row, i)
      {
        Set(EntryKey(d, d.indexes[i], row), EntryVal(d, d.indexes[i], row));
        PlusPut(old(writes), EntryPuts(d, row, i), EntryKey(d, d.indexes[i], row),
                Some(EntryVal(d, d.indexes[i], row)));
        i := i + 1;
      }
    }

    method RemoveEntries(d: TableDesc, row: Row)
      modifies this`writes
      ensures writes == old(writes) + EntryDels(d, row, |d.indexes|)
    {
      var i := 0;
      while i < |d.indexes|
        invariant 0 <= i <= |d.indexes|
        invariant writes == old(writes) + EntryDels(d, row, i)
      {
        Remove(EntryKey(d, d.indexes[i], row));
        PlusPut(old(writes), EntryDels(d, row, i), EntryKey(d, d.indexes[i], row), None);
        i := i + 1;
      }
    }

    /** insertRow: probes first, so a failed insert stages nothing. */
    method InsertRow(d: TableDesc, vals: seq<Value>) returns (r: Outcome<Row>)
      modifies this`writes
      ensures r == Insert(old(View()), d, vals)
      ensures writes == if r.Done? then old(writes) + r.writes else old(writes)
    {
      var coerced := CoerceRow(d, vals);
      if coerced.None? { return Failed(BadRow); }
      var row := coerced.value;
      var key := RowKey(d, Project(row, d.pkCols));
      if Contains(key) { return Failed(DuplicateKey); }
      var taken := ProbeUnique(d, row);
      if taken { return Failed(UniqueViolation); }
      r := Done(EntryPuts(d, row, |d.indexes|)[key := Some(EncodeRow(d, row))], row);
      assert r == Insert(View(), d, vals);
      PutEntries(d, row);
      PlusPut(old(writes), EntryPuts(d, row, |d.indexes|), key, Some(EncodeRow(d, row)));
      Set(key, EncodeRow(d, row));
    }

    /** deleteRow: marks the key hit or miss. */
    method DeleteRow(d: TableDesc, pk: seq<Value>) returns (r: Outcome<bool>)
      modifies this`writes, this`marks
      ensures r == Delete(old(View()), d, pk)
      ensures writes == if r.Done? then old(writes) + r.writes else old(writes)
      ensures marks == if KeyOf(d, pk).Some? then Marks(old(marks).keys + {KeyOf(d, pk).value}, old(marks).ranges)
        else old(marks)
    {
      var key := KeyOf(d, pk);
      if key.None? { return Failed(BadKey); }
      var k := key.value;
      MarkRead(k);
      if Get(k).None? {
        assert old(writes) + map[] == old(writes);
        return Done(map[], false);
      }
      var row := RowAt(View(), d, k);
      RemoveEntries(d, row);
      PlusPut(old(writes), EntryDels(d, row, |d.indexes|), k, None);
      Remove(k);
      r := Done(EntryDels(d, row, |d.indexes|)[k := None], true);
    }

    /** The entries an update moves, each probed before anything is written. */
    method ProbeMoves(d: TableDesc, was: Row, now: Row) returns (taken: bool, moves: seq<Move>)
      ensures taken <==> exists i :: 0 <= i < |d.indexes| && MoveTaken(View(), d, was, now, i)
      ensures !taken ==> moves == MovedIn(d, was, now, |d.indexes|)
    {
      hide MoveTaken, Moved, MoveOf;
      moves := [];
      var i := 0;
      while i < |d.indexes|
        invariant 0 <= i <= |d.indexes|
        invariant forall j :: 0 <= j < i ==> !MoveTaken(View(), d, was, now, j)
        invariant moves == MovedIn(d, was, now, i)
      {
        var hit, move := ProbeMove(d, was, now, i);
        if hit {
          return true, moves;
        }
        moves := moves + (if move.Some? then [move.value] else []);
        i := i + 1;
      }
      taken := false;
    }

    method ProbeMove(d: TableDesc, was: Row, now: Row, i: nat) returns (taken: bool, move: Option<Move>)
      requires i < |d.indexes|
      ensures taken <==> MoveTaken(View(), d, was, now, i)
      ensures !taken ==> move == if Moved(d, was, now, i) then Some(MoveOf(d, was, now, i)) else None
    {
      var idx := d.indexes[i];
      var ok, nk := EntryKey(d, idx, was), EntryKey(d, idx, now);
      if ok == nk && EntryVal(d, idx, was) == EntryVal(d, idx, now) {
        return false, None;
      }
      if Enforced(idx, now) && nk != ok && Contains(nk) {
        return true, None;
      }
      return false, Some(Move(ok, nk, EntryVal(d, idx, now)));
    }

    method MoveEntries(moves: seq<Move>)
      modifies this`writes
      ensures writes == old(writes) + MovesOf(moves)
    {
      var i := 0;
      while i < |moves|
        invariant 0 <= i <= |moves|
        invariant writes == old(writes) + MovesOf(moves[..i])
      {
        ghost var m := MovesOf(moves[..i]);
        Remove(moves[i].oldKey);
        Set(moves[i].newKey, moves[i].newVal);
        PlusPut(old(writes), m, moves[i].oldKey, None);
        PlusPut(old(writes), m[moves[i].oldKey := None], moves[i].newKey, Some(moves[i].newVal));
        assert moves[..i + 1] == moves[..i] + [moves[i]];
        MovesSnoc(moves[..i], moves[i]);
        i := i + 1;
      }
      assert moves[..i] == moves;
    }

    /** Phase one of updateRow: the new row and the entries to move, all checked. */
    method CheckUpdate(d: TableDesc, k: Key, was: Row, sets: map<nat, Value>)
        returns (r: Outcome<Option<Row>>, moves: seq<Move>)
      requires RowOK(d, was) && k == RowKey(d, Project(was, d.pkCols))
      ensures r == UpdateFrom(View(), d, k, was, sets)
      ensures r.Done? ==> r.result.Some? && moves == MovedIn(d, was, r.result.value, |d.indexes|)
    {
      moves := [];
      var changed := ApplySets(d, was, sets);
      if changed.None? { return Failed(BadRow), []; }
      var now := changed.value;
      var nk := RowKey(d, Project(now, d.pkCols));
      if nk != k && Contains(nk) { return Failed(DuplicateKey), []; }
      var taken;
      taken, moves := ProbeMoves(d, was, now);
      if taken { return Failed(UniqueViolation), []; }
      r := Done(UpdateWrites(d, was, now), Some(now));
    }

    /** updateRow: phase one computes and checks, phase two writes. */
    method UpdateRow(d: TableDesc, pk: seq<Value>, sets: map<nat, Value>) returns (r: Outcome<Option<Row>>)
      requires Consistent(View(), d)
      modifies this`writes, this`marks
      ensures r == Update(old(View()), d, pk, sets)
      ensures writes == if r.Done? then old(writes) + r.writes else old(writes)
      ensures marks == if KeyOf(d, pk).Some? then Marks(old(marks).keys + {KeyOf(d, pk).value}, old(marks).ranges)
        else old(marks)
    {
      var key := KeyOf(d, pk);
      if key.None? { return Failed(BadKey); }
      var k := key.value;
      MarkRead(k);
      if Get(k).None? {
        assert old(writes) + map[] == old(writes);
        return Done(map[], None);
      }
      var was := RowAt(View(), d, k);
      assert RowGood(View(), d, k);
      var moves;
      r, moves := CheckUpdate(d, k, was, sets);
      if r.Done? {
        var now := r.result.value;
        MoveEntries(moves);
        ReplaceRow(d, was, now, k, RowKey(d, Project(now, d.pkCols)), old(writes));
      }
    }

    method ReplaceRow(d: TableDesc, was: Row, now: Row, k: Key, nk: Key, ghost w: Writes)
      requires |now| == |d.columns| && k == RowKey(d, Project(was, d.pkCols)) && nk == RowKey(d, Project(now, d.pkCols))
      requires writes == w + EntryMoves(d, was, now, |d.indexes|)
      modifies this`writes
      ensures writes == w + UpdateWrites(d, was, now)
    {
      ghost var m := EntryMoves(d, was, now, |d.indexes|);
      if nk != k {
        Remove(k);
      }
      Set(nk, EncodeRow(d, now));
      PlusPut(w, m, k, None);
      PlusPut(w, m[k := None], nk, Some(EncodeRow(d, now)));
      assert k == nk ==> m[k := None][nk := Some(EncodeRow(d, now))] == m[nk := Some(EncodeRow(d, now))];
    }

    /** Txn.Get: marked hit or miss. */
    method GetRow(d: TableDesc, pk: seq<Value>) returns (r: Res)
      modifies this`marks
      ensures var e := Exec(View(), OpGet(d, pk));
              r == e.res && marks == Marks(old(marks).keys + e.marks.keys, old(marks).ranges + e.marks.ranges)
    {
      var key := KeyOf(d, pk);
      if key.None? {
        return Err(BadKey);
      }
      MarkRead(key.value);
      if Get(key.value).None? { return Got(None); }
      r := Got(Some(RowAt(View(), d, key.value)));
    }

    /** scanRows, scanIndexRows and their reverse forms: the whole range is marked up
        front and, through an index, every row key as it is fetched; the consumer may
        stop early. */
    method ScanRange(d: TableDesc, path: Path, from: seq<Value>, to: seq<Value>, incl: bool, rev: bool,
                     more: seq<Row> -> bool, keys: seq<Key>) returns (r: Res)
      requires keys == ScanKeys(View(), RangeOf(d, path, from, to, incl), rev)
      modifies this`marks
      ensures var e := Exec(View(), OpScan(d, path, from, to, incl, rev, more));
              r == e.res && marks == Marks(old(marks).keys + e.marks.keys, old(marks).ranges + e.marks.ranges)
    {
      if |from| > |PathCols(d, path)| || |to| > |PathCols(d, path)| {
        return Err(BadKey);
      }
      MarkReadRange(RangeOf(d, path, from, to, incl));
      var f := FetchRows(d, path, keys, more);
      r := if f.ok then Rows(f.rows) else Err(NoSuchRow);
    }

    /** The rows behind a scan's keys, until one leads nowhere or the consumer stops. */
    method FetchRows(d: TableDesc, path: Path, keys: seq<Key>, more: seq<Row> -> bool) returns (f: Fetched)
      requires forall k :: k in keys ==> k in View()
      modifies this`marks
      ensures f == Fetch(View(), d, path, keys, more, [])
      ensures marks == Marks(old(marks).keys + (if path.Primary? then {} else f.keys), old(marks).ranges)
    {
      hide Fetch, RowAt, RowKeyAt;
      f := Fetched([], true, {});
      var i := 0;
      assert keys[0..] == keys;
      while i < |keys|
        invariant 0 <= i <= |keys| && f.ok
        invariant marks == Marks(old(marks).keys + (if path.Primary? then {} else f.keys), old(marks).ranges)
        invariant Fetch(View(), d, path, keys, more, []) == After(f, Fetch(View(), d, path, keys[i..], more, f.rows))
      {
        FetchStep(View(), d, path, keys, i, more, f);
        var rk := RowKeyAt(View(), d, path, keys[i]);
        if path.Secondary? {
          MarkRead(rk);
        }
        f := f.(keys := f.keys + {rk});
        if Get(rk).None? {
          return f.(ok := false);
        }
        f := f.(rows := f.rows + [RowAt(View(), d, rk)]);
        if !more(f.rows) {
          return f;
        }
        i := i + 1;
      }
      FetchEnd(View(), d, path, keys[i..], more, f.rows);
    }
  }

  lemma FetchEnd(v: KV, d: TableDesc, path: Path, keys: seq<Key>, more: seq<Row> -> bool, rows: seq<Row>)
    requires keys == []
    ensures Fetch(v, d, path, keys, more, rows) == Fetched(rows, true, {})
  {
  }

  /** A fetch continued after f: f's keys belong to it too. */
  function After(f: Fetched, rest: Fetched): Fetched {
    Fetched(rest.rows, rest.ok, f.keys + rest.keys)
  }

  lemma FetchStep(v: KV, d: TableDesc, path: Path, keys: seq<Key>, i: nat, more: seq<Row> -> bool, f: Fetched)
    requires i < |keys| && forall k :: k in keys ==> k in v
    ensures keys[i] in keys
    ensures var rk := RowKeyAt(v, d, path, keys[i]);
            var all := After(f, Fetch(v, d, path, keys[i..], more, f.rows));
            if rk !in v then all == Fetched(f.rows, false, f.keys + {rk})
            else
              var seen := f.rows + [RowAt(v, d, rk)];
              if !more(seen) then all == Fetched(seen, true, f.keys + {rk})
              else all == After(Fetched(seen, true, f.keys + {rk}), Fetch(v, d, path, keys[i + 1..], more, seen))
  {
    assert keys[i..][0] == keys[i] && keys[i..][1..] == keys[i + 1..];
  }

  lemma PlusPut(w: Writes, m: Writes, k: Key, v: Option<Stored>)
    ensures (w + m)[k := v] == w + m[k := v]
  {
  }

  /** SET applied column by column, in any order, to a stored row. */
  method ApplySets(d: TableDesc, was: Row, sets: map<nat, Value>) returns (r: Option<Row>)
    requires RowOK(d, was)
    ensures r == SetRow(d, was, sets)
  {
    var vals, rest := was, sets.Keys;
    while rest != {}
      invariant rest <= sets.Keys && |vals| == |was|
      invariant forall c :: c in sets.Keys - rest ==> c < |was| && SetOK(d, c, Coerce(sets[c], d.columns[c].typ))
      invariant forall i ::
        0 <= i < |was| ==> vals[i] == if i in sets.Keys - rest then Coerce(sets[i], d.columns[i].typ) else was[i]
      decreases |rest|
    {
      var c :| c in rest;
      if c >= |d.columns| { return None; }
      var v := Coerce(sets[c], d.columns[c].typ);
      if !SetOK(d, c, v) {
        SetRefused(d, was, sets, c);
        return None;
      }
      vals, rest := vals[c := v], rest - {c};
    }
    SetAccepted(d, was, sets, vals);
    r := Some(vals);
  }

  lemma SetAccepted(d: TableDesc, was: Row, sets: map<nat, Value>, vals: Row)
    requires RowOK(d, was) && |vals| == |was|
    requires forall c :: c in sets ==> c < |was| && SetOK(d, c, Coerce(sets[c], d.columns[c].typ))
    requires forall i :: 0 <= i < |was| ==> vals[i] == if i in sets then Coerce(sets[i], d.columns[i].typ) else was[i]
    ensures SetRow(d, was, sets) == Some(vals)
  {
    var row := seq(|was|, i requires 0 <= i < |was| => if i in sets then Coerce(sets[i], d.columns[i].typ) else was[i]);
    assert row == vals;
    assert RowOK(d, vals);
  }

  /** A value a column takes: its type fits, and it is not NULL where that is barred. */
  predicate SetOK(d: TableDesc, c: nat, v: Value)
    requires c < |d.columns|
  {
    Fits(v, d.columns[c].typ) && (v == Null ==> !NonNullCol(d, c) && !d.columns[c].identity)
  }

  lemma SetRefused(d: TableDesc, was: Row, sets: map<nat, Value>, c: nat)
    requires |was| == |d.columns| && c in sets && c < |was| && !SetOK(d, c, Coerce(sets[c], d.columns[c].typ))
    ensures SetRow(d, was, sets) == None
  {
    if forall c :: c in sets ==> c < |d.columns| {
      var row := seq(|was|,
                     i requires 0 <= i < |was| => if i in sets then Coerce(sets[i], d.columns[i].typ) else was[i]);
      assert row[c] == Coerce(sets[c], d.columns[c].typ);
      assert !RowOK(d, row);
    }
  }
}
