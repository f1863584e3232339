/** Every index holds exactly the entries its table's rows derive, and every row
    operation keeps it so. */
module TableProof {
  import opened Values
  import opened Schema
  import opened Store
  import opened Table

  /** A stored row decodes to a typed row filed under its own primary key. */
  ghost predicate RowGood(s: KV, d: TableDesc, k: Key)
    requires k in s
  {
    && s[k].RowVal? && |k.vals| == |d.pkCols|
    && RowOK(d, RowAt(s, d, k))
    && Project(RowAt(s, d, k), d.pkCols) == k.vals
  }

  ghost predicate HasEntry(s: KV, d: TableDesc, i: nat, row: Row)
    requires i < |d.indexes|
  {
    var k := EntryKey(d, d.indexes[i], row);
    k in s && s[k] == EntryVal(d, d.indexes[i], row)
  }

  ghost predicate DerivedBy(s: KV, d: TableDesc, ek: Key, k: Key) {
    && k in s && IsRowKey(d, k)
    && IdxOf(d, ek.index, |d.indexes|).Some?
    && ek == EntryKey(d, d.indexes[IdxOf(d, ek.index, |d.indexes|).value], RowAt(s, d, k))
  }

  /** Some stored row derives the entry. */
  ghost predicate Explained(s: KV, d: TableDesc, ek: Key) {
    exists k :: DerivedBy(s, d, ek, k)
  }

  /** The table's part of the store: good rows, an entry per row and index, and no
      other entry. */
  ghost predicate Consistent(s: KV, d: TableDesc) {
    && ValidTable(d)
    && (forall k :: k in s && IsRowKey(d, k) ==> RowGood(s, d, k))
    && (forall k, i: nat :: k in s && IsRowKey(d, k) && i < |d.indexes| ==> HasEntry(s, d, i, RowAt(s, d, k)))
    && (forall k :: k in s && IsEntryKey(d, k) ==> Explained(s, d, k))
  }

  /** The rows of a table, by row key. */
  ghost function RowsOf(s: KV, d: TableDesc): map<Key, Row> {
    map k | k in s && IsRowKey(d, k) :: RowAt(s, d, k)
  }

  // --- entries tell rows apart ---

  /** Two row images with one entry key have one primary key, or both take the
      unique form. */
  lemma EntryKeysDiffer(d: TableDesc, idx: IndexDesc, a: Row, b: Row)
    requires d.pkCols != [] && EntryKey(d, idx, a) == EntryKey(d, idx, b)
    ensures Enforced(idx, a) == Enforced(idx, b)
    ensures Project(a, idx.cols) == Project(b, idx.cols)
    ensures !Enforced(idx, a) ==> Project(a, d.pkCols) == Project(b, d.pkCols)
  {
    var x, y := EntryKey(d, idx, a).vals, EntryKey(d, idx, b).vals;
    var n := |idx.cols|;
    assert x[..n] == Project(a, idx.cols) && y[..n] == Project(b, idx.cols);
    assert x[n..] == (if Enforced(idx, a) then [] else Project(a, d.pkCols));
    assert y[n..] == (if Enforced(idx, b) then [] else Project(b, d.pkCols));
  }

  /** An entry belongs to one row: unique all-non-NULL values are held by one row. */
  lemma EntryOwner(s: KV, d: TableDesc, i: nat, k1: Key, k2: Key)
    requires Consistent(s, d) && i < |d.indexes|
    requires k1 in s && IsRowKey(d, k1) && k2 in s && IsRowKey(d, k2)
    requires EntryKey(d, d.indexes[i], RowAt(s, d, k1)) == EntryKey(d, d.indexes[i], RowAt(s, d, k2))
    ensures k1 == k2
  {
    EntryKeysDiffer(d, d.indexes[i], RowAt(s, d, k1), RowAt(s, d, k2));
    assert RowGood(s, d, k1) && RowGood(s, d, k2);
    assert HasEntry(s, d, i, RowAt(s, d, k1)) && HasEntry(s, d, i, RowAt(s, d, k2));
  }

  /** Uniqueness, as a statement about rows. */
  lemma UniqueHolds(s: KV, d: TableDesc, i: nat, k1: Key, k2: Key)
    requires Consistent(s, d) && i < |d.indexes| && d.indexes[i].unique
    requires k1 in s && IsRowKey(d, k1) && k2 in s && IsRowKey(d, k2) && k1 != k2
    ensures var a, b := Project(RowAt(s, d, k1), d.indexes[i].cols), Project(RowAt(s, d, k2), d.indexes[i].cols);
            a != b || Null in a
  {
    if Project(RowAt(s, d, k1), d.indexes[i].cols) == Project(RowAt(s, d, k2), d.indexes[i].cols)
       && Null !in Project(RowAt(s, d, k1), d.indexes[i].cols) {
      EntryOwner(s, d, i, k1, k2);
    }
  }

  /** An update's probes find a unique entry taken exactly when a row other than the one
      it replaces holds the same values. */
  lemma MoveTakenBy(s: KV, d: TableDesc, k: Key, now: Row)
    requires Consistent(s, d) && k in s && IsRowKey(d, k)
    ensures (exists i :: 0 <= i < |d.indexes| && MoveTaken(s, d, RowAt(s, d, k), now, i))
       <==> exists o :: o in s && IsRowKey(d, o) && o != k && SharesUnique(d, now, RowAt(s, d, o))
  {
    if i :| 0 <= i < |d.indexes| && MoveTaken(s, d, RowAt(s, d, k), now, i) {
      TakenHolder(s, d, k, now, i);
    }
    if o :| o in s && IsRowKey(d, o) && o != k && SharesUnique(d, now, RowAt(s, d, o)) {
      var i :| 0 <= i < |d.indexes| && SharesIn(d.indexes[i], now, RowAt(s, d, o));
      HolderTakes(s, d, k, now, o, i);
    }
  }

  lemma TakenHolder(s: KV, d: TableDesc, k: Key, now: Row, i: nat)
    requires Consistent(s, d) && k in s && IsRowKey(d, k) && i < |d.indexes| && MoveTaken(s, d, RowAt(s, d, k), now, i)
    ensures exists o :: o in s && IsRowKey(d, o) && o != k && SharesUnique(d, now, RowAt(s, d, o))
  {
    var idx := d.indexes[i];
    var ek := EntryKey(d, idx, now);
    assert idx.id > PRIMARY && Explained(s, d, ek);
    var o :| DerivedBy(s, d, ek, o);
    IdxOfIndex(d, i);
    EntryKeysDiffer(d, idx, now, RowAt(s, d, o));
    assert SharesIn(idx, now, RowAt(s, d, o));
  }

  lemma HolderTakes(s: KV, d: TableDesc, k: Key, now: Row, o: Key, i: nat)
    requires Consistent(s, d) && k in s && IsRowKey(d, k) && o in s && IsRowKey(d, o) && o != k
    requires i < |d.indexes| && SharesIn(d.indexes[i], now, RowAt(s, d, o))
    ensures MoveTaken(s, d, RowAt(s, d, k), now, i)
  {
    var idx := d.indexes[i];
    assert HasEntry(s, d, i, RowAt(s, d, o));
    assert EntryKey(d, idx, now) == EntryKey(d, idx, RowAt(s, d, o));
    if EntryKey(d, idx, RowAt(s, d, k)) == EntryKey(d, idx, now) {
      EntryOwner(s, d, i, k, o);
    }
  }

  // --- the writes of one row's entries, key by key ---

  /** Which of the first n indexes has an ID. */
  ghost function IdxOf(d: TableDesc, id: nat, n: nat): (r: Option<nat>)
    requires n <= |d.indexes|
    ensures r.Some? ==> r.value < n && d.indexes[r.value].id == id
    ensures r.None? ==> forall i :: 0 <= i < n ==> d.indexes[i].id != id
  {
    if n == 0 then None else if d.indexes[n - 1].id == id then Some(n - 1) else IdxOf(d, id, n - 1)
  }

  lemma IdxOfIndex(d: TableDesc, i: nat)
    requires ValidTable(d) && i < |d.indexes|
    ensures IdxOf(d, d.indexes[i].id, |d.indexes|) == Some(i)
  {
  }

  ghost function Lookup(s: KV, k: Key): Option<Stored> {
    if k in s then Some(s[k]) else None
  }

  lemma ApplyAt(s: KV, w: Writes, k: Key)
    ensures Lookup(Apply(s, w), k) == if k in w then w[k] else Lookup(s, k)
  {
  }

  lemma {:induction false} PutsAt(d: TableDesc, row: Row, n: nat, k: Key)
    requires n <= |d.indexes|
    ensures var i := IdxOf(d, k.index, n);
            var w := EntryPuts(d, row, n);
            if i.Some? && k == EntryKey(d, d.indexes[i.value], row)
            then k in w && w[k] == Some(EntryVal(d, d.indexes[i.value], row))
            else i.None? ==> k !in w
    ensures ValidTable(d) && k in EntryPuts(d, row, n) ==>
            IdxOf(d, k.index, n).Some? && k == EntryKey(d, d.indexes[IdxOf(d, k.index, n).value], row)
  {
    hide EntryVal, OrdsIn;
    if n > 0 {
      PutsAt(d, row, n - 1, k);
    }
  }

  lemma {:induction false} DelsAt(d: TableDesc, row: Row, n: nat, k: Key)
    requires ValidTable(d) && n <= |d.indexes|
    ensures var i := IdxOf(d, k.index, n);
            var w := EntryDels(d, row, n);
            && (k in w <==> i.Some? && k == EntryKey(d, d.indexes[i.value], row))
            && (k in w ==> w[k] == None)
  {
    hide Project, Enforced;
    if n > 0 {
      DelsAt(d, row, n - 1, k);
    }
  }

  // --- insert ---

  /** The store after an insert, key by key. */
  lemma InsertAt(s: KV, d: TableDesc, vals: seq<Value>, k: Key)
    requires ValidTable(d) && Insert(s, d, vals).Done?
    ensures var o := Insert(s, d, vals);
            var t, row := Apply(s, o.writes), o.result;
            var i := IdxOf(d, k.index, |d.indexes|);
            Lookup(t, k) ==
              if k == RowKey(d, Project(row, d.pkCols)) then Some(EncodeRow(d, row))
              else if i.Some? && k == EntryKey(d, d.indexes[i.value], row)
              then Some(EntryVal(d, d.indexes[i.value], row))
              else Lookup(s, k)
  {
    var o := Insert(s, d, vals);
    PutsAt(d, o.result, |d.indexes|, k);
    ApplyAt(s, o.writes, k);
  }

  lemma InsertRows(s: KV, d: TableDesc, vals: seq<Value>, k: Key)
    requires Consistent(s, d) && Insert(s, d, vals).Done? && IsRowKey(d, k)
    ensures var o := Insert(s, d, vals);
            var t, rk := Apply(s, o.writes), RowKey(d, Project(o.result, d.pkCols));
            && (k in t <==> k in s || k == rk)
            && (k == rk ==> k !in s && RowAt(t, d, k) == o.result)
            && (k in s ==> t[k] == s[k])
            && (k in t ==> RowGood(t, d, k))
  {
    var o := Insert(s, d, vals);
    InsertAt(s, d, vals, k);
    RowRoundTrip(d, o.result);
    if k in s {
      assert RowGood(s, d, k);
    }
  }

  /** An insert leaves every other row's entries as they were. */
  lemma InsertKeepsEntry(s: KV, d: TableDesc, vals: seq<Value>, k: Key, i: nat)
    requires Consistent(s, d) && Insert(s, d, vals).Done? && k in s && IsRowKey(d, k) && i < |d.indexes|
    ensures HasEntry(Apply(s, Insert(s, d, vals).writes), d, i, RowAt(s, d, k))
  {
    var row, other := Insert(s, d, vals).result, RowAt(s, d, k);
    var ek := EntryKey(d, d.indexes[i], other);
    assert HasEntry(s, d, i, other) && RowGood(s, d, k);
    IdxOfIndex(d, i);
    InsertAt(s, d, vals, ek);
    if ek == EntryKey(d, d.indexes[i], row) {
      EntryKeysDiffer(d, d.indexes[i], other, row);
      assert !Taken(s, d, row, i);
    }
  }

  lemma InsertExplains(s: KV, d: TableDesc, vals: seq<Value>, ek: Key)
    requires Consistent(s, d) && Insert(s, d, vals).Done? && IsEntryKey(d, ek)
    requires ek in Apply(s, Insert(s, d, vals).writes)
    ensures Explained(Apply(s, Insert(s, d, vals).writes), d, ek)
  {
    var o := Insert(s, d, vals);
    var t, rk := Apply(s, o.writes), RowKey(d, Project(o.result, d.pkCols));
    InsertAt(s, d, vals, ek);
    InsertRows(s, d, vals, rk);
    if !DerivedBy(t, d, ek, rk) {
      assert Explained(s, d, ek);
      var k :| DerivedBy(s, d, ek, k);
      InsertRows(s, d, vals, k);
      assert DerivedBy(t, d, ek, k);
    }
  }

  lemma InsertRowsOf(s: KV, d: TableDesc, vals: seq<Value>)
    requires Consistent(s, d) && Insert(s, d, vals).Done?
    ensures var o := Insert(s, d, vals);
            RowsOf(Apply(s, o.writes), d) == RowsOf(s, d)[RowKey(d, Project(o.result, d.pkCols)) := o.result]
  {
    hide Consistent, EntryPuts;
    var o := Insert(s, d, vals);
    var t, rk := Apply(s, o.writes), RowKey(d, Project(o.result, d.pkCols));
    var a, b := RowsOf(t, d), RowsOf(s, d)[rk := o.result];
    forall k: Key ensures (k in a <==> k in b) && (k in a ==> a[k] == b[k]) {
      if IsRowKey(d, k) {
        InsertRows(s, d, vals, k);
      }
    }
    assert a.Keys == b.Keys;
  }

  lemma InsertEntry(s: KV, d: TableDesc, vals: seq<Value>, k: Key, i: nat)
    requires Consistent(s, d) && Insert(s, d, vals).Done? && IsRowKey(d, k) && i < |d.indexes|
    requires k in Apply(s, Insert(s, d, vals).writes)
    ensures HasEntry(Apply(s, Insert(s, d, vals).writes), d, i, RowAt(Apply(s, Insert(s, d, vals).writes), d, k))
  {
    var row := Insert(s, d, vals).result;
    InsertRows(s, d, vals, k);
    if k in s {
      InsertKeepsEntry(s, d, vals, k, i);
    } else {
      IdxOfIndex(d, i);
      InsertAt(s, d, vals, EntryKey(d, d.indexes[i], row));
    }
  }

  /** Insert keeps the table consistent and adds exactly its row. */
  lemma InsertConsistent(s: KV, d: TableDesc, vals: seq<Value>)
    requires Consistent(s, d) && Insert(s, d, vals).Done?
    ensures var o := Insert(s, d, vals);
            && Consistent(Apply(s, o.writes), d)
            && RowsOf(Apply(s, o.writes), d) == RowsOf(s, d)[RowKey(d, Project(o.result, d.pkCols)) := o.result]
  {
    var t := Apply(s, Insert(s, d, vals).writes);
    InsertRowsOf(s, d, vals);
    forall k | k in t && IsRowKey(d, k) ensures RowGood(t, d, k) {
      InsertRows(s, d, vals, k);
    }
    forall k, i: nat | k in t && IsRowKey(d, k) && i < |d.indexes| ensures HasEntry(t, d, i, RowAt(t, d, k)) {
      InsertEntry(s, d, vals, k, i);
    }
    forall k | k in t && IsEntryKey(d, k) ensures Explained(t, d, k) {
      InsertExplains(s, d, vals, k);
    }
  }

  // --- delete ---

  lemma DeleteConsistent(s: KV, d: TableDesc, pk: seq<Value>)
    requires Consistent(s, d) && Delete(s, d, pk).Done?
    ensures var o := Delete(s, d, pk);
            && Consistent(Apply(s, o.writes), d)
            && o.result == (KeyOf(d, pk).value in s)
            && RowsOf(Apply(s, o.writes), d) == RowsOf(s, d) - {KeyOf(d, pk).value}
  {
    var rk := KeyOf(d, pk).value;
    if rk in s {
      DeleteRowConsistent(s, d, rk);
    } else {
      assert Apply(s, map[]) == s;
      assert RowsOf(s, d) - {rk} == RowsOf(s, d);
    }
  }

  ghost function WithoutRow(s: KV, d: TableDesc, rk: Key): KV
    requires rk in s
  {
    Apply(s, EntryDels(d, RowAt(s, d, rk), |d.indexes|)[rk := None])
  }

  lemma DeleteAt(s: KV, d: TableDesc, rk: Key, k: Key)
    requires ValidTable(d) && rk in s && IsRowKey(d, rk)
    ensures var i := IdxOf(d, k.index, |d.indexes|);
            Lookup(WithoutRow(s, d, rk), k) ==
              if k == rk || (i.Some? && k == EntryKey(d, d.indexes[i.value], RowAt(s, d, rk))) then None
                else Lookup(s, k)
  {
    DelsAt(d, RowAt(s, d, rk), |d.indexes|, k);
    ApplyAt(s, EntryDels(d, RowAt(s, d, rk), |d.indexes|)[rk := None], k);
  }

  lemma DeleteRows(s: KV, d: TableDesc, rk: Key, k: Key)
    requires Consistent(s, d) && rk in s && IsRowKey(d, rk) && IsRowKey(d, k)
    ensures var t := WithoutRow(s, d, rk);
            && (k in t <==> k in s && k != rk)
            && (k in t ==> t[k] == s[k] && RowGood(t, d, k))
  {
    DeleteAt(s, d, rk, k);
    if k in s {
      assert RowGood(s, d, k);
    }
  }

  lemma DeleteKeepsEntry(s: KV, d: TableDesc, rk: Key, k: Key, i: nat)
    requires Consistent(s, d) && rk in s && IsRowKey(d, rk) && k in s && IsRowKey(d, k) && k != rk && i < |d.indexes|
    ensures HasEntry(WithoutRow(s, d, rk), d, i, RowAt(s, d, k))
  {
    var ek := EntryKey(d, d.indexes[i], RowAt(s, d, k));
    assert HasEntry(s, d, i, RowAt(s, d, k));
    IdxOfIndex(d, i);
    DeleteAt(s, d, rk, ek);
    if ek == EntryKey(d, d.indexes[i], RowAt(s, d, rk)) {
      EntryOwner(s, d, i, k, rk);
    }
  }

  lemma DeleteExplains(s: KV, d: TableDesc, rk: Key, ek: Key)
    requires Consistent(s, d) && rk in s && IsRowKey(d, rk) && IsEntryKey(d, ek) && ek in WithoutRow(s, d, rk)
    ensures Explained(WithoutRow(s, d, rk), d, ek)
  {
    DeleteAt(s, d, rk, ek);
    assert Explained(s, d, ek);
    var k :| DerivedBy(s, d, ek, k);
    DeleteRows(s, d, rk, k);
    assert DerivedBy(WithoutRow(s, d, rk), d, ek, k);
  }

  lemma DeleteRowsOf(s: KV, d: TableDesc, rk: Key)
    requires Consistent(s, d) && rk in s && IsRowKey(d, rk)
    ensures RowsOf(WithoutRow(s, d, rk), d) == RowsOf(s, d) - {rk}
  {
    var t := WithoutRow(s, d, rk);
    var a, b := RowsOf(t, d), RowsOf(s, d) - {rk};
    forall k: Key ensures (k in a <==> k in b) && (k in a ==> a[k] == b[k]) {
      if IsRowKey(d, k) {
        DeleteRows(s, d, rk, k);
      }
    }
    assert a.Keys == b.Keys;
  }

  lemma DeleteRowConsistent(s: KV, d: TableDesc, rk: Key)
    requires Consistent(s, d) && rk in s && IsRowKey(d, rk)
    ensures Consistent(WithoutRow(s, d, rk), d)
    ensures RowsOf(WithoutRow(s, d, rk), d) == RowsOf(s, d) - {rk}
  {
    var t := WithoutRow(s, d, rk);
    DeleteRowsOf(s, d, rk);
    forall k | k in t && IsRowKey(d, k) ensures RowGood(t, d, k) {
      DeleteRows(s, d, rk, k);
    }
    forall k, i: nat | k in t && IsRowKey(d, k) && i < |d.indexes| ensures HasEntry(t, d, i, RowAt(t, d, k)) {
      DeleteRows(s, d, rk, k);
      DeleteKeepsEntry(s, d, rk, k, i);
    }
    forall k | k in t && IsEntryKey(d, k) ensures Explained(t, d, k) {
      DeleteExplains(s, d, rk, k);
    }
  }

  // --- update ---

  /** What moving one index's entry does at a key: nothing, or a new value there. */
  ghost function MoveAt(d: TableDesc, was: Row, now: Row, i: nat, k: Key): Option<Option<Stored>>
    requires i < |d.indexes|
  {
    if !Moved(d, was, now, i) then None
    else if k == EntryKey(d, d.indexes[i], now) then Some(Some(EntryVal(d, d.indexes[i], now)))
    else if k == EntryKey(d, d.indexes[i], was) then Some(None)
    else None
  }

  lemma MovesAt(d: TableDesc, was: Row, now: Row, k: Key)
    requires ValidTable(d)
    ensures var i := IdxOf(d, k.index, |d.indexes|);
            var w := EntryMoves(d, was, now, |d.indexes|);
            var m := if i.None? then None else MoveAt(d, was, now, i.value, k);
            (k in w <==> m.Some?) && (k in w ==> w[k] == m.value)
  {
    var n, i := |d.indexes|, IdxOf(d, k.index, |d.indexes|);
    var moves := MovedIn(d, was, now, n);
    var v := if i.Some? then MoveOf(d, was, now, i.value) else Move(k, k, Entry([]));
    MovedInHas(d, was, now, n, v);
    forall x | x in moves && Touches(x, k) ensures x == v && i.Some? {
      MovedInHas(d, was, now, n, x);
      var j :| 0 <= j < n && Moved(d, was, now, j) && x == MoveOf(d, was, now, j);
      IdxOfIndex(d, j);
    }
    MovesAtKey(moves, k, v);
  }

  /** An update that stays within the rules: its new key and its changed unique
      entries are free. */
  ghost predicate CanUpdate(s: KV, d: TableDesc, rk: Key, now: Row) {
    && Consistent(s, d) && rk in s && IsRowKey(d, rk) && RowOK(d, now)
    && (RowKey(d, Project(now, d.pkCols)) == rk || RowKey(d, Project(now, d.pkCols)) !in s)
    && forall i :: 0 <= i < |d.indexes| ==> !MoveTaken(s, d, RowAt(s, d, rk), now, i)
  }

  ghost function Updated(s: KV, d: TableDesc, rk: Key, now: Row): KV
    requires CanUpdate(s, d, rk, now)
  {
    Apply(s, UpdateWrites(d, RowAt(s, d, rk), now))
  }

  /** The store after an update, key by key. */
  lemma UpdateAt(s: KV, d: TableDesc, rk: Key, now: Row, k: Key)
    requires CanUpdate(s, d, rk, now)
    ensures var was := RowAt(s, d, rk);
            var i := IdxOf(d, k.index, |d.indexes|);
            Lookup(Updated(s, d, rk, now), k) ==
              if k == RowKey(d, Project(now, d.pkCols)) then Some(EncodeRow(d, now))
              else if k == rk then None
              else if i.Some? && k == EntryKey(d, d.indexes[i.value], now)
              then Some(EntryVal(d, d.indexes[i.value], now))
              else if i.Some? && k == EntryKey(d, d.indexes[i.value], was) then None
              else Lookup(s, k)
  {
    var was := RowAt(s, d, rk);
    assert RowGood(s, d, rk);
    MovesAt(d, was, now, k);
    ApplyAt(s, UpdateWrites(d, was, now), k);
    var i := IdxOf(d, k.index, |d.indexes|);
    if i.Some? && k == EntryKey(d, d.indexes[i.value], now) && !Moved(d, was, now, i.value) {
      assert HasEntry(s, d, i.value, was);
    }
  }

  lemma UpdateRows(s: KV, d: TableDesc, rk: Key, now: Row, k: Key)
    requires CanUpdate(s, d, rk, now) && IsRowKey(d, k)
    ensures var t, nk := Updated(s, d, rk, now), RowKey(d, Project(now, d.pkCols));
            && (k in t <==> k == nk || (k in s && k != rk))
            && (k == nk ==> RowAt(t, d, k) == now)
            && (k in t && k != nk ==> t[k] == s[k])
            && (k in t ==> RowGood(t, d, k))
  {
    UpdateAt(s, d, rk, now, k);
    RowRoundTrip(d, now);
    if k in s {
      assert RowGood(s, d, k);
    }
  }

  /** An update leaves every other row's entries as they were. */
  lemma UpdateKeepsEntry(s: KV, d: TableDesc, rk: Key, now: Row, k: Key, i: nat)
    requires CanUpdate(s, d, rk, now) && k in s && IsRowKey(d, k) && k != rk && i < |d.indexes|
    ensures HasEntry(Updated(s, d, rk, now), d, i, RowAt(s, d, k))
  {
    var was, other := RowAt(s, d, rk), RowAt(s, d, k);
    var ek := EntryKey(d, d.indexes[i], other);
    assert HasEntry(s, d, i, other) && RowGood(s, d, k) && RowGood(s, d, rk);
    assert !MoveTaken(s, d, was, now, i);
    IdxOfIndex(d, i);
    UpdateAt(s, d, rk, now, ek);
    if ek == EntryKey(d, d.indexes[i], was) {
      EntryOwner(s, d, i, k, rk);
    }
    if ek == EntryKey(d, d.indexes[i], now) {
      EntryKeysDiffer(d, d.indexes[i], other, now);
    }
  }

  lemma UpdateExplains(s: KV, d: TableDesc, rk: Key, now: Row, ek: Key)
    requires CanUpdate(s, d, rk, now) && IsEntryKey(d, ek) && ek in Updated(s, d, rk, now)
    ensures Explained(Updated(s, d, rk, now), d, ek)
  {
    var t, nk := Updated(s, d, rk, now), RowKey(d, Project(now, d.pkCols));
    UpdateAt(s, d, rk, now, ek);
    UpdateRows(s, d, rk, now, nk);
    if !DerivedBy(t, d, ek, nk) {
      assert Explained(s, d, ek);
      var k :| DerivedBy(s, d, ek, k);
      UpdateRows(s, d, rk, now, k);
      assert DerivedBy(t, d, ek, k);
    }
  }

  lemma UpdateRowsOf(s: KV, d: TableDesc, rk: Key, now: Row)
    requires CanUpdate(s, d, rk, now)
    ensures RowsOf(Updated(s, d, rk, now), d) == (RowsOf(s, d) - {rk})[RowKey(d, Project(now, d.pkCols)) := now]
  {
    var t, nk := Updated(s, d, rk, now), RowKey(d, Project(now, d.pkCols));
    var a, b := RowsOf(t, d), RowsOf(s, d);
    forall k: Key
      ensures k in a <==> k == nk || (k in b && k != rk)
      ensures k in a ==> a[k] == if k == nk then now else b[k]
    {
      UpdateRowsOfAt(s, d, rk, now, k);
    }
    ReplacedIs(a, b, rk, nk, now);
  }

  lemma ReplacedIs(a: map<Key, Row>, b: map<Key, Row>, rk: Key, nk: Key, now: Row)
    requires forall k: Key :: k in a <==> k == nk || (k in b && k != rk)
    requires forall k: Key :: k in a ==> a[k] == if k == nk then now else b[k]
    ensures a == (b - {rk})[nk := now]
  {
    assert a.Keys == (b - {rk})[nk := now].Keys;
  }

  lemma UpdateRowsOfAt(s: KV, d: TableDesc, rk: Key, now: Row, k: Key)
    requires CanUpdate(s, d, rk, now)
    ensures var t, nk := Updated(s, d, rk, now), RowKey(d, Project(now, d.pkCols));
            && (k in RowsOf(t, d) <==> k == nk || (k in RowsOf(s, d) && k != rk))
            && (k in RowsOf(t, d) ==> RowsOf(t, d)[k] == if k == nk then now else RowsOf(s, d)[k])
  {
    if IsRowKey(d, k) {
      UpdateRows(s, d, rk, now, k);
    }
  }

  lemma UpdateEntry(s: KV, d: TableDesc, rk: Key, now: Row, k: Key, i: nat)
    requires CanUpdate(s, d, rk, now) && IsRowKey(d, k) && i < |d.indexes| && k in Updated(s, d, rk, now)
    ensures HasEntry(Updated(s, d, rk, now), d, i, RowAt(Updated(s, d, rk, now), d, k))
  {
    UpdateRows(s, d, rk, now, k);
    if k == RowKey(d, Project(now, d.pkCols)) {
      IdxOfIndex(d, i);
      UpdateAt(s, d, rk, now, EntryKey(d, d.indexes[i], now));
    } else {
      UpdateKeepsEntry(s, d, rk, now, k, i);
    }
  }

  /** Update, key-moving included, keeps the table consistent and replaces exactly
      its row. */
  lemma UpdatedConsistent(s: KV, d: TableDesc, rk: Key, now: Row)
    requires CanUpdate(s, d, rk, now)
    ensures var t := Updated(s, d, rk, now);
            && Consistent(t, d)
            && RowsOf(t, d) == (RowsOf(s, d) - {rk})[RowKey(d, Project(now, d.pkCols)) := now]
  {
    var t := Updated(s, d, rk, now);
    UpdateRowsOf(s, d, rk, now);
    forall k | k in t && IsRowKey(d, k) ensures RowGood(t, d, k) {
      UpdateRows(s, d, rk, now, k);
    }
    forall k, i: nat | k in t && IsRowKey(d, k) && i < |d.indexes| ensures HasEntry(t, d, i, RowAt(t, d, k)) {
      UpdateEntry(s, d, rk, now, k, i);
    }
    forall k | k in t && IsEntryKey(d, k) ensures Explained(t, d, k) {
      UpdateExplains(s, d, rk, now, k);
    }
  }

  lemma UpdateConsistent(s: KV, d: TableDesc, pk: seq<Value>, sets: map<nat, Value>)
    requires Consistent(s, d) && Update(s, d, pk, sets).Done?
    ensures var o := Update(s, d, pk, sets);
            var rk := KeyOf(d, pk).value;
            && Consistent(Apply(s, o.writes), d)
            && (o.result.Some? <==> rk in s)
            && RowsOf(Apply(s, o.writes), d)
               == if o.result.None? then RowsOf(s, d)
                  else (RowsOf(s, d) - {rk})[RowKey(d, Project(o.result.value, d.pkCols)) := o.result.value]
  {
    var o := Update(s, d, pk, sets);
    var rk := KeyOf(d, pk).value;
    if rk in s {
      assert RowGood(s, d, rk);
      assert CanUpdate(s, d, rk, o.result.value);
      UpdatedConsistent(s, d, rk, o.result.value);
    } else {
      assert Apply(s, map[]) == s;
    }
  }

  // --- other tables, and whole-table operations ---

  lemma {:induction false} EntriesInTable(d: TableDesc, row: Row, n: nat)
    requires n <= |d.indexes|
    ensures forall k :: k in EntryPuts(d, row, n) || k in EntryDels(d, row, n) ==> k.table == d.id
  {
    if n > 0 {
      EntriesInTable(d, row, n - 1);
    }
  }

  lemma MovesInTable(d: TableDesc, was: Row, now: Row)
    requires ValidTable(d)
    ensures forall k :: k in EntryMoves(d, was, now, |d.indexes|) ==> k.table == d.id
  {
    forall k | k in EntryMoves(d, was, now, |d.indexes|) ensures k.table == d.id {
      MovesAt(d, was, now, k);
    }
  }

  /** Operations on one table leave every other table as it was. */
  lemma OtherTablesKept(s: KV, d: TableDesc, w: Writes, other: TableDesc)
    requires other.id != d.id && forall k :: k in w ==> k.table == d.id
    ensures RowsOf(Apply(s, w), other) == RowsOf(s, other)
    ensures Consistent(s, other) ==> Consistent(Apply(s, w), other)
  {
    var t := Apply(s, w);
    assert SameTable(s, t, other.id);
    if Consistent(s, other) {
      hide HasEntry, Explained;
      forall k | k in t && IsRowKey(other, k) ensures RowGood(t, other, k) {
        assert RowGood(s, other, k);
      }
      forall k, i: nat | k in t && IsRowKey(other, k) && i < |other.indexes|
        ensures HasEntry(t, other, i, RowAt(t, other, k))
      {
        EntryStays(s, t, other, k, i);
      }
      forall k | k in t && IsEntryKey(other, k) ensures Explained(t, other, k) {
        ExplainedStays(s, t, other, k);
      }
    }
  }

  ghost predicate SameTable(s: KV, t: KV, id: nat) {
    forall k: Key :: k.table == id ==> (k in t <==> k in s) && (k in t ==> t[k] == s[k])
  }

  lemma EntryStays(s: KV, t: KV, d: TableDesc, k: Key, i: nat)
    requires Consistent(s, d) && SameTable(s, t, d.id) && k in s && IsRowKey(d, k) && i < |d.indexes|
    ensures HasEntry(t, d, i, RowAt(t, d, k))
  {
    assert HasEntry(s, d, i, RowAt(s, d, k));
  }

  lemma ExplainedStays(s: KV, t: KV, d: TableDesc, ek: Key)
    requires Consistent(s, d) && SameTable(s, t, d.id) && ek in s && IsEntryKey(d, ek)
    ensures Explained(t, d, ek)
  {
    assert Explained(s, d, ek);
    var k :| DerivedBy(s, d, ek, k);
    assert DerivedBy(t, d, ek, k);
  }
}
