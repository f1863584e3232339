/** UPDATE under foreign keys (sql/exec.go): rows are materialised first, each is written
    and its own references checked, and old images whose referenced columns changed are
    checked again at the end. */
module FKUpdate {
  import opened Values
  import opened Schema
  import opened ForeignKeys
  import opened Cascade

  predicate ColChanged(a: Value, b: Value) {
    CompareVals(a, b) != Some(0) && !(a == Null && b == Null)
  }

  /** fkRefColsChanged: a column some inbound foreign key references differs. */
  predicate RefColsChanged(d: TableDesc, refs: seq<Ref>, was: Row, now: Row) {
    exists i, j :: 0 <= i < |refs| && 0 <= j < |refs[i].fk.refCols| && NameChanged(d, refs[i].fk.refCols[j], was, now)
  }

  predicate NameChanged(d: TableDesc, name: string, was: Row, now: Row) {
    var ord := ColIndex(d, name, 0);
    ord.Some? && ColChanged(At(was, ord.value), At(now, ord.value))
  }

  lemma SameValue(a: Value, b: Value, t: ColType)
    requires Fits(a, t) && Fits(b, t) && !ColChanged(a, b)
    ensures a == b
  {
    if a.Str? && b.Str? {
      CmpBytesOrder(a.s, b.s, 0);
    } else if a.Blob? && b.Blob? {
      CmpBytesOrder(a.bs, b.bs, 0);
    }
  }

  /** Unchanged columns give an unchanged tuple. */
  lemma {:induction false} SameTuple(d: TableDesc, names: seq<string>, was: Row, now: Row)
    requires RowOK(d, was) && RowOK(d, now) && forall j :: 0 <= j < |names| ==> !NameChanged(d, names[j], was, now)
    ensures RefTuple(d, names, was) == RefTuple(d, names, now)
  {
    if names != [] {
      var ord := ColIndex(d, names[0], 0);
      assert !NameChanged(d, names[0], was, now);
      if ord.Some? {
        SameValue(was[ord.value], now[ord.value], d.columns[ord.value].typ);
      }
      forall j | 0 <= j < |names[1..]| ensures !NameChanged(d, names[1..][j], was, now) {
        assert names[1..][j] == names[j + 1];
      }
      SameTuple(d, names[1..], was, now);
    }
  }

  /** The loops of fkRefColsChanged. */
  method RefColsChangedLoop(d: TableDesc, refs: seq<Ref>, was: Row, now: Row) returns (changed: bool)
    ensures changed == RefColsChanged(d, refs, was, now)
  {
    var i := 0;
    while i < |refs|
      invariant 0 <= i <= |refs|
      invariant forall k, j ::
        0 <= k < i && 0 <= j < |refs[k].fk.refCols| ==> !NameChanged(d, refs[k].fk.refCols[j], was, now)
    {
      var names, j := refs[i].fk.refCols, 0;
      while j < |names|
        invariant 0 <= j <= |names| && forall l :: 0 <= l < j ==> !NameChanged(d, names[l], was, now)
      {
        if NameChanged(d, names[j], was, now) {
          assert NameChanged(d, refs[i].fk.refCols[j], was, now);
          return true;
        }
        j := j + 1;
      }
      i := i + 1;
    }
    changed := false;
  }

  /** An old image on the recheck list had these referenced values. */
  ghost predicate Rechecked(cat: Cat, table: string, recheck: seq<Row>, fk: FKDesc, t: seq<Value>) {
    && fk.refTable == table && table in cat
    && exists i :: 0 <= i < |recheck| && RefTuple(cat[table], fk.refCols, recheck[i]) == Some(t)
  }

  /** Every reference is answered, or is to be looked at again. */
  ghost predicate SoundOrRechecked(cat: Cat, db: DB, table: string, recheck: seq<Row>) {
    forall c, fk :: c in db && HasFK(cat, c.table, fk) && ChildTuple(fk, db[c]).Some? ==>
      Settled(cat, db, table, recheck, fk, ChildTuple(fk, db[c]).value)
  }

  ghost predicate Settled(cat: Cat, db: DB, table: string, recheck: seq<Row>, fk: FKDesc, t: seq<Value>) {
    Answered(cat, db, fk, t) || Rechecked(cat, table, recheck, fk, t)
  }

  /** Replacing one row settles what it answered: its new image answers it too, or its
      old image is on the list. */
  lemma ReplaceSettles(cat: Cat, db: DB, table: string, id: RowId, nid: RowId, now: Row, refs: seq<Ref>,
                       recheck: seq<Row>, more: seq<Row>, fk: FKDesc, t: seq<Value>, child: string)
    requires id in db && id.table == table == nid.table && table in cat && (nid == id || nid !in db)
    requires RowOK(cat[table], db[id]) && RowOK(cat[table], now) && HasFK(cat, child, fk)
    requires forall r :: r in refs <==> IsRef(cat, table, r)
    requires more == if RefColsChanged(cat[table], refs, db[id], now) then recheck + [db[id]] else recheck
    requires Settled(cat, db, table, recheck, fk, t)
    ensures Settled(cat, (db - {id})[nid := now], table, more, fk, t)
  {
    var next := (db - {id})[nid := now];
    if Answered(cat, db, fk, t) {
      var p :| && p in db && p.table == fk.refTable && p.table in cat
               && RefTuple(cat[p.table], fk.refCols, db[p]) == Some(t);
      if p != id {
        assert p in next && next[p] == db[p];
      } else {
        OwnTuple(cat, table, refs, db[id], now, fk, child);
        if RefColsChanged(cat[table], refs, db[id], now) {
          assert more[|recheck|] == db[id];
        } else {
          assert nid in next && next[nid] == now;
        }
      }
    } else {
      var i :| 0 <= i < |recheck| && RefTuple(cat[table], fk.refCols, recheck[i]) == Some(t);
      assert more[i] == recheck[i];
    }
  }

  lemma OwnTuple(cat: Cat, table: string, refs: seq<Ref>, was: Row, now: Row, fk: FKDesc, child: string)
    requires table in cat && RowOK(cat[table], was) && RowOK(cat[table], now) && HasFK(cat, child, fk)
    requires fk.refTable == table
    requires forall r :: r in refs <==> IsRef(cat, table, r)
    ensures !RefColsChanged(cat[table], refs, was, now) ==>
              RefTuple(cat[table], fk.refCols, was) == RefTuple(cat[table], fk.refCols, now)
  {
    assert IsRef(cat, table, Ref(child, fk));
    var i :| 0 <= i < |refs| && refs[i] == Ref(child, fk);
    if !RefColsChanged(cat[table], refs, was, now) {
      SameTuple(cat[table], fk.refCols, was, now);
    }
  }

  lemma ReplaceSound(cat: Cat, db: DB, table: string, id: RowId, nid: RowId, now: Row, refs: seq<Ref>,
                     recheck: seq<Row>, more: seq<Row>)
    requires id in db && id.table == table == nid.table && table in cat && (nid == id || nid !in db)
    requires RowOK(cat[table], db[id]) && RowOK(cat[table], now)
    requires forall r :: r in refs <==> IsRef(cat, table, r)
    requires more == if RefColsChanged(cat[table], refs, db[id], now) then recheck + [db[id]] else recheck
    requires SoundOrRechecked(cat, db, table, recheck) && RowSound(cat, (db - {id})[nid := now], table, now)
    ensures SoundOrRechecked(cat, (db - {id})[nid := now], table, more)
  {
    var next := (db - {id})[nid := now];
    forall c, fk | c in next && HasFK(cat, c.table, fk) && ChildTuple(fk, next[c]).Some?
      ensures Settled(cat, next, table, more, fk, ChildTuple(fk, next[c]).value)
    {
      if c != nid {
        assert c in db && next[c] == db[c];
        ReplaceSettles(cat, db, table, id, nid, now, refs, recheck, more, fk, ChildTuple(fk, db[c]).value, c.table);
      }
    }
  }

  /** A child row still references a changed key. */
  ghost predicate StillReferenced(cat: Cat, db: DB, table: string, recheck: seq<Row>) {
    exists c, fk :: c in db && HasFK(cat, c.table, fk) && ChildTuple(fk, db[c]).Some?
      && Rechecked(cat, table, recheck, fk, ChildTuple(fk, db[c]).value)
  }

  /** fkVerifyReferenced for each image on the list, over every inbound constraint. */
  method VerifyImages(cat: Cat, db: DB, table: string, refs: seq<Ref>, recheck: seq<Row>) returns (ok: bool)
    requires table in cat && forall r :: r in refs <==> IsRef(cat, table, r)
    ensures ok <==> !StillReferenced(cat, db, table, recheck)
  {
    var i := 0;
    while i < |recheck|
      invariant 0 <= i <= |recheck|
      invariant forall k, j, c :: 0 <= k < i && 0 <= j < |refs| ==> !HasImage(cat, db, table, refs[j], recheck[k], c)
    {
      var j := 0;
      while j < |refs|
        invariant 0 <= j <= |refs| && forall l, c :: 0 <= l < j ==> !HasImage(cat, db, table, refs[l], recheck[i], c)
      {
        var hits := set c | c in db && HasImage(cat, db, table, refs[j], recheck[i], c);
        if hits != {} {
          var c :| c in hits;
          assert refs[j] in refs;
          assert Rechecked(cat, table, recheck, refs[j].fk, ChildTuple(refs[j].fk, db[c]).value);
          return false;
        }
        forall c ensures !HasImage(cat, db, table, refs[j], recheck[i], c) {
          assert c !in hits;
        }
        j := j + 1;
      }
      i := i + 1;
    }
    NoneReferenced(cat, db, table, refs, recheck);
    ok := true;
  }

  predicate HasImage(cat: Cat, db: DB, table: string, r: Ref, old_: Row, c: RowId)
    requires table in cat
  {
    && c in db && c.table == r.child && ChildTuple(r.fk, db[c]).Some?
    && RefTuple(cat[table], r.fk.refCols, old_) == ChildTuple(r.fk, db[c])
  }

  lemma NoneReferenced(cat: Cat, db: DB, table: string, refs: seq<Ref>, recheck: seq<Row>)
    requires table in cat && forall r :: r in refs <==> IsRef(cat, table, r)
    requires forall k, j, c ::
      0 <= k < |recheck| && 0 <= j < |refs| ==> !HasImage(cat, db, table, refs[j], recheck[k], c)
    ensures !StillReferenced(cat, db, table, recheck)
  {
    forall c, fk | c in db && HasFK(cat, c.table, fk) && ChildTuple(fk, db[c]).Some?
      ensures !Rechecked(cat, table, recheck, fk, ChildTuple(fk, db[c]).value)
    {
      if fk.refTable == table {
        assert IsRef(cat, table, Ref(c.table, fk));
        var j :| 0 <= j < |refs| && refs[j] == Ref(c.table, fk);
        assert forall k :: 0 <= k < |recheck| ==> !HasImage(cat, db, table, refs[j], recheck[k], c);
      }
    }
  }

  lemma SettledIsSound(cat: Cat, db: DB, table: string, recheck: seq<Row>)
    requires SoundOrRechecked(cat, db, table, recheck) && !StillReferenced(cat, db, table, recheck)
    ensures NoDangling(cat, db)
  {
    forall c | c in db ensures RowSound(cat, db, c.table, db[c]) {
      forall fk | HasFK(cat, c.table, fk) && ChildTuple(fk, db[c]).Some?
        ensures Answered(cat, db, fk, ChildTuple(fk, db[c]).value)
      {
        assert Settled(cat, db, table, recheck, fk, ChildTuple(fk, db[c]).value);
      }
    }
  }

  /** The table's rows are typed. */
  ghost predicate Filed(cat: Cat, db: DB, table: string) {
    table in cat && forall k :: k in db && k.table == table ==> RowOK(cat[table], db[k])
  }

  /** A column that some foreign key on the table references differs. */
  ghost predicate KeyChanged(cat: Cat, table: string, was: Row, now: Row)
    requires table in cat
  {
    exists r, j :: IsRef(cat, table, r) && 0 <= j < |r.fk.refCols| && NameChanged(cat[table], r.fk.refCols[j], was, now)
  }

  lemma ChangedIsKey(cat: Cat, table: string, refs: seq<Ref>, was: Row, now: Row)
    requires table in cat && forall r :: r in refs <==> IsRef(cat, table, r)
    ensures RefColsChanged(cat[table], refs, was, now) <==> KeyChanged(cat, table, was, now)
  {
    if RefColsChanged(cat[table], refs, was, now) {
      var i, j :| && 0 <= i < |refs| && 0 <= j < |refs[i].fk.refCols|
                  && NameChanged(cat[table], refs[i].fk.refCols[j], was, now);
      assert IsRef(cat, table, refs[i]);
    }
    if KeyChanged(cat, table, was, now) {
      var r, j :| IsRef(cat, table, r) && 0 <= j < |r.fk.refCols| && NameChanged(cat[table], r.fk.refCols[j], was, now);
      var i :| 0 <= i < |refs| && refs[i] == r;
      assert NameChanged(cat[table], refs[i].fk.refCols[j], was, now);
    }
  }

  /** A statement: the rows it touches and the image each gets (None for a value that
      does not fit). */
  datatype Change = Change(table: string, rows: seq<RowId>, image: Row -> Option<Row>)

  ghost predicate ValidChange(cat: Cat, db: DB, ch: Change) {
    && ch.table in cat
    && (forall i :: 0 <= i < |ch.rows| ==> ch.rows[i] in db && ch.rows[i].table == ch.table)
    && (forall i, j :: 0 <= i < j < |ch.rows| ==> ch.rows[i] != ch.rows[j])
    && (forall row :: ch.image(row).Some? ==> RowOK(cat[ch.table], ch.image(row).value))
  }

  /** The database with the first i rows replaced by their images. */
  ghost function Written(cat: Cat, db: DB, ch: Change, i: nat): DB
    requires ValidChange(cat, db, ch) && i <= |ch.rows|
  {
    if i == 0 then db
    else
      var w, now := Written(cat, db, ch, i - 1), ch.image(db[ch.rows[i - 1]]);
      if now.None? then w else (w - {ch.rows[i - 1]})[NewId(cat, ch.table, now.value) := now.value]
  }

  /** The old images, among the first i, whose referenced columns changed. */
  ghost function Changed(cat: Cat, db: DB, ch: Change, i: nat): seq<Row>
    requires ValidChange(cat, db, ch) && i <= |ch.rows|
  {
    if i == 0 then []
    else
      var was, now := db[ch.rows[i - 1]], ch.image(db[ch.rows[i - 1]]);
      Changed(cat, db, ch, i - 1) + (if now.Some? && KeyChanged(cat, ch.table, was, now.value) then [was] else [])
  }

  /** Row i's image fits, its key is free, no unique index refuses it, and its own
      references are answered once it is stored. */
  ghost predicate RowFine(cat: Cat, db: DB, ch: Change, refused: Refusal, i: nat)
    requires ValidChange(cat, db, ch) && i < |ch.rows|
  {
    var now := ch.image(db[ch.rows[i]]);
    && now.Some?
    && (NewId(cat, ch.table, now.value) == ch.rows[i] || NewId(cat, ch.table, now.value) !in Written(cat, db, ch, i))
    && !refused(Written(cat, db, ch, i), ch.rows[i], now.value)
    && RowSound(cat, Written(cat, db, ch, i + 1), ch.table, now.value)
  }

  /** execUpdate: it succeeds exactly when every row is fine in its turn and, at the end,
      no row references an old value of a changed key; then exactly the images are
      stored and no reference dangles. `refused` stands for the refusals of the image
      itself, such as UniqueRefusal's. */
  method ExecUpdate(cat: Cat, db: DB, ch: Change, refused: Refusal) returns (r: Option<DB>)
    requires ValidChange(cat, db, ch) && Filed(cat, db, ch.table) && NoDangling(cat, db)
    ensures r.Some? <==>
      && (forall i :: 0 <= i < |ch.rows| ==> RowFine(cat, db, ch, refused, i))
      && !StillReferenced(cat, Written(cat, db, ch, |ch.rows|), ch.table, Changed(cat, db, ch, |ch.rows|))
    ensures r.Some? ==> r.value == Written(cat, db, ch, |ch.rows|) && NoDangling(cat, r.value)
  {
    var refs := ReferencingFKs(cat, ch.table);
    var done := WriteImages(cat, db, ch, refused, refs);
    if done.None? {
      return None;
    }
    var (cur, recheck) := done.value;
    var ok := VerifyImages(cat, cur, ch.table, refs, recheck);
    if !ok {
      return None;
    }
    SettledIsSound(cat, cur, ch.table, recheck);
    r := Some(cur);
  }

  /** The write loop. */
  method WriteImages(cat: Cat, db: DB, ch: Change, refused: Refusal, refs: seq<Ref>)
      returns (r: Option<(DB, seq<Row>)>)
    requires ValidChange(cat, db, ch) && Filed(cat, db, ch.table) && NoDangling(cat, db)
    requires forall r :: r in refs <==> IsRef(cat, ch.table, r)
    ensures r.Some? <==> forall i :: 0 <= i < |ch.rows| ==> RowFine(cat, db, ch, refused, i)
    ensures r.Some? ==> UpdateInv(cat, db, ch, r.value.0, r.value.1, |ch.rows|)
  {
    hide UpdateInv, RowFine, NoDangling, IsRef;
    var cur, recheck: seq<Row>, i := db, [], 0;
    StartInv(cat, db, ch);
    while i < |ch.rows|
      invariant 0 <= i <= |ch.rows| && UpdateInv(cat, db, ch, cur, recheck, i)
      invariant forall j :: 0 <= j < i ==> RowFine(cat, db, ch, refused, j)
    {
      var step := WriteImage(cat, db, ch, refused, refs, cur, recheck, i);
      if step.None? {
        return None;
      }
      cur, recheck, i := step.value.0, step.value.1, i + 1;
    }
    r := Some((cur, recheck));
  }

  /** One row of the loop: written, its own references checked, and its old image put on
      the list when a referenced column changed. */
  method WriteImage(cat: Cat, db: DB, ch: Change, refused: Refusal, refs: seq<Ref>, cur: DB,
                    recheck: seq<Row>, i: nat)
      returns (r: Option<(DB, seq<Row>)>)
    requires ValidChange(cat, db, ch) && i < |ch.rows| && UpdateInv(cat, db, ch, cur, recheck, i)
    requires forall r :: r in refs <==> IsRef(cat, ch.table, r)
    ensures r.Some? <==> RowFine(cat, db, ch, refused, i)
    ensures r.Some? ==> UpdateInv(cat, db, ch, r.value.0, r.value.1, i + 1)
  {
    var was := db[ch.rows[i]];
    var now := ch.image(was);
    if now.None? {
      return None;
    }
    var nid := NewId(cat, ch.table, now.value);
    if (nid != ch.rows[i] && nid in cur) || refused(cur, ch.rows[i], now.value) {
      return None;
    }
    var next := (cur - {ch.rows[i]})[nid := now.value];
    var fine := VerifyRow(cat, next, ch.table, now.value);
    if !fine {
      return None;
    }
    var changed := RefColsChangedLoop(cat[ch.table], refs, was, now.value);
    var more := if changed then recheck + [was] else recheck;
    UpdateStep(cat, db, ch, cur, recheck, i, refs, next, more);
    r := Some((next, more));
  }

  /** What holds after the first i rows: every reference is answered or on the list, and
      the rows still to come are as they were. */
  ghost predicate UpdateInv(cat: Cat, db: DB, ch: Change, cur: DB, recheck: seq<Row>, i: nat)
    requires ValidChange(cat, db, ch) && i <= |ch.rows|
  {
    && cur == Written(cat, db, ch, i) && recheck == Changed(cat, db, ch, i)
    && Filed(cat, cur, ch.table) && SoundOrRechecked(cat, cur, ch.table, recheck)
    && forall j :: i <= j < |ch.rows| ==> ch.rows[j] in cur && cur[ch.rows[j]] == db[ch.rows[j]]
  }

  lemma UpdateStep(cat: Cat, db: DB, ch: Change, cur: DB, recheck: seq<Row>, i: nat, refs: seq<Ref>, next: DB,
                   more: seq<Row>)
    requires ValidChange(cat, db, ch) && i < |ch.rows| && UpdateInv(cat, db, ch, cur, recheck, i)
    requires forall r :: r in refs <==> IsRef(cat, ch.table, r)
    requires var was, now := db[ch.rows[i]], ch.image(db[ch.rows[i]]);
      && now.Some? && var nid := NewId(cat, ch.table, now.value);
      && (nid == ch.rows[i] || nid !in cur) && next == (cur - {ch.rows[i]})[nid := now.value]
      && more == (if RefColsChanged(cat[ch.table], refs, was, now.value) then recheck + [was] else recheck)
      && RowSound(cat, next, ch.table, now.value)
    ensures UpdateInv(cat, db, ch, next, more, i + 1)
  {
    var id, was, now := ch.rows[i], db[ch.rows[i]], ch.image(db[ch.rows[i]]).value;
    ChangedIsKey(cat, ch.table, refs, was, now);
    assert recheck + [] == recheck;
    ReplaceSound(cat, cur, ch.table, id, NewId(cat, ch.table, now), now, refs, recheck, more);
    forall j | i + 1 <= j < |ch.rows| ensures ch.rows[j] in next && next[ch.rows[j]] == db[ch.rows[j]] {
      assert ch.rows[i] != ch.rows[j];
    }
  }

  function NewId(cat: Cat, table: string, row: Row): RowId
    requires table in cat
  {
    RowId(table, Project(row, cat[table].pkCols))
  }

  lemma StartSound(cat: Cat, db: DB, table: string)
    requires NoDangling(cat, db)
    ensures SoundOrRechecked(cat, db, table, [])
  {
    forall c, fk | c in db && HasFK(cat, c.table, fk) && ChildTuple(fk, db[c]).Some?
      ensures Settled(cat, db, table, [], fk, ChildTuple(fk, db[c]).value)
    {
      assert RowSound(cat, db, c.table, db[c]);
    }
  }

  lemma StartInv(cat: Cat, db: DB, ch: Change)
    requires ValidChange(cat, db, ch) && Filed(cat, db, ch.table) && NoDangling(cat, db)
    ensures UpdateInv(cat, db, ch, db, [], 0)
  {
    StartSound(cat, db, ch.table);
  }

  /** An accepted UPDATE, key-moving included, keeps unique rows unique. */
  lemma {:induction false} UpdateUnique(cat: Cat, db: DB, ch: Change, refused: Refusal, i: nat)
    requires ValidChange(cat, db, ch) && UniqueRows(cat, db) && KeepsUnique(cat, refused) && i <= |ch.rows|
    requires forall j :: 0 <= j < i ==> RowFine(cat, db, ch, refused, j)
    ensures UniqueRows(cat, Written(cat, db, ch, i))
  {
    hide UniqueRows, RowSound, TakenByOther;
    if i > 0 {
      UpdateUnique(cat, db, ch, refused, i - 1);
      var id, now := ch.rows[i - 1], ch.image(db[ch.rows[i - 1]]);
      assert RowFine(cat, db, ch, refused, i - 1);
      PutUnique(cat, Written(cat, db, ch, i - 1), id, NewId(cat, ch.table, now.value), now.value);
    }
  }

  // --- the recheck refuses more than it must ---

  /** While every row is fine in its turn, each reference is answered or on the list. */
  lemma {:induction false} FineInv(cat: Cat, db: DB, ch: Change, refused: Refusal, refs: seq<Ref>, i: nat)
    requires ValidChange(cat, db, ch) && Filed(cat, db, ch.table) && NoDangling(cat, db) && i <= |ch.rows|
    requires forall r :: r in refs <==> IsRef(cat, ch.table, r)
    requires forall j :: 0 <= j < i ==> RowFine(cat, db, ch, refused, j)
    ensures UpdateInv(cat, db, ch, Written(cat, db, ch, i), Changed(cat, db, ch, i), i)
  {
    hide UpdateInv, RowSound, NoDangling, IsRef, RefColsChanged, KeyChanged;
    if i == 0 {
      StartInv(cat, db, ch);
    } else {
      FineInv(cat, db, ch, refused, refs, i - 1);
      assert RowFine(cat, db, ch, refused, i - 1);
      ChangedIsKey(cat, ch.table, refs, db[ch.rows[i - 1]], ch.image(db[ch.rows[i - 1]]).value);
      assert Changed(cat, db, ch, i - 1) + [] == Changed(cat, db, ch, i - 1);
      UpdateStep(cat, db, ch, Written(cat, db, ch, i - 1), Changed(cat, db, ch, i - 1), i - 1, refs,
                 Written(cat, db, ch, i), Changed(cat, db, ch, i));
    }
  }

  /** An old key that child c still holds is answered by some row now. */
  ghost predicate StillAnswered(cat: Cat, db: DB, table: string, recheck: seq<Row>, c: RowId, fk: FKDesc) {
    (&& c in db && HasFK(cat, c.table, fk) && ChildTuple(fk, db[c]).Some?
     && Rechecked(cat, table, recheck, fk, ChildTuple(fk, db[c]).value))
    ==> Answered(cat, db, fk, ChildTuple(fk, db[c]).value)
  }

  /** Exactly the statements refused without need: every row is fine, some child still
      holds an old key, and every old key still held is answered at the end. */
  lemma OverRefused(cat: Cat, db: DB, ch: Change, refused: Refusal, refs: seq<Ref>)
    requires ValidChange(cat, db, ch) && Filed(cat, db, ch.table) && NoDangling(cat, db)
    requires forall r :: r in refs <==> IsRef(cat, ch.table, r)
    requires forall i :: 0 <= i < |ch.rows| ==> RowFine(cat, db, ch, refused, i)
    ensures var end, recheck := Written(cat, db, ch, |ch.rows|), Changed(cat, db, ch, |ch.rows|);
            NoDangling(cat, end) <==> forall c, fk :: StillAnswered(cat, end, ch.table, recheck, c, fk)
  {
    hide StillAnswered, NoDangling, SoundOrRechecked, RowFine;
    var end, recheck := Written(cat, db, ch, |ch.rows|), Changed(cat, db, ch, |ch.rows|);
    FineInv(cat, db, ch, refused, refs, |ch.rows|);
    assert SoundOrRechecked(cat, end, ch.table, recheck);
    AnsweredAtEnd(cat, end, ch.table, recheck);
  }

  lemma AnsweredAtEnd(cat: Cat, end: DB, table: string, recheck: seq<Row>)
    requires SoundOrRechecked(cat, end, table, recheck)
    ensures NoDangling(cat, end) <==> forall c, fk :: StillAnswered(cat, end, table, recheck, c, fk)
  {
    if NoDangling(cat, end) {
      forall c, fk ensures StillAnswered(cat, end, table, recheck, c, fk) {
        assert c in end ==> RowSound(cat, end, c.table, end[c]);
      }
    }
    if forall c, fk :: StillAnswered(cat, end, table, recheck, c, fk) {
      forall c | c in end ensures RowSound(cat, end, c.table, end[c]) {
        forall fk | HasFK(cat, c.table, fk) && ChildTuple(fk, end[c]).Some?
          ensures Answered(cat, end, fk, ChildTuple(fk, end[c]).value)
        {
          assert Settled(cat, end, table, recheck, fk, ChildTuple(fk, end[c]).value);
          assert StillAnswered(cat, end, table, recheck, c, fk);
        }
      }
    }
  }

  const PARENTS := TableDesc(1, "p", [Column(1, "id", TInt, true, false)], [0], [], [], 2)
  const LINK := FKDesc("f", [1], "p", ["id"], false)
  const CHILDREN := TableDesc(2, "c", [Column(1, "id", TInt, true, false), Column(2, "pid", TInt, false, false)],
                              [0], [], [LINK], 3)
  const SHOP: Cat := map["p" := PARENTS, "c" := CHILDREN]

  /** Parents 1 and 2 with a child of 1. */
  const BEFORE: DB := map[
    RowId("p", [Int(1)]) := [Int(1)], RowId("p", [Int(2)]) := [Int(2)],
    RowId("c", [Int(7)]) := [Int(7), Int(1)]]

  /** The same after UPDATE p SET id = id - 1: the child's key is parent 2's now. */
  const SHUFFLED: DB := map[
    RowId("p", [Int(0)]) := [Int(0)], RowId("p", [Int(1)]) := [Int(1)],
    RowId("c", [Int(7)]) := [Int(7), Int(1)]]

  const MINUS_ONE: Row -> Option<Row> :=
    (row: Row) => if |row| == 1 && row[0].Int? then Some([Int(row[0].i - 1)]) else None

  const SHUFFLE := Change("p", [RowId("p", [Int(1)]), RowId("p", [Int(2)])], MINUS_ONE)

  lemma ParentTuple(row: Row)
    requires |row| == 1 && row[0].Int?
    ensures RefTuple(PARENTS, LINK.refCols, row) == Some(row)
  {
    assert ColIndex(PARENTS, "id", 0) == Some(0);
    var names := ["id"];
    assert names[0] == "id" && names[1..] == [] && RefTuple(PARENTS, names[1..], row) == Some([]);
    assert row == [row[0]] && [row[0]] + [] == [row[0]] && At(row, 0) == row[0];
    assert RefTuple(PARENTS, names, row) == Some([row[0]]);
    assert LINK.refCols == names;
  }

  lemma OneKey(db: DB, c: RowId)
    requires c in db && db[c] == [Int(7), Int(1)] && c.table == "c"
    requires RowId("p", [Int(1)]) in db && db[RowId("p", [Int(1)])] == [Int(1)]
    ensures ChildTuple(LINK, db[c]) == Some([Int(1)]) && RowSound(SHOP, db, "c", db[c])
  {
    assert Project(db[c], LINK.cols) == [Int(1)];
    ParentTuple([Int(1)]);
    var p := RowId("p", [Int(1)]);
    assert p in db && Answered(SHOP, db, LINK, [Int(1)]);
    assert forall fk :: fk in CHILDREN.foreignKeys ==> fk == LINK;
  }

  lemma ShuffleValid()
    ensures ValidChange(SHOP, BEFORE, SHUFFLE) && Filed(SHOP, BEFORE, "p")
  {
    assert SHUFFLE.rows[0] != SHUFFLE.rows[1];
  }

  lemma MinusOneAt(n: int)
    ensures MINUS_ONE([Int(n)]) == Some([Int(n - 1)]) && NewId(SHOP, "p", [Int(n)]) == RowId("p", [Int(n)])
  {
    assert Project([Int(n)], PARENTS.pkCols) == [Int(n)];
  }

  lemma KeyMoves(n: int)
    ensures KeyChanged(SHOP, "p", [Int(n)], [Int(n - 1)])
  {
    assert ColIndex(PARENTS, "id", 0) == Some(0);
    var r := Ref("c", LINK);
    assert LINK in CHILDREN.foreignKeys && IsRef(SHOP, "p", r);
    assert NameChanged(PARENTS, r.fk.refCols[0], [Int(n)], [Int(n - 1)]);
  }

  /** The statement's writes reach the shuffled database. */
  lemma ShuffleWrites()
    requires ValidChange(SHOP, BEFORE, SHUFFLE)
    ensures Written(SHOP, BEFORE, SHUFFLE, 1) == (BEFORE - {RowId("p", [Int(1)])})[RowId("p", [Int(0)]) := [Int(0)]]
    ensures Written(SHOP, BEFORE, SHUFFLE, 2) == SHUFFLED
  {
    MinusOneAt(0);
    MinusOneAt(1);
    MinusOneAt(2);
    var w1 := Written(SHOP, BEFORE, SHUFFLE, 1);
    assert Written(SHOP, BEFORE, SHUFFLE, 0) == BEFORE;
    assert w1 == (BEFORE - {RowId("p", [Int(1)])})[RowId("p", [Int(0)]) := [Int(0)]];
    assert Written(SHOP, BEFORE, SHUFFLE, 2) == (w1 - {RowId("p", [Int(2)])})[RowId("p", [Int(1)]) := [Int(1)]];
  }

  /** Both old keys are on the list. */
  lemma ShuffleChanges()
    requires ValidChange(SHOP, BEFORE, SHUFFLE)
    ensures Changed(SHOP, BEFORE, SHUFFLE, 2) == [[Int(1)], [Int(2)]]
  {
    hide KeyChanged;
    MinusOneAt(1);
    MinusOneAt(2);
    KeyMoves(1);
    KeyMoves(2);
    assert Changed(SHOP, BEFORE, SHUFFLE, 0) == [];
    assert Changed(SHOP, BEFORE, SHUFFLE, 1) == [[Int(1)]];
    assert Changed(SHOP, BEFORE, SHUFFLE, 2) == [[Int(1)]] + [[Int(2)]];
  }

  lemma ShuffleFine()
    requires ValidChange(SHOP, BEFORE, SHUFFLE)
    ensures RowFine(SHOP, BEFORE, SHUFFLE, UniqueRefusal(SHOP), 0)
    ensures RowFine(SHOP, BEFORE, SHUFFLE, UniqueRefusal(SHOP), 1)
  {
    ShuffleWrites();
    MinusOneAt(0);
    MinusOneAt(1);
    MinusOneAt(2);
    assert Written(SHOP, BEFORE, SHUFFLE, 0) == BEFORE;
    assert PARENTS.foreignKeys == [];
  }

  /** A key shuffle that leaves no reference dangling is still refused: the child's key
      is answered by another row now, and the recheck of the old image finds the child. */
  lemma ShuffleRefused()
    ensures ValidChange(SHOP, BEFORE, SHUFFLE) && Filed(SHOP, BEFORE, "p") && NoDangling(SHOP, BEFORE)
    ensures RowFine(SHOP, BEFORE, SHUFFLE, UniqueRefusal(SHOP), 0)
    ensures RowFine(SHOP, BEFORE, SHUFFLE, UniqueRefusal(SHOP), 1)
    ensures NoDangling(SHOP, Written(SHOP, BEFORE, SHUFFLE, 2))
    ensures StillReferenced(SHOP, Written(SHOP, BEFORE, SHUFFLE, 2), "p", Changed(SHOP, BEFORE, SHUFFLE, 2))
  {
    ShuffleValid();
    ShuffleWrites();
    ShuffleFine();
    ShuffleChanges();
    ShopSound(BEFORE);
    ShopSound(SHUFFLED);
    var images: seq<Row> := [[Int(1)], [Int(2)]];
    ParentTuple(images[0]);
    assert Rechecked(SHOP, "p", images, LINK, [Int(1)]);
    assert LINK in CHILDREN.foreignKeys && HasFK(SHOP, "c", LINK);
  }

  lemma ShopSound(db: DB)
    requires db == BEFORE || db == SHUFFLED
    ensures NoDangling(SHOP, db) && ChildTuple(LINK, db[RowId("c", [Int(7)])]) == Some([Int(1)])
  {
    hide ChildTuple, Answered;
    OneKey(db, RowId("c", [Int(7)]));
    assert PARENTS.foreignKeys == [];
    forall c | c in db && c.table == "p" ensures RowSound(SHOP, db, c.table, db[c]) {
    }
  }

  // --- ADD FOREIGN KEY ---

  /** validateExistingRefs: the parent's keys are collected, then every child row is
      looked up among them. */
  method ValidateExistingRefs(cat: Cat, db: DB, child: string, fk: FKDesc) returns (ok: bool)
    requires fk.refTable in cat
    ensures ok <==> forall c ::
      c in db && c.table == child && ChildTuple(fk, db[c]).Some? ==> Answered(cat, db, fk, ChildTuple(fk, db[c]).value)
  {
    var keys: set<seq<Value>>, todo := {}, db.Keys;
    while todo != {}
      invariant todo <= db.Keys
      invariant forall t :: t in keys <==> exists p ::
        p in db.Keys - todo && p.table == fk.refTable && RefTuple(cat[p.table], fk.refCols, db[p]) == Some(t)
      decreases |todo|
    {
      var p :| p in todo;
      if p.table == fk.refTable {
        var t := RefTupleLoop(cat[p.table], fk.refCols, db[p]);
        if t.Some? {
          keys := keys + {t.value};
        }
      }
      todo := todo - {p};
    }
    forall t ensures t in keys <==> Answered(cat, db, fk, t) {
    }
    todo := db.Keys;
    while todo != {}
      invariant todo <= db.Keys
      invariant forall c ::
        c in db.Keys - todo && c.table == child && ChildTuple(fk, db[c]).Some? ==>
          Answered(cat, db, fk, ChildTuple(fk, db[c]).value)
      decreases |todo|
    {
      var c :| c in todo;
      if c.table == child && ChildTuple(fk, db[c]).Some? && ChildTuple(fk, db[c]).value !in keys {
        return false;
      }
      todo := todo - {c};
    }
    ok := true;
  }

  function WithFK(cat: Cat, child: string, fk: FKDesc): Cat
    requires child in cat
  {
    cat[child := cat[child].(foreignKeys := cat[child].foreignKeys + [fk])]
  }

  /** A validated constraint joins a database with nothing dangling. */
  lemma AddFKSound(cat: Cat, db: DB, child: string, fk: FKDesc)
    requires child in cat && NoDangling(cat, db)
    requires forall c ::
      c in db && c.table == child && ChildTuple(fk, db[c]).Some? ==> Answered(cat, db, fk, ChildTuple(fk, db[c]).value)
    ensures NoDangling(WithFK(cat, child, fk), db)
  {
    var now := WithFK(cat, child, fk);
    forall c | c in db ensures RowSound(now, db, c.table, db[c]) {
      assert RowSound(cat, db, c.table, db[c]);
      forall k | HasFK(now, c.table, k) && ChildTuple(k, db[c]).Some?
        ensures Answered(now, db, k, ChildTuple(k, db[c]).value)
      {
        assert HasFK(cat, c.table, k) || (c.table == child && k == fk);
        AnsweredSame(cat, child, fk, db, k, ChildTuple(k, db[c]).value);
      }
    }
  }

  lemma {:induction false} RefTupleSame(d: TableDesc, e: TableDesc, names: seq<string>, row: Row)
    requires e.columns == d.columns
    ensures RefTuple(d, names, row) == RefTuple(e, names, row)
  {
    if names != [] {
      ColIndexSame(d, e, names[0], 0);
      RefTupleSame(d, e, names[1..], row);
    }
  }

  lemma {:induction false} ColIndexSame(d: TableDesc, e: TableDesc, name: string, i: nat)
    requires e.columns == d.columns && i <= |d.columns|
    ensures ColIndex(d, name, i) == ColIndex(e, name, i)
    decreases |d.columns| - i
  {
    if i < |d.columns| {
      ColIndexSame(d, e, name, i + 1);
    }
  }

  lemma AnsweredSame(cat: Cat, child: string, fk: FKDesc, db: DB, k: FKDesc, t: seq<Value>)
    requires child in cat && Answered(cat, db, k, t)
    ensures Answered(WithFK(cat, child, fk), db, k, t)
  {
    var now := WithFK(cat, child, fk);
    var p :| p in db && p.table == k.refTable && p.table in cat && RefTuple(cat[p.table], k.refCols, db[p]) == Some(t);
    RefTupleSame(cat[p.table], now[p.table], k.refCols, db[p]);
  }
}
