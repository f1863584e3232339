/** The parent side of DELETE (fkAfterDelete): cascades run from a worklist through any
    foreign-key graph, cycles and self-references included, and the remaining
    constraints are checked once nothing is left to delete. */
module Cascade {
  import opened Values
  import opened Schema
  import opened ForeignKeys

  /** An inbound foreign key: the child table and the constraint. */
  datatype Ref = Ref(child: string, fk: FKDesc)

  /** One worklist entry: rows of a table that the statement removed. */
  datatype Deleted = Deleted(table: string, rows: set<RowId>)

  ghost predicate IsRef(cat: Cat, table: string, r: Ref) {
    HasFK(cat, r.child, r.fk) && r.fk.refTable == table
  }

  /** referencingFKs: every foreign key of any table that points at one. */
  method ReferencingFKs(cat: Cat, table: string) returns (refs: seq<Ref>)
    ensures forall r :: r in refs <==> IsRef(cat, table, r)
  {
    refs := [];
    var todo := cat.Keys;
    while todo != {}
      invariant todo <= cat.Keys
      invariant forall r :: r in refs <==> IsRef(cat, table, r) && r.child !in todo
      decreases |todo|
    {
      var name :| name in todo;
      var fks, i := cat[name].foreignKeys, 0;
      while i < |fks|
        invariant 0 <= i <= |fks|
        invariant forall r :: r in refs <==>
          || (IsRef(cat, table, r) && r.child !in todo)
          || (r.child == name && r.fk in fks[..i] && r.fk.refTable == table)
      {
        assert fks[..i + 1] == fks[..i] + [fks[i]];
        if fks[i].refTable == table {
          refs := refs + [Ref(name, fks[i])];
        }
        i := i + 1;
      }
      assert fks[..i] == fks;
      todo := todo - {name};
    }
  }

  /** A set of rows closed under cascading references. */
  ghost predicate Closed(cat: Cat, db: DB, s: set<RowId>) {
    forall p, fk: FKDesc, c :: p in s && fk.cascade && Refers(cat, db, c, fk, p) ==> c in s
  }

  /** The rows of the child table, among those still there, whose foreign-key values are
      t: what fkDeleteMatching deletes. */
  function Matching(cat: Cat, db: DB, live: set<RowId>, r: Ref, t: seq<Value>): set<RowId>
    requires live <= db.Keys
  {
    set c | c in live && c.table == r.child && ChildTuple(r.fk, db[c]) == Some(t)
  }

  /** The children of one removed row through one constraint. */
  function ChildrenOf(cat: Cat, db: DB, live: set<RowId>, r: Ref, p: RowId): set<RowId>
    requires live <= db.Keys && p in db && p.table in cat
  {
    var t := RefTuple(cat[p.table], r.fk.refCols, db[p]);
    if t.None? then {} else Matching(cat, db, live, r, t.value)
  }

  lemma ChildrenRefer(cat: Cat, db: DB, live: set<RowId>, r: Ref, p: RowId, c: RowId)
    requires live <= db.Keys && p in db && p.table in cat && IsRef(cat, p.table, r)
    ensures c in ChildrenOf(cat, db, live, r, p) <==> c in live && c.table == r.child && Refers(cat, db, c, r.fk, p)
  {
  }

  /** What the worklist has established: rows removed are in every closed set around the
      statement's own, and each one's children are removed, or it is still pending. */
  ghost predicate WorkInv(cat: Cat, db: DB, init: set<RowId>, live: set<RowId>, pending: seq<Deleted>,
                          done: seq<Deleted>)
  {
    && live <= db.Keys && init <= db.Keys - live
    && (forall s: set<RowId> :: init <= s && Closed(cat, db, s) ==> db.Keys - live <= s)
    && (forall i :: 0 <= i < |pending| ==> EntryOK(db, live, pending[i]))
    && (forall i :: 0 <= i < |done| ==> EntryOK(db, live, done[i]))
    && (forall p :: p in db.Keys - live ==> In(pending, p) || In(done, p))
    && (forall p :: In(done, p) ==> Emptied(cat, db, live, p))
  }

  predicate EntryOK(db: DB, live: set<RowId>, e: Deleted) {
    forall p :: p in e.rows ==> p in db && p !in live && p.table == e.table
  }

  ghost predicate In(es: seq<Deleted>, p: RowId) {
    exists i :: 0 <= i < |es| && p in es[i].rows
  }

  /** No row still there references p through a cascading constraint. */
  ghost predicate Emptied(cat: Cat, db: DB, live: set<RowId>, p: RowId) {
    forall fk: FKDesc, c :: fk.cascade && Refers(cat, db, c, fk, p) ==> c !in live
  }

  /** The rows, among those given, that reference an entry's rows through one
      constraint. */
  ghost function Kids(cat: Cat, db: DB, live: set<RowId>, r: Ref, cur: Deleted): set<RowId> {
    set c | c in live && c.table == r.child && exists p :: p in cur.rows && Refers(cat, db, c, r.fk, p)
  }

  /** Removes the children of one entry's rows through one constraint. */
  method CascadeRef(cat: Cat, db: DB, live: set<RowId>, r: Ref, cur: Deleted) returns (removed: set<RowId>)
    requires live <= db.Keys && EntryOK(db, live, cur) && cur.table in cat && IsRef(cat, cur.table, r)
    ensures removed == Kids(cat, db, live, r, cur)
  {
    removed := {};
    var todo := cur.rows;
    while todo != {}
      invariant todo <= cur.rows
      invariant forall c :: c in removed <==>
        && c in live && c.table == r.child
        && exists p :: p in cur.rows - todo && Refers(cat, db, c, r.fk, p)
      decreases |todo|
    {
      var p :| p in todo;
      forall c
        ensures c in ChildrenOf(cat, db, live - removed, r, p) <==>
          c in live - removed && c.table == r.child && Refers(cat, db, c, r.fk, p)
      {
        ChildrenRefer(cat, db, live - removed, r, p, c);
      }
      removed := removed + ChildrenOf(cat, db, live - removed, r, p);
      todo := todo - {p};
    }
    assert cur.rows - todo == cur.rows;
  }

  /** The children through each constraint; none through those that do not cascade. */
  ghost function AllKids(cat: Cat, db: DB, live: set<RowId>, refs: seq<Ref>, cur: Deleted): (ks: seq<set<RowId>>)
    ensures |ks| == |refs|
    ensures forall j ::
      0 <= j < |refs| ==> ks[j] == if refs[j].fk.cascade then Kids(cat, db, live, refs[j], cur) else {}
  {
    if refs == [] then []
    else
      var last := refs[|refs| - 1];
      AllKids(cat, db, live, refs[..|refs| - 1], cur) + [if last.fk.cascade then Kids(cat, db, live, last, cur) else {}]
  }

  /** What is left of a set after taking the first i of some others away. */
  ghost predicate LeftOf(live: set<RowId>, ks: seq<set<RowId>>, i: nat, left: set<RowId>)
    requires i <= |ks|
  {
    forall c :: c in left <==> c in live && forall j :: 0 <= j < i ==> c !in ks[j]
  }

  lemma LeftNext(live: set<RowId>, ks: seq<set<RowId>>, i: nat, left: set<RowId>)
    requires i < |ks| && LeftOf(live, ks, i, left)
    ensures LeftOf(live, ks, i + 1, left - ks[i])
  {
  }

  /** A queue that holds exactly the rows taken away. */
  ghost predicate Queued(db: DB, live: set<RowId>, left: set<RowId>, queued: seq<Deleted>) {
    && left <= live && (queued != [] ==> left < live)
    && (forall i :: 0 <= i < |queued| ==> EntryOK(db, left, queued[i]))
    && (forall p :: p in live - left <==> In(queued, p))
  }

  lemma QueuedMore(db: DB, live: set<RowId>, left: set<RowId>, queued: seq<Deleted>, e: Deleted)
    requires Queued(db, live, left, queued) && e.rows != {} && e.rows <= left && left <= db.Keys
    requires forall p :: p in e.rows ==> p.table == e.table
    ensures Queued(db, live, left - e.rows, queued + [e])
  {
    QueueMore(queued, e);
    var x :| x in e.rows;
    assert x in live && x !in left - e.rows;
  }

  lemma KidsWithin(cat: Cat, db: DB, live: set<RowId>, left: set<RowId>, r: Ref, cur: Deleted)
    requires left <= live
    ensures left - Kids(cat, db, left, r, cur) == left - Kids(cat, db, live, r, cur)
  {
  }

  /** Removes the children of one entry through every cascading constraint, queueing
      those of each child table. */
  method CascadeEntry(cat: Cat, db: DB, live: set<RowId>, cur: Deleted, refs: seq<Ref>)
      returns (left: set<RowId>, queued: seq<Deleted>)
    requires live <= db.Keys && EntryOK(db, live, cur) && cur.table in cat
    requires forall r :: r in refs ==> IsRef(cat, cur.table, r)
    ensures LeftOf(live, AllKids(cat, db, live, refs, cur), |refs|, left) && Queued(db, live, left, queued)
  {
    left, queued := live, [];
    ghost var ks := AllKids(cat, db, live, refs, cur);
    var i := 0;
    while i < |refs|
      invariant 0 <= i <= |refs| && LeftOf(live, ks, i, left) && Queued(db, live, left, queued)
    {
      assert refs[i] in refs;
      LeftNext(live, ks, i, left);
      if refs[i].fk.cascade {
        var removed := CascadeRef(cat, db, left, refs[i], cur);
        KidsWithin(cat, db, live, left, refs[i], cur);
        if removed != {} {
          QueuedMore(db, live, left, queued, Deleted(refs[i].child, removed));
          left, queued := left - removed, queued + [Deleted(refs[i].child, removed)];
        } else {
          assert left - removed == left;
        }
      } else {
        assert left - ks[i] == left;
      }
      i := i + 1;
    }
  }

  /** Taking all children away empties an entry, and takes only children. */
  lemma EntryEmptied(cat: Cat, db: DB, live: set<RowId>, cur: Deleted, refs: seq<Ref>, left: set<RowId>)
    requires live <= db.Keys && EntryOK(db, live, cur) && cur.table in cat
    requires forall r :: r in refs <==> IsRef(cat, cur.table, r)
    requires LeftOf(live, AllKids(cat, db, live, refs, cur), |refs|, left)
    ensures forall c ::
      c in live - left ==> exists p, fk: FKDesc :: p in cur.rows && fk.cascade && Refers(cat, db, c, fk, p)
    ensures forall p :: p in cur.rows ==> Emptied(cat, db, left, p)
  {
    var ks := AllKids(cat, db, live, refs, cur);
    forall c | c in live - left
      ensures exists p, fk: FKDesc :: p in cur.rows && fk.cascade && Refers(cat, db, c, fk, p)
    {
      var j :| 0 <= j < |refs| && c in ks[j];
      assert refs[j].fk.cascade;
    }
    forall p, fk: FKDesc, c | p in cur.rows && fk.cascade && Refers(cat, db, c, fk, p) ensures c !in left {
      assert IsRef(cat, cur.table, Ref(c.table, fk));
      var j :| 0 <= j < |refs| && refs[j] == Ref(c.table, fk);
      if c in live {
        assert c in ks[j];
      }
    }
  }

  lemma QueueMore(es: seq<Deleted>, e: Deleted)
    ensures forall p :: In(es + [e], p) <==> In(es, p) || p in e.rows
  {
    forall p ensures In(es + [e], p) <==> In(es, p) || p in e.rows {
      if In(es, p) {
        var i :| 0 <= i < |es| && p in es[i].rows;
        assert (es + [e])[i] == es[i];
      }
      if p in e.rows {
        assert (es + [e])[|es|] == e;
      }
    }
  }

  // --- the worklist ---

  lemma StartInv(cat: Cat, db: DB, table: string, init: set<RowId>)
    requires init <= db.Keys && forall p :: p in init ==> p.table == table
    ensures WorkInv(cat, db, init, db.Keys - init, [Deleted(table, init)], [])
  {
    var pending := [Deleted(table, init)];
    forall p | p in init ensures In(pending, p) {
      assert p in pending[0].rows;
    }
  }

  /** One round of the worklist. */
  lemma RoundInv(cat: Cat, db: DB, init: set<RowId>, live: set<RowId>, pending: seq<Deleted>, done: seq<Deleted>,
                 left: set<RowId>, queued: seq<Deleted>)
    requires pending != [] && WorkInv(cat, db, init, live, pending, done) && left <= live
    requires forall i :: 0 <= i < |queued| ==> EntryOK(db, left, queued[i])
    requires forall p :: p in live - left <==> In(queued, p)
    requires forall c ::
      c in live - left ==> exists p, fk: FKDesc :: p in pending[0].rows && fk.cascade && Refers(cat, db, c, fk, p)
    requires forall p :: p in pending[0].rows ==> Emptied(cat, db, left, p)
    ensures WorkInv(cat, db, init, left, pending[1..] + queued, done + [pending[0]])
  {
    RoundLeast(cat, db, init, live, pending, done, left);
    RoundLists(pending, done, queued);
    forall p | In(done + [pending[0]], p) ensures Emptied(cat, db, left, p) {
      if In(done, p) {
        assert Emptied(cat, db, live, p);
      }
    }
  }

  lemma RoundLeast(cat: Cat, db: DB, init: set<RowId>, live: set<RowId>, pending: seq<Deleted>, done: seq<Deleted>,
                   left: set<RowId>)
    requires pending != [] && WorkInv(cat, db, init, live, pending, done) && left <= live
    requires forall c ::
      c in live - left ==> exists p, fk: FKDesc :: p in pending[0].rows && fk.cascade && Refers(cat, db, c, fk, p)
    ensures forall s: set<RowId> :: init <= s && Closed(cat, db, s) ==> db.Keys - left <= s
  {
    forall s: set<RowId> | init <= s && Closed(cat, db, s) ensures db.Keys - left <= s {
      assert EntryOK(db, live, pending[0]);
      forall c | c in db.Keys - left ensures c in s {
        if c in live {
          assert c in live - left;
          var p, fk: FKDesc :| p in pending[0].rows && fk.cascade && Refers(cat, db, c, fk, p);
          assert p in s;
        }
      }
    }
  }

  lemma RoundLists(pending: seq<Deleted>, done: seq<Deleted>, queued: seq<Deleted>)
    requires pending != []
    ensures forall p ::
      In(pending[1..] + queued, p) || In(done + [pending[0]], p) <==> In(pending, p) || In(done, p) || In(queued, p)
    ensures forall p :: In(done + [pending[0]], p) <==> In(done, p) || p in pending[0].rows
  {
    QueueMore(done, pending[0]);
    forall p ensures In(pending[1..] + queued, p) <==> In(pending[1..], p) || In(queued, p) {
      InConcat(pending[1..], queued, p);
    }
    forall p ensures In(pending, p) <==> p in pending[0].rows || In(pending[1..], p) {
      assert pending == [pending[0]] + pending[1..];
      InConcat([pending[0]], pending[1..], p);
      assert In([pending[0]], p) <==> p in pending[0].rows;
    }
  }

  lemma InConcat(a: seq<Deleted>, b: seq<Deleted>, p: RowId)
    ensures In(a + b, p) <==> In(a, p) || In(b, p)
  {
    if In(a, p) {
      var i :| 0 <= i < |a| && p in a[i].rows;
      assert (a + b)[i] == a[i];
    }
    if In(b, p) {
      var i :| 0 <= i < |b| && p in b[i].rows;
      assert (a + b)[|a| + i] == b[i];
    }
    if In(a + b, p) {
      var i :| 0 <= i < |a + b| && p in (a + b)[i].rows;
      assert i < |a| ==> p in a[i].rows;
      assert i >= |a| ==> p in b[i - |a|].rows;
    }
  }

  ghost predicate TablesIn(cat: Cat, db: DB) {
    forall p :: p in db ==> p.table in cat
  }

  /** The worklist loop: it ends on every foreign-key graph, with the least set closed
      under cascading references removed. */
  method RunCascades(cat: Cat, db: DB, table: string, init: set<RowId>) returns (live: set<RowId>, done: seq<Deleted>)
    requires TablesIn(cat, db) && init <= db.Keys && forall p :: p in init ==> p.table == table
    ensures WorkInv(cat, db, init, live, [], done)
  {
    live, done := db.Keys - init, [];
    var pending := [Deleted(table, init)];
    StartInv(cat, db, table, init);
    while pending != []
      invariant WorkInv(cat, db, init, live, pending, done)
      decreases |live|, |pending|
    {
      var cur := pending[0];
      assert EntryOK(db, live, cur);
      ghost var was := live;
      var left, queued := live, [];
      if cur.rows != {} {
        assert cur.table in cat by {
          var p :| p in cur.rows;
        }
        var refs := ReferencingFKs(cat, cur.table);
        left, queued := CascadeEntry(cat, db, live, cur, refs);
        EntryEmptied(cat, db, live, cur, refs, left);
      }
      RoundInv(cat, db, init, live, pending, done, left, queued);
      Shrinks(live, left, queued);
      live, pending, done := left, pending[1..] + queued, done + [cur];
    }
  }

  lemma Shrinks(live: set<RowId>, left: set<RowId>, queued: seq<Deleted>)
    requires left <= live && (queued != [] ==> left < live)
    ensures |left| <= |live| && (queued != [] ==> |left| < |live|)
  {
    assert left + (live - left) == live;
    if queued != [] {
      var x :| x in live && x !in left;
      assert x in live - left;
    }
  }

  // --- the end of the statement ---

  ghost predicate LeastClosed(cat: Cat, db: DB, init: set<RowId>, gone: set<RowId>) {
    init <= gone && Closed(cat, db, gone) && forall s: set<RowId> :: init <= s && Closed(cat, db, s) ==> gone <= s
  }

  /** A row still there that references a removed one. */
  ghost predicate Orphan(cat: Cat, db: DB, live: set<RowId>, p: RowId) {
    exists c, fk: FKDesc :: c in live && !fk.cascade && Refers(cat, db, c, fk, p)
  }

  /** fkVerifyReferenced over the constraints that do not cascade. */
  method VerifyReferenced(cat: Cat, db: DB, live: set<RowId>, refs: seq<Ref>, p: RowId) returns (ok: bool)
    requires live <= db.Keys && p in db && p.table in cat && forall r :: r in refs <==> IsRef(cat, p.table, r)
    ensures ok <==> !Orphan(cat, db, live, p)
  {
    var i := 0;
    while i < |refs|
      invariant 0 <= i <= |refs|
      invariant forall j :: 0 <= j < i && !refs[j].fk.cascade ==> ChildrenOf(cat, db, live, refs[j], p) == {}
    {
      assert refs[i] in refs;
      if !refs[i].fk.cascade && ChildrenOf(cat, db, live, refs[i], p) != {} {
        var c :| c in ChildrenOf(cat, db, live, refs[i], p);
        ChildrenRefer(cat, db, live, refs[i], p, c);
        return false;
      }
      i := i + 1;
    }
    forall c, fk: FKDesc | c in live && !fk.cascade && Refers(cat, db, c, fk, p) ensures false {
      assert IsRef(cat, p.table, Ref(c.table, fk));
      var j :| 0 <= j < |refs| && refs[j] == Ref(c.table, fk);
      ChildrenRefer(cat, db, live, refs[j], p, c);
    }
    ok := true;
  }

  /** The verification loops over everything removed. */
  method VerifyAll(cat: Cat, db: DB, live: set<RowId>, done: seq<Deleted>) returns (ok: bool)
    requires TablesIn(cat, db) && live <= db.Keys && forall i :: 0 <= i < |done| ==> EntryOK(db, live, done[i])
    ensures ok <==> forall p :: In(done, p) ==> !Orphan(cat, db, live, p)
  {
    var i := 0;
    while i < |done|
      invariant 0 <= i <= |done|
      invariant forall j, p :: 0 <= j < i && p in done[j].rows ==> !Orphan(cat, db, live, p)
    {
      assert EntryOK(db, live, done[i]);
      var todo := done[i].rows;
      var refs := ReferencingFKs(cat, done[i].table);
      while todo != {}
        invariant todo <= done[i].rows && forall p :: p in done[i].rows - todo ==> !Orphan(cat, db, live, p)
        decreases |todo|
      {
        var p :| p in todo;
        var fine := VerifyReferenced(cat, db, live, refs, p);
        if !fine {
          assert In(done, p);
          return false;
        }
        todo := todo - {p};
      }
      assert done[i].rows - todo == done[i].rows;
      i := i + 1;
    }
    ok := true;
  }

  function Keep(db: DB, live: set<RowId>): DB {
    map k | k in db && k in live :: db[k]
  }

  /** With everything cascading removed and no orphan left, no reference dangles. */
  lemma RemovalSound(cat: Cat, db: DB, live: set<RowId>)
    requires NoDangling(cat, db) && live <= db.Keys && Closed(cat, db, db.Keys - live)
    requires forall p :: p in db.Keys - live ==> !Orphan(cat, db, live, p)
    ensures NoDangling(cat, Keep(db, live))
  {
    var now := Keep(db, live);
    forall c | c in now ensures RowSound(cat, now, c.table, now[c]) {
      assert RowSound(cat, db, c.table, db[c]);
      forall fk | HasFK(cat, c.table, fk) && ChildTuple(fk, db[c]).Some?
        ensures Answered(cat, now, fk, ChildTuple(fk, db[c]).value)
      {
        var t := ChildTuple(fk, db[c]).value;
        assert Answered(cat, db, fk, t);
        var p :| && p in db && p.table == fk.refTable && p.table in cat
                 && RefTuple(cat[p.table], fk.refCols, db[p]) == Some(t);
        assert Refers(cat, db, c, fk, p);
        assert !fk.cascade ==> Orphan(cat, db, live, p);
        assert fk.cascade && p in db.Keys - live ==> c in db.Keys - live;
        assert p in live;
        assert p in now && now[p] == db[p];
      }
    }
  }

  /** execDelete and fkAfterDelete: on success exactly the least set of rows closed under
      cascading references goes, and no reference dangles; it is refused exactly when a
      row left behind references one that went. */
  method ExecDelete(cat: Cat, db: DB, table: string, matches: RowId -> bool) returns (ok: bool, after: DB)
    requires TablesIn(cat, db) && NoDangling(cat, db)
    ensures var init := set k | k in db && k.table == table && matches(k);
            exists gone: set<RowId> :: LeastClosed(cat, db, init, gone) && gone <= db.Keys
              && (ok <==> forall p :: p in gone ==> !Orphan(cat, db, db.Keys - gone, p))
              && (ok ==> after == Keep(db, db.Keys - gone) && NoDangling(cat, after))
    ensures !ok ==> after == db
  {
    var init := set k | k in db && k.table == table && matches(k);
    var live, done := RunCascades(cat, db, table, init);
    ok := VerifyAll(cat, db, live, done);
    ghost var gone := db.Keys - live;
    assert db.Keys - gone == live;
    DoneIsGone(cat, db, init, live, done);
    if ok {
      RemovalSound(cat, db, live);
      after := Keep(db, live);
    } else {
      after := db;
    }
    assert LeastClosed(cat, db, init, gone);
  }

  lemma DoneIsGone(cat: Cat, db: DB, init: set<RowId>, live: set<RowId>, done: seq<Deleted>)
    requires WorkInv(cat, db, init, live, [], done)
    ensures forall p :: In(done, p) <==> p in db.Keys - live
    ensures LeastClosed(cat, db, init, db.Keys - live)
  {
    forall p | In(done, p) ensures p in db.Keys - live {
      var i :| 0 <= i < |done| && p in done[i].rows;
      assert EntryOK(db, live, done[i]);
    }
    forall p | p in db.Keys - live ensures In(done, p) {
      assert !In([], p);
    }
    forall p, fk: FKDesc, c | p in db.Keys - live && fk.cascade && Refers(cat, db, c, fk, p)
      ensures c in db.Keys - live
    {
      assert Emptied(cat, db, live, p);
    }
  }
}
