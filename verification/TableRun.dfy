/** Every run of row operations, TRUNCATE, index changes and rebuilds on one table keeps
    its indexes exact. */
module TableRun {
  import opened Values
  import opened Schema
  import opened Store
  import opened Table
  import opened TableProof
  import opened TableScan
  import opened TableDDL
  import opened Rebuild

  datatype State = State(s: KV, d: TableDesc)

  datatype Op =
    | InsertRow(vals: seq<Value>)
    | UpdateRow(pk: seq<Value>, sets: map<nat, Value>)
    | DeleteRow(pk: seq<Value>)
    | TruncateTable
    | AddIndex(name: string, unique: bool, cols: seq<IndexCol>)
    | RemoveIndex(name: string)
    | RebuildAs(next: TableDesc, rewrite: Rewrite)

  /** A row operation's writes; one that fails stages nothing. */
  function Staged<T>(a: State, o: Outcome<T>): State {
    if o.Done? then State(Apply(a.s, o.writes), a.d) else a
  }

  /** What an operation makes of a table. Refusals leave it as it was. */
  ghost predicate StepBy(a: State, op: Op, b: State) {
    match op
    case InsertRow(vals) => b == Staged(a, Insert(a.s, a.d, vals))
    case UpdateRow(pk, sets) => b == Staged(a, Update(a.s, a.d, pk, sets))
    case DeleteRow(pk) => b == Staged(a, Delete(a.s, a.d, pk))
    case TruncateTable => b == State(Truncate(a.s, a.d), a.d)
    case AddIndex(name, unique, cols) =>
      if BadIndex(a.d, name, cols) then b == a
      else exists idx :: Declared(a.d, idx, name, unique, cols) && IndexStep(a, idx, b)
    case RemoveIndex(name) =>
      if exists n :: HasIndex(a.d, n, name) then exists n :: HasIndex(a.d, n, name) && b == Unindexed(a, n)
      else b == a
    case RebuildAs(next, rewrite) =>
      if ValidRewrite(a.d, next, rewrite) && NamesDiffer(next) && Rebuilds(a.s, a.d, next, rewrite)
      then b == State(Rebuilt(a.s, a.d, next, rewrite), next)
      else b == a
  }

  /** The backfill of a declared index: refused when two rows clash. */
  ghost predicate IndexStep(a: State, idx: IndexDesc, b: State) {
    if exists x, y :: Clash(a.s, a.d, idx, x, y) then b == a else Indexed(a.s, a.d, idx, b.s, b.d)
  }

  predicate HasIndex(d: TableDesc, n: nat, name: string) {
    n < |d.indexes| && d.indexes[n].name == name
  }

  ghost function Unindexed(a: State, n: nat): State
    requires n < |a.d.indexes|
  {
    State(DropEntries(a.s, a.d, a.d.indexes[n]), WithoutIndex(a.d, a.d.indexes[n].name))
  }

  /** Rows and entries agree, and index names are distinct. */
  ghost predicate Exact(a: State) {
    Consistent(a.s, a.d) && NamesDiffer(a.d)
  }

  lemma RowStepKeeps(a: State, op: Op, b: State)
    requires Exact(a) && StepBy(a, op, b) && (op.InsertRow? || op.UpdateRow? || op.DeleteRow? || op.TruncateTable?)
    ensures Exact(b)
  {
    match op
    case InsertRow(vals) =>
      if Insert(a.s, a.d, vals).Done? { InsertConsistent(a.s, a.d, vals); }
    case UpdateRow(pk, sets) =>
      if Update(a.s, a.d, pk, sets).Done? { UpdateConsistent(a.s, a.d, pk, sets); }
    case DeleteRow(pk) =>
      if Delete(a.s, a.d, pk).Done? { DeleteConsistent(a.s, a.d, pk); }
    case TruncateTable => TruncateConsistent(a.s, a.d, Key(0, 0, []));
  }

  lemma AddIndexKeeps(a: State, op: Op, b: State)
    requires Exact(a) && StepBy(a, op, b) && op.AddIndex?
    ensures Exact(b)
  {
    if !BadIndex(a.d, op.name, op.cols) {
      var idx :| Declared(a.d, idx, op.name, op.unique, op.cols) && IndexStep(a, idx, b);
      if b != a {
        IndexComplete(a.s, a.d, idx, b.s);
        NewNameDiffers(a.d, idx);
      }
    }
  }

  lemma NewNameDiffers(d: TableDesc, idx: IndexDesc)
    requires NamesDiffer(d) && forall i :: 0 <= i < |d.indexes| ==> d.indexes[i].name != idx.name
    ensures NamesDiffer(WithIndex(d, idx))
  {
  }

  lemma RemoveIndexKeeps(a: State, op: Op, b: State)
    requires Exact(a) && StepBy(a, op, b) && op.RemoveIndex?
    ensures Exact(b)
  {
    if n :| HasIndex(a.d, n, op.name) && b == Unindexed(a, n) {
      UnindexedExact(a, n);
    }
  }

  lemma UnindexedExact(a: State, n: nat)
    requires Exact(a) && n < |a.d.indexes|
    ensures Exact(Unindexed(a, n))
  {
    DropIndexConsistent(a.s, a.d, n);
    OthersDiffer(a.d.indexes, a.d.indexes[n].name);
  }

  /** Removing a name keeps the other names distinct. */
  lemma {:induction false} OthersDiffer(ix: seq<IndexDesc>, name: string)
    requires DistinctNames(ix)
    ensures DistinctNames(Others(ix, name))
  {
    if ix != [] {
      OthersDiffer(ix[1..], name);
      forall x | x in Others(ix[1..], name) ensures x.name != ix[0].name {
        var j :| 0 <= j < |ix[1..]| && ix[1..][j] == x;
        assert ix[j + 1] == x;
      }
      ConsDiffers(ix[0], Others(ix[1..], name));
      assert [] + Others(ix[1..], name) == Others(ix[1..], name);
    }
  }

  lemma ConsDiffers(x: IndexDesc, rest: seq<IndexDesc>)
    requires DistinctNames(rest) && forall y :: y in rest ==> y.name != x.name
    ensures DistinctNames([x] + rest)
  {
    assert forall i :: 0 <= i < |rest| ==> rest[i] in rest;
  }

  /** Every operation keeps the table exact. */
  lemma StepKeeps(a: State, op: Op, b: State)
    requires Exact(a) && StepBy(a, op, b)
    ensures Exact(b)
  {
    match op
    case AddIndex(_, _, _) => AddIndexKeeps(a, op, b);
    case RemoveIndex(_) => RemoveIndexKeeps(a, op, b);
    case RebuildAs(next, rewrite) =>
      if ValidRewrite(a.d, next, rewrite) && NamesDiffer(next) && Rebuilds(a.s, a.d, next, rewrite) {
        RebuiltHolds(a.s, a.d, next, rewrite);
      }
    case _ => RowStepKeeps(a, op, b);
  }

  /** The states a list of operations passes through. */
  ghost predicate IsRun(ops: seq<Op>, c: seq<State>) {
    |c| == |ops| + 1 && forall i :: 0 <= i < |ops| ==> StepAt(ops, c, i)
  }

  ghost predicate StepAt(ops: seq<Op>, c: seq<State>, i: nat)
    requires i < |ops| && i + 1 < |c|
  {
    StepBy(c[i], ops[i], c[i + 1])
  }

  /** At every point of every run, the indexes hold exactly the entries the rows derive. */
  lemma {:induction false} RunConsistent(ops: seq<Op>, c: seq<State>, i: nat)
    requires IsRun(ops, c) && i < |c| && Exact(c[0])
    ensures Exact(c[i])
  {
    if i > 0 {
      RunConsistent(ops, c, i - 1);
      assert StepAt(ops, c, i - 1);
      StepKeeps(c[i - 1], ops[i - 1], c[i]);
    }
  }

  /** So whichever index a scan takes, it lists exactly the table's rows, in that index's
      directed order with primary-key ties. */
  lemma AnyIndexServes(ops: seq<Op>, c: seq<State>, i: nat, path: Path)
    requires IsRun(ops, c) && i < |c| && Exact(c[0]) && PathOf(c[i].d, path)
    ensures Exact(c[i]) && Listed(c[i].d, path, Listing(c[i].s, c[i].d, path))
    ensures multiset(Listing(c[i].s, c[i].d, path)) == multiset(Listing(c[i].s, c[i].d, Primary))
  {
    RunConsistent(ops, c, i);
    ListingListed(c[i].s, c[i].d, path);
    ListingsAgree(c[i].s, c[i].d, path);
  }
}
