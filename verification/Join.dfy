/** Left-deep join chains (sql/join.go): each step scans its table once per outer
    row, narrowed by the conjuncts that mention it, or probes a hash table built
    once. The ON and WHERE trees are still evaluated in full on every candidate. */
module Join {
  import opened Values
  import opened Schema
  import opened Condition
  import opened Planner
  import opened Scan
  import opened Seqs

  datatype JoinKind = Inner | Left

  /** One FROM item: its table, how it joins, and its ON condition (over the combined
      row of the tables so far). Virtual tables have rows but no access paths. */
  datatype FromItem<C> = FromItem(desc: TableDesc, join: JoinKind, on: BoolExpr<C>, virtual: bool)

  /** "this table's column l op the outer row's value at src". */
  datatype Template = Template(l: nat, op: Op, src: nat)

  datatype HashKey = HashKey(inner: nat, src: nat)

  datatype Step<C> = Step(item: FromItem<C>, off: nat, statics: seq<Pred>, tmpls: seq<Template>, hashEq: seq<HashKey>)

  datatype FromPlan<C> = FromPlan(steps: seq<Step<C>>, where: BoolExpr<C>)

  /** A table's rows, and their listing in each access path's key order. */
  datatype Source = Source(rows: seq<Row>, paths: map<Path, seq<Row>>)

  ghost predicate ValidSource(d: TableDesc, virtual: bool, src: Source) {
    && ValidDesc(d)
    && (forall i :: 0 <= i < |src.rows| ==> RowOK(d, src.rows[i]))
    && (!virtual ==> forall path :: PathOf(d, path) ==>
          path in src.paths && Listed(d, path, src.paths[path]) && multiset(src.paths[path]) == multiset(src.rows))
  }

  function Width<C>(items: seq<FromItem<C>>): nat {
    if items == [] then 0 else Width(items[..|items| - 1]) + |items[|items| - 1].desc.columns|
  }

  function Nulls(n: nat): (r: Row)
    ensures |r| == n && forall i :: 0 <= i < n ==> r[i] == Null
  {
    seq(n, i => Null)
  }

  // --- the meaning of a FROM clause ---

  /** The rows whose ON is definitely true for a partial row. */
  function OnHits<C>(rows: seq<Row>, on: BoolExpr<C>, partial: Row, cond: CondFn<C>): seq<Row> {
    Filter(rows, r => IsTrue(on, partial + r, cond))
  }

  /** The rows of the table that join with a partial row: those whose ON is definitely
      true, or the NULL row when a LEFT JOIN has none. */
  function Extend<C>(it: FromItem<C>, src: Source, partial: Row, cond: CondFn<C>): seq<Row> {
    var hits := OnHits(src.rows, it.on, partial, cond);
    if hits == [] && it.join == Left then [partial + Nulls(|it.desc.columns|)]
    else Flat(hits, r => [partial + r])
  }

  function JoinNext<C>(it: FromItem<C>, src: Source, rows: seq<Row>, cond: CondFn<C>): seq<Row> {
    Flat(rows, p => Extend(it, src, p, cond))
  }

  /** The joined relation of the first k items. */
  function Joined<C>(items: seq<FromItem<C>>, data: seq<Source>, k: nat, cond: CondFn<C>): seq<Row>
    requires k <= |items| == |data|
  {
    if k == 0 then [[]]
    else JoinNext(items[k - 1], data[k - 1], Joined(items, data, k - 1, cond), cond)
  }

  /** The declarative result: join everything, then keep rows whose WHERE is true. */
  function Meaning<C>(items: seq<FromItem<C>>, data: seq<Source>, where: BoolExpr<C>, cond: CondFn<C>): seq<Row>
    requires |items| == |data|
  {
    Filter(Joined(items, data, |items|, cond), r => IsTrue(where, r, cond))
  }

  // --- preparation ---

  predicate Compares(op: Op) {
    op != IsNull && op != IsNotNull
  }

  predicate InTable(ord: nat, off: nat, width: nat) {
    off <= ord < off + width
  }

  /** A conjunct that mentions only this table, with table-local ordinals. */
  function StaticOf(p: Pred, off: nat, width: nat): Option<Pred> {
    if InTable(p.l, off, width) && p.rhs.Lit? then Some(Pred(p.l - off, p.op, p.rhs))
    else if InTable(p.l, off, width) && InTable(p.rhs.ord, off, width)
    then Some(Pred(p.l - off, p.op, Col(p.rhs.ord - off)))
    else None
  }

  /** A conjunct between this table and an earlier one, oriented this table first. */
  function TemplateOf(p: Pred, off: nat, width: nat): Option<Template> {
    if p.rhs.Lit? || !Compares(p.op) then None
    else if InTable(p.l, off, width) && p.rhs.ord < off then Some(Template(p.l - off, p.op, p.rhs.ord))
    else if InTable(p.rhs.ord, off, width) && p.l < off then Some(Template(p.rhs.ord - off, Flip(p.op), p.l))
    else None
  }

  function Statics(ps: seq<Pred>, off: nat, width: nat): seq<Pred> {
    if ps == [] then []
    else (var s := StaticOf(ps[0], off, width); if s.Some? then [s.value] else []) + Statics(ps[1..], off, width)
  }

  function Templates(ps: seq<Pred>, off: nat, width: nat): seq<Template> {
    if ps == [] then []
    else (var t := TemplateOf(ps[0], off, width); if t.Some? then [t.value] else []) + Templates(ps[1..], off, width)
  }

  function Avail<C>(it: FromItem<C>, where: BoolExpr<C>): seq<Pred> {
    Conjuncts(it.on) + (if it.join == Left then [] else Conjuncts(where))
  }

  /** Does some access path start with the column? */
  predicate IndexServes(d: TableDesc, ord: nat) {
    || (d.pkCols != [] && d.pkCols[0] == ord)
    || exists i :: 0 <= i < |d.indexes| && d.indexes[i].cols != [] && d.indexes[i].cols[0] == ord
  }

  predicate Numeric(t: ColType) {
    t == TInt || t == TFloat
  }

  predicate HashCompatible(a: ColType, b: ColType) {
    a == b || (Numeric(a) && Numeric(b))
  }

  function ColTypeAt<C>(items: seq<FromItem<C>>, ord: nat): Option<ColType>
    decreases |items|
  {
    if items == [] then None
    else
      var last := |items| - 1;
      var off := Width(items[..last]);
      if ord >= off then
        (if ord - off < |items[last].desc.columns| then Some(items[last].desc.columns[ord - off].typ) else None)
      else ColTypeAt(items[..last], ord)
  }

  /** The hash keys of a step, or none when a nested loop serves it better or the
      sides do not hash alike. */
  function ChooseHash<C>(items: seq<FromItem<C>>, it: FromItem<C>, tmpls: seq<Template>, i: nat,
                         keys: seq<HashKey>): seq<HashKey>
    requires i <= |tmpls|
    decreases |tmpls| - i
  {
    if i == |tmpls| then keys
    else
      var tp := tmpls[i];
      if tp.op != EQ then ChooseHash(items, it, tmpls, i + 1, keys)
      else if tp.l >= |it.desc.columns| || ColTypeAt(items, tp.src).None?
           || !HashCompatible(it.desc.columns[tp.l].typ, ColTypeAt(items, tp.src).value) then []
      else if !it.virtual && IndexServes(it.desc, tp.l) then []
      else ChooseHash(items, it, tmpls, i + 1, keys + [HashKey(tp.l, tp.src)])
  }

  function PrepareStep<C>(items: seq<FromItem<C>>, where: BoolExpr<C>, k: nat): Step<C>
    requires k < |items|
  {
    var it := items[k];
    var off := Width(items[..k]);
    var tmpls := Templates(Avail(it, where), off, |it.desc.columns|);
    Step(it, off, Statics(Avail(it, where), off, |it.desc.columns|), tmpls,
         if k == 0 then [] else ChooseHash(items, it, tmpls, 0, []))
  }

  function Prepare<C>(items: seq<FromItem<C>>, where: BoolExpr<C>): FromPlan<C> {
    FromPlan(seq(|items|, k requires 0 <= k < |items| => PrepareStep(items, where, k)), where)
  }

  // --- candidates of one step ---

  function BindTemplates(tmpls: seq<Template>, vals: seq<Value>): seq<Pred>
    requires |vals| == |tmpls|
  {
    seq(|tmpls|, i requires 0 <= i < |tmpls| => Pred(tmpls[i].l, tmpls[i].op, Lit(vals[i])))
  }

  function Sources(tmpls: seq<Template>, partial: Row): (vs: seq<Value>)
    ensures |vs| == |tmpls|
  {
    seq(|tmpls|, i requires 0 <= i < |tmpls| => At(partial, tmpls[i].src))
  }

  function Leaves<C>(ps: seq<Pred>): seq<BoolExpr<C>> {
    seq(|ps|, i requires 0 <= i < |ps| => Leaf(ps[i]))
  }

  /** One condition for a list of predicates: none, the predicate itself, or an AND. */
  function Combine<C>(ps: seq<Pred>): BoolExpr<C> {
    if |ps| == 0 then Always else if |ps| == 1 then Leaf(ps[0]) else And(Leaves(ps))
  }

  /** The predicates pushed into a step's scan, for template values. */
  function PushPreds<C>(step: Step<C>, vals: seq<Value>): seq<Pred>
    requires |vals| == |step.tmpls|
  {
    step.statics + BindTemplates(step.tmpls, vals)
  }

  function PushExpr<C>(step: Step<C>, vals: seq<Value>): BoolExpr<C>
    requires |vals| == |step.tmpls|
  {
    Combine(PushPreds(step, vals))
  }

  type Normaliser = Value -> Value

  /** Equal values hash alike. */
  ghost predicate Respects(norm: Normaliser) {
    forall a, b :: CompareVals(a, b) == Some(0) ==> norm(a) == norm(b)
  }

  /** The key of a row's hash columns, or None when one is NULL. */
  function HashKeyOf(vals: Row, ords: seq<nat>, norm: Normaliser): Option<seq<Value>> {
    if exists i :: 0 <= i < |ords| && At(vals, ords[i]) == Null then None
    else Some(seq(|ords|, i requires 0 <= i < |ords| => norm(At(vals, ords[i]))))
  }

  function Bucket(rows: seq<Row>, ords: seq<nat>, norm: Normaliser, key: seq<Value>): seq<Row> {
    Filter(rows, r => HashKeyOf(r, ords, norm) == Some(key))
  }

  function InnerOrds(keys: seq<HashKey>): (s: seq<nat>)
    ensures |s| == |keys|
  {
    seq(|keys|, i requires 0 <= i < |keys| => keys[i].inner)
  }

  function SrcOrds(keys: seq<HashKey>): (s: seq<nat>)
    ensures |s| == |keys|
  {
    seq(|keys|, i requires 0 <= i < |keys| => keys[i].src)
  }

  /** The rows a hash build reads: all of a virtual table's, else the static matches. */
  function BuildRows<C>(step: Step<C>, src: Source, cond: CondFn<C>): seq<Row> {
    if step.item.virtual then src.rows
    else
      var p := PlanOf(step.item.desc, Combine<C>(step.statics), []);
      if p.path in src.paths then ScanRows(step.item.desc, src.paths[p.path], p, cond) else []
  }

  predicate SkipStep<C>(step: Step<C>, partial: Row) {
    Null in Sources(step.tmpls, partial)
  }

  /** The candidate rows a step offers for an outer row. */
  function Candidates<C>(step: Step<C>, src: Source, partial: Row, norm: Normaliser, cond: CondFn<C>): seq<Row> {
    if step.hashEq != [] then
      var probe := HashKeyOf(partial, SrcOrds(step.hashEq), norm);
      if probe.None? then []
      else Bucket(BuildRows(step, src, cond), InnerOrds(step.hashEq), norm, probe.value)
    else if SkipStep(step, partial) then []
    else if step.item.virtual then src.rows
    else
      var p := PlanOf(step.item.desc, PushExpr(step, Sources(step.tmpls, partial)), []);
      if p.path in src.paths then ScanRows(step.item.desc, src.paths[p.path], p, cond) else []
  }

  /** The candidate rows of each step for each outer row. */
  type CandFn = (nat, Row) -> seq<Row>

  function CandsOf<C>(fp: FromPlan<C>, data: seq<Source>, norm: Normaliser, cond: CondFn<C>): CandFn
    requires |fp.steps| == |data|
  {
    (k: nat, partial: Row) => if k < |fp.steps| then Candidates(fp.steps[k], data[k], partial, norm, cond) else []
  }

  /** What the executor emits from step k on for an outer row, given each step's
      candidates. */
  function Emit<C>(items: seq<FromItem<C>>, where: BoolExpr<C>, cands: CandFn, k: nat, partial: Row,
                   cond: CondFn<C>): seq<Row>
    requires k <= |items|
    decreases |items| - k
  {
    if k == |items| then (if IsTrue(where, partial, cond) then [partial] else [])
    else
      var hits := OnHits(cands(k, partial), items[k].on, partial, cond);
      if hits == [] && items[k].join == Left
      then Emit(items, where, cands, k + 1, partial + Nulls(|items[k].desc.columns|), cond)
      else Flat(hits, r => Emit(items, where, cands, k + 1, partial + r, cond))
  }

  /** What the prepared executor emits for a whole FROM clause. */
  function EmitAll<C>(items: seq<FromItem<C>>, fp: FromPlan<C>, data: seq<Source>, norm: Normaliser,
                      cond: CondFn<C>): seq<Row>
    requires |fp.steps| == |data|
  {
    Emit(items, fp.where, CandsOf(fp, data, norm, cond), 0, [], cond)
  }
}
