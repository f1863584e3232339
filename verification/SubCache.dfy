/** Evaluating a subquery through the statement's cache (sql/corrsub.go,
    sql/subcache.go): the comparisons with an enclosing row become templates bound
    for each outer row, and a subquery that looks at nothing outside is run once. */
module SubCache {
  import opened Values
  import opened Schema
  import opened Condition
  import opened Seqs
  import opened Join
  import opened JoinProof
  import opened SubExpr

  /** Where the subquery stands: EXISTS (...), the right side of ANY or ALL, a scalar,
      or a scalar count(*). */
  datatype Use = AsExists | AsColumn | AsScalar | AsCount

  datatype Item = Star | ItemEx(x: Expr)

  datatype NFrom = NFrom(name: string, desc: TableDesc, join: JoinKind, on: NCond, virtual: bool)

  /** A subquery node. `grouped` stands for UNION, GROUP BY or HAVING, `with` for common
      table expressions, `draws` for calls that advance a sequence. */
  datatype Select = Select(id: nat, use: Use, items: seq<Item>, from: seq<NFrom>, where: NCond,
                           orderBy: seq<Item>, grouped: bool, with: bool, draws: bool)

  function ScopeOf(from: seq<NFrom>): (sc: Scope)
    ensures |sc| == |from|
  {
    seq(|from|, k requires 0 <= k < |from| => ScopeTable(from[k].name, from[k].desc))
  }

  /** The FROM clause with each ON lowered in the scope of the tables so far. */
  function FromOf(sel: Select): (items: seq<FromItem<Expr>>)
    ensures |items| == |sel.from|
  {
    seq(|sel.from|, k requires 0 <= k < |sel.from| =>
      FromItem(sel.from[k].desc, sel.from[k].join, Decorrelate(sel.from[k].on, ScopeOf(sel.from)[..k + 1]),
               sel.from[k].virtual))
  }

  function WhereOf(sel: Select): BoolExpr<Expr> {
    Decorrelate(sel.where, ScopeOf(sel.from))
  }

  function CondOf(sel: Select, env: Env, ip: Interp): CondFn<Expr> {
    CondIn(ScopeOf(sel.from), env, ip)
  }

  lemma {:induction false} WidthIsColumns(sel: Select, k: nat)
    requires k <= |sel.from|
    ensures Width(FromOf(sel)[..k]) == Columns(ScopeOf(sel.from)[..k])
  {
    if k > 0 {
      WidthIsColumns(sel, k - 1);
      assert FromOf(sel)[..k][..k - 1] == FromOf(sel)[..k - 1];
      assert ScopeOf(sel.from)[..k][..k - 1] == ScopeOf(sel.from)[..k - 1];
    }
  }

  /** What a subquery's tables hold in the statement's snapshot. */
  ghost predicate ValidData(sel: Select, data: seq<Source>) {
    |data| == |sel.from| && forall k :: 0 <= k < |data| ==> ValidSource(sel.from[k].desc, sel.from[k].virtual, data[k])
  }

  /** The declared rows of the subquery for an outer row. */
  function SubMeaning(sel: Select, data: seq<Source>, env: Env, ip: Interp): seq<Row>
    requires |data| == |sel.from|
  {
    Meaning(FromOf(sel), data, WhereOf(sel), CondOf(sel, env, ip))
  }

  /** What preparing afresh, without templates, and running yields for an outer row. */
  function FreshRows(sel: Select, data: seq<Source>, norm: Normaliser, env: Env, ip: Interp): seq<Row>
    requires |data| == |sel.from|
  {
    EmitAll(FromOf(sel), Prepare(FromOf(sel), WhereOf(sel)), data, norm, CondOf(sel, env, ip))
  }

  lemma FreshMeans(sel: Select, data: seq<Source>, norm: Normaliser, env: Env, ip: Interp)
    requires ValidData(sel, data) && Respects(norm)
    ensures multiset(FreshRows(sel, data, norm, env, ip)) == multiset(SubMeaning(sel, data, env, ip))
  {
    PreparedJoinMeans(FromOf(sel), data, WhereOf(sel), norm, CondOf(sel, env, ip));
  }

  // --- templates ---

  /** A conjunct "own column op outer reference", own column first. */
  datatype Spec = Spec(item: ColRef, op: Op, ref: ColRef)

  /** The template it becomes on the step of its own column's table. */
  datatype Tmpl = Tmpl(step: nat, l: nat, op: Op, ref: ColRef)

  predicate Pushable(op: Op) {
    op == EQ || op == LT || op == LE || op == GT || op == GE
  }

  predicate ResolvesOutward(c: ColRef, env: Env) {
    exists i :: 0 <= i < |env| && Resolve(env[i].sc, c).Some?
  }

  function CorrTemplate(p: NPred, sc: Scope, env: Env): Option<Spec> {
    if !Pushable(p.op) || p.rhs.NLit? then None
    else if Resolve(sc, p.l).Some? && Resolve(sc, p.rhs.c).None? && ResolvesOutward(p.rhs.c, env)
    then Some(Spec(p.l, p.op, p.rhs.c))
    else if Resolve(sc, p.rhs.c).Some? && Resolve(sc, p.l).None? && ResolvesOutward(p.l, env)
    then Some(Spec(p.rhs.c, Flip(p.op), p.l))
    else None
  }

  /** The templates of a WHERE: from its top-level conjuncts only. */
  function Collect(e: NCond, sc: Scope, env: Env): seq<Spec>
    decreases e
  {
    match e
    case NLeaf(p) =>
      var t := CorrTemplate(p, sc, env);
      if t.Some? then [t.value] else []
    case NAnd(es) => CollectAll(es, sc, env)
    case _ => []
  }

  function CollectAll(es: seq<NCond>, sc: Scope, env: Env): seq<Spec>
    decreases es
  {
    if es == [] then [] else Collect(es[0], sc, env) + CollectAll(es[1..], sc, env)
  }

  /** The last of the first n tables that starts at or before an ordinal. */
  function TableOf(sc: Scope, ord: nat, n: nat): (k: nat)
    requires n <= |sc|
    ensures n > 0 ==> k < n
  {
    if n <= 1 || ord >= Columns(sc[..n - 1]) then (if n == 0 then 0 else n - 1) else TableOf(sc, ord, n - 1)
  }

  /** NULL-extended and virtual tables take no templates. */
  function Attach(sel: Select, spec: Spec): Option<Tmpl> {
    var sc := ScopeOf(sel.from);
    var ord := Resolve(sc, spec.item);
    if ord.None? then None
    else
      var k := TableOf(sc, ord.value, |sc|);
      if k >= |sel.from| || sel.from[k].join == Left || sel.from[k].virtual || ord.value < Columns(sc[..k]) then None
      else Some(Tmpl(k, ord.value - Columns(sc[..k]), spec.op, spec.ref))
  }

  function AttachAll(sel: Select, specs: seq<Spec>): seq<Tmpl> {
    if specs == [] then []
    else (var t := Attach(sel, specs[0]); if t.Some? then [t.value] else []) + AttachAll(sel, specs[1..])
  }

  /** The templates prepared under an environment. */
  function TmplsOf(sel: Select, env: Env): seq<Tmpl> {
    AttachAll(sel, Collect(sel.where, ScopeOf(sel.from), env))
  }

  lemma {:induction false} TableHolds(sc: Scope, ord: nat, n: nat)
    requires 0 < n <= |sc| && ord < Columns(sc[..n])
    ensures var k := TableOf(sc, ord, n);
            k < |sc| && Columns(sc[..k]) <= ord < Columns(sc[..k]) + |sc[k].desc.columns|
  {
    assert sc[..n][..n - 1] == sc[..n - 1];
    if n == 1 {
      assert sc[..0] == [];
    } else if ord < Columns(sc[..n - 1]) {
      TableHolds(sc, ord, n - 1);
    }
  }

  /** What a row must satisfy for the conjunct behind a spec to be true of it. */
  ghost predicate SpecTrue(s: Spec, sc: Scope, x: Row, env: Env) {
    var ord := Resolve(sc, s.item);
    && ord.Some? && ord.value < |x| && Lookup(env, s.ref).Some?
    && CheckPred(x[ord.value], s.op, Lookup(env, s.ref).value) == True3
  }

  lemma LeafSpec(p: NPred, sc: Scope, env0: Env, x: Row, env: Env, ip: Interp)
    requires CorrTemplate(p, sc, env0).Some? && IsTrue(Decorrelate(NLeaf(p), sc), x, CondIn(sc, env, ip))
    ensures SpecTrue(CorrTemplate(p, sc, env0).value, sc, x, env)
  {
    assert BindPred(p, sc).None?;
    var here := [Frame(sc, x)] + env;
    assert TruthOf(EvalEx(here, PredExpr(p), ip)) == Some(True3);
    PredExprNeeds(p, here, ip);
    PredExprTruth(p, here, ip);
    LookupHere(sc, x, env, p.l);
    LookupHere(sc, x, env, p.rhs.c);
    FlipSame(Lookup(here, p.l).value, p.op, Lookup(here, p.rhs.c).value);
  }

  /** Whatever environment the templates were found under, every row the WHERE accepts
      for an outer row satisfies them with that outer row's values. */
  lemma {:induction false} SpecsTrue(e: NCond, sc: Scope, env0: Env, x: Row, env: Env, ip: Interp)
    requires IsTrue(Decorrelate(e, sc), x, CondIn(sc, env, ip))
    ensures forall s :: s in Collect(e, sc, env0) ==> SpecTrue(s, sc, x, env)
    decreases e
  {
    hide SpecTrue, CorrTemplate, CondIn;
    match e
    case NLeaf(p) =>
      if CorrTemplate(p, sc, env0).Some? {
        LeafSpec(p, sc, env0, x, env, ip);
      }
    case NAnd(es) =>
      AndMeaning(DecorrelateAll(es, sc), x, CondIn(sc, env, ip), True3);
      assert forall i :: 0 <= i < |es| ==> DecorrelateAll(es, sc)[i] == Decorrelate(es[i], sc);
      AllSpecsTrue(es, sc, env0, x, env, ip);
    case _ =>
  }

  lemma {:induction false} AllSpecsTrue(es: seq<NCond>, sc: Scope, env0: Env, x: Row, env: Env, ip: Interp)
    requires forall i :: 0 <= i < |es| ==> IsTrue(Decorrelate(es[i], sc), x, CondIn(sc, env, ip))
    ensures forall s :: s in CollectAll(es, sc, env0) ==> SpecTrue(s, sc, x, env)
    decreases es
  {
    if es != [] {
      SpecsTrue(es[0], sc, env0, x, env, ip);
      AllSpecsTrue(es[1..], sc, env0, x, env, ip);
    }
  }

  /** A template that every accepted row satisfies, in whatever environment. */
  ghost predicate Justified(sel: Select, t: Tmpl, ip: Interp) {
    && t.step < |sel.from| && sel.from[t.step].join != Left && t.l < |sel.from[t.step].desc.columns|
    && Pushable(t.op)
    && forall env, x :: IsTrue(WhereOf(sel), x, CondOf(sel, env, ip)) ==> TmplTrue(sel, t, x, env)
  }

  ghost predicate TmplTrue(sel: Select, t: Tmpl, x: Row, env: Env)
    requires t.step < |sel.from|
  {
    var ord := Columns(ScopeOf(sel.from)[..t.step]) + t.l;
    && ord < |x| && Lookup(env, t.ref).Some?
    && CheckPred(x[ord], t.op, Lookup(env, t.ref).value) == True3
  }

  lemma {:induction false} CollectPushable(e: NCond, sc: Scope, env: Env)
    ensures forall s :: s in Collect(e, sc, env) ==> Pushable(s.op) && Resolve(sc, s.item).Some?
    decreases e
  {
    if e.NAnd? {
      CollectAllPushable(e.es, sc, env);
    }
  }

  lemma {:induction false} CollectAllPushable(es: seq<NCond>, sc: Scope, env: Env)
    ensures forall s :: s in CollectAll(es, sc, env) ==> Pushable(s.op) && Resolve(sc, s.item).Some?
    decreases es
  {
    if es != [] {
      CollectPushable(es[0], sc, env);
      CollectAllPushable(es[1..], sc, env);
    }
  }

  lemma {:induction false} AttachFrom(sel: Select, specs: seq<Spec>, t: Tmpl)
    requires t in AttachAll(sel, specs)
    ensures exists s :: s in specs && Attach(sel, s) == Some(t)
  {
    if Attach(sel, specs[0]) != Some(t) {
      AttachFrom(sel, specs[1..], t);
    }
  }

  /** Every template prepared under any environment is justified in all of them. */
  lemma TemplatesJustified(sel: Select, env0: Env, ip: Interp)
    ensures forall t :: t in TmplsOf(sel, env0) ==> Justified(sel, t, ip)
  {
    var sc := ScopeOf(sel.from);
    var specs := Collect(sel.where, sc, env0);
    forall t | t in TmplsOf(sel, env0) ensures Justified(sel, t, ip) {
      AttachFrom(sel, specs, t);
      var s :| s in specs && Attach(sel, s) == Some(t);
      TemplateJustified(sel, env0, s, t, ip);
    }
  }

  lemma TemplateJustified(sel: Select, env0: Env, s: Spec, t: Tmpl, ip: Interp)
    requires s in Collect(sel.where, ScopeOf(sel.from), env0) && Attach(sel, s) == Some(t)
    ensures Justified(sel, t, ip)
  {
    var sc := ScopeOf(sel.from);
    CollectPushable(sel.where, sc, env0);
    var ord := Resolve(sc, s.item).value;
    MeantInside(sc, s.item);
    assert sc[..|sc|] == sc;
    TableHolds(sc, ord, |sc|);
    forall env, x | IsTrue(WhereOf(sel), x, CondOf(sel, env, ip)) ensures TmplTrue(sel, t, x, env) {
      SpecsTrue(sel.where, sc, env0, x, env, ip);
      assert SpecTrue(s, sc, x, env);
    }
  }

  // --- binding ---

  /** The outcome of looking up the outer references: one is not available here, one
      is NULL, or all have values. */
  datatype Binding = Unavailable | NullBound | Vals(vs: seq<Value>)

  function Bind(tmpls: seq<Tmpl>, env: Env): (b: Binding)
    ensures b.Vals? ==> |b.vs| == |tmpls|
  {
    if tmpls == [] then Vals([])
    else match Lookup(env, tmpls[0].ref)
         case None => Unavailable
         case Some(v) =>
           if v == Null then NullBound
           else match Bind(tmpls[1..], env)
                case Vals(vs) => Vals([v] + vs)
                case other => other
  }

  lemma {:induction false} BindMeans(tmpls: seq<Tmpl>, env: Env)
    ensures Bind(tmpls, env).Vals? ==>
      forall i ::
        0 <= i < |tmpls| ==> Lookup(env, tmpls[i].ref) == Some(Bind(tmpls, env).vs[i]) && Bind(tmpls, env).vs[i] != Null
    ensures Bind(tmpls, env).NullBound? ==> exists t :: t in tmpls && Lookup(env, t.ref) == Some(Null)
    ensures Bind(tmpls, env).Unavailable? ==> exists t :: t in tmpls && Lookup(env, t.ref) == None
  {
    if tmpls != [] {
      BindMeans(tmpls[1..], env);
      assert tmpls[0] in tmpls && forall t :: t in tmpls[1..] ==> t in tmpls;
    }
  }

  /** The bound templates of step k. */
  function BoundAt(tmpls: seq<Tmpl>, vals: seq<Value>, k: nat): seq<Pred>
    requires |vals| == |tmpls|
  {
    if tmpls == [] then []
    else
      var t := tmpls[0];
      (if t.step == k then [Pred(t.l, t.op, Lit(vals[0]))] else []) + BoundAt(tmpls[1..], vals[1..], k)
  }

  lemma {:induction false} BoundAtMember(tmpls: seq<Tmpl>, vals: seq<Value>, k: nat, p: Pred)
    requires |vals| == |tmpls| && p in BoundAt(tmpls, vals, k)
    ensures exists i :: 0 <= i < |tmpls| && tmpls[i].step == k && p == Pred(tmpls[i].l, tmpls[i].op, Lit(vals[i]))
  {
    if !(tmpls[0].step == k && p == Pred(tmpls[0].l, tmpls[0].op, Lit(vals[0]))) {
      BoundAtMember(tmpls[1..], vals[1..], k, p);
      var i :| && 0 <= i < |tmpls[1..]| && tmpls[1..][i].step == k
               && p == Pred(tmpls[1..][i].l, tmpls[1..][i].op, Lit(vals[1..][i]));
      assert tmpls[i + 1].step == k && p == Pred(tmpls[i + 1].l, tmpls[i + 1].op, Lit(vals[i + 1]));
    }
  }

  /** The prepared chain with the bound templates among its static conjuncts. */
  function Templated(sel: Select, tmpls: seq<Tmpl>, vals: seq<Value>): (fp: FromPlan<Expr>)
    requires |vals| == |tmpls|
    ensures |fp.steps| == |sel.from|
  {
    var items := FromOf(sel);
    FromPlan(seq(|items|, k requires 0 <= k < |items| =>
                 WithStatics(PrepareStep(items, WhereOf(sel), k), BoundAt(tmpls, vals, k))), WhereOf(sel))
  }

  /** What one invocation yields: bound templates narrow the scans, a NULL operand
      skips the run, and an unavailable one falls back to preparing afresh. */
  function CachedRows(sel: Select, tmpls: seq<Tmpl>, data: seq<Source>, norm: Normaliser, env: Env,
                      ip: Interp): seq<Row>
    requires |data| == |sel.from|
  {
    match Bind(tmpls, env)
    case Unavailable => FreshRows(sel, data, norm, env, ip)
    case NullBound => []
    case Vals(vs) => EmitAll(FromOf(sel), Templated(sel, tmpls, vs), data, norm, CondOf(sel, env, ip))
  }

  /** A row some result needs satisfies a bound template of its step. */
  lemma NeededBound(sel: Select, t: Tmpl, v: Value, env: Env, ip: Interp, partial: Row, r: Row)
    requires Justified(sel, t, ip) && Lookup(env, t.ref) == Some(v)
    requires |partial| == Columns(ScopeOf(sel.from)[..t.step]) && |r| == |sel.from[t.step].desc.columns|
    requires exists x: Row :: partial + r <= x && IsTrue(WhereOf(sel), x, CondOf(sel, env, ip))
    ensures EvalPred(Pred(t.l, t.op, Lit(v)), r) == True3
  {
    var x: Row :| partial + r <= x && IsTrue(WhereOf(sel), x, CondOf(sel, env, ip));
    assert TmplTrue(sel, t, x, env);
    assert x[|partial| + t.l] == (partial + r)[|partial| + t.l] == r[t.l];
  }

  lemma BoundHolds(sel: Select, tmpls: seq<Tmpl>, env: Env, ip: Interp, k: nat)
    requires forall t :: t in tmpls ==> Justified(sel, t, ip)
    requires Bind(tmpls, env).Vals? && k < |sel.from|
    ensures ExtraHolds(FromOf(sel)[k], WhereOf(sel), Width(FromOf(sel)[..k]), BoundAt(tmpls, Bind(tmpls, env).vs, k),
                       CondOf(sel, env, ip))
  {
    var it, where, cond := FromOf(sel)[k], WhereOf(sel), CondOf(sel, env, ip);
    var vals := Bind(tmpls, env).vs;
    WidthIsColumns(sel, k);
    BindMeans(tmpls, env);
    forall partial, r, s | && |partial| == Width(FromOf(sel)[..k]) && |r| == |it.desc.columns|
                           && Needed(it, where, partial, r, cond) && s in BoundAt(tmpls, vals, k)
      ensures EvalPred(s, r) == True3
    {
      BoundAtMember(tmpls, vals, k, s);
      var i :| 0 <= i < |tmpls| && tmpls[i].step == k && s == Pred(tmpls[i].l, tmpls[i].op, Lit(vals[i]));
      assert Justified(sel, tmpls[i], ip);
      NeededBound(sel, tmpls[i], vals[i], env, ip, partial, r);
    }
  }

  /** A NULL operand: no row can satisfy the WHERE. */
  lemma NullRefuses(sel: Select, t: Tmpl, env: Env, ip: Interp, x: Row)
    requires Justified(sel, t, ip) && Lookup(env, t.ref) == Some(Null)
    ensures !IsTrue(WhereOf(sel), x, CondOf(sel, env, ip))
  {
    assert !TmplTrue(sel, t, x, env);
  }

  lemma NullMeansNone(sel: Select, tmpls: seq<Tmpl>, data: seq<Source>, env: Env, ip: Interp)
    requires |data| == |sel.from| && (forall t :: t in tmpls ==> Justified(sel, t, ip))
    requires Bind(tmpls, env).NullBound?
    ensures SubMeaning(sel, data, env, ip) == []
  {
    BindMeans(tmpls, env);
    var t :| t in tmpls && Lookup(env, t.ref) == Some(Null);
    var where, cond := WhereOf(sel), CondOf(sel, env, ip);
    forall x: Row ensures !IsTrue(where, x, cond) {
      NullRefuses(sel, t, env, ip, x);
    }
    FilterNone(Joined(FromOf(sel), data, |sel.from|, cond), r => IsTrue(where, r, cond));
  }

  /** Binding templates for each outer row, skipping on NULL and falling back when an
      operand is unavailable yields, as a multiset, what preparing afresh yields. */
  lemma CachedIsFresh(sel: Select, env0: Env, data: seq<Source>, norm: Normaliser, env: Env, ip: Interp)
    requires ValidData(sel, data) && Respects(norm)
    ensures multiset(CachedRows(sel, TmplsOf(sel, env0), data, norm, env, ip))
         == multiset(FreshRows(sel, data, norm, env, ip))
  {
    hide TmplsOf, Bind, CondOf, EmitAll;
    var tmpls := TmplsOf(sel, env0);
    TemplatesJustified(sel, env0, ip);
    FreshMeans(sel, data, norm, env, ip);
    match Bind(tmpls, env)
    case Unavailable =>
    case NullBound => NullMeansNone(sel, tmpls, data, env, ip);
    case Vals(vs) => BoundMeans(sel, tmpls, data, norm, env, ip);
  }

  /** With the current values installed the cached preparation means what the query does. */
  lemma BoundMeans(sel: Select, tmpls: seq<Tmpl>, data: seq<Source>, norm: Normaliser, env: Env, ip: Interp)
    requires ValidData(sel, data) && Respects(norm) && (forall t :: t in tmpls ==> Justified(sel, t, ip))
    requires Bind(tmpls, env).Vals?
    ensures multiset(CachedRows(sel, tmpls, data, norm, env, ip)) == multiset(SubMeaning(sel, data, env, ip))
  {
    hide SoundStep, EmitAll, Meaning;
    var vs := Bind(tmpls, env).vs;
    var fp := Templated(sel, tmpls, vs);
    var items, cond := FromOf(sel), CondOf(sel, env, ip);
    forall k | 0 <= k < |items| ensures SoundStep(fp.steps[k], fp.where, norm, cond) {
      BoundHolds(sel, tmpls, env, ip, k);
      PreparedStepSound(items, WhereOf(sel), k, BoundAt(tmpls, vs, k), norm, cond);
    }
    SoundJoinMeans(items, fp, data, norm, cond);
  }

  // --- subqueries that look at nothing outside ---

  predicate ItemLocal(it: Item, sc: Scope) {
    it.Star? || ExprLocal(it.x, sc)
  }

  /** The static test: no grouping, CTE or sequence draw, and every reference resolves
      in the subquery's own scope. */
  predicate LocalOnly(sel: Select) {
    var sc := ScopeOf(sel.from);
    && !sel.draws && !sel.with && !sel.grouped && NamesDiffer(sc)
    && (forall i :: 0 <= i < |sel.items| ==> ItemLocal(sel.items[i], sc))
    && CondLocal(sel.where, sc)
    && (forall k :: 0 <= k < |sel.from| ==> CondLocal(sel.from[k].on, sc))
    && (forall i :: 0 <= i < |sel.orderBy| ==> ItemLocal(sel.orderBy[i], sc))
  }

  lemma ExtendSame(it: FromItem<Expr>, src: Source, p: Row, c: CondFn<Expr>, c': CondFn<Expr>)
    requires SameJudge(it.on, c, c')
    ensures Extend(it, src, p, c) == Extend(it, src, p, c')
  {
    hide EvalBool;
    FilterSame(src.rows, r => IsTrue(it.on, p + r, c), r => IsTrue(it.on, p + r, c'));
  }

  lemma {:induction false} JoinedSame(items: seq<FromItem<Expr>>, data: seq<Source>, k: nat, c: CondFn<Expr>,
                                      c': CondFn<Expr>)
    requires k <= |items| == |data|
    requires forall i :: 0 <= i < |items| ==> SameJudge(items[i].on, c, c')
    ensures Joined(items, data, k, c) == Joined(items, data, k, c')
  {
    hide IsTrue;
    if k > 0 {
      JoinedSame(items, data, k - 1, c, c');
      var it, src := items[k - 1], data[k - 1];
      forall p: Row ensures Extend(it, src, p, c) == Extend(it, src, p, c') {
        ExtendSame(it, src, p, c, c');
      }
      FlatSame(Joined(items, data, k - 1, c), p => Extend(it, src, p, c), p => Extend(it, src, p, c'));
    }
  }

  /** A local subquery declares the same rows inside every environment. */
  lemma LocalRows(sel: Select, data: seq<Source>, env: Env, env': Env, ip: Interp)
    requires LocalOnly(sel) && |data| == |sel.from|
    ensures SubMeaning(sel, data, env, ip) == SubMeaning(sel, data, env', ip)
  {
    var sc := ScopeOf(sel.from);
    var c, c' := CondOf(sel, env, ip), CondOf(sel, env', ip);
    forall k | 0 <= k < |sel.from| ensures SameJudge(FromOf(sel)[k].on, c, c') {
      LocalCond(sel.from[k].on, sc, sc[..k + 1], env, env', ip);
    }
    LocalCond(sel.where, sc, sc, env, env', ip);
    JoinedSame(FromOf(sel), data, |sel.from|, c, c');
    FilterSame(Joined(FromOf(sel), data, |sel.from|, c), r => IsTrue(WhereOf(sel), r, c),
               r => IsTrue(WhereOf(sel), r, c'));
  }

  // --- what a subquery yields ---

  datatype SubVal = Answer(b: bool) | Elems(vs: seq<Value>) | Scalar(v: Value)

  /** Shapes the runners reject. */
  predicate Runnable(sel: Select) {
    && !sel.grouped && NamesDiffer(ScopeOf(sel.from))
    && (sel.use == AsColumn || sel.use == AsScalar ==> |sel.items| == 1 && sel.items[0].ItemEx?)
    && (sel.use == AsCount ==> sel.items == [Star])
  }

  function ItemVal(sel: Select, env: Env, row: Row, ip: Interp): Option<Value>
    requires |sel.items| == 1 && sel.items[0].ItemEx?
  {
    EvalEx([Frame(ScopeOf(sel.from), row)] + env, sel.items[0].x, ip)
  }

  function ItemVals(sel: Select, env: Env, rows: seq<Row>, ip: Interp): seq<Value>
    requires |sel.items| == 1 && sel.items[0].ItemEx?
  {
    Flat(rows, r => var v := ItemVal(sel, env, r, ip); if v.Some? then [v.value] else [])
  }

  ghost predicate ItemFails(sel: Select, env: Env, rows: seq<Row>, ip: Interp)
    requires |sel.items| == 1 && sel.items[0].ItemEx?
  {
    exists r :: r in rows && ItemVal(sel, env, r, ip).None?
  }

  /** The result a list of subquery rows stands for; None is an error. */
  ghost predicate Yields(sel: Select, env: Env, rows: seq<Row>, ip: Interp, res: Option<SubVal>)
    requires Runnable(sel)
  {
    match sel.use
    case AsExists => res == Some(Answer(rows != []))
    case AsCount => res == Some(Scalar(Int(|rows|)))
    case AsColumn =>
      if ItemFails(sel, env, rows, ip) then res == None
      else res.Some? && res.value.Elems? && multiset(res.value.vs) == multiset(ItemVals(sel, env, rows, ip))
    case AsScalar =>
      if rows == [] then res == Some(Scalar(Null))
      else if |rows| > 1 || ItemVal(sel, env, rows[0], ip).None? then res == None
      else res == Some(Scalar(ItemVal(sel, env, rows[0], ip).value))
  }

  /** Only the multiset of rows matters. */
  lemma YieldsPerm(sel: Select, env: Env, rows: seq<Row>, rows': seq<Row>, ip: Interp, res: Option<SubVal>)
    requires Runnable(sel) && multiset(rows) == multiset(rows') && Yields(sel, env, rows, ip, res)
    ensures Yields(sel, env, rows', ip, res)
  {
    assert |multiset(rows)| == |rows| && |multiset(rows')| == |rows'|;
    if sel.use == AsColumn {
      ColumnPerm(sel, env, rows, rows', ip);
    } else if |rows| == 1 {
      assert multiset(rows) == multiset{rows[0]} && multiset(rows') == multiset{rows'[0]};
      assert rows[0] in multiset{rows'[0]};
    }
  }

  lemma ColumnPerm(sel: Select, env: Env, rows: seq<Row>, rows': seq<Row>, ip: Interp)
    requires |sel.items| == 1 && sel.items[0].ItemEx? && multiset(rows) == multiset(rows')
    ensures ItemFails(sel, env, rows, ip) <==> ItemFails(sel, env, rows', ip)
    ensures multiset(ItemVals(sel, env, rows, ip)) == multiset(ItemVals(sel, env, rows', ip))
  {
    assert forall r :: r in rows <==> r in multiset(rows);
    assert forall r :: r in rows' <==> r in multiset(rows');
    FlatPerm(rows, rows', r => var v := ItemVal(sel, env, r, ip); if v.Some? then [v.value] else [],
                          r => var v := ItemVal(sel, env, r, ip); if v.Some? then [v.value] else []);
  }

  /** A result of a local subquery stands for every environment. */
  lemma LocalYields(sel: Select, data: seq<Source>, norm: Normaliser, env: Env, env': Env, ip: Interp,
                    res: Option<SubVal>)
    requires LocalOnly(sel) && Runnable(sel) && ValidData(sel, data) && Respects(norm)
    requires Yields(sel, env, FreshRows(sel, data, norm, env, ip), ip, res)
    ensures Yields(sel, env', FreshRows(sel, data, norm, env', ip), ip, res)
  {
    var rows, rows' := FreshRows(sel, data, norm, env, ip), FreshRows(sel, data, norm, env', ip);
    FreshMeans(sel, data, norm, env, ip);
    FreshMeans(sel, data, norm, env', ip);
    LocalRows(sel, data, env, env', ip);
    YieldsPerm(sel, env, rows, rows', ip, res);
    YieldsAnywhere(sel, rows', env, env', ip, res);
  }

  lemma YieldsAnywhere(sel: Select, rows: seq<Row>, env: Env, env': Env, ip: Interp, res: Option<SubVal>)
    requires LocalOnly(sel) && Runnable(sel) && Yields(sel, env, rows, ip, res)
    ensures Yields(sel, env', rows, ip, res)
  {
    if sel.use == AsColumn || sel.use == AsScalar {
      forall r: Row ensures ItemVal(sel, env, r, ip) == ItemVal(sel, env', r, ip) {
        LocalEval(sel.items[0].x, ScopeOf(sel.from), r, env, env', ip);
      }
      FlatSame(rows, r => var v := ItemVal(sel, env, r, ip); if v.Some? then [v.value] else [],
                     r => var v := ItemVal(sel, env', r, ip); if v.Some? then [v.value] else []);
    }
  }
}
