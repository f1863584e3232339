/** Reusing a cached plan for new literal values (plan.rebind in sql/plan.go): the
    pushed-down values are refreshed in place from the conjuncts they came from. */
module Rebind {
  import opened Values
  import opened Schema
  import opened Condition
  import opened Planner

  predicate SameKind(a: Value, b: Value) {
    match a
    case Null => b.Null?
    case Bool(_) => b.Bool?
    case Int(_) => b.Int?
    case Flt(_) => b.Flt?
    case Blob(_) => b.Blob?
    case Str(_) => b.Str?
  }

  predicate SamePred(p: Pred, q: Pred) {
    && p.l == q.l && p.op == q.op
    && (p.rhs == q.rhs || (p.rhs.Lit? && q.rhs.Lit? && SameKind(p.rhs.v, q.rhs.v)))
  }

  /** Two conditions that differ at most in literal values of the same kinds. */
  ghost predicate SameShape<C>(e: BoolExpr<C>, f: BoolExpr<C>)
    decreases e
  {
    match e
    case Always => f.Always?
    case Leaf(p) => f.Leaf? && SamePred(p, f.p)
    case Cond(c) => f.Cond? && c == f.c
    case Not(s) => f.Not? && SameShape(s, f.e)
    case And(es) => f.And? && SameShapes(es, f.es)
    case Or(es) => f.Or? && SameShapes(es, f.es)
  }

  ghost predicate SameShapes<C>(es: seq<BoolExpr<C>>, fs: seq<BoolExpr<C>>)
    decreases es
  {
    if es == [] then fs == [] else fs != [] && SameShape(es[0], fs[0]) && SameShapes(es[1..], fs[1..])
  }

  predicate SamePreds(ps: seq<Pred>, qs: seq<Pred>) {
    |ps| == |qs| && forall i :: 0 <= i < |ps| ==> SamePred(ps[i], qs[i])
  }

  /** A plan whose bounds can be refreshed from its pushed list: every bound has a
      conjunct, in the order equality prefix, range start, range stop. */
  predicate Rebindable<C>(p: Plan<C>) {
    if p.get.Some? then |p.pushed| == |p.get.value|
    else
      var k := EqCount(p.stops, 0);
      && k <= |p.from| <= k + 1 && |p.stops| <= k + 1
      && |p.pushed| == |p.from| + |p.stops| - k
  }

  /** The plan with its values re-read from the conjuncts of another condition. */
  function Rebound<C>(p: Plan<C>, where: BoolExpr<C>): Plan<C>
    requires Rebindable(p)
  {
    var conj := Conjuncts(where);
    if p.get.Some? then p.(get := Some(Lits(conj, p.pushed)), filter := where)
    else
      var k := EqCount(p.stops, 0);
      p.(from := Lits(conj, p.pushed[..|p.from|]),
         stops := seq(|p.stops|, i requires 0 <= i < |p.stops| =>
           p.stops[i].(val := LitOf(conj, p.pushed[if i < k then i else |p.pushed| - 1]))),
         filter := where)
  }

  /** A live plan, refreshed in place. `filter` is the condition whose predicates the
      pushed list names; their literals change between calls. */
  class LivePlan<C> {
    var plan: Plan<C>

    constructor (p: Plan<C>)
      ensures plan == p
    {
      plan := p;
    }

    method Rebind(where: BoolExpr<C>)
      requires Rebindable(plan)
      modifies this
      ensures plan == Rebound(old(plan), where)
    {
      plan := plan.(filter := where);
      if plan.get.Some? {
        RebindGet();
      } else {
        RebindBounds();
      }
    }

    method RebindGet()
      requires Rebindable(plan) && plan.get.Some?
      modifies this
      ensures plan == Rebound(old(plan), old(plan).filter)
    {
      var conj := Conjuncts(plan.filter);
      var get := plan.get.value;
      var i := 0;
      while i < |get|
        invariant 0 <= i <= |get| == |plan.pushed|
        invariant plan == old(plan)
        invariant forall j :: 0 <= j < i ==> get[j] == LitOf(conj, plan.pushed[j])
      {
        get := get[i := LitOf(conj, plan.pushed[i])];
        i := i + 1;
      }
      assert get == Lits(conj, plan.pushed);
      plan := plan.(get := Some(get));
    }

    method RebindBounds()
      requires Rebindable(plan) && plan.get.None?
      modifies this
      ensures plan == Rebound(old(plan), old(plan).filter)
    {
      hide Conjuncts, LitOf;
      var conj := Conjuncts(plan.filter);
      var k := EqCount(plan.stops, 0);
      var from, stops := RebindPrefix(plan, conj, k);
      var n := k;
      if |from| > k {
        from := from[k := LitOf(conj, plan.pushed[n])];
        n := n + 1;
      }
      if |stops| > k {
        stops := stops[k := stops[k].(val := LitOf(conj, plan.pushed[n]))];
      }
      assert from == Rebound(plan, plan.filter).from;
      assert stops == Rebound(plan, plan.filter).stops;
      plan := plan.(from := from, stops := stops);
    }
  }

  /** The bounds and stops with the equality prefix refreshed. */
  method RebindPrefix<C>(p: Plan<C>, conj: seq<Pred>, k: nat) returns (from: seq<Value>, stops: seq<Stop>)
    requires k <= |p.from| && k <= |p.stops| && k <= |p.pushed|
    ensures |from| == |p.from| && |stops| == |p.stops|
    ensures forall j ::
      0 <= j < k ==> from[j] == LitOf(conj, p.pushed[j]) && stops[j] == p.stops[j].(val := LitOf(conj, p.pushed[j]))
    ensures forall j :: k <= j < |stops| ==> stops[j] == p.stops[j]
  {
    from, stops := p.from, p.stops;
    var n := 0;
    while n < k
      invariant 0 <= n <= k
      invariant |from| == |p.from| && |stops| == |p.stops|
      invariant forall j ::
        0 <= j < n ==> from[j] == LitOf(conj, p.pushed[j]) && stops[j] == p.stops[j].(val := LitOf(conj, p.pushed[j]))
      invariant forall j :: n <= j < |stops| ==> stops[j] == p.stops[j]
    {
      var v := LitOf(conj, p.pushed[n]);
      from, stops := from[n := v], stops[n := stops[n].(val := v)];
      n := n + 1;
    }
  }

  lemma {:induction false} ShapeConjuncts<C>(e: BoolExpr<C>, f: BoolExpr<C>)
    requires SameShape(e, f)
    ensures SamePreds(Conjuncts(e), Conjuncts(f))
    decreases e
  {
    if e.And? {
      ShapesConjuncts(e.es, f.es);
    }
  }

  lemma {:induction false} ShapesConjuncts<C>(es: seq<BoolExpr<C>>, fs: seq<BoolExpr<C>>)
    requires SameShapes(es, fs)
    ensures SamePreds(ConjunctsAll(es), ConjunctsAll(fs))
    decreases es
  {
    if es != [] {
      ShapeConjuncts(es[0], fs[0]);
      ShapesConjuncts(es[1..], fs[1..]);
    }
  }

  lemma {:induction false} PicksSame(d: TableDesc, ps: seq<Pred>, qs: seq<Pred>, kind: Kind, n: nat)
    requires SamePreds(ps, qs) && n <= |ps|
    ensures PickFirst(d, ps, kind, n) == PickFirst(d, qs, kind, n)
  {
    if n > 0 {
      PicksSame(d, ps, qs, kind, n - 1);
      assert SamePred(ps[n - 1], qs[n - 1]);
    }
  }

  lemma AssembleRebindable<C>(d: TableDesc, e: BoolExpr<C>, path: Path, ks: seq<nat>, start: Option<nat>,
                              end: Option<nat>)
    requires |ks| <= |PathCols(d, path)| && (end.Some? ==> |ks| < |PathCols(d, path)|)
    ensures var p := Assemble(d, e, path, ks, start, end);
            && Rebindable(p) && EqCount(p.stops, 0) == |ks|
            && p.pushed[..|p.from|] == ks + Opt(start)
            && (end.Some? ==> p.pushed[|p.pushed| - 1] == end.value)
  {
    EqCountOf(Assemble(d, e, path, ks, start, end).stops, |ks|, 0);
  }

  lemma AssembleRebound<C>(d: TableDesc, e: BoolExpr<C>, f: BoolExpr<C>, path: Path, ks: seq<nat>, start: Option<nat>,
                           end: Option<nat>)
    requires |ks| <= |PathCols(d, path)| && (end.Some? ==> |ks| < |PathCols(d, path)|)
    requires SamePreds(Conjuncts(e), Conjuncts(f))
    requires Rebindable(Assemble(d, e, path, ks, start, end))
    ensures Rebound(Assemble(d, e, path, ks, start, end), f) == Assemble(d, f, path, ks, start, end)
  {
    hide Conjuncts;
    var p, q := Assemble(d, e, path, ks, start, end), Assemble(d, f, path, ks, start, end);
    AssembleRebindable(d, e, path, ks, start, end);
    var r := Rebound(p, f);
    assert r.from == q.from;
    assert r.stops == q.stops by {
      forall i | 0 <= i < |p.stops| ensures r.stops[i] == q.stops[i] {
        if i == |ks| {
          assert OpOf(Conjuncts(e), end.value) == OpOf(Conjuncts(f), end.value);
        } else {
          assert (ks + Opt(start))[i] == p.pushed[i] == ks[i];
        }
      }
    }
  }

  /** Rebinding the plan made for one set of literals gives exactly the plan that
      planning afresh with the new literals gives, when the kinds are the same. */
  lemma RebindIsReplan<C>(d: TableDesc, e: BoolExpr<C>, f: BoolExpr<C>, keys: seq<SortKey>)
    requires SameShape(e, f)
    ensures Rebindable(PlanOf(d, e, keys))
    ensures Rebound(PlanOf(d, e, keys), f) == PlanOf(d, f, keys)
  {
    var ps, qs := Conjuncts(e), Conjuncts(f);
    ShapeConjuncts(e, f);
    PicksSame(d, ps, qs, KEq, |ps|);
    PicksSame(d, ps, qs, KLo, |ps|);
    PicksSame(d, ps, qs, KHi, |ps|);
    PicksRebound(d, e, f, keys, AllPicks(d, ps, KEq), AllPicks(d, ps, KLo), AllPicks(d, ps, KHi));
  }

  /** The plan for e, rebound to f, is the plan for f. */
  ghost predicate Rebinds<C>(p: Plan<C>, f: BoolExpr<C>, q: Plan<C>) {
    Rebindable(p) && Rebound(p, f) == q
  }

  /** The same picks lead to the same path, with the other condition's literals. */
  lemma PicksRebound<C>(d: TableDesc, e: BoolExpr<C>, f: BoolExpr<C>, keys: seq<SortKey>, eq: Picks, lo: Picks,
                        hi: Picks)
    requires SamePreds(Conjuncts(e), Conjuncts(f))
    ensures Rebinds(PlanFrom(d, e, keys, eq, lo, hi), f, PlanFrom(d, f, keys, eq, lo, hi))
  {
    var k := EqPrefix(d.pkCols, eq, 0);
    var p, q := PlanFrom(d, e, keys, eq, lo, hi), PlanFrom(d, f, keys, eq, lo, hi);
    if k == |d.pkCols| {
      var ks := Picked(eq, d.pkCols, k);
      GetRebound(e, f, ks);
      assert p == GetPlan(e, ks) && q == GetPlan(f, ks);
    } else {
      var best := BestOf(d, eq, lo, hi, keys, |d.indexes|);
      if best.score == 0 {
        FullRebound(e, f, Primary);
        assert p == FullScan(e, Primary) && q == FullScan(f, Primary);
      } else {
        BoundedRebound(d, e, f, best.path, eq, lo, hi);
        assert p == BoundedPlan(d, e, best.path, eq, lo, hi) && q == BoundedPlan(d, f, best.path, eq, lo, hi);
      }
    }
  }

  lemma GetRebound<C>(e: BoolExpr<C>, f: BoolExpr<C>, ks: seq<nat>)
    ensures Rebinds(GetPlan(e, ks), f, GetPlan(f, ks))
  {
  }

  lemma FullRebound<C>(e: BoolExpr<C>, f: BoolExpr<C>, path: Path)
    ensures Rebinds(FullScan(e, path), f, FullScan(f, path))
  {
    var r := Rebound(FullScan(e, path), f);
    assert r.from == [] && r.stops == [];
  }

  lemma BoundedRebound<C>(d: TableDesc, e: BoolExpr<C>, f: BoolExpr<C>, path: Path, eq: Picks, lo: Picks, hi: Picks)
    requires SamePreds(Conjuncts(e), Conjuncts(f))
    ensures Rebinds(BoundedPlan(d, e, path, eq, lo, hi), f, BoundedPlan(d, f, path, eq, lo, hi))
  {
    var k := EqPrefix(PathCols(d, path), eq, 0);
    var ks := Picked(eq, PathCols(d, path), k);
    var start, end := RangeStart(d, path, k, lo, hi), RangeStop(d, path, k, lo, hi);
    AssembleRebindable(d, e, path, ks, start, end);
    AssembleRebound(d, e, f, path, ks, start, end);
  }
}
