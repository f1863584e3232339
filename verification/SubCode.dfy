/** The statement's subquery memo as it runs: results of local subqueries, verdicts,
    and prepared FROM clauses whose templates are rebound in place for each outer row
    (subMemo in sql/subcache.go, subPrep in sql/corrsub.go). */
module SubCode {
  import opened Values
  import opened Condition
  import opened Planner
  import opened Rebind
  import opened Join
  import opened JoinExec
  import opened SubExpr
  import opened SubCache

  datatype GoType = GNil | GBool | GInt | GFloat | GBytes | GString

  function TypeOf(v: Value): GoType {
    match v
    case Null => GNil
    case Bool(_) => GBool
    case Int(_) => GInt
    case Flt(_) => GFloat
    case Blob(_) => GBytes
    case Str(_) => GString
  }

  lemma SameType(a: Value, b: Value)
    requires TypeOf(a) == TypeOf(b)
    ensures SameKind(a, b)
  {
  }

  function Without<T>(m: map<nat, T>, k: nat): (r: map<nat, T>)
    ensures k !in r && forall j :: j in r ==> j in m && r[j] == m[j]
  {
    map j | j in m && j != k :: m[j]
  }

  /** Values of the same kinds bind to predicates of the same shape. */
  lemma {:induction false} BoundAtSame(tmpls: seq<Tmpl>, vs: seq<Value>, ws: seq<Value>, k: nat)
    requires |vs| == |ws| == |tmpls|
    requires forall i :: 0 <= i < |tmpls| && tmpls[i].step == k ==> SameKind(vs[i], ws[i])
    ensures SamePreds(BoundAt(tmpls, vs, k), BoundAt(tmpls, ws, k))
  {
    if tmpls != [] {
      BoundAtSame(tmpls[1..], vs[1..], ws[1..], k);
    }
  }

  lemma SamePredsTrans(ps: seq<Pred>, qs: seq<Pred>, rs: seq<Pred>)
    requires SamePreds(ps, qs) && SamePreds(qs, rs)
    ensures SamePreds(ps, rs)
  {
    forall i | 0 <= i < |ps| ensures SamePred(ps[i], rs[i]) {
      assert SamePred(ps[i], qs[i]) && SamePred(qs[i], rs[i]);
    }
  }

  lemma SamePredsJoin(ps: seq<Pred>, qs: seq<Pred>, rs: seq<Pred>, ts: seq<Pred>)
    requires SamePreds(ps, qs) && SamePreds(rs, ts)
    ensures SamePreds(ps + rs, qs + ts)
  {
  }

  lemma SamePredsRefl(ps: seq<Pred>)
    ensures SamePreds(ps, ps)
  {
  }

  /** Steps that differ at most in the literals of their static conjuncts. */
  ghost predicate StepLike<C>(s: Step<C>, t: Step<C>) {
    s.tmpls == t.tmpls && SamePreds(s.statics, t.statics)
  }

  /** A cached plan serves every like step. */
  lemma CachedLike<C>(items: seq<FromItem<C>>, fp: FromPlan<C>, gp: FromPlan<C>, k: nat, p: Plan<C>, ps: seq<Pred>)
    requires PlanCached(items, fp, k, p, ps) && k < |gp.steps| && StepLike(fp.steps[k], gp.steps[k])
    ensures PlanCached(items, gp, k, p, ps)
  {
    var was, now := fp.steps[k], gp.steps[k];
    forall us | BoundOK(items, k, now, us) ensures SamePreds(ps, PushPreds(now, us)) {
      assert BoundOK(items, k, was, us);
      SamePredsRefl(BindTemplates(was.tmpls, us));
      SamePredsJoin(was.statics, now.statics, BindTemplates(was.tmpls, us), BindTemplates(was.tmpls, us));
      SamePredsTrans(ps, PushPreds(was, us), PushPreds(now, us));
    }
  }

  lemma PlansLike<C>(items: seq<FromItem<C>>, fp: FromPlan<C>, gp: FromPlan<C>, plans: map<nat, Plan<C>>,
                     kept: map<nat, Plan<C>>, made: map<nat, seq<Pred>>)
    requires PlansCached(items, fp, plans, made) && |fp.steps| == |gp.steps|
    requires forall k :: k in kept ==> k in plans && kept[k] == plans[k]
    requires forall k :: k in kept && k < |fp.steps| ==> StepLike(fp.steps[k], gp.steps[k])
    ensures PlansCached(items, gp, kept, made)
  {
    forall k | k in kept ensures k in made && PlanCached(items, gp, k, kept[k], made[k]) {
      assert PlanCached(items, fp, k, plans[k], made[k]);
      CachedLike(items, fp, gp, k, plans[k], made[k]);
    }
  }

  /** A new value of the same kind, or for another step, leaves a step like it was. */
  lemma TemplatedLike(sel: Select, tmpls: seq<Tmpl>, vs: seq<Value>, i: nat, v: Value, k: nat)
    requires i < |tmpls| == |vs| && k < |sel.from| && (SameKind(vs[i], v) || tmpls[i].step != k)
    ensures StepLike(Templated(sel, tmpls, vs).steps[k], Templated(sel, tmpls, vs[i := v]).steps[k])
  {
    BoundAtSame(tmpls, vs, vs[i := v], k);
    var step := PrepareStep(FromOf(sel), WhereOf(sel), k);
    SamePredsRefl(step.statics);
    SamePredsJoin(step.statics, step.statics, BoundAt(tmpls, vs, k), BoundAt(tmpls, vs[i := v], k));
  }

  /** Installing a value keeps the plans of other steps, and of its own step when the
      value has the type it had. */
  lemma InstallKeeps(sel: Select, tmpls: seq<Tmpl>, vs: seq<Value>, i: nat, v: Value, plans: map<nat, Plan<Expr>>,
                     kept: map<nat, Plan<Expr>>, made: map<nat, seq<Pred>>)
    requires i < |tmpls| == |vs| && PlansCached(FromOf(sel), Templated(sel, tmpls, vs), plans, made)
    requires forall k :: k in kept ==> k in plans && kept[k] == plans[k]
    requires SameKind(vs[i], v) || tmpls[i].step !in kept
    ensures PlansCached(FromOf(sel), Templated(sel, tmpls, vs[i := v]), kept, made)
  {
    forall k | k in kept && k < |sel.from|
      ensures StepLike(Templated(sel, tmpls, vs).steps[k], Templated(sel, tmpls, vs[i := v]).steps[k])
    {
      TemplatedLike(sel, tmpls, vs, i, v, k);
    }
    PlansLike(FromOf(sel), Templated(sel, tmpls, vs), Templated(sel, tmpls, vs[i := v]), plans, kept, made);
  }

  /** Binding the first templates, then the rest. */
  /** A binding with more values in front. */
  function Prefixed(vs: seq<Value>, b: Binding): Binding {
    match b
    case Vals(ws) => Vals(vs + ws)
    case other => other
  }

  lemma BindCons(tmpls: seq<Tmpl>, env: Env, v: Value)
    requires tmpls != [] && v != Null && Lookup(env, tmpls[0].ref) == Some(v)
    ensures Bind(tmpls, env) == Prefixed([v], Bind(tmpls[1..], env))
  {
  }

  lemma PrefixedTwice(us: seq<Value>, vs: seq<Value>, b: Binding)
    ensures Prefixed(us, Prefixed(vs, b)) == Prefixed(us + vs, b)
  {
    if b.Vals? {
      assert us + (vs + b.vs) == us + vs + b.vs;
    }
  }

  lemma PrefixedNone(b: Binding)
    ensures Prefixed([], b) == b
  {
    if b.Vals? {
      assert [] + b.vs == b.vs;
    }
  }

  lemma {:induction false} BindSplit(tmpls: seq<Tmpl>, env: Env, vals: seq<Value>, i: nat)
    requires i <= |tmpls| == |vals|
    requires forall j :: 0 <= j < i ==> vals[j] != Null && Lookup(env, tmpls[j].ref) == Some(vals[j])
    ensures Bind(tmpls, env) == Prefixed(vals[..i], Bind(tmpls[i..], env))
    decreases i
  {
    hide Lookup, Bind, Prefixed;
    if i == 0 {
      assert tmpls[0..] == tmpls && vals[..0] == [];
      PrefixedNone(Bind(tmpls, env));
    } else {
      BindCons(tmpls, env, vals[0]);
      BindSplit(tmpls[1..], env, vals[1..], i - 1);
      assert tmpls[1..][i - 1..] == tmpls[i..] && [vals[0]] + vals[1..][..i - 1] == vals[..i];
      PrefixedTwice([vals[0]], vals[1..][..i - 1], Bind(tmpls[i..], env));
    }
  }

  lemma TemplatedOK(sel: Select, tmpls: seq<Tmpl>, vals: seq<Value>, data: seq<Source>, k: nat)
    requires |vals| == |tmpls| && ValidData(sel, data)
    ensures StepOK(FromOf(sel), Templated(sel, tmpls, vals), data, k)
  {
    if k < |sel.from| {
      TemplatesLookBack(Avail(FromOf(sel)[k], WhereOf(sel)), Width(FromOf(sel)[..k]), |sel.from[k].desc.columns|);
    }
  }

  /** A subquery's prepared FROM clause, reused across the invocations of a statement. */
  class SubPrep {
    const sel: Select
    const envSC: Scope
    const tmpls: seq<Tmpl>
    ghost const env0: Env
    var vals: seq<Value>            // what each template's predicate holds now
    var typs: seq<Option<GoType>>   // the type last bound
    var plans: map<nat, Plan<Expr>> // inner-scan plans of the steps
    ghost var made: map<nat, seq<Pred>>

    ghost predicate Valid()
      reads this
    {
      && tmpls == TmplsOf(sel, env0)
      && |vals| == |typs| == |tmpls|
      && (forall i :: 0 <= i < |tmpls| && typs[i].Some? ==> TypeOf(vals[i]) == typs[i].value)
      && PlansCached(FromOf(sel), Templated(sel, tmpls, vals), plans, made)
    }

    constructor (sel: Select, env: Env)
      ensures Valid() && this.sel == sel && this.envSC == ScopeAt(env)
    {
      this.sel, this.envSC, this.env0 := sel, ScopeAt(env), env;
      var ts := TmplsOf(sel, env);
      this.tmpls := ts;
      this.vals, this.typs := seq(|ts|, i => Null), seq(|ts|, i => None);
      this.plans, this.made := map[], map[];
    }

    /** Installs one value; a plan made for another type is dropped. */
    method Install(i: nat, v: Value)
      requires Valid() && i < |tmpls|
      modifies this`vals, this`typs, this`plans
      ensures Valid() && vals == old(vals)[i := v]
    {
      var kept := plans;
      if typs[i] != Some(TypeOf(v)) {
        typs := typs[i := Some(TypeOf(v))];
        kept := Without(plans, tmpls[i].step);
      } else {
        SameType(vals[i], v);
      }
      InstallKeeps(sel, tmpls, vals, i, v, plans, kept, made);
      plans := kept;
      vals := vals[i := v];
    }

    /** Installs the current outer row's values, stopping at one that is NULL or not
        available here. */
    method BindAll(env: Env) returns (empty: bool, ok: bool)
      requires Valid()
      modifies this`vals, this`typs, this`plans
      ensures Valid()
      ensures match Bind(tmpls, env)
              case Unavailable => !ok
              case NullBound => ok && empty
              case Vals(vs) => ok && !empty && vals == vs
    {
      var i := 0;
      while i < |tmpls|
        invariant 0 <= i <= |tmpls| && Valid()
        invariant forall j :: 0 <= j < i ==> vals[j] != Null && Lookup(env, tmpls[j].ref) == Some(vals[j])
      {
        BindSplit(tmpls, env, vals, i);
        var v := Lookup(env, tmpls[i].ref);
        if v.None? {
          return false, false;
        }
        if v.value == Null {
          return true, true;
        }
        Install(i, v.value);
        i := i + 1;
      }
      BindSplit(tmpls, env, vals, |tmpls|);
      assert tmpls[|tmpls|..] == [] && vals[..|tmpls|] + [] == vals;
      return false, true;
    }

    /** Runs the chain with the values now installed, from the plans of earlier runs. */
    method Run(data: seq<Source>, norm: Normaliser, cond: CondFn<Expr>, limit: Option<nat>) returns (rows: seq<Row>)
      requires Valid() && ValidData(sel, data)
      modifies this`plans, this`made
      ensures Valid()
      ensures rows == After([], EmitAll(FromOf(sel), Templated(sel, tmpls, vals), data, norm, cond), limit).0
    {
      var fp := Templated(sel, tmpls, vals);
      forall k: nat ensures StepOK(FromOf(sel), fp, data, k) {
        TemplatedOK(sel, tmpls, vals, data, k);
      }
      rows, plans, made := RunPlan(FromOf(sel), fp, data, norm, cond, limit, plans, made);
    }

    /** One invocation: bind and run, skip, or fall back to preparing afresh. */
    method Invoke(env: Env, data: seq<Source>, norm: Normaliser, ip: Interp, limit: Option<nat>)
        returns (rows: seq<Row>)
      requires Valid() && ValidData(sel, data) && Respects(norm)
      modifies this
      ensures Valid()
      ensures CutOf(rows, FreshRows(sel, data, norm, env, ip), limit)
    {
      hide PlansCached, TmplsOf, EmitAll, Bind;
      CachedIsFresh(sel, env0, data, norm, env, ip);
      ghost var full := CachedRows(sel, tmpls, data, norm, env, ip);
      var empty, ok := BindAll(env);
      if !ok {
        rows := RunJoin(FromOf(sel), data, WhereOf(sel), norm, CondOf(sel, env, ip), limit);
      } else if empty {
        rows := [];
      } else {
        rows := Run(data, norm, CondOf(sel, env, ip), limit);
      }
      assert rows == After([], full, limit).0;
    }
  }

  function ScopeAt(env: Env): Scope {
    if env == [] then [] else env[0].sc
  }

  /** A list of rows, cut at a limit, of what a fresh run yields in some order. */
  ghost predicate CutOf(rows: seq<Row>, fresh': seq<Row>, limit: Option<nat>) {
    exists full :: multiset(full) == multiset(fresh') && rows == After([], full, limit).0
  }

  /** How many rows a runner reads before it stops the join. */
  function LimitFor(use: Use): Option<nat> {
    match use
    case AsExists => Some(1)
    case AsScalar => Some(2)
    case _ => None
  }

  /** Stopping early loses nothing the result depends on. */
  lemma CutYields(sel: Select, env: Env, rows: seq<Row>, all: seq<Row>, ip: Interp, res: Option<SubVal>)
    requires Runnable(sel) && CutOf(rows, all, LimitFor(sel.use)) && Yields(sel, env, rows, ip, res)
    ensures Yields(sel, env, all, ip, res)
  {
    var full :| multiset(full) == multiset(all) && rows == After([], full, LimitFor(sel.use)).0;
    assert [] + full == full;
    assert Yields(sel, env, full, ip, res);
    YieldsPerm(sel, env, full, all, ip, res);
  }

  /** What a runner makes of the rows it read. */
  method Finish(sel: Select, env: Env, rows: seq<Row>, ip: Interp) returns (res: Option<SubVal>)
    requires Runnable(sel)
    ensures Yields(sel, env, rows, ip, res)
  {
    match sel.use
    case AsExists => res := Some(Answer(rows != []));
    case AsCount => res := Some(Scalar(Int(|rows|)));
    case AsColumn => res := Column(sel, env, rows, ip);
    case AsScalar =>
      if rows == [] {
        return Some(Scalar(Null));
      }
      var v := ItemVal(sel, env, rows[0], ip);
      if |rows| > 1 || v.None? {
        return None;
      }
      return Some(Scalar(v.value));
  }

  method Column(sel: Select, env: Env, rows: seq<Row>, ip: Interp) returns (res: Option<SubVal>)
    requires Runnable(sel) && sel.use == AsColumn
    ensures Yields(sel, env, rows, ip, res)
  {
    hide ItemVal;
    var vs: seq<Value> := [];
    var i := 0;
    while i < |rows|
      invariant 0 <= i <= |rows|
      invariant vs + ItemVals(sel, env, rows[i..], ip) == ItemVals(sel, env, rows, ip)
      invariant forall j :: 0 <= j < i ==> ItemVal(sel, env, rows[j], ip).Some?
    {
      var v := ItemVal(sel, env, rows[i], ip);
      if v.None? {
        assert rows[i] in rows;
        return None;
      }
      assert rows[i..][0] == rows[i] && rows[i..][1..] == rows[i + 1..];
      assert ItemVals(sel, env, rows[i..], ip) == [v.value] + ItemVals(sel, env, rows[i + 1..], ip);
      vs := vs + [v.value];
      i := i + 1;
    }
    assert rows[|rows|..] == [] && vs + [] == vs;
    return Some(Elems(vs));
  }

  /** The result preparing afresh for this outer row gives; None is an error. */
  ghost predicate Correct(sel: Select, data: seq<Source>, norm: Normaliser, env: Env, ip: Interp, res: Option<SubVal>)
    requires |data| == |sel.from|
  {
    if Runnable(sel) then Yields(sel, env, FreshRows(sel, data, norm, env, ip), ip, res) else res == None
  }

  /** The statement's memo. Data and function meanings are fixed while it lives. */
  class SubMemo {
    const data: Select -> seq<Source>
    const norm: Normaliser
    const ip: Interp
    var vals: map<Select, SubVal>
    var corr: map<Select, bool>
    var plans: map<Select, SubPrep>

    ghost predicate ValOK(sel: Select, v: SubVal) {
      && ValidData(sel, data(sel)) && Runnable(sel)
      && forall env :: Yields(sel, env, FreshRows(sel, data(sel), norm, env, ip), ip, Some(v))
    }

    ghost predicate Valid()
      reads this, plans.Values
    {
      && Respects(norm)
      && (forall sel :: sel in vals ==> ValOK(sel, vals[sel]))
      && (forall sel :: sel in corr ==> corr[sel] == !LocalOnly(sel))
      && (forall sel :: sel in plans ==> plans[sel].sel == sel && plans[sel].Valid())
    }

    constructor (data: Select -> seq<Source>, norm: Normaliser, ip: Interp)
      requires Respects(norm)
      ensures Valid() && this.data == data && this.norm == norm && this.ip == ip
    {
      this.data, this.norm, this.ip := data, norm, ip;
      vals, corr, plans := map[], map[], map[];
    }

    /** The cached preparation for this enclosing scope, or a new one. */
    method PrepFor(env: Env, sel: Select) returns (sp: SubPrep)
      requires Valid()
      modifies this`plans
      ensures Valid() && sel in plans && plans[sel] == sp
      ensures fresh(plans.Values - old(plans.Values))
    {
      hide Yields, FreshRows, PlansCached, Templated, TmplsOf, LocalOnly;
      if sel in plans && plans[sel].envSC == ScopeAt(env) {
        return plans[sel];
      }
      sp := new SubPrep(sel, env);
      plans := plans[sel := sp];
    }

    method Rows(env: Env, sel: Select, limit: Option<nat>) returns (rows: seq<Row>)
      requires Valid() && ValidData(sel, data(sel))
      modifies this`plans, plans.Values
      ensures Valid() && fresh(plans.Values - old(plans.Values))
      ensures CutOf(rows, FreshRows(sel, data(sel), norm, env, ip), limit)
    {
      hide Yields, FreshRows, PlansCached, Templated, TmplsOf, LocalOnly, CutOf;
      var sp := PrepFor(env, sel);
      rows := sp.Invoke(env, data(sel), norm, ip, limit);
    }

    /** Runs the subquery for the current outer row. */
    method RunSub(env: Env, sel: Select) returns (res: Option<SubVal>)
      requires Valid() && ValidData(sel, data(sel))
      modifies this`plans, plans.Values
      ensures Valid() && fresh(plans.Values - old(plans.Values))
      ensures Correct(sel, data(sel), norm, env, ip, res)
    {
      hide Yields, FreshRows, PlansCached, Templated, TmplsOf, LocalOnly, CutOf;
      if !Runnable(sel) {
        return None;
      }
      var rows := Rows(env, sel, LimitFor(sel.use));
      res := Finish(sel, env, rows, ip);
      CutYields(sel, env, rows, FreshRows(sel, data(sel), norm, env, ip), ip, res);
    }

    /** The static verdict, kept per node. */
    method Uncorrelated(sel: Select) returns (local: bool)
      requires Valid()
      modifies this`corr
      ensures Valid() && local == LocalOnly(sel)
    {
      hide Yields, FreshRows, PlansCached, Templated, TmplsOf;
      if sel in corr {
        return !corr[sel];
      }
      local := LocalOnly(sel);
      corr := corr[sel := !local];
    }

    /** Evaluates a subquery: from the memo when it looks at nothing outside, otherwise
        for this outer row. Either way the result is what preparing afresh gives. */
    method Eval(env: Env, sel: Select) returns (res: Option<SubVal>)
      requires Valid() && ValidData(sel, data(sel))
      modifies this, plans.Values
      ensures Valid() && fresh(plans.Values - old(plans.Values))
      ensures Correct(sel, data(sel), norm, env, ip, res)
    {
      hide Yields, FreshRows, PlansCached, Templated, TmplsOf, LocalOnly, Runnable;
      var local := Uncorrelated(sel);
      if !local {
        res := RunSub(env, sel);
        return;
      }
      if sel in vals {
        assert ValOK(sel, vals[sel]);
        return Some(vals[sel]);
      }
      res := RunSub(env, sel);
      if res.Some? {
        KeepForAll(sel, data(sel), norm, env, ip, res.value);
        vals := vals[sel := res.value];
      }
    }
  }

  /** What a local subquery gives for one outer row it gives for all. */
  lemma KeepForAll(sel: Select, data: seq<Source>, norm: Normaliser, env: Env, ip: Interp, v: SubVal)
    requires LocalOnly(sel) && ValidData(sel, data) && Respects(norm) && Correct(sel, data, norm, env, ip, Some(v))
    ensures Runnable(sel)
    ensures forall env' :: Yields(sel, env', FreshRows(sel, data, norm, env', ip), ip, Some(v))
  {
    forall env' ensures Yields(sel, env', FreshRows(sel, data, norm, env', ip), ip, Some(v)) {
      LocalYields(sel, data, norm, env, env', ip, Some(v));
    }
  }
}
