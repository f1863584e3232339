/** Names, scopes and expressions of a subquery (sql/expr.go, sql/join.go): column
    references resolve in the innermost scope that knows them, so an expression can
    reach the current rows of every enclosing query. */
module SubExpr {
  import opened Values
  import opened Schema
  import opened Condition

  /** A column reference; an empty table means unqualified. */
  datatype ColRef = ColRef(table: string, name: string)

  datatype ScopeTable = ScopeTable(name: string, desc: TableDesc)

  type Scope = seq<ScopeTable>

  /** A query's scope with its current row, which may still lack later tables. */
  datatype Frame = Frame(sc: Scope, row: Row)

  /** The enclosing queries, innermost first. */
  type Env = seq<Frame>

  function Columns(sc: Scope): nat {
    if sc == [] then 0 else Columns(sc[..|sc| - 1]) + |sc[|sc| - 1].desc.columns|
  }

  /** The column of one table that a reference can mean. */
  function MeantIn(t: ScopeTable, c: ColRef): Option<nat> {
    if c.table == "" || c.table == t.name then ColIndex(t.desc, c.name, 0) else None
  }

  /** The combined-row ordinals a reference can mean: every table's column of that
      name, or the named table's. */
  function Meant(sc: Scope, c: ColRef): seq<nat> {
    if sc == [] then []
    else
      var front, ord := sc[..|sc| - 1], MeantIn(sc[|sc| - 1], c);
      Meant(front, c) + (if ord.Some? then [Columns(front) + ord.value] else [])
  }

  predicate NamesDiffer(sc: Scope) {
    forall i, j :: 0 <= i < j < |sc| ==> sc[i].name != sc[j].name
  }

  /** What a reference means in a scope: its one possible column. */
  function Resolve(sc: Scope, c: ColRef): Option<nat> {
    var ords := Meant(sc, c);
    if |ords| == 1 then Some(ords[0]) else None
  }

  lemma {:induction false} MeantInside(sc: Scope, c: ColRef)
    ensures forall i :: 0 <= i < |Meant(sc, c)| ==> Meant(sc, c)[i] < Columns(sc)
  {
    if sc != [] {
      MeantInside(sc[..|sc| - 1], c);
    }
  }

  /** The resolution loops: by qualifier, or the only table with that column. */
  method ResolveName(sc: Scope, c: ColRef) returns (r: Option<nat>)
    requires NamesDiffer(sc)
    ensures r == Resolve(sc, c)
  {
    if c.table != "" {
      r := ResolveQualified(sc, c);
    } else {
      r := ResolveBare(sc, c);
    }
  }

  method ResolveQualified(sc: Scope, c: ColRef) returns (r: Option<nat>)
    requires NamesDiffer(sc) && c.table != ""
    ensures r == Resolve(sc, c)
  {
    var off, i := 0, 0;
    while i < |sc|
      invariant 0 <= i <= |sc| && off == Columns(sc[..i])
      invariant forall j :: 0 <= j < i ==> sc[j].name != c.table
    {
      MeantSnoc(sc, c, i);
      if sc[i].name == c.table {
        OnlyTable(sc, c, i);
        var ord := ColIndex(sc[i].desc, c.name, 0);
        return if ord.None? then None else Some(off + ord.value);
      }
      off, i := off + |sc[i].desc.columns|, i + 1;
    }
    NotNamed(sc, c, |sc|);
    assert sc[..|sc|] == sc;
    return None;
  }

  lemma {:induction false} NotNamed(sc: Scope, c: ColRef, n: nat)
    requires n <= |sc| && c.table != "" && forall j :: 0 <= j < n ==> sc[j].name != c.table
    ensures Meant(sc[..n], c) == []
  {
    if n > 0 {
      NotNamed(sc, c, n - 1);
      MeantSnoc(sc, c, n - 1);
    }
  }

  /** A qualified reference means the named table's column of that name. */
  lemma OnlyTable(sc: Scope, c: ColRef, i: nat)
    requires NamesDiffer(sc) && i < |sc| && c.table != "" && sc[i].name == c.table
    ensures var ord := ColIndex(sc[i].desc, c.name, 0);
            Resolve(sc, c) == if ord.None? then None else Some(Columns(sc[..i]) + ord.value)
  {
    NotNamed(sc, c, i);
    MeantSnoc(sc, c, i);
    OtherTables(sc, c, i, |sc|);
    assert sc[..|sc|] == sc;
  }

  method ResolveBare(sc: Scope, c: ColRef) returns (r: Option<nat>)
    requires c.table == ""
    ensures r == Resolve(sc, c)
  {
    hide ColIndex;
    r := None;
    var off, i := 0, 0;
    while i < |sc|
      invariant 0 <= i <= |sc| && off == Columns(sc[..i])
      invariant Meant(sc[..i], c) == if r.Some? then [r.value] else []
    {
      MeantSnoc(sc, c, i);
      var ord := ColIndex(sc[i].desc, c.name, 0);
      if ord.Some? {
        if r.Some? {
          MeantGrows(sc, c, i + 1, |sc|);
          assert sc[..|sc|] == sc;
          return None;
        }
        r := Some(off + ord.value);
      }
      off, i := off + |sc[i].desc.columns|, i + 1;
    }
    assert sc[..|sc|] == sc;
  }

  lemma MeantSnoc(sc: Scope, c: ColRef, i: nat)
    requires i < |sc|
    ensures Columns(sc[..i + 1]) == Columns(sc[..i]) + |sc[i].desc.columns|
    ensures Meant(sc[..i + 1], c)
         == Meant(sc[..i], c) + (var ord := MeantIn(sc[i], c); if ord.Some? then [Columns(sc[..i]) + ord.value] else [])
  {
    assert sc[..i + 1][..i] == sc[..i];
  }

  lemma {:induction false} OtherTables(sc: Scope, c: ColRef, i: nat, n: nat)
    requires NamesDiffer(sc) && i < n <= |sc| && c.table != "" && sc[i].name == c.table
    ensures Meant(sc[..n], c) == Meant(sc[..i + 1], c)
  {
    if n > i + 1 {
      MeantSnoc(sc, c, n - 1);
      OtherTables(sc, c, i, n - 1);
    }
  }

  lemma {:induction false} MeantGrows(sc: Scope, c: ColRef, i: nat, n: nat)
    requires i <= n <= |sc|
    ensures |Meant(sc[..i], c)| <= |Meant(sc[..n], c)|
  {
    if i < n {
      MeantSnoc(sc, c, n - 1);
      MeantGrows(sc, c, i, n - 1);
    }
  }

  /** The value of a reference, from the innermost scope that resolves it; a column
      the current row does not reach yet has none. */
  function Lookup(env: Env, c: ColRef): Option<Value> {
    if env == [] then None
    else match Resolve(env[0].sc, c)
         case None => Lookup(env[1..], c)
         case Some(ord) => if ord < |env[0].row| then Some(env[0].row[ord]) else None
  }

  // --- expressions ---

  datatype Expr =
    | ExLit(v: Value)
    | ExCol(c: ColRef)
    | ExCmp(op: Op, l: Expr, r: Expr)
    | ExIsNull(e: Expr, not: bool)
    | ExNot(e: Expr)
    | ExAnd(es: seq<Expr>)
    | ExOr(es: seq<Expr>)
    | ExFunc(name: string, args: seq<Expr>)
    | ExSub(id: nat)   // a nested subquery or a window: anything that can look outward

  /** What functions compute, and what nested subqueries yield in an environment. */
  datatype Interp = Interp(fun: (string, seq<Value>) -> Option<Value>, sub: (nat, Env) -> Option<Value>)

  function TriVal(t: Tri): Value {
    match t
    case True3 => Bool(true)
    case False3 => Bool(false)
    case Unknown3 => Null
  }

  /** The truth of a value; None when it is not boolean. */
  function TruthOf(v: Option<Value>): Option<Tri> {
    match v
    case Some(Null) => Some(Unknown3)
    case Some(Bool(b)) => Some(OfBool(b))
    case _ => None
  }

  /** Evaluation; None is an error. */
  function EvalEx(env: Env, e: Expr, ip: Interp): Option<Value>
    decreases e
  {
    match e
    case ExLit(v) => Some(v)
    case ExCol(c) => Lookup(env, c)
    case ExCmp(op, l, r) =>
      var a, b := EvalEx(env, l, ip), EvalEx(env, r, ip);
      if a.None? || b.None? then None else Some(TriVal(CheckPred(a.value, op, b.value)))
    case ExIsNull(x, not) =>
      var v := EvalEx(env, x, ip);
      if v.None? then None else Some(Bool((v.value == Null) != not))
    case ExNot(x) =>
      var t := TruthOf(EvalEx(env, x, ip));
      if t.None? then None else Some(TriVal(t.value.Not()))
    case ExAnd(es) => EvalAll(env, es, ip, False3, True3)
    case ExOr(es) => EvalAll(env, es, ip, True3, False3)
    case ExFunc(f, args) =>
      var vs := EvalArgs(env, args, ip);
      if vs.None? then None else ip.fun(f, vs.value)
    case ExSub(id) => ip.sub(id, env)
  }

  /** AND and OR: the deciding truth value ends the walk. */
  function EvalAll(env: Env, es: seq<Expr>, ip: Interp, decides: Tri, out: Tri): Option<Value>
    decreases es
  {
    if es == [] then Some(TriVal(out))
    else match TruthOf(EvalEx(env, es[0], ip))
         case None => None
         case Some(t) =>
           if t == decides then Some(TriVal(t))
           else EvalAll(env, es[1..], ip, decides, if t == Unknown3 then Unknown3 else out)
  }

  function EvalArgs(env: Env, es: seq<Expr>, ip: Interp): Option<seq<Value>>
    decreases es
  {
    if es == [] then Some([])
    else
      var v := EvalEx(env, es[0], ip);
      if v.None? then None
      else
        var rest := EvalArgs(env, es[1..], ip);
        if rest.None? then None else Some([v.value] + rest.value)
  }

  /** How a condition leaf is judged for a row of the subquery with scope sc, inside
      env; an evaluation that fails is not true. */
  function CondIn(sc: Scope, env: Env, ip: Interp): CondFn<Expr> {
    (e: Expr, row: Row) =>
      match TruthOf(EvalEx([Frame(sc, row)] + env, e, ip))
      case None => Unknown3
      case Some(t) => t
  }

  // --- conditions by name, and their lowering ---

  datatype NOperand = NLit(v: Value) | NCol(c: ColRef)

  datatype NPred = NPred(l: ColRef, op: Op, rhs: NOperand)

  datatype NCond =
    | NAlways
    | NLeaf(p: NPred)
    | NEx(x: Expr)
    | NNot(e: NCond)
    | NAnd(es: seq<NCond>)
    | NOr(es: seq<NCond>)

  /** A predicate as an expression. */
  function PredExpr(p: NPred): Expr {
    match p.op
    case IsNull => ExIsNull(ExCol(p.l), false)
    case IsNotNull => ExIsNull(ExCol(p.l), true)
    case _ => ExCmp(p.op, ExCol(p.l), if p.rhs.NLit? then ExLit(p.rhs.v) else ExCol(p.rhs.c))
  }

  /** A predicate with its references bound to ordinals, when both resolve in sc. */
  function BindPred(p: NPred, sc: Scope): Option<Pred> {
    match Resolve(sc, p.l)
    case None => None
    case Some(l) =>
      match p.rhs
      case NLit(v) => Some(Pred(l, p.op, Lit(v)))
      case NCol(c) =>
        var r := Resolve(sc, c);
        if r.None? then None else Some(Pred(l, p.op, Col(r.value)))
  }

  /** A subquery condition with its own predicates bound and every other one turned
      into an expression leaf, which can look outward. */
  function Decorrelate(e: NCond, sc: Scope): BoolExpr<Expr>
    decreases e
  {
    match e
    case NAlways => Always
    case NLeaf(p) =>
      var b := BindPred(p, sc);
      if b.Some? then Leaf(b.value) else Cond(PredExpr(p))
    case NEx(x) => Cond(x)
    case NNot(s) => Not(Decorrelate(s, sc))
    case NAnd(es) => And(DecorrelateAll(es, sc))
    case NOr(es) => Or(DecorrelateAll(es, sc))
  }

  function DecorrelateAll(es: seq<NCond>, sc: Scope): (r: seq<BoolExpr<Expr>>)
    ensures |r| == |es| && forall i :: 0 <= i < |es| ==> r[i] == Decorrelate(es[i], sc)
    decreases es
  {
    if es == [] then [] else [Decorrelate(es[0], sc)] + DecorrelateAll(es[1..], sc)
  }

  /** The condition with every reference looked up by name for each row. */
  function ByName(e: NCond): BoolExpr<Expr>
    decreases e
  {
    match e
    case NAlways => Always
    case NLeaf(p) => Cond(PredExpr(p))
    case NEx(x) => Cond(x)
    case NNot(s) => Not(ByName(s))
    case NAnd(es) => And(AllByName(es))
    case NOr(es) => Or(AllByName(es))
  }

  function AllByName(es: seq<NCond>): (r: seq<BoolExpr<Expr>>)
    ensures |r| == |es|
    decreases es
  {
    if es == [] then [] else [ByName(es[0])] + AllByName(es[1..])
  }

  function OperandIn(env: Env, o: NOperand): Option<Value> {
    match o
    case NLit(v) => Some(v)
    case NCol(c) => Lookup(env, c)
  }

  /** A predicate's expression tests the values its operands have there. */
  lemma PredExprTruth(p: NPred, env: Env, ip: Interp)
    requires Lookup(env, p.l).Some? && OperandIn(env, p.rhs).Some?
    ensures TruthOf(EvalEx(env, PredExpr(p), ip))
         == Some(CheckPred(Lookup(env, p.l).value, p.op, OperandIn(env, p.rhs).value))
  {
  }

  /** A comparison can only be true when both operands have values. */
  lemma PredExprNeeds(p: NPred, env: Env, ip: Interp)
    requires TruthOf(EvalEx(env, PredExpr(p), ip)) == Some(True3) && p.op != IsNull && p.op != IsNotNull
    ensures Lookup(env, p.l).Some? && OperandIn(env, p.rhs).Some?
  {
  }

  lemma LookupHere(sc: Scope, row: Row, env: Env, c: ColRef)
    ensures var o := Resolve(sc, c);
            o.Some? && o.value < |row| ==> Lookup([Frame(sc, row)] + env, c) == Some(row[o.value])
    ensures Resolve(sc, c).Some? && Resolve(sc, c).value >= |row| ==> Lookup([Frame(sc, row)] + env, c) == None
    ensures Resolve(sc, c).None? ==> Lookup([Frame(sc, row)] + env, c) == Lookup(env, c)
  {
    assert ([Frame(sc, row)] + env)[0] == Frame(sc, row) && ([Frame(sc, row)] + env)[1..] == env;
  }

  /** A bound predicate judges a full row as its expression does. */
  lemma BoundPredSame(p: NPred, sc: Scope, row: Row, env: Env, ip: Interp)
    requires BindPred(p, sc).Some? && |row| >= Columns(sc)
    ensures EvalPred(BindPred(p, sc).value, row) == CondIn(sc, env, ip)(PredExpr(p), row)
  {
    LookupHere(sc, row, env, p.l);
    MeantInside(sc, p.l);
    if p.rhs.NCol? {
      LookupHere(sc, row, env, p.rhs.c);
      MeantInside(sc, p.rhs.c);
    }
    PredExprTruth(p, [Frame(sc, row)] + env, ip);
  }

  /** Binding what resolves locally and lowering the rest changes nothing: on every
      full row the condition reads as if each name were looked up. */
  lemma {:induction false} DecorrelateMeans(e: NCond, sc: Scope, row: Row, env: Env, ip: Interp)
    requires |row| >= Columns(sc)
    ensures EvalBool(Decorrelate(e, sc), row, CondIn(sc, env, ip)) == EvalBool(ByName(e), row, CondIn(sc, env, ip))
    decreases e
  {
    match e
    case NLeaf(p) =>
      if BindPred(p, sc).Some? {
        BoundPredSame(p, sc, row, env, ip);
      }
    case NNot(s) => DecorrelateMeans(s, sc, row, env, ip);
    case NAnd(es) => DecorrelateAllMean(es, sc, row, env, ip, True3);
    case NOr(es) => DecorrelateAllMean(es, sc, row, env, ip, False3);
    case _ =>
  }

  lemma {:induction false} DecorrelateAllMean(es: seq<NCond>, sc: Scope, row: Row, env: Env, ip: Interp, out: Tri)
    requires |row| >= Columns(sc)
    ensures EvalAnd(DecorrelateAll(es, sc), row, CondIn(sc, env, ip), out)
         == EvalAnd(AllByName(es), row, CondIn(sc, env, ip), out)
    ensures EvalOr(DecorrelateAll(es, sc), row, CondIn(sc, env, ip), out)
         == EvalOr(AllByName(es), row, CondIn(sc, env, ip), out)
    decreases es
  {
    if es != [] {
      var ds, ns := DecorrelateAll(es, sc), AllByName(es);
      assert ds[0] == Decorrelate(es[0], sc) && ds[1..] == DecorrelateAll(es[1..], sc);
      assert ns[0] == ByName(es[0]) && ns[1..] == AllByName(es[1..]);
      DecorrelateMeans(es[0], sc, row, env, ip);
      DecorrelateAllMean(es[1..], sc, row, env, ip, out);
      DecorrelateAllMean(es[1..], sc, row, env, ip, Unknown3);
    }
  }

  // --- what looks at nothing outside ---

  /** Every column reference resolves in sc, and nothing in it can look outward. */
  predicate ExprLocal(e: Expr, sc: Scope)
    decreases e
  {
    match e
    case ExLit(_) => true
    case ExCol(c) => Resolve(sc, c).Some?
    case ExCmp(_, l, r) => ExprLocal(l, sc) && ExprLocal(r, sc)
    case ExIsNull(x, _) => ExprLocal(x, sc)
    case ExNot(x) => ExprLocal(x, sc)
    case ExAnd(es) => ExprsLocal(es, sc)
    case ExOr(es) => ExprsLocal(es, sc)
    case ExFunc(_, args) => ExprsLocal(args, sc)
    case ExSub(_) => false
  }

  predicate ExprsLocal(es: seq<Expr>, sc: Scope)
    decreases es
  {
    es == [] || (ExprLocal(es[0], sc) && ExprsLocal(es[1..], sc))
  }

  predicate CondLocal(e: NCond, sc: Scope)
    decreases e
  {
    match e
    case NAlways => true
    case NLeaf(p) => Resolve(sc, p.l).Some? && (p.rhs.NCol? ==> Resolve(sc, p.rhs.c).Some?)
    case NEx(x) => ExprLocal(x, sc)
    case NNot(s) => CondLocal(s, sc)
    case NAnd(es) => CondsLocal(es, sc)
    case NOr(es) => CondsLocal(es, sc)
  }

  predicate CondsLocal(es: seq<NCond>, sc: Scope)
    decreases es
  {
    es == [] || (CondLocal(es[0], sc) && CondsLocal(es[1..], sc))
  }

  /** A local expression has the same value inside every environment. */
  lemma {:induction false} LocalEval(e: Expr, sc: Scope, row: Row, env: Env, env': Env, ip: Interp)
    requires ExprLocal(e, sc)
    ensures EvalEx([Frame(sc, row)] + env, e, ip) == EvalEx([Frame(sc, row)] + env', e, ip)
    decreases e
  {
    match e
    case ExCol(c) =>
      assert ([Frame(sc, row)] + env)[0] == Frame(sc, row) == ([Frame(sc, row)] + env')[0];
    case ExCmp(_, l, r) =>
      LocalEval(l, sc, row, env, env', ip);
      LocalEval(r, sc, row, env, env', ip);
    case ExIsNull(x, _) => LocalEval(x, sc, row, env, env', ip);
    case ExNot(x) => LocalEval(x, sc, row, env, env', ip);
    case ExAnd(es) => LocalEvalAll(es, sc, row, env, env', ip, False3, True3);
    case ExOr(es) => LocalEvalAll(es, sc, row, env, env', ip, True3, False3);
    case ExFunc(_, args) => LocalEvalArgs(args, sc, row, env, env', ip);
    case _ =>
  }

  lemma {:induction false} LocalEvalAll(es: seq<Expr>, sc: Scope, row: Row, env: Env, env': Env, ip: Interp,
                                        decides: Tri, out: Tri)
    requires ExprsLocal(es, sc)
    ensures EvalAll([Frame(sc, row)] + env, es, ip, decides, out)
         == EvalAll([Frame(sc, row)] + env', es, ip, decides, out)
    decreases es
  {
    if es != [] {
      LocalEval(es[0], sc, row, env, env', ip);
      LocalEvalAll(es[1..], sc, row, env, env', ip, decides, out);
      LocalEvalAll(es[1..], sc, row, env, env', ip, decides, Unknown3);
    }
  }

  lemma {:induction false} LocalEvalArgs(es: seq<Expr>, sc: Scope, row: Row, env: Env, env': Env, ip: Interp)
    requires ExprsLocal(es, sc)
    ensures EvalArgs([Frame(sc, row)] + env, es, ip) == EvalArgs([Frame(sc, row)] + env', es, ip)
    decreases es
  {
    if es != [] {
      LocalEval(es[0], sc, row, env, env', ip);
      LocalEvalArgs(es[1..], sc, row, env, env', ip);
    }
  }

  /** A condition that judges every row alike inside two environments. */
  ghost predicate SameJudge(e: BoolExpr<Expr>, c: CondFn<Expr>, c': CondFn<Expr>) {
    forall row :: EvalBool(e, row, c) == EvalBool(e, row, c')
  }

  /** A local condition, bound in any scope, judges every row alike everywhere. */
  lemma LocalCond(e: NCond, sc: Scope, bound: Scope, env: Env, env': Env, ip: Interp)
    requires CondLocal(e, sc)
    ensures SameJudge(Decorrelate(e, bound), CondIn(sc, env, ip), CondIn(sc, env', ip))
  {
    forall row
      ensures EvalBool(Decorrelate(e, bound), row, CondIn(sc, env, ip))
           == EvalBool(Decorrelate(e, bound), row, CondIn(sc, env', ip))
    {
      LocalJudge(e, sc, bound, row, env, env', ip);
    }
  }

  lemma {:induction false} LocalJudge(e: NCond, sc: Scope, bound: Scope, row: Row, env: Env, env': Env, ip: Interp)
    requires CondLocal(e, sc)
    ensures EvalBool(Decorrelate(e, bound), row, CondIn(sc, env, ip))
         == EvalBool(Decorrelate(e, bound), row, CondIn(sc, env', ip))
    decreases e
  {
    match e
    case NLeaf(p) => LocalEval(PredExpr(p), sc, row, env, env', ip);
    case NEx(x) => LocalEval(x, sc, row, env, env', ip);
    case NNot(s) => LocalJudge(s, sc, bound, row, env, env', ip);
    case NAnd(es) => LocalJudges(es, sc, bound, row, env, env', ip, True3);
    case NOr(es) => LocalJudges(es, sc, bound, row, env, env', ip, False3);
    case _ =>
  }

  lemma {:induction false} LocalJudges(es: seq<NCond>, sc: Scope, bound: Scope, row: Row, env: Env, env': Env,
                                       ip: Interp, out: Tri)
    requires CondsLocal(es, sc)
    ensures EvalAnd(DecorrelateAll(es, bound), row, CondIn(sc, env, ip), out)
         == EvalAnd(DecorrelateAll(es, bound), row, CondIn(sc, env', ip), out)
    ensures EvalOr(DecorrelateAll(es, bound), row, CondIn(sc, env, ip), out)
         == EvalOr(DecorrelateAll(es, bound), row, CondIn(sc, env', ip), out)
    decreases es
  {
    if es != [] {
      assert DecorrelateAll(es, bound)[1..] == DecorrelateAll(es[1..], bound);
      LocalJudge(es[0], sc, bound, row, env, env', ip);
      LocalJudges(es[1..], sc, bound, row, env, env', ip, out);
      LocalJudges(es[1..], sc, bound, row, env, env', ip, Unknown3);
    }
  }
}
