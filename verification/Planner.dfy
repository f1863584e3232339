/** Choice of access path for one table read (sql/plan.go). The whole condition
    stays in the plan as its residual filter; planning only narrows what a scan
    visits. A plan's `pushed` list names the conjuncts its bounds came from, by
    position among the filter's conjuncts. */
module Planner {
  import opened Values
  import opened Schema
  import opened Condition

  datatype StopKind = StopNE | StopGE | StopGT | StopLE | StopLT

  datatype Stop = Stop(ord: nat, kind: StopKind, val: Value)

  datatype SortKey = SortKey(ord: nat, desc: bool)

  datatype Plan<C> = Plan(
    get: Option<seq<Value>>, path: Path, from: seq<Value>, stops: seq<Stop>,
    reverse: bool, filter: BoolExpr<C>, pushed: seq<nat>)

  /** Which conjuncts a bound may come from: equalities, lower bounds, upper bounds. */
  datatype Kind = KEq | KLo | KHi

  type Picks = map<nat, nat>

  predicate OfKind(op: Op, kind: Kind) {
    match kind
    case KEq => op == EQ
    case KLo => op == GT || op == GE
    case KHi => op == LT || op == LE
  }

  /** litFits: the dialect has no literal of type bytes. */
  predicate LitFits(v: Value, t: ColType) {
    match t
    case TInt => v.Int?
    case TFloat => v.Int? || v.Flt?
    case TString => v.Str?
    case TBytes => false
    case TBool => v.Bool?
  }

  predicate Usable(d: TableDesc, p: Pred) {
    p.rhs.Lit? && p.rhs.v != Null && p.l < |d.columns| && LitFits(p.rhs.v, d.columns[p.l].typ)
  }

  /** First usable conjunct of a kind per column, among the first n conjuncts. */
  function PickFirst(d: TableDesc, conj: seq<Pred>, kind: Kind, n: nat): Picks
    requires n <= |conj|
  {
    if n == 0 then map[]
    else
      var m := PickFirst(d, conj, kind, n - 1);
      var p := conj[n - 1];
      if Usable(d, p) && OfKind(p.op, kind) && p.l !in m then m[p.l := n - 1] else m
  }

  function AllPicks(d: TableDesc, conj: seq<Pred>, kind: Kind): Picks {
    PickFirst(d, conj, kind, |conj|)
  }

  /** Number of leading key columns with an equality conjunct, counted from k. */
  function EqPrefix(cols: seq<nat>, eq: Picks, k: nat): (r: nat)
    requires k <= |cols|
    ensures k <= r <= |cols|
    ensures forall i :: k <= i < r ==> cols[i] in eq
    ensures r < |cols| ==> cols[r] !in eq
    decreases |cols| - k
  {
    if k < |cols| && cols[k] in eq then EqPrefix(cols, eq, k + 1) else k
  }

  function PathScore(cols: seq<nat>, eq: Picks, lo: Picks, hi: Picks): nat {
    var k := EqPrefix(cols, eq, 0);
    4 * k + (if k < |cols| && cols[k] in lo then 1 else 0) + (if k < |cols| && cols[k] in hi then 1 else 0)
  }

  // --- order service ---

  /** Does walking the path columns from ki on, backward when rev, serve the sort
      keys? Pinned columns carry no order and are skipped on both sides. */
  predicate TryOrder(d: TableDesc, path: Path, pinned: set<nat>, keys: seq<SortKey>, ki: nat, rev: bool)
    requires ki <= |PathCols(d, path)|
    decreases |keys|
  {
    if keys == [] then true
    else if keys[0].ord in pinned then TryOrder(d, path, pinned, keys[1..], ki, rev)
    else
      var cols := PathCols(d, path);
      var kj := SkipPinned(cols, pinned, ki);
      && kj < |cols| && cols[kj] == keys[0].ord && NonNullCol(d, keys[0].ord)
      && keys[0].desc == (DescAt(PathDirs(path), kj) != rev)
      && TryOrder(d, path, pinned, keys[1..], kj + 1, rev)
  }

  function SkipPinned(cols: seq<nat>, pinned: set<nat>, ki: nat): (r: nat)
    requires ki <= |cols|
    ensures ki <= r <= |cols|
    ensures forall i :: ki <= i < r ==> cols[i] in pinned
    decreases |cols| - ki
  {
    if ki < |cols| && cols[ki] in pinned then SkipPinned(cols, pinned, ki + 1) else ki
  }

  /** pathOrder: can a walk of the path serve the keys, and must it be reversed? */
  function PathOrder(d: TableDesc, path: Path, pinned: set<nat>, keys: seq<SortKey>): (bool, bool) {
    if TryOrder(d, path, pinned, keys, 0, false) then (true, false)
    else if TryOrder(d, path, pinned, keys, 0, true) then (true, true)
    else (false, false)
  }

  predicate Serves(d: TableDesc, path: Path, eq: Picks, keys: seq<SortKey>) {
    && keys != []
    && var cols := PathCols(d, path);
       PathOrder(d, path, (set c | c in cols[..EqPrefix(cols, eq, 0)]), keys).0
  }

  // --- path choice ---

  datatype Best = Best(path: Path, score: nat, serves: bool)

  /** The better of the incumbent and one more index. */
  function Better(d: TableDesc, eq: Picks, lo: Picks, hi: Picks, keys: seq<SortKey>, best: Best, idx: IndexDesc): Best {
    var s := PathScore(idx.cols, eq, lo, hi);
    if s > best.score || (s == best.score && s > 0 && !best.serves && Serves(d, Secondary(idx), eq, keys))
    then Best(Secondary(idx), s, Serves(d, Secondary(idx), eq, keys))
    else best
  }

  /** The best path among the primary index and the first n secondary indexes. */
  function BestOf(d: TableDesc, eq: Picks, lo: Picks, hi: Picks, keys: seq<SortKey>, n: nat): (b: Best)
    requires n <= |d.indexes|
    ensures PathOf(d, b.path)
    ensures b.score == PathScore(PathCols(d, b.path), eq, lo, hi)
  {
    if n == 0 then Best(Primary, PathScore(d.pkCols, eq, lo, hi), Serves(d, Primary, eq, keys))
    else Better(d, eq, lo, hi, keys, BestOf(d, eq, lo, hi, keys, n - 1), d.indexes[n - 1])
  }

  function LitOf(conj: seq<Pred>, i: nat): Value {
    if i < |conj| && conj[i].rhs.Lit? then conj[i].rhs.v else Null
  }

  function OpOf(conj: seq<Pred>, i: nat): Op {
    if i < |conj| then conj[i].op else NE
  }

  function Picked(m: Picks, cols: seq<nat>, k: nat): seq<nat>
    requires k <= |cols| && forall i :: 0 <= i < k ==> cols[i] in m
  {
    seq(k, i requires 0 <= i < k => m[cols[i]])
  }

  function Lits(conj: seq<Pred>, ks: seq<nat>): (vs: seq<Value>)
    ensures |vs| == |ks|
  {
    seq(|ks|, i requires 0 <= i < |ks| => LitOf(conj, ks[i]))
  }

  function EqStops(cols: seq<nat>, vals: seq<Value>): seq<Stop>
    requires |vals| <= |cols|
  {
    seq(|vals|, i requires 0 <= i < |vals| => Stop(cols[i], StopNE, vals[i]))
  }

  /** The optional conjunct that starts the scan of the range column k, and the one
      that stops it: on a descending column the upper bound starts the scan. */
  function RangeStart(d: TableDesc, path: Path, k: nat, lo: Picks, hi: Picks): Option<nat> {
    var m := if DescAt(PathDirs(path), k) then hi else lo;
    if k < |PathCols(d, path)| && PathCols(d, path)[k] in m then Some(m[PathCols(d, path)[k]]) else None
  }

  function RangeStop(d: TableDesc, path: Path, k: nat, lo: Picks, hi: Picks): Option<nat> {
    var m := if DescAt(PathDirs(path), k) then lo else hi;
    if k < |PathCols(d, path)| && PathCols(d, path)[k] in m then Some(m[PathCols(d, path)[k]]) else None
  }

  function StopKindOf(desc: bool, op: Op): StopKind {
    if desc then (if op == GE then StopLT else StopLE)
    else (if op == LE then StopGT else StopGE)
  }

  function Opt(o: Option<nat>): seq<nat> {
    if o.Some? then [o.value] else []
  }

  function RangeStopAt(d: TableDesc, path: Path, k: nat, conj: seq<Pred>, i: nat): Stop
    requires k < |PathCols(d, path)|
  {
    Stop(PathCols(d, path)[k], StopKindOf(DescAt(PathDirs(path), k), OpOf(conj, i)), LitOf(conj, i))
  }

  /** The scan of a path bounded by an equality prefix (the conjuncts ks) and at most
      one range column after it. */
  function Assemble<C>(d: TableDesc, where: BoolExpr<C>, path: Path, ks: seq<nat>, start: Option<nat>,
                       end: Option<nat>): Plan<C>
    requires |ks| <= |PathCols(d, path)| && (end.Some? ==> |ks| < |PathCols(d, path)|)
  {
    var conj := Conjuncts(where);
    Plan(None, path,
         Lits(conj, ks + Opt(start)),
         EqStops(PathCols(d, path), Lits(conj, ks))
         + (if end.None? then [] else [RangeStopAt(d, path, |ks|, conj, end.value)]),
         false, where, ks + Opt(start) + Opt(end))
  }

  function BoundedPlan<C>(d: TableDesc, where: BoolExpr<C>, path: Path, eq: Picks, lo: Picks, hi: Picks): Plan<C> {
    var k := EqPrefix(PathCols(d, path), eq, 0);
    Assemble(d, where, path, Picked(eq, PathCols(d, path), k), RangeStart(d, path, k, lo, hi),
             RangeStop(d, path, k, lo, hi))
  }

  function GetPlan<C>(where: BoolExpr<C>, ks: seq<nat>): Plan<C> {
    Plan(Some(Lits(Conjuncts(where), ks)), Primary, [], [], false, where, ks)
  }

  function FullScan<C>(where: BoolExpr<C>, path: Path): Plan<C> {
    Plan(None, path, [], [], false, where, [])
  }

  /** What a choice among paths must be, against the score and service of the primary. */
  predicate GoodChoice(b: Best, score: nat, serves: bool) {
    score <= b.score && (b.path.Secondary? ==> b.score > score || (b.serves && !serves))
  }

  lemma BetterGood(d: TableDesc, eq: Picks, lo: Picks, hi: Picks, keys: seq<SortKey>, best: Best, idx: IndexDesc,
                   score: nat, serves: bool)
    requires GoodChoice(best, score, serves) && (best.path.Primary? ==> best.serves == serves)
    ensures var b := Better(d, eq, lo, hi, keys, best, idx);
            && GoodChoice(b, score, serves) && (b.path.Primary? ==> b.serves == serves)
            && best.score <= b.score && PathScore(idx.cols, eq, lo, hi) <= b.score
  {
  }

  /** No path scores higher than the chosen one, and a secondary index replaces the
      primary only with a higher score, or an equal one when it serves the sort and the
      primary does not. */
  lemma {:induction false} BestIsBest(d: TableDesc, eq: Picks, lo: Picks, hi: Picks, keys: seq<SortKey>, n: nat)
    requires n <= |d.indexes|
    ensures var b := BestOf(d, eq, lo, hi, keys, n);
            && GoodChoice(b, PathScore(d.pkCols, eq, lo, hi), Serves(d, Primary, eq, keys))
            && (b.path.Primary? ==> b.serves == Serves(d, Primary, eq, keys))
    ensures forall i :: 0 <= i < n ==> PathScore(d.indexes[i].cols, eq, lo, hi) <= BestOf(d, eq, lo, hi, keys, n).score
  {
    hide PathScore, Serves, Better;
    if n > 0 {
      BestIsBest(d, eq, lo, hi, keys, n - 1);
      BetterGood(d, eq, lo, hi, keys, BestOf(d, eq, lo, hi, keys, n - 1), d.indexes[n - 1],
                 PathScore(d.pkCols, eq, lo, hi), Serves(d, Primary, eq, keys));
    }
  }

  /** planScanOrdered: a point get when every key column is pinned, else the best
      scoring path with its bounds, else a full scan of the primary index. */
  function PlanOf<C>(d: TableDesc, where: BoolExpr<C>, keys: seq<SortKey>): Plan<C> {
    var conj := Conjuncts(where);
    PlanFrom(d, where, keys, AllPicks(d, conj, KEq), AllPicks(d, conj, KLo), AllPicks(d, conj, KHi))
  }

  function PlanFrom<C>(d: TableDesc, where: BoolExpr<C>, keys: seq<SortKey>, eq: Picks, lo: Picks, hi: Picks): Plan<C> {
    var k := EqPrefix(d.pkCols, eq, 0);
    if k == |d.pkCols| then GetPlan(where, Picked(eq, d.pkCols, k))
    else
      var best := BestOf(d, eq, lo, hi, keys, |d.indexes|);
      if best.score == 0 then FullScan(where, Primary)
      else BoundedPlan(d, where, best.path, eq, lo, hi)
  }

  method PlanScanOrdered<C>(d: TableDesc, where: BoolExpr<C>, keys: seq<SortKey>) returns (p: Plan<C>)
    ensures p == PlanOf(d, where, keys)
  {
    var conj := Conjuncts(where);
    var eq, lo, hi := PickBounds(d, conj);
    var k := EqPrefix(d.pkCols, eq, 0);
    if k == |d.pkCols| {
      var ks := Picked(eq, d.pkCols, k);
      return Plan(Some(Lits(conj, ks)), Primary, [], [], false, where, ks);
    }
    var best := ChoosePath(d, eq, lo, hi, keys);
    if best.score == 0 {
      return FullScan(where, Primary);
    }
    p := PushBounds(d, where, best.path, eq, lo, hi);
  }

  method PickBounds(d: TableDesc, conj: seq<Pred>) returns (eq: Picks, lo: Picks, hi: Picks)
    ensures eq == AllPicks(d, conj, KEq)
    ensures lo == AllPicks(d, conj, KLo)
    ensures hi == AllPicks(d, conj, KHi)
  {
    eq, lo, hi := map[], map[], map[];
    var n := 0;
    while n < |conj|
      invariant 0 <= n <= |conj|
      invariant eq == PickFirst(d, conj, KEq, n)
      invariant lo == PickFirst(d, conj, KLo, n)
      invariant hi == PickFirst(d, conj, KHi, n)
    {
      var pr := conj[n];
      if Usable(d, pr) {
        match pr.op {
          case EQ =>
            if pr.l !in eq { eq := eq[pr.l := n]; }
          case GT | GE =>
            if pr.l !in lo { lo := lo[pr.l := n]; }
          case LT | LE =>
            if pr.l !in hi { hi := hi[pr.l := n]; }
          case _ =>
        }
      }
      n := n + 1;
    }
  }

  method ChoosePath(d: TableDesc, eq: Picks, lo: Picks, hi: Picks, keys: seq<SortKey>) returns (best: Best)
    ensures best == BestOf(d, eq, lo, hi, keys, |d.indexes|)
  {
    best := Best(Primary, PathScore(d.pkCols, eq, lo, hi), Serves(d, Primary, eq, keys));
    var n := 0;
    while n < |d.indexes|
      invariant 0 <= n <= |d.indexes|
      invariant best == BestOf(d, eq, lo, hi, keys, n)
    {
      best := Better(d, eq, lo, hi, keys, best, d.indexes[n]);
      n := n + 1;
    }
  }

  /** Appends the bounds of the chosen path to an empty plan, in key-column order. */
  method PushBounds<C>(d: TableDesc, where: BoolExpr<C>, path: Path, eq: Picks, lo: Picks, hi: Picks)
      returns (p: Plan<C>)
    ensures p == BoundedPlan(d, where, path, eq, lo, hi)
  {
    var cols := PathCols(d, path);
    var k := EqPrefix(cols, eq, 0);
    var from, stops, pushed := PushEqualities(Conjuncts(where), cols, eq, k);
    p := PushRange(d, where, path, from, stops, pushed, RangeStart(d, path, k, lo, hi), RangeStop(d, path, k, lo, hi));
  }

  method PushRange<C>(d: TableDesc, where: BoolExpr<C>, path: Path,
                      from: seq<Value>, stops: seq<Stop>, pushed: seq<nat>, start: Option<nat>, end: Option<nat>)
    returns (p: Plan<C>)
    requires |pushed| <= |PathCols(d, path)| && (end.Some? ==> |pushed| < |PathCols(d, path)|)
    requires from == Lits(Conjuncts(where), pushed)
    requires stops == EqStops(PathCols(d, path), from)
    ensures p == Assemble(d, where, path, pushed, start, end)
  {
    var conj := Conjuncts(where);
    p := Plan(None, path, from, stops, false, where, pushed);
    if start.Some? {
      p := p.(from := p.from + [LitOf(conj, start.value)], pushed := p.pushed + [start.value]);
    }
    if end.Some? {
      p := p.(stops := p.stops + [RangeStopAt(d, path, |pushed|, conj, end.value)], pushed := p.pushed + [end.value]);
    }
    assert p.from == Lits(conj, pushed + Opt(start));
  }

  method PushEqualities(conj: seq<Pred>, cols: seq<nat>, eq: Picks, k: nat)
    returns (from: seq<Value>, stops: seq<Stop>, pushed: seq<nat>)
    requires k <= |cols| && forall i :: 0 <= i < k ==> cols[i] in eq
    ensures pushed == Picked(eq, cols, k)
    ensures from == Lits(conj, pushed)
    ensures stops == EqStops(cols, from)
  {
    from, stops, pushed := [], [], [];
    var i := 0;
    while i < k
      invariant 0 <= i <= k
      invariant |pushed| == |from| == |stops| == i
      invariant forall j :: 0 <= j < i ==>
        pushed[j] == eq[cols[j]] && from[j] == LitOf(conj, pushed[j]) && stops[j] == Stop(cols[j], StopNE, from[j])
    {
      var n := eq[cols[i]];
      from := from + [LitOf(conj, n)];
      stops := stops + [Stop(cols[i], StopNE, LitOf(conj, n))];
      pushed := pushed + [n];
      i := i + 1;
    }
  }

  // --- what a plan's bounds rest on ---

  /** Is "column c op literal v" one of the filter's conjuncts, with a literal that
      fits the column? */
  predicate Requires<C>(d: TableDesc, filter: BoolExpr<C>, c: nat, op: Op, v: Value) {
    && Pred(c, op, Lit(v)) in Conjuncts(filter)
    && Usable(d, Pred(c, op, Lit(v)))
  }

  function EqCount(stops: seq<Stop>, i: nat): (k: nat)
    requires i <= |stops|
    ensures i <= k <= |stops|
    ensures forall j :: i <= j < k ==> stops[j].kind == StopNE
    ensures k < |stops| ==> stops[k].kind != StopNE
    decreases |stops| - i
  {
    if i < |stops| && stops[i].kind == StopNE then EqCount(stops, i + 1) else i
  }

  function OpStarting(desc: bool, strict: bool): Op {
    if desc then (if strict then LT else LE) else (if strict then GT else GE)
  }

  predicate StopMatches(desc: bool, kind: StopKind, op: Op) {
    match kind
    case StopNE => false
    case StopGE => !desc && op == LT
    case StopGT => !desc && op == LE
    case StopLE => desc && op == GT
    case StopLT => desc && op == GE
  }

  ghost predicate StopRequired<C>(d: TableDesc, p: Plan<C>, k: nat)
    requires k < |p.stops|
  {
    && k < |PathCols(d, p.path)| && p.stops[k].ord == PathCols(d, p.path)[k]
    && exists op :: StopMatches(DescAt(PathDirs(p.path), k), p.stops[k].kind, op)
                 && Requires(d, p.filter, p.stops[k].ord, op, p.stops[k].val)
  }

  ghost predicate EqRequired<C>(d: TableDesc, p: Plan<C>, i: nat) {
    && i < |p.from| && i < |p.stops| && i < |PathCols(d, p.path)|
    && p.stops[i] == Stop(PathCols(d, p.path)[i], StopNE, p.from[i])
    && Requires(d, p.filter, PathCols(d, p.path)[i], EQ, p.from[i])
  }

  ghost predicate StartRequired<C>(d: TableDesc, p: Plan<C>, k: nat) {
    && k < |p.from| && k < |PathCols(d, p.path)|
    && exists strict ::
      Requires(d, p.filter, PathCols(d, p.path)[k], OpStarting(DescAt(PathDirs(p.path), k), strict), p.from[k])
  }

  /** Every bound of the plan comes from a conjunct of its filter: an equality
      prefix of the path, then at most one range column. */
  ghost predicate Justified<C>(d: TableDesc, p: Plan<C>) {
    && PathOf(d, p.path)
    && (p.get.Some? ==>
         && p.path == Primary
         && |p.get.value| == |d.pkCols|
         && forall i :: 0 <= i < |d.pkCols| ==> Requires(d, p.filter, d.pkCols[i], EQ, p.get.value[i]))
    && var k := EqCount(p.stops, 0);
       && (forall i :: 0 <= i < k ==> EqRequired(d, p, i))
       && k <= |p.from| <= k + 1
       && |p.stops| <= k + 1
       && (|p.from| == k + 1 ==> StartRequired(d, p, k))
       && (|p.stops| == k + 1 ==> StopRequired(d, p, k))
  }

  lemma {:induction false} PickSound(d: TableDesc, conj: seq<Pred>, kind: Kind, n: nat)
    requires n <= |conj|
    ensures forall c :: c in PickFirst(d, conj, kind, n) ==>
              var i := PickFirst(d, conj, kind, n)[c];
              i < n && conj[i].l == c && Usable(d, conj[i]) && OfKind(conj[i].op, kind)
  {
    if n > 0 {
      PickSound(d, conj, kind, n - 1);
    }
  }

  lemma PickRequired<C>(d: TableDesc, where: BoolExpr<C>, kind: Kind, c: nat)
    requires c in AllPicks(d, Conjuncts(where), kind)
    ensures var conj, i := Conjuncts(where), AllPicks(d, Conjuncts(where), kind)[c];
            OfKind(OpOf(conj, i), kind) && Requires(d, where, c, OpOf(conj, i), LitOf(conj, i))
  {
    var conj := Conjuncts(where);
    PickSound(d, conj, kind, |conj|);
    var i := AllPicks(d, conj, kind)[c];
    assert conj[i] == Pred(c, OpOf(conj, i), Lit(LitOf(conj, i)));
  }

  lemma EqCountOf(stops: seq<Stop>, k: nat, i: nat)
    requires i <= k <= |stops|
    requires forall j :: i <= j < k ==> stops[j].kind == StopNE
    requires k < |stops| ==> stops[k].kind != StopNE
    ensures EqCount(stops, i) == k
    decreases k - i
  {
  }

  lemma BoundedJustified<C>(d: TableDesc, where: BoolExpr<C>, path: Path)
    requires PathOf(d, path)
    ensures var conj := Conjuncts(where);
            var eq, lo, hi := AllPicks(d, conj, KEq), AllPicks(d, conj, KLo), AllPicks(d, conj, KHi);
            Justified(d, BoundedPlan(d, where, path, eq, lo, hi))
  {
    hide Requires, AllPicks, Conjuncts;
    var conj := Conjuncts(where);
    var eq, lo, hi := AllPicks(d, conj, KEq), AllPicks(d, conj, KLo), AllPicks(d, conj, KHi);
    var p := BoundedPlan(d, where, path, eq, lo, hi);
    var cols := PathCols(d, path);
    var k := EqPrefix(cols, eq, 0);
    EqCountOf(p.stops, k, 0);
    forall i | 0 <= i < k ensures EqRequired(d, p, i) {
      PickRequired(d, where, KEq, cols[i]);
    }
    if |p.from| == k + 1 {
      StartJustified(d, where, path);
    }
    if |p.stops| == k + 1 {
      StopJustified(d, where, path);
    }
  }

  lemma StartJustified<C>(d: TableDesc, where: BoolExpr<C>, path: Path)
    requires var conj := Conjuncts(where);
             var eq, lo, hi := AllPicks(d, conj, KEq), AllPicks(d, conj, KLo), AllPicks(d, conj, KHi);
             |BoundedPlan(d, where, path, eq, lo, hi).from| == EqPrefix(PathCols(d, path), eq, 0) + 1
    ensures var conj := Conjuncts(where);
            var eq, lo, hi := AllPicks(d, conj, KEq), AllPicks(d, conj, KLo), AllPicks(d, conj, KHi);
            StartRequired(d, BoundedPlan(d, where, path, eq, lo, hi), EqPrefix(PathCols(d, path), eq, 0))
  {
    var conj := Conjuncts(where);
    var eq, lo, hi := AllPicks(d, conj, KEq), AllPicks(d, conj, KLo), AllPicks(d, conj, KHi);
    var p := BoundedPlan(d, where, path, eq, lo, hi);
    var k := EqPrefix(PathCols(d, path), eq, 0);
    var desc := DescAt(PathDirs(path), k);
    var c := PathCols(d, path)[k];
    PickRequired(d, where, if desc then KHi else KLo, c);
    var i := RangeStart(d, path, k, lo, hi).value;
    var strict := OpOf(conj, i) == LT || OpOf(conj, i) == GT;
    assert OpOf(conj, i) == OpStarting(desc, strict);
    assert p.from[k] == LitOf(conj, i);
  }

  lemma StopJustified<C>(d: TableDesc, where: BoolExpr<C>, path: Path)
    requires var conj := Conjuncts(where);
             var eq, lo, hi := AllPicks(d, conj, KEq), AllPicks(d, conj, KLo), AllPicks(d, conj, KHi);
             |BoundedPlan(d, where, path, eq, lo, hi).stops| == EqPrefix(PathCols(d, path), eq, 0) + 1
    ensures var conj := Conjuncts(where);
            var eq, lo, hi := AllPicks(d, conj, KEq), AllPicks(d, conj, KLo), AllPicks(d, conj, KHi);
            StopRequired(d, BoundedPlan(d, where, path, eq, lo, hi), EqPrefix(PathCols(d, path), eq, 0))
  {
    var conj := Conjuncts(where);
    var eq, lo, hi := AllPicks(d, conj, KEq), AllPicks(d, conj, KLo), AllPicks(d, conj, KHi);
    var p := BoundedPlan(d, where, path, eq, lo, hi);
    var k := EqPrefix(PathCols(d, path), eq, 0);
    var desc := DescAt(PathDirs(path), k);
    var c := PathCols(d, path)[k];
    PickRequired(d, where, if desc then KLo else KHi, c);
    var i := RangeStop(d, path, k, lo, hi).value;
    assert p.stops[k] == RangeStopAt(d, path, k, conj, i);
    assert StopMatches(desc, p.stops[k].kind, OpOf(conj, i));
  }

  lemma GetJustified<C>(d: TableDesc, where: BoolExpr<C>, keys: seq<SortKey>)
    requires EqPrefix(d.pkCols, AllPicks(d, Conjuncts(where), KEq), 0) == |d.pkCols|
    ensures Justified(d, PlanOf(d, where, keys))
  {
    hide Requires, AllPicks;
    var p := PlanOf(d, where, keys);
    forall i | 0 <= i < |d.pkCols| ensures Requires(d, p.filter, d.pkCols[i], EQ, p.get.value[i]) {
      PickRequired(d, where, KEq, d.pkCols[i]);
    }
  }

  /** Whatever path planning chooses, each bound it pushes is required by the WHERE. */
  lemma PlanJustified<C>(d: TableDesc, where: BoolExpr<C>, keys: seq<SortKey>)
    ensures Justified(d, PlanOf(d, where, keys))
    ensures PlanOf(d, where, keys).filter == where && !PlanOf(d, where, keys).reverse
  {
    hide AllPicks, Requires, BestOf;
    var conj := Conjuncts(where);
    var eq, lo, hi := AllPicks(d, conj, KEq), AllPicks(d, conj, KLo), AllPicks(d, conj, KHi);
    var k := EqPrefix(d.pkCols, eq, 0);
    if k == |d.pkCols| {
      GetJustified(d, where, keys);
    } else {
      BoundedJustified(d, where, BestOf(d, eq, lo, hi, keys, |d.indexes|).path);
    }
  }
}
