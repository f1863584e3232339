/** The executor's narrowing is invisible: what a prepared FROM clause emits is, as
    a multiset, what the declarative join means. */
module JoinProof {
  import opened Values
  import opened Schema
  import opened Condition
  import opened Planner
  import opened Scan
  import opened Seqs
  import opened Join

  /** The declarative result, unfolded one outer row at a time. */
  function Decl<C>(items: seq<FromItem<C>>, data: seq<Source>, where: BoolExpr<C>, k: nat, partial: Row,
                   cond: CondFn<C>): seq<Row>
    requires k <= |items| == |data|
    decreases |items| - k
  {
    if k == |items| then (if IsTrue(where, partial, cond) then [partial] else [])
    else Flat(Extend(items[k], data[k], partial, cond), p => Decl(items, data, where, k + 1, p, cond))
  }

  function DeclAll<C>(items: seq<FromItem<C>>, data: seq<Source>, where: BoolExpr<C>, k: nat, rows: seq<Row>,
                      cond: CondFn<C>): seq<Row>
    requires k <= |items| == |data|
  {
    Flat(rows, p => Decl(items, data, where, k, p, cond))
  }

  /** Unfolding from any prefix of the chain gives the declarative meaning. */
  lemma {:induction false} DeclFromPrefix<C>(items: seq<FromItem<C>>, data: seq<Source>, where: BoolExpr<C>, k: nat,
                                             cond: CondFn<C>)
    requires k <= |items| == |data|
    ensures DeclAll(items, data, where, k, Joined(items, data, k, cond), cond) == Meaning(items, data, where, cond)
    decreases |items| - k
  {
    hide IsTrue, JoinNext, Filter, DeclAll;
    if k == |items| {
      FlatIsFilter(Joined(items, data, k, cond), items, data, where, cond);
    } else {
      DeclFromPrefix(items, data, where, k + 1, cond);
      FlatOfFlat(Joined(items, data, k, cond), items, data, where, k, cond);
    }
  }

  lemma {:induction false} FlatIsFilter<C>(rows: seq<Row>, items: seq<FromItem<C>>, data: seq<Source>,
                                           where: BoolExpr<C>, cond: CondFn<C>)
    requires |items| == |data|
    ensures DeclAll(items, data, where, |items|, rows, cond) == Filter(rows, r => IsTrue(where, r, cond))
  {
    if rows != [] {
      FlatIsFilter(rows[1..], items, data, where, cond);
    }
  }

  lemma {:induction false} FlatOfFlat<C>(rows: seq<Row>, items: seq<FromItem<C>>, data: seq<Source>,
                                         where: BoolExpr<C>, k: nat, cond: CondFn<C>)
    requires k < |items| == |data|
    ensures DeclAll(items, data, where, k, rows, cond)
         == DeclAll(items, data, where, k + 1, JoinNext(items[k], data[k], rows, cond), cond)
  {
    if rows != [] {
      FlatOfFlat(rows[1..], items, data, where, k, cond);
      FlatConcat(Extend(items[k], data[k], rows[0], cond), JoinNext(items[k], data[k], rows[1..], cond),
                 p => Decl(items, data, where, k + 1, p, cond));
    }
  }

  lemma DeclIsMeaning<C>(items: seq<FromItem<C>>, data: seq<Source>, where: BoolExpr<C>, cond: CondFn<C>)
    requires |items| == |data|
    ensures Decl(items, data, where, 0, [], cond) == Meaning(items, data, where, cond)
  {
    DeclFromPrefix(items, data, where, 0, cond);
    FlatOne([], p => Decl(items, data, where, 0, p, cond));
  }

  /** Every declared row extends its outer row and satisfies the WHERE. */
  lemma {:induction false} DeclExtends<C>(items: seq<FromItem<C>>, data: seq<Source>, where: BoolExpr<C>, k: nat,
                                          partial: Row, cond: CondFn<C>, x: Row)
    requires k <= |items| == |data|
    requires x in Decl(items, data, where, k, partial, cond)
    ensures partial <= x && IsTrue(where, x, cond)
    decreases |items| - k
  {
    if k < |items| {
      FlatMember(Extend(items[k], data[k], partial, cond), p => Decl(items, data, where, k + 1, p, cond), x);
      var p :| p in Extend(items[k], data[k], partial, cond) && x in Decl(items, data, where, k + 1, p, cond);
      DeclExtends(items, data, where, k + 1, p, cond, x);
      ExtendPrefix(items[k], data[k], partial, cond, p);
    }
  }

  lemma ExtendPrefix<C>(it: FromItem<C>, src: Source, partial: Row, cond: CondFn<C>, p: Row)
    requires p in Extend(it, src, partial, cond)
    ensures partial <= p
  {
    var hits := OnHits(src.rows, it.on, partial, cond);
    if !(hits == [] && it.join == Left) {
      FlatMember(hits, r => [partial + r], p);
    }
  }

  // --- what a step may leave out ---

  /** A row that some result needs at step k: its ON is true and, unless the table is
      NULL-extended, some completion of the combined row satisfies the WHERE. */
  ghost predicate Needed<C>(it: FromItem<C>, where: BoolExpr<C>, partial: Row, r: Row, cond: CondFn<C>) {
    && IsTrue(it.on, partial + r, cond)
    && (it.join == Left || exists x: Row :: partial + r <= x && IsTrue(where, x, cond))
  }

  /** Does a step offer the row as a candidate? */
  predicate Offers<C>(step: Step<C>, partial: Row, r: Row, norm: Normaliser, cond: CondFn<C>) {
    if step.hashEq != [] then
      var probe := HashKeyOf(partial, SrcOrds(step.hashEq), norm);
      probe.Some? && (step.item.virtual || IsTrue(Combine<C>(step.statics), r, cond))
      && HashKeyOf(r, InnerOrds(step.hashEq), norm) == probe
    else
      !SkipStep(step, partial)
      && (step.item.virtual || IsTrue(PushExpr(step, Sources(step.tmpls, partial)), r, cond))
  }

  /** A step that offers every row some result needs. */
  ghost predicate SoundStep<C>(step: Step<C>, where: BoolExpr<C>, norm: Normaliser, cond: CondFn<C>) {
    forall partial, r ::
      (|partial| == step.off && |r| == |step.item.desc.columns| && Needed(step.item, where, partial, r, cond))
      ==> Offers(step, partial, r, norm, cond)
  }

  lemma {:induction false} MatchingIsFilter<C>(rows: seq<Row>, e: BoolExpr<C>, cond: CondFn<C>)
    ensures Matching(rows, e, cond) == Filter(rows, r => IsTrue(e, r, cond))
  {
    if rows != [] {
      MatchingIsFilter(rows[1..], e, cond);
    }
  }

  /** A planned scan of a source reads, as a multiset, the rows that satisfy its
      condition. */
  lemma ScanIsFilter<C>(d: TableDesc, src: Source, e: BoolExpr<C>, cond: CondFn<C>)
    requires ValidSource(d, false, src)
    ensures PlanOf(d, e, []).path in src.paths
    ensures multiset(ScanRows(d, src.paths[PlanOf(d, e, []).path], PlanOf(d, e, []), cond))
         == multiset(Filter(src.rows, r => IsTrue(e, r, cond)))
  {
    PlanJustified(d, e, []);
    var rows := src.paths[PlanOf(d, e, []).path];
    PlannedScanExact(d, rows, e, [], cond);
    MatchingIsFilter(rows, e, cond);
    FilterPerm(rows, src.rows, r => IsTrue(e, r, cond));
  }

  lemma {:induction false} FilterNone<T>(s: seq<T>, p: T -> bool)
    requires forall x :: x in s ==> !p(x)
    ensures Filter(s, p) == []
  {
    if s != [] {
      FilterNone(s[1..], p);
    }
  }

  lemma {:induction false} FilterAll<T>(s: seq<T>, p: T -> bool)
    requires forall x :: x in s ==> p(x)
    ensures Filter(s, p) == s
  {
    if s != [] {
      FilterAll(s[1..], p);
    }
  }

  lemma BuildRowsAre<C>(step: Step<C>, src: Source, cond: CondFn<C>)
    requires ValidSource(step.item.desc, step.item.virtual, src)
    ensures multiset(BuildRows(step, src, cond))
         == multiset(Filter(src.rows, r => step.item.virtual || IsTrue(Combine<C>(step.statics), r, cond)))
  {
    if step.item.virtual {
      FilterAll(src.rows, r => step.item.virtual || IsTrue(Combine<C>(step.statics), r, cond));
    } else {
      ScanIsFilter(step.item.desc, src, Combine<C>(step.statics), cond);
      FilterSame(src.rows, r => IsTrue(Combine<C>(step.statics), r, cond),
                 r => step.item.virtual || IsTrue(Combine<C>(step.statics), r, cond));
    }
  }

  /** The candidates are exactly the offered rows, each as often as it is stored. */
  lemma CandidatesAre<C>(step: Step<C>, src: Source, partial: Row, norm: Normaliser, cond: CondFn<C>)
    requires ValidSource(step.item.desc, step.item.virtual, src)
    ensures multiset(Candidates(step, src, partial, norm, cond))
         == multiset(Filter(src.rows, r => Offers(step, partial, r, norm, cond)))
  {
    if step.hashEq != [] {
      var probe := HashKeyOf(partial, SrcOrds(step.hashEq), norm);
      if probe.None? {
        FilterNone(src.rows, r => Offers(step, partial, r, norm, cond));
      } else {
        HashCandidates(step, src, partial, norm, cond, probe.value);
      }
    } else if SkipStep(step, partial) {
      FilterNone(src.rows, r => Offers(step, partial, r, norm, cond));
    } else if step.item.virtual {
      FilterAll(src.rows, r => Offers(step, partial, r, norm, cond));
    } else {
      var e := PushExpr(step, Sources(step.tmpls, partial));
      ScanIsFilter(step.item.desc, src, e, cond);
      FilterSame(src.rows, r => IsTrue(e, r, cond), r => Offers(step, partial, r, norm, cond));
    }
  }

  lemma HashCandidates<C>(step: Step<C>, src: Source, partial: Row, norm: Normaliser, cond: CondFn<C>, key: seq<Value>)
    requires ValidSource(step.item.desc, step.item.virtual, src)
    requires step.hashEq != [] && HashKeyOf(partial, SrcOrds(step.hashEq), norm) == Some(key)
    ensures multiset(Bucket(BuildRows(step, src, cond), InnerOrds(step.hashEq), norm, key))
         == multiset(Filter(src.rows, r => Offers(step, partial, r, norm, cond)))
  {
    var build := BuildRows(step, src, cond);
    BuildRowsAre(step, src, cond);
    forall x: Row
      ensures multiset(Bucket(build, InnerOrds(step.hashEq), norm, key))[x]
           == multiset(Filter(src.rows, r => Offers(step, partial, r, norm, cond)))[x]
    {
      FilterCount(build, r => HashKeyOf(r, InnerOrds(step.hashEq), norm) == Some(key), x);
      FilterCount(src.rows, r => step.item.virtual || IsTrue(Combine<C>(step.statics), r, cond), x);
      FilterCount(src.rows, r => Offers(step, partial, r, norm, cond), x);
    }
  }

  // --- the executor against the declarative meaning ---

  /** A chain whose every step offers what results need. */
  ghost predicate SoundPlan<C>(items: seq<FromItem<C>>, fp: FromPlan<C>, data: seq<Source>, norm: Normaliser,
                               cond: CondFn<C>)
  {
    && |items| == |fp.steps| == |data|
    && (forall k :: 0 <= k < |items| ==>
          && fp.steps[k].item == items[k]
          && fp.steps[k].off == Width(items[..k])
          && ValidSource(items[k].desc, items[k].virtual, data[k])
          && SoundStep(fp.steps[k], fp.where, norm, cond))
  }

  lemma WidthSnoc<C>(items: seq<FromItem<C>>, k: nat)
    requires k < |items|
    ensures Width(items[..k + 1]) == Width(items[..k]) + |items[k].desc.columns|
  {
    assert items[..k + 1][..k] == items[..k];
  }

  /** Of the rows that join, those a step does not offer contribute nothing. */
  lemma DroppedAreEmpty<C>(items: seq<FromItem<C>>, fp: FromPlan<C>, data: seq<Source>, k: nat, partial: Row, r: Row,
                           norm: Normaliser, cond: CondFn<C>)
    requires SoundPlan(items, fp, data, norm, cond) && k < |items| && |partial| == Width(items[..k])
    requires r in data[k].rows && IsTrue(items[k].on, partial + r, cond) && !Offers(fp.steps[k], partial, r, norm, cond)
    ensures items[k].join == Inner
    ensures Decl(items, data, fp.where, k + 1, partial + r, cond) == []
  {
    var step := fp.steps[k];
    assert SoundStep(step, fp.where, norm, cond);
    assert |r| == |step.item.desc.columns|;
    assert !Needed(step.item, fp.where, partial, r, cond);
    var rest := Decl(items, data, fp.where, k + 1, partial + r, cond);
    if rest != [] {
      DeclExtends(items, data, fp.where, k + 1, partial + r, cond, rest[0]);
    }
  }

  /** From any outer row, the executor emits the declared rows. */
  lemma {:induction false} EmitIsDecl<C>(items: seq<FromItem<C>>, fp: FromPlan<C>, data: seq<Source>, k: nat,
                                         partial: Row, norm: Normaliser, cond: CondFn<C>)
    requires SoundPlan(items, fp, data, norm, cond) && k <= |items| && |partial| == Width(items[..k])
    ensures multiset(Emit(items, fp.where, CandsOf(fp, data, norm, cond), k, partial, cond))
         == multiset(Decl(items, data, fp.where, k, partial, cond))
    decreases |items| - k
  {
    hide IsTrue, Candidates, Offers;
    if k < |items| {
      var step := fp.steps[k];
      var on := items[k].on;
      var offers := (r: Row) => Offers(step, partial, r, norm, cond);
      var hits := OnHits(data[k].rows, on, partial, cond);
      var got := OnHits(Candidates(step, data[k], partial, norm, cond), on, partial, cond);
      WidthSnoc(items, k);
      GotAreOfferedHits(step, data[k], partial, norm, cond);
      FilterMembers(data[k].rows, r => IsTrue(on, partial + r, cond));
      assert forall r :: r in hits ==> r in data[k].rows && IsTrue(on, partial + r, cond);
      forall r | r in hits && !offers(r)
        ensures items[k].join == Inner && Decl(items, data, fp.where, k + 1, partial + r, cond) == []
      {
        DroppedAreEmpty(items, fp, data, k, partial, r, norm, cond);
      }
      var cands := CandsOf(fp, data, norm, cond);
      assert cands(k, partial) == Candidates(step, data[k], partial, norm, cond);
      var emit := (r: Row) => Emit(items, fp.where, cands, k + 1, partial + r, cond);
      var decl := (r: Row) => Decl(items, data, fp.where, k + 1, partial + r, cond);
      forall r | r in data[k].rows ensures multiset(emit(r)) == multiset(decl(r)) {
        EmitIsDecl(items, fp, data, k + 1, partial + r, norm, cond);
      }
      FilterMembers(hits, offers);
      assert forall r :: r in got ==> r in multiset(got);
      FlatPerm(got, Filter(hits, offers), emit, decl);
      FlatDrop(hits, offers, decl);
      EmitIsDecl(items, fp, data, k + 1, partial + Nulls(|items[k].desc.columns|), norm, cond);
      if items[k].join == Left {
        FilterAll(hits, offers);
        assert |multiset(got)| == |got| && |multiset(hits)| == |hits|;
      }
      DeclStep(items, data, fp.where, k, partial, cond);
      FlatSame(got, emit, r => Emit(items, fp.where, cands, k + 1, partial + r, cond));
    }
  }

  lemma GotAreOfferedHits<C>(step: Step<C>, src: Source, partial: Row, norm: Normaliser, cond: CondFn<C>)
    requires ValidSource(step.item.desc, step.item.virtual, src)
    ensures multiset(OnHits(Candidates(step, src, partial, norm, cond), step.item.on, partial, cond))
         == multiset(Filter(OnHits(src.rows, step.item.on, partial, cond), r => Offers(step, partial, r, norm, cond)))
  {
    var cands := Candidates(step, src, partial, norm, cond);
    var hits := OnHits(src.rows, step.item.on, partial, cond);
    CandidatesAre(step, src, partial, norm, cond);
    forall x: Row
      ensures multiset(OnHits(cands, step.item.on, partial, cond))[x]
           == multiset(Filter(hits, r => Offers(step, partial, r, norm, cond)))[x]
    {
      FilterCount(cands, r => IsTrue(step.item.on, partial + r, cond), x);
      FilterCount(src.rows, r => Offers(step, partial, r, norm, cond), x);
      FilterCount(hits, r => Offers(step, partial, r, norm, cond), x);
      FilterCount(src.rows, r => IsTrue(step.item.on, partial + r, cond), x);
    }
  }

  lemma {:induction false} FlatSingletons(hits: seq<Row>, partial: Row, g: Row -> seq<Row>)
    ensures Flat(Flat(hits, r => [partial + r]), g) == Flat(hits, r => g(partial + r))
  {
    if hits != [] {
      FlatSingletons(hits[1..], partial, g);
      FlatConcat([partial + hits[0]], Flat(hits[1..], r => [partial + r]), g);
      FlatOne(partial + hits[0], g);
    }
  }

  /** One unfolding of the declared rows: over the joining rows, or the NULL row. */
  lemma DeclStep<C>(items: seq<FromItem<C>>, data: seq<Source>, where: BoolExpr<C>, k: nat, partial: Row,
                    cond: CondFn<C>)
    requires k < |items| == |data|
    ensures Decl(items, data, where, k, partial, cond)
         == DeclUnfolded(items, data, where, k, partial, cond)
  {
    var hits := OnHits(data[k].rows, items[k].on, partial, cond);
    var g := (p: Row) => Decl(items, data, where, k + 1, p, cond);
    if hits == [] && items[k].join == Left {
      FlatOne(partial + Nulls(|items[k].desc.columns|), g);
    } else {
      FlatSingletons(hits, partial, g);
      FlatSame(hits, r => g(partial + r), r => Decl(items, data, where, k + 1, partial + r, cond));
    }
  }

  function DeclUnfolded<C>(items: seq<FromItem<C>>, data: seq<Source>, where: BoolExpr<C>, k: nat, partial: Row,
                           cond: CondFn<C>): seq<Row>
    requires k < |items| == |data|
  {
    var hits := OnHits(data[k].rows, items[k].on, partial, cond);
    if hits == [] && items[k].join == Left
    then Decl(items, data, where, k + 1, partial + Nulls(|items[k].desc.columns|), cond)
    else Flat(hits, r => Decl(items, data, where, k + 1, partial + r, cond))
  }

  /** A sound chain emits exactly the multiset of the declarative meaning. */
  lemma SoundJoinMeans<C>(items: seq<FromItem<C>>, fp: FromPlan<C>, data: seq<Source>, norm: Normaliser,
                          cond: CondFn<C>)
    requires SoundPlan(items, fp, data, norm, cond)
    ensures multiset(EmitAll(items, fp, data, norm, cond)) == multiset(Meaning(items, data, fp.where, cond))
  {
    assert items[..0] == [];
    EmitIsDecl(items, fp, data, 0, [], norm, cond);
    DeclIsMeaning(items, data, fp.where, cond);
  }

  // --- prepared chains are sound ---

  /** The predicates of a combined condition all hold exactly when it is true. */
  lemma CombineMeaning<C>(ps: seq<Pred>, r: Row, cond: CondFn<C>)
    ensures IsTrue(Combine<C>(ps), r, cond) <==> forall i :: 0 <= i < |ps| ==> EvalPred(ps[i], r) == True3
  {
    if |ps| > 1 {
      var es := Leaves<C>(ps);
      AndMeaning(es, r, cond, True3);
      assert forall i :: 0 <= i < |ps| ==> (IsTrue(es[i], r, cond) <==> EvalPred(ps[i], r) == True3);
    }
  }

  lemma StaticTrue(p: Pred, partial: Row, r: Row, x: Row)
    requires StaticOf(p, |partial|, |r|).Some? && partial + r <= x && EvalPred(p, x) == True3
    ensures EvalPred(StaticOf(p, |partial|, |r|).value, r) == True3
  {
    assert x[p.l] == (partial + r)[p.l] == r[p.l - |partial|];
    if p.rhs.Col? {
      assert x[p.rhs.ord] == (partial + r)[p.rhs.ord] == r[p.rhs.ord - |partial|];
    }
  }

  lemma TemplateTrue(p: Pred, partial: Row, r: Row, x: Row)
    requires TemplateOf(p, |partial|, |r|).Some? && partial + r <= x && EvalPred(p, x) == True3
    ensures var t := TemplateOf(p, |partial|, |r|).value;
            && EvalPred(Pred(t.l, t.op, Lit(At(partial, t.src))), r) == True3
            && At(partial, t.src) != Null
            && (t.op == EQ ==> CompareVals(At(r, t.l), At(partial, t.src)) == Some(0))
  {
    assert x[p.l] == (partial + r)[p.l];
    assert x[p.rhs.ord] == (partial + r)[p.rhs.ord];
    FlipSame(x[p.l], p.op, x[p.rhs.ord]);
  }

  lemma {:induction false} StaticsTrue(ps: seq<Pred>, partial: Row, r: Row, x: Row)
    requires partial + r <= x && forall p :: p in ps ==> EvalPred(p, x) == True3
    ensures forall s :: s in Statics(ps, |partial|, |r|) ==> EvalPred(s, r) == True3
  {
    if ps != [] {
      StaticsTrue(ps[1..], partial, r, x);
      if StaticOf(ps[0], |partial|, |r|).Some? {
        StaticTrue(ps[0], partial, r, x);
      }
    }
  }

  ghost predicate TemplateHolds(t: Template, partial: Row, r: Row) {
    && EvalPred(Pred(t.l, t.op, Lit(At(partial, t.src))), r) == True3
    && At(partial, t.src) != Null
    && (t.op == EQ ==> CompareVals(At(r, t.l), At(partial, t.src)) == Some(0))
  }

  lemma {:induction false} TemplatesTrue(ps: seq<Pred>, partial: Row, r: Row, x: Row)
    requires partial + r <= x && forall p :: p in ps ==> EvalPred(p, x) == True3
    ensures forall t :: t in Templates(ps, |partial|, |r|) ==> TemplateHolds(t, partial, r)
  {
    if ps != [] {
      TemplatesTrue(ps[1..], partial, r, x);
      if TemplateOf(ps[0], |partial|, |r|).Some? {
        TemplateTrue(ps[0], partial, r, x);
      }
    }
  }

  lemma {:induction false} StaticsConcat(ps: seq<Pred>, qs: seq<Pred>, off: nat, w: nat)
    ensures Statics(ps + qs, off, w) == Statics(ps, off, w) + Statics(qs, off, w)
  {
    if ps == [] {
      assert ps + qs == qs;
    } else {
      assert (ps + qs)[1..] == ps[1..] + qs && (ps + qs)[0] == ps[0];
      StaticsConcat(ps[1..], qs, off, w);
      var x := var s := StaticOf(ps[0], off, w); if s.Some? then [s.value] else [];
      assert (x + Statics(ps[1..], off, w)) + Statics(qs, off, w)
           == x + (Statics(ps[1..], off, w) + Statics(qs, off, w));
    }
  }

  lemma {:induction false} TemplatesConcat(ps: seq<Pred>, qs: seq<Pred>, off: nat, w: nat)
    ensures Templates(ps + qs, off, w) == Templates(ps, off, w) + Templates(qs, off, w)
  {
    if ps == [] {
      assert ps + qs == qs;
    } else {
      assert (ps + qs)[1..] == ps[1..] + qs && (ps + qs)[0] == ps[0];
      TemplatesConcat(ps[1..], qs, off, w);
      var x := var t := TemplateOf(ps[0], off, w); if t.Some? then [t.value] else [];
      assert (x + Templates(ps[1..], off, w)) + Templates(qs, off, w)
           == x + (Templates(ps[1..], off, w) + Templates(qs, off, w));
    }
  }

  /** A needed row satisfies every static and every bound template of its step. */
  lemma NeededHolds<C>(it: FromItem<C>, where: BoolExpr<C>, partial: Row, r: Row, cond: CondFn<C>)
    requires Needed(it, where, partial, r, cond)
    ensures forall s :: s in Statics(Avail(it, where), |partial|, |r|) ==> EvalPred(s, r) == True3
    ensures forall t :: t in Templates(Avail(it, where), |partial|, |r|) ==> TemplateHolds(t, partial, r)
  {
    ConjunctsHold(it.on, partial + r, cond);
    StaticsTrue(Conjuncts(it.on), partial, r, partial + r);
    TemplatesTrue(Conjuncts(it.on), partial, r, partial + r);
    StaticsConcat(Conjuncts(it.on), if it.join == Left then [] else Conjuncts(where), |partial|, |r|);
    TemplatesConcat(Conjuncts(it.on), if it.join == Left then [] else Conjuncts(where), |partial|, |r|);
    if it.join != Left {
      var x: Row :| partial + r <= x && IsTrue(where, x, cond);
      ConjunctsHold(where, x, cond);
      StaticsTrue(Conjuncts(where), partial, r, x);
      TemplatesTrue(Conjuncts(where), partial, r, x);
    }
  }

  /** Hash keys come from equality templates. */
  lemma {:induction false} HashKeysAreTemplates<C>(items: seq<FromItem<C>>, it: FromItem<C>, tmpls: seq<Template>,
                                                   i: nat, keys: seq<HashKey>)
    requires i <= |tmpls|
    requires forall h :: h in keys ==> Template(h.inner, EQ, h.src) in tmpls
    ensures forall h :: h in ChooseHash(items, it, tmpls, i, keys) ==> Template(h.inner, EQ, h.src) in tmpls
    decreases |tmpls| - i
  {
    if i < |tmpls| {
      var tp := tmpls[i];
      if tp.op != EQ {
        HashKeysAreTemplates(items, it, tmpls, i + 1, keys);
      } else {
        assert tmpls[i] == Template(tp.l, EQ, tp.src);
        HashKeysAreTemplates(items, it, tmpls, i + 1, keys + [HashKey(tp.l, tp.src)]);
      }
    }
  }

  lemma SameHashKey(keys: seq<HashKey>, partial: Row, r: Row, norm: Normaliser)
    requires Respects(norm)
    requires forall h :: h in keys ==> CompareVals(At(r, h.inner), At(partial, h.src)) == Some(0)
    ensures HashKeyOf(partial, SrcOrds(keys), norm).Some?
    ensures HashKeyOf(r, InnerOrds(keys), norm) == HashKeyOf(partial, SrcOrds(keys), norm)
  {
    forall i | 0 <= i < |keys|
      ensures At(partial, SrcOrds(keys)[i]) != Null && At(r, InnerOrds(keys)[i]) != Null
      ensures norm(At(r, InnerOrds(keys)[i])) == norm(At(partial, SrcOrds(keys)[i]))
    {
      assert keys[i] in keys;
    }
    assert HashKeyOf(r, InnerOrds(keys), norm).Some?;
    assert HashKeyOf(r, InnerOrds(keys), norm).value == HashKeyOf(partial, SrcOrds(keys), norm).value;
  }

  /** Extra statics do no harm as long as needed rows satisfy them. */
  ghost predicate ExtraHolds<C>(it: FromItem<C>, where: BoolExpr<C>, off: nat, extra: seq<Pred>, cond: CondFn<C>) {
    forall partial, r, s ::
      (|partial| == off && |r| == |it.desc.columns| && Needed(it, where, partial, r, cond) && s in extra)
      ==> EvalPred(s, r) == True3
  }

  function WithStatics<C>(step: Step<C>, extra: seq<Pred>): Step<C> {
    step.(statics := step.statics + extra)
  }

  /** A prepared step, with any extra statics that needed rows satisfy, is sound. */
  lemma PreparedStepSound<C>(items: seq<FromItem<C>>, where: BoolExpr<C>, k: nat, extra: seq<Pred>, norm: Normaliser,
                             cond: CondFn<C>)
    requires k < |items| && Respects(norm)
    requires ExtraHolds(items[k], where, Width(items[..k]), extra, cond)
    ensures SoundStep(WithStatics(PrepareStep(items, where, k), extra), where, norm, cond)
  {
    var step := WithStatics(PrepareStep(items, where, k), extra);
    forall partial, r | && |partial| == step.off && |r| == |step.item.desc.columns|
                        && Needed(step.item, where, partial, r, cond)
      ensures Offers(step, partial, r, norm, cond)
    {
      PreparedOffers(items, where, k, extra, partial, r, norm, cond);
    }
  }

  lemma PreparedOffers<C>(items: seq<FromItem<C>>, where: BoolExpr<C>, k: nat, extra: seq<Pred>, partial: Row, r: Row,
                          norm: Normaliser, cond: CondFn<C>)
    requires k < |items| && Respects(norm)
    requires |partial| == Width(items[..k]) && |r| == |items[k].desc.columns|
    requires Needed(items[k], where, partial, r, cond)
    requires ExtraHolds(items[k], where, Width(items[..k]), extra, cond)
    ensures Offers(WithStatics(PrepareStep(items, where, k), extra), partial, r, norm, cond)
  {
    var step := WithStatics(PrepareStep(items, where, k), extra);
    NeededHolds(items[k], where, partial, r, cond);
    assert forall s :: s in step.statics ==> EvalPred(s, r) == True3;
    if step.hashEq != [] {
      HashKeysAreTemplates(items, items[k], step.tmpls, 0, []);
      forall h | h in step.hashEq ensures CompareVals(At(r, h.inner), At(partial, h.src)) == Some(0) {
        assert TemplateHolds(Template(h.inner, EQ, h.src), partial, r);
      }
      SameHashKey(step.hashEq, partial, r, norm);
      CombineMeaning(step.statics, r, cond);
    } else {
      NestedOffers(step, partial, r, cond);
    }
  }

  lemma NestedOffers<C>(step: Step<C>, partial: Row, r: Row, cond: CondFn<C>)
    requires forall s :: s in step.statics ==> EvalPred(s, r) == True3
    requires forall t :: t in step.tmpls ==> TemplateHolds(t, partial, r)
    ensures !SkipStep(step, partial)
    ensures IsTrue(PushExpr(step, Sources(step.tmpls, partial)), r, cond)
  {
    var vals := Sources(step.tmpls, partial);
    var bound := BindTemplates(step.tmpls, vals);
    forall i | 0 <= i < |step.tmpls| ensures vals[i] != Null && EvalPred(bound[i], r) == True3 {
      assert TemplateHolds(step.tmpls[i], partial, r);
    }
    CombineMeaning(step.statics + bound, r, cond);
  }

  /** For every left-deep chain of inner and LEFT joins with any ON and WHERE trees,
      the prepared executor emits exactly the multiset of the declarative meaning,
      whichever steps hash and whatever equality-respecting normaliser they use. */
  lemma PreparedJoinMeans<C>(items: seq<FromItem<C>>, data: seq<Source>, where: BoolExpr<C>, norm: Normaliser,
                             cond: CondFn<C>)
    requires |items| == |data| && Respects(norm)
    requires forall k :: 0 <= k < |items| ==> ValidSource(items[k].desc, items[k].virtual, data[k])
    ensures multiset(EmitAll(items, Prepare(items, where), data, norm, cond))
         == multiset(Meaning(items, data, where, cond))
  {
    hide SoundStep, EmitAll, Meaning;
    var fp := Prepare(items, where);
    forall k | 0 <= k < |items| ensures SoundStep(fp.steps[k], where, norm, cond) {
      PreparedStepSound(items, where, k, [], norm, cond);
      assert WithStatics(PrepareStep(items, where, k), []) == fp.steps[k];
    }
    SoundJoinMeans(items, fp, data, norm, cond);
  }
}
