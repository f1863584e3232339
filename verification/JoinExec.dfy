/** The join executor as it runs (joinRun in sql/join.go): recursion over the steps,
    one cached plan per step rebound for each outer row, hash tables built on first
    use, and a consumer that may stop the whole join. */
module JoinExec {
  import opened Values
  import opened Schema
  import opened Condition
  import opened Planner
  import opened Scan
  import opened Rebind
  import opened Seqs
  import opened Join
  import opened JoinProof

  /** The column types of the combined row. */
  ghost function Types<C>(items: seq<FromItem<C>>): (ts: seq<ColType>)
    ensures |ts| == Width(items)
  {
    if items == [] then []
    else
      var cols := items[|items| - 1].desc.columns;
      Types(items[..|items| - 1]) + seq(|cols|, i requires 0 <= i < |cols| => cols[i].typ)
  }

  /** A combined row of the first k tables, typed column by column. */
  ghost predicate PartialOK<C>(items: seq<FromItem<C>>, k: nat, partial: Row)
    requires k <= |items|
  {
    && |partial| == Width(items[..k])
    && forall i :: 0 <= i < |partial| ==> Fits(partial[i], Types(items[..k])[i])
  }

  lemma ExtendOK<C>(items: seq<FromItem<C>>, k: nat, partial: Row, r: Row)
    requires k < |items| && PartialOK(items, k, partial)
    requires |r| == |items[k].desc.columns| && forall i :: 0 <= i < |r| ==> Fits(r[i], items[k].desc.columns[i].typ)
    ensures PartialOK(items, k + 1, partial + r)
  {
    assert items[..k + 1][..k] == items[..k];
    WidthSnoc(items, k);
  }

  /** Template values for step k: non-NULL, of their source columns' types. */
  ghost predicate BoundOK<C>(items: seq<FromItem<C>>, k: nat, step: Step<C>, vals: seq<Value>)
    requires k <= |items|
  {
    && |vals| == |step.tmpls|
    && forall i :: 0 <= i < |vals| ==>
         && step.tmpls[i].src < Width(items[..k])
         && vals[i] != Null && Fits(vals[i], Types(items[..k])[step.tmpls[i].src])
  }

  lemma {:induction false} LeavesShape<C>(ps: seq<Pred>, qs: seq<Pred>)
    requires SamePreds(ps, qs)
    ensures SameShapes(Leaves<C>(ps), Leaves<C>(qs))
  {
    if ps != [] {
      assert Leaves<C>(ps)[1..] == Leaves<C>(ps[1..]) && Leaves<C>(qs)[1..] == Leaves<C>(qs[1..]);
      LeavesShape<C>(ps[1..], qs[1..]);
    }
  }

  /** Predicate lists of the same shape combine into conditions of the same shape. */
  lemma CombineShape<C>(ps: seq<Pred>, qs: seq<Pred>)
    requires SamePreds(ps, qs)
    ensures SameShape(Combine<C>(ps), Combine<C>(qs))
  {
    LeavesShape<C>(ps, qs);
  }

  /** Template values of the same columns give push lists of the same shape. */
  lemma PushShape<C>(items: seq<FromItem<C>>, k: nat, step: Step<C>, vs: seq<Value>, ws: seq<Value>)
    requires k <= |items| && BoundOK(items, k, step, vs) && BoundOK(items, k, step, ws)
    ensures SamePreds(PushPreds(step, vs), PushPreds(step, ws))
  {
    forall i | 0 <= i < |PushPreds(step, vs)| ensures SamePred(PushPreds(step, vs)[i], PushPreds(step, ws)[i]) {
      if i >= |step.statics| {
        assert PushPreds(step, vs)[i] == BindTemplates(step.tmpls, vs)[i - |step.statics|];
      }
    }
  }

  /** The output and stop flag after a consumer with a row limit has been offered
      more rows; it stops on reaching the limit, and always takes one row. */
  function After(before: seq<Row>, offered: seq<Row>, limit: Option<nat>): (seq<Row>, bool) {
    var full := before + offered;
    if limit.Some? && |full| >= AtLeastOne(limit.value) then (full[..AtLeastOne(limit.value)], true) else (full, false)
  }

  function AtLeastOne(n: nat): nat {
    if n == 0 then 1 else n
  }

  predicate Room(out: seq<Row>, limit: Option<nat>) {
    limit.Some? ==> |out| < AtLeastOne(limit.value)
  }

  lemma AfterThen(before: seq<Row>, a: seq<Row>, b: seq<Row>, limit: Option<nat>)
    ensures After(before, a, limit).1 ==> After(before, a + b, limit) == After(before, a, limit)
    ensures !After(before, a, limit).1 ==> After(After(before, a, limit).0, b, limit) == After(before, a + b, limit)
    ensures !After(before, a, limit).1 ==> Room(After(before, a, limit).0, limit)
  {
    assert before + (a + b) == (before + a) + b;
    if limit.Some? && |before + a| >= AtLeastOne(limit.value) {
      assert ((before + a) + b)[..AtLeastOne(limit.value)] == (before + a)[..AtLeastOne(limit.value)];
    }
  }

  /** The rows that follow from a list of candidates of step k. */
  ghost function FromHits<C>(items: seq<FromItem<C>>, where: BoolExpr<C>, cands: CandFn, k: nat, partial: Row,
                             rows: seq<Row>, cond: CondFn<C>): seq<Row>
    requires k < |items|
  {
    Flat(OnHits(rows, items[k].on, partial, cond), r => Emit(items, where, cands, k + 1, partial + r, cond))
  }

  /** The rows that follow from one candidate. */
  ghost function FromHit<C>(items: seq<FromItem<C>>, where: BoolExpr<C>, cands: CandFn, k: nat, partial: Row, r: Row,
                            cond: CondFn<C>): seq<Row>
    requires k < |items|
  {
    if IsTrue(items[k].on, partial + r, cond) then Emit(items, where, cands, k + 1, partial + r, cond) else []
  }

  lemma EmitStep<C>(items: seq<FromItem<C>>, where: BoolExpr<C>, cands: CandFn, k: nat, partial: Row, cond: CondFn<C>)
    requires k < |items|
    ensures if OnHits(cands(k, partial), items[k].on, partial, cond) == [] && items[k].join == Left
            then Emit(items, where, cands, k, partial, cond)
                 == Emit(items, where, cands, k + 1, partial + Nulls(|items[k].desc.columns|), cond)
                 && FromHits(items, where, cands, k, partial, cands(k, partial), cond) == []
            else Emit(items, where, cands, k, partial, cond)
                 == FromHits(items, where, cands, k, partial, cands(k, partial), cond)
  {
  }

  lemma CandidatesOK<C>(it: FromItem<C>, step: Step<C>, src: Source, partial: Row, norm: Normaliser, cond: CondFn<C>)
    requires it == step.item && ValidSource(it.desc, it.virtual, src)
    ensures forall i ::
      0 <= i < |Candidates(step, src, partial, norm, cond)| ==>
        RowOK(it.desc, Candidates(step, src, partial, norm, cond)[i])
  {
    var cands := Candidates(step, src, partial, norm, cond);
    CandidatesAre(step, src, partial, norm, cond);
    FilterMembers(src.rows, r => Offers(step, partial, r, norm, cond));
    forall i | 0 <= i < |cands| ensures RowOK(it.desc, cands[i]) {
      assert cands[i] in multiset(cands);
      assert cands[i] in Filter(src.rows, r => Offers(step, partial, r, norm, cond));
    }
  }

  lemma FromHitsStep<C>(items: seq<FromItem<C>>, where: BoolExpr<C>, cands: CandFn, k: nat, partial: Row,
                        rows: seq<Row>, cond: CondFn<C>)
    requires k < |items| && rows != []
    ensures FromHits(items, where, cands, k, partial, rows, cond)
         == FromHit(items, where, cands, k, partial, rows[0], cond)
          + FromHits(items, where, cands, k, partial, rows[1..], cond)
    ensures OnHits(rows, items[k].on, partial, cond) != []
       <==> IsTrue(items[k].on, partial + rows[0], cond) || OnHits(rows[1..], items[k].on, partial, cond) != []
  {
    hide Emit;
    var rest := OnHits(rows[1..], items[k].on, partial, cond);
    assert ([rows[0]] + rest)[1..] == rest && [] + rest == rest;
  }

  /** A hash table: each key's rows, in build order. */
  type HashTable = map<seq<Value>, seq<Row>>

  function BucketIn(ht: HashTable, key: seq<Value>): seq<Row> {
    if key in ht then ht[key] else []
  }

  ghost predicate BucketsOf(ht: HashTable, rows: seq<Row>, ords: seq<nat>, norm: Normaliser) {
    forall key :: BucketIn(ht, key) == Bucket(rows, ords, norm, key)
  }

  method BuildHash(rows: seq<Row>, ords: seq<nat>, norm: Normaliser) returns (ht: HashTable)
    ensures BucketsOf(ht, rows, ords, norm)
  {
    ht := map[];
    var i := 0;
    while i < |rows|
      invariant 0 <= i <= |rows|
      invariant BucketsOf(ht, rows[..i], ords, norm)
    {
      HashAdded(ht, rows, i, ords, norm);
      var key := HashKeyOf(rows[i], ords, norm);
      if key.Some? {
        ht := ht[key.value := BucketIn(ht, key.value) + [rows[i]]];
      }
      i := i + 1;
    }
    assert rows[..|rows|] == rows;
  }

  lemma HashAdded(ht: HashTable, rows: seq<Row>, i: nat, ords: seq<nat>, norm: Normaliser)
    requires i < |rows| && BucketsOf(ht, rows[..i], ords, norm)
    ensures var key := HashKeyOf(rows[i], ords, norm);
            BucketsOf(if key.Some? then ht[key.value := BucketIn(ht, key.value) + [rows[i]]] else ht, rows[..i + 1],
                      ords, norm)
  {
    var key := HashKeyOf(rows[i], ords, norm);
    var next := if key.Some? then ht[key.value := BucketIn(ht, key.value) + [rows[i]]] else ht;
    forall k ensures BucketIn(next, k) == Bucket(rows[..i + 1], ords, norm, k) {
      assert BucketIn(ht, k) == Bucket(rows[..i], ords, norm, k);
      BucketSnoc(rows, i, ords, norm, k);
    }
  }

  lemma BucketSnoc(rows: seq<Row>, i: nat, ords: seq<nat>, norm: Normaliser, key: seq<Value>)
    requires i < |rows|
    ensures Bucket(rows[..i + 1], ords, norm, key)
         == Bucket(rows[..i], ords, norm, key) + (if HashKeyOf(rows[i], ords, norm) == Some(key) then [rows[i]] else [])
  {
    assert rows[..i + 1] == rows[..i] + [rows[i]];
    FilterConcat(rows[..i], [rows[i]], r => HashKeyOf(r, ords, norm) == Some(key));
    FilterOne(rows[i], r => HashKeyOf(r, ords, norm) == Some(key));
  }

  lemma FilterOne<T>(x: T, p: T -> bool)
    ensures Filter([x], p) == if p(x) then [x] else []
  {
    assert [x][1..] == [];
    assert Filter([x][1..], p) == [];
  }

  /** Step k scans item k's table, and its templates look back at earlier tables. */
  ghost predicate StepOK<C>(items: seq<FromItem<C>>, fp: FromPlan<C>, data: seq<Source>, k: nat) {
    k < |items| && k < |fp.steps| && k < |data| ==>
      && fp.steps[k].item == items[k]
      && ValidSource(items[k].desc, items[k].virtual, data[k])
      && forall t :: t in fp.steps[k].tmpls ==> t.src < Width(items[..k])
  }

  /** The cached plan of a step is the fresh plan for some pushed predicates, which
      differ from what the step pushes now at most in literals of the same kinds. */
  ghost predicate PlanCached<C>(items: seq<FromItem<C>>, fp: FromPlan<C>, k: nat, p: Plan<C>, ps: seq<Pred>) {
    && k < |items| && k < |fp.steps|
    && p == PlanOf(items[k].desc, Combine<C>(ps), [])
    && forall ws :: BoundOK(items, k, fp.steps[k], ws) ==> SamePreds(ps, PushPreds(fp.steps[k], ws))
  }

  ghost predicate PlansCached<C>(items: seq<FromItem<C>>, fp: FromPlan<C>, plans: map<nat, Plan<C>>,
                                 made: map<nat, seq<Pred>>)
  {
    forall k :: k in plans ==> k in made && PlanCached(items, fp, k, plans[k], made[k])
  }

  /** A plan made for the current values is cached as it should be. */
  lemma FreshCached<C>(items: seq<FromItem<C>>, fp: FromPlan<C>, k: nat, vals: seq<Value>)
    requires k < |items| && k < |fp.steps| && BoundOK(items, k, fp.steps[k], vals)
    ensures PlanCached(items, fp, k, PlanOf(items[k].desc, PushExpr(fp.steps[k], vals), []),
                       PushPreds(fp.steps[k], vals))
  {
    forall ws | BoundOK(items, k, fp.steps[k], ws)
      ensures SamePreds(PushPreds(fp.steps[k], vals), PushPreds(fp.steps[k], ws))
    {
      PushShape(items, k, fp.steps[k], vals, ws);
    }
  }

  /** A cached plan, rebound, is the plan for the current values. */
  lemma CachedRebinds<C>(items: seq<FromItem<C>>, fp: FromPlan<C>, k: nat, p: Plan<C>, ps: seq<Pred>, vals: seq<Value>)
    requires PlanCached(items, fp, k, p, ps) && BoundOK(items, k, fp.steps[k], vals)
    ensures Rebindable(p)
    ensures Rebound(p, PushExpr(fp.steps[k], vals)) == PlanOf(items[k].desc, PushExpr(fp.steps[k], vals), [])
  {
    CombineShape<C>(ps, PushPreds(fp.steps[k], vals));
    RebindIsReplan(items[k].desc, Combine<C>(ps), PushExpr(fp.steps[k], vals), []);
  }

  ghost predicate HashBuilt<C>(fp: FromPlan<C>, data: seq<Source>, norm: Normaliser, cond: CondFn<C>, k: nat,
                               ht: HashTable)
  {
    k < |fp.steps| && k < |data|
    && BucketsOf(ht, BuildRows(fp.steps[k], data[k], cond), InnerOrds(fp.steps[k].hashEq), norm)
  }

  ghost predicate CandAt<C>(cands: CandFn, fp: FromPlan<C>, data: seq<Source>, norm: Normaliser, cond: CondFn<C>,
                            k: nat, partial: Row)
  {
    k < |fp.steps| && k < |data| ==> cands(k, partial) == Candidates(fp.steps[k], data[k], partial, norm, cond)
  }

  class JoinRun<C> {
    const items: seq<FromItem<C>>
    const fp: FromPlan<C>
    const data: seq<Source>
    const norm: Normaliser
    const cond: CondFn<C>
    const limit: Option<nat>
    ghost const cands: CandFn

    var out: seq<Row>
    var stop: bool
    var plans: map<nat, Plan<C>>        // cached inner-scan plans, by step
    ghost var made: map<nat, seq<Pred>> // the predicates each plan was made for
    var hashes: map<nat, HashTable>     // build tables of the hash steps

    ghost predicate Shape() {
      && |items| == |fp.steps| == |data|
      && (forall k: nat {:trigger StepOK(items, fp, data, k)} :: StepOK(items, fp, data, k))
      && (forall k: nat, partial: Row {:trigger CandAt(cands, fp, data, norm, cond, k, partial)} ::
           CandAt(cands, fp, data, norm, cond, k, partial))
    }

    ghost predicate Valid()
      reads this
    {
      && Shape()
      && PlansCached(items, fp, plans, made)
      && (forall k :: k in hashes ==> HashBuilt(fp, data, norm, cond, k, hashes[k]))
    }

    constructor (items: seq<FromItem<C>>, fp: FromPlan<C>, data: seq<Source>, norm: Normaliser, cond: CondFn<C>,
                 limit: Option<nat>, plans: map<nat, Plan<C>>, ghost made: map<nat, seq<Pred>>)
      requires |items| == |fp.steps| == |data|
      requires forall k: nat {:trigger StepOK(items, fp, data, k)} :: StepOK(items, fp, data, k)
      requires PlansCached(items, fp, plans, made)
      ensures Valid() && out == [] && !stop && cands == CandsOf(fp, data, norm, cond)
      ensures this.items == items && this.fp == fp && this.data == data && this.norm == norm && this.cond == cond
      ensures this.limit == limit
    {
      this.items, this.fp, this.data, this.norm, this.cond, this.limit := items, fp, data, norm, cond, limit;
      cands := CandsOf(fp, data, norm, cond);
      out, stop, hashes := [], false, map[];
      this.plans, this.made := plans, made;
    }

    /** The step's inner-scan plan for the current outer row: planned on first use,
        then rebound. It is always the plan fresh planning would give. */
    method RowPlan(k: nat, vals: seq<Value>) returns (p: Plan<C>)
      requires Valid() && k < |items| && BoundOK(items, k, fp.steps[k], vals)
      modifies this`plans, this`made
      ensures Valid()
      ensures p == PlanOf(items[k].desc, PushExpr(fp.steps[k], vals), [])
    {
      hide PlanOf, PushExpr, PushPreds, Rebound;
      assert StepOK(items, fp, data, k);
      var expr := PushExpr(fp.steps[k], vals);
      if k in plans {
        CachedRebinds(items, fp, k, plans[k], made[k], vals);
        var live := new LivePlan<C>(plans[k]);
        live.Rebind(expr);
        p := live.plan;
      } else {
        p := PlanScanOrdered(items[k].desc, expr, []);
      }
      FreshCached(items, fp, k, vals);
      plans := plans[k := p];
      made := made[k := PushPreds(fp.steps[k], vals)];
    }

    /** The hash table of step k, built on first use. */
    method HashFor(k: nat) returns (ht: HashTable)
      requires Valid() && k < |items|
      modifies this`hashes
      ensures Valid()
      ensures BucketsOf(ht, BuildRows(fp.steps[k], data[k], cond), InnerOrds(fp.steps[k].hashEq), norm)
    {
      if k in hashes {
        assert HashBuilt(fp, data, norm, cond, k, hashes[k]);
        return hashes[k];
      }
      assert StepOK(items, fp, data, k);
      var step := fp.steps[k];
      var rows: seq<Row>;
      if items[k].virtual {
        rows := data[k].rows;
      } else {
        var p := PlanScanOrdered(items[k].desc, Combine<C>(step.statics), []);
        PlanJustified(items[k].desc, Combine<C>(step.statics), []);
        rows := ScanPlan(items[k].desc, data[k].paths[p.path], p, cond, None);
      }
      ht := BuildHash(rows, InnerOrds(step.hashEq), norm);
      hashes := hashes[k := ht];
      assert HashBuilt(fp, data, norm, cond, k, ht);
    }

    /** The candidate rows of step k for an outer row. */
    method StepRows(k: nat, partial: Row) returns (rows: seq<Row>)
      requires Valid() && k < |items| && PartialOK(items, k, partial)
      modifies this`plans, this`made, this`hashes
      ensures Valid()
      ensures rows == cands(k, partial)
      ensures forall i :: 0 <= i < |rows| ==> RowOK(items[k].desc, rows[i])
    {
      assert StepOK(items, fp, data, k);
      assert CandAt(cands, fp, data, norm, cond, k, partial);
      CandidatesOK(items[k], fp.steps[k], data[k], partial, norm, cond);
      var step := fp.steps[k];
      if step.hashEq != [] {
        var ht := HashFor(k);
        var probe := HashKeyOf(partial, SrcOrds(step.hashEq), norm);
        if probe.None? {
          return [];
        }
        return BucketIn(ht, probe.value);
      }
      if SkipStep(step, partial) {
        return [];
      }
      if items[k].virtual {
        return data[k].rows;
      }
      var vals := Sources(step.tmpls, partial);
      forall i | 0 <= i < |vals|
        ensures step.tmpls[i].src < Width(items[..k]) && vals[i] != Null
        ensures Fits(vals[i], Types(items[..k])[step.tmpls[i].src])
      {
        assert step.tmpls[i] in step.tmpls;
        assert vals[i] in vals;
      }
      var p := RowPlan(k, vals);
      PlanJustified(items[k].desc, PushExpr(step, vals), []);
      rows := ScanPlan(items[k].desc, data[k].paths[p.path], p, cond, None);
    }

    /** Runs the chain from step k for one outer row. */
    method Rec(k: nat, partial: Row)
      requires Valid() && k <= |items| && PartialOK(items, k, partial)
      requires !stop && Room(out, limit)
      modifies this
      ensures Valid()
      ensures (out, stop) == After(old(out), Emit(items, fp.where, cands, k, partial, cond), limit)
      decreases |items| - k, 2
    {
      assert out + [] == out;
      if k == |fp.steps| {
        if IsTrue(fp.where, partial, cond) {
          out := out + [partial];
          assert out[..|out|] == out;
          if limit.Some? && |out| >= limit.value {
            stop := true;
          }
        }
        return;
      }
      assert StepOK(items, fp, data, k);
      var rows := StepRows(k, partial);
      EmitStep(items, fp.where, cands, k, partial, cond);
      var matched := StepNext(k, partial, rows);
      if stop {
        return;
      }
      if items[k].join == Left && !matched {
        var nulls := Nulls(|items[k].desc.columns|);
        ExtendOK(items, k, partial, nulls);
        Rec(k + 1, partial + nulls);
      }
    }

    /** Extends the outer row with each candidate in turn; reports whether any matched. */
    method StepNext(k: nat, partial: Row, rows: seq<Row>) returns (matched: bool)
      requires Valid() && k < |items| && PartialOK(items, k, partial)
      requires !stop && Room(out, limit)
      requires forall i :: 0 <= i < |rows| ==> RowOK(items[k].desc, rows[i])
      modifies this
      ensures Valid()
      ensures (out, stop) == After(old(out), FromHits(items, fp.where, cands, k, partial, rows, cond), limit)
      ensures !stop ==> (matched <==> OnHits(rows, items[k].on, partial, cond) != [])
      decreases |items| - k, 1
    {
      assert StepOK(items, fp, data, k);
      matched := false;
      var i := 0;
      while i < |rows|
        invariant 0 <= i <= |rows|
        invariant Valid() && !stop && Room(out, limit)
        invariant After(old(out), FromHits(items, fp.where, cands, k, partial, rows, cond), limit)
               == After(out, FromHits(items, fp.where, cands, k, partial, rows[i..], cond), limit)
        invariant OnHits(rows, items[k].on, partial, cond) != [] <==>
          matched || OnHits(rows[i..], items[k].on, partial, cond) != []
      {
        ghost var before := out;
        FromHitsStep(items, fp.where, cands, k, partial, rows[i..], cond);
        assert rows[i..][0] == rows[i] && rows[i..][1..] == rows[i + 1..];
        var hit := TryRow(k, partial, rows[i]);
        matched := matched || hit;
        AfterThen(before, FromHit(items, fp.where, cands, k, partial, rows[i], cond),
                  FromHits(items, fp.where, cands, k, partial, rows[i + 1..], cond), limit);
        if stop {
          return;
        }
        i := i + 1;
      }
      assert rows[|rows|..] == [] && out + [] == out;
    }

    /** One candidate: the step's ON condition, then the rest of the chain. */
    method TryRow(k: nat, partial: Row, r: Row) returns (hit: bool)
      requires Valid() && k < |items| && PartialOK(items, k, partial) && RowOK(items[k].desc, r)
      requires !stop && Room(out, limit)
      modifies this
      ensures Valid()
      ensures hit == IsTrue(items[k].on, partial + r, cond)
      ensures (out, stop) == After(old(out), FromHit(items, fp.where, cands, k, partial, r, cond), limit)
      decreases |items| - k, 0
    {
      assert StepOK(items, fp, data, k);
      assert out + [] == out;
      hit := IsTrue(items[k].on, partial + r, cond);
      if hit {
        ExtendOK(items, k, partial, r);
        Rec(k + 1, partial + r);
      }
    }
  }

  lemma TemplatesLookBack(ps: seq<Pred>, off: nat, width: nat)
    ensures forall t :: t in Templates(ps, off, width) ==> t.src < off
  {
  }

  /** Preparation of a FROM clause, step by step. */
  method PrepareFrom<C>(items: seq<FromItem<C>>, where: BoolExpr<C>) returns (fp: FromPlan<C>)
    ensures fp == Prepare(items, where)
  {
    hide PrepareStep;
    var steps: seq<Step<C>> := [];
    var k := 0;
    while k < |items|
      invariant 0 <= k <= |items|
      invariant steps == Prepare(items, where).steps[..k]
    {
      var step := PrepareOne(items, where, k);
      steps := steps + [step];
      k := k + 1;
    }
    fp := FromPlan(steps, where);
  }

  /** A conjunct gives a step a static predicate, a template, or nothing. */
  lemma AvailStep(avail: seq<Pred>, i: nat, off: nat, width: nat)
    requires i < |avail|
    ensures var s, t := StaticOf(avail[i], off, width), TemplateOf(avail[i], off, width);
            && (s.None? || t.None?)
            && Statics(avail[i..], off, width)
                 == (if s.Some? then [s.value] else []) + Statics(avail[i + 1..], off, width)
            && Templates(avail[i..], off, width)
                 == (if t.Some? then [t.value] else []) + Templates(avail[i + 1..], off, width)
  {
    assert avail[i..][0] == avail[i] && avail[i..][1..] == avail[i + 1..];
  }

  method PrepareOne<C>(items: seq<FromItem<C>>, where: BoolExpr<C>, k: nat) returns (step: Step<C>)
    requires k < |items|
    ensures step == PrepareStep(items, where, k)
  {
    hide Statics, Templates, ChooseHash;
    var it := items[k];
    var off, width := Width(items[..k]), |it.desc.columns|;
    var statics, tmpls := SplitConjuncts(Avail(it, where), off, width);
    step := Step(it, off, statics, tmpls, if k == 0 then [] else ChooseHash(items, it, tmpls, 0, []));
  }

  /** The conjuncts a step can use, as static predicates and as templates. */
  method SplitConjuncts(avail: seq<Pred>, off: nat, width: nat) returns (statics: seq<Pred>, tmpls: seq<Template>)
    ensures statics == Statics(avail, off, width) && tmpls == Templates(avail, off, width)
  {
    statics, tmpls := [], [];
    var i := 0;
    while i < |avail|
      invariant 0 <= i <= |avail|
      invariant statics + Statics(avail[i..], off, width) == Statics(avail, off, width)
      invariant tmpls + Templates(avail[i..], off, width) == Templates(avail, off, width)
    {
      AvailStep(avail, i, off, width);
      var s, t := StaticOf(avail[i], off, width), TemplateOf(avail[i], off, width);
      if s.Some? {
        statics := statics + [s.value];
      } else if t.Some? {
        tmpls := tmpls + [t.value];
      }
      i := i + 1;
    }
    assert avail[|avail|..] == [] && statics + [] == statics && tmpls + [] == tmpls;
  }

  /** Runs a prepared chain, starting from plans cached by earlier runs of it. */
  method RunPlan<C>(items: seq<FromItem<C>>, fp: FromPlan<C>, data: seq<Source>, norm: Normaliser, cond: CondFn<C>,
                    limit: Option<nat>, plans: map<nat, Plan<C>>, ghost made: map<nat, seq<Pred>>)
    returns (rows: seq<Row>, plans': map<nat, Plan<C>>, ghost made': map<nat, seq<Pred>>)
    requires |items| == |fp.steps| == |data|
    requires forall k: nat {:trigger StepOK(items, fp, data, k)} :: StepOK(items, fp, data, k)
    requires PlansCached(items, fp, plans, made)
    ensures rows == After([], EmitAll(items, fp, data, norm, cond), limit).0
    ensures PlansCached(items, fp, plans', made')
  {
    var run := new JoinRun<C>(items, fp, data, norm, cond, limit, plans, made);
    assert items[..0] == [];
    run.Rec(0, []);
    rows, plans', made' := run.out, run.plans, run.made;
  }

  /** runJoin: without a limit it yields exactly the multiset of the declarative
      meaning; with one, a prefix of what it would have yielded. */
  method RunJoin<C>(items: seq<FromItem<C>>, data: seq<Source>, where: BoolExpr<C>, norm: Normaliser, cond: CondFn<C>,
                    limit: Option<nat>)
    returns (rows: seq<Row>)
    requires |items| == |data| && Respects(norm)
    requires forall k :: 0 <= k < |items| ==> ValidSource(items[k].desc, items[k].virtual, data[k])
    ensures limit.None? ==> multiset(rows) == multiset(Meaning(items, data, where, cond))
    ensures rows == After([], EmitAll(items, Prepare(items, where), data, norm, cond), limit).0
  {
    var fp := PrepareFrom(items, where);
    forall k: nat ensures StepOK(items, fp, data, k) {
      if k < |items| {
        TemplatesLookBack(Avail(items[k], where), Width(items[..k]), |items[k].desc.columns|);
      }
    }
    var plans;
    ghost var made;
    rows, plans, made := RunPlan(items, fp, data, norm, cond, limit, map[], map[]);
    PreparedJoinMeans(items, data, where, norm, cond);
    assert [] + EmitAll(items, fp, data, norm, cond) == EmitAll(items, fp, data, norm, cond);
  }
}
