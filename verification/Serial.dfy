/** Concurrent transactions: each runs on a snapshot plus its own writes and commits
    only if no commit since wrote a key it wrote or (when serializable) marked. */
module Serial {
  import opened Values
  import opened Schema
  import opened Store
  import opened Table
  import opened TableProof
  import opened ReadSet

  /** What operations do; the engine's are ReadSet.Exec. */
  type Engine = (KV, Op) -> Effect

  /** The next operation, as a function of the results so far; None ends it. */
  type Program = seq<Res> -> Option<Op>

  /** A transaction: a program run for a number of steps on the snapshot after
      `start` commits. */
  datatype Txn = Txn(next: Program, steps: nat, serializable: bool, start: nat)

  /** What a transaction has seen, staged and marked. */
  datatype Trace = Trace(results: seq<Res>, writes: Writes, marks: Marks)

  ghost function Step(ex: Engine, base: KV, t: Trace, op: Op): Trace {
    var e := ex(Apply(base, t.writes), op);
    Trace(t.results + [e.res], t.writes + e.writes,
          Marks(t.marks.keys + e.marks.keys, t.marks.ranges + e.marks.ranges))
  }

  /** The trace of the first n steps on a snapshot. */
  ghost function Run(ex: Engine, base: KV, next: Program, n: nat): Trace {
    if n == 0 then Trace([], map[], Marks({}, {}))
    else
      var t := Run(ex, base, next, n - 1);
      if next(t.results).None? then t else Step(ex, base, t, next(t.results).value)
  }

  // --- a run is determined by what it marked and wrote ---

  /** Marks and writes determine an operation, unless it failed on a probe. */
  ghost predicate Determined(ex: Engine, v: KV, u: KV, op: Op) {
    AgreeOn(v, u, ex(v, op).marks, ex(v, op).writes) && !ProbeFailed(ex(v, op).res) ==> ex(u, op) == ex(v, op)
  }

  ghost predicate NoProbeFailed(t: Trace) {
    forall i :: 0 <= i < |t.results| ==> !ProbeFailed(t.results[i])
  }

  /** Staged writes keep views in agreement. */
  lemma ViewsAgree(v: KV, u: KV, w: Writes, k: Key)
    requires Agree(v, u, k)
    ensures Agree(Apply(v, w), Apply(u, w), k)
  {
    ApplyAt(v, w, k);
    ApplyAt(u, w, k);
  }

  /** Agreement at the end of a step is agreement before it, and for the operation. */
  lemma StepAgrees(ex: Engine, v: KV, u: KV, t: Trace, op: Op)
    requires AgreeOn(v, u, Step(ex, v, t, op).marks, Step(ex, v, t, op).writes)
    ensures AgreeOn(v, u, t.marks, t.writes)
    ensures var a, b := Apply(v, t.writes), Apply(u, t.writes); AgreeOn(a, b, ex(a, op).marks, ex(a, op).writes)
  {
    var a, b := Apply(v, t.writes), Apply(u, t.writes);
    var e, s := ex(a, op), Step(ex, v, t, op);
    forall k | k in e.marks.keys || k in e.writes ensures Agree(a, b, k) {
      assert k in s.marks.keys || k in s.writes;
      ViewsAgree(v, u, t.writes, k);
    }
    forall r, k | r in e.marks.ranges && InRange(k, r) ensures Agree(a, b, k) {
      assert r in s.marks.ranges;
      ViewsAgree(v, u, t.writes, k);
    }
  }

  lemma StepClean(ex: Engine, v: KV, t: Trace, op: Op)
    requires NoProbeFailed(Step(ex, v, t, op))
    ensures NoProbeFailed(t) && !ProbeFailed(ex(Apply(v, t.writes), op).res)
  {
    var s := Step(ex, v, t, op);
    forall i | 0 <= i < |t.results| ensures !ProbeFailed(t.results[i]) {
      assert t.results[i] == s.results[i];
    }
    assert s.results[|t.results|] == ex(Apply(v, t.writes), op).res;
  }

  lemma {:induction false} RunSame(ex: Engine, v: KV, u: KV, next: Program, n: nat)
    requires forall a, b, op :: Determined(ex, a, b, op)
    requires AgreeOn(v, u, Run(ex, v, next, n).marks, Run(ex, v, next, n).writes) && NoProbeFailed(Run(ex, v, next, n))
    ensures Run(ex, u, next, n) == Run(ex, v, next, n)
  {
    if n > 0 {
      var t := Run(ex, v, next, n - 1);
      if next(t.results).Some? {
        var op := next(t.results).value;
        StepAgrees(ex, v, u, t, op);
        StepClean(ex, v, t, op);
        assert Determined(ex, Apply(v, t.writes), Apply(u, t.writes), op);
      }
      RunSame(ex, v, u, next, n - 1);
    }
  }

  // --- histories ---

  /** The keys a trace depends on: those it wrote and, when serializable, marked. */
  ghost predicate Depends(t: Trace, serializable: bool, k: Key) {
    k in t.writes || (serializable && (k in t.marks.keys || exists r :: r in t.marks.ranges && InRange(k, r)))
  }

  ghost predicate Conflicts(w: Writes, t: Trace, serializable: bool) {
    exists k :: k in w && Depends(t, serializable, k)
  }

  predicate Starts(h: seq<Txn>) {
    forall j :: 0 <= j < |h| ==> h[j].start <= j
  }

  /** The store after the first i commits. */
  ghost function StoreAt(ex: Engine, s0: KV, h: seq<Txn>, i: nat): KV
    requires i <= |h| && Starts(h)
    decreases i, 0
  {
    if i == 0 then s0 else Apply(StoreAt(ex, s0, h, i - 1), TraceAt(ex, s0, h, i - 1).writes)
  }

  /** The trace of transaction i, on the snapshot it started from. */
  ghost function TraceAt(ex: Engine, s0: KV, h: seq<Txn>, i: nat): Trace
    requires i < |h| && Starts(h)
    decreases i, 1
  {
    Run(ex, StoreAt(ex, s0, h, h[i].start), h[i].next, h[i].steps)
  }

  /** A history of commits that validation admits. */
  ghost predicate Admitted(ex: Engine, s0: KV, h: seq<Txn>) {
    && Starts(h)
    && (forall i, j :: 0 <= i < |h| && h[i].start <= j < i ==>
          !Conflicts(TraceAt(ex, s0, h, j).writes, TraceAt(ex, s0, h, i), h[i].serializable))
  }

  /** The store after running the first i transactions one after another. */
  ghost function SerialStore(ex: Engine, s0: KV, h: seq<Txn>, i: nat): KV
    requires i <= |h|
  {
    if i == 0 then s0
    else
      var s := SerialStore(ex, s0, h, i - 1);
      Apply(s, Run(ex, s, h[i - 1].next, h[i - 1].steps).writes)
  }

  /** Between its snapshot and its commit, no key a transaction depends on changed. */
  lemma {:induction false} Undisturbed(ex: Engine, s0: KV, h: seq<Txn>, i: nat, j: nat, k: Key)
    requires Admitted(ex, s0, h) && i < |h| && h[i].start <= j <= i
    requires Depends(TraceAt(ex, s0, h, i), h[i].serializable, k)
    ensures Agree(StoreAt(ex, s0, h, h[i].start), StoreAt(ex, s0, h, j), k)
    decreases j
  {
    if h[i].start < j {
      Undisturbed(ex, s0, h, i, j - 1, k);
      assert !Conflicts(TraceAt(ex, s0, h, j - 1).writes, TraceAt(ex, s0, h, i), h[i].serializable);
      ApplyAt(StoreAt(ex, s0, h, j - 1), TraceAt(ex, s0, h, j - 1).writes, k);
    }
  }

  /** Every transaction asked for serializability, and none went on past a failed
      uniqueness probe. */
  ghost predicate AllClean(ex: Engine, s0: KV, h: seq<Txn>)
    requires Starts(h)
  {
    forall j :: 0 <= j < |h| ==> h[j].serializable && NoProbeFailed(TraceAt(ex, s0, h, j))
  }

  /** A serializable transaction did what it would do alone at its commit point. */
  lemma RunsAtCommit(ex: Engine, s0: KV, h: seq<Txn>, i: nat)
    requires forall a, b, op :: Determined(ex, a, b, op)
    requires Admitted(ex, s0, h) && i < |h| && AllClean(ex, s0, h)
    ensures TraceAt(ex, s0, h, i) == Run(ex, StoreAt(ex, s0, h, i), h[i].next, h[i].steps)
  {
    var t := TraceAt(ex, s0, h, i);
    var v, u := StoreAt(ex, s0, h, h[i].start), StoreAt(ex, s0, h, i);
    forall k | Depends(t, true, k) ensures Agree(v, u, k) {
      Undisturbed(ex, s0, h, i, i, k);
    }
    assert forall k :: k in t.marks.keys || k in t.writes ==> Depends(t, true, k);
    assert forall r, k :: r in t.marks.ranges && InRange(k, r) ==> Depends(t, true, k);
    RunSame(ex, v, u, h[i].next, h[i].steps);
  }

  /** Commit i left the store as running its transaction there would have. */
  ghost predicate SerialCommit(ex: Engine, s0: KV, h: seq<Txn>, i: nat)
    requires i < |h| && Starts(h)
  {
    var s := StoreAt(ex, s0, h, i);
    StoreAt(ex, s0, h, i + 1) == Apply(s, Run(ex, s, h[i].next, h[i].steps).writes)
  }

  lemma CommitsSerially(ex: Engine, s0: KV, h: seq<Txn>, i: nat)
    requires forall a, b, op :: Determined(ex, a, b, op)
    requires Admitted(ex, s0, h) && i < |h| && AllClean(ex, s0, h)
    ensures SerialCommit(ex, s0, h, i)
  {
    RunsAtCommit(ex, s0, h, i);
  }

  lemma {:induction false} SerialHistory(ex: Engine, s0: KV, h: seq<Txn>, i: nat)
    requires i <= |h| && Starts(h)
    requires forall j: nat {:trigger SerialCommit(ex, s0, h, j)} :: j < |h| ==> SerialCommit(ex, s0, h, j)
    ensures StoreAt(ex, s0, h, i) == SerialStore(ex, s0, h, i)
  {
    if i > 0 {
      SerialHistory(ex, s0, h, i - 1);
      assert SerialCommit(ex, s0, h, i - 1);
    }
  }

  /** SERIALIZABLE: an admitted history of the engine's transactions leaves the store,
      and gives each transaction the trace, of running them one after another in
      commit order. */
  lemma Serializable(s0: KV, h: seq<Txn>, i: nat)
    requires Admitted(Exec, s0, h) && i <= |h| && AllClean(Exec, s0, h)
    ensures StoreAt(Exec, s0, h, i) == SerialStore(Exec, s0, h, i)
    ensures i < |h| ==> TraceAt(Exec, s0, h, i) == Run(Exec, SerialStore(Exec, s0, h, i), h[i].next, h[i].steps)
  {
    forall a, b, op ensures Determined(Exec, a, b, op) {
      EngineDetermined(a, b, op);
    }
    forall j: nat | j < |h| ensures SerialCommit(Exec, s0, h, j) {
      CommitsSerially(Exec, s0, h, j);
    }
    SerialHistory(Exec, s0, h, i);
    if i < |h| {
      RunsAtCommit(Exec, s0, h, i);
    }
  }

  lemma EngineDetermined(v: KV, u: KV, op: Op)
    ensures Determined(Exec, v, u, op)
  {
    if AgreeOn(v, u, Exec(v, op).marks, Exec(v, op).writes) && !ProbeFailed(Exec(v, op).res) {
      ExecSame(v, u, op);
    }
  }

  // --- index consistency under either isolation level ---

  ghost predicate Catalog(ts: set<TableDesc>) {
    && (forall d :: d in ts ==> ValidTable(d))
    && (forall d, e :: d in ts && e in ts && d != e ==> d.id != e.id)
  }

  ghost predicate AllConsistent(s: KV, ts: set<TableDesc>) {
    forall d :: d in ts ==> Consistent(s, d)
  }

  ghost predicate Uses(next: Program, ts: set<TableDesc>) {
    forall rs :: next(rs).Some? ==> next(rs).value.d in ts
  }

  /** One operation keeps every table consistent. */
  lemma ExecConsistent(v: KV, ts: set<TableDesc>, op: Op)
    requires Catalog(ts) && AllConsistent(v, ts) && op.d in ts
    ensures AllConsistent(Apply(v, Exec(v, op).writes), ts)
  {
    var w := Exec(v, op).writes;
    ExecOwnTable(v, op);
    forall e | e in ts ensures Consistent(Apply(v, w), e) {
      if e != op.d {
        OtherTablesKept(v, op.d, w, e);
      }
    }
  }

  lemma ExecOwnTable(v: KV, op: Op)
    requires Consistent(v, op.d)
    ensures Consistent(Apply(v, Exec(v, op).writes), op.d)
    ensures forall k :: k in Exec(v, op).writes ==> k.table == op.d.id
  {
    hide RowAt, EntryKey;
    var d := op.d;
    if Exec(v, op).writes == map[] {
      assert Apply(v, map[]) == v;
    } else {
      match op
      case OpInsert(_, vals) =>
        InsertConsistent(v, d, vals);
        EntriesInTable(d, Insert(v, d, vals).result, |d.indexes|);
      case OpUpdate(_, pk, sets) => UpdateOwnTable(v, d, pk, sets);
      case OpDelete(_, pk) => DeleteOwnTable(v, d, pk);
      case _ =>
    }
  }

  lemma UpdateOwnTable(v: KV, d: TableDesc, pk: seq<Value>, sets: map<nat, Value>)
    requires Consistent(v, d) && Update(v, d, pk, sets).Done? && Update(v, d, pk, sets).writes != map[]
    ensures Consistent(Apply(v, Update(v, d, pk, sets).writes), d)
    ensures forall k :: k in Update(v, d, pk, sets).writes ==> k.table == d.id
  {
    hide RowAt, SetRow, MovedIn, EntryKey;
    UpdateConsistent(v, d, pk, sets);
    var was := RowAt(v, d, KeyOf(d, pk).value);
    MovesInTable(d, was, SetRow(d, was, sets).value);
  }

  lemma DeleteOwnTable(v: KV, d: TableDesc, pk: seq<Value>)
    requires Consistent(v, d) && Delete(v, d, pk).Done? && Delete(v, d, pk).writes != map[]
    ensures Consistent(Apply(v, Delete(v, d, pk).writes), d)
    ensures forall k :: k in Delete(v, d, pk).writes ==> k.table == d.id
  {
    DeleteConsistent(v, d, pk);
    EntriesInTable(d, RowAt(v, d, KeyOf(d, pk).value), |d.indexes|);
  }

  lemma ApplyTwice(s: KV, w: Writes, x: Writes)
    ensures Apply(s, w + x) == Apply(Apply(s, w), x)
  {
  }

  ghost predicate AgreeWritten(a: KV, b: KV, w: Writes) {
    forall k :: k in w ==> Agree(a, b, k)
  }

  /** An operation's writes keep a property of the view it ran on, and of any view
      that agrees with it on what it wrote. */
  ghost predicate Keeps(ex: Engine, P: KV -> bool, ts: set<TableDesc>, a: KV, b: KV, op: Op) {
    P(a) && P(b) && op.d in ts && AgreeWritten(a, b, ex(a, op).writes) ==>
      P(Apply(a, ex(a, op).writes)) && P(Apply(b, ex(a, op).writes))
  }

  lemma StepKeeps(ex: Engine, P: KV -> bool, ts: set<TableDesc>, v: KV, u: KV, t: Trace, op: Op)
    requires P(Apply(v, t.writes)) && P(Apply(u, t.writes)) && op.d in ts
    requires Keeps(ex, P, ts, Apply(v, t.writes), Apply(u, t.writes), op)
    requires forall k :: k in Step(ex, v, t, op).writes ==> Agree(v, u, k)
    ensures P(Apply(v, Step(ex, v, t, op).writes)) && P(Apply(u, Step(ex, v, t, op).writes))
  {
    var a, b := Apply(v, t.writes), Apply(u, t.writes);
    forall k | k in ex(a, op).writes ensures Agree(a, b, k) {
      assert k in Step(ex, v, t, op).writes;
      ViewsAgree(v, u, t.writes, k);
    }
    ApplyTwice(v, t.writes, ex(a, op).writes);
    ApplyTwice(u, t.writes, ex(a, op).writes);
  }

  /** A run's writes, applied to any store that agrees with its snapshot on the keys
      it wrote, keep what every operation keeps: stale reads do no harm. */
  lemma {:induction false} RunKeeps(ex: Engine, P: KV -> bool, ts: set<TableDesc>, v: KV, u: KV, next: Program, n: nat)
    requires P(v) && P(u) && Uses(next, ts)
    requires forall a, b, op :: Keeps(ex, P, ts, a, b, op)
    requires forall k :: k in Run(ex, v, next, n).writes ==> Agree(v, u, k)
    ensures P(Apply(v, Run(ex, v, next, n).writes)) && P(Apply(u, Run(ex, v, next, n).writes))
  {
    if n == 0 {
      assert Apply(v, map[]) == v && Apply(u, map[]) == u;
    } else {
      var t := Run(ex, v, next, n - 1);
      if next(t.results).Some? {
        var op := next(t.results).value;
        assert t.writes.Keys <= Step(ex, v, t, op).writes.Keys;
        RunKeeps(ex, P, ts, v, u, next, n - 1);
        assert Keeps(ex, P, ts, Apply(v, t.writes), Apply(u, t.writes), op);
        StepKeeps(ex, P, ts, v, u, t, op);
      } else {
        RunKeeps(ex, P, ts, v, u, next, n - 1);
      }
    }
  }

  lemma {:induction false} HistoryKeeps(ex: Engine, P: KV -> bool, ts: set<TableDesc>, s0: KV, h: seq<Txn>, i: nat)
    requires Admitted(ex, s0, h) && i <= |h| && P(s0)
    requires forall a, b, op :: Keeps(ex, P, ts, a, b, op)
    requires forall j :: 0 <= j < |h| ==> Uses(h[j].next, ts)
    ensures P(StoreAt(ex, s0, h, i))
    decreases i
  {
    hide Agree, Keeps, Uses, Run;
    if i > 0 {
      var t := h[i - 1];
      HistoryKeeps(ex, P, ts, s0, h, i - 1);
      HistoryKeeps(ex, P, ts, s0, h, t.start);
      var v, u := StoreAt(ex, s0, h, t.start), StoreAt(ex, s0, h, i - 1);
      var w := TraceAt(ex, s0, h, i - 1).writes;
      forall k | k in w ensures Agree(v, u, k) {
        Undisturbed(ex, s0, h, i - 1, i - 1, k);
      }
      RunKeeps(ex, P, ts, v, u, t.next, t.steps);
    }
  }

  /** Every store a history passes through has complete, exact indexes, whatever mix
      of isolation levels its transactions chose. */
  lemma HistoryConsistent(s0: KV, h: seq<Txn>, ts: set<TableDesc>, i: nat)
    requires Admitted(Exec, s0, h) && i <= |h| && Catalog(ts) && AllConsistent(s0, ts)
    requires forall j :: 0 <= j < |h| ==> Uses(h[j].next, ts)
    ensures AllConsistent(StoreAt(Exec, s0, h, i), ts)
  {
    var P := s => AllConsistent(s, ts);
    forall a, b, op ensures Keeps(Exec, P, ts, a, b, op) {
      if P(a) && P(b) && op.d in ts && AgreeWritten(a, b, Exec(a, op).writes) {
        EngineKeeps(a, b, ts, op);
      }
    }
    HistoryKeeps(Exec, P, ts, s0, h, i);
  }

  lemma EngineKeeps(a: KV, b: KV, ts: set<TableDesc>, op: Op)
    requires Catalog(ts) && op.d in ts && AllConsistent(a, ts) && AllConsistent(b, ts)
    requires AgreeWritten(a, b, Exec(a, op).writes)
    ensures AllConsistent(Apply(a, Exec(a, op).writes), ts) && AllConsistent(Apply(b, Exec(a, op).writes), ts)
  {
    ExecConsistent(a, ts, op);
    if Exec(a, op).writes == map[] {
      assert Apply(b, map[]) == b;
    } else {
      WritesSame(a, b, op);
      ExecConsistent(b, ts, op);
    }
  }
}
