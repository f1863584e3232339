/** What a session publishes, for every script of statements. */
module SessionProof {
  import opened Values
  import opened Session

  // --- the three stacks ---

  /** The session's, the store's and the write counter's savepoints are the same ones. */
  predicate Aligned(b: Block) {
    && |b.saves| == |b.stack| == |b.counts|
    && (forall i :: 0 <= i < |b.saves| ==> b.saves[i].pos == b.stack[i].pos == b.counts[i].pos)
    && (forall i, j :: 0 <= i < j < |b.saves| ==> b.saves[i].pos < b.saves[j].pos)
  }

  predicate Holds(b: Block, q: nat) {
    exists i :: 0 <= i < |b.saves| && b.saves[i].pos == q
  }

  /** Each savepoint is a SAVEPOINT statement's, with what was kept and written there. */
  ghost predicate StackTied(l: Log, b: Block, n: nat) {
    && n <= |l.es| && Aligned(b)
    && (forall i :: 0 <= i < |b.saves| ==> SaveTied(l, b.start, b.saves[i], b.stack[i], b.counts[i], n))
  }

  ghost predicate SaveTied(l: Log, start: nat, save: Save, mark: Mark, count: Count, n: nat)
    requires n <= |l.es|
  {
    && save.pos < n && l.es[save.pos] == Savepoint(save.name)
    && mark.pos <= n && mark.staged == Kept(l, start, mark.pos, mark.pos)
    && count.writes == RowsOf(l.es, mark.staged) && AllOk(l, mark.staged)
  }

  ghost predicate LiveAt(l: Log, b: Block, n: nat, q: nat)
    requires n <= |l.es|
  {
    Alive(l, b.start, q, n) <==> Holds(b, q)
  }

  /** The savepoints the block holds are the live ones. */
  ghost predicate LiveTied(l: Log, b: Block, n: nat)
    requires n <= |l.es|
  {
    forall q: nat {:trigger LiveAt(l, b, n, q)} :: LiveAt(l, b, n, q)
  }

  /** The state of an open block against the script, after n statements. */
  ghost predicate Tied(l: Log, b: Block, n: nat) {
    && n <= |l.es| && b.start < n && StackTied(l, b, n) && LiveTied(l, b, n)
    && StagedTied(l, b.start, b.staged, b.writes, b.aborted, n)
  }

  /** What the block has staged is what the script kept. */
  ghost predicate StagedTied(l: Log, start: nat, staged: seq<nat>, writes: nat, aborted: bool, n: nat)
    requires n <= |l.es|
  {
    staged == Kept(l, start, n, n) && writes == RowsOf(l.es, staged) && (!aborted ==> AllOk(l, staged))
  }

  lemma Assemble(l: Log, b: Block, n: nat)
    requires n <= |l.es| && b.start < n && StackTied(l, b, n) && LiveTied(l, b, n)
    requires StagedTied(l, b.start, b.staged, b.writes, b.aborted, n)
    ensures Tied(l, b, n)
  {
  }

  ghost predicate AllOk(l: Log, ps: seq<nat>) {
    forall i :: 0 <= i < |ps| ==> ps[i] < |l.es| && l.ok(ps[i])
  }

  lemma {:induction false} MarkAt(stack: seq<Mark>, i: nat)
    requires i < |stack| && forall j, k :: 0 <= j < k < |stack| ==> stack[j].pos < stack[k].pos
    ensures MarkOf(stack, stack[i].pos) == Some(i)
  {
    if i < |stack| - 1 {
      MarkAt(stack[..|stack| - 1], i);
    }
  }

  lemma {:induction false} CountAt(counts: seq<Count>, i: nat)
    requires i < |counts| && forall j, k :: 0 <= j < k < |counts| ==> counts[j].pos < counts[k].pos
    ensures CountOf(counts, counts[i].pos) == Some(i)
  {
    if i < |counts| - 1 {
      CountAt(counts[..|counts| - 1], i);
    }
  }

  /** The stacks agree on where a savepoint is. */
  lemma AlignedAt(b: Block, i: nat)
    requires Aligned(b) && i < |b.saves|
    ensures MarkOf(b.stack, b.saves[i].pos) == Some(i) && CountOf(b.counts, b.saves[i].pos) == Some(i)
  {
    MarkAt(b.stack, i);
    CountAt(b.counts, i);
  }

  /** The savepoint the session resolves a name to is the most recent live one. */
  lemma ResolvesTo(l: Log, b: Block, n: nat)
    requires n < |l.es| && Tied(l, b, n) && (l.es[n].Release? || l.es[n].RollbackTo?)
    ensures var i := LastSave(b.saves, l.es[n].name); var t := Target(l, b.start, n);
            if i.None? then t.None? else t == Some(b.saves[i.value].pos)
  {
    var i := LastSave(b.saves, l.es[n].name);
    var f := LiveNamed(l, b.start, n);
    if i.Some? {
      var t := b.saves[i.value].pos;
      assert SaveTied(l, b.start, b.saves[i.value], b.stack[i.value], b.counts[i.value], n);
      NamedAt(l, b, n, t);
      forall q: nat | t < q < n ensures !f(q) {
        NamedAt(l, b, n, q);
        LaterUnnamed(b, l.es[n].name, i.value, q);
      }
      LargestIs(f, n, t);
    } else {
      forall q: nat | q < n ensures !f(q) {
        NamedAt(l, b, n, q);
      }
      LargestNone(f, n);
    }
  }

  lemma LaterUnnamed(b: Block, name: string, i: nat, q: nat)
    requires Aligned(b) && LastSave(b.saves, name) == Some(i) && q > b.saves[i].pos
    ensures !HoldsNamed(b, q, name)
  {
  }

  predicate HoldsNamed(b: Block, q: nat, name: string) {
    exists i :: 0 <= i < |b.saves| && b.saves[i] == Save(name, q)
  }

  lemma NamedAt(l: Log, b: Block, n: nat, q: nat)
    requires n < |l.es| && Tied(l, b, n) && (l.es[n].Release? || l.es[n].RollbackTo?) && q < n
    ensures LiveNamed(l, b.start, n)(q) <==> HoldsNamed(b, q, l.es[n].name)
  {
    assert LiveAt(l, b, n, q);
    if Holds(b, q) {
      var i :| 0 <= i < |b.saves| && b.saves[i].pos == q;
      assert SaveTied(l, b.start, b.saves[i], b.stack[i], b.counts[i], n);
    }
    if HoldsNamed(b, q, l.es[n].name) {
      var i :| 0 <= i < |b.saves| && b.saves[i] == Save(l.es[n].name, q);
      assert SaveTied(l, b.start, b.saves[i], b.stack[i], b.counts[i], n);
    }
  }

  lemma LargestIs(f: nat -> bool, m: nat, t: nat)
    requires t < m && f(t) && forall q: nat :: t < q < m ==> !f(q)
    ensures Largest(f, m) == Some(t)
  {
  }

  lemma LargestNone(f: nat -> bool, m: nat)
    requires forall q: nat :: q < m ==> !f(q)
    ensures Largest(f, m) == None
  {
  }

  // --- what stays kept ---

  lemma {:induction false} KeptSame(l: Log, b: nat, m: nat, n: nat, n2: nat)
    requires m <= n <= |l.es| && m <= n2 <= |l.es|
    requires forall p: nat :: b < p < m ==> (Undone(l, b, p, n) <==> Undone(l, b, p, n2))
    ensures Kept(l, b, m, n) == Kept(l, b, m, n2)
  {
    if m > b + 1 {
      KeptSame(l, b, m - 1, n, n2);
    }
  }

  /** A statement that is not a successful ROLLBACK TO undoes nothing. */
  lemma UndoneNext(l: Log, b: nat, p: nat, n: nat)
    requires n < |l.es| && !(l.ok(n) && l.es[n].RollbackTo?)
    ensures Undone(l, b, p, n + 1) <==> Undone(l, b, p, n)
  {
    AnyNext(Undoes(l, b, p), n);
  }

  lemma AnyNext(f: nat -> bool, n: nat)
    requires !f(n)
    ensures Any(f, n + 1) <==> Any(f, n)
  {
  }

  lemma NotUndoneYet(l: Log, b: nat, n: nat)
    requires n < |l.es|
    ensures !Undone(l, b, n, n + 1)
  {
  }

  /** One more statement that undoes nothing: it is kept exactly if it ran and writes. */
  lemma KeptMore(l: Log, b: nat, n: nat)
    requires b < n < |l.es| && !(l.ok(n) && l.es[n].RollbackTo?)
    ensures Kept(l, b, n + 1, n + 1) ==
            Kept(l, b, n, n) + (if l.es[n].Data? && l.es[n].write && l.ran(n) then [n] else [])
  {
    forall p: nat | b < p < n ensures Undone(l, b, p, n + 1) <==> Undone(l, b, p, n) {
      UndoneNext(l, b, p, n);
    }
    KeptSame(l, b, n, n + 1, n);
    NotUndoneYet(l, b, n);
  }

  /** A live savepoint was not passed by any ROLLBACK TO since. */
  lemma {:induction false} AliveGuards(l: Log, b: nat, t: nat, n: nat, r: nat)
    requires n <= |l.es| && Alive(l, b, t, n) && t < r < n
    ensures !Destroys(l, b, r, t)
    decreases n
  {
    if r < n - 1 {
      AliveGuards(l, b, t, n - 1, r);
    }
  }

  lemma TargetAlive(l: Log, b: nat, n: nat)
    requires n < |l.es| && (l.es[n].Release? || l.es[n].RollbackTo?) && Target(l, b, n).Some?
    ensures var t := Target(l, b, n).value; b < t < n && Alive(l, b, t, n) && l.es[t].Savepoint?
  {
    assert LiveNamed(l, b, n)(Target(l, b, n).value);
  }

  /** Rolling back to t leaves exactly what was kept when t was made. */
  lemma RollbackKeeps(l: Log, b: nat, t: nat, n: nat, m: nat)
    requires m == n + 1 <= |l.es| && l.es[n].RollbackTo? && l.ok(n) && Target(l, b, n) == Some(t)
    ensures Kept(l, b, m, m) == Kept(l, b, t, t)
  {
    TargetAlive(l, b, n);
    forall p: nat | b < p < t ensures Undone(l, b, p, m) <==> Undone(l, b, p, t) {
      UndoneBefore(l, b, p, t, n, m);
    }
    KeptSame(l, b, t, m, t);
    forall p: nat | t < p < n ensures Undone(l, b, p, m) {
      UndoneNow(l, b, p, t, n);
    }
    KeptUpTo(l, b, t, m, m);
  }

  lemma UndoneNow(l: Log, b: nat, p: nat, t: nat, n: nat)
    requires n < |l.es| && l.es[n].RollbackTo? && l.ok(n) && Target(l, b, n) == Some(t) && t < p < n
    ensures Undone(l, b, p, n + 1)
  {
    assert Undoes(l, b, p)(n);
  }

  lemma UndoneBefore(l: Log, b: nat, p: nat, t: nat, n: nat, m: nat)
    requires m == n + 1 <= |l.es| && l.es[n].RollbackTo? && Target(l, b, n) == Some(t) && p < t
    ensures Undone(l, b, p, m) <==> Undone(l, b, p, t)
  {
    forall r: nat | t <= r < m ensures !Undoes(l, b, p)(r) {
      NotUndoes(l, b, p, t, n, r);
    }
    AnyBelow(Undoes(l, b, p), t, m);
  }

  lemma NotUndoes(l: Log, b: nat, p: nat, t: nat, n: nat, r: nat)
    requires n < |l.es| && l.es[n].RollbackTo? && Target(l, b, n) == Some(t) && p < t <= r <= n
    ensures !Undoes(l, b, p)(r)
  {
    TargetAlive(l, b, n);
    if t < r < n {
      AliveGuards(l, b, t, n, r);
    }
  }

  lemma AnyBelow(f: nat -> bool, t: nat, m: nat)
    requires t <= m && forall r: nat :: t <= r < m ==> !f(r)
    ensures Any(f, m) <==> Any(f, t)
  {
  }

  lemma {:induction false} KeptUpTo(l: Log, b: nat, t: nat, m: nat, n: nat)
    requires b < t < m <= n <= |l.es| && l.es[t].Savepoint? && n > 0 && l.es[n - 1].RollbackTo?
    requires forall p: nat :: t < p < n - 1 ==> Undone(l, b, p, n)
    ensures Kept(l, b, m, n) == Kept(l, b, t, n)
    decreases m
  {
    if m > t + 1 {
      KeptUpTo(l, b, t, m - 1, n);
    }
  }

  // --- one statement ---

  predicate SameStacks(b: Block, c: Block) {
    c.start == b.start && c.saves == b.saves && c.stack == b.stack && c.counts == b.counts
  }

  /** Which savepoints live after a statement that is no savepoint statement, or failed. */
  lemma AliveSame(l: Log, b: nat, n: nat, q: nat)
    requires n < |l.es| && !(l.ok(n) && (l.es[n].Savepoint? || l.es[n].Release? || l.es[n].RollbackTo?))
    ensures Alive(l, b, q, n + 1) <==> Alive(l, b, q, n)
  {
  }

  lemma QuietTied(l: Log, b: Block, c: Block, n: nat)
    requires n < |l.es| && Tied(l, b, n) && SameStacks(b, c) && c.staged == b.staged && c.writes == b.writes
    requires !(l.ok(n) && (l.es[n].Savepoint? || l.es[n].Release? || l.es[n].RollbackTo?))
    requires !(l.es[n].Data? && l.es[n].write && l.ran(n)) && (b.aborted ==> c.aborted)
    ensures Tied(l, c, n + 1)
  {
    hide StagedTied, LiveTied, SaveTied;
    QuietStaged(l, b.start, b.staged, b.writes, b.aborted, c.aborted, n);
    LiveGrows(l, b, c, n);
    StackGrows(l, b, c, n);
    Assemble(l, c, n + 1);
  }

  lemma QuietStaged(l: Log, start: nat, staged: seq<nat>, writes: nat, aborted: bool, aborts: bool, n: nat)
    requires n < |l.es| && start < n && StagedTied(l, start, staged, writes, aborted, n) && (aborted ==> aborts)
    requires !(l.es[n].Data? && l.es[n].write && l.ran(n)) && !(l.es[n].RollbackTo? && l.ok(n))
    ensures StagedTied(l, start, staged, writes, aborts, n + 1)
  {
    KeptMore(l, start, n);
    assert Kept(l, start, n, n) + [] == Kept(l, start, n, n);
  }

  lemma LiveGrows(l: Log, b: Block, c: Block, n: nat)
    requires n < |l.es| && LiveTied(l, b, n) && SameStacks(b, c)
    requires !(l.ok(n) && (l.es[n].Savepoint? || l.es[n].Release? || l.es[n].RollbackTo?))
    ensures LiveTied(l, c, n + 1)
  {
    var m := n + 1;
    forall q: nat ensures LiveAt(l, c, m, q) {
      assert LiveAt(l, b, n, q);
      AliveSame(l, b.start, n, q);
      assert Holds(c, q) <==> Holds(b, q);
    }
  }

  lemma StackGrows(l: Log, b: Block, c: Block, n: nat)
    requires n < |l.es| && StackTied(l, b, n) && SameStacks(b, c)
    ensures StackTied(l, c, n + 1)
  {
    assert b.saves[..|b.saves|] == b.saves && b.stack[..|b.stack|] == b.stack && b.counts[..|b.counts|] == b.counts;
    StackCut(l, b, c, n, |b.saves|);
  }

  lemma RowsMore(es: seq<Stmt>, ps: seq<nat>, p: nat)
    ensures RowsOf(es, ps + [p]) == RowsOf(es, ps) + (if p < |es| && es[p].Data? then es[p].rows else 0)
  {
    assert (ps + [p])[..|ps|] == ps;
  }

  lemma WriteTied(l: Log, b: Block, c: Block, n: nat)
    requires n < |l.es| && Tied(l, b, n) && SameStacks(b, c) && !b.aborted
    requires l.es[n].Data? && l.es[n].write && l.ran(n) && (!c.aborted ==> l.ok(n))
    requires c.staged == b.staged + [n] && c.writes == b.writes + l.es[n].rows
    ensures Tied(l, c, n + 1)
  {
    hide StagedTied, LiveTied, SaveTied;
    WriteStaged(l, b.start, b.staged, b.writes, c.aborted, n);
    LiveGrows(l, b, c, n);
    StackGrows(l, b, c, n);
    Assemble(l, c, n + 1);
  }

  lemma WriteStaged(l: Log, start: nat, staged: seq<nat>, writes: nat, aborts: bool, n: nat)
    requires n < |l.es| && start < n && StagedTied(l, start, staged, writes, false, n)
    requires l.es[n].Data? && l.es[n].write && l.ran(n) && (!aborts ==> l.ok(n))
    ensures StagedTied(l, start, staged + [n], writes + l.es[n].rows, aborts, n + 1)
  {
    KeptMore(l, start, n);
    RowsMore(l.es, staged, n);
  }

  lemma SavepointTied(l: Log, b: Block, c: Block, n: nat)
    requires n < |l.es| && Tied(l, b, n) && !b.aborted && l.es[n].Savepoint? && l.ok(n)
    requires c == b.(saves := b.saves + [Save(l.es[n].name, n)], stack := b.stack + [Mark(n, b.staged)],
                     counts := b.counts + [Count(n, b.writes)])
    ensures Tied(l, c, n + 1)
  {
    hide StagedTied, LiveTied, SaveTied;
    QuietStaged(l, b.start, b.staged, b.writes, false, false, n);
    SavepointLive(l, b, c, n);
    SavepointStack(l, b, c, n);
    Assemble(l, c, n + 1);
  }

  lemma SavepointLive(l: Log, b: Block, c: Block, n: nat)
    requires n < |l.es| && LiveTied(l, b, n) && b.start < n && l.es[n].Savepoint? && l.ok(n) && c.start == b.start
    requires c.saves == b.saves + [Save(l.es[n].name, n)]
    ensures LiveTied(l, c, n + 1)
  {
    var m := n + 1;
    forall q: nat ensures LiveAt(l, c, m, q) {
      assert LiveAt(l, b, n, q);
      HoldsPushed(b, c, n, q);
    }
  }

  lemma SavepointStack(l: Log, b: Block, c: Block, n: nat)
    requires n < |l.es| && StackTied(l, b, n) && StagedTied(l, b.start, b.staged, b.writes, false, n)
    requires c.start == b.start
    requires l.es[n].Savepoint? && c.saves == b.saves + [Save(l.es[n].name, n)]
    requires c.stack == b.stack + [Mark(n, b.staged)] && c.counts == b.counts + [Count(n, b.writes)]
    ensures StackTied(l, c, n + 1)
  {
    forall i | 0 <= i < |b.saves| ensures b.saves[i].pos < n {
      assert SaveTied(l, b.start, b.saves[i], b.stack[i], b.counts[i], n);
    }
    forall i | 0 <= i < |c.saves| ensures SaveTied(l, c.start, c.saves[i], c.stack[i], c.counts[i], n + 1) {
      assert i < |b.saves| ==> SaveTied(l, b.start, b.saves[i], b.stack[i], b.counts[i], n);
    }
  }

  lemma HoldsPushed(b: Block, c: Block, n: nat, q: nat)
    requires |c.saves| == |b.saves| + 1 && c.saves[..|b.saves|] == b.saves && c.saves[|b.saves|].pos == n
    ensures Holds(c, q) <==> Holds(b, q) || q == n
  {
    if Holds(c, q) {
      var i :| 0 <= i < |c.saves| && c.saves[i].pos == q;
      assert i < |b.saves| ==> b.saves[i] == c.saves[i];
    }
    if Holds(b, q) {
      var i :| 0 <= i < |b.saves| && b.saves[i].pos == q;
      assert b.saves[i] == c.saves[i];
    }
  }

  /** Which savepoints live after a RELEASE or ROLLBACK TO of the one at t. */
  lemma AliveCut(l: Log, b: nat, n: nat, t: nat, q: nat)
    requires n < |l.es| && (l.es[n].Release? || l.es[n].RollbackTo?) && l.ok(n) && Target(l, b, n) == Some(t)
    ensures Alive(l, b, q, n + 1) <==> Alive(l, b, q, n) && (if l.es[n].Release? then q < t else q <= t)
  {
  }

  lemma HoldsCut(b: Block, c: Block, k: nat, q: nat)
    requires Aligned(b) && k <= |b.saves| && c.saves == b.saves[..k]
    ensures Holds(c, q) <==> Holds(b, q) && (k < |b.saves| ==> q < b.saves[k].pos)
  {
    if Holds(c, q) {
      var i :| 0 <= i < |c.saves| && c.saves[i].pos == q;
      assert b.saves[i] == c.saves[i];
    }
    if Holds(b, q) && (k < |b.saves| ==> q < b.saves[k].pos) {
      var i :| 0 <= i < |b.saves| && b.saves[i].pos == q;
      assert i < k;
      assert b.saves[i] == c.saves[i];
    }
  }

  lemma ReleaseTied(l: Log, b: Block, c: Block, n: nat, i: nat)
    requires n < |l.es| && Tied(l, b, n) && !b.aborted && l.es[n].Release? && l.ok(n)
    requires i < |b.saves| && Target(l, b.start, n) == Some(b.saves[i].pos)
    requires c == b.(saves := b.saves[..i], stack := b.stack[..i], counts := b.counts[..i])
    ensures Tied(l, c, n + 1)
  {
    hide Target, StagedTied, LiveTied, SaveTied;
    QuietStaged(l, b.start, b.staged, b.writes, false, false, n);
    ReleaseLive(l, b, c, n, i);
    StackCut(l, b, c, n, i);
    Assemble(l, c, n + 1);
  }

  lemma ReleaseLive(l: Log, b: Block, c: Block, n: nat, i: nat)
    requires n < |l.es| && LiveTied(l, b, n) && Aligned(b) && l.es[n].Release? && l.ok(n)
    requires i < |b.saves| && Target(l, b.start, n) == Some(b.saves[i].pos) && c.saves == b.saves[..i]
    requires c.start == b.start
    ensures LiveTied(l, c, n + 1)
  {
    hide Alive, Target, Holds;
    var m := n + 1;
    forall q: nat ensures LiveAt(l, c, m, q) {
      assert LiveAt(l, b, n, q);
      AliveCut(l, b.start, n, b.saves[i].pos, q);
      HoldsCut(b, c, i, q);
    }
  }

  lemma RollbackTied(l: Log, b: Block, c: Block, n: nat, i: nat)
    requires n < |l.es| && Tied(l, b, n) && l.es[n].RollbackTo? && l.ok(n)
    requires i < |b.saves| && Target(l, b.start, n) == Some(b.saves[i].pos)
    requires c == b.(saves := b.saves[..i + 1], stack := b.stack[..i + 1], counts := b.counts[..i + 1],
                     staged := b.stack[i].staged, writes := b.counts[i].writes, aborted := false)
    ensures Tied(l, c, n + 1)
  {
    hide Target, StagedTied, LiveTied, SaveTied;
    assert SaveTied(l, b.start, b.saves[i], b.stack[i], b.counts[i], n);
    RollbackStaged(l, b.start, b.saves[i], b.stack[i], b.counts[i], n);
    RollbackLive(l, b, c, n, i);
    StackCut(l, b, c, n, i + 1);
    Assemble(l, c, n + 1);
  }

  lemma RollbackStaged(l: Log, start: nat, save: Save, mark: Mark, count: Count, n: nat)
    requires n < |l.es| && SaveTied(l, start, save, mark, count, n) && mark.pos == save.pos
    requires l.es[n].RollbackTo? && l.ok(n) && Target(l, start, n) == Some(save.pos)
    ensures StagedTied(l, start, mark.staged, count.writes, false, n + 1)
  {
    hide Target;
    RollbackKeeps(l, start, save.pos, n, n + 1);
  }

  lemma RollbackLive(l: Log, b: Block, c: Block, n: nat, i: nat)
    requires n < |l.es| && LiveTied(l, b, n) && Aligned(b) && l.es[n].RollbackTo? && l.ok(n)
    requires i < |b.saves| && Target(l, b.start, n) == Some(b.saves[i].pos) && c.saves == b.saves[..i + 1]
    requires c.start == b.start
    ensures LiveTied(l, c, n + 1)
  {
    hide Alive, Target, Holds;
    var m := n + 1;
    forall q: nat ensures LiveAt(l, c, m, q) {
      assert LiveAt(l, b, n, q);
      RollbackAlive(l, b, c, n, i, q);
    }
  }

  lemma StackCut(l: Log, b: Block, c: Block, n: nat, k: nat)
    requires n < |l.es| && StackTied(l, b, n) && k <= |b.saves| && c.start == b.start
    requires c.saves == b.saves[..k] && c.stack == b.stack[..k] && c.counts == b.counts[..k]
    ensures StackTied(l, c, n + 1)
  {
    hide Alive, Kept;
    forall i | 0 <= i < |c.saves| ensures SaveTied(l, c.start, c.saves[i], c.stack[i], c.counts[i], n + 1) {
      assert SaveTied(l, b.start, b.saves[i], b.stack[i], b.counts[i], n);
    }
  }

  lemma RollbackAlive(l: Log, b: Block, c: Block, n: nat, i: nat, q: nat)
    requires n < |l.es| && l.es[n].RollbackTo? && l.ok(n) && Aligned(b) && i < |b.saves|
    requires Target(l, b.start, n) == Some(b.saves[i].pos) && c.saves == b.saves[..i + 1]
    requires Alive(l, b.start, q, n) <==> Holds(b, q)
    ensures Alive(l, b.start, q, n + 1) <==> Holds(c, q)
  {
    AliveCut(l, b.start, n, b.saves[i].pos, q);
    HoldsCut(b, c, i + 1, q);
    if Holds(b, q) {
      HoldsUpTo(b, i, q);
    }
  }

  lemma HoldsUpTo(b: Block, i: nat, q: nat)
    requires Aligned(b) && i < |b.saves| && Holds(b, q)
    ensures q <= b.saves[i].pos <==> (i + 1 < |b.saves| ==> q < b.saves[i + 1].pos)
  {
    var j :| 0 <= j < |b.saves| && b.saves[j].pos == q;
  }

  // --- any script ---

  lemma BeginTied(l: Log, b: Block, n: nat)
    requires n < |l.es| && l.es[n].Begin? && b.start == n && b.saves == [] && b.stack == [] && b.counts == []
    requires b.staged == [] && b.writes == 0
    ensures Tied(l, b, n + 1)
  {
    var m := n + 1;
    forall q: nat ensures LiveAt(l, b, m, q) {
    }
  }

  function LogOf(es: seq<Stmt>, occ: bool): Log {
    Log(es, (i: nat) => i < |es| && OutAt(es, occ, i).ok, (i: nat) => i < |es| && OutAt(es, occ, i).ran)
  }

  lemma SavepointStep(l: Log, s: Ses, b: Block, n: nat)
    requires n < |l.es| && Tied(l, b, n) && (l.es[n].Savepoint? || l.es[n].Release? || l.es[n].RollbackTo?)
    requires l.ok(n) == SavepointControl(s, b, l.es[n], n).ok
    ensures Tied(l, SavepointControl(s, b, l.es[n], n).ses.block.value, n + 1)
  {
    var o := SavepointControl(s, b, l.es[n], n);
    if !l.ok(n) {
      RefusedShape(s, b, l.es[n], n);
      QuietTied(l, b, o.ses.block.value, n);
    } else if l.es[n].Savepoint? {
      SavepointTied(l, b, o.ses.block.value, n);
    } else {
      ResolvesTo(l, b, n);
      var i := LastSave(b.saves, l.es[n].name).value;
      ControlShape(s, b, l.es[n], n, i);
      if l.es[n].Release? {
        ReleaseTied(l, b, o.ses.block.value, n, i);
      } else {
        RollbackTied(l, b, o.ses.block.value, n, i);
      }
    }
  }

  /** A refused savepoint statement leaves the stacks and what is staged. */
  lemma RefusedShape(s: Ses, b: Block, st: Stmt, pos: nat)
    requires (st.Savepoint? || st.Release? || st.RollbackTo?) && !SavepointControl(s, b, st, pos).ok
    ensures var c := SavepointControl(s, b, st, pos).ses.block.value;
            SameStacks(b, c) && c.staged == b.staged && c.writes == b.writes && (b.aborted ==> c.aborted)
  {
  }

  /** What an accepted RELEASE or ROLLBACK TO of the i-th savepoint leaves. */
  lemma ControlShape(s: Ses, b: Block, st: Stmt, pos: nat, i: nat)
    requires (st.Release? || st.RollbackTo?) && Aligned(b) && LastSave(b.saves, st.name) == Some(i) && i < |b.saves|
    requires SavepointControl(s, b, st, pos).ok
    ensures !b.aborted || st.RollbackTo?
    ensures SavepointControl(s, b, st, pos).ses.block.value ==
      if st.Release? then b.(saves := b.saves[..i], stack := b.stack[..i], counts := b.counts[..i])
      else b.(saves := b.saves[..i + 1], stack := b.stack[..i + 1], counts := b.counts[..i + 1],
              staged := b.stack[i].staged, writes := b.counts[i].writes, aborted := false)
  {
    AlignedAt(b, i);
  }

  lemma OtherStep(l: Log, s: Ses, occ: bool, b: Block, n: nat)
    requires n < |l.es| && Tied(l, b, n)
    requires var st := l.es[n]; !st.Savepoint? && !st.Release? && !st.RollbackTo? && !st.Commit? && !st.Rollback?
    requires var o := StepBlock(s, b, occ, l.es[n], n); l.ok(n) == o.ok && l.ran(n) == o.ran
    ensures var o := StepBlock(s, b, occ, l.es[n], n); o.ses.block.Some? && Tied(l, o.ses.block.value, n + 1)
  {
    OtherShape(s, b, occ, l.es[n], n);
    var c := StepBlock(s, b, occ, l.es[n], n).ses.block.value;
    if l.es[n].Data? && l.es[n].write && l.ran(n) {
      WriteTied(l, b, c, n);
    } else {
      QuietTied(l, b, c, n);
    }
  }

  /** What a statement other than a savepoint statement leaves of a block. */
  lemma OtherShape(s: Ses, b: Block, occ: bool, st: Stmt, pos: nat)
    requires !st.Savepoint? && !st.Release? && !st.RollbackTo? && !st.Commit? && !st.Rollback?
    ensures var o := StepBlock(s, b, occ, st, pos);
            && o.ses.block.Some? && SameStacks(b, o.ses.block.value)
            && (if st.Data? && st.write && o.ran
                then !b.aborted && (!o.ses.block.value.aborted ==> o.ok)
                     && o.ses.block.value.staged == b.staged + [pos] && o.ses.block.value.writes == b.writes + st.rows
                else (b.aborted ==> o.ses.block.value.aborted)
                     && o.ses.block.value.staged == b.staged && o.ses.block.value.writes == b.writes)
  {
  }

  lemma StepTied(l: Log, s: Ses, occ: bool, n: nat)
    requires n < |l.es| && (s.block.Some? ==> Tied(l, s.block.value, n))
    requires var o := Step(s, occ, l.es[n], n); l.ok(n) == o.ok && l.ran(n) == o.ran
    ensures var o := Step(s, occ, l.es[n], n); o.ses.block.Some? ==> Tied(l, o.ses.block.value, n + 1)
  {
    if s.block.None? {
      if l.es[n].Begin? {
        BeginTied(l, Step(s, occ, l.es[n], n).ses.block.value, n);
      }
    } else if l.es[n].Savepoint? || l.es[n].Release? || l.es[n].RollbackTo? {
      SavepointStep(l, s, s.block.value, n);
    } else if !l.es[n].Commit? && !l.es[n].Rollback? {
      OtherStep(l, s, occ, s.block.value, n);
    }
  }

  ghost predicate TiedAt(l: Log, es: seq<Stmt>, occ: bool, n: nat) {
    n <= |es| && StateTied(l, StateAt(es, occ, n), n)
  }

  ghost predicate StateTied(l: Log, s: Ses, n: nat) {
    s.block.Some? ==> Tied(l, s.block.value, n)
  }

  lemma LogNext(l: Log, es: seq<Stmt>, occ: bool, n: nat)
    requires n < |es| && l == LogOf(es, occ) && TiedAt(l, es, occ, n)
    ensures TiedAt(l, es, occ, n + 1)
  {
    assert l.ok(n) == OutAt(es, occ, n).ok && l.ran(n) == OutAt(es, occ, n).ran;
    StepTied(l, StateAt(es, occ, n), occ, n);
  }

  /** After any number of statements, an open block matches the script. */
  lemma TiedFirst(l: Log, es: seq<Stmt>, occ: bool)
    ensures TiedAt(l, es, occ, 0)
  {
  }

  lemma {:induction false} AlwaysTied(l: Log, es: seq<Stmt>, occ: bool, n: nat)
    requires n <= |es| && l == LogOf(es, occ)
    ensures TiedAt(l, es, occ, n)
  {
    hide TiedAt, LogOf;
    TiedFirst(l, es, occ);
    var i := 0;
    while i < n
      invariant i <= n && TiedAt(l, es, occ, i)
    {
      LogNext(l, es, occ, i);
      i := i + 1;
    }
  }

  /** In every script, the three savepoint stacks hold the same savepoints, and the
      write count is what the staged statements wrote. */
  lemma StacksAligned(es: seq<Stmt>, occ: bool, n: nat)
    requires n <= |es| && StateAt(es, occ, n).block.Some?
    ensures var b := StateAt(es, occ, n).block.value; Aligned(b) && b.writes == RowsOf(es, b.staged)
  {
    AlwaysTied(LogOf(es, occ), es, occ, n);
  }

  /** COMMIT of a block publishes exactly the writing statements of the block that
      succeeded and were not undone by a later ROLLBACK TO, in order; a failed block, a
      conflict or ROLLBACK publishes nothing. */
  lemma CommitPublishes(es: seq<Stmt>, occ: bool, n: nat)
    requires n < |es| && StateAt(es, occ, n).block.Some? && (es[n].Commit? || es[n].Rollback?)
    ensures var b, was, now := StateAt(es, occ, n).block.value, StateAt(es, occ, n), StateAt(es, occ, n + 1);
            && now.block.None?
            && (if es[n].Commit? && !es[n].conflict && !b.aborted
                then var kept := Kept(LogOf(es, occ), b.start, n, n);
                     now.published == was.published + kept && AllOk(LogOf(es, occ), kept)
                else now.published == was.published)
  {
    AlwaysTied(LogOf(es, occ), es, occ, n);
  }

  /** Nothing else publishes, but a statement that commits by itself. */
  lemma OnlyCommitPublishes(es: seq<Stmt>, occ: bool, n: nat)
    requires n < |es| && StateAt(es, occ, n + 1).published != StateAt(es, occ, n).published
    ensures var b := StateAt(es, occ, n).block;
            || (b.Some? && es[n].Commit? && !es[n].conflict && !b.value.aborted)
            || (b.None? && es[n].Data? && es[n].write && !es[n].fails
                && StateAt(es, occ, n + 1).published == StateAt(es, occ, n).published + [n])
  {
    assert StateAt(es, occ, n + 1) == OutAt(es, occ, n).ses;
  }

  // --- serializable blocks ---

  predicate Tracked(b: Block, occ: bool) {
    && (b.tracking ==> b.untracked == 0)
    && (b.untracked > 0 ==> b.queried)
    && (occ && !b.readOnly && b.iso.Serializable? ==> b.tracking)
  }

  lemma StepTracked(s: Ses, occ: bool, st: Stmt, pos: nat)
    requires s.block.Some? ==> Tracked(s.block.value, occ)
    ensures Step(s, occ, st, pos).ses.block.Some? ==> Tracked(Step(s, occ, st, pos).ses.block.value, occ)
  {
  }

  /** A writable block that reports serializable under concurrent writes tracked every
      statement that read. */
  lemma {:induction false} SerializableTracked(es: seq<Stmt>, occ: bool, n: nat)
    requires n <= |es|
    ensures var s := StateAt(es, occ, n);
            (s.block.Some? ==> Tracked(s.block.value, occ))
            && (s.block.Some? && occ && !s.block.value.readOnly && s.block.value.iso.Serializable? ==>
                 s.block.value.untracked == 0)
  {
    hide Tracked, Step;
    if n > 0 {
      SerializableTracked(es, occ, n - 1);
      StepTracked(StateAt(es, occ, n - 1), occ, es[n - 1], n - 1);
    }
  }
}
