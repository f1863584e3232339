/** A SQL session (sql/session.go) over a transaction with savepoints (txn.go): what
    COMMIT publishes, and how the three savepoint stacks stay aligned. */
module Session {
  import opened Values

  datatype Iso = Serializable | RepeatableRead | ReadCommitted

  /** The requested level of a SET: a level, an invalid value, or RESET. */
  datatype Level = Named(iso: Iso) | Invalid | Default

  /** A statement. A data statement carries whether it writes, whether it fails (some of
      its writes may be staged by then), and how many row writes it stages; a COMMIT
      carries whether the store reports a conflict. */
  datatype Stmt =
    | Begin(readOnly: bool, iso: Option<Iso>)
    | Commit(conflict: bool)
    | Rollback
    | Savepoint(name: string)
    | Release(name: string)
    | RollbackTo(name: string)
    | SetTransaction(level: Level)
    | SetDefault(level: Level)
    | Show
    | Schema
    | Data(write: bool, fails: bool, rows: nat)

  /** The session's savepoint stack, the store's and the transaction's write counts; a
      savepoint is identified by the position of its statement. */
  datatype Save = Save(name: string, pos: nat)
  datatype Mark = Mark(pos: nat, staged: seq<nat>)
  datatype Count = Count(pos: nat, writes: nat)

  /** An open block. `staged` is what the transaction would publish: the positions of the
      writing statements whose effects are in it. `untracked` counts the statements that
      read without being tracked. */
  datatype Block = Block(
    start: nat, readOnly: bool, aborted: bool, saves: seq<Save>, iso: Iso, queried: bool,
    staged: seq<nat>, stack: seq<Mark>, writes: nat, counts: seq<Count>, tracking: bool, untracked: nat)

  datatype Ses = Ses(block: Option<Block>, defIso: Option<Iso>, published: seq<nat>)

  /** What a statement does: the state after, whether it succeeded, whether it ran. */
  datatype Out = Out(ses: Ses, ok: bool, ran: bool)

  function SessionIso(s: Ses, occ: bool): Iso {
    if s.defIso.Some? then s.defIso.value else if occ then RepeatableRead else Serializable
  }

  function InBlock(s: Ses, b: Block, ok: bool): Out {
    Out(s.(block := Some(b)), ok, false)
  }

  /** The most recent savepoint with a name. */
  function LastSave(saves: seq<Save>, name: string): (r: Option<nat>)
    ensures r.Some? ==> r.value < |saves| && saves[r.value].name == name
    ensures r.Some? ==> forall j :: r.value < j < |saves| ==> saves[j].name != name
    ensures r.None? ==> forall j :: 0 <= j < |saves| ==> saves[j].name != name
  {
    if saves == [] then None
    else if saves[|saves| - 1].name == name then Some(|saves| - 1)
    else LastSave(saves[..|saves| - 1], name)
  }

  /** The position of a savepoint on the write-count stack. */
  function CountOf(counts: seq<Count>, pos: nat): (r: Option<nat>)
    ensures r.Some? ==> r.value < |counts| && counts[r.value].pos == pos
    ensures r.None? ==> forall j :: 0 <= j < |counts| ==> counts[j].pos != pos
  {
    if counts == [] then None
    else if counts[|counts| - 1].pos == pos then Some(|counts| - 1)
    else CountOf(counts[..|counts| - 1], pos)
  }

  function MarkOf(stack: seq<Mark>, pos: nat): (r: Option<nat>)
    ensures r.Some? ==> r.value < |stack| && stack[r.value].pos == pos
    ensures r.None? ==> forall j :: 0 <= j < |stack| ==> stack[j].pos != pos
  {
    if stack == [] then None
    else if stack[|stack| - 1].pos == pos then Some(|stack| - 1)
    else MarkOf(stack[..|stack| - 1], pos)
  }

  /** Txn.Release: the store drops the savepoint and those after it; the write-count
      stack follows. None is the store's error. */
  function TxRelease(b: Block, pos: nat): Option<Block> {
    var m, c := MarkOf(b.stack, pos), CountOf(b.counts, pos);
    if m.None? then None
    else Some(b.(stack := b.stack[..m.value], counts := if c.Some? then b.counts[..c.value] else b.counts))
  }

  /** Txn.RollbackTo: the store restores its snapshot; the write count follows. */
  function TxRollbackTo(b: Block, pos: nat): Option<Block> {
    var m, c := MarkOf(b.stack, pos), CountOf(b.counts, pos);
    if m.None? then None
    else Some(b.(
      staged := b.stack[m.value].staged, stack := b.stack[..m.value + 1],
      writes := if c.Some? then b.counts[c.value].writes else b.writes,
      counts := if c.Some? then b.counts[..c.value + 1] else b.counts))
  }

  function SavepointControl(s: Ses, b: Block, st: Stmt, pos: nat): Out
    requires st.Savepoint? || st.Release? || st.RollbackTo?
  {
    if b.aborted && !st.RollbackTo? then InBlock(s, b, false)
    else if st.Savepoint? then
      InBlock(s, b.(saves := b.saves + [Save(st.name, pos)], stack := b.stack + [Mark(pos, b.staged)],
                    counts := b.counts + [Count(pos, b.writes)]), true)
    else
      match LastSave(b.saves, st.name)
      case None => InBlock(s, b.(aborted := true), false)
      case Some(i) =>
        var tx := if st.Release? then TxRelease(b, b.saves[i].pos) else TxRollbackTo(b, b.saves[i].pos);
        if tx.None? then InBlock(s, b.(aborted := true), false)
        else if st.Release? then InBlock(s, tx.value.(saves := b.saves[..i]), true)
        else InBlock(s, tx.value.(saves := b.saves[..i + 1], aborted := false), true)
  }

  function SetTxnIso(s: Ses, b: Block, occ: bool, level: Level): Out {
    if level.Invalid? || b.queried then InBlock(s, b.(aborted := true), false)
    else
      var lvl := if level.Named? then level.iso else SessionIso(s, occ);
      var upgrade := lvl.Serializable? && !b.iso.Serializable? && !b.readOnly && occ;
      InBlock(s, b.(iso := lvl, tracking := b.tracking || upgrade), true)
  }

  function RunData(s: Ses, b: Block, st: Stmt, pos: nat): Out
    requires st.Data?
  {
    if b.readOnly && st.write then InBlock(s, b.(aborted := true), false)
    else
      var c := b.(
        queried := true, aborted := st.fails,
        staged := if st.write then b.staged + [pos] else b.staged,
        writes := if st.write then b.writes + st.rows else b.writes,
        untracked := if b.tracking then b.untracked else b.untracked + 1);
      Out(s.(block := Some(c)), !st.fails, true)
  }

  /** runCtx and txnControl: one statement at a position of the session's script. */
  function Step(s: Ses, occ: bool, st: Stmt, pos: nat): Out {
    if s.block.None? then StepIdle(s, occ, st, pos) else StepBlock(s, s.block.value, occ, st, pos)
  }

  function StepBlock(s: Ses, b: Block, occ: bool, st: Stmt, pos: nat): Out {
    if st.Begin? then InBlock(s, b, true)
    else if st.Commit? || st.Rollback? then EndBlock(s, b, st)
    else if st.Savepoint? || st.Release? || st.RollbackTo? then SavepointControl(s, b, st, pos)
    else if b.aborted then InBlock(s, b, false)
    else if st.SetTransaction? then SetTxnIso(s, b, occ, st.level)
    else if st.SetDefault? then
      if st.level.Invalid? then InBlock(s, b.(aborted := true), false)
      else InBlock(s.(defIso := if st.level.Named? then Some(st.level.iso) else None), b, true)
    else if st.Show? then InBlock(s, b, true)
    else if st.Data? then RunData(s, b, st, pos)
    else InBlock(s, b.(aborted := true), false)
  }

  /** COMMIT of a failed block rolls back. */
  function EndBlock(s: Ses, b: Block, st: Stmt): Out
    requires st.Commit? || st.Rollback?
  {
    var t := s.(block := None);
    if st.Rollback? || b.aborted then Out(t, true, false)
    else if st.conflict then Out(t, false, false)
    else Out(t.(published := s.published + b.staged), true, false)
  }

  /** Outside a block each data statement commits by itself, or not at all. */
  function StepIdle(s: Ses, occ: bool, st: Stmt, pos: nat): Out {
    match st
    case Begin(readOnly, level) =>
      var iso := if level.Some? then level.value else SessionIso(s, occ);
      var b := Block(pos, readOnly, false, [], iso, false, [], [], 0, [], iso.Serializable? && !readOnly && occ, 0);
      Out(s.(block := Some(b)), true, false)
    case Savepoint(_) => Out(s, false, false)
    case Release(_) => Out(s, false, false)
    case RollbackTo(_) => Out(s, false, false)
    case SetDefault(level) =>
      if level.Invalid? then Out(s, false, false)
      else Out(s.(defIso := if level.Named? then Some(level.iso) else None), true, false)
    case SetTransaction(level) => Out(s, !level.Invalid?, false)
    case Data(write, fails, _) => Out(if write && !fails then s.(published := s.published + [pos]) else s, !fails, true)
    case _ => Out(s, true, false)
  }

  // --- runs of a script ---

  const FRESH := Ses(None, None, [])

  function StateAt(es: seq<Stmt>, occ: bool, n: nat): Ses
    requires n <= |es|
  {
    if n == 0 then FRESH else Step(StateAt(es, occ, n - 1), occ, es[n - 1], n - 1).ses
  }

  function OutAt(es: seq<Stmt>, occ: bool, i: nat): Out
    requires i < |es|
  {
    Step(StateAt(es, occ, i), occ, es[i], i)
  }

  // --- the reference, in terms of positions and outcomes alone ---

  /** A script with the outcome of each statement: whether it succeeded, whether it ran. */
  datatype Log = Log(es: seq<Stmt>, ok: nat -> bool, ran: nat -> bool)

  /** Statement x destroys the savepoint made at q. */
  ghost predicate Destroys(l: Log, b: nat, x: nat, q: nat)
    requires x < |l.es|
    decreases x, 3
  {
    && l.ok(x) && (l.es[x].Release? || l.es[x].RollbackTo?) && Target(l, b, x).Some?
    && (if l.es[x].Release? then Target(l, b, x).value <= q else Target(l, b, x).value < q)
  }

  /** The savepoint made at q exists after the first n statements: nothing since
      destroyed it. */
  ghost predicate Alive(l: Log, b: nat, q: nat, n: nat)
    requires n <= |l.es|
    decreases n, 0
  {
    && b < q < n && l.es[q].Savepoint?
    && if n == q + 1 then l.ok(q) else Alive(l, b, q, n - 1) && !Destroys(l, b, n - 1, q)
  }

  /** The live savepoints with the name statement x gives. */
  ghost function LiveNamed(l: Log, b: nat, x: nat): nat -> bool
    requires x < |l.es| && (l.es[x].Release? || l.es[x].RollbackTo?)
    decreases x, 1
  {
    (q: nat) => q < x && Alive(l, b, q, x) && l.es[q].name == l.es[x].name
  }

  ghost function Largest(f: nat -> bool, m: nat): (r: Option<nat>)
    ensures r.Some? ==> r.value < m && f(r.value) && forall q: nat :: r.value < q < m ==> !f(q)
    ensures r.None? ==> forall q: nat :: q < m ==> !f(q)
  {
    if m == 0 then None else if f(m - 1) then Some(m - 1) else Largest(f, m - 1)
  }

  /** The most recent of them. */
  ghost function Target(l: Log, b: nat, x: nat): Option<nat>
    requires x < |l.es| && (l.es[x].Release? || l.es[x].RollbackTo?)
    decreases x, 2
  {
    Largest(LiveNamed(l, b, x), x)
  }

  /** A later ROLLBACK TO, to a savepoint made before p, undid the statement at p. */
  ghost predicate UndoneBy(l: Log, b: nat, p: nat, r: nat)
    requires r < |l.es|
  {
    p < r && l.ok(r) && l.es[r].RollbackTo? && Target(l, b, r).Some? && Target(l, b, r).value < p
  }

  ghost function Undoes(l: Log, b: nat, p: nat): nat -> bool {
    (r: nat) => r < |l.es| && UndoneBy(l, b, p, r)
  }

  ghost predicate Any(f: nat -> bool, n: nat) {
    exists r: nat :: r < n && f(r)
  }

  ghost predicate Undone(l: Log, b: nat, p: nat, n: nat) {
    Any(Undoes(l, b, p), n)
  }

  /** The writing statements of the block begun at b that ran before m, in order, and
      were not undone before n. */
  ghost function Kept(l: Log, b: nat, m: nat, n: nat): seq<nat>
    requires m <= n <= |l.es|
  {
    if m <= b + 1 then []
    else Kept(l, b, m - 1, n) +
         (if l.es[m - 1].Data? && l.es[m - 1].write && l.ran(m - 1) && !Undone(l, b, m - 1, n) then [m - 1] else [])
  }

  function RowsOf(es: seq<Stmt>, ps: seq<nat>): nat {
    if ps == [] then 0
    else RowsOf(es, ps[..|ps| - 1]) + (var p := ps[|ps| - 1]; if p < |es| && es[p].Data? then es[p].rows else 0)
  }
}
