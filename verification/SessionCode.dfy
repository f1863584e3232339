/** The session and its transaction as they run: fields updated statement by statement,
    each method proved against the machine of Session. */
module SessionCode {
  import opened Values
  import opened Session

  /** A transaction: the store's staged state and savepoint stack, and the write count
      with the stack that mirrors it. */
  class Txn {
    var staged: seq<nat>
    var stack: seq<Mark>
    var writes: nat
    var counts: seq<Count>
    var tracking: bool
    var untracked: nat

    constructor (track: bool)
      ensures staged == [] && stack == [] && writes == 0 && counts == [] && tracking == track && untracked == 0
    {
      staged, stack, writes, counts, tracking, untracked := [], [], 0, [], track, 0;
    }

    method Savepoint(pos: nat)
      modifies this`stack, this`counts
      ensures stack == old(stack) + [Mark(pos, staged)] && counts == old(counts) + [Count(pos, writes)]
    {
      stack := stack + [Mark(pos, staged)];
      counts := counts + [Count(pos, writes)];
    }

    /** saveMark: the search runs from the top of the write-count stack. */
    method SaveMark(pos: nat) returns (r: Option<nat>)
      ensures r == CountOf(counts, pos)
    {
      var i := |counts|;
      assert counts[..i] == counts;
      while i > 0
        invariant 0 <= i <= |counts| && CountOf(counts[..i], pos) == CountOf(counts, pos)
      {
        assert counts[..i][..i - 1] == counts[..i - 1];
        i := i - 1;
        if counts[i].pos == pos {
          return Some(i);
        }
      }
      r := None;
    }

    method RollbackTo(pos: nat) returns (ok: bool)
      modifies this`staged, this`stack, this`writes, this`counts
      ensures var m, c := MarkOf(old(stack), pos), CountOf(old(counts), pos);
              && ok == m.Some?
              && staged == (if ok then old(stack)[m.value].staged else old(staged))
              && stack == (if ok then old(stack)[..m.value + 1] else old(stack))
              && writes == (if ok && c.Some? then old(counts)[c.value].writes else old(writes))
              && counts == (if ok && c.Some? then old(counts)[..c.value + 1] else old(counts))
    {
      var m := MarkOf(stack, pos);
      if m.None? {
        return false;
      }
      staged, stack := stack[m.value].staged, stack[..m.value + 1];
      var i := SaveMark(pos);
      if i.Some? {
        writes := counts[i.value].writes;
        counts := counts[..i.value + 1];
      }
      ok := true;
    }

    method Release(pos: nat) returns (ok: bool)
      modifies this`stack, this`counts
      ensures var m, c := MarkOf(old(stack), pos), CountOf(old(counts), pos);
              && ok == m.Some?
              && stack == (if ok then old(stack)[..m.value] else old(stack))
              && counts == (if ok && c.Some? then old(counts)[..c.value] else old(counts))
    {
      var m := MarkOf(stack, pos);
      if m.None? {
        return false;
      }
      stack := stack[..m.value];
      var i := SaveMark(pos);
      if i.Some? {
        counts := counts[..i.value];
      }
      ok := true;
    }
  }

  class Connection {
    const occ: bool
    var tx: Txn?
    var start: nat
    var readOnly: bool
    var aborted: bool
    var saves: seq<Save>
    var txIso: Iso
    var txStmts: bool
    var defIso: Option<Iso>
    var published: seq<nat>

    constructor (concurrent: bool)
      ensures occ == concurrent && State() == FRESH
    {
      occ, tx, start, readOnly, aborted, saves := concurrent, null, 0, false, false, [];
      txIso, txStmts, defIso, published := Serializable, false, None, [];
    }

    function State(): Ses
      reads this, tx
    {
      Ses(if tx == null then None
          else Some(Block(start, readOnly, aborted, saves, txIso, txStmts, tx.staged, tx.stack, tx.writes, tx.counts,
                          tx.tracking, tx.untracked)),
          defIso, published)
    }

    function Default(): Iso
      reads this
    {
      if defIso.Some? then defIso.value else if occ then RepeatableRead else Serializable
    }

    /** BEGIN, COMMIT and ROLLBACK. */
    method TxnControl(st: Stmt, pos: nat) returns (ok: bool)
      requires st.Begin? || st.Commit? || st.Rollback?
      modifies this
      ensures State() == Step(old(State()), occ, st, pos).ses && ok == Step(old(State()), occ, st, pos).ok
      ensures tx == old(tx) || tx == null || fresh(tx)
    {
      if st.Begin? {
        if tx != null { return true; }
        var iso := if st.iso.Some? then st.iso.value else Default();
        tx := new Txn(iso.Serializable? && !st.readOnly && occ);
        start, readOnly, aborted, saves, txIso, txStmts := pos, st.readOnly, false, [], iso, false;
        return true;
      }
      if tx == null { return true; }
      var t, failed := tx, aborted;
      tx, aborted, saves := null, false, [];
      if st.Rollback? || failed { return true; }
      if st.conflict { return false; }
      published := published + t.staged;
      ok := true;
    }

    /** The most recent savepoint with a name, searched from the top. */
    method FindSave(name: string) returns (r: Option<nat>)
      ensures r == LastSave(saves, name)
    {
      var i := |saves|;
      assert saves[..i] == saves;
      while i > 0
        invariant 0 <= i <= |saves| && LastSave(saves[..i], name) == LastSave(saves, name)
      {
        assert saves[..i][..i - 1] == saves[..i - 1];
        i := i - 1;
        if saves[i].name == name {
          return Some(i);
        }
      }
      r := None;
    }

    method SavepointControl(st: Stmt, pos: nat) returns (ok: bool)
      requires st.Savepoint? || st.Release? || st.RollbackTo?
      modifies this, tx
      ensures State() == Step(old(State()), occ, st, pos).ses && ok == Step(old(State()), occ, st, pos).ok
      ensures tx == old(tx)
    {
      if tx == null { return false; }
      if aborted && !st.RollbackTo? { return false; }
      if st.Savepoint? {
        tx.Savepoint(pos);
        saves := saves + [Save(st.name, pos)];
        return true;
      }
      var i := FindSave(st.name);
      if i.None? {
        aborted := true;
        return false;
      }
      if st.Release? {
        ok := ReleaseAt(i.value);
      } else {
        ok := RollbackAt(i.value);
      }
    }

    method ReleaseAt(i: nat) returns (ok: bool)
      requires tx != null && i < |saves|
      modifies this, tx
      ensures tx == old(tx) && old(State()).block.Some?
      ensures var b := old(State()).block.value; var t := TxRelease(b, b.saves[i].pos);
              && ok == t.Some?
              && State() == old(State()).(
                   block := Some(if ok then t.value.(saves := b.saves[..i]) else b.(aborted := true)))
    {
      ok := tx.Release(saves[i].pos);
      if ok {
        saves := saves[..i];
      } else {
        aborted := true;
      }
    }

    method RollbackAt(i: nat) returns (ok: bool)
      requires tx != null && i < |saves|
      modifies this, tx
      ensures tx == old(tx) && old(State()).block.Some?
      ensures var b := old(State()).block.value; var t := TxRollbackTo(b, b.saves[i].pos);
              && ok == t.Some?
              && State() == old(State()).(
                   block := Some(if ok then t.value.(saves := b.saves[..i + 1], aborted := false)
                                 else b.(aborted := true)))
    {
      ok := tx.RollbackTo(saves[i].pos);
      if ok {
        saves, aborted := saves[..i + 1], false;
      } else {
        aborted := true;
      }
    }

    method SetTxnIso(level: Level) returns (ok: bool)
      requires tx != null ==> !aborted
      modifies this, tx
      ensures var o := Step(old(State()), occ, SetTransaction(level), 0);
              State() == o.ses && ok == o.ok && tx == old(tx)
    {
      if level.Invalid? {
        if tx != null { aborted := true; }
        return false;
      }
      var lvl := if level.Named? then level.iso else Default();
      if tx == null { return true; }
      if txStmts {
        aborted := true;
        return false;
      }
      if lvl.Serializable? && !txIso.Serializable? && !readOnly && occ {
        tx.tracking := true;
      }
      txIso := lvl;
      ok := true;
    }

    /** runCtx: what each statement does to the session. */
    method Run(st: Stmt, pos: nat) returns (ok: bool)
      modifies this, tx
      ensures State() == Step(old(State()), occ, st, pos).ses && ok == Step(old(State()), occ, st, pos).ok
    {
      if st.Begin? || st.Commit? || st.Rollback? {
        ok := TxnControl(st, pos);
        return;
      }
      if st.Savepoint? || st.Release? || st.RollbackTo? {
        ok := SavepointControl(st, pos);
        return;
      }
      if tx != null && aborted { return false; }
      if st.SetTransaction? {
        ok := SetTxnIso(st.level);
        return;
      }
      if st.SetDefault? {
        if st.level.Invalid? {
          if tx != null { aborted := true; }
          return false;
        }
        defIso := if st.level.Named? then Some(st.level.iso) else None;
        return true;
      }
      if st.Show? { return true; }
      ok := DataStmt(st, pos);
    }

    /** A statement that is not about transactions: its own transaction when none is open,
        otherwise staged in the open one. */
    method DataStmt(st: Stmt, pos: nat) returns (ok: bool)
      requires (st.Data? || st.Schema?) && !(tx != null && aborted)
      modifies this, tx
      ensures State() == Step(old(State()), occ, st, pos).ses && ok == Step(old(State()), occ, st, pos).ok
    {
      if tx == null {
        if st.Data? && st.write && !st.fails {
          published := published + [pos];
        }
        return !(st.Data? && st.fails);
      }
      if st.Schema? || (readOnly && st.write) {
        aborted := true;
        return false;
      }
      txStmts := true;
      if st.write {
        tx.staged, tx.writes := tx.staged + [pos], tx.writes + st.rows;
      }
      if !tx.tracking {
        tx.untracked := tx.untracked + 1;
      }
      aborted := st.fails;
      ok := !st.fails;
    }
  }
}
