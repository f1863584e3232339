/** Sequence objects (seqobj.go, seqalloc.go): int64 steps with bounds and cycling, and
    draws served from CACHE-sized reservations. */
module SeqObj {
  import opened Identity

  datatype SeqDesc = SeqDesc(increment: I64, min: I64, max: I64, cycle: bool, cache: I64, last: I64, called: bool)

  /** What checkSeqDesc demands, and a position within the bounds. */
  predicate ValidSeq(d: SeqDesc) {
    d.increment != 0 && d.min <= d.max && d.cache >= 1 && d.min <= d.last <= d.max
  }

  /** int64 addition wraps around. */
  function Wrap(n: int): I64
    requires -0x1_0000_0000_0000_0000 <= n <= 0xFFFF_FFFF_FFFF_FFFF
  {
    if n > MAXI64 then n - 0x1_0000_0000_0000_0000
    else if n < -0x8000_0000_0000_0000 then n + 0x1_0000_0000_0000_0000
    else n
  }

  /** One draw: a value and the descriptor after it, or an error at a bound. */
  datatype Stepped = Drew(v: I64, desc: SeqDesc) | AtMaximum | AtMinimum

  /** stepSeq, in machine arithmetic. */
  function StepSeq(d: SeqDesc): Stepped {
    if !d.called then Drew(d.last, d.(called := true))
    else
      var next := Wrap(d.last + d.increment);
      var over := d.increment > 0 && (next > d.max || next < d.last);
      var under := d.increment < 0 && (next < d.min || next > d.last);
      if (over || under) && !d.cycle then (if under then AtMinimum else AtMaximum)
      else
        var v := if over then d.min else if under then d.max else next;
        Drew(v, d.(last := v))
  }

  /** The same step over the integers: leave the bounds, and it cycles or errs. */
  function TrueStep(d: SeqDesc): Stepped {
    if !d.called then Drew(d.last, d.(called := true))
    else
      var next := d.last + d.increment;
      if d.min <= next <= d.max then Drew(next, d.(last := next))
      else if d.cycle then (var v := if d.increment > 0 then d.min else d.max; Drew(v, d.(last := v)))
      else if d.increment > 0 then AtMaximum
      else AtMinimum
  }

  /** Wraparound is caught exactly when the true sum leaves the bounds. */
  lemma WrapCaught(d: SeqDesc)
    requires ValidSeq(d)
    ensures StepSeq(d) == TrueStep(d)
    ensures StepSeq(d).Drew? ==> ValidSeq(StepSeq(d).desc)
  {
    var next := d.last + d.increment;
    if next > MAXI64 {
      assert Wrap(next) < d.last;
    } else if next < -0x8000_0000_0000_0000 {
      assert Wrap(next) > d.last;
    }
  }

  /** From any position: the machine step is the true step exactly when the step does not
      fall short of the bounds it moves toward. */
  lemma StepExactly(d: SeqDesc)
    requires d.increment != 0 && d.min <= d.max
    ensures StepSeq(d) == TrueStep(d)
       <==> !d.called || (if d.increment > 0 then d.min <= d.last + d.increment else d.last + d.increment <= d.max)
  {
    var next := d.last + d.increment;
    if next > MAXI64 {
      assert Wrap(next) < d.last;
    } else if next < -0x8000_0000_0000_0000 {
      assert Wrap(next) > d.last;
    }
  }

  /** From outside the bounds the check can miss: below MINVALUE, an ascending step that
      is still below it is drawn. Staying within the bounds is what the check needs. */
  lemma OutsideMissed()
    ensures exists d: SeqDesc ::
      d.increment != 0 && d.min <= d.max && !(d.min <= d.last <= d.max) && StepSeq(d) != TrueStep(d)
  {
    var d := SeqDesc(5, 0, 10, false, 1, -20, true);
    assert TrueStep(d) == AtMaximum && StepSeq(d).Drew?;
  }

  // --- repeated steps ---

  /** n steps in a row, all of which draw. */
  predicate CanStep(d: SeqDesc, n: nat)
    decreases n
  {
    n == 0 || (StepSeq(d).Drew? && CanStep(StepSeq(d).desc, n - 1))
  }

  function Advance(d: SeqDesc, n: nat): SeqDesc
    requires CanStep(d, n)
    decreases n
  {
    if n == 0 then d else Advance(StepSeq(d).desc, n - 1)
  }

  lemma {:induction false} AdvanceOne(d: SeqDesc, n: nat)
    requires CanStep(d, n)
    ensures CanStep(d, n + 1) <==> StepSeq(Advance(d, n)).Drew?
    ensures CanStep(d, n + 1) ==> Advance(d, n + 1) == StepSeq(Advance(d, n)).desc
    decreases n
  {
    if n > 0 {
      AdvanceOne(StepSeq(d).desc, n - 1);
    }
  }

  lemma {:induction false} AdvanceValid(d: SeqDesc, n: nat)
    requires ValidSeq(d) && CanStep(d, n)
    ensures ValidSeq(Advance(d, n))
    ensures Advance(d, n) == d.(last := Advance(d, n).last, called := Advance(d, n).called)
    decreases n
  {
    if n > 0 {
      WrapCaught(d);
      AdvanceValid(StepSeq(d).desc, n - 1);
    }
  }

  // --- the allocator ---

  class SeqCell {
    var desc: SeqDesc
    constructor (d: SeqDesc)
      ensures desc == d
    {
      desc := d;
    }
  }

  /** The state of one sequence: the stored descriptor, the hand-out position and how
      many draws are still reserved. */
  datatype SeqState = SeqState(stored: SeqDesc, pos: SeqDesc, reserved: nat)

  /** The stored position is the hand-out position after the reserved draws, all of
      which exist. */
  ghost predicate Reserving(s: SeqState) {
    && ValidSeq(s.stored)
    && (s.reserved > 0 ==> ValidSeq(s.pos) && CanStep(s.pos, s.reserved) && Advance(s.pos, s.reserved) == s.stored)
  }

  /** The position repeated single steps would be at. */
  function Position(s: SeqState): SeqDesc {
    if s.reserved == 0 then s.stored else s.pos
  }

  /** How many of the next n draws exist. */
  function BatchOf(d: SeqDesc, n: nat): (k: nat)
    ensures k <= n && CanStep(d, k) && (StepSeq(d).Drew? && n > 0 ==> k > 0)
    ensures k < n ==> !CanStep(d, k + 1)
    decreases n
  {
    if n == 0 || !StepSeq(d).Drew? then 0 else 1 + BatchOf(StepSeq(d).desc, n - 1)
  }

  lemma {:induction false} BatchUnique(d: SeqDesc, n: nat, k: nat)
    requires k <= n && CanStep(d, k) && (k == n || !CanStep(d, k + 1))
    ensures k == BatchOf(d, n)
    decreases n
  {
    if k > 0 {
      BatchUnique(StepSeq(d).desc, n - 1, k - 1);
    }
  }

  /** One draw on the cached state, as a function. */
  function CachedDraw(s: SeqState): (Stepped, SeqState)
    requires Reserving(s)
  {
    if s.reserved == 0 then
      var k := BatchOf(s.stored, s.stored.cache);
      var step := StepSeq(s.stored);
      if !step.Drew? then (step, s)
      else (step, SeqState(Advance(s.stored, k), step.desc, k - 1))
    else (StepSeq(s.pos), SeqState(s.stored, StepSeq(s.pos).desc, s.reserved - 1))
  }

  class SeqObjAlloc {
    var desc: SeqDesc
    var reserved: nat

    constructor (d: SeqDesc)
      ensures desc == d && reserved == 0
    {
      desc, reserved := d, 0;
    }

    function State(cell: SeqCell): SeqState
      reads this, cell
    {
      SeqState(cell.desc, desc, reserved)
    }

    /** reserveLocked: steps a copy of the stored descriptor through up to CACHE draws;
        it errs only when not even one exists. */
    method ReserveLocked(cell: SeqCell) returns (r: Stepped)
      requires ValidSeq(cell.desc) && reserved == 0
      modifies this, cell
      ensures r == StepSeq(old(cell.desc)) && Reserving(State(cell)) && ValidSeq(cell.desc)
      ensures r.Drew? ==> 1 <= reserved <= cell.desc.cache && desc == old(cell.desc)
      ensures !r.Drew? ==> reserved == 0 && desc == old(desc) && cell.desc == old(cell.desc)
      ensures r.Drew? ==> reserved == BatchOf(old(cell.desc), old(cell.desc).cache)
      ensures r.Drew? ==> cell.desc == Advance(old(cell.desc), reserved)
    {
      var pos := cell.desc;
      var work, k := pos, 0;
      while k < pos.cache
        invariant 0 <= k <= pos.cache && CanStep(pos, k) && Advance(pos, k) == work
        invariant k > 0 ==> StepSeq(pos).Drew?
        invariant cell.desc == pos == old(cell.desc) && reserved == 0 && desc == old(desc)
        invariant ValidSeq(work) && work.cache == pos.cache
      {
        var step := StepSeq(work);
        AdvanceOne(pos, k);
        AdvanceValid(pos, k);
        if !step.Drew? {
          if k == 0 { return step; }
          BatchUnique(pos, pos.cache, k);
          break;
        }
        WrapCaught(work);
        work, k := step.desc, k + 1;
      }
      if k == pos.cache {
        BatchUnique(pos, pos.cache, k);
      }
      cell.desc := work;
      desc, reserved := pos, k;
      r := StepSeq(pos);
    }

    /** allocSeqObj: a draw through the cache gives exactly what one single step at the
        current position gives, bound errors and cycling included. */
    method Draw(cell: SeqCell) returns (r: Stepped)
      requires Reserving(State(cell))
      modifies this, cell
      ensures Reserving(State(cell)) && (r, State(cell)) == CachedDraw(old(State(cell)))
      ensures r == StepSeq(old(Position(State(cell))))
      ensures Position(State(cell)) == if r.Drew? then r.desc else old(Position(State(cell)))
    {
      if reserved == 0 {
        r := ReserveLocked(cell);
        if !r.Drew? { return; }
      }
      r := StepSeq(desc);
      WrapCaught(desc);
      desc, reserved := r.desc, reserved - 1;
    }
  }

  // --- runs with crashes ---

  lemma CachedDrawKeeps(s: SeqState)
    requires Reserving(s)
    ensures var (r, t) := CachedDraw(s);
            Reserving(t) && r == StepSeq(Position(s)) && Position(t) == if r.Drew? then r.desc else Position(s)
  {
    if s.reserved == 0 {
      var k := BatchOf(s.stored, s.stored.cache);
      WrapCaught(s.stored);
      AdvanceValid(s.stored, k);
    } else {
      WrapCaught(s.pos);
    }
  }

  datatype SeqEvent = NextVal | Forget

  /** A run of draws and crashes: the values handed out and the state after. A crash, or
      an invalidation, forgets the reserved draws. */
  ghost function SeqRun(s: SeqState, es: seq<SeqEvent>): (seq<I64>, SeqState)
    requires Reserving(s)
    ensures Reserving(SeqRun(s, es).1)
  {
    if es == [] then ([], s)
    else
      var (vs, t) := SeqRun(s, es[..|es| - 1]);
      if es[|es| - 1].Forget? then (vs, SeqState(t.stored, t.stored, 0))
      else
        CachedDrawKeeps(t);
        var (r, u) := CachedDraw(t);
        (if r.Drew? then vs + [r.v] else vs, u)
  }

  /** The next value due, past any bound. */
  function Due(d: SeqDesc): int {
    if d.called then d.last + d.increment else d.last
  }

  /** a comes strictly before b in a sequence's direction. */
  predicate Precedes(inc: I64, a: int, b: int) {
    if inc > 0 then a < b else a > b
  }

  predicate NotAfter(inc: I64, a: int, b: int) {
    a == b || Precedes(inc, a, b)
  }

  lemma {:induction false} AdvanceDue(d: SeqDesc, n: nat)
    requires ValidSeq(d) && !d.cycle && CanStep(d, n)
    ensures NotAfter(d.increment, Due(d), Due(Advance(d, n)))
    decreases n
  {
    if n > 0 {
      WrapCaught(d);
      AdvanceDue(StepSeq(d).desc, n - 1);
    }
  }

  /** A non-cycling sequence: every value handed out precedes what is due at the
      position, and so at the stored position; and values only move forward. */
  ghost predicate Monotone(inc: I64, vs: seq<I64>, s: SeqState) {
    && s.stored.increment == inc && (s.reserved > 0 ==> s.pos.increment == inc && !s.pos.cycle) && !s.stored.cycle
    && (forall i :: 0 <= i < |vs| ==> Precedes(inc, vs[i], Due(Position(s))))
    && (forall i, j :: 0 <= i < j < |vs| ==> Precedes(inc, vs[i], vs[j]))
  }

  lemma DrawMonotone(inc: I64, vs: seq<I64>, s: SeqState)
    requires Reserving(s) && Monotone(inc, vs, s)
    ensures var (r, t) := CachedDraw(s); Monotone(inc, if r.Drew? then vs + [r.v] else vs, t)
  {
    CachedDrawKeeps(s);
    WrapCaught(Position(s));
    if s.reserved == 0 {
      AdvanceValid(s.stored, BatchOf(s.stored, s.stored.cache));
    }
  }

  lemma ForgetMonotone(inc: I64, vs: seq<I64>, s: SeqState)
    requires Reserving(s) && Monotone(inc, vs, s)
    ensures Monotone(inc, vs, SeqState(s.stored, s.stored, 0))
  {
    if s.reserved > 0 {
      AdvanceDue(s.pos, s.reserved);
    }
  }

  /** From one allocator at a time a non-cycling sequence hands out its values in order,
      whatever draws and crashes happen, and its stored position is past all of them. */
  lemma {:induction false} InOrder(d: SeqDesc, es: seq<SeqEvent>)
    requires ValidSeq(d) && !d.cycle
    ensures var (vs, s) := SeqRun(SeqState(d, d, 0), es);
            && Monotone(d.increment, vs, s)
            && (forall i :: 0 <= i < |vs| ==> Precedes(d.increment, vs[i], Due(s.stored)))
  {
    if es != [] {
      InOrder(d, es[..|es| - 1]);
      var (vs, t) := SeqRun(SeqState(d, d, 0), es[..|es| - 1]);
      if es[|es| - 1].Forget? {
        ForgetMonotone(d.increment, vs, t);
      } else {
        DrawMonotone(d.increment, vs, t);
      }
    }
    var (vs, s) := SeqRun(SeqState(d, d, 0), es);
    ForgetMonotone(d.increment, vs, s);
  }

  // --- several allocators at once ---

  /** An allocator, live or dead. One that a draw fetched before it was invalidated is out
      of the map but can still reserve and hand out until it is marked dead. */
  datatype SeqAlloc = SeqAlloc(dead: bool, pos: SeqDesc, reserved: nat)

  datatype SeqSys = SeqSys(stored: SeqDesc, allocs: seq<SeqAlloc>, handed: seq<I64>)

  /** One atomic step; a draw is Refill when nothing is reserved, then Hand. */
  datatype SysEvent = Spawn | Refill(i: nat) | Hand(i: nat) | Kill(i: nat) | SetVal(v: I64, called: bool) | Crash

  predicate CanAct(s: SeqSys, i: nat) {
    i < |s.allocs| && !s.allocs[i].dead
  }

  /** A step whose guard fails changes nothing. */
  function SysStep(s: SeqSys, e: SysEvent): SeqSys {
    match e
    case Spawn => s.(allocs := s.allocs + [SeqAlloc(false, s.stored, 0)])
    case Refill(i) =>
      if CanAct(s, i) && s.allocs[i].reserved == 0 && StepSeq(s.stored).Drew? then
        var k := if s.stored.cache < 1 then 1 else s.stored.cache;
        var n := BatchOf(s.stored, k);
        SeqSys(Advance(s.stored, n), s.allocs[i := SeqAlloc(false, s.stored, n)], s.handed)
      else s
    case Hand(i) =>
      if CanAct(s, i) && s.allocs[i].reserved > 0 && StepSeq(s.allocs[i].pos).Drew? then
        var d := StepSeq(s.allocs[i].pos);
        s.(allocs := s.allocs[i := SeqAlloc(false, d.desc, s.allocs[i].reserved - 1)], handed := s.handed + [d.v])
      else s
    case Kill(i) =>
      if i < |s.allocs| then s.(allocs := s.allocs[i := s.allocs[i].(dead := true)]) else s
    case SetVal(v, called) =>
      if s.stored.min <= v <= s.stored.max then s.(stored := s.stored.(last := v, called := called)) else s
    case Crash => s.(allocs := [])
  }

  function SysRun(s: SeqSys, es: seq<SysEvent>): SeqSys {
    if es == [] then s else SysStep(SysRun(s, es[..|es| - 1]), es[|es| - 1])
  }

  /** A value's place in the sequence's direction. */
  function Along(inc: I64, v: int): int {
    if inc > 0 then v else -v
  }

  /** Where the next draw at a descriptor stands. */
  function Place(d: SeqDesc): int {
    Along(d.increment, Due(d))
  }

  /** Steps that never move the stored position back. */
  predicate Onward(s: SeqSys, e: SysEvent) {
    e.SetVal? ==> Place(SysStep(s, e).stored) >= Place(s.stored)
  }

  predicate OnwardRun(s: SeqSys, es: seq<SysEvent>) {
    es == [] || (OnwardRun(s, es[..|es| - 1]) && Onward(SysRun(s, es[..|es| - 1]), es[|es| - 1]))
  }

  /** A non-cycling descriptor of one sequence: only its position may differ. */
  predicate OneSeq(d: SeqDesc, e: SeqDesc) {
    ValidSeq(e) && !e.cycle && e == d.(last := e.last, called := e.called)
  }

  /** What an allocator still holds is a stretch of draws that all exist. */
  ghost predicate HoldsDraws(d: SeqDesc, a: SeqAlloc) {
    a.reserved > 0 ==> OneSeq(d, a.pos) && CanStep(a.pos, a.reserved)
  }

  /** Where an allocator's stretch ends. */
  ghost function End(a: SeqAlloc): int
    requires CanStep(a.pos, a.reserved)
  {
    Place(Advance(a.pos, a.reserved))
  }

  /** The value v is still to be handed out by a. */
  ghost predicate Held(d: SeqDesc, a: SeqAlloc, v: int)
    requires HoldsDraws(d, a)
  {
    a.reserved > 0 && Place(a.pos) <= Along(d.increment, v) < End(a)
  }

  /** Stretches lie before the stored position and apart, and no value handed out lies in
      one, at or past the stored position, or was handed out twice. */
  ghost predicate SysInv(d: SeqDesc, s: SeqSys) {
    && OneSeq(d, s.stored)
    && (forall i :: 0 <= i < |s.allocs| ==> HoldsDraws(d, s.allocs[i]))
    && (forall i, v: int :: 0 <= i < |s.allocs| && Held(d, s.allocs[i], v) ==> Along(d.increment, v) < Place(s.stored))
    && (forall i, j, v: int ::
          0 <= i < |s.allocs| && 0 <= j < |s.allocs| && Held(d, s.allocs[i], v) && Held(d, s.allocs[j], v) ==> i == j)
    && (forall h :: 0 <= h < |s.handed| ==> Along(d.increment, s.handed[h]) < Place(s.stored))
    && (forall h, i :: 0 <= h < |s.handed| && 0 <= i < |s.allocs| ==> !Held(d, s.allocs[i], s.handed[h]))
    && (forall h, k :: 0 <= h < k < |s.handed| ==> s.handed[h] != s.handed[k])
  }

  /** A draw takes the value at its place and moves on. */
  lemma StepPlace(d: SeqDesc, e: SeqDesc)
    requires OneSeq(d, e) && StepSeq(e).Drew?
    ensures var r := StepSeq(e);
            OneSeq(d, r.desc) && Along(d.increment, r.v) == Place(e) < Place(r.desc)
  {
    WrapCaught(e);
  }

  lemma {:induction false} AdvancePlace(d: SeqDesc, e: SeqDesc, n: nat)
    requires OneSeq(d, e) && CanStep(e, n)
    ensures OneSeq(d, Advance(e, n)) && Place(e) + n <= Place(Advance(e, n))
    decreases n
  {
    if n > 0 {
      StepPlace(d, e);
      AdvancePlace(d, StepSeq(e).desc, n - 1);
    }
  }

  lemma RefillKeeps(d: SeqDesc, s: SeqSys, i: nat)
    requires SysInv(d, s) && CanAct(s, i) && s.allocs[i].reserved == 0 && StepSeq(s.stored).Drew?
    ensures SysInv(d, SysStep(s, Refill(i)))
  {
    var t := SysStep(s, Refill(i));
    var n := t.allocs[i].reserved;
    AdvancePlace(d, s.stored, n);
    assert End(t.allocs[i]) == Place(t.stored);
    forall j | 0 <= j < |t.allocs| && j != i ensures t.allocs[j] == s.allocs[j] {
    }
  }

  lemma HandKeeps(d: SeqDesc, s: SeqSys, i: nat)
    requires SysInv(d, s) && CanAct(s, i) && s.allocs[i].reserved > 0 && StepSeq(s.allocs[i].pos).Drew?
    ensures SysInv(d, SysStep(s, Hand(i)))
  {
    hide HoldsDraws, Held, StepSeq, ValidSeq;
    var a, t := s.allocs[i], SysStep(s, Hand(i));
    HandTakes(d, a);
    BeforeStored(d, s, i, StepSeq(a.pos).v);
    forall j | 0 <= j < |t.allocs| && j != i ensures t.allocs[j] == s.allocs[j] {
    }
  }

  lemma BeforeStored(d: SeqDesc, s: SeqSys, i: nat, v: int)
    requires SysInv(d, s) && i < |s.allocs| && Held(d, s.allocs[i], v)
    ensures Along(d.increment, v) < Place(s.stored)
  {
  }

  /** Handing out takes the first value of a stretch and leaves the rest. */
  lemma HandTakes(d: SeqDesc, a: SeqAlloc)
    requires HoldsDraws(d, a) && a.reserved > 0 && StepSeq(a.pos).Drew?
    ensures var r := StepSeq(a.pos);
            var b := SeqAlloc(false, r.desc, a.reserved - 1);
            && HoldsDraws(d, b) && Held(d, a, r.v)
            && forall v: int :: Held(d, b, v) ==> Held(d, a, v) && v != r.v
  {
    StepPlace(d, a.pos);
    AdvancePlace(d, a.pos, a.reserved);
  }

  lemma QuietKeeps(d: SeqDesc, s: SeqSys, e: SysEvent)
    requires SysInv(d, s) && Onward(s, e) && !e.Refill? && !e.Hand?
    ensures SysInv(d, SysStep(s, e))
  {
    var t := SysStep(s, e);
    assert t.handed == s.handed && Place(s.stored) <= Place(t.stored);
    forall j | 0 <= j < |t.allocs|
      ensures HoldsDraws(d, t.allocs[j])
      ensures forall v: int :: Held(d, t.allocs[j], v) ==> j < |s.allocs| && Held(d, s.allocs[j], v)
    {
    }
  }

  lemma SysStepKeeps(d: SeqDesc, s: SeqSys, e: SysEvent)
    requires SysInv(d, s) && Onward(s, e)
    ensures SysInv(d, SysStep(s, e))
  {
    hide SysInv;
    match e
    case Refill(i) =>
      if CanAct(s, i) && s.allocs[i].reserved == 0 && StepSeq(s.stored).Drew? {
        RefillKeeps(d, s, i);
      }
    case Hand(i) =>
      if CanAct(s, i) && s.allocs[i].reserved > 0 && StepSeq(s.allocs[i].pos).Drew? {
        HandKeeps(d, s, i);
      }
    case _ => QuietKeeps(d, s, e);
  }

  /** Over any interleaving of draws by any number of allocators, orphans included, with
      invalidations, forward setvals and crashes, a non-cycling sequence never hands a
      value out twice, and its stored position is past every value handed out. */
  lemma {:induction false} NeverRepeats(d: SeqDesc, es: seq<SysEvent>)
    requires ValidSeq(d) && !d.cycle && OnwardRun(SeqSys(d, [], []), es)
    ensures var s := SysRun(SeqSys(d, [], []), es);
            && SysInv(d, s)
            && (forall h, k :: 0 <= h < k < |s.handed| ==> s.handed[h] != s.handed[k])
            && (forall h :: 0 <= h < |s.handed| ==> Precedes(d.increment, s.handed[h], Due(s.stored)))
  {
    if es != [] {
      NeverRepeats(d, es[..|es| - 1]);
      SysStepKeeps(d, SysRun(SeqSys(d, [], []), es[..|es| - 1]), es[|es| - 1]);
    }
  }

  /** A draw through the cache is the machine's steps Refill and Hand. */
  lemma DrawIsSteps(s: SeqState)
    requires Reserving(s)
    ensures var (r, t) := CachedDraw(s);
            SysStep(SysStep(SeqSys(s.stored, [SeqAlloc(false, s.pos, s.reserved)], []), Refill(0)), Hand(0))
            == SeqSys(t.stored, [SeqAlloc(false, t.pos, t.reserved)], if r.Drew? then [r.v] else [])
  {
    var u := SeqSys(s.stored, [SeqAlloc(false, s.pos, s.reserved)], []);
    var w := SysStep(u, Refill(0));
    assert w.allocs == [w.allocs[0]] && SysStep(w, Hand(0)).allocs == [SysStep(w, Hand(0)).allocs[0]];
  }

  /** Without crashes, the values drawn through the cache are those of repeated single
      steps. */
  lemma {:induction false} CacheInvisible(d: SeqDesc, n: nat)
    requires ValidSeq(d)
    ensures var (vs, s) := SeqRun(SeqState(d, d, 0), seq(n, i => NextVal));
            vs == SingleSteps(d, n).0 && Position(s) == SingleSteps(d, n).1
  {
    if n > 0 {
      CacheInvisible(d, n - 1);
      var es := seq(n, i => NextVal);
      assert es[..n - 1] == seq(n - 1, i => NextVal);
      CachedDrawKeeps(SeqRun(SeqState(d, d, 0), es[..n - 1]).1);
    }
  }

  /** Repeated single steps; an error repeats and draws nothing. */
  function SingleSteps(d: SeqDesc, n: nat): (seq<I64>, SeqDesc) {
    if n == 0 then ([], d)
    else
      var (vs, e) := SingleSteps(d, n - 1);
      if StepSeq(e).Drew? then (vs + [StepSeq(e).v], StepSeq(e).desc) else (vs, e)
  }
}
