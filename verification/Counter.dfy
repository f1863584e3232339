/** Watermark counters for concurrent writes (seqalloc.go): in-memory allocators hand
    out values below a durable watermark, which is raised before any value under it is
    handed out. Every allocator ever created stays in the state, live or dead, so an
    orphan that a draw fetched before it was invalidated can still act. */
module Counter {
  import opened Values

  const MAX64: nat := 0xFFFF_FFFF_FFFF_FFFF
  const BATCH: nat := 32

  type U64 = n: nat | n <= MAX64

  datatype Alloc = Alloc(dead: bool, loaded: bool, existed: bool, next: U64, watermark: U64)

  const UNLOADED := Alloc(false, false, false, 0, 0)

  /** loadLocked: anchors an allocator on the stored counter, reserving nothing. */
  function Load(a: Alloc, stored: Option<U64>, start: U64): Alloc {
    if a.loaded then a
    else
      var next := if stored.Some? then stored.value else start;
      Alloc(a.dead, true, stored.Some?, next, next)
  }

  datatype Reservation = Reserved(alloc: Alloc, wm: U64) | Reset | Exhausted

  function Max(a: U64, b: U64): U64 {
    if a >= b then a else b
  }

  /** reserveLocked: the watermark transaction. A deleted counter is not re-created by
      an allocator that saw it, and a draw extension gives way to a backward set. */
  function Reserve(a: Alloc, stored: Option<U64>, floor: U64, extending: bool): Reservation {
    if stored.Some? && extending && stored.value < a.watermark then Reset
    else if stored.None? && a.existed then Reset
    else
      var base := if stored.Some? then Max(floor, stored.value) else floor;
      if base == MAX64 then Exhausted
      else
        var wm := if base + BATCH > MAX64 then MAX64 else base + BATCH;
        Reserved(Alloc(a.dead, a.loaded, true, base, wm), wm)
  }

  // --- the protocol as a state machine ---

  datatype Sys = Sys(stored: Option<U64>, allocs: seq<Alloc>, handed: seq<U64>)

  /** One atomic step. A draw is Load, Extend when the cache is empty, then Hand; a bump
      is Load, then Skip or Raise. Between the steps of one allocator any step of
      another, a set, a delete or an invalidation may fall. A reset leaves the allocator
      usable until its user kills it, so another draw can act on it before that. */
  datatype Event =
    | Spawn
    | Anchor(i: nat, start: U64)
    | Extend(i: nat)
    | Hand(i: nat)
    | Skip(i: nat, n: U64)
    | Raise(i: nat, n: U64)
    | Kill(i: nat)
    | SetTo(n: U64)
    | Remove
    | Crash

  predicate Live(s: Sys, i: nat) {
    i < |s.allocs| && !s.allocs[i].dead
  }

  predicate Ready(s: Sys, i: nat) {
    Live(s, i) && s.allocs[i].loaded
  }

  function Reserving(s: Sys, i: nat, floor: U64, extending: bool): Sys
    requires i < |s.allocs|
  {
    match Reserve(s.allocs[i], s.stored, floor, extending)
    case Reserved(a, wm) => Sys(Some(wm), s.allocs[i := a], s.handed)
    case Reset => s
    case Exhausted => s
  }

  /** A step whose guard fails changes nothing. */
  function Step(s: Sys, e: Event): Sys {
    match e
    case Spawn => s.(allocs := s.allocs + [UNLOADED])
    case Anchor(i, start) =>
      if Live(s, i) then s.(allocs := s.allocs[i := Load(s.allocs[i], s.stored, start)]) else s
    case Extend(i) =>
      if Ready(s, i) && s.allocs[i].next >= s.allocs[i].watermark then Reserving(s, i, s.allocs[i].next, true) else s
    case Hand(i) =>
      if Ready(s, i) && s.allocs[i].next < s.allocs[i].watermark
      then s.(allocs := s.allocs[i := s.allocs[i].(next := s.allocs[i].next + 1)],
              handed := s.handed + [s.allocs[i].next])
      else s
    case Skip(i, n) =>
      if Ready(s, i) && s.allocs[i].next < n < s.allocs[i].watermark
      then s.(allocs := s.allocs[i := s.allocs[i].(next := n)]) else s
    case Raise(i, n) =>
      if Ready(s, i) && n > s.allocs[i].next && n >= s.allocs[i].watermark then Reserving(s, i, n, false) else s
    case Kill(i) =>
      if i < |s.allocs| then s.(allocs := s.allocs[i := s.allocs[i].(dead := true)]) else s
    case SetTo(n) => s.(stored := Some(n))
    case Remove => s.(stored := None)
    case Crash => s.(allocs := [])
  }

  function Run(s: Sys, es: seq<Event>): Sys {
    if es == [] then s else Step(Run(s, es[..|es| - 1]), es[|es| - 1])
  }

  /** Steps that never move the stored counter back: no delete, and sets only forward. */
  predicate Forward(s: Sys, e: Event) {
    && !e.Remove?
    && (e.SetTo? && s.stored.Some? ==> e.n >= s.stored.value)
  }

  predicate ForwardRun(s: Sys, es: seq<Event>) {
    es == [] || (ForwardRun(s, es[..|es| - 1]) && Forward(Run(s, es[..|es| - 1]), es[|es| - 1]))
  }

  // --- no value is handed out twice ---

  predicate Unhanded(s: Sys, i: nat, v: nat) {
    Ready(s, i) && s.allocs[i].next <= v < s.allocs[i].watermark
  }

  /** Unhanded ranges are below the stored watermark and pairwise disjoint, and no value
      handed out lies in one, or was handed out twice. */
  ghost predicate Inv(s: Sys) {
    && (forall i: nat :: Ready(s, i) ==> s.allocs[i].next <= s.allocs[i].watermark)
    && (forall i: nat, v: nat :: Unhanded(s, i, v) ==> s.stored.Some? && v < s.stored.value)
    && (forall i: nat, j: nat, v: nat :: Unhanded(s, i, v) && Unhanded(s, j, v) ==> i == j)
    && (forall h :: 0 <= h < |s.handed| ==> s.stored.Some? && s.handed[h] < s.stored.value)
    && (forall h, i: nat :: 0 <= h < |s.handed| ==> !Unhanded(s, i, s.handed[h]))
    && (forall h, k :: 0 <= h < k < |s.handed| ==> s.handed[h] != s.handed[k])
  }

  lemma ReservingKeeps(s: Sys, i: nat, floor: U64, extending: bool)
    requires Inv(s) && Ready(s, i) && s.allocs[i].next <= floor
    ensures Inv(Reserving(s, i, floor, extending))
  {
    var t := Reserving(s, i, floor, extending);
    if Reserve(s.allocs[i], s.stored, floor, extending).Reserved? {
      forall j: nat, v: nat | Unhanded(t, j, v) ensures j == i || Unhanded(s, j, v) {
      }
      forall j: nat | Ready(t, j) && j != i ensures Ready(s, j) {
      }
    } else {
      forall j: nat, v: nat | Unhanded(t, j, v) ensures Unhanded(s, j, v) {
      }
      forall j: nat | Ready(t, j) ensures Ready(s, j) && t.allocs[j] == s.allocs[j] {
      }
    }
  }

  lemma HandKeeps(s: Sys, i: nat)
    requires Inv(s) && Ready(s, i) && s.allocs[i].next < s.allocs[i].watermark
    ensures Inv(Step(s, Hand(i)))
  {
    var t := Step(s, Hand(i));
    assert Unhanded(s, i, s.allocs[i].next);
    forall j: nat, v: nat | Unhanded(t, j, v) ensures Unhanded(s, j, v) && (j == i ==> v != s.allocs[i].next) {
    }
    forall j: nat | Ready(t, j) ensures Ready(s, j) && t.allocs[j].next <= t.allocs[j].watermark {
    }
  }

  lemma OtherKeeps(s: Sys, e: Event)
    requires Inv(s) && Forward(s, e) && !e.Extend? && !e.Raise? && !e.Hand?
    ensures Inv(Step(s, e))
  {
    var t := Step(s, e);
    assert t.handed == s.handed && (s.stored.Some? ==> t.stored.Some? && t.stored.value >= s.stored.value);
    forall j: nat, v: nat | Unhanded(t, j, v) ensures Unhanded(s, j, v) {
    }
    forall j: nat | Ready(t, j) ensures t.allocs[j].next <= t.allocs[j].watermark {
      assert Ready(s, j) || t.allocs[j].next == t.allocs[j].watermark;
    }
  }

  lemma StepKeeps(s: Sys, e: Event)
    requires Inv(s) && Forward(s, e)
    ensures Inv(Step(s, e))
  {
    if e.Extend? {
      if Ready(s, e.i) {
        ReservingKeeps(s, e.i, s.allocs[e.i].next, true);
      }
    } else if e.Raise? {
      if Ready(s, e.i) && e.n > s.allocs[e.i].next {
        ReservingKeeps(s, e.i, e.n, false);
      }
    } else if e.Hand? {
      if Ready(s, e.i) && s.allocs[e.i].next < s.allocs[e.i].watermark {
        HandKeeps(s, e.i);
      }
    } else {
      OtherKeeps(s, e);
    }
  }

  /** Over any interleaving of draws, bumps, invalidations, forward sets and crashes, no
      value is handed out twice. */
  lemma {:induction false} NeverTwice(s: Sys, es: seq<Event>)
    requires Inv(s) && ForwardRun(s, es)
    ensures Inv(Run(s, es))
    ensures var handed := Run(s, es).handed; forall h, k :: 0 <= h < k < |handed| ==> handed[h] != handed[k]
  {
    if es != [] {
      NeverTwice(s, es[..|es| - 1]);
      StepKeeps(Run(s, es[..|es| - 1]), es[|es| - 1]);
    }
  }

  /** Nothing handed out yet, whatever is stored, is a start. */
  lemma FreshHolds(stored: Option<U64>)
    ensures Inv(Sys(stored, [], []))
  {
  }

  // --- sets and deletes are respected, in any run ---

  /** An allocator's position never passes its own watermark, sets and deletes or not. */
  ghost predicate Ordered(s: Sys) {
    forall i :: 0 <= i < |s.allocs| && s.allocs[i].loaded ==> s.allocs[i].next <= s.allocs[i].watermark
  }

  lemma {:induction false} AlwaysOrdered(s: Sys, es: seq<Event>)
    requires Ordered(s)
    ensures Ordered(Run(s, es))
  {
    if es != [] {
      AlwaysOrdered(s, es[..|es| - 1]);
    }
  }

  /** A draw extension continues exactly from the stored value, or leaves it alone: in
      any run, a set, backward ones included, is never overwritten by a stale position. */
  lemma ExtensionRespectsSets(s: Sys, es: seq<Event>, i: nat)
    requires Ordered(s) && Ready(Run(s, es), i)
    requires Run(s, es).allocs[i].next >= Run(s, es).allocs[i].watermark && Run(s, es).stored.Some?
    ensures var u, t := Run(s, es), Step(Run(s, es), Extend(i));
            || t.stored == u.stored
            || (t.allocs[i].next == u.stored.value && u.stored.value < t.stored.value <= u.stored.value + BATCH)
  {
    AlwaysOrdered(s, es);
  }

  /** Allocators that have all seen the counter. */
  ghost predicate AllSaw(s: Sys) {
    forall i :: 0 <= i < |s.allocs| ==> s.allocs[i].loaded && s.allocs[i].existed
  }

  /** Allocators that have seen the counter never re-create a deleted one, whatever
      they draw or bump. */
  lemma {:induction false} DeletedStaysDeleted(s: Sys, es: seq<Event>)
    requires s.stored.None? && AllSaw(s)
    requires forall k :: 0 <= k < |es| ==> !es[k].SetTo? && !es[k].Spawn?
    ensures Run(s, es).stored.None? && AllSaw(Run(s, es))
  {
    if es != [] {
      DeletedStaysDeleted(s, es[..|es| - 1]);
    }
  }

  // --- the allocator as it runs ---

  class Cell {
    var stored: Option<U64>
    constructor (v: Option<U64>)
      ensures stored == v
    {
      stored := v;
    }
  }

  datatype Drawn = Value(v: U64) | WasReset | Spent | KeptLosing

  /** What one draw does: its outcome, the allocator and the stored counter after. */
  datatype Draw = Draw(out: Drawn, alloc: Alloc, stored: Option<U64>)

  function DrawFrom(a: Alloc, stored: Option<U64>, start: U64): Draw {
    var l := Load(a, stored, start);
    if l.next < l.watermark then Draw(Value(l.next), l.(next := l.next + 1), stored)
    else
      match Reserve(l, stored, l.next, true)
      case Reset => Draw(WasReset, l, stored)
      case Exhausted => Draw(Spent, l, stored)
      case Reserved(b, wm) => Draw(Value(b.next), b.(next := b.next + 1), Some(wm))
  }

  /** A draw is the machine's steps Anchor, Extend and Hand; a reset hands out nothing. */
  lemma DrawIsSteps(a: Alloc, stored: Option<U64>, start: U64)
    requires !a.dead
    ensures var d := DrawFrom(a, stored, start);
            var t := Step(Step(Step(Sys(stored, [a], []), Anchor(0, start)), Extend(0)), Hand(0));
            t == Sys(d.stored, [d.alloc], if d.out.Value? then [d.out.v] else [])
  {
    var l := Load(a, stored, start);
    var s1 := Step(Sys(stored, [a], []), Anchor(0, start));
    assert s1 == Sys(stored, [l], []);
    var s2 := Step(s1, Extend(0));
    assert s2.allocs == [s2.allocs[0]];
    assert Step(s2, Hand(0)).allocs == [Step(s2, Hand(0)).allocs[0]];
  }

  /** A fresh allocator anchors on what is stored, so it is never reset. */
  lemma FreshDraw(stored: Option<U64>, start: U64)
    ensures var d := DrawFrom(UNLOADED, stored, start);
            var base := if stored.Some? then stored.value else start;
            && d.out == (if base == MAX64 then Spent else Value(base))
            && !d.alloc.dead && d.alloc.next <= d.alloc.watermark
            && (d.out.Spent? ==> d.stored == stored)
            && (d.out.Value? ==> d.stored.Some? && base < d.stored.value)
  {
  }

  /** Only a loaded allocator with an empty cache can be reset; undisturbed, an empty
      cache continues at the stored value. */
  lemma DrawAgain(a: Alloc, stored: Option<U64>, start: U64)
    requires !a.dead && (a.loaded ==> a.next <= a.watermark)
    ensures var d := DrawFrom(a, stored, start);
            && (d.out.WasReset? ==> a.loaded && a.next == a.watermark && d.stored == stored)
            && (d.out.Spent? ==> d.stored == stored)
            && !d.out.KeptLosing? && !d.alloc.dead && d.alloc.next <= d.alloc.watermark
            && (stored.None? && a.existed && a.loaded && a.next == a.watermark ==> d.out.WasReset?)
            && (stored.Some? && a.loaded && a.next == a.watermark && stored.value < MAX64 ==>
                 d.out.WasReset? || d.out == Value(stored.value))
            && (d.out.Value? && !(a.loaded && a.next < a.watermark) ==> d.stored.Some? && d.out.v < d.stored.value)
  {
  }

  /** What a bump does: whether it succeeded, the allocator and the stored counter. */
  datatype Bump = Bump(out: Drawn, alloc: Alloc, stored: Option<U64>)

  function BumpFrom(a: Alloc, stored: Option<U64>, n: U64): Bump {
    var l := Load(a, stored, 1);
    if n <= l.next then Bump(Value(n), l, stored)
    else if n < l.watermark then Bump(Value(n), l.(next := n), stored)
    else
      match Reserve(l, stored, n, false)
      case Reset => Bump(WasReset, l, stored)
      case Exhausted => Bump(Spent, l, stored)
      case Reserved(b, wm) => Bump(Value(n), b, Some(wm))
  }

  /** A bump is the machine's steps Anchor and then Skip or Raise, whichever applies. */
  lemma BumpIsSteps(a: Alloc, stored: Option<U64>, n: U64)
    requires !a.dead
    ensures var d := BumpFrom(a, stored, n);
            var s := Step(Sys(stored, [a], []), Anchor(0, 1));
            var t := if n < s.allocs[0].watermark then Step(s, Skip(0, n)) else Step(s, Raise(0, n));
            t == Sys(d.stored, [d.alloc], [])
  {
    var l := Load(a, stored, 1);
    var s := Step(Sys(stored, [a], []), Anchor(0, 1));
    assert s == Sys(stored, [l], []);
    var t := if n < l.watermark then Step(s, Skip(0, n)) else Step(s, Raise(0, n));
    assert t.allocs == [t.allocs[0]];
  }

  class CounterAlloc {
    var dead: bool
    var loaded: bool
    var existed: bool
    var next: U64
    var watermark: U64

    constructor ()
      ensures Val() == UNLOADED
    {
      dead, loaded, existed, next, watermark := false, false, false, 0, 0;
    }

    function Val(): Alloc
      reads this
    {
      Alloc(dead, loaded, existed, next, watermark)
    }

    method LoadLocked(cell: Cell, start: U64)
      modifies this
      ensures Val() == Load(old(Val()), cell.stored, start)
    {
      if loaded { return; }
      if cell.stored.Some? {
        next, existed := cell.stored.value, true;
      } else {
        next, existed := start, false;
      }
      watermark, loaded := next, true;
    }

    method ReserveLocked(cell: Cell, floor: U64, extending: bool) returns (r: Reservation)
      modifies this, cell
      ensures r == Reserve(old(Val()), old(cell.stored), floor, extending)
      ensures r.Reserved? ==> Val() == r.alloc && cell.stored == Some(r.wm)
      ensures !r.Reserved? ==> Val() == old(Val()) && cell.stored == old(cell.stored)
    {
      var base := floor;
      if cell.stored.Some? {
        var s := cell.stored.value;
        if extending && s < watermark { return Reset; }
        if s > base { base := s; }
      } else if existed {
        return Reset;
      }
      if base == MAX64 { return Exhausted; }
      var wm := if base + BATCH > MAX64 then MAX64 else base + BATCH;
      cell.stored := Some(wm);
      next, watermark, existed := base, wm, true;
      r := Reserved(Val(), wm);
    }

    /** takeLocked runs the steps of one draw; a reset leaves the counter as it was. */
    method TakeLocked(cell: Cell, start: U64) returns (r: Drawn)
      requires !dead
      modifies this, cell
      ensures Draw(r, Val(), cell.stored) == DrawFrom(old(Val()), old(cell.stored), start)
    {
      LoadLocked(cell, start);
      if next >= watermark {
        var res := ReserveLocked(cell, next, true);
        if res.Reset? { return WasReset; }
        if res.Exhausted? { return Spent; }
      }
      r := Value(next);
      next := next + 1;
    }

    /** The body of bumpCounterAllocTo under the lock. */
    method BumpLocked(cell: Cell, n: U64) returns (r: Drawn)
      requires !dead
      modifies this, cell
      ensures Bump(r, Val(), cell.stored) == BumpFrom(old(Val()), old(cell.stored), n)
    {
      LoadLocked(cell, 1);
      if n <= next { return Value(n); }
      if n < watermark {
        next := n;
        return Value(n);
      }
      var res := ReserveLocked(cell, n, false);
      r := if res.Reset? then WasReset else if res.Exhausted? then Spent else Value(n);
    }
  }

  /** The engine's slot for one counter: the stored cell and the current allocator. */
  class Slot {
    const cell: Cell
    var cur: CounterAlloc?

    constructor (c: Cell)
      ensures cell == c && cur == null
    {
      cell, cur := c, null;
    }

    predicate Valid()
      reads this, cur
    {
      cur != null ==> !cur.dead && (cur.loaded ==> cur.next <= cur.watermark)
    }

    /** allocCounter, undisturbed: the retry loop always ends in a value or exhaustion.
        A counter deleted under its allocator restarts at `start`, and one set backward
        under an empty cache continues exactly at the set value. */
    method AllocCounter(start: U64) returns (r: Drawn)
      requires Valid()
      modifies this, cell, cur
      ensures Valid() && (r.Value? || r.Spent?)
      ensures r.Spent? ==> cell.stored == old(cell.stored)
      ensures old(cell.stored.None? && (cur == null || (cur.existed && cur.loaded && cur.next == cur.watermark))) ==>
        start < MAX64 ==> r == Value(start)
      ensures old(cell.stored.Some? && cur != null && cur.loaded && cur.next == cur.watermark) ==>
        old(cell.stored.value) < MAX64 ==> r == Value(old(cell.stored.value))
      ensures r.Value? ==>
        (cell.stored.Some? && r.v < cell.stored.value) || old(cur != null && cur.loaded && cur.next < cur.watermark)
    {
      var laps := 0;
      while laps < 8
        invariant 0 <= laps <= 2 && Valid() && cell.stored == old(cell.stored)
        invariant laps == 0 ==> cur == old(cur)
        invariant laps == 0 && cur != null ==> cur.Val() == old(if cur == null then UNLOADED else cur.Val())
        invariant laps == 1 ==> cur == null && old(cur != null && cur.loaded && cur.next == cur.watermark)
        invariant laps < 2
      {
        FreshDraw(cell.stored, start);
        if cur == null { cur := new CounterAlloc(); }
        var a := cur;
        DrawAgain(a.Val(), cell.stored, start);
        r := a.TakeLocked(cell, start);
        if !r.WasReset? { return; }
        a.dead := true;
        cur := null;
        laps := laps + 1;
      }
      r := KeptLosing;
    }
  }
}
