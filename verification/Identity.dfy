/** Identity columns (identity.go): a NULL draws the column's next counter value, an
    explicit non-negative value raises the counter past itself. In both write modes a
    drawn value is new: no identity value inserted before, or about to be by a
    statement that already raised the counter, equals it. */
module Identity {
  import opened Values
  import opened Counter

  const MAXI64: nat := 0x7FFF_FFFF_FFFF_FFFF

  type I64 = n: int | -0x8000_0000_0000_0000 <= n <= MAXI64

  // --- transactional counters ---

  /** One identity column resolved: its value and the counter after, or an error, which
      may have moved the counter too. */
  datatype Fill<C> = Filled(v: I64, counter: C) | Refused(counter: C)

  /** nextFromCounter, then the int64 check: the counter has moved by then. */
  function DrawNext(counter: Option<U64>): Fill<Option<U64>> {
    var next := if counter.Some? then counter.value else 1;
    if next == MAX64 then Refused(counter)
    else if next > MAXI64 then Refused(Some(next + 1))
    else Filled(next, Some(next + 1))
  }

  /** bumpCounterTo(n + 1) for an explicit n; negative values leave the counter alone. */
  function FillExplicit(counter: Option<U64>, n: I64): Fill<Option<U64>> {
    if n < 0 then Filled(n, counter)
    else if counter.Some? && counter.value >= n + 1 then Filled(n, counter)
    else if counter.None? && n + 1 <= 1 then Filled(n, counter)
    else Filled(n, Some(n + 1))
  }

  /** One identity column of an insert, transactional mode: None draws. */
  function FillOne(counter: Option<U64>, v: Option<I64>): Fill<Option<U64>> {
    if v.None? then DrawNext(counter) else FillExplicit(counter, v.value)
  }

  function CounterOf<C>(counters: map<nat, C>, id: nat, start: C): C {
    if id in counters then counters[id] else start
  }

  /** A column's counter once the column has been resolved, or before. */
  function Moved<C>(counters: map<nat, C>, id: nat, start: C, fill: (C, Option<I64>) -> Fill<C>, v: Option<I64>,
                    resolved: bool): C
  {
    var c := CounterOf(counters, id, start);
    if resolved then fill(c, v).counter else c
  }

  /** What column i gets, from its own counter; other columns keep their values. */
  predicate FilledIn<C(==)>(f: Fill<C>, identity: bool, was: Option<I64>, now: Option<I64>, before: C, after: C) {
    if identity then f.Filled? && now == Some(f.v) && after == f.counter else now == was && after == before
  }

  /** fillIdentity, in either mode: each identity column is resolved against its own
      counter by `fill`; the first refusal ends the row, with the counters before it moved. */
  method FillIdentity<C(==)>(identity: seq<bool>, ids: seq<nat>, vals: seq<Option<I64>>, counters: map<nat, C>,
                             start: C, fill: (C, Option<I64>) -> Fill<C>)
      returns (r: Option<seq<Option<I64>>>, after: map<nat, C>, drawn: seq<nat>, n: nat)
    requires |identity| == |ids| == |vals| && forall i, j :: 0 <= i < j < |ids| ==> ids[i] != ids[j]
    ensures n <= |ids| && (r.Some? <==> n == |ids|)
    ensures forall i :: 0 <= i < n && identity[i] ==> fill(CounterOf(counters, ids[i], start), vals[i]).Filled?
    ensures r.Some? ==> |r.value| == |vals| && forall i :: 0 <= i < n ==>
      FilledIn(fill(CounterOf(counters, ids[i], start), vals[i]), identity[i], vals[i], r.value[i],
               CounterOf(counters, ids[i], start), CounterOf(after, ids[i], start))
    ensures r.None? ==> identity[n] && fill(CounterOf(counters, ids[n], start), vals[n]).Refused?
    ensures forall i ::
      0 <= i < |ids| ==>
        CounterOf(after, ids[i], start) == Moved(counters, ids[i], start, fill, vals[i], i <= n && identity[i])
    ensures forall i: nat :: i in drawn <==> i < n && identity[i] && vals[i].None?
  {
    var out := vals;
    after, drawn, n := counters, [], 0;
    while n < |ids|
      invariant 0 <= n <= |ids| && |out| == |vals|
      invariant forall i :: 0 <= i < n && identity[i] ==> fill(CounterOf(counters, ids[i], start), vals[i]).Filled?
      invariant forall i :: 0 <= i < |ids| ==>
        out[i] == if i < n && identity[i] then Some(fill(CounterOf(counters, ids[i], start), vals[i]).v) else vals[i]
      invariant forall i ::
        0 <= i < |ids| ==>
          CounterOf(after, ids[i], start) == Moved(counters, ids[i], start, fill, vals[i], i < n && identity[i])
      invariant forall i: nat :: i in drawn <==> i < n && identity[i] && vals[i].None?
    {
      if identity[n] {
        var f := fill(CounterOf(after, ids[n], start), out[n]);
        after := after[ids[n] := f.counter];
        if f.Refused? {
          return None, after, drawn, n;
        }
        if out[n].None? {
          drawn := drawn + [n];
        }
        out := out[n := Some(f.v)];
      }
      n := n + 1;
    }
    r := Some(out);
  }

  /** The serialized mode: one write transaction at a time over a committed state. */
  datatype Serial = Serial(counter: Option<U64>, vals: seq<I64>, base: Option<U64>, saved: seq<I64>)

  datatype SerialEvent = InsertNull | InsertExplicit(n: I64) | FailedInsert(v: Option<I64>) | Commit | Rollback

  /** A failed insert keeps its draw or bump; a rollback, like a crash, undoes both. */
  function SerialStep(s: Serial, e: SerialEvent): Serial {
    match e
    case InsertNull =>
      (match DrawNext(s.counter)
       case Refused(c) => s.(counter := c)
       case Filled(v, c) => s.(counter := c, vals := s.vals + [v]))
    case InsertExplicit(n) => s.(counter := FillExplicit(s.counter, n).counter, vals := s.vals + [n])
    case FailedInsert(v) =>
      s.(counter := FillOne(s.counter, v).counter)
    case Commit => s.(base := s.counter, saved := s.vals)
    case Rollback => s.(counter := s.base, vals := s.saved)
  }

  function SerialRun(s: Serial, es: seq<SerialEvent>): Serial {
    if es == [] then s else SerialStep(SerialRun(s, es[..|es| - 1]), es[|es| - 1])
  }

  predicate Covers(counter: Option<U64>, vals: seq<I64>) {
    forall i :: 0 <= i < |vals| ==> vals[i] < (if counter.Some? then counter.value else 1)
  }

  predicate SerialInv(s: Serial) {
    Covers(s.counter, s.vals) && Covers(s.base, s.saved)
  }

  lemma {:induction false} SerialKeeps(s: Serial, es: seq<SerialEvent>)
    requires SerialInv(s)
    ensures SerialInv(SerialRun(s, es))
  {
    if es != [] {
      SerialKeeps(s, es[..|es| - 1]);
      var t := SerialRun(s, es[..|es| - 1]);
      assert DrawNext(t.counter).Filled? ==> DrawNext(t.counter).counter.value > DrawNext(t.counter).v;
      assert Covers(DrawNext(t.counter).counter, t.vals);
    }
  }

  const SERIAL_START := Serial(None, [], None, [])

  /** Serialized mode: after any run, the next draw is a value no inserted row has. */
  lemma SerialFresh(es: seq<SerialEvent>)
    ensures var s := SerialRun(SERIAL_START, es);
            DrawNext(s.counter).Filled? ==> DrawNext(s.counter).v !in s.vals
  {
    SerialKeeps(SERIAL_START, es);
  }

  // --- watermark counters ---

  /** The concurrent mode with no reset: at most one allocator lives between crashes.
      `vals` are the identity values inserted, or drawn or bumped past and about to be. */
  datatype Shared = Shared(stored: Option<U64>, alloc: Option<Alloc>, vals: seq<I64>)

  datatype SharedEvent = DrawNull | BumpExplicit(n: I64) | Lost

  function Current(s: Shared): Alloc {
    if s.alloc.Some? then s.alloc.value else UNLOADED
  }

  /** The stored counter and the live allocator. */
  type Pair = (Option<U64>, Alloc)

  /** One identity column of an insert, watermark mode: values past int64 are refused
      after the draw. */
  function FillShared(c: Pair, v: Option<I64>): Fill<Pair> {
    if v.None? then
      var d := DrawFrom(c.1, c.0, 1);
      if d.out.Value? && d.out.v <= MAXI64 then Filled(d.out.v, (d.stored, d.alloc)) else Refused((d.stored, d.alloc))
    else if v.value < 0 then Filled(v.value, c)
    else FillBumped(v.value, BumpFrom(c.1, c.0, v.value + 1))
  }

  function FillBumped(n: I64, b: Bump): Fill<Pair> {
    if b.out.Value? then Filled(n, (b.stored, b.alloc)) else Refused((b.stored, b.alloc))
  }

  /** A drawn or explicit value joins the rows; a crash loses the allocator. */
  function SharedStep(s: Shared, e: SharedEvent): Shared {
    match e
    case DrawNull => After(s, FillShared((s.stored, Current(s)), None))
    case BumpExplicit(n) =>
      if n < 0 then s.(vals := s.vals + [n])
      else After(s, FillShared((s.stored, Current(s)), Some(n)))
    case Lost => s.(alloc := None)
  }

  function After(s: Shared, f: Fill<Pair>): Shared {
    Shared(f.counter.0, Some(f.counter.1), if f.Filled? then s.vals + [f.v] else s.vals)
  }

  function SharedRun(s: Shared, es: seq<SharedEvent>): Shared {
    if es == [] then s else SharedStep(SharedRun(s, es[..|es| - 1]), es[|es| - 1])
  }

  function Bound(stored: Option<U64>): U64 {
    if stored.Some? then stored.value else 1
  }

  /** An allocator in step with the stored counter, as it is when nothing resets it. */
  predicate InStep(a: Alloc, stored: Option<U64>) {
    && !a.dead && a.loaded && a.next <= a.watermark
    && (if stored.Some? then a.existed && a.watermark <= stored.value else !a.existed && a.next == a.watermark == 1)
  }

  predicate AllBelow(vals: seq<I64>, b: U64) {
    forall i :: 0 <= i < |vals| ==> vals[i] < b
  }

  /** Every value is below the counter and below what the live allocator hands next. */
  predicate SharedInv(s: Shared) {
    && (s.alloc.Some? ==> InStep(s.alloc.value, s.stored) && AllBelow(s.vals, s.alloc.value.next))
    && AllBelow(s.vals, Bound(s.stored))
  }

  /** A draw keeps the allocator in step, moves the counter only up, and hands a value
      at or past every bound before it. */
  lemma DrawInStep(a: Alloc, stored: Option<U64>)
    requires a == UNLOADED || InStep(a, stored)
    ensures var d := DrawFrom(a, stored, 1);
            && InStep(d.alloc, d.stored) && Bound(stored) <= Bound(d.stored)
            && (d.out.Value? || d.out.Spent?)
            && (a.loaded ==> a.next <= d.alloc.next) && (!a.loaded ==> Bound(stored) <= d.alloc.next)
            && (d.out.Value? ==> d.out.v < d.alloc.next && d.out.v < Bound(d.stored))
            && (d.out.Value? ==> d.out.v >= if a.loaded then a.next else Bound(stored))
  {
  }

  lemma BumpsUp(c: Pair, n: U64) returns (b: Bump)
    requires PairOK(c) && n >= 1
    ensures b == BumpFrom(c.1, c.0, n) && InStep(b.alloc, b.stored) && Bound(c.0) <= Bound(b.stored)
    ensures if c.1.loaded then c.1.next <= b.alloc.next else Bound(c.0) <= b.alloc.next
    ensures b.out.Value? ==> n <= b.alloc.next && n <= Bound(b.stored)
  {
    b := BumpFrom(c.1, c.0, n);
  }

  /** Values below a position and a bound stay below later ones. */
  lemma StillBelow(vals: seq<I64>, was: U64, now: U64)
    requires AllBelow(vals, was) && was <= now
    ensures AllBelow(vals, now)
  {
  }

  lemma SnocBelow(vals: seq<I64>, v: I64, b: U64)
    requires AllBelow(vals, b) && v < b
    ensures AllBelow(vals + [v], b)
  {
  }

  lemma CurrentBelow(s: Shared)
    requires SharedInv(s)
    ensures Current(s) == UNLOADED || InStep(Current(s), s.stored)
    ensures AllBelow(s.vals, if Current(s).loaded then Current(s).next else Bound(s.stored))
  {
  }

  /** Where a column's counter stands: the next value it would hand. */
  function Standing(c: Pair): U64 {
    if c.1.loaded then c.1.next else Bound(c.0)
  }

  predicate PairOK(c: Pair) {
    c.1 == UNLOADED || InStep(c.1, c.0)
  }

  /** Filling keeps the allocator in step, moves the counter only up, and leaves it past
      the value it filled in. */
  predicate FillsUp(c: Pair, f: Fill<Pair>) {
    && InStep(f.counter.1, f.counter.0) && Bound(c.0) <= Bound(f.counter.0) && Standing(c) <= f.counter.1.next
    && (f.Filled? ==> f.v < f.counter.1.next && f.v < Bound(f.counter.0))
  }

  lemma DrawFills(c: Pair)
    requires PairOK(c)
    ensures FillsUp(c, FillShared(c, None)) && (FillShared(c, None).Filled? ==> FillShared(c, None).v >= Standing(c))
  {
    DrawInStep(c.1, c.0);
  }

  lemma BumpFills(c: Pair, n: I64)
    requires PairOK(c) && n >= 0
    ensures FillsUp(c, FillShared(c, Some(n)))
  {
    hide BumpFrom, InStep;
    var b := BumpsUp(c, n + 1);
    BumpedFills(c, n, b);
  }

  lemma BumpedFills(c: Pair, n: I64, b: Bump)
    requires InStep(b.alloc, b.stored) && Bound(c.0) <= Bound(b.stored)
    requires if c.1.loaded then c.1.next <= b.alloc.next else Bound(c.0) <= b.alloc.next
    requires b.out.Value? ==> n + 1 <= b.alloc.next && n + 1 <= Bound(b.stored)
    ensures FillsUp(c, FillBumped(n, b))
  {
  }

  lemma AfterKeeps(s: Shared, f: Fill<Pair>)
    requires SharedInv(s) && FillsUp((s.stored, Current(s)), f)
    ensures SharedInv(After(s, f))
  {
    CurrentBelow(s);
    var next, bound := f.counter.1.next, Bound(f.counter.0);
    StillBelow(s.vals, Standing((s.stored, Current(s))), next);
    StillBelow(s.vals, Bound(s.stored), bound);
    if f.Filled? {
      SnocBelow(s.vals, f.v, next);
      SnocBelow(s.vals, f.v, bound);
    }
  }

  lemma NegativeKeeps(s: Shared, n: I64)
    requires SharedInv(s) && n < 0
    ensures SharedInv(s.(vals := s.vals + [n]))
  {
  }

  lemma SharedStepKeeps(s: Shared, e: SharedEvent)
    requires SharedInv(s)
    ensures SharedInv(SharedStep(s, e))
  {
    var c := (s.stored, Current(s));
    CurrentBelow(s);
    match e
    case DrawNull =>
      DrawFills(c);
      AfterKeeps(s, FillShared(c, None));
    case BumpExplicit(n) =>
      if n >= 0 {
        BumpFills(c, n);
        AfterKeeps(s, FillShared(c, Some(n)));
      } else {
        NegativeKeeps(s, n);
      }
    case Lost =>
  }

  lemma {:induction false} SharedKeeps(s: Shared, es: seq<SharedEvent>)
    requires SharedInv(s)
    ensures SharedInv(SharedRun(s, es))
  {
    if es != [] {
      SharedKeeps(s, es[..|es| - 1]);
      SharedStepKeeps(SharedRun(s, es[..|es| - 1]), es[|es| - 1]);
    }
  }

  const SHARED_START := Shared(None, None, [])

  /** Concurrent mode: after any run of draws, explicit values and crashes, the next
      draw is a value no row has, nor one already bumped past; it is refused only when
      the int64 range is spent, never for a reset. */
  lemma SharedFresh(es: seq<SharedEvent>)
    ensures var s := SharedRun(SHARED_START, es);
            var d, f := DrawFrom(Current(s), s.stored, 1), FillShared((s.stored, Current(s)), None);
            && (d.out.Value? || d.out.Spent?)
            && (f.Filled? ==> f.v !in s.vals)
  {
    SharedKeeps(SHARED_START, es);
    var s := SharedRun(SHARED_START, es);
    CurrentBelow(s);
    DrawInStep(Current(s), s.stored);
    DrawFills((s.stored, Current(s)));
  }
}
