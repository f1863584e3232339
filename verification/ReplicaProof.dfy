/** What the store holds over any run of appends, compactions, restarts and ships, with
    puts and deletes failing at will. */
module ReplicaProof {
  import opened Values
  import opened Replica

  /** The whole picture. `logs` is each epoch's log so far and `now` the current epoch;
      `cuts` lists, per generation, the offsets it was shipped up to in turn, `epochOf`
      its epoch; `thinned` are generations a prune has touched, `certified` those ever
      given a manifest. */
  datatype World = World(
    logs: map<nat, Bytes>, now: nat, store: Store, cur: Option<Cursor>,
    cuts: map<nat, seq<nat>>, epochOf: map<nat, nat>, thinned: set<nat>, certified: set<nat>)

  datatype Event = Append(more: Bytes) | Compact(log: Bytes) | Restart | ShipNow(env: Env)

  /** Offsets 0 = c0 < c1 < ... */
  predicate CutsOK(cs: seq<nat>) {
    |cs| >= 1 && cs[0] == 0 && forall i {:trigger StepUp(cs, i)} :: 0 <= i < |cs| - 1 ==> StepUp(cs, i)
  }

  predicate StepUp(cs: seq<nat>, i: int) {
    0 <= i < |cs| - 1 && cs[i] < cs[i + 1]
  }

  function Last(cs: seq<nat>): nat {
    if cs == [] then 0 else cs[|cs| - 1]
  }

  /** A stored chunk is one shipped range of its generation, byte for byte. */
  ghost predicate ChunkOK(w: World, c: Chunk)
    requires c in w.store.chunks
  {
    && c.gen in w.cuts && c.gen in w.epochOf && w.epochOf[c.gen] in w.logs
    && c.start < c.end <= |w.logs[w.epochOf[c.gen]]| && w.store.chunks[c] == w.logs[w.epochOf[c.gen]][c.start..c.end]
    && exists i :: IsCut(w.cuts[c.gen], i, c)
  }

  predicate IsCut(cs: seq<nat>, i: int, c: Chunk) {
    0 <= i < |cs| - 1 && c.start == cs[i] && c.end == cs[i + 1]
  }

  /** A generation no prune has touched has every shipped range. */
  ghost predicate Whole(st: Store, g: nat, cs: seq<nat>) {
    forall i {:trigger RangeKept(st, g, cs, i)} :: 0 <= i < |cs| - 1 ==> RangeKept(st, g, cs, i)
  }

  predicate RangeKept(st: Store, g: nat, cs: seq<nat>, i: int) {
    0 <= i < |cs| - 1 && Chunk(g, cs[i], cs[i + 1]) in st.chunks
  }

  ghost predicate GenOK(w: World, g: nat)
    requires g in w.cuts
  {
    && CutsOK(w.cuts[g]) && g in w.epochOf && w.epochOf[g] in w.logs && Last(w.cuts[g]) <= |w.logs[w.epochOf[g]]|
    && (g !in w.thinned ==> Whole(w.store, g, w.cuts[g]))
    && (g in w.store.manifests ==> 0 < w.store.manifests[g] <= Last(w.cuts[g]))
  }

  ghost predicate CursorOK(w: World) {
    w.cur.Some? ==>
      var c := w.cur.value;
      && c.gen in w.cuts && c.gen !in w.thinned && c.gen in w.epochOf && w.epochOf[c.gen] == c.epoch
      && c.watermark == Last(w.cuts[c.gen]) && forall g :: g in w.cuts ==> g <= c.gen
  }

  /** The newest certified generation still has its manifest and was never thinned. */
  ghost predicate NewestSafe(w: World) {
    forall g ::
      g in w.certified && (forall h :: h in w.certified ==> h <= g) ==> g in w.store.manifests && g !in w.thinned
  }

  ghost predicate Inv(w: World) {
    && w.now in w.logs
    && (forall e :: e in w.logs ==> e <= w.now)
    && (forall c :: c in w.store.chunks ==> ChunkOK(w, c))
    && (forall g :: g in w.cuts ==> GenOK(w, g))
    && (forall g :: g in w.store.manifests ==> g in w.certified)
    && w.certified <= w.cuts.Keys && w.thinned <= w.cuts.Keys
    && CursorOK(w) && NewestSafe(w)
  }

  /** Generation IDs increase, and the listing is the store's. */
  ghost predicate Accurate(w: World, env: Env) {
    && (forall g :: g in w.cuts ==> g < env.newGen)
    && IsListing(env.gens, Gens(w.store) - {env.newGen})
  }

  // --- rolling and pruning ---

  function Rolls(w: World): bool {
    w.cur.None? || w.cur.value.epoch != w.now
  }

  /** The world just after a roll. */
  ghost function Rolled(w: World, o: Options, env: Env): World
    requires ValidOptions(o)
  {
    var vs := Victims(env.gens, w.store.manifests, o.retain);
    w.(store := Delete(w.store, vs, env.failed), cur := Some(Cursor(env.newGen, w.now, 0, 0)),
       cuts := w.cuts[env.newGen := [0]], epochOf := w.epochOf[env.newGen := w.now], thinned := w.thinned + vs)
  }

  lemma {:induction false} NewestIsMax(gens: seq<nat>, manifests: map<nat, nat>, g: nat)
    requires forall i, j :: 0 <= i < j < |gens| ==> gens[i] < gens[j]
    requires g in gens && g in manifests
    ensures NewestManifested(gens, manifests).Some? && NewestManifested(gens, manifests).value >= g
  {
    if gens[|gens| - 1] !in manifests {
      assert g in gens[..|gens| - 1];
      NewestIsMax(gens[..|gens| - 1], manifests, g);
    }
  }

  /** The newest certified generation is no victim. */
  lemma NewestKept(w: World, o: Options, env: Env, g: nat)
    requires ValidOptions(o) && Inv(w) && Accurate(w, env) && g in w.certified
    requires forall h :: h in w.certified ==> h <= g
    ensures g !in Victims(env.gens, w.store.manifests, o.retain)
  {
    assert g in w.store.manifests && g in w.cuts;
    assert g in env.gens;
    NewestIsMax(env.gens, w.store.manifests, g);
    var n := NewestManifested(env.gens, w.store.manifests).value;
    assert n in w.certified;
  }

  lemma RollKeeps(w: World, o: Options, env: Env)
    requires ValidOptions(o) && Inv(w) && Accurate(w, env)
    ensures Inv(Rolled(w, o, env))
  {
    hide ChunkOK, GenOK, NewestSafe;
    var r := Rolled(w, o, env);
    forall c | c in r.store.chunks ensures ChunkOK(r, c) {
      RollChunk(w, o, env, c);
    }
    forall g | g in r.cuts ensures GenOK(r, g) {
      RollGen(w, o, env, g);
    }
    RollNewest(w, o, env);
    VictimsKnown(w, o, env);
  }

  lemma RollChunk(w: World, o: Options, env: Env, c: Chunk)
    requires ValidOptions(o) && Inv(w) && Accurate(w, env) && c in Rolled(w, o, env).store.chunks
    ensures ChunkOK(Rolled(w, o, env), c)
  {
    assert ChunkOK(w, c);
    var i :| IsCut(w.cuts[c.gen], i, c);
    assert IsCut(Rolled(w, o, env).cuts[c.gen], i, c);
  }

  lemma RollNewest(w: World, o: Options, env: Env)
    requires ValidOptions(o) && Inv(w) && Accurate(w, env)
    ensures NewestSafe(Rolled(w, o, env))
  {
    var r := Rolled(w, o, env);
    forall g | g in r.certified && (forall h :: h in r.certified ==> h <= g)
      ensures g in r.store.manifests && g !in r.thinned
    {
      NewestKept(w, o, env, g);
    }
  }

  lemma RollGen(w: World, o: Options, env: Env, g: nat)
    requires ValidOptions(o) && Inv(w) && Accurate(w, env) && g in Rolled(w, o, env).cuts
    ensures GenOK(Rolled(w, o, env), g)
  {
    var r := Rolled(w, o, env);
    if g != env.newGen {
      assert GenOK(w, g);
      if g !in r.thinned {
        forall i | 0 <= i < |w.cuts[g]| - 1 ensures RangeKept(r.store, g, w.cuts[g], i) {
          assert RangeKept(w.store, g, w.cuts[g], i);
        }
      }
    } else {
      assert env.newGen !in w.certified;
    }
  }

  lemma VictimsKnown(w: World, o: Options, env: Env)
    requires ValidOptions(o) && Inv(w) && Accurate(w, env)
    ensures Victims(env.gens, w.store.manifests, o.retain) <= w.cuts.Keys
  {
    forall v | v in Victims(env.gens, w.store.manifests, o.retain) ensures v in w.cuts {
      assert v in env.gens;
      if v !in w.store.manifests {
        var c :| c in w.store.chunks && c.gen == v;
        assert ChunkOK(w, c);
      }
    }
  }

  // --- shipping ---

  /** One stored chunk, in the world's terms. */
  ghost function Shipped1(w: World, n: nat): World
    requires w.cur.Some? && w.cur.value.gen in w.cuts && w.cur.value.epoch in w.logs
    requires w.cur.value.watermark + n <= |w.logs[w.cur.value.epoch]|
  {
    var c := w.cur.value;
    var key, bytes := Chunk(c.gen, c.watermark, c.watermark + n), w.logs[c.epoch][c.watermark..c.watermark + n];
    w.(store := w.store.(chunks := w.store.chunks[key := bytes]),
       cur := Some(c.(watermark := c.watermark + n)), cuts := w.cuts[c.gen := w.cuts[c.gen] + [c.watermark + n]])
  }

  lemma ChunkKeeps(w: World, n: nat)
    requires Inv(w) && w.cur.Some? && w.cur.value.epoch in w.logs && 0 < n
    requires w.cur.value.watermark + n <= |w.logs[w.cur.value.epoch]|
    ensures Inv(Shipped1(w, n))
  {
    var r, c := Shipped1(w, n), w.cur.value;
    assert GenOK(w, c.gen);
    forall k | k in r.store.chunks ensures ChunkOK(r, k) {
      ChunkStays(w, n, k);
    }
    forall g | g in r.cuts ensures GenOK(r, g) {
      GenStays(w, n, g);
    }
  }

  lemma ChunkStays(w: World, n: nat, k: Chunk)
    requires Inv(w) && w.cur.Some? && w.cur.value.epoch in w.logs && 0 < n
    requires w.cur.value.watermark + n <= |w.logs[w.cur.value.epoch]|
    requires k in Shipped1(w, n).store.chunks
    ensures ChunkOK(Shipped1(w, n), k)
  {
    var r, c := Shipped1(w, n), w.cur.value;
    var cs := w.cuts[c.gen];
    assert GenOK(w, c.gen);
    if k == Chunk(c.gen, c.watermark, c.watermark + n) {
      assert IsCut(r.cuts[k.gen], |cs| - 1, k);
    } else {
      assert ChunkOK(w, k);
      var i :| IsCut(w.cuts[k.gen], i, k);
      assert IsCut(r.cuts[k.gen], i, k);
    }
  }

  lemma GenStays(w: World, n: nat, g: nat)
    requires Inv(w) && w.cur.Some? && w.cur.value.epoch in w.logs && 0 < n
    requires w.cur.value.watermark + n <= |w.logs[w.cur.value.epoch]|
    requires g in w.cuts
    ensures GenOK(Shipped1(w, n), g)
  {
    var r, c := Shipped1(w, n), w.cur.value;
    assert GenOK(w, g);
    if g == c.gen {
      GrownWhole(w.store, r.store, g, w.cuts[g], c.watermark + n);
    } else if g !in w.thinned {
      WholeStays(w.store, r.store, g, w.cuts[g]);
    }
  }

  lemma WholeStays(a: Store, b: Store, g: nat, cs: seq<nat>)
    requires Whole(a, g, cs) && a.chunks.Keys <= b.chunks.Keys
    ensures Whole(b, g, cs)
  {
    forall i | 0 <= i < |cs| - 1 ensures RangeKept(b, g, cs, i) {
      assert RangeKept(a, g, cs, i);
    }
  }

  lemma GrownWhole(a: Store, b: Store, g: nat, cs: seq<nat>, e: nat)
    requires CutsOK(cs) && Last(cs) < e && Whole(a, g, cs)
    requires b.chunks.Keys == a.chunks.Keys + {Chunk(g, Last(cs), e)}
    ensures CutsOK(cs + [e]) && Last(cs + [e]) == e && Whole(b, g, cs + [e])
  {
    var ds := cs + [e];
    forall i | 0 <= i < |ds| - 1 ensures RangeKept(b, g, ds, i) && StepUp(ds, i) {
      if i < |cs| - 1 {
        assert RangeKept(a, g, cs, i) && StepUp(cs, i);
      }
    }
  }

  /** A manifest for what has been shipped. */
  ghost function Sealed1(w: World): World
    requires w.cur.Some?
  {
    var c := w.cur.value;
    w.(store := w.store.(manifests := w.store.manifests[c.gen := c.watermark]), cur := Some(c.(sealed := c.watermark)),
       certified := w.certified + {c.gen})
  }

  lemma SealKeeps(w: World)
    requires Inv(w) && w.cur.Some? && w.cur.value.watermark > 0
    ensures Inv(Sealed1(w))
  {
    var r, c := Sealed1(w), w.cur.value;
    forall k | k in r.store.chunks ensures ChunkOK(r, k) {
      assert ChunkOK(w, k);
    }
    forall g | g in r.cuts ensures GenOK(r, g) {
      assert GenOK(w, g);
      if g !in w.thinned {
        WholeStays(w.store, r.store, g, w.cuts[g]);
      }
    }
    forall g | g in r.certified && (forall h :: h in r.certified ==> h <= g)
      ensures g in r.store.manifests && g !in r.thinned
    {
      assert c.gen <= g && g <= c.gen;
    }
  }

  /** How much the next round of the loop ships. */
  function RoundSize(watermark: nat, size: nat, maxChunk: nat, out: Outcome): nat {
    if watermark >= size || !out.Shipped? then 0
    else
      var room := if size - watermark < maxChunk then size - watermark else maxChunk;
      if out.n < room then out.n else room
  }

  lemma LoopStep(st: Store, cur: Cursor, log: Bytes, maxChunk: nat, outs: seq<Outcome>)
    requires maxChunk > 0
    ensures outs != [] && RoundSize(cur.watermark, |log|, maxChunk, outs[0]) > 0 ==>
      var n := RoundSize(cur.watermark, |log|, maxChunk, outs[0]);
      var key := Chunk(cur.gen, cur.watermark, cur.watermark + n);
      && cur.watermark + n <= |log|
      && ShipLoop(st, cur, log, maxChunk, outs) ==
         ShipLoop(st.(chunks := st.chunks[key := log[cur.watermark..cur.watermark + n]]),
                  cur.(watermark := cur.watermark + n), log, maxChunk, outs[1..])
    ensures outs == [] || RoundSize(cur.watermark, |log|, maxChunk, outs[0]) == 0 ==>
      ShipLoop(st, cur, log, maxChunk, outs) == (st, cur, cur.watermark >= |log|)
  {
  }

  /** The ship loop as steps of the world. */
  ghost function LoopWorld(w: World, log: Bytes, maxChunk: nat, outs: seq<Outcome>): World
    requires w.cur.Some? && w.cur.value.gen in w.cuts && w.cur.value.epoch in w.logs && log <= w.logs[w.cur.value.epoch]
    decreases |outs|
  {
    if outs == [] then w
    else
      var n := RoundSize(w.cur.value.watermark, |log|, maxChunk, outs[0]);
      if n == 0 then w else LoopWorld(Shipped1(w, n), log, maxChunk, outs[1..])
  }

  /** What a ship loop leaves alone. */
  ghost predicate SameBut(w: World, r: World) {
    && r.cur.Some? == w.cur.Some? && (r.cur.Some? ==> r.cur.value.gen == w.cur.value.gen)
    && r.certified == w.certified && r.now == w.now && r.logs == w.logs
  }

  lemma {:induction false} LoopKeeps(w: World, log: Bytes, maxChunk: nat, outs: seq<Outcome>)
    requires Inv(w) && w.cur.Some? && maxChunk > 0 && w.cur.value.gen in w.cuts && w.cur.value.epoch in w.logs
    requires log <= w.logs[w.cur.value.epoch]
    ensures var r := LoopWorld(w, log, maxChunk, outs); Inv(r) && SameBut(w, r) && r.cur.Some?
    decreases |outs|
  {
    if outs != [] {
      var n := RoundSize(w.cur.value.watermark, |log|, maxChunk, outs[0]);
      if n > 0 {
        ChunkKeeps(w, n);
        LoopKeeps(Shipped1(w, n), log, maxChunk, outs[1..]);
      }
    }
  }

  lemma {:induction false} LoopIs(w: World, log: Bytes, maxChunk: nat, outs: seq<Outcome>)
    requires w.cur.Some? && maxChunk > 0 && w.cur.value.gen in w.cuts && w.cur.value.epoch in w.logs
    requires log <= w.logs[w.cur.value.epoch]
    ensures var r := LoopWorld(w, log, maxChunk, outs);
            && r.cur.Some?
            && ShipLoop(w.store, w.cur.value, log, maxChunk, outs)
               == (r.store, r.cur.value, r.cur.value.watermark >= |log|)
    decreases |outs|
  {
    LoopStep(w.store, w.cur.value, log, maxChunk, outs);
    if outs != [] {
      var c := w.cur.value;
      var n := RoundSize(c.watermark, |log|, maxChunk, outs[0]);
      if n > 0 {
        assert w.logs[c.epoch][c.watermark..c.watermark + n] == log[c.watermark..c.watermark + n];
        LoopIs(Shipped1(w, n), log, maxChunk, outs[1..]);
      }
    }
  }

  // --- any run ---

  /** One event. A ship reads the current epoch's log as it stands. */
  ghost function Step(w: World, o: Options, e: Event): World
    requires ValidOptions(o) && Inv(w) && (e.ShipNow? ==> Accurate(w, e.env))
  {
    match e
    case Append(more) => w.(logs := w.logs[w.now := w.logs[w.now] + more])
    case Compact(log) => w.(logs := w.logs[w.now + 1 := log], now := w.now + 1)
    case Restart => w.(cur := None)
    case ShipNow(env) =>
      RollKeeps(w, o, env);
      var r := if Rolls(w) then Rolled(w, o, env) else w;
      var s := LoopWorld(r, w.logs[w.now], o.maxChunk, env.outs);
      LoopKeeps(r, w.logs[w.now], o.maxChunk, env.outs);
      var c := s.cur.value;
      if c.watermark >= |w.logs[w.now]| && c.watermark > 0 && c.watermark != c.sealed && env.sealOk
      then Sealed1(s) else s
  }

  /** A ship of the world is the replicator's ship. */
  lemma StepIsShip(w: World, o: Options, env: Env)
    requires ValidOptions(o) && Inv(w) && Accurate(w, env)
    ensures var r := Step(w, o, ShipNow(env));
            r.cur.Some? && (r.store, r.cur.value) == Ship(w.store, w.cur, w.now, w.logs[w.now], o, env)
  {
    hide ChunkOK, GenOK, NewestSafe, Delete, Victims, RoundSize;
    RollKeeps(w, o, env);
    var r := if Rolls(w) then Rolled(w, o, env) else w;
    LoopKeeps(r, w.logs[w.now], o.maxChunk, env.outs);
    LoopIs(r, w.logs[w.now], o.maxChunk, env.outs);
  }

  lemma LogGrows(w: World, more: Bytes)
    requires Inv(w)
    ensures Inv(w.(logs := w.logs[w.now := w.logs[w.now] + more]))
  {
    var r := w.(logs := w.logs[w.now := w.logs[w.now] + more]);
    forall c | c in r.store.chunks ensures ChunkOK(r, c) {
      assert ChunkOK(w, c);
    }
    forall g | g in r.cuts ensures GenOK(r, g) {
      assert GenOK(w, g);
    }
  }

  lemma EpochMoves(w: World, log: Bytes)
    requires Inv(w)
    ensures Inv(w.(logs := w.logs[w.now + 1 := log], now := w.now + 1))
  {
    var r := w.(logs := w.logs[w.now + 1 := log], now := w.now + 1);
    forall c | c in r.store.chunks ensures ChunkOK(r, c) {
      assert ChunkOK(w, c);
    }
    forall g | g in r.cuts ensures GenOK(r, g) {
      assert GenOK(w, g);
    }
  }

  lemma CursorLost(w: World)
    requires Inv(w)
    ensures Inv(w.(cur := None))
  {
    forall c | c in w.store.chunks ensures ChunkOK(w.(cur := None), c) {
      assert ChunkOK(w, c);
    }
    forall g | g in w.cuts ensures GenOK(w.(cur := None), g) {
      assert GenOK(w, g);
    }
  }

  lemma StepKeeps(w: World, o: Options, e: Event)
    requires ValidOptions(o) && Inv(w) && (e.ShipNow? ==> Accurate(w, e.env))
    ensures Inv(Step(w, o, e)) && w.certified <= Step(w, o, e).certified
  {
    hide ChunkOK, GenOK, NewestSafe, Delete, Victims, RoundSize;
    match e
    case Append(more) => LogGrows(w, more);
    case Compact(log) => EpochMoves(w, log);
    case Restart => CursorLost(w);
    case ShipNow(env) =>
      RollKeeps(w, o, env);
      var r := if Rolls(w) then Rolled(w, o, env) else w;
      LoopKeeps(r, w.logs[w.now], o.maxChunk, env.outs);
      if LoopWorld(r, w.logs[w.now], o.maxChunk, env.outs).cur.value.watermark > 0 {
        SealKeeps(LoopWorld(r, w.logs[w.now], o.maxChunk, env.outs));
      }
  }

  /** A run whose ships see accurate listings and increasing generation IDs. */
  ghost predicate Legal(w: World, o: Options, es: seq<Event>)
    requires ValidOptions(o) && Inv(w)
    decreases |es|
  {
    es != [] ==>
      && (es[0].ShipNow? ==> Accurate(w, es[0].env))
      && (StepKeeps(w, o, es[0]); Legal(Step(w, o, es[0]), o, es[1..]))
  }

  ghost function Run(w: World, o: Options, es: seq<Event>): (r: World)
    requires ValidOptions(o) && Inv(w) && Legal(w, o, es)
    ensures Inv(r) && w.certified <= r.certified
    decreases |es|
  {
    if es == [] then w
    else
      StepKeeps(w, o, es[0]);
      Run(Step(w, o, es[0]), o, es[1..])
  }

  /** A fresh database with an empty store. */
  ghost function Start(log: Bytes): World {
    World(map[0 := log], 0, Store(map[], map[]), None, map[], map[], {}, {})
  }

  lemma StartHolds(log: Bytes)
    ensures Inv(Start(log))
  {
  }
}
