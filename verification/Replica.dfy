/** Log shipping (replicate/replicator.go): the log of an epoch is shipped in chunks to a
    store under a generation, certified by a manifest once caught up, and older
    generations are pruned when a new one starts. Generation IDs are chronological. */
module Replica {
  import opened Values

  type Bytes = seq<Byte>

  /** One shipped range of a generation's log. */
  datatype Chunk = Chunk(gen: nat, start: nat, end: nat)

  /** The object store: chunk contents, and per generation a certified size. */
  datatype Store = Store(chunks: map<Chunk, Bytes>, manifests: map<nat, nat>)

  /** An object of the store. */
  datatype Obj = ChunkObj(c: Chunk) | ManifestObj(gen: nat)

  /** The generations with an object in the store. */
  function Gens(st: Store): set<nat> {
    (set c | c in st.chunks :: c.gen) + st.manifests.Keys
  }

  // --- pruning ---

  /** A listing of generations: each once, in ascending order. */
  ghost predicate IsListing(gens: seq<nat>, s: set<nat>) {
    (forall i, j :: 0 <= i < j < |gens| ==> gens[i] < gens[j]) && forall g :: g in gens <==> g in s
  }

  /** The newest listed generation with a manifest. */
  function NewestManifested(gens: seq<nat>, manifests: map<nat, nat>): (r: Option<nat>)
    ensures r.Some? ==> r.value in gens && r.value in manifests
    ensures r.None? ==> forall g :: g in gens ==> g !in manifests
  {
    if gens == [] then None
    else if gens[|gens| - 1] in manifests then Some(gens[|gens| - 1])
    else NewestManifested(gens[..|gens| - 1], manifests)
  }

  /** The generations a prune deletes: past the retention window, and not the newest one
      with a manifest. */
  function Victims(gens: seq<nat>, manifests: map<nat, nat>, retain: nat): set<nat>
    requires retain >= 2
  {
    if |gens| + 1 <= retain then {}
    else set g | g in gens[..|gens| + 1 - retain] && NewestManifested(gens, manifests) != Some(g)
  }

  /** pruneGenerations' choice, as its loops make it. */
  method ChooseVictims(gens: seq<nat>, manifests: map<nat, nat>, retain: nat) returns (vs: set<nat>)
    requires retain >= 2
    ensures vs == Victims(gens, manifests, retain)
  {
    var newest: Option<nat>, i := None, 0;
    while i < |gens|
      invariant 0 <= i <= |gens| && newest == NewestManifested(gens[..i], manifests)
    {
      assert gens[..i + 1][..i] == gens[..i];
      if gens[i] in manifests {
        newest := Some(gens[i]);
      }
      i := i + 1;
    }
    assert gens[..i] == gens;
    vs := {};
    var keep := retain - 1;
    if |gens| <= keep {
      return;
    }
    i := 0;
    while i < |gens| - keep
      invariant 0 <= i <= |gens| - keep
      invariant vs == set g | g in gens[..i] && newest != Some(g)
    {
      assert gens[..i + 1] == gens[..i] + [gens[i]];
      if newest != Some(gens[i]) {
        vs := vs + {gens[i]};
      }
      i := i + 1;
    }
  }

  /** Deletes of the victims' objects, some of which fail. */
  function Delete(st: Store, vs: set<nat>, failed: set<Obj>): Store {
    Store(map c | c in st.chunks && (c.gen !in vs || ChunkObj(c) in failed) :: st.chunks[c],
          map g | g in st.manifests && (g !in vs || ManifestObj(g) in failed) :: st.manifests[g])
  }

  // --- shipping ---

  /** The shipper's cursor. */
  datatype Cursor = Cursor(gen: nat, epoch: nat, watermark: nat, sealed: nat)

  /** How one round of the ship loop goes: a read of n bytes and a put that works or not,
      or an early end (the epoch moved, the read failed or the process died). */
  datatype Outcome = Shipped(n: nat) | PutFailed | Ended

  /** The ship loop over an epoch's log of a given size. */
  function ShipLoop(st: Store, cur: Cursor, log: Bytes, maxChunk: nat, outs: seq<Outcome>): (Store, Cursor, bool)
    requires maxChunk > 0
    decreases |outs|
  {
    if cur.watermark >= |log| then (st, cur, true)
    else if outs == [] || !outs[0].Shipped? then (st, cur, false)
    else
      var room := if |log| - cur.watermark < maxChunk then |log| - cur.watermark else maxChunk;
      var n := if outs[0].n < room then outs[0].n else room;
      if n == 0 then (st, cur, false)
      else
        var key := Chunk(cur.gen, cur.watermark, cur.watermark + n);
        ShipLoop(st.(chunks := st.chunks[key := log[cur.watermark..cur.watermark + n]]),
                 cur.(watermark := cur.watermark + n), log, maxChunk, outs[1..])
  }

  /** The end of a ship that drained the log: certify it if it grew. */
  function Seal(st: Store, cur: Cursor, sealOk: bool): (Store, Cursor) {
    if cur.watermark > 0 && cur.watermark != cur.sealed && sealOk
    then (st.(manifests := st.manifests[cur.gen := cur.watermark]), cur.(sealed := cur.watermark))
    else (st, cur)
  }

  /** What the environment decides about one ship: a new generation ID and the store's
      listing should it roll, the deletes that fail, the rounds of the loop, and the
      manifest write. */
  datatype Env = Env(newGen: nat, gens: seq<nat>, failed: set<Obj>, outs: seq<Outcome>, sealOk: bool)

  datatype Options = Options(maxChunk: nat, retain: nat)

  predicate ValidOptions(o: Options) {
    o.maxChunk > 0 && o.retain >= 2
  }

  /** shipLocked: rolls to a fresh generation on a new process or a new epoch, pruning
      first, then ships. */
  function Ship(st: Store, cur: Option<Cursor>, epoch: nat, log: Bytes, o: Options, env: Env): (Store, Cursor)
    requires ValidOptions(o)
  {
    var roll := cur.None? || cur.value.epoch != epoch;
    var c := if roll then Cursor(env.newGen, epoch, 0, 0) else cur.value;
    var s := if roll then Delete(st, Victims(env.gens, st.manifests, o.retain), env.failed) else st;
    var (s2, c2, drained) := ShipLoop(s, c, log, o.maxChunk, env.outs);
    if drained then Seal(s2, c2, env.sealOk) else (s2, c2)
  }

  // --- as it runs ---

  /** The replicator's fields and its store. */
  class Replicator {
    const opt: Options
    var store: Store
    var gen: Option<nat>
    var epoch: nat
    var watermark: nat
    var sealed: nat

    constructor (o: Options, st: Store)
      requires ValidOptions(o)
      ensures opt == o && store == st && CursorOf() == None
    {
      opt, store, gen, epoch, watermark, sealed := o, st, None, 0, 0, 0;
    }

    function CursorOf(): Option<Cursor>
      reads this
    {
      if gen.None? then None else Some(Cursor(gen.value, epoch, watermark, sealed))
    }

    /** The upload loop: the watermark advances only over stored chunks. */
    method ShipChunks(log: Bytes, outs: seq<Outcome>) returns (drained: bool)
      requires gen.Some? && ValidOptions(opt)
      modifies this`store, this`watermark
      ensures var (s, c, d) := ShipLoop(old(store), old(CursorOf()).value, log, opt.maxChunk, outs);
              store == s && CursorOf() == Some(c) && drained == d
    {
      var i := 0;
      assert outs[0..] == outs;
      while watermark < |log|
        invariant 0 <= i <= |outs| && gen == old(gen) && epoch == old(epoch) && sealed == old(sealed)
        invariant ShipLoop(store, CursorOf().value, log, opt.maxChunk, outs[i..])
             == ShipLoop(old(store), old(CursorOf()).value, log, opt.maxChunk, outs)
        decreases |outs| - i
      {
        if i == |outs| || !outs[i].Shipped? {
          return false;
        }
        assert outs[i..][1..] == outs[i + 1..];
        var room := if |log| - watermark < opt.maxChunk then |log| - watermark else opt.maxChunk;
        var n := if outs[i].n < room then outs[i].n else room;
        if n == 0 {
          return false;
        }
        var key := Chunk(gen.value, watermark, watermark + n);
        store := store.(chunks := store.chunks[key := log[watermark..watermark + n]]);
        watermark, i := watermark + n, i + 1;
      }
      drained := true;
    }

    method ShipLocked(current: nat, log: Bytes, env: Env)
      requires ValidOptions(opt)
      modifies this
      ensures var (s, c) := Ship(old(store), old(CursorOf()), current, log, opt, env);
              store == s && CursorOf() == Some(c)
    {
      if gen.None? || current != epoch {
        gen, epoch, watermark, sealed := Some(env.newGen), current, 0, 0;
        var vs := ChooseVictims(env.gens, store.manifests, opt.retain);
        store := Delete(store, vs, env.failed);
      }
      var drained := ShipChunks(log, env.outs);
      if drained && watermark > 0 && watermark != sealed && env.sealOk {
        store := store.(manifests := store.manifests[gen.value := watermark]);
        sealed := watermark;
      }
    }
  }
}
