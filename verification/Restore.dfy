/** Restoring a replica (replicate/restore.go): the newest certified generation whose
    chunks still reach its certified size, byte for byte. */
module Restore {
  import opened Values
  import opened Replica
  import opened ReplicaProof

  /** A parsed chunk key of one generation. */
  datatype Ref = Ref(start: nat, end: nat)

  ghost predicate RefIn(st: Store, g: nat, r: Ref) {
    r.start < r.end && Chunk(g, r.start, r.end) in st.chunks
  }

  /** A generation's chunk keys, each once, sorted by start offset. */
  ghost predicate RefListing(st: Store, g: nat, refs: seq<Ref>) {
    && (forall i, j :: 0 <= i < j < |refs| ==> refs[i].start <= refs[j].start && refs[i] != refs[j])
    && (forall r :: r in refs <==> RefIn(st, g, r))
  }

  /** The chunks that follow on from an offset without a gap. */
  function Chain(refs: seq<Ref>, next: nat): (c: seq<Ref>)
    ensures c <= refs
  {
    if refs == [] || refs[0].start != next then [] else [refs[0]] + Chain(refs[1..], refs[0].end)
  }

  method ContiguousChain(refs: seq<Ref>) returns (chain: seq<Ref>)
    ensures chain == Chain(refs, 0)
  {
    chain := [];
    var next, i := 0, 0;
    assert refs[0..] == refs && [] + Chain(refs, 0) == Chain(refs, 0);
    while i < |refs|
      invariant 0 <= i <= |refs| && chain + Chain(refs[i..], next) == Chain(refs, 0)
    {
      if refs[i].start != next {
        break;
      }
      assert refs[i..][1..] == refs[i + 1..];
      assert chain + ([refs[i]] + Chain(refs[i + 1..], refs[i].end))
           == chain + [refs[i]] + Chain(refs[i + 1..], refs[i].end);
      chain, next, i := chain + [refs[i]], refs[i].end, i + 1;
    }
    assert chain + [] == chain;
  }

  /** The chunks' contents joined; None when one does not have its declared size. */
  function Joined(st: Store, g: nat, chain: seq<Ref>): Option<Bytes> {
    if chain == [] then Some([])
    else
      var front, last := Joined(st, g, chain[..|chain| - 1]), chain[|chain| - 1];
      var key := Chunk(g, last.start, last.end);
      if front.None? || key !in st.chunks || last.start + |st.chunks[key]| != last.end then None
      else Some(front.value + st.chunks[key])
  }

  method Assemble(st: Store, g: nat, chain: seq<Ref>) returns (r: Option<Bytes>)
    ensures r == Joined(st, g, chain)
  {
    var out: Bytes, i := [], 0;
    while i < |chain|
      invariant 0 <= i <= |chain| && Joined(st, g, chain[..i]) == Some(out)
    {
      assert chain[..i + 1][..i] == chain[..i];
      var key := Chunk(g, chain[i].start, chain[i].end);
      if key !in st.chunks || chain[i].start + |st.chunks[key]| != chain[i].end {
        NotJoined(st, g, chain, i + 1);
        return None;
      }
      out, i := out + st.chunks[key], i + 1;
    }
    assert chain[..i] == chain;
    r := Some(out);
  }

  lemma {:induction false} NotJoined(st: Store, g: nat, chain: seq<Ref>, n: nat)
    requires n <= |chain| && Joined(st, g, chain[..n]).None?
    ensures Joined(st, g, chain).None?
    decreases |chain|
  {
    if n < |chain| {
      assert chain[..|chain| - 1][..n] == chain[..n];
      NotJoined(st, g, chain[..|chain| - 1], n);
    } else {
      assert chain[..n] == chain;
    }
  }

  datatype Result = Restored(gen: nat, bytes: Bytes) | Damaged(gen: nat) | NoReplica | Incomplete

  /** A generation's chain, certified or not. */
  function ChainOf(refs: nat -> seq<Ref>, g: nat): seq<Ref> {
    Chain(refs(g), 0)
  }

  predicate Complete(st: Store, refs: nat -> seq<Ref>, g: nat) {
    && g in st.manifests && ChainOf(refs, g) != []
    && ChainOf(refs, g)[|ChainOf(refs, g)| - 1].end >= st.manifests[g]
  }

  function Outcome1(st: Store, refs: nat -> seq<Ref>, g: nat): Result {
    match Joined(st, g, ChainOf(refs, g)) case None => Damaged(g) case Some(b) => Restored(g, b)
  }

  predicate NoneCertified(st: Store, gens: seq<nat>) {
    forall j :: 0 <= j < |gens| ==> gens[j] !in st.manifests
  }

  predicate NoneComplete(st: Store, refs: nat -> seq<Ref>, gens: seq<nat>) {
    forall j :: 0 <= j < |gens| ==> !Complete(st, refs, gens[j])
  }

  predicate FirstComplete(st: Store, refs: nat -> seq<Ref>, gens: seq<nat>, i: nat) {
    i < |gens| && Complete(st, refs, gens[i]) && forall j :: 0 <= j < i ==> !Complete(st, refs, gens[j])
  }

  predicate FirstChain(refs: nat -> seq<Ref>, gens: seq<nat>, i: nat) {
    i < |gens| && ChainOf(refs, gens[i]) != [] && forall j :: 0 <= j < i ==> ChainOf(refs, gens[j]) == []
  }

  /** Restore's selection: the first complete generation; failing that, and only if none
      was ever certified, the first with a chain at all. */
  method RestoreNewest(st: Store, gens: seq<nat>, refs: nat -> seq<Ref>) returns (r: Result)
    ensures forall i: nat :: FirstComplete(st, refs, gens, i) ==> r == Outcome1(st, refs, gens[i])
    ensures NoneComplete(st, refs, gens) && !NoneCertified(st, gens) ==> r == Incomplete
    ensures NoneCertified(st, gens) ==> forall i: nat :: FirstChain(refs, gens, i) ==> r == Outcome1(st, refs, gens[i])
    ensures NoneCertified(st, gens) && (forall i :: 0 <= i < |gens| ==> ChainOf(refs, gens[i]) == []) ==> r == NoReplica
  {
    var sawManifest, i := false, 0;
    while i < |gens|
      invariant 0 <= i <= |gens| && sawManifest == exists j :: 0 <= j < i && gens[j] in st.manifests
      invariant forall j :: 0 <= j < i ==> !Complete(st, refs, gens[j])
    {
      if gens[i] in st.manifests {
        sawManifest := true;
        var chain := ContiguousChain(refs(gens[i]));
        if chain != [] && chain[|chain| - 1].end >= st.manifests[gens[i]] {
          assert Complete(st, refs, gens[i]);
          var bytes := Assemble(st, gens[i], chain);
          return if bytes.Some? then Restored(gens[i], bytes.value) else Damaged(gens[i]);
        }
      }
      i := i + 1;
    }
    if sawManifest {
      return Incomplete;
    }
    r := RestoreUncertified(st, gens, refs);
  }

  method RestoreUncertified(st: Store, gens: seq<nat>, refs: nat -> seq<Ref>) returns (r: Result)
    ensures forall i: nat :: FirstChain(refs, gens, i) ==> r == Outcome1(st, refs, gens[i])
    ensures (forall i :: 0 <= i < |gens| ==> ChainOf(refs, gens[i]) == []) ==> r == NoReplica
  {
    var i := 0;
    while i < |gens|
      invariant 0 <= i <= |gens| && forall j :: 0 <= j < i ==> ChainOf(refs, gens[j]) == []
    {
      var chain := ContiguousChain(refs(gens[i]));
      if chain != [] {
        var bytes := Assemble(st, gens[i], chain);
        return if bytes.Some? then Restored(gens[i], bytes.value) else Damaged(gens[i]);
      }
      i := i + 1;
    }
    r := NoReplica;
  }

  // --- a whole generation restores exactly ---

  /** The ranges between consecutive cuts. */
  function CutRefs(cs: seq<nat>): (rs: seq<Ref>)
    ensures |rs| == if cs == [] then 0 else |cs| - 1
    ensures forall i :: 0 <= i < |rs| ==> rs[i] == Ref(cs[i], cs[i + 1])
  {
    if |cs| <= 1 then [] else CutRefs(cs[..|cs| - 1]) + [Ref(cs[|cs| - 2], cs[|cs| - 1])]
  }

  lemma {:induction false} CutsAscend(cs: seq<nat>, i: nat, j: nat)
    requires CutsOK(cs) && i < j < |cs|
    ensures cs[i] < cs[j]
    decreases j
  {
    assert StepUp(cs, j - 1);
    if i < j - 1 {
      CutsAscend(cs, i, j - 1);
    }
  }

  /** A generation with all its ranges, each holding its bytes of the log, and no other. */
  ghost predicate WholeOf(st: Store, g: nat, cs: seq<nat>, log: Bytes) {
    && CutsOK(cs) && Last(cs) <= |log|
    && (forall i {:trigger RangeAt(st, g, cs, i, log)} :: 0 <= i < |cs| - 1 ==> RangeAt(st, g, cs, i, log))
    && (forall c :: c in st.chunks && c.gen == g ==> exists i :: IsCut(cs, i, c))
  }

  ghost predicate RangeAt(st: Store, g: nat, cs: seq<nat>, i: int, log: Bytes) {
    && 0 <= i < |cs| - 1 && cs[i] < cs[i + 1] <= |log|
    && Chunk(g, cs[i], cs[i + 1]) in st.chunks && st.chunks[Chunk(g, cs[i], cs[i + 1])] == log[cs[i]..cs[i + 1]]
  }

  lemma WholeInWorld(w: World, g: nat)
    requires Inv(w) && g in w.cuts && g !in w.thinned
    ensures g in w.epochOf && w.epochOf[g] in w.logs && WholeOf(w.store, g, w.cuts[g], w.logs[w.epochOf[g]])
  {
    assert GenOK(w, g);
    var cs := w.cuts[g];
    forall i | 0 <= i < |cs| - 1 ensures RangeAt(w.store, g, cs, i, w.logs[w.epochOf[g]]) {
      assert RangeKept(w.store, g, cs, i);
      assert ChunkOK(w, Chunk(g, cs[i], cs[i + 1]));
    }
    forall c | c in w.store.chunks && c.gen == g ensures exists i :: IsCut(cs, i, c) {
      assert ChunkOK(w, c);
    }
  }

  /** The listing of a whole generation's keys is its ranges in order. */
  lemma WholeListing(st: Store, g: nat, cs: seq<nat>, log: Bytes, refs: seq<Ref>)
    requires WholeOf(st, g, cs, log) && RefListing(st, g, refs)
    ensures refs == CutRefs(cs)
  {
    var rs := CutRefs(cs);
    forall r ensures r in rs <==> r in refs {
      WholeRefs(st, g, cs, log, r);
    }
    forall i, j | 0 <= i < j < |rs| ensures rs[i].start < rs[j].start {
      CutsAscend(cs, i, j);
      assert rs[i] == Ref(cs[i], cs[i + 1]) && rs[j] == Ref(cs[j], cs[j + 1]);
    }
    forall i, j | 0 <= i < j < |refs| ensures refs[i].start < refs[j].start {
      assert refs[i] in refs && refs[j] in refs;
      if refs[i].start == refs[j].start {
        SameStart(cs, refs[i], refs[j]);
      }
    }
    SortedSame(refs, rs);
  }

  lemma WholeRefs(st: Store, g: nat, cs: seq<nat>, log: Bytes, r: Ref)
    requires WholeOf(st, g, cs, log)
    ensures r in CutRefs(cs) <==> RefIn(st, g, r)
  {
    var rs := CutRefs(cs);
    if r in rs {
      var i :| 0 <= i < |rs| && rs[i] == r;
      assert RangeAt(st, g, cs, i, log);
    }
    if RefIn(st, g, r) {
      var i :| IsCut(cs, i, Chunk(g, r.start, r.end));
      assert rs[i] == r;
    }
  }

  /** Two ranges of one generation that start together are one. */
  lemma SameStart(cs: seq<nat>, a: Ref, b: Ref)
    requires CutsOK(cs) && a in CutRefs(cs) && b in CutRefs(cs) && a.start == b.start
    ensures a == b
  {
    var rs := CutRefs(cs);
    var i :| 0 <= i < |rs| && rs[i] == a;
    var j :| 0 <= j < |rs| && rs[j] == b;
    assert a == Ref(cs[i], cs[i + 1]) && b == Ref(cs[j], cs[j + 1]);
    if i < j {
      CutsAscend(cs, i, j);
    } else if j < i {
      CutsAscend(cs, j, i);
    }
  }

  lemma {:induction false} SortedSame(a: seq<Ref>, b: seq<Ref>)
    requires forall r :: r in a <==> r in b
    requires forall i, j :: 0 <= i < j < |a| ==> a[i].start < a[j].start
    requires forall i, j :: 0 <= i < j < |b| ==> b[i].start < b[j].start
    ensures a == b
  {
    if a == [] {
      NoMember(b);
    } else {
      assert a[0] in a;
      assert b != [] && b[0] in b;
      var i :| 0 <= i < |b| && b[i] == a[0];
      var j :| 0 <= j < |a| && a[j] == b[0];
      assert a[0] == b[0];
      forall r ensures r in a[1..] <==> r in b[1..] {
        TailOf(a, r);
        TailOf(b, r);
      }
      SortedSame(a[1..], b[1..]);
      assert a == [a[0]] + a[1..] && b == [b[0]] + b[1..];
    }
  }

  lemma NoMember(b: seq<Ref>)
    requires forall r :: r !in b
    ensures b == []
  {
    FirstIn(b);
  }

  lemma FirstIn(b: seq<Ref>)
    ensures b != [] ==> b[0] in b
  {
  }

  lemma TailOf(a: seq<Ref>, r: Ref)
    requires a != [] && forall i, j :: 0 <= i < j < |a| ==> a[i].start < a[j].start
    ensures r in a[1..] <==> r in a && r != a[0]
  {
    if r in a && r != a[0] {
      var i :| 0 <= i < |a| && a[i] == r;
      assert a[1..][i - 1] == r;
    }
    if r in a[1..] {
      var i :| 0 <= i < |a[1..]| && a[1..][i] == r;
      assert a[i + 1] == r && a[0].start < a[i + 1].start;
    }
  }

  predicate Follows(refs: seq<Ref>, i: int) {
    0 <= i < |refs| - 1 && refs[i + 1].start == refs[i].end
  }

  lemma {:induction false} ChainWhole(refs: seq<Ref>, next: nat)
    requires refs != [] ==> refs[0].start == next
    requires forall i {:trigger Follows(refs, i)} :: 0 <= i < |refs| - 1 ==> Follows(refs, i)
    ensures Chain(refs, next) == refs
  {
    if refs != [] {
      var tail := refs[1..];
      forall i | 0 <= i < |tail| - 1 ensures Follows(tail, i) {
        assert Follows(refs, i + 1);
      }
      assert |refs| > 1 ==> Follows(refs, 0);
      ChainWhole(tail, refs[0].end);
      assert refs == [refs[0]] + tail;
    }
  }

  /** Joining the first n ranges gives exactly the log up to their end. */
  lemma {:induction false} JoinedLog(st: Store, g: nat, cs: seq<nat>, log: Bytes, n: nat)
    requires WholeOf(st, g, cs, log) && n < |cs|
    ensures cs[n] <= |log| && Joined(st, g, CutRefs(cs)[..n]) == Some(log[..cs[n]])
  {
    var rs := CutRefs(cs);
    hide CutRefs;
    if n < |cs| - 1 {
      CutsAscend(cs, n, |cs| - 1);
    }
    if n > 0 {
      JoinedLog(st, g, cs, log, n - 1);
      assert RangeAt(st, g, cs, n - 1, log);
      assert rs[..n][..n - 1] == rs[..n - 1] && rs[..n][n - 1] == Ref(cs[n - 1], cs[n]);
      assert log[..cs[n - 1]] + log[cs[n - 1]..cs[n]] == log[..cs[n]];
    }
  }

  /** A whole generation restores to its log up to what was shipped. */
  lemma WholeRestores(st: Store, g: nat, cs: seq<nat>, log: Bytes, refs: nat -> seq<Ref>)
    requires WholeOf(st, g, cs, log) && RefListing(st, g, refs(g)) && |cs| > 1
    ensures Outcome1(st, refs, g) == Restored(g, log[..Last(cs)]) && ChainOf(refs, g) == CutRefs(cs)
  {
    WholeListing(st, g, cs, log, refs(g));
    var rs := CutRefs(cs);
    forall i | 0 <= i < |rs| - 1 ensures Follows(rs, i) {
      assert rs[i] == Ref(cs[i], cs[i + 1]) && rs[i + 1] == Ref(cs[i + 1], cs[i + 2]);
    }
    assert rs[0] == Ref(cs[0], cs[1]);
    ChainWhole(rs, 0);
    JoinedLog(st, g, cs, log, |cs| - 1);
    assert rs[..|cs| - 1] == rs;
  }

  /** The newest certified generation is complete, and joins to a prefix of its log at
      least as long as certified. */
  lemma NewestRestores(w: World, g: nat, refs: nat -> seq<Ref>)
    requires Inv(w) && g in w.certified && (forall h :: h in w.certified ==> h <= g) && RefListing(w.store, g, refs(g))
    ensures g in w.store.manifests && g in w.epochOf && w.epochOf[g] in w.logs && Complete(w.store, refs, g)
    ensures var o := Outcome1(w.store, refs, g);
            o.Restored? && o.gen == g && o.bytes <= w.logs[w.epochOf[g]] && |o.bytes| >= w.store.manifests[g]
  {
    assert g in w.cuts && GenOK(w, g);
    WholeInWorld(w, g);
    WholeRestores(w.store, g, w.cuts[g], w.logs[w.epochOf[g]], refs);
  }

  /** After any run that ever certified a generation, Restore returns a byte-exact prefix
      of the newest certified generation's log, at least as long as certified. */
  method RestoreAfterRun(ghost w: World, ghost o: Options, ghost es: seq<Event>, st: Store, gens: seq<nat>,
                         refs: nat -> seq<Ref>)
      returns (r: Result)
    requires ValidOptions(o) && Inv(w) && Legal(w, o, es) && Run(w, o, es).certified != {} && st == Run(w, o, es).store
    requires (forall i, j :: 0 <= i < j < |gens| ==> gens[i] > gens[j]) && forall g :: g in gens <==> g in Gens(st)
    requires forall g :: g in gens ==> RefListing(st, g, refs(g))
    ensures var z := Run(w, o, es);
            && r.Restored? && r.gen in z.certified && (forall h :: h in z.certified ==> h <= r.gen)
            && r.gen in z.epochOf && z.epochOf[r.gen] in z.logs && r.gen in st.manifests
            && r.bytes <= z.logs[z.epochOf[r.gen]] && |r.bytes| >= st.manifests[r.gen]
  {
    hide Joined, Chain, RefListing;
    ghost var z := Run(w, o, es);
    ghost var g := Newest(z.certified);
    assert g in st.manifests && g in gens;
    NewestRestores(z, g, refs);
    ghost var i :| 0 <= i < |gens| && gens[i] == g;
    forall j | 0 <= j < i ensures !Complete(st, refs, gens[j]) {
      assert gens[j] > g && gens[j] !in z.certified;
    }
    r := RestoreNewest(st, gens, refs);
  }

  ghost function Newest(s: set<nat>): (m: nat)
    requires s != {}
    ensures m in s && forall x :: x in s ==> x <= m
    decreases |s|
  {
    var x :| x in s;
    if s - {x} == {} then
      assert s == {x};
      x
    else
      var m := Newest(s - {x});
      assert forall y :: y in s ==> y == x || y in s - {x};
      if m >= x then m else x
  }
}
