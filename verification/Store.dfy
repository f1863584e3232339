/** The ordered key-value store underneath (btypedb), as a finite map: one key space
    holds every table's rows and index entries. Keys are tuples
    (table ID, index ID, values...) in the order of the key encoding. */
module Store {
  import opened Values

  /** The index ID of primary rows; secondary indexes have larger IDs. */
  const PRIMARY: nat := 1

  datatype Key = Key(table: nat, index: nat, vals: seq<Value>)

  /** A stored value: a row's (column ID, value) pairs, or an index entry's payload
      (the primary key in unique form, nothing otherwise). */
  datatype Stored = RowVal(pairs: seq<(nat, Value)>) | Entry(pk: seq<Value>)

  type KV = map<Key, Stored>

  /** The net effect of staged writes: per key, a new value or a deletion. */
  type Writes = map<Key, Option<Stored>>

  function Apply(s: KV, w: Writes): (r: KV)
    ensures forall k {:trigger k in r} :: k in r <==> if k in w then w[k].Some? else k in s
    ensures forall k {:trigger r[k]} :: k in r ==> r[k] == if k in w then w[k].value else s[k]
  {
    map k | k in s.Keys + w.Keys && (k in w ==> w[k].Some?) :: if k in w then w[k].value else s[k]
  }

  /** A contiguous stretch of one index's keys: at or above `from`, and below `to`
      (or, when incl, also starting with `to`). Empty bounds are no bounds. */
  datatype Range = Range(table: nat, index: nat, dirs: seq<bool>, from: seq<Value>, to: seq<Value>, incl: bool)

  predicate InRange(k: Key, r: Range) {
    && k.table == r.table && k.index == r.index
    && TupleCmp(r.dirs, k.vals, r.from, 0) >= 0
    && (TupleCmp(r.dirs, k.vals, r.to, 0) < 0 || (r.incl && r.to <= k.vals))
  }

  ghost function KeysIn(s: KV, r: Range): set<Key> {
    set k | k in s && InRange(k, r)
  }

  // --- iteration in key order ---

  predicate Before(dirs: seq<bool>, a: Key, b: Key) {
    TupleCmp(dirs, a.vals, b.vals, 0) < 0
  }

  ghost predicate Least(dirs: seq<bool>, ks: set<Key>, m: Key) {
    m in ks && forall k :: k in ks ==> k == m || Before(dirs, m, k)
  }

  /** Keys of one index, so that only their tuples tell them apart. */
  ghost predicate OneIndex(ks: set<Key>, t: nat, i: nat) {
    forall k :: k in ks ==> k.table == t && k.index == i
  }

  lemma {:induction false} LeastExists(dirs: seq<bool>, ks: set<Key>, t: nat, i: nat)
    requires ks != {} && OneIndex(ks, t, i)
    ensures exists m :: Least(dirs, ks, m)
    decreases |ks|
  {
    var x :| x in ks;
    if ks == {x} {
      assert Least(dirs, ks, x);
    } else {
      var rest := ks - {x};
      assert rest != {};
      LeastExists(dirs, rest, t, i);
      var m :| Least(dirs, rest, m);
      TupleCmpOrder(dirs, x.vals, m.vals, 0);
      if Before(dirs, x, m) {
        forall k | k in ks ensures k == x || Before(dirs, x, k) {
          if k != x && k != m {
            assert k in rest;
            TupleCmpTrans(dirs, x.vals, m.vals, k.vals, 0);
          }
        }
        assert Least(dirs, ks, x);
      } else {
        assert Least(dirs, ks, m);
      }
    }
  }

  /** The keys of one index in ascending order: what Ascend iterates. */
  ghost function Ascending(dirs: seq<bool>, ks: set<Key>, t: nat, i: nat): (out: seq<Key>)
    requires OneIndex(ks, t, i)
    ensures forall k :: k in out <==> k in ks
    ensures forall a, b :: 0 <= a < b < |out| ==> Before(dirs, out[a], out[b])
    decreases |ks|
  {
    if ks == {} then []
    else
      LeastExists(dirs, ks, t, i);
      var m :| Least(dirs, ks, m);
      [m] + Ascending(dirs, ks - {m}, t, i)
  }

  /** A range's keys in ascending order. */
  ghost function Ascend(s: KV, r: Range): (out: seq<Key>)
    ensures forall k :: k in out <==> k in s && InRange(k, r)
    ensures forall a, b :: 0 <= a < b < |out| ==> Before(r.dirs, out[a], out[b])
  {
    Ascending(r.dirs, KeysIn(s, r), r.table, r.index)
  }

  /** Key order has one listing per set of keys. */
  lemma {:induction false} ListingUnique(dirs: seq<bool>, a: seq<Key>, b: seq<Key>)
    requires forall k :: k in a <==> k in b
    requires forall i, j :: 0 <= i < j < |a| ==> Before(dirs, a[i], a[j])
    requires forall i, j :: 0 <= i < j < |b| ==> Before(dirs, b[i], b[j])
    ensures a == b
  {
    if a == [] {
      SomeMember(b);
    } else {
      assert a[0] in a;
      assert b != [];
      HeadsAgree(dirs, a, b);
      forall k | true ensures k in a[1..] <==> k in b[1..] {
        TailMember(dirs, a, k);
        TailMember(dirs, b, k);
      }
      ListingUnique(dirs, a[1..], b[1..]);
      assert a == [a[0]] + a[1..] && b == [b[0]] + b[1..];
    }
  }

  lemma SomeMember<T>(s: seq<T>)
    ensures s != [] ==> s[0] in s
  {
  }

  lemma HeadsAgree(dirs: seq<bool>, a: seq<Key>, b: seq<Key>)
    requires a != [] && b != [] && forall k :: k in a <==> k in b
    requires forall i, j :: 0 <= i < j < |a| ==> Before(dirs, a[i], a[j])
    requires forall i, j :: 0 <= i < j < |b| ==> Before(dirs, b[i], b[j])
    ensures a[0] == b[0]
  {
    assert a[0] in a && b[0] in b;
    var i :| 0 <= i < |b| && b[i] == a[0];
    var j :| 0 <= j < |a| && a[j] == b[0];
    TupleCmpOrder(dirs, a[0].vals, b[0].vals, 0);
  }

  lemma TailMember(dirs: seq<bool>, a: seq<Key>, k: Key)
    requires a != [] && forall i, j :: 0 <= i < j < |a| ==> Before(dirs, a[i], a[j])
    ensures k in a[1..] <==> k in a && k != a[0]
  {
    if k in a[1..] {
      var i :| 0 <= i < |a[1..]| && a[1..][i] == k;
      assert a[i + 1] == k && Before(dirs, a[0], a[i + 1]);
      TupleCmpOrder(dirs, a[0].vals, a[0].vals, 0);
    }
    if k in a && k != a[0] {
      var i :| 0 <= i < |a| && a[i] == k;
      assert a[1..][i - 1] == k;
    }
  }
}
