/** Filtering and flattening sequences, and what they do to multisets. */
module Seqs {

  function Filter<T>(s: seq<T>, p: T -> bool): seq<T> {
    if s == [] then [] else (if p(s[0]) then [s[0]] else []) + Filter(s[1..], p)
  }

  function Flat<T, U>(s: seq<T>, f: T -> seq<U>): seq<U> {
    if s == [] then [] else f(s[0]) + Flat(s[1..], f)
  }

  lemma {:induction false} FilterConcat<T>(a: seq<T>, b: seq<T>, p: T -> bool)
    ensures Filter(a + b, p) == Filter(a, p) + Filter(b, p)
  {
    if a == [] {
      assert a + b == b;
    } else {
      assert (a + b)[1..] == a[1..] + b && (a + b)[0] == a[0];
      FilterConcat(a[1..], b, p);
      var x := if p(a[0]) then [a[0]] else [];
      assert Filter(a + b, p) == x + Filter(a[1..] + b, p);
      assert (x + Filter(a[1..], p)) + Filter(b, p) == x + (Filter(a[1..], p) + Filter(b, p));
    }
  }

  /** Filtering keeps every occurrence of the elements that pass. */
  lemma {:induction false} FilterCount<T>(s: seq<T>, p: T -> bool, x: T)
    ensures multiset(Filter(s, p))[x] == if p(x) then multiset(s)[x] else 0
  {
    if s != [] {
      assert s == [s[0]] + s[1..];
      FilterCount(s[1..], p, x);
    }
  }

  lemma FilterPerm<T(!new)>(a: seq<T>, b: seq<T>, p: T -> bool)
    requires multiset(a) == multiset(b)
    ensures multiset(Filter(a, p)) == multiset(Filter(b, p))
  {
    forall x: T ensures multiset(Filter(a, p))[x] == multiset(Filter(b, p))[x] {
      FilterCount(a, p, x);
      FilterCount(b, p, x);
    }
  }

  lemma FilterMembers<T(!new)>(s: seq<T>, p: T -> bool)
    ensures forall x :: x in Filter(s, p) <==> x in s && p(x)
  {
    forall x: T ensures x in Filter(s, p) <==> x in s && p(x) {
      FilterCount(s, p, x);
      assert x in Filter(s, p) <==> x in multiset(Filter(s, p));
      assert x in s <==> x in multiset(s);
    }
  }

  lemma {:induction false} FilterSame<T>(s: seq<T>, p: T -> bool, q: T -> bool)
    requires forall x :: x in s ==> p(x) == q(x)
    ensures Filter(s, p) == Filter(s, q)
  {
    if s != [] {
      FilterSame(s[1..], p, q);
    }
  }

  lemma {:induction false} FlatConcat<T, U>(a: seq<T>, b: seq<T>, f: T -> seq<U>)
    ensures Flat(a + b, f) == Flat(a, f) + Flat(b, f)
  {
    if a == [] {
      assert a + b == b;
    } else {
      assert (a + b)[1..] == a[1..] + b && (a + b)[0] == a[0];
      FlatConcat(a[1..], b, f);
      assert (f(a[0]) + Flat(a[1..], f)) + Flat(b, f) == f(a[0]) + (Flat(a[1..], f) + Flat(b, f));
    }
  }

  lemma FlatOne<T, U>(x: T, f: T -> seq<U>)
    ensures Flat([x], f) == f(x)
  {
    assert [x][1..] == [];
    assert f(x) + [] == f(x);
  }

  /** Flattening pointwise equal multisets over permuted sequences gives one multiset. */
  lemma {:induction false} FlatPerm<T, U>(a: seq<T>, b: seq<T>, f: T -> seq<U>, g: T -> seq<U>)
    requires multiset(a) == multiset(b)
    requires forall x :: x in a ==> multiset(f(x)) == multiset(g(x))
    ensures multiset(Flat(a, f)) == multiset(Flat(b, g))
  {
    if a == [] {
      assert |multiset(a)| == |a| && |multiset(b)| == |b|;
    } else {
      assert a == [a[0]] + a[1..];
      assert a[0] in multiset(b);
      var i :| 0 <= i < |b| && b[i] == a[0];
      var rest := b[..i] + b[i + 1..];
      FlatRemove(b, i, g);
      assert multiset(rest) == multiset(b) - multiset([b[i]]);
      assert multiset(a[1..]) == multiset(a) - multiset([a[0]]);
      FlatPerm(a[1..], rest, f, g);
    }
  }

  lemma FlatRemove<T, U>(b: seq<T>, i: nat, g: T -> seq<U>)
    requires i < |b|
    ensures multiset(b) == multiset(b[..i] + b[i + 1..]) + multiset([b[i]])
    ensures multiset(Flat(b, g)) == multiset(Flat(b[..i] + b[i + 1..], g)) + multiset(g(b[i]))
  {
    hide Flat;
    var head, tail := b[..i], b[i + 1..];
    assert b == head + [b[i]] + tail;
    MiddleOut(head, [b[i]], tail);
    FlatConcat(head + [b[i]], tail, g);
    FlatConcat(head, [b[i]], g);
    FlatConcat(head, tail, g);
    FlatOne(b[i], g);
    MiddleOut(Flat(head, g), g(b[i]), Flat(tail, g));
  }

  lemma MiddleOut<T>(a: seq<T>, b: seq<T>, c: seq<T>)
    ensures multiset(a + b + c) == multiset(a + c) + multiset(b)
  {
  }

  /** Elements that flatten to nothing can be dropped first. */
  lemma {:induction false} FlatDrop<T, U>(s: seq<T>, p: T -> bool, f: T -> seq<U>)
    requires forall x :: x in s && !p(x) ==> f(x) == []
    ensures Flat(Filter(s, p), f) == Flat(s, f)
  {
    if s != [] {
      FlatDrop(s[1..], p, f);
      var rest := Filter(s[1..], p);
      assert ([s[0]] + rest)[1..] == rest && [] + rest == rest;
    }
  }

  lemma {:induction false} FlatSame<T, U>(s: seq<T>, f: T -> seq<U>, g: T -> seq<U>)
    requires forall x :: x in s ==> f(x) == g(x)
    ensures Flat(s, f) == Flat(s, g)
  {
    if s != [] {
      FlatSame(s[1..], f, g);
    }
  }

  lemma {:induction false} FlatMember<T, U>(s: seq<T>, f: T -> seq<U>, y: U)
    requires y in Flat(s, f)
    ensures exists x :: x in s && y in f(x)
  {
    if y !in f(s[0]) {
      FlatMember(s[1..], f, y);
    }
  }
}
