/** The order-preserving key encoding (tuple/tuple.go): every element is a type
    tag followed by a fixed-width or escape-terminated body, inverted byte for
    byte when its key column descends. */
module Tuple {
  import opened Values
  import Float64

  const TWO63: int := 0x8000_0000_0000_0000

  /** Values of the source's types: int64 integers, and float64 numbers other than NaN. */
  ghost predicate Encodable(v: Value) {
    (v.Int? ==> -TWO63 <= v.i < TWO63) && (v.Flt? ==> Float64.IsFloat(v.f))
  }

  ghost predicate AllEncodable(vs: seq<Value>) {
    forall i :: 0 <= i < |vs| ==> Encodable(vs[i])
  }

  /** XOR with the direction mask: 0x00 keeps a byte, 0xFF complements it. */
  function Mask(desc: bool, c: Byte): Byte {
    if desc then 255 - c else c
  }

  function MaskAll(desc: bool, s: seq<Byte>): seq<Byte> {
    seq(|s|, i requires 0 <= i < |s| => Mask(desc, s[i]))
  }

  function Pow256(n: nat): int {
    if n == 0 then 1 else 256 * Pow256(n - 1)
  }

  /** Big-endian bytes of u, n of them. */
  function BigEndian(u: int, n: nat): (s: seq<Byte>)
    ensures |s| == n
    decreases n
  {
    if n == 0 then [] else BigEndian(u / 256, n - 1) + [u % 256]
  }

  /** An int64 as eight bytes whose order is the integers' order. */
  function Word(i: int): (s: seq<Byte>)
    ensures |s| == 8
  {
    BigEndian(i + TWO63, 8)
  }

  function FromBigEndian(s: seq<Byte>): nat {
    if s == [] then 0 else FromBigEndian(s[..|s| - 1]) * 256 + s[|s| - 1]
  }

  function EscapeByte(c: Byte): seq<Byte> {
    if c == 0 then [0, 255] else [c]
  }

  /** String body: 0x00 becomes 0x00 0xFF and 0x00 0x01 terminates. */
  function Escape(s: seq<Byte>): seq<Byte> {
    if s == [] then [0, 1] else EscapeByte(s[0]) + Escape(s[1..])
  }

  /** Ascending encoding of one value. */
  function EncodeAsc(v: Value): seq<Byte>
    requires Encodable(v)
  {
    match v
    case Null => [1]
    case Bool(b) => [if b then 3 else 2]
    case Int(i) => [4] + Word(i)
    case Flt(f) => [5] + BigEndian(Float64.Bits(f), 8)
    case Blob(b) => [6] + Escape(b)
    case Str(s) => [7] + Escape(s)
  }

  function EncodeOne(desc: bool, v: Value): seq<Byte>
    requires Encodable(v)
  {
    MaskAll(desc, EncodeAsc(v))
  }

  /** Encoding of the tuple's elements from i on. */
  function Encode(dirs: seq<bool>, vs: seq<Value>, i: nat): seq<Byte>
    requires AllEncodable(vs) && i <= |vs|
    decreases |vs| - i
  {
    if i == |vs| then [] else EncodeOne(DescAt(dirs, i), vs[i]) + Encode(dirs, vs, i + 1)
  }

  // --- order ---

  /** x and y first differ inside both, at a byte whose order is c. */
  ghost predicate Decided(x: seq<Byte>, y: seq<Byte>, c: int) {
    exists p: nat :: DecidedAt(x, y, c, p)
  }

  ghost predicate DecidedAt(x: seq<Byte>, y: seq<Byte>, c: int, p: nat) {
    p < |x| && p < |y| && x[..p] == y[..p] && x[p] != y[p] && c == CmpInt(x[p], y[p])
  }

  lemma {:induction false} CmpBytesSkip(x: seq<Byte>, y: seq<Byte>, p: nat, i: nat)
    requires i <= p <= |x| && p <= |y| && x[..p] == y[..p]
    ensures CmpBytes(x, y, i) == CmpBytes(x, y, p)
    decreases p - i
  {
    if i < p {
      assert x[i] == x[..p][i] == y[..p][i] == y[i];
      CmpBytesSkip(x, y, p, i + 1);
    }
  }

  lemma {:induction false} CmpBytesStrip(w: seq<Byte>, x: seq<Byte>, y: seq<Byte>, i: nat)
    ensures CmpBytes(w + x, w + y, |w| + i) == CmpBytes(x, y, i)
    decreases |x| - i
  {
    if i < |x| && i < |y| && x[i] == y[i] {
      CmpBytesStrip(w, x, y, i + 1);
    }
  }

  /** A decided pair decides every extension. */
  lemma DecidedExtends(x: seq<Byte>, y: seq<Byte>, c: int, u: seq<Byte>, v: seq<Byte>)
    requires Decided(x, y, c)
    ensures CmpBytes(x + u, y + v, 0) == c
    ensures Decided(x + u, y + v, c)
  {
    var p: nat :| DecidedAt(x, y, c, p);
    assert (x + u)[..p] == x[..p] && (y + v)[..p] == y[..p];
    CmpBytesSkip(x + u, y + v, p, 0);
    assert DecidedAt(x + u, y + v, c, p);
  }

  lemma DecidedUnder(w: seq<Byte>, x: seq<Byte>, y: seq<Byte>, c: int)
    requires Decided(x, y, c)
    ensures Decided(w + x, w + y, c)
  {
    var p: nat :| DecidedAt(x, y, c, p);
    assert (w + x)[..|w| + p] == w + x[..p] && (w + y)[..|w| + p] == w + y[..p];
    assert DecidedAt(w + x, w + y, c, |w| + p);
  }

  /** Complementing both sides reverses the decision. */
  lemma DecidedMask(desc: bool, x: seq<Byte>, y: seq<Byte>, c: int)
    requires Decided(x, y, c)
    ensures Decided(MaskAll(desc, x), MaskAll(desc, y), if desc then -c else c)
  {
    var p: nat :| DecidedAt(x, y, c, p);
    var mx, my := MaskAll(desc, x), MaskAll(desc, y);
    assert mx[..p] == my[..p] by {
      forall i | 0 <= i < p ensures mx[i] == my[i] {
        assert x[i] == x[..p][i] == y[..p][i] == y[i];
      }
    }
    assert DecidedAt(mx, my, if desc then -c else c, p);
  }

  lemma {:induction false} BigEndianOrder(u: int, v: int, n: nat)
    requires 0 <= u < Pow256(n) && 0 <= v < Pow256(n) && u != v
    ensures Decided(BigEndian(u, n), BigEndian(v, n), CmpInt(u, v))
  {
    if n > 0 {
      var hu, hv := BigEndian(u / 256, n - 1), BigEndian(v / 256, n - 1);
      if u / 256 == v / 256 {
        assert BigEndian(u, n)[..n - 1] == hu && BigEndian(v, n)[..n - 1] == hv;
        assert DecidedAt(BigEndian(u, n), BigEndian(v, n), CmpInt(u, v), n - 1);
      } else {
        BigEndianOrder(u / 256, v / 256, n - 1);
        DecidedExtends(hu, hv, CmpInt(u / 256, v / 256), [u % 256], [v % 256]);
      }
    }
  }

  lemma {:induction false} EscapeOrder(s: seq<Byte>, t: seq<Byte>)
    requires s != t
    ensures Decided(Escape(s), Escape(t), CmpBytes(s, t, 0))
    decreases |s|
  {
    if s == [] || t == [] {
      var p := if s + t != [] && (s + t)[0] == 0 then 1 else 0;
      assert s + t == if s == [] then t else s;
      assert DecidedAt(Escape(s), Escape(t), CmpBytes(s, t, 0), p);
    } else if s[0] != t[0] {
      assert DecidedAt(Escape(s), Escape(t), CmpBytes(s, t, 0), 0);
    } else {
      EscapeOrder(s[1..], t[1..]);
      DecidedUnder(EscapeByte(s[0]), Escape(s[1..]), Escape(t[1..]), CmpBytes(s[1..], t[1..], 0));
      assert s == [s[0]] + s[1..] && t == [s[0]] + t[1..];
      CmpBytesStrip([s[0]], s[1..], t[1..], 0);
    }
  }

  lemma Pow256Eight()
    ensures Pow256(8) == 2 * TWO63
  {
    assert Pow256(4) == 0x1_0000_0000;
    assert Pow256(8) == 256 * (256 * (256 * (256 * Pow256(4))));
  }

  lemma WordOrder(i: int, j: int)
    requires -TWO63 <= i < TWO63 && -TWO63 <= j < TWO63 && i != j
    ensures Decided(Word(i), Word(j), CmpInt(i, j))
  {
    Pow256Eight();
    BigEndianOrder(i + TWO63, j + TWO63, 8);
  }

  lemma FloatOrder(f: Float, g: Float)
    requires Float64.IsFloat(f) && Float64.IsFloat(g) && f != g
    ensures Decided(BigEndian(Float64.Bits(f), 8), BigEndian(Float64.Bits(g), 8), CmpFloat(f, g))
  {
    hide Float64.IsFloat, Float64.Bits, BigEndian, Decided;
    Pow256Eight();
    if CmpFloat(f, g) < 0 {
      Float64.BitsOrder(f, g);
    } else {
      Float64.BitsOrder(g, f);
    }
    BigEndianOrder(Float64.Bits(f), Float64.Bits(g), 8);
  }

  lemma AscOrder(a: Value, b: Value)
    requires Encodable(a) && Encodable(b) && a != b
    ensures Decided(EncodeAsc(a), EncodeAsc(b), KeyCmp(a, b))
  {
    if a.Int? && b.Int? {
      WordOrder(a.i, b.i);
      DecidedUnder([4], Word(a.i), Word(b.i), CmpInt(a.i, b.i));
    } else if a.Flt? && b.Flt? {
      FloatOrder(a.f, b.f);
      DecidedUnder([5], BigEndian(Float64.Bits(a.f), 8), BigEndian(Float64.Bits(b.f), 8), CmpFloat(a.f, b.f));
    } else if a.Blob? && b.Blob? {
      EscapeOrder(a.bs, b.bs);
      DecidedUnder([6], Escape(a.bs), Escape(b.bs), CmpBytes(a.bs, b.bs, 0));
    } else if a.Str? && b.Str? {
      EscapeOrder(a.s, b.s);
      DecidedUnder([7], Escape(a.s), Escape(b.s), CmpBytes(a.s, b.s, 0));
    } else {
      assert DecidedAt(EncodeAsc(a), EncodeAsc(b), KeyCmp(a, b), 0);
    }
  }

  /** One element's encodings first differ inside both, in its directed order; so
      neither is a prefix of the other. */
  lemma OneOrder(desc: bool, a: Value, b: Value)
    requires Encodable(a) && Encodable(b) && a != b
    ensures Decided(EncodeOne(desc, a), EncodeOne(desc, b), DirCmp(desc, a, b))
  {
    AscOrder(a, b);
    DecidedMask(desc, EncodeAsc(a), EncodeAsc(b), KeyCmp(a, b));
    KeyCmpOrder(a, b);
  }

  lemma EncodeNonempty(desc: bool, v: Value)
    requires Encodable(v)
    ensures |EncodeOne(desc, v)| > 0
  {
  }

  /** Byte order of two encoded tuples is the directed order of the tuples. */
  lemma {:induction false} EncodeOrder(dirs: seq<bool>, a: seq<Value>, b: seq<Value>, i: nat)
    requires AllEncodable(a) && AllEncodable(b) && i <= |a| && i <= |b|
    ensures CmpBytes(Encode(dirs, a, i), Encode(dirs, b, i), 0) == TupleCmp(dirs, a, b, i)
    decreases |a| - i
  {
    if i == |a| && i < |b| {
      EncodeNonempty(DescAt(dirs, i), b[i]);
    } else if i < |a| && i == |b| {
      EncodeNonempty(DescAt(dirs, i), a[i]);
    } else if i < |a| && i < |b| {
      var ea, eb := EncodeOne(DescAt(dirs, i), a[i]), EncodeOne(DescAt(dirs, i), b[i]);
      var ra, rb := Encode(dirs, a, i + 1), Encode(dirs, b, i + 1);
      if a[i] == b[i] {
        EncodeOrder(dirs, a, b, i + 1);
        CmpBytesStrip(ea, ra, rb, 0);
        CmpBytesSkip(ea + ra, eb + rb, |ea|, 0);
      } else {
        OneOrder(DescAt(dirs, i), a[i], b[i]);
        DecidedExtends(ea, eb, DirCmp(DescAt(dirs, i), a[i], b[i]), ra, rb);
      }
    }
  }

  // --- prefixes and scan bounds ---

  /** An encoded tuple has an encoded bound as a byte prefix exactly when the bound
      is a prefix of the tuple. */
  lemma {:induction false} EncodePrefix(dirs: seq<bool>, a: seq<Value>, b: seq<Value>, i: nat)
    requires AllEncodable(a) && AllEncodable(b) && i <= |a| && i <= |b|
    ensures Encode(dirs, b, i) <= Encode(dirs, a, i) <==> b[i..] <= a[i..]
    decreases |a| - i
  {
    if i < |b| && i == |a| {
      EncodeNonempty(DescAt(dirs, i), b[i]);
    } else if i < |b| {
      if a[i] == b[i] {
        EncodePrefix(dirs, a, b, i + 1);
        PrefixStrip(EncodeOne(DescAt(dirs, i), a[i]), Encode(dirs, b, i + 1), Encode(dirs, a, i + 1));
        SuffixPrefix(a, b, i);
      } else {
        OneNotPrefix(DescAt(dirs, i), a[i], b[i], Encode(dirs, a, i + 1), Encode(dirs, b, i + 1));
        assert a[i..][0] != b[i..][0];
      }
    }
  }

  lemma SuffixPrefix(a: seq<Value>, b: seq<Value>, i: nat)
    requires i < |a| && i < |b| && a[i] == b[i]
    ensures b[i..] <= a[i..] <==> b[i + 1..] <= a[i + 1..]
  {
    assert a[i..] == [a[i]] + a[i + 1..] && b[i..] == [b[i]] + b[i + 1..];
    PrefixStrip([a[i]], b[i + 1..], a[i + 1..]);
  }

  lemma OneNotPrefix(desc: bool, a: Value, b: Value, ra: seq<Byte>, rb: seq<Byte>)
    requires Encodable(a) && Encodable(b) && a != b
    ensures !(EncodeOne(desc, b) + rb <= EncodeOne(desc, a) + ra)
  {
    var x, y, c := EncodeOne(desc, a) + ra, EncodeOne(desc, b) + rb, DirCmp(desc, a, b);
    OneOrder(desc, a, b);
    DecidedExtends(EncodeOne(desc, a), EncodeOne(desc, b), c, ra, rb);
    var p: nat :| DecidedAt(x, y, c, p);
    assert x[p] != y[p];
  }

  lemma PrefixStrip<T>(w: seq<T>, x: seq<T>, y: seq<T>)
    ensures w + x <= w + y <==> x <= y
  {
    if w + x <= w + y {
      assert x == (w + x)[|w|..] && y == (w + y)[|w|..];
      forall i | 0 <= i < |x| ensures x[i] == y[i] {
        assert x[i] == (w + x)[|w| + i] == (w + y)[|w| + i];
      }
    }
  }

  /** PrefixEnd: the end of the range of strings that start with prefix, or None
      when every byte is 0xFF. */
  method PrefixEnd(prefix: seq<Byte>) returns (end: Option<seq<Byte>>)
    ensures end.None? <==> forall i :: 0 <= i < |prefix| ==> prefix[i] == 255
    ensures end.Some? ==> IsPrefixEnd(prefix, end.value)
  {
    var i := |prefix| - 1;
    while i >= 0
      invariant -1 <= i < |prefix|
      invariant forall j :: i < j < |prefix| ==> prefix[j] == 255
    {
      if prefix[i] != 255 {
        end := Some(prefix[..i] + [prefix[i] + 1]);
        assert PrefixEndAt(prefix, end.value, i);
        return;
      }
      i := i - 1;
    }
    return None;
  }

  /** prefix with its trailing 0xFF bytes cut and the byte before them raised. */
  ghost predicate IsPrefixEnd(prefix: seq<Byte>, end: seq<Byte>) {
    exists k: nat :: PrefixEndAt(prefix, end, k)
  }

  ghost predicate PrefixEndAt(prefix: seq<Byte>, end: seq<Byte>, k: nat) {
    && k < |prefix| && prefix[k] != 255
    && (forall j :: k < j < |prefix| ==> prefix[j] == 255)
    && end == prefix[..k] + [prefix[k] + 1]
  }

  /** The half-open byte range from prefix to its end holds exactly the strings
      that start with prefix. */
  lemma PrefixRange(prefix: seq<Byte>, end: seq<Byte>, x: seq<Byte>)
    requires IsPrefixEnd(prefix, end)
    ensures prefix <= x <==> CmpBytes(x, prefix, 0) >= 0 && CmpBytes(x, end, 0) < 0
  {
    var k: nat :| PrefixEndAt(prefix, end, k);
    var d := FirstDiff(x, prefix, 0);
    CmpBytesSkip(x, prefix, d, 0);
    if d <= k {
      assert end[..d] == prefix[..d] && x[..d] == prefix[..d];
      CmpBytesSkip(x, end, d, 0);
      if d == k && d < |x| && x[d] == end[d] {
        assert !(prefix <= x);
      }
    } else {
      assert x[..k] == x[..d][..k] == prefix[..d][..k] == end[..k];
      assert x[k] == x[..d][k] == prefix[..d][k];
      CmpBytesSkip(x, end, k, 0);
    }
  }

  /** Length of the longest common prefix, counted from i. */
  ghost function FirstDiff(x: seq<Byte>, y: seq<Byte>, i: nat): (d: nat)
    requires i <= |x| && i <= |y| && x[..i] == y[..i]
    ensures i <= d <= |x| && d <= |y| && x[..d] == y[..d]
    ensures d < |x| && d < |y| ==> x[d] != y[d]
    decreases |x| - i
  {
    if i < |x| && i < |y| && x[i] == y[i] then
      assert x[..i + 1] == x[..i] + [x[i]] && y[..i + 1] == y[..i] + [y[i]];
      FirstDiff(x, y, i + 1)
    else i
  }

  /** What byte bounds mean for tuples: the range from an encoded bound up holds the
      tuples at or above it, and the range below its prefix end holds the tuples
      below it or starting with it. */
  lemma ScanBounds(dirs: seq<bool>, key: seq<Value>, bound: seq<Value>, end: seq<Byte>)
    requires AllEncodable(key) && AllEncodable(bound)
    requires IsPrefixEnd(Encode(dirs, bound, 0), end)
    ensures CmpBytes(Encode(dirs, key, 0), Encode(dirs, bound, 0), 0) >= 0 <==> TupleCmp(dirs, key, bound, 0) >= 0
    ensures CmpBytes(Encode(dirs, key, 0), end, 0) < 0 <==> TupleCmp(dirs, key, bound, 0) < 0 || bound <= key
  {
    var k, b := Encode(dirs, key, 0), Encode(dirs, bound, 0);
    EncodeOrder(dirs, key, bound, 0);
    EncodePrefix(dirs, key, bound, 0);
    assert key[0..] == key && bound[0..] == bound;
    PrefixRange(b, end, k);
    PrefixRange(b, end, b);
    if CmpBytes(k, b, 0) < 0 {
      CmpBytesTrans(k, b, end, 0);
    }
  }

  // --- decoding ---

  /** Reads an escaped string body: the string and the rest, or None. */
  function Unescape(data: seq<Byte>): Option<(seq<Byte>, seq<Byte>)> {
    if |data| == 0 then None
    else if data[0] != 0 then
      (match Unescape(data[1..])
       case None => None
       case Some(r) => Some(([data[0]] + r.0, r.1)))
    else if |data| < 2 then None
    else if data[1] == 255 then
      (match Unescape(data[2..])
       case None => None
       case Some(r) => Some(([0] + r.0, r.1)))
    else if data[1] == 1 then Some(([], data[2..]))
    else None
  }

  /** DecodeOne over bytes already unmasked: the first value and the rest. */
  function DecodeAsc(data: seq<Byte>): Option<(Value, seq<Byte>)>
    requires |data| > 0
  {
    var rest := data[1..];
    if data[0] == 1 then Some((Null, rest))
    else if data[0] == 2 then Some((Bool(false), rest))
    else if data[0] == 3 then Some((Bool(true), rest))
    else if data[0] == 4 then
      (if |rest| < 8 then None else Some((Int(FromBigEndian(rest[..8]) - TWO63), rest[8..])))
    else if data[0] == 5 then
      (if |rest| < 8 then None
       else match Float64.FromBits(FromBigEndian(rest[..8]))
            case None => None
            case Some(f) => Some((Flt(f), rest[8..])))
    else if data[0] == 6 || data[0] == 7 then
      (match Unescape(rest)
       case None => None
       case Some(r) => Some((if data[0] == 7 then Str(r.0) else Blob(r.0), r.1)))
    else None
  }

  function DecodeOne(data: seq<Byte>, desc: bool): Option<(Value, seq<Byte>)>
    requires |data| > 0
  {
    match DecodeAsc(MaskAll(desc, data))
    case None => None
    case Some(r) => Some((r.0, MaskAll(desc, r.1)))
  }

  lemma {:induction false} BigEndianRoundTrip(u: int, n: nat)
    requires 0 <= u < Pow256(n)
    ensures FromBigEndian(BigEndian(u, n)) == u
  {
    if n > 0 {
      BigEndianRoundTrip(u / 256, n - 1);
      assert BigEndian(u, n)[..n - 1] == BigEndian(u / 256, n - 1);
    }
  }

  lemma {:induction false} UnescapeRoundTrip(s: seq<Byte>, rest: seq<Byte>)
    ensures Unescape(Escape(s) + rest) == Some((s, rest))
  {
    var data := Escape(s) + rest;
    if s == [] {
      assert data[2..] == rest;
    } else {
      UnescapeRoundTrip(s[1..], rest);
      assert data == EscapeByte(s[0]) + (Escape(s[1..]) + rest);
      assert data[|EscapeByte(s[0])|..] == Escape(s[1..]) + rest;
      assert s == [s[0]] + s[1..];
    }
  }

  lemma WordRoundTrip(i: int)
    requires -TWO63 <= i < TWO63
    ensures FromBigEndian(Word(i)) == i + TWO63
  {
    Pow256Eight();
    BigEndianRoundTrip(i + TWO63, 8);
  }

  lemma DecodeAscInt(body: seq<Byte>, rest: seq<Byte>)
    requires |body| == 8
    ensures DecodeAsc([4] + body + rest) == Some((Int(FromBigEndian(body) - TWO63), rest))
  {
    assert ([4] + body + rest)[1..] == body + rest;
    assert (body + rest)[..8] == body && (body + rest)[8..] == rest;
  }

  lemma DecodeAscFloat(f: Float, rest: seq<Byte>)
    requires Float64.IsFloat(f)
    ensures DecodeAsc([5] + BigEndian(Float64.Bits(f), 8) + rest) == Some((Flt(f), rest))
  {
    hide Float64.IsFloat, Float64.Bits, Float64.FromBits, BigEndian, FromBigEndian;
    var body := BigEndian(Float64.Bits(f), 8);
    Pow256Eight();
    BigEndianRoundTrip(Float64.Bits(f), 8);
    Float64.BitsRoundTrip(f);
    assert ([5] + body + rest)[1..] == body + rest;
    assert (body + rest)[..8] == body && (body + rest)[8..] == rest;
  }

  lemma DecodeAscText(tag: Byte, s: seq<Byte>, rest: seq<Byte>)
    requires tag == 6 || tag == 7
    ensures DecodeAsc([tag] + Escape(s) + rest) == Some((if tag == 7 then Str(s) else Blob(s), rest))
  {
    hide Escape, Unescape;
    UnescapeRoundTrip(s, rest);
    assert ([tag] + Escape(s) + rest)[1..] == Escape(s) + rest;
  }

  lemma DecodeEncodeAsc(v: Value, rest: seq<Byte>)
    requires Encodable(v)
    ensures DecodeAsc(EncodeAsc(v) + rest) == Some((v, rest))
  {
    var data := EncodeAsc(v) + rest;
    match v
    case Null => assert data[1..] == rest;
    case Bool(_) => assert data[1..] == rest;
    case Int(i) =>
      WordRoundTrip(i);
      DecodeAscInt(Word(i), rest);
    case Flt(f) => DecodeAscFloat(f, rest);
    case Blob(b) => DecodeAscText(6, b, rest);
    case Str(s) => DecodeAscText(7, s, rest);
  }

  /** Decoding an encoded element gives back the value and exactly the bytes after
      it, in either direction. */
  lemma DecodeEncode(desc: bool, v: Value, rest: seq<Byte>)
    requires Encodable(v)
    ensures |EncodeOne(desc, v)| > 0
    ensures DecodeOne(EncodeOne(desc, v) + rest, desc) == Some((v, rest))
  {
    hide EncodeAsc, DecodeAsc;
    var data := EncodeOne(desc, v) + rest;
    assert MaskAll(desc, data) == EncodeAsc(v) + MaskAll(desc, rest);
    assert MaskAll(desc, MaskAll(desc, rest)) == rest;
    EncodeNonempty(desc, v);
    DecodeEncodeAsc(v, MaskAll(desc, rest));
  }

  /** Append and AppendDesc: encode values onto a buffer, one at a time. */
  method AppendDirected(buf: seq<Byte>, dirs: seq<bool>, vals: seq<Value>) returns (out: seq<Byte>)
    requires AllEncodable(vals)
    ensures out == buf + Encode(dirs, vals, 0)
  {
    out := buf;
    var i := 0;
    while i < |vals|
      invariant 0 <= i <= |vals|
      invariant out + Encode(dirs, vals, i) == buf + Encode(dirs, vals, 0)
    {
      assert out + Encode(dirs, vals, i)
          == out + EncodeOne(DescAt(dirs, i), vals[i]) + Encode(dirs, vals, i + 1);
      out := out + EncodeOne(DescAt(dirs, i), vals[i]);
      i := i + 1;
    }
  }
}
