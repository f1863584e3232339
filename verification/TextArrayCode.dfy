/** The text[] codec as it runs: index loops over bytes, and the binary wire form. */
module TextArrayCode {
  import opened Values
  import opened TextArray
  import Tuple

  // --- the literal parser ---

  method SkipSpaces(body: Bytes, start: nat) returns (i: nat)
    requires start <= |body|
    ensures start <= i <= |body| && body[i..] == TrimLeft(body[start..])
  {
    i := start;
    while i < |body| && IsSpace(body[i])
      invariant start <= i <= |body| && TrimLeft(body[i..]) == TrimLeft(body[start..])
    {
      assert body[i..][1..] == body[i + 1..];
      i := i + 1;
    }
  }

  /** A quoted element, from the byte after its opening quote. */
  method QuotedElement(body: Bytes, start: nat) returns (r: Option<Bytes>, i: nat)
    requires start <= |body|
    ensures start <= i <= |body|
    ensures Quoted(body[start..]) == if r.Some? then Some((r.value, body[i..])) else None
  {
    i := start;
    var b: Bytes := [];
    PrefixedNone(Quoted(body[start..]));
    while i < |body|
      invariant start <= i <= |body|
      invariant Quoted(body[start..]) == Prefixed(b, Quoted(body[i..]))
    {
      var c := body[i];
      assert body[i..][1..] == body[i + 1..];
      if c == SLASH && i + 1 < |body| {
        assert body[i..][2..] == body[i + 2..];
        PrefixedStep(b, body[i + 1], Quoted(body[i + 2..]));
        b, i := b + [body[i + 1]], i + 2;
      } else if c == QUOTE {
        assert b + [] == b;
        return Some(b), i + 1;
      } else {
        PrefixedStep(b, c, Quoted(body[i + 1..]));
        b, i := b + [c], i + 1;
      }
    }
    assert body[i..] == [];
    r := None;
  }

  function Prefixed(b: Bytes, q: Option<(Bytes, Bytes)>): Option<(Bytes, Bytes)> {
    match q case None => None case Some(p) => Some((b + p.0, p.1))
  }

  lemma PrefixedNone(q: Option<(Bytes, Bytes)>)
    ensures Prefixed([], q) == q
  {
    if q.Some? {
      assert [] + q.value.0 == q.value.0;
    }
  }

  lemma PrefixedStep(b: Bytes, c: Byte, q: Option<(Bytes, Bytes)>)
    ensures Prefixed(b, Prefixed([c], q)) == Prefixed(b + [c], q)
  {
    if q.Some? {
      assert b + ([c] + q.value.0) == b + [c] + q.value.0;
    }
  }

  /** The end of a bare element; None at a stray brace or quote. */
  method BareElement(body: Bytes, start: nat) returns (ok: bool, i: nat)
    requires start <= |body|
    ensures start <= i <= |body|
    ensures Bare(body[start..]) == if ok then Some((body[start..i], body[i..])) else None
  {
    i := start;
    PrefixedNone(Bare(body[start..]));
    assert body[start..start] == [];
    while i < |body| && body[i] != COMMA
      invariant start <= i <= |body|
      invariant Bare(body[start..]) == Prefixed(body[start..i], Bare(body[i..]))
    {
      if body[i] == OPEN || body[i] == CLOSE || body[i] == QUOTE {
        return false, i;
      }
      assert body[i..][1..] == body[i + 1..] && body[start..i] + [body[i]] == body[start..i + 1];
      PrefixedStep(body[start..i], body[i], Bare(body[i + 1..]));
      i := i + 1;
    }
    assert body[start..i] + [] == body[start..i];
    ok := true;
  }

  /** One element of the body, after leading space. */
  method ReadElement(body: Bytes, start: nat) returns (r: One, i: nat)
    requires start <= |body| && (start < |body| ==> !IsSpace(body[start]))
    ensures r == ReadElem(body[start..]) && start <= i <= |body| && (r.Read? ==> r.rest == body[i..])
  {
    i := start;
    if i < |body| && body[i] == OPEN {
      return Bad(Multidimensional), i;
    }
    if i < |body| && body[i] == QUOTE {
      assert body[start..][1..] == body[start + 1..];
      var content;
      content, i := QuotedElement(body, start + 1);
      if content.None? {
        return Bad(Malformed), i;
      }
      return Read(Some(content.value), body[i..]), i;
    }
    var ok;
    ok, i := BareElement(body, start);
    if !ok {
      return Bad(Malformed), i;
    }
    var tok := Trim(body[start..i]);
    if tok == [] {
      return Bad(Malformed), i;
    }
    r := Read(if IsNullWord(tok) then None else Some(tok), body[i..]);
  }

  /** One element with the white space around it. */
  method NextElement(body: Bytes, start: nat) returns (r: One, i: nat)
    requires start <= |body|
    ensures r == NextElem(body[start..]) && start <= i <= |body| && (r.Read? ==> r.rest == body[i..])
  {
    i := SkipSpaces(body, start);
    r, i := ReadElement(body, i);
    if r.Read? {
      i := SkipSpaces(body, i);
      r := r.(rest := body[i..]);
    }
  }

  /** The element loop of the parser. */
  method ParseBody(body: Bytes) returns (r: Parsed)
    ensures r == Elems(body)
  {
    hide NextElem, IsSpace;
    var elems: seq<Elem>, i := [], 0;
    assert body[0..] == body;
    AfterNone(Elems(body));
    while true
      invariant 0 <= i <= |body|
      invariant Elems(body) == After(elems, Elems(body[i..]))
      decreases |body| - i
    {
      var one;
      one, i := NextElement(body, i);
      if one.Bad? {
        return one.why;
      }
      if i >= |body| {
        return Elements(elems + [one.elem]);
      }
      if body[i] != COMMA {
        return Malformed;
      }
      assert body[i..][1..] == body[i + 1..];
      AfterStep(elems, one.elem, Elems(body[i + 1..]));
      elems, i := elems + [one.elem], i + 1;
    }
  }

  method ParseTextArray(s: Bytes) returns (r: Parsed)
    ensures r == Parse(s)
  {
    var t := Trim(s);
    if |t| < 2 || t[0] != OPEN || t[|t| - 1] != CLOSE {
      return Malformed;
    }
    if Trim(t[1..|t| - 1]) == [] {
      return Elements([]);
    }
    r := ParseBody(t[1..|t| - 1]);
  }

  function After(xs: seq<Elem>, p: Parsed): Parsed {
    match p case Elements(ys) => Elements(xs + ys) case bad => bad
  }

  lemma AfterNone(p: Parsed)
    ensures After([], p) == p
  {
    if p.Elements? {
      assert [] + p.elems == p.elems;
    }
  }

  lemma AfterStep(xs: seq<Elem>, x: Elem, p: Parsed)
    ensures After(xs, After([x], p)) == After(xs + [x], p)
  {
    if p.Elements? {
      assert xs + ([x] + p.elems) == xs + [x] + p.elems;
    }
  }

  // --- the formatter ---

  method FormatTextArray(xs: seq<Elem>) returns (b: Bytes)
    ensures b == Format(xs)
  {
    hide Render;
    b := [OPEN];
    var i := 0;
    assert xs[0..] == xs;
    while i < |xs|
      invariant 0 <= i <= |xs|
      invariant b + Rest(xs[i..], i > 0) == [OPEN] + Body(xs)
    {
      assert xs[i..][1..] == xs[i + 1..];
      RestStep(xs[i..], i > 0);
      AppendOne(b, Sep(i > 0) + Render(xs[i]), Rest(xs[i + 1..], true));
      AppendOne(b, Sep(i > 0), Render(xs[i]));
      if i > 0 {
        b := b + [COMMA];
      } else {
        assert b + [] == b;
      }
      b := AppendElem(b, xs[i]);
      i := i + 1;
    }
    assert b + [] == b;
    b := b + [CLOSE];
  }

  method AppendElem(b: Bytes, e: Elem) returns (r: Bytes)
    ensures r == b + Render(e)
  {
    if e.None? {
      r := b + NULL_TEXT;
    } else if !NeedsQuotes(e.value) {
      r := b + e.value;
    } else {
      r := AppendQuoted(b, e.value);
    }
  }

  function Sep(more: bool): Bytes {
    if more then [COMMA] else []
  }

  /** The elements left to write, with the comma before them once one was written. */
  function Rest(xs: seq<Elem>, more: bool): Bytes {
    if xs == [] then [] else Sep(more) + Body(xs)
  }

  lemma RestStep(xs: seq<Elem>, more: bool)
    requires xs != []
    ensures Rest(xs, more) == Sep(more) + Render(xs[0]) + Rest(xs[1..], true)
  {
    if |xs| == 1 {
      assert Sep(more) + Render(xs[0]) + [] == Sep(more) + Render(xs[0]);
    } else {
      assert Sep(more) + (Render(xs[0]) + ([COMMA] + Body(xs[1..])))
           == Sep(more) + Render(xs[0]) + ([COMMA] + Body(xs[1..]));
    }
  }

  method AppendQuoted(b: Bytes, s: Bytes) returns (r: Bytes)
    ensures r == b + ([QUOTE] + Escape(s) + [QUOTE])
  {
    r := b + [QUOTE];
    var j := 0;
    assert s[0..] == s;
    while j < |s|
      invariant 0 <= j <= |s| && r + Escape(s[j..]) == b + [QUOTE] + Escape(s)
    {
      assert s[j..][1..] == s[j + 1..];
      var piece := if s[j] == QUOTE || s[j] == SLASH then [SLASH, s[j]] else [s[j]];
      assert r + (piece + Escape(s[j + 1..])) == r + piece + Escape(s[j + 1..]);
      r, j := r + piece, j + 1;
    }
    assert r + [] == r;
    r := r + [QUOTE];
  }

  // --- the binary form ---

  const OID_TEXT: nat := 25
  const OID_VARCHAR: nat := 1043
  const TWO31: int := 0x8000_0000
  const TWO32: int := 0x1_0000_0000

  /** The low 32 bits, big-endian: int32(n) on the wire. */
  function I32(n: int): (b: Bytes)
    ensures |b| == 4
  {
    Tuple.BigEndian(n % TWO32, 4)
  }

  function U32At(b: Bytes, p: nat): int
    requires p + 4 <= |b|
  {
    Tuple.FromBigEndian(b[p..p + 4])
  }

  /** A wire word read as int32. */
  function I32At(b: Bytes, p: nat): int
    requires p + 4 <= |b|
  {
    var u := U32At(b, p);
    if u >= TWO31 then u - TWO32 else u
  }

  function EncodeElem(e: Elem): Bytes {
    if e.None? then I32(-1) else I32(|e.value|) + e.value
  }

  function EncodeElems(xs: seq<Elem>): Bytes {
    if xs == [] then [] else EncodeElem(xs[0]) + EncodeElems(xs[1..])
  }

  function EncodeArray(xs: seq<Elem>): Bytes {
    if xs == [] then I32(0) + I32(0) + I32(OID_TEXT)
    else I32(1) + I32(if None in xs then 1 else 0) + I32(OID_TEXT) + I32(|xs|) + I32(1) + EncodeElems(xs)
  }

  method HasNull(xs: seq<Elem>) returns (flag: int)
    ensures flag == if None in xs then 1 else 0
  {
    flag := 0;
    var i := 0;
    while i < |xs|
      invariant 0 <= i <= |xs| && flag == if None in xs[..i] then 1 else 0
    {
      assert xs[..i + 1] == xs[..i] + [xs[i]];
      if xs[i].None? {
        flag := 1;
      }
      i := i + 1;
    }
    assert xs[..i] == xs;
  }

  method AppendElems(head: Bytes, xs: seq<Elem>) returns (buf: Bytes)
    ensures buf == head + EncodeElems(xs)
  {
    hide I32;
    buf := head;
    var i := 0;
    assert xs[0..] == xs;
    while i < |xs|
      invariant 0 <= i <= |xs| && buf + EncodeElems(xs[i..]) == head + EncodeElems(xs)
    {
      assert xs[i..][1..] == xs[i + 1..];
      AppendOne(buf, EncodeElem(xs[i]), EncodeElems(xs[i + 1..]));
      if xs[i].None? {
        buf := buf + I32(-1);
      } else {
        buf := buf + (I32(|xs[i].value|) + xs[i].value);
      }
      i := i + 1;
    }
    assert buf + [] == buf;
  }

  lemma AppendOne(a: Bytes, b: Bytes, c: Bytes)
    ensures a + (b + c) == a + b + c
  {
  }

  method EncodeTextArrayBinary(literal: Bytes) returns (r: Option<Bytes>)
    ensures r == if Parse(literal).Elements? then Some(EncodeArray(Parse(literal).elems)) else None
  {
    var parsed := ParseTextArray(literal);
    if !parsed.Elements? {
      return None;
    }
    var xs := parsed.elems;
    var hasNull := HasNull(xs);
    if xs == [] {
      return Some(I32(0) + I32(0) + I32(OID_TEXT));
    }
    var buf := AppendElems(I32(1) + I32(hasNull) + I32(OID_TEXT) + I32(|xs|) + I32(1), xs);
    r := Some(buf);
  }

  /** n elements from offset p on; None when the bytes run out or a length is bad. */
  function DecodeElems(raw: Bytes, p: nat, n: nat): Option<seq<Elem>>
    decreases n
  {
    if n == 0 then Some([])
    else if p + 4 > |raw| then None
    else
      var l := I32At(raw, p);
      if l == -1 then Prepended(None, DecodeElems(raw, p + 4, n - 1))
      else if l < 0 || p + 4 + l > |raw| then None
      else Prepended(Some(raw[p + 4..p + 4 + l]), DecodeElems(raw, p + 4 + l, n - 1))
  }

  function Prepended(e: Elem, xs: Option<seq<Elem>>): Option<seq<Elem>> {
    if xs.None? then None else Some([e] + xs.value)
  }

  /** The elements of a binary array; None for anything that is not a text array. */
  function DecodeArray(raw: Bytes): Option<seq<Elem>> {
    if |raw| < 12 then None
    else if I32At(raw, 0) == 0 then Some([])
    else if I32At(raw, 0) != 1 || (U32At(raw, 8) != OID_TEXT && U32At(raw, 8) != OID_VARCHAR) then None
    else if |raw| < 20 || I32At(raw, 12) < 0 then None
    else DecodeElems(raw, 20, I32At(raw, 12))
  }

  method DecodeTextArrayBinary(raw: Bytes) returns (r: Option<Bytes>)
    ensures r == if DecodeArray(raw).Some? then Some(Format(DecodeArray(raw).value)) else None
  {
    if |raw| < 12 {
      return None;
    }
    var ndim := I32At(raw, 0);
    if ndim == 0 {
      assert Format([]) == [OPEN, CLOSE];
      return Some([OPEN, CLOSE]);
    }
    if ndim != 1 || (U32At(raw, 8) != OID_TEXT && U32At(raw, 8) != OID_VARCHAR) || |raw| < 20 {
      return None;
    }
    var n := I32At(raw, 12);
    if n < 0 {
      return None;
    }
    var elems: seq<Elem>, p, i := [], 20, 0;
    FollowingNone(DecodeElems(raw, 20, n));
    while i < n
      invariant 0 <= i <= n && p >= 20
      invariant DecodeElems(raw, 20, n) == Following(elems, DecodeElems(raw, p, n - i))
    {
      if p + 4 > |raw| {
        return None;
      }
      var l := I32At(raw, p);
      p := p + 4;
      if l == -1 {
        FollowingStep(elems, None, DecodeElems(raw, p, n - i - 1));
        elems := elems + [None];
      } else {
        if l < 0 || p + l > |raw| {
          return None;
        }
        FollowingStep(elems, Some(raw[p..p + l]), DecodeElems(raw, p + l, n - i - 1));
        elems := elems + [Some(raw[p..p + l])];
        p := p + l;
      }
      i := i + 1;
    }
    var text := FormatTextArray(elems);
    assert elems + [] == elems;
    r := Some(text);
  }

  function Following(xs: seq<Elem>, ys: Option<seq<Elem>>): Option<seq<Elem>> {
    if ys.None? then None else Some(xs + ys.value)
  }

  lemma FollowingNone(ys: Option<seq<Elem>>)
    ensures Following([], ys) == ys
  {
    if ys.Some? {
      assert [] + ys.value == ys.value;
    }
  }

  lemma FollowingStep(xs: seq<Elem>, e: Elem, ys: Option<seq<Elem>>)
    ensures Following(xs, Prepended(e, ys)) == Following(xs + [e], ys)
  {
    if ys.Some? {
      assert xs + ([e] + ys.value) == xs + [e] + ys.value;
    }
  }

  // --- decoding undoes encoding ---

  lemma WordValue(u: nat)
    requires u < TWO32
    ensures Tuple.FromBigEndian(I32(u)) == u
  {
    hide Tuple.BigEndian, Tuple.FromBigEndian;
    assert Tuple.Pow256(4) == TWO32;
    Tuple.BigEndianRoundTrip(u, 4);
  }

  lemma WordReads(pre: Bytes, n: int, post: Bytes)
    requires -TWO31 <= n < TWO31
    ensures I32At(pre + I32(n) + post, |pre|) == n
    ensures n >= 0 ==> U32At(pre + I32(n) + post, |pre|) == n
  {
    hide Tuple.BigEndian, Tuple.FromBigEndian;
    var b := pre + I32(n) + post;
    assert b[|pre|..|pre| + 4] == I32(n);
    var u := n % TWO32;
    assert u == if n < 0 then n + TWO32 else n;
    assert I32(n) == I32(u);
    WordValue(u);
  }

  predicate WithinLimits(xs: seq<Elem>) {
    |xs| < TWO31 && forall i :: 0 <= i < |xs| ==> ElemFits(xs[i])
  }

  predicate ElemFits(e: Elem) {
    e.Some? ==> |e.value| < TWO31
  }

  lemma {:induction false} ElemsRead(pre: Bytes, xs: seq<Elem>)
    requires forall i :: 0 <= i < |xs| ==> ElemFits(xs[i])
    ensures DecodeElems(pre + EncodeElems(xs), |pre|, |xs|) == Some(xs)
    decreases |xs|
  {
    hide I32, I32At, EncodeElem;
    if xs != [] {
      var e, one, rest := xs[0], EncodeElem(xs[0]), EncodeElems(xs[1..]);
      AppendOne(pre, one, rest);
      var raw := pre + one + rest;
      ElemsRead(pre + one, xs[1..]);
      ReadOne(pre, e, rest, |xs[1..]|);
      assert [e] + xs[1..] == xs;
    }
  }

  lemma ReadOne(pre: Bytes, e: Elem, rest: Bytes, n: nat)
    requires ElemFits(e)
    ensures var raw := pre + EncodeElem(e) + rest;
            DecodeElems(raw, |pre|, n + 1) == Prepended(e, DecodeElems(raw, |pre + EncodeElem(e)|, n))
  {
    hide EncodeElem, DecodeElems, ElemAt;
    ElemReads(pre, e, rest);
    DecodeCons(pre + EncodeElem(e) + rest, |pre|, n, e);
  }

  lemma DecodeCons(raw: Bytes, p: nat, n: nat, e: Elem)
    requires ElemAt(raw, p, e)
    ensures DecodeElems(raw, p, n + 1) == Prepended(e, DecodeElems(raw, p + 4 + (if e.None? then 0 else |e.value|), n))
  {
    hide I32At;
  }

  /** The element e stands at p: its length word, -1 for NULL, and then its bytes. */
  ghost predicate ElemAt(raw: Bytes, p: nat, e: Elem) {
    && p + 4 <= |raw| && I32At(raw, p) == (if e.None? then -1 else |e.value|)
    && (e.Some? ==> p + 4 + |e.value| <= |raw| && raw[p + 4..p + 4 + |e.value|] == e.value)
  }

  lemma ElemReads(pre: Bytes, e: Elem, rest: Bytes)
    requires ElemFits(e)
    ensures ElemAt(pre + EncodeElem(e) + rest, |pre|, e)
    ensures |pre + EncodeElem(e)| == |pre| + 4 + (if e.None? then 0 else |e.value|)
  {
    hide I32, I32At;
    var raw := pre + EncodeElem(e) + rest;
    if e.None? {
      WordReads(pre, -1, rest);
    } else {
      assert raw == pre + I32(|e.value|) + (e.value + rest);
      WordReads(pre, |e.value|, e.value + rest);
    }
  }

  /** Binary encoding then decoding gives the elements back. */
  lemma DecodeEncode(xs: seq<Elem>)
    requires WithinLimits(xs)
    ensures DecodeArray(EncodeArray(xs)) == Some(xs)
  {
    hide I32, I32At, U32At, EncodeElems, DecodeElems;
    if xs == [] {
      AppendOne(I32(0), I32(0), I32(OID_TEXT));
      assert [] + I32(0) == I32(0);
      WordReads([], 0, I32(0) + I32(OID_TEXT));
    } else {
      var nulls := I32(if None in xs then 1 else 0);
      HeaderReads(nulls, |xs|, EncodeElems(xs));
      ElemsRead(I32(1) + nulls + I32(OID_TEXT) + I32(|xs|) + I32(1), xs);
    }
  }

  /** The header's words, whatever follows. */
  lemma HeaderReads(nulls: Bytes, n: nat, tail: Bytes)
    requires |nulls| == 4 && n < TWO31
    ensures var raw := I32(1) + nulls + I32(OID_TEXT) + I32(n) + I32(1) + tail;
            I32At(raw, 0) == 1 && U32At(raw, 8) == OID_TEXT && I32At(raw, 12) == n
  {
    hide I32, I32At, U32At;
    var a, o, c, l := I32(1), I32(OID_TEXT), I32(n), I32(1);
    var raw := a + nulls + o + c + l + tail;
    HeaderSplits(a, nulls, o, c, l, tail);
    WordAt(raw, [], 1, nulls + o + c + l + tail);
    WordAt(raw, a + nulls, OID_TEXT, c + l + tail);
    WordAt(raw, a + nulls + o, n, l + tail);
  }

  lemma HeaderSplits(a: Bytes, b: Bytes, o: Bytes, c: Bytes, l: Bytes, tail: Bytes)
    ensures a + b + o + c + l + tail == [] + a + (b + o + c + l + tail)
    ensures a + b + o + c + l + tail == (a + b) + o + (c + l + tail)
    ensures a + b + o + c + l + tail == (a + b + o) + c + (l + tail)
  {
  }

  lemma WordAt(raw: Bytes, pre: Bytes, n: nat, post: Bytes)
    requires n < TWO31 && raw == pre + I32(n) + post
    ensures I32At(raw, |pre|) == n == U32At(raw, |pre|)
  {
    WordReads(pre, n, post);
  }

  /** A valid literal within the int32 limits survives the wire as its canonical text. */
  lemma BinaryIsCanonical(literal: Bytes)
    requires Parse(literal).Elements? && WithinLimits(Parse(literal).elems)
    ensures DecodeArray(EncodeArray(Parse(literal).elems)).Some?
    ensures Some(Format(DecodeArray(EncodeArray(Parse(literal).elems)).value)) == Canon(literal)
  {
    DecodeEncode(Parse(literal).elems);
  }
}
