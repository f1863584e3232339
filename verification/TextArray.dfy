/** One-dimensional text[] literals (types.go) and their binary wire form
    (pgwire/values.go). Text is bytes; an element is bytes or NULL. */
module TextArray {
  import opened Values

  type Bytes = seq<Byte>
  type Elem = Option<Bytes>

  const OPEN: Byte := 123
  const CLOSE: Byte := 125
  const COMMA: Byte := 44
  const QUOTE: Byte := 34
  const SLASH: Byte := 92
  const NULL_TEXT: Bytes := [78, 85, 76, 76]

  datatype Parsed = Elements(elems: seq<Elem>) | Malformed | Multidimensional

  /** The six bytes array literals treat as white space. */
  predicate IsSpace(c: Byte) {
    c in {32, 9, 10, 13, 11, 12}
  }

  /** ASCII "null" in any case. */
  predicate IsNullWord(s: Bytes) {
    |s| == 4 && s[0] in {78, 110} && s[1] in {85, 117} && s[2] in {76, 108} && s[3] in {76, 108}
  }

  function TrimLeft(s: Bytes): (r: Bytes)
    ensures |r| <= |s| && (r != [] ==> !IsSpace(r[0]))
  {
    if s != [] && IsSpace(s[0]) then TrimLeft(s[1..]) else s
  }

  function TrimRight(s: Bytes): (r: Bytes)
    ensures r <= s && (r != [] ==> !IsSpace(r[|r| - 1]))
  {
    if s != [] && IsSpace(s[|s| - 1]) then TrimRight(s[..|s| - 1]) else s
  }

  function Trim(s: Bytes): Bytes {
    TrimRight(TrimLeft(s))
  }

  // --- formatting ---

  predicate Structural(c: Byte) {
    c in {OPEN, CLOSE, COMMA, QUOTE, SLASH} || IsSpace(c)
  }

  /** An element is quoted when bare text would be ambiguous. */
  predicate NeedsQuotes(s: Bytes) {
    s == [] || IsNullWord(s) || exists i :: 0 <= i < |s| && Structural(s[i])
  }

  function EscapeByte(c: Byte): Bytes {
    if c == QUOTE || c == SLASH then [SLASH, c] else [c]
  }

  function Escape(s: Bytes): Bytes {
    if s == [] then [] else EscapeByte(s[0]) + Escape(s[1..])
  }

  function Render(e: Elem): Bytes {
    if e.None? then NULL_TEXT
    else if NeedsQuotes(e.value) then [QUOTE] + Escape(e.value) + [QUOTE]
    else e.value
  }

  /** The elements with commas between them. */
  function Body(xs: seq<Elem>): Bytes {
    if xs == [] then []
    else if |xs| == 1 then Render(xs[0])
    else Render(xs[0]) + ([COMMA] + Body(xs[1..]))
  }

  function Format(xs: seq<Elem>): Bytes {
    [OPEN] + Body(xs) + [CLOSE]
  }

  // --- parsing ---

  /** The content of a quoted element after its opening quote, and what follows its
      closing one. */
  function Quoted(b: Bytes): (r: Option<(Bytes, Bytes)>)
    ensures r.Some? ==> |r.value.1| < |b|
  {
    if b == [] then None
    else if b[0] == SLASH && |b| > 1 then
      (match Quoted(b[2..]) case None => None case Some(p) => Some(([b[1]] + p.0, p.1)))
    else if b[0] == QUOTE then Some(([], b[1..]))
    else
      (match Quoted(b[1..]) case None => None case Some(p) => Some(([b[0]] + p.0, p.1)))
  }

  /** Bare text up to a comma or the end; a brace or quote in it is an error. */
  function Bare(b: Bytes): (r: Option<(Bytes, Bytes)>)
    ensures r.Some? ==> |r.value.1| <= |b| && (r.value.1 == [] || r.value.1[0] == COMMA)
  {
    if b == [] || b[0] == COMMA then Some(([], b))
    else if b[0] in {OPEN, CLOSE, QUOTE} then None
    else (match Bare(b[1..]) case None => None case Some(p) => Some(([b[0]] + p.0, p.1)))
  }

  /** One element and the rest. */
  datatype One = Read(elem: Elem, rest: Bytes) | Bad(why: Parsed)

  function ReadElem(b: Bytes): (r: One)
    requires b == [] || !IsSpace(b[0])
    ensures r.Read? ==> |r.rest| <= |b|
    ensures r.Bad? ==> !r.why.Elements?
  {
    if b != [] && b[0] == OPEN then Bad(Multidimensional)
    else if b != [] && b[0] == QUOTE then
      (match Quoted(b[1..]) case None => Bad(Malformed) case Some(p) => Read(Some(p.0), p.1))
    else
      (match Bare(b)
       case None => Bad(Malformed)
       case Some(p) =>
         var tok := Trim(p.0);
         if tok == [] then Bad(Malformed) else Read(if IsNullWord(tok) then None else Some(tok), p.1))
  }

  /** One element with the white space around it. */
  function NextElem(b: Bytes): (r: One)
    ensures r.Read? ==> |r.rest| <= |b|
    ensures r.Bad? ==> !r.why.Elements?
  {
    match ReadElem(TrimLeft(b))
    case Bad(why) => Bad(why)
    case Read(e, rest) => Read(e, TrimLeft(rest))
  }

  /** The comma-separated elements of a body. */
  function Elems(b: Bytes): Parsed
    decreases |b|
  {
    match NextElem(b)
    case Bad(why) => why
    case Read(e, rest) =>
      if rest == [] then Elements([e])
      else if rest[0] != COMMA then Malformed
      else
        match Elems(rest[1..])
        case Elements(es) => Elements([e] + es)
        case bad => bad
  }

  function Parse(s: Bytes): Parsed {
    var t := Trim(s);
    if |t| < 2 || t[0] != OPEN || t[|t| - 1] != CLOSE then Malformed
    else if Trim(t[1..|t| - 1]) == [] then Elements([])
    else Elems(t[1..|t| - 1])
  }

  /** The one spelling a literal is stored in. */
  function Canon(s: Bytes): Option<Bytes> {
    match Parse(s)
    case Elements(xs) => Some(Format(xs))
    case _ => None
  }

  // --- parsing undoes formatting ---

  lemma {:induction false} QuotedEscape(s: Bytes, tail: Bytes)
    ensures Quoted(Escape(s) + [QUOTE] + tail) == Some((s, tail))
  {
    var b := Escape(s) + [QUOTE] + tail;
    if s == [] {
      assert b == [QUOTE] + tail && b[1..] == tail;
    } else {
      QuotedEscape(s[1..], tail);
      var rest := Escape(s[1..]) + [QUOTE] + tail;
      assert b == EscapeByte(s[0]) + rest;
      QuotedByte(s[0], rest);
      assert [s[0]] + s[1..] == s;
    }
  }

  lemma QuotedByte(c: Byte, rest: Bytes)
    ensures Quoted(EscapeByte(c) + rest) == match Quoted(rest) case None => None case Some(p) => Some(([c] + p.0, p.1))
  {
    assert (EscapeByte(c) + rest)[|EscapeByte(c)|..] == rest;
  }

  predicate EndsElem(tail: Bytes) {
    tail == [] || tail[0] == COMMA
  }

  lemma {:induction false} BareText(s: Bytes, tail: Bytes)
    requires EndsElem(tail) && forall i :: 0 <= i < |s| ==> !Structural(s[i])
    ensures Bare(s + tail) == Some((s, tail))
  {
    if s == [] {
      assert s + tail == tail;
    } else {
      BareText(s[1..], tail);
      assert (s + tail)[1..] == s[1..] + tail && [s[0]] + s[1..] == s;
    }
  }

  lemma TrimSolid(s: Bytes)
    requires s != [] && !IsSpace(s[0]) && !IsSpace(s[|s| - 1])
    ensures Trim(s) == s
  {
  }

  /** A rendered element reads back, whatever element or end follows. */
  lemma RenderReads(e: Elem, tail: Bytes)
    requires EndsElem(tail)
    ensures Render(e) != [] && !IsSpace(Render(e)[0]) && !IsSpace(Render(e)[|Render(e)| - 1])
    ensures ReadElem(Render(e) + tail) == Read(e, tail)
  {
    if e.None? {
      BareText(NULL_TEXT, tail);
      TrimSolid(NULL_TEXT);
    } else if NeedsQuotes(e.value) {
      QuotedEscape(e.value, tail);
      var b := Render(e) + tail;
      assert b[1..] == Escape(e.value) + [QUOTE] + tail;
    } else {
      BareText(e.value, tail);
      TrimSolid(e.value);
    }
  }

  lemma NextReads(e: Elem, tail: Bytes)
    requires EndsElem(tail)
    ensures Render(e) != [] && !IsSpace(Render(e)[0]) && NextElem(Render(e) + tail) == Read(e, tail)
  {
    hide Render, ReadElem;
    RenderReads(e, tail);
    assert TrimLeft(Render(e) + tail) == Render(e) + tail && TrimLeft(tail) == tail;
  }

  lemma {:induction false} BodyReads(xs: seq<Elem>)
    requires xs != []
    ensures Elems(Body(xs)) == Elements(xs)
    ensures Body(xs) != [] && !IsSpace(Body(xs)[0])
  {
    hide Render, NextElem, IsSpace;
    var tail := if |xs| == 1 then [] else [COMMA] + Body(xs[1..]);
    assert Body(xs) == Render(xs[0]) + tail;
    NextReads(xs[0], tail);
    if |xs| > 1 {
      BodyReads(xs[1..]);
      assert tail[1..] == Body(xs[1..]) && [xs[0]] + xs[1..] == xs;
    }
  }

  /** Parsing the formatted form of any list gives the list back. */
  lemma ParseFormat(xs: seq<Elem>)
    ensures Parse(Format(xs)) == Elements(xs)
  {
    var t := Format(xs);
    TrimSolid(t);
    assert t[1..|t| - 1] == Body(xs);
    if xs != [] {
      BodyReads(xs);
      var b := Body(xs);
      assert TrimLeft(b) == b;
      TrimRightSome(b, 0);
    }
  }

  lemma {:induction false} TrimRightSome(b: Bytes, i: nat)
    requires i < |b| && !IsSpace(b[i])
    ensures TrimRight(b) != []
  {
    if IsSpace(b[|b| - 1]) {
      TrimRightSome(b[..|b| - 1], i);
    }
  }

  /** The canonical form of a canonical form is itself. */
  lemma CanonIdempotent(s: Bytes)
    requires Canon(s).Some?
    ensures Canon(Canon(s).value) == Canon(s)
  {
    ParseFormat(Parse(s).elems);
  }

  /** Two literals have one canonical form exactly when they have the same elements. */
  lemma CanonEquates(a: Bytes, b: Bytes)
    requires Canon(a).Some? && Canon(b).Some?
    ensures Canon(a) == Canon(b) <==> Parse(a) == Parse(b)
  {
    ParseFormat(Parse(a).elems);
    ParseFormat(Parse(b).elems);
  }
}
