/** The SQL lexer (sql/lexer.go): where each token of a statement begins and ends. */
module Lexer {
  import opened Values

  type Text = seq<Byte>

  const QUOTE: Byte := 39
  const DQUOTE: Byte := 34
  const SLASH: Byte := 47
  const STAR: Byte := 42
  const DASH: Byte := 45
  const BACKSLASH: Byte := 92
  const NEWLINE: Byte := 10
  const SEMI: Byte := 59
  const DOT: Byte := 46
  const DOLLAR: Byte := 36

  predicate IsDigit(c: Byte) { 48 <= c <= 57 }

  predicate IsIdentStart(c: Byte) { c == 95 || 97 <= c <= 122 || 65 <= c <= 90 }

  predicate IsIdentPart(c: Byte) { IsIdentStart(c) || IsDigit(c) }

  predicate IsBlank(c: Byte) { c == 32 || c == 9 || c == 10 || c == 13 }

  predicate IsE(c: Byte) { c == 101 || c == 69 }

  /** Two bytes at an offset. */
  predicate Pair(s: Text, i: nat, a: Byte, b: Byte) {
    i + 1 < |s| && s[i] == a && s[i + 1] == b
  }

  datatype Kind = Blank | Comment | Ident | QIdent | Plain | EStr | Number | Param | Op

  datatype Token = Token(kind: Kind, pos: nat, end: nat)

  // --- where things end ---

  function LineEnd(s: Text, i: nat): (e: nat)
    requires i <= |s|
    ensures i <= e <= |s| && (e < |s| ==> s[e] == NEWLINE)
    decreases |s| - i
  {
    if i < |s| && s[i] != NEWLINE then LineEnd(s, i + 1) else i
  }

  /** The end of a block comment, from inside `depth` open levels. */
  function BlockEnd(s: Text, i: nat, depth: nat): (e: Option<nat>)
    ensures e.Some? ==> i <= e.value <= |s| && (depth > 0 ==> i < e.value && s[e.value - 1] == SLASH)
    decreases |s| - i
  {
    if i + 1 >= |s| then None
    else if Pair(s, i, SLASH, STAR) then BlockEnd(s, i + 2, depth + 1)
    else if Pair(s, i, STAR, SLASH) then (if depth <= 1 then Some(i + 2) else BlockEnd(s, i + 2, depth - 1))
    else BlockEnd(s, i + 1, depth)
  }

  /** The end of a quoted region, from inside it; a doubled quote stays inside. */
  function QuotedEnd(s: Text, i: nat, q: Byte): (e: Option<nat>)
    ensures e.Some? ==> i < e.value <= |s| && s[e.value - 1] == q
    decreases |s| - i
  {
    if i >= |s| then None
    else if s[i] == q then (if i + 1 < |s| && s[i + 1] == q then QuotedEnd(s, i + 2, q) else Some(i + 1))
    else QuotedEnd(s, i + 1, q)
  }

  /** The same for an escape string, where a backslash takes the next byte along. */
  function EscapeEnd(s: Text, i: nat): (e: Option<nat>)
    ensures e.Some? ==> i < e.value <= |s| && s[e.value - 1] == QUOTE
    decreases |s| - i
  {
    if i >= |s| then None
    else if s[i] == QUOTE then (if i + 1 < |s| && s[i + 1] == QUOTE then EscapeEnd(s, i + 2) else Some(i + 1))
    else if s[i] == BACKSLASH && i + 1 < |s| then EscapeEnd(s, i + 2)
    else EscapeEnd(s, i + 1)
  }

  function IdentEnd(s: Text, i: nat): (e: nat)
    requires i <= |s|
    ensures i <= e <= |s| && (e < |s| ==> !IsIdentPart(s[e])) && forall k :: i <= k < e ==> IsIdentPart(s[k])
    decreases |s| - i
  {
    if i < |s| && IsIdentPart(s[i]) then IdentEnd(s, i + 1) else i
  }

  function DigitsEnd(s: Text, i: nat): (e: nat)
    requires i <= |s|
    ensures i <= e <= |s| && (e < |s| ==> !IsDigit(s[e])) && forall k :: i <= k < e ==> IsDigit(s[k])
    decreases |s| - i
  {
    if i < |s| && IsDigit(s[i]) then DigitsEnd(s, i + 1) else i
  }

  /** Digits, then an optional fraction. */
  function MantissaEnd(s: Text, i: nat): (e: nat)
    requires i <= |s|
    ensures i <= e <= |s|
  {
    var j := DigitsEnd(s, i);
    if j < |s| && s[j] == DOT then DigitsEnd(s, j + 1) else j
  }

  /** The digits of an exponent start here, past an optional sign. */
  function ExponentDigits(s: Text, i: nat): nat {
    if i < |s| && (s[i] == 43 || s[i] == DASH) then i + 1 else i
  }

  /** An exponent counts only when digits follow it. */
  function NumberEnd(s: Text, i: nat): (e: nat)
    requires i <= |s|
    ensures i <= e <= |s|
  {
    var m := MantissaEnd(s, i);
    if m < |s| && IsE(s[m]) && ExponentDigits(s, m + 1) < |s| && IsDigit(s[ExponentDigits(s, m + 1)])
    then DigitsEnd(s, ExponentDigits(s, m + 1)) else m
  }

  // --- operators ---

  /** !~* ->> #>> */
  predicate Op3(a: Byte, b: Byte, c: Byte) {
    (a == 33 && b == 126 && c == 42) || ((a == 45 || a == 35) && b == 62 && c == 62)
  }

  /** != <> <= >= !~ ~* :: || -> #> @> <@ ?| ?& */
  predicate Op2(a: Byte, b: Byte) {
    || (b == 61 && (a == 33 || a == 60 || a == 62))
    || (b == 62 && (a == 60 || a == 45 || a == 35 || a == 64))
    || (a == 33 && b == 126) || (a == 126 && b == 42) || (a == 58 && b == 58) || (a == 124 && b == 124)
    || (a == 60 && b == 64) || (a == 63 && (b == 124 || b == 38))
  }

  /** = < > ( ) , ; * . + - ~ [ ] / % ? */
  predicate Op1(a: Byte) {
    a == 61 || a == 60 || a == 62 || 40 <= a <= 47 || a == 59 || a == 126 || a == 91 || a == 93 || a == 37 || a == 63
  }

  /** The longest operator here; 0 when there is none. */
  function OpLen(s: Text, i: nat): (n: nat)
    requires i < |s|
    ensures i + n <= |s|
  {
    if i + 2 < |s| && Op3(s[i], s[i + 1], s[i + 2]) then 3
    else if i + 1 < |s| && Op2(s[i], s[i + 1]) then 2
    else if Op1(s[i]) then 1
    else 0
  }

  // --- one lexeme, and all of them ---

  function Ended(kind: Kind, pos: nat, e: Option<nat>): Option<Token> {
    if e.Some? then Some(Token(kind, pos, e.value)) else None
  }

  /** The lexeme at an offset, blanks and comments included; None is an error. */
  function Lexeme(s: Text, i: nat): (t: Option<Token>)
    requires i < |s|
    ensures t.Some? ==> t.value.pos == i < t.value.end <= |s|
  {
    if IsBlank(s[i]) then Some(Token(Blank, i, i + 1))
    else if Pair(s, i, DASH, DASH) then Some(Token(Comment, i, LineEnd(s, i + 2)))
    else if Pair(s, i, SLASH, STAR) then Ended(Comment, i, BlockEnd(s, i + 2, 1))
    else if IsE(s[i]) && i + 1 < |s| && s[i + 1] == QUOTE then Ended(EStr, i, EscapeEnd(s, i + 2))
    else if IsIdentStart(s[i]) then Some(Token(Ident, i, IdentEnd(s, i + 1)))
    else if s[i] == DQUOTE then Ended(QIdent, i, QuotedEnd(s, i + 1, DQUOTE))
    else if s[i] == QUOTE then Ended(Plain, i, QuotedEnd(s, i + 1, QUOTE))
    else if IsDigit(s[i]) || (s[i] == DOT && i + 1 < |s| && IsDigit(s[i + 1])) then
      NumberMoves(s, i);
      Some(Token(Number, i, NumberEnd(s, i)))
    else if s[i] == DOLLAR && i + 1 < |s| && IsDigit(s[i + 1]) then Some(Token(Param, i, DigitsEnd(s, i + 1)))
    else if OpLen(s, i) > 0 then Some(Token(Op, i, i + OpLen(s, i)))
    else None
  }

  lemma NumberMoves(s: Text, i: nat)
    requires i < |s| && (IsDigit(s[i]) || (s[i] == DOT && i + 1 < |s| && IsDigit(s[i + 1])))
    ensures NumberEnd(s, i) > i
  {
    if IsDigit(s[i]) {
      assert DigitsEnd(s, i) >= i + 1;
    }
  }

  /** The tokens from an offset on; None when the lexer rejects. */
  function LexFrom(s: Text, i: nat): Option<seq<Token>>
    requires i <= |s|
    decreases |s| - i
  {
    if i == |s| then Some([])
    else
      match Lexeme(s, i)
      case None => None
      case Some(t) =>
        match LexFrom(s, t.end)
        case None => None
        case Some(rest) => Some(if t.kind.Blank? || t.kind.Comment? then rest else [t] + rest)
  }

  // --- the loops ---

  method BlockCommentEnd(s: Text, start: nat) returns (e: Option<nat>)
    requires Pair(s, start, SLASH, STAR)
    ensures e == BlockEnd(s, start + 2, 1)
  {
    var depth, i := 0, start;
    while i + 1 < |s|
      invariant start <= i <= |s| && (i == start ==> depth == 0)
      invariant i > start ==> depth >= 1 && i >= start + 2 && BlockEnd(s, i, depth) == BlockEnd(s, start + 2, 1)
    {
      if s[i] == SLASH && s[i + 1] == STAR {
        depth, i := depth + 1, i + 2;
      } else if s[i] == STAR && s[i + 1] == SLASH {
        depth, i := depth - 1, i + 2;
        if depth == 0 { return Some(i); }
      } else {
        i := i + 1;
      }
    }
    e := None;
  }

  method ScanQuoted(s: Text, start: nat, q: Byte) returns (e: Option<nat>)
    requires start < |s|
    ensures e == QuotedEnd(s, start + 1, q)
  {
    var i := start + 1;
    while i < |s|
      invariant start < i <= |s| && QuotedEnd(s, i, q) == QuotedEnd(s, start + 1, q)
    {
      if s[i] == q {
        if i + 1 < |s| && s[i + 1] == q {
          i := i + 2;
          continue;
        }
        return Some(i + 1);
      }
      i := i + 1;
    }
    e := None;
  }

  method ScanEString(s: Text, start: nat) returns (e: Option<nat>)
    requires start < |s|
    ensures e == EscapeEnd(s, start + 1)
  {
    var i := start + 1;
    while i < |s|
      invariant start < i <= |s| && EscapeEnd(s, i) == EscapeEnd(s, start + 1)
    {
      if s[i] == QUOTE {
        if i + 1 < |s| && s[i + 1] == QUOTE {
          i := i + 2;
          continue;
        }
        return Some(i + 1);
      } else if s[i] == BACKSLASH && i + 1 < |s| {
        i := i + 2;
      } else {
        i := i + 1;
      }
    }
    e := None;
  }

  method SkipDigits(s: Text, start: nat) returns (i: nat)
    requires start <= |s|
    ensures i == DigitsEnd(s, start)
  {
    i := start;
    while i < |s| && IsDigit(s[i])
      invariant start <= i <= |s| && DigitsEnd(s, i) == DigitsEnd(s, start)
    {
      i := i + 1;
    }
  }

  method ScanNumber(s: Text, start: nat) returns (i: nat)
    requires start <= |s|
    ensures i == NumberEnd(s, start)
  {
    hide DigitsEnd, IsE;
    i := SkipDigits(s, start);
    if i < |s| && s[i] == DOT {
      i := SkipDigits(s, i + 1);
    }
    if i < |s| && IsE(s[i]) {
      var j := i + 1;
      if j < |s| && (s[j] == 43 || s[j] == DASH) {
        j := j + 1;
      }
      if j < |s| && IsDigit(s[j]) {
        i := SkipDigits(s, j);
      }
    }
  }

  /** The switch of the lexer's loop: the lexeme here. */
  method NextLexeme(s: Text, i: nat) returns (t: Option<Token>)
    requires i < |s|
    ensures t == Lexeme(s, i)
  {
    var c := s[i];
    if IsBlank(c) {
      t := Some(Token(Blank, i, i + 1));
    } else if Pair(s, i, DASH, DASH) {
      var j := i;
      while j < |s| && s[j] != NEWLINE
        invariant i <= j <= |s| && LineEnd(s, j) == LineEnd(s, i)
      {
        j := j + 1;
      }
      t := Some(Token(Comment, i, j));
    } else if Pair(s, i, SLASH, STAR) {
      var e := BlockCommentEnd(s, i);
      t := Ended(Comment, i, e);
    } else if IsE(c) && i + 1 < |s| && s[i + 1] == QUOTE {
      var e := ScanEString(s, i + 1);
      t := Ended(EStr, i, e);
    } else if IsIdentStart(c) {
      var j := i;
      while j < |s| && IsIdentPart(s[j])
        invariant i <= j <= |s| && IdentEnd(s, j) == IdentEnd(s, i)
      {
        j := j + 1;
      }
      t := Some(Token(Ident, i, j));
    } else if c == DQUOTE {
      var e := ScanQuoted(s, i, DQUOTE);
      t := Ended(QIdent, i, e);
    } else if c == QUOTE {
      var e := ScanQuoted(s, i, QUOTE);
      t := Ended(Plain, i, e);
    } else if IsDigit(c) || (c == DOT && i + 1 < |s| && IsDigit(s[i + 1])) {
      var j := ScanNumber(s, i);
      t := Some(Token(Number, i, j));
    } else if c == DOLLAR && i + 1 < |s| && IsDigit(s[i + 1]) {
      var j := SkipDigits(s, i + 1);
      t := Some(Token(Param, i, j));
    } else if OpLen(s, i) > 0 {
      t := Some(Token(Op, i, i + OpLen(s, i)));
    } else {
      t := None;
    }
  }

  method Lex(s: Text) returns (toks: Option<seq<Token>>)
    ensures toks == LexFrom(s, 0)
  {
    var out: seq<Token>, i := [], 0;
    if LexFrom(s, 0).Some? {
      assert [] + LexFrom(s, 0).value == LexFrom(s, 0).value;
    }
    while i < |s|
      invariant 0 <= i <= |s|
      invariant LexFrom(s, 0) == if LexFrom(s, i).Some? then Some(out + LexFrom(s, i).value) else None
    {
      var t := NextLexeme(s, i);
      if t.None? {
        return None;
      }
      if !t.value.kind.Blank? && !t.value.kind.Comment? {
        if LexFrom(s, t.value.end).Some? {
          assert out + ([t.value] + LexFrom(s, t.value.end).value) == out + [t.value] + LexFrom(s, t.value.end).value;
        }
        out := out + [t.value];
      }
      i := t.value.end;
    }
    assert out + [] == out;
    toks := Some(out);
  }
}
