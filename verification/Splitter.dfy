/** The simple-Query splitter (pgwire/split.go): a byte scanner of its own, and its
    agreement with the lexer on where statements end. */
module Splitter {
  import opened Values
  import opened Lexer

  predicate IsIdentByte(c: Byte) {
    c == 95 || 97 <= c <= 122 || 65 <= c <= 90 || 48 <= c <= 57
  }

  /** The quote at `open` opens an escape string: an e before it stands alone. */
  predicate EStringPrefix(q: Text, open: nat)
    requires open < |q|
  {
    open > 0 && IsE(q[open - 1]) && (open < 2 || !IsIdentByte(q[open - 2]))
  }

  /** The closing quote of a region from inside it, or the end of the text. */
  function CloseFrom(q: Text, i: nat, quote: Byte, escapes: bool): (e: nat)
    ensures i <= |q| ==> i <= e
    decreases |q| - i
  {
    if i >= |q| then |q|
    else if escapes && q[i] == BACKSLASH then CloseFrom(q, i + 2, quote, escapes)
    else if q[i] == quote then (if i + 1 < |q| && q[i + 1] == quote then CloseFrom(q, i + 2, quote, escapes) else i)
    else CloseFrom(q, i + 1, quote, escapes)
  }

  function SkipQuoted(q: Text, open: nat): (e: nat)
    requires open < |q|
    ensures open < e
  {
    CloseFrom(q, open + 1, q[open], q[open] == QUOTE && EStringPrefix(q, open))
  }

  /** The offset after a block comment, from inside `depth` open levels. */
  function CommentEnd(q: Text, i: nat, depth: nat): (e: nat)
    ensures i <= e
    decreases |q| - i
  {
    if depth == 0 || i >= |q| then i
    else if Pair(q, i, STAR, SLASH) then CommentEnd(q, i + 2, depth - 1)
    else if Pair(q, i, SLASH, STAR) then CommentEnd(q, i + 2, depth + 1)
    else CommentEnd(q, i + 1, depth)
  }

  /** The top-level semicolons from an offset on. */
  function CutsFrom(q: Text, i: nat): seq<nat>
    decreases |q| - i
  {
    if i >= |q| then []
    else if Pair(q, i, SLASH, STAR) then CutsFrom(q, CommentEnd(q, i + 2, 1))
    else if Pair(q, i, DASH, DASH) then CutsFrom(q, LineEnd(q, i) + 1)
    else if q[i] == QUOTE || q[i] == DQUOTE then CutsFrom(q, SkipQuoted(q, i) + 1)
    else if q[i] == SEMI then [i] + CutsFrom(q, i + 1)
    else CutsFrom(q, i + 1)
  }

  // --- the loops ---

  method SkipQuotedLoop(q: Text, open: nat) returns (r: nat)
    requires open < |q| && (q[open] == QUOTE || q[open] == DQUOTE)
    ensures SkipQuoted(q, open) == r
  {
    var quote := q[open];
    var escapes := quote == QUOTE && EStringPrefix(q, open);
    var i := open + 1;
    while i < |q|
      invariant open < i && CloseFrom(q, i, quote, escapes) == SkipQuoted(q, open)
    {
      if escapes && q[i] == BACKSLASH {
        i := i + 1;
      } else if q[i] == quote {
        if i + 1 < |q| && q[i + 1] == quote {
          i := i + 1;
        } else {
          return i;
        }
      }
      i := i + 1;
    }
    r := |q|;
  }

  method SkipLine(q: Text, start: nat) returns (i: nat)
    requires start <= |q|
    ensures i == LineEnd(q, start)
  {
    i := start;
    while i < |q| && q[i] != NEWLINE
      invariant start <= i <= |q| && LineEnd(q, i) == LineEnd(q, start)
    {
      i := i + 1;
    }
  }

  /** splitStatements' loop: one index, one depth counter. */
  method Cuts(q: Text) returns (cuts: seq<nat>)
    ensures cuts == CutsFrom(q, 0)
  {
    hide CloseFrom;
    cuts := [];
    var depth: nat, i := 0, 0;
    assert [] + CutsFrom(q, 0) == CutsFrom(q, 0);
    while i < |q|
      invariant cuts + CutsFrom(q, CommentEnd(q, i, depth)) == CutsFrom(q, 0)
      decreases |q| - i
    {
      if depth > 0 {
        if q[i] == STAR && i + 1 < |q| && q[i + 1] == SLASH {
          depth, i := depth - 1, i + 1;
        } else if q[i] == SLASH && i + 1 < |q| && q[i + 1] == STAR {
          depth, i := depth + 1, i + 1;
        }
      } else if q[i] == SLASH && i + 1 < |q| && q[i + 1] == STAR {
        depth, i := depth + 1, i + 1;
      } else if q[i] == DASH && i + 1 < |q| && q[i + 1] == DASH {
        i := SkipLine(q, i);
      } else if q[i] == QUOTE || q[i] == DQUOTE {
        i := SkipQuotedLoop(q, i);
      } else if q[i] == SEMI {
        assert cuts + ([i] + CutsFrom(q, i + 1)) == cuts + [i] + CutsFrom(q, i + 1);
        cuts := cuts + [i];
      }
      i := i + 1;
    }
    assert cuts + [] == cuts;
  }

  // --- agreement ---

  /** The offsets of the lexer's semicolon tokens. */
  function Semis(q: Text, toks: seq<Token>): seq<nat> {
    if toks == [] then []
    else
      var t := toks[0];
      (if t.kind.Op? && t.pos < |q| && q[t.pos] == SEMI then [t.pos] else []) + Semis(q, toks[1..])
  }

  /** Every escape string that directly follows a digit also ends there when the lexer
      reads it as a plain string. */
  predicate PlainAfterDigit(q: Text, toks: seq<Token>) {
    forall k :: 0 <= k < |toks| ==> EClear(q, toks[k])
  }

  predicate EClear(q: Text, t: Token) {
    t.kind.EStr? && 0 < t.pos <= |q| && IsDigit(q[t.pos - 1]) ==> QuotedEnd(q, t.pos + 2, QUOTE) == Some(t.end)
  }

  /** What the bytes before a lexeme boundary can be: an identifier byte that runs on is
      a digit, and a lone e before a quote does not stand there. */
  predicate Boundary(q: Text, i: nat) {
    0 < i < |q| ==>
      && (IsIdentPart(q[i - 1]) && IsIdentPart(q[i]) ==> IsDigit(q[i - 1]))
      && (IsE(q[i - 1]) && q[i] == QUOTE ==> i >= 2 && IsIdentPart(q[i - 2]))
  }

  /** A byte the splitter just steps over. */
  predicate Inert(q: Text, k: nat) {
    k < |q| && q[k] != QUOTE && q[k] != DQUOTE && q[k] != SEMI && !Pair(q, k, SLASH, STAR) && !Pair(q, k, DASH, DASH)
  }

  lemma {:induction false} StepOver(q: Text, i: nat, e: nat)
    requires i <= e <= |q| && forall k: nat :: i <= k < e ==> Inert(q, k)
    ensures CutsFrom(q, i) == CutsFrom(q, e)
    decreases e - i
  {
    if i < e {
      assert Inert(q, i);
      StepOver(q, i + 1, e);
    }
  }

  /** The splitter's plain close is the lexer's, or the end of the text when it has none. */
  lemma {:induction false} ClosesWhere(q: Text, i: nat, quote: Byte)
    requires i <= |q|
    ensures var e := QuotedEnd(q, i, quote);
            CloseFrom(q, i, quote, false) == if e.Some? then e.value - 1 else |q|
    decreases |q| - i
  {
    if i < |q| {
      if q[i] == quote && i + 1 < |q| && q[i + 1] == quote {
        ClosesWhere(q, i + 2, quote);
      } else if q[i] != quote {
        ClosesWhere(q, i + 1, quote);
      }
    }
  }

  lemma {:induction false} SameEscapeClose(q: Text, i: nat)
    requires EscapeEnd(q, i).Some?
    ensures CloseFrom(q, i, QUOTE, true) + 1 == EscapeEnd(q, i).value
    decreases |q| - i
  {
    if q[i] == QUOTE {
      if i + 1 < |q| && q[i + 1] == QUOTE {
        SameEscapeClose(q, i + 2);
      }
    } else if q[i] == BACKSLASH && i + 1 < |q| {
      SameEscapeClose(q, i + 2);
    } else {
      SameEscapeClose(q, i + 1);
    }
  }

  lemma {:induction false} SameComment(q: Text, i: nat, depth: nat)
    requires depth > 0 && BlockEnd(q, i, depth).Some?
    ensures CommentEnd(q, i, depth) == BlockEnd(q, i, depth).value
    decreases |q| - i
  {
    if Pair(q, i, SLASH, STAR) {
      SameComment(q, i + 2, depth + 1);
    } else if Pair(q, i, STAR, SLASH) {
      if depth > 1 {
        SameComment(q, i + 2, depth - 1);
      }
    } else {
      SameComment(q, i + 1, depth);
    }
  }

  /** The bytes of a number are inert, and it ends in a digit or a point. */
  lemma NumberInert(q: Text, i: nat)
    requires i < |q| && (IsDigit(q[i]) || (q[i] == DOT && i + 1 < |q| && IsDigit(q[i + 1])))
    ensures NumberEnd(q, i) > i && (IsDigit(q[NumberEnd(q, i) - 1]) || q[NumberEnd(q, i) - 1] == DOT)
    ensures forall k: nat :: i <= k < NumberEnd(q, i) ==> Inert(q, k)
  {
    NumberMoves(q, i);
  }

  /** The bytes of an operator are inert, unless it is the semicolon. */
  lemma OpInert(q: Text, i: nat)
    requires i < |q| && OpLen(q, i) > 0 && !Pair(q, i, SLASH, STAR) && !Pair(q, i, DASH, DASH)
    ensures q[i] == SEMI ==> OpLen(q, i) == 1
    ensures q[i] != SEMI ==> forall k: nat :: i <= k < i + OpLen(q, i) ==> Inert(q, k)
    ensures !IsIdentPart(q[i + OpLen(q, i) - 1])
  {
  }

  /** The splitter goes from i to the boundary e without cutting. */
  ghost predicate Passed(q: Text, i: nat, e: nat) {
    Boundary(q, e) && CutsFrom(q, i) == CutsFrom(q, e)
  }

  /** One lexeme: the splitter passes it, cutting exactly at a semicolon, and the next
      offset is a boundary again. */
  lemma LexemeAgrees(q: Text, i: nat)
    requires i < |q| && Lexeme(q, i).Some? && Boundary(q, i) && EClear(q, Lexeme(q, i).value)
    ensures var t := Lexeme(q, i).value;
            if t.kind.Op? && q[i] == SEMI
            then CutsFrom(q, i) == [i] + CutsFrom(q, t.end) && Boundary(q, t.end)
            else Passed(q, i, t.end)
  {
    var t := Lexeme(q, i).value;
    match t.kind
    case Blank => BlankAgrees(q, i);
    case Comment => CommentAgrees(q, i);
    case EStr => EStringAgrees(q, i);
    case Ident => IdentAgrees(q, i);
    case QIdent => QuotedAgrees(q, i);
    case Plain => QuotedAgrees(q, i);
    case Number => NumberAgrees(q, i);
    case Param => ParamAgrees(q, i);
    case Op =>
      OpShape(q, i);
      OpAgrees(q, i, t.end);
  }

  lemma BlankAgrees(q: Text, i: nat)
    requires i < |q| && Lexeme(q, i).Some? && Lexeme(q, i).value.kind.Blank?
    ensures Passed(q, i, Lexeme(q, i).value.end)
  {
  }

  lemma IdentAgrees(q: Text, i: nat)
    requires i < |q| && Lexeme(q, i).Some? && Lexeme(q, i).value.kind.Ident?
    ensures Passed(q, i, Lexeme(q, i).value.end)
  {
    forall k: nat | i <= k < IdentEnd(q, i + 1) ensures IsIdentPart(q[k]) && Inert(q, k) {
    }
    StepOver(q, i, IdentEnd(q, i + 1));
  }

  lemma QuotedAgrees(q: Text, i: nat)
    requires i < |q| && Lexeme(q, i).Some? && (Lexeme(q, i).value.kind.QIdent? || Lexeme(q, i).value.kind.Plain?)
    requires Boundary(q, i)
    ensures Passed(q, i, Lexeme(q, i).value.end)
  {
    ClosesWhere(q, i + 1, q[i]);
  }

  lemma NumberAgrees(q: Text, i: nat)
    requires i < |q| && Lexeme(q, i).Some? && Lexeme(q, i).value.kind.Number?
    ensures Passed(q, i, Lexeme(q, i).value.end)
  {
    NumberInert(q, i);
    StepOver(q, i, NumberEnd(q, i));
  }

  lemma ParamAgrees(q: Text, i: nat)
    requires i < |q| && Lexeme(q, i).Some? && Lexeme(q, i).value.kind.Param?
    ensures Passed(q, i, Lexeme(q, i).value.end)
  {
    StepOver(q, i, DigitsEnd(q, i + 1));
  }

  lemma OpShape(q: Text, i: nat)
    requires i < |q| && Lexeme(q, i).Some? && Lexeme(q, i).value.kind.Op?
    ensures Lexeme(q, i).value.end == i + OpLen(q, i) && OpLen(q, i) > 0
    ensures !Pair(q, i, SLASH, STAR) && !Pair(q, i, DASH, DASH)
  {
  }

  lemma OpAgrees(q: Text, i: nat, e: nat)
    requires i < |q| && e == i + OpLen(q, i) && OpLen(q, i) > 0 && !Pair(q, i, SLASH, STAR) && !Pair(q, i, DASH, DASH)
    ensures if q[i] == SEMI then CutsFrom(q, i) == [i] + CutsFrom(q, e) && Boundary(q, e) else Passed(q, i, e)
  {
    OpInert(q, i);
    OpPass(q, i, e);
  }

  lemma OpPass(q: Text, i: nat, e: nat)
    requires i < e <= |q| && !Pair(q, i, SLASH, STAR) && !Pair(q, i, DASH, DASH) && !IsIdentPart(q[e - 1])
    requires if q[i] == SEMI then e == i + 1 else forall k: nat :: i <= k < e ==> Inert(q, k)
    ensures if q[i] == SEMI then CutsFrom(q, i) == [i] + CutsFrom(q, e) && Boundary(q, e) else Passed(q, i, e)
  {
    if q[i] != SEMI {
      StepOver(q, i, e);
    }
  }

  lemma CommentAgrees(q: Text, i: nat)
    requires i < |q| && Lexeme(q, i).Some? && Lexeme(q, i).value.kind.Comment?
    ensures Passed(q, i, Lexeme(q, i).value.end)
  {
    var t := Lexeme(q, i).value;
    if Pair(q, i, SLASH, STAR) {
      SameComment(q, i + 2, 1);
    } else {
      assert LineEnd(q, i) == LineEnd(q, i + 2) == t.end;
      if t.end < |q| {
        assert Inert(q, t.end);
      }
    }
  }

  /** The splitter leaves an escape string where the lexer does exactly when the string
      follows no digit, or its plain reading ends there too. */
  lemma LeavesTogether(q: Text, i: nat)
    requires i < |q| && Lexeme(q, i).Some? && Lexeme(q, i).value.kind.EStr? && Boundary(q, i)
    ensures SkipQuoted(q, i + 1) + 1 == Lexeme(q, i).value.end <==> EClear(q, Lexeme(q, i).value)
  {
    SameEscapeClose(q, i + 2);
    ClosesWhere(q, i + 2, QUOTE);
  }

  lemma EStringAgrees(q: Text, i: nat)
    requires i < |q| && Lexeme(q, i).Some? && Lexeme(q, i).value.kind.EStr? && Boundary(q, i)
    requires EClear(q, Lexeme(q, i).value)
    ensures Passed(q, i, Lexeme(q, i).value.end)
  {
    assert Inert(q, i);
    LeavesTogether(q, i);
    SameEscapeClose(q, i + 2);
  }

  lemma {:induction false} AgreeFrom(q: Text, i: nat)
    requires i <= |q| && LexFrom(q, i).Some? && Boundary(q, i) && PlainAfterDigit(q, LexFrom(q, i).value)
    ensures CutsFrom(q, i) == Semis(q, LexFrom(q, i).value)
    decreases |q| - i
  {
    if i < |q| {
      var t, toks := Lexeme(q, i).value, LexFrom(q, i).value;
      var rest := LexFrom(q, t.end).value;
      if !t.kind.Blank? && !t.kind.Comment? {
        assert toks == [t] + rest && toks[1..] == rest && EClear(q, toks[0]);
        assert forall k :: 0 <= k < |rest| ==> rest[k] == toks[k + 1];
      }
      LexemeAgrees(q, i);
      AgreeFrom(q, t.end);
      assert [] + CutsFrom(q, t.end) == CutsFrom(q, t.end);
    }
  }

  /** For every text the lexer accepts in which no escape string that directly follows a
      digit depends on its backslashes, the splitter cuts exactly at the lexer's
      semicolons. */
  lemma SplitsAtSemicolons(q: Text)
    requires LexFrom(q, 0).Some? && PlainAfterDigit(q, LexFrom(q, 0).value)
    ensures CutsFrom(q, 0) == Semis(q, LexFrom(q, 0).value)
  {
    AgreeFrom(q, 0);
  }

  /** The exception is real: 1e'\';' lexes as a number and an escape string, and the
      splitter cuts inside the string. */
  lemma DigitBeforeE()
    ensures exists q: Text :: LexFrom(q, 0).Some? && CutsFrom(q, 0) != Semis(q, LexFrom(q, 0).value)
  {
    var toks := DigitLexes();
    DigitCuts();
    assert Semis(DIGIT_THEN_E, toks[2..]) == [] && Semis(DIGIT_THEN_E, toks[1..]) == [];
    assert Semis(DIGIT_THEN_E, toks) == [];
  }

  /** 1e'\';' */
  const DIGIT_THEN_E: Text := [49, 101, QUOTE, BACKSLASH, QUOTE, SEMI, QUOTE]

  lemma DigitLexes() returns (toks: seq<Token>)
    ensures LexFrom(DIGIT_THEN_E, 0) == Some(toks) && toks == [Token(Number, 0, 1), Token(EStr, 1, 7)]
  {
    var q := DIGIT_THEN_E;
    assert DigitsEnd(q, 1) == 1 && DigitsEnd(q, 0) == 1 && MantissaEnd(q, 0) == 1 && NumberEnd(q, 0) == 1;
    assert EscapeEnd(q, 6) == Some(7) && EscapeEnd(q, 5) == Some(7) && EscapeEnd(q, 3) == Some(7);
    assert Lexeme(q, 0) == Some(Token(Number, 0, 1)) && Lexeme(q, 1) == Some(Token(EStr, 1, 7));
    assert LexFrom(q, 7) == Some([]);
    assert [Token(EStr, 1, 7)] + [] == [Token(EStr, 1, 7)];
    assert LexFrom(q, 1) == Some([Token(EStr, 1, 7)]);
    toks := [Token(Number, 0, 1), Token(EStr, 1, 7)];
    assert [Token(Number, 0, 1)] + [Token(EStr, 1, 7)] == toks;
    assert LexFrom(q, 0) == Some(toks);
  }

  lemma DigitCuts()
    ensures CutsFrom(DIGIT_THEN_E, 0) != []
  {
    var q := DIGIT_THEN_E;
    assert CutsFrom(q, 5) == [5] + CutsFrom(q, 6);
    assert CloseFrom(q, 4, QUOTE, false) == 4 && CloseFrom(q, 3, QUOTE, false) == 4;
    assert CutsFrom(q, 2) == CutsFrom(q, 5);
    assert CutsFrom(q, 1) == CutsFrom(q, 2) && CutsFrom(q, 0) == CutsFrom(q, 1);
  }
}
