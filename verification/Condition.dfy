/** WHERE and ON conditions: trees of AND, OR and NOT over predicates, evaluated
    with SQL three-valued logic (section 9.1 of the PostgreSQL manual). Conditions
    the planner cannot look into are `Cond` leaves, interpreted by a function of
    the leaf and the row. */
module Condition {
  import opened Values
  import opened Schema

  datatype Op = EQ | NE | LT | LE | GT | GE | IsNull | IsNotNull

  datatype Operand = Lit(v: Value) | Col(ord: nat)

  /** A predicate with its column references resolved to ordinals. */
  datatype Pred = Pred(l: nat, op: Op, rhs: Operand)

  datatype BoolExpr<C> =
    | Always
    | Leaf(p: Pred)
    | Cond(c: C)
    | Not(e: BoolExpr<C>)
    | And(es: seq<BoolExpr<C>>)
    | Or(es: seq<BoolExpr<C>>)

  type CondFn<!C> = (C, Row) -> Tri

  /** Mirrors a comparison across its operands. */
  function Flip(op: Op): Op {
    match op
    case LT => GT
    case LE => GE
    case GT => LT
    case GE => LE
    case _ => op
  }

  function Holds(op: Op, c: int): bool {
    match op
    case EQ => c == 0
    case NE => c != 0
    case LT => c < 0
    case LE => c <= 0
    case GT => c > 0
    case GE => c >= 0
    case _ => false
  }

  function OfBool(b: bool): Tri {
    if b then True3 else False3
  }

  function CheckPred(v: Value, op: Op, rhs: Value): Tri {
    if op.IsNull? then OfBool(v == Null)
    else if op.IsNotNull? then OfBool(v != Null)
    else match CompareVals(v, rhs)
         case None => Unknown3
         case Some(c) => OfBool(Holds(op, c))
  }

  function OperandVal(o: Operand, row: Row): Value {
    match o
    case Lit(v) => v
    case Col(ord) => At(row, ord)
  }

  function EvalPred(p: Pred, row: Row): Tri {
    CheckPred(At(row, p.l), p.op, OperandVal(p.rhs, row))
  }

  /** Evaluation with AND and OR stopping at the first deciding operand. */
  function EvalBool<C>(e: BoolExpr<C>, row: Row, cond: CondFn<C>): Tri
    decreases e
  {
    match e
    case Always => True3
    case Leaf(p) => EvalPred(p, row)
    case Cond(c) => cond(c, row)
    case Not(s) => EvalBool(s, row, cond).Not()
    case And(es) => EvalAnd(es, row, cond, True3)
    case Or(es) => EvalOr(es, row, cond, False3)
  }

  function EvalAnd<C>(es: seq<BoolExpr<C>>, row: Row, cond: CondFn<C>, out: Tri): Tri
    decreases es
  {
    if es == [] then out
    else match EvalBool(es[0], row, cond)
         case False3 => False3
         case True3 => EvalAnd(es[1..], row, cond, out)
         case Unknown3 => EvalAnd(es[1..], row, cond, Unknown3)
  }

  function EvalOr<C>(es: seq<BoolExpr<C>>, row: Row, cond: CondFn<C>, out: Tri): Tri
    decreases es
  {
    if es == [] then out
    else match EvalBool(es[0], row, cond)
         case True3 => True3
         case False3 => EvalOr(es[1..], row, cond, out)
         case Unknown3 => EvalOr(es[1..], row, cond, Unknown3)
  }

  predicate IsTrue<C>(e: BoolExpr<C>, row: Row, cond: CondFn<C>) {
    EvalBool(e, row, cond) == True3
  }

  /** The predicates every matching row must satisfy: leaves of top-level ANDs. */
  function Conjuncts<C>(e: BoolExpr<C>): seq<Pred>
    decreases e
  {
    match e
    case Leaf(p) => [p]
    case And(es) => ConjunctsAll(es)
    case _ => []
  }

  function ConjunctsAll<C>(es: seq<BoolExpr<C>>): seq<Pred>
    decreases es
  {
    if es == [] then [] else Conjuncts(es[0]) + ConjunctsAll(es[1..])
  }

  /** Kleene conjunction: short-circuit evaluation is true exactly when every
      operand is, and false exactly when some operand is. */
  lemma {:induction false} AndMeaning<C>(es: seq<BoolExpr<C>>, row: Row, cond: CondFn<C>, out: Tri)
    requires out != False3
    ensures EvalAnd(es, row, cond, out) == True3
       <==> out == True3 && forall i :: 0 <= i < |es| ==> IsTrue(es[i], row, cond)
    ensures EvalAnd(es, row, cond, out) == False3
       <==> exists i :: 0 <= i < |es| && EvalBool(es[i], row, cond) == False3
  {
    if es != [] {
      var t := EvalBool(es[0], row, cond);
      var rest := es[1..];
      assert forall i :: 0 <= i < |rest| ==> rest[i] == es[i + 1];
      assert forall i :: 0 < i < |es| ==> es[i] == rest[i - 1];
      if t != False3 {
        AndMeaning(rest, row, cond, if t == True3 then out else Unknown3);
      }
    }
  }

  /** Kleene disjunction. */
  lemma {:induction false} OrMeaning<C>(es: seq<BoolExpr<C>>, row: Row, cond: CondFn<C>, out: Tri)
    requires out != True3
    ensures EvalOr(es, row, cond, out) == True3
       <==> exists i :: 0 <= i < |es| && IsTrue(es[i], row, cond)
    ensures EvalOr(es, row, cond, out) == False3
       <==> out == False3 && forall i :: 0 <= i < |es| ==> EvalBool(es[i], row, cond) == False3
  {
    if es != [] {
      var t := EvalBool(es[0], row, cond);
      var rest := es[1..];
      assert forall i :: 0 <= i < |rest| ==> rest[i] == es[i + 1];
      assert forall i :: 0 < i < |es| ==> es[i] == rest[i - 1];
      if t != True3 {
        OrMeaning(rest, row, cond, if t == False3 then out else Unknown3);
      }
    }
  }

  /** A row on which the condition is definitely true satisfies every conjunct. */
  lemma {:induction false} ConjunctsHold<C>(e: BoolExpr<C>, row: Row, cond: CondFn<C>)
    requires IsTrue(e, row, cond)
    ensures forall p :: p in Conjuncts(e) ==> EvalPred(p, row) == True3
    decreases e
  {
    if e.And? {
      AndMeaning(e.es, row, cond, True3);
      ConjunctsAllHold(e.es, row, cond);
    }
  }

  lemma {:induction false} ConjunctsAllHold<C>(es: seq<BoolExpr<C>>, row: Row, cond: CondFn<C>)
    requires forall i :: 0 <= i < |es| ==> IsTrue(es[i], row, cond)
    ensures forall p :: p in ConjunctsAll(es) ==> EvalPred(p, row) == True3
    decreases es
  {
    if es != [] {
      ConjunctsHold(es[0], row, cond);
      ConjunctsAllHold(es[1..], row, cond);
    }
  }

  /** Rows on which a condition is definitely true, in order. */
  function Matching<C>(rows: seq<Row>, e: BoolExpr<C>, cond: CondFn<C>): seq<Row> {
    if rows == [] then []
    else (if IsTrue(e, rows[0], cond) then [rows[0]] else []) + Matching(rows[1..], e, cond)
  }

  lemma {:induction false} MatchingConcat<C>(a: seq<Row>, b: seq<Row>, e: BoolExpr<C>, cond: CondFn<C>)
    ensures Matching(a + b, e, cond) == Matching(a, e, cond) + Matching(b, e, cond)
  {
    if a == [] {
      assert a + b == b;
    } else {
      assert (a + b)[1..] == a[1..] + b && (a + b)[0] == a[0];
      MatchingConcat(a[1..], b, e, cond);
    }
  }

  lemma {:induction false} MatchingNone<C>(rows: seq<Row>, e: BoolExpr<C>, cond: CondFn<C>)
    requires forall i :: 0 <= i < |rows| ==> !IsTrue(e, rows[i], cond)
    ensures Matching(rows, e, cond) == []
  {
    if rows != [] {
      MatchingNone(rows[1..], e, cond);
    }
  }

  /** Matching keeps exactly the true rows. */
  lemma {:induction false} MatchingMembers<C>(rows: seq<Row>, e: BoolExpr<C>, cond: CondFn<C>)
    ensures forall r :: r in Matching(rows, e, cond) <==> r in rows && IsTrue(e, r, cond)
    ensures multiset(Matching(rows, e, cond)) <= multiset(rows)
  {
    if rows != [] {
      assert rows == [rows[0]] + rows[1..];
      MatchingMembers(rows[1..], e, cond);
    }
  }

  /** Comparing the other way round with the mirrored operator is the same test. */
  lemma FlipSame(a: Value, op: Op, b: Value)
    requires op != IsNull && op != IsNotNull
    ensures CheckPred(a, op, b) == CheckPred(b, Flip(op), a)
  {
    CompareFlip(a, b);
  }
}
