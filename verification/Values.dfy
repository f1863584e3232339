/** Runtime values, SQL three-valued truth, and the two orders the engine uses:
    the comparison of SQL operators (`CompareVals`, numeric kinds compare
    together, NULL compares with nothing) and the order of the key encoding
    (`KeyCmp`, a total order by type tag in which NULL comes first). */
module Values {

  datatype Option<+T> = None | Some(value: T)

  type Byte = x: int | 0 <= x < 256

  /** A float64 that is not NaN; the two zeros are one. */
  datatype Float = NegInf | Fin(r: real) | PosInf

  datatype Value =
    | Null
    | Bool(b: bool)
    | Int(i: int)
    | Flt(f: Float)
    | Blob(bs: seq<Byte>)
    | Str(s: seq<Byte>)

  type Row = seq<Value>

  datatype ColType = TBool | TInt | TFloat | TBytes | TString

  datatype Tri = False3 | True3 | Unknown3 {
    function Not(): Tri {
      match this
      case True3 => False3
      case False3 => True3
      case Unknown3 => Unknown3
    }
  }

  function CmpInt(a: int, b: int): int {
    if a < b then -1 else if a == b then 0 else 1
  }

  function CmpReal(a: real, b: real): int {
    if a < b then -1 else if a == b then 0 else 1
  }

  function CmpFloat(a: Float, b: Float): int {
    if a == b then 0
    else if a.Fin? && b.Fin? then CmpReal(a.r, b.r)
    else if a.NegInf? || b.PosInf? then -1
    else 1
  }

  function BoolRank(b: bool): int {
    if b then 1 else 0
  }

  /** Bytewise order of strings from offset i on; a prefix sorts first. */
  function CmpBytes(a: seq<Byte>, b: seq<Byte>, i: nat): int
    decreases |a| - i
  {
    if i >= |a| then (if i >= |b| then 0 else -1)
    else if i >= |b| then 1
    else if a[i] != b[i] then CmpInt(a[i], b[i])
    else CmpBytes(a, b, i + 1)
  }

  /** `compareVals`: orders two non-NULL values of comparable kinds. */
  function CompareVals(a: Value, b: Value): Option<int> {
    match (a, b)
    case (Bool(x), Bool(y)) => Some(CmpInt(BoolRank(x), BoolRank(y)))
    case (Int(x), Int(y)) => Some(CmpInt(x, y))
    case (Int(x), Flt(y)) => Some(CmpFloat(Fin(x as real), y))
    case (Flt(x), Int(y)) => Some(CmpFloat(x, Fin(y as real)))
    case (Flt(x), Flt(y)) => Some(CmpFloat(x, y))
    case (Blob(x), Blob(y)) => Some(CmpBytes(x, y, 0))
    case (Str(x), Str(y)) => Some(CmpBytes(x, y, 0))
    case _ => None
  }

  /** The type tags of the key encoding, in order. */
  function Rank(v: Value): int {
    match v
    case Null => 1
    case Bool(b) => if b then 3 else 2
    case Int(_) => 4
    case Flt(_) => 5
    case Blob(_) => 6
    case Str(_) => 7
  }

  /** Key order of two values. */
  function KeyCmp(a: Value, b: Value): int {
    if Rank(a) != Rank(b) then CmpInt(Rank(a), Rank(b))
    else match (a, b)
         case (Int(x), Int(y)) => CmpInt(x, y)
         case (Flt(x), Flt(y)) => CmpFloat(x, y)
         case (Blob(x), Blob(y)) => CmpBytes(x, y, 0)
         case (Str(x), Str(y)) => CmpBytes(x, y, 0)
         case _ => 0
  }

  /** Key order of one key column, reversed for a descending column. */
  function DirCmp(desc: bool, a: Value, b: Value): int {
    if desc then KeyCmp(b, a) else KeyCmp(a, b)
  }

  predicate Fits(v: Value, t: ColType) {
    match v
    case Null => true
    case Bool(_) => t == TBool
    case Int(_) => t == TInt
    case Flt(_) => t == TFloat
    case Blob(_) => t == TBytes
    case Str(_) => t == TString
  }

  /** Coercion of a value to a column type, for the values a column accepts. */
  function Coerce(v: Value, t: ColType): Value {
    if v.Int? && t == TFloat then Flt(Fin(v.i as real)) else v
  }

  lemma {:induction false} CmpBytesOrder(a: seq<Byte>, b: seq<Byte>, i: nat)
    requires i <= |a| && i <= |b| && a[..i] == b[..i]
    ensures CmpBytes(a, b, i) == -CmpBytes(b, a, i)
    ensures CmpBytes(a, b, i) == 0 <==> a == b
    decreases |a| - i
  {
    if i < |a| && i < |b| && a[i] == b[i] {
      assert a[..i + 1] == a[..i] + [a[i]] && b[..i + 1] == b[..i] + [b[i]];
      CmpBytesOrder(a, b, i + 1);
    } else if i == |a| && i == |b| {
      assert a == a[..i] && b == b[..i];
    }
  }

  lemma {:induction false} CmpBytesTrans(a: seq<Byte>, b: seq<Byte>, c: seq<Byte>, i: nat)
    requires CmpBytes(a, b, i) <= 0 && CmpBytes(b, c, i) <= 0
    ensures CmpBytes(a, c, i) <= 0
    ensures CmpBytes(a, b, i) < 0 || CmpBytes(b, c, i) < 0 ==> CmpBytes(a, c, i) < 0
    decreases |a| - i
  {
    if i < |a| && i < |b| && i < |c| && a[i] == b[i] == c[i] {
      CmpBytesTrans(a, b, c, i + 1);
    }
  }

  /** Key order is antisymmetric and separates distinct values. */
  lemma KeyCmpOrder(a: Value, b: Value)
    ensures KeyCmp(a, b) == -KeyCmp(b, a)
    ensures KeyCmp(a, b) == 0 <==> a == b
  {
    if a.Str? && b.Str? {
      CmpBytesOrder(a.s, b.s, 0);
    } else if a.Blob? && b.Blob? {
      CmpBytesOrder(a.bs, b.bs, 0);
    }
  }

  /** Key order is transitive, strictly so when either step is strict. */
  lemma KeyCmpTrans(a: Value, b: Value, c: Value)
    requires KeyCmp(a, b) <= 0 && KeyCmp(b, c) <= 0
    ensures KeyCmp(a, c) <= 0
    ensures KeyCmp(a, b) < 0 || KeyCmp(b, c) < 0 ==> KeyCmp(a, c) < 0
  {
    if a.Str? && b.Str? && c.Str? {
      CmpBytesTrans(a.s, b.s, c.s, 0);
    } else if a.Blob? && b.Blob? && c.Blob? {
      CmpBytesTrans(a.bs, b.bs, c.bs, 0);
    }
  }

  lemma DirCmpOrder(d: bool, a: Value, b: Value)
    ensures DirCmp(d, a, b) == -DirCmp(d, b, a)
    ensures DirCmp(d, a, b) == 0 <==> a == b
  {
    KeyCmpOrder(a, b);
    KeyCmpOrder(b, a);
  }

  lemma DirCmpTrans(d: bool, a: Value, b: Value, c: Value)
    requires DirCmp(d, a, b) <= 0 && DirCmp(d, b, c) <= 0
    ensures DirCmp(d, a, c) <= 0
    ensures DirCmp(d, a, b) < 0 || DirCmp(d, b, c) < 0 ==> DirCmp(d, a, c) < 0
  {
    if d {
      KeyCmpTrans(c, b, a);
    } else {
      KeyCmpTrans(a, b, c);
    }
  }

  /** Within one column type the two orders agree: comparing a stored value with
      a literal gives the key order of the stored value and the coerced literal. */
  lemma CompareIsKeyOrder(v: Value, lit: Value, t: ColType)
    requires v != Null && Fits(v, t)
    requires lit != Null && Fits(Coerce(lit, t), t)
    ensures CompareVals(v, lit) == Some(KeyCmp(v, Coerce(lit, t)))
  {
  }

  /** Equality under SQL comparison is symmetric. */
  lemma CompareFlip(a: Value, b: Value)
    ensures CompareVals(a, b).Some? == CompareVals(b, a).Some?
    ensures CompareVals(a, b).Some? ==> CompareVals(a, b).value == -CompareVals(b, a).value
  {
    if a.Str? && b.Str? {
      CmpBytesOrder(a.s, b.s, 0);
    } else if a.Blob? && b.Blob? {
      CmpBytesOrder(a.bs, b.bs, 0);
    }
  }

  /** Does key column i order descending? Columns past the list ascend. */
  predicate DescAt(dirs: seq<bool>, i: nat) {
    i < |dirs| && dirs[i]
  }

  /** Order of two key tuples from column i on, each column in its direction; a
      tuple that is a prefix of the other sorts first. */
  function TupleCmp(dirs: seq<bool>, a: seq<Value>, b: seq<Value>, i: nat): int
    decreases |a| - i
  {
    if i >= |a| then (if i >= |b| then 0 else -1)
    else if i >= |b| then 1
    else if a[i] != b[i] then DirCmp(DescAt(dirs, i), a[i], b[i])
    else TupleCmp(dirs, a, b, i + 1)
  }

  lemma {:induction false} TupleCmpOrder(dirs: seq<bool>, a: seq<Value>, b: seq<Value>, i: nat)
    requires i <= |a| && i <= |b| && a[..i] == b[..i]
    ensures TupleCmp(dirs, a, b, i) == -TupleCmp(dirs, b, a, i)
    ensures TupleCmp(dirs, a, b, i) == 0 <==> a == b
    decreases |a| - i
  {
    if i < |a| && i < |b| {
      DirCmpOrder(DescAt(dirs, i), a[i], b[i]);
      if a[i] == b[i] {
        assert a[..i + 1] == a[..i] + [a[i]] && b[..i + 1] == b[..i] + [b[i]];
        TupleCmpOrder(dirs, a, b, i + 1);
      }
    } else if i == |a| && i == |b| {
      assert a == a[..i] && b == b[..i];
    }
  }

  lemma {:induction false} TupleCmpTrans(dirs: seq<bool>, a: seq<Value>, b: seq<Value>, c: seq<Value>, i: nat)
    requires TupleCmp(dirs, a, b, i) <= 0 && TupleCmp(dirs, b, c, i) <= 0
    ensures TupleCmp(dirs, a, c, i) <= 0
    ensures TupleCmp(dirs, a, b, i) < 0 || TupleCmp(dirs, b, c, i) < 0 ==> TupleCmp(dirs, a, c, i) < 0
    decreases |a| - i
  {
    if i < |a| && i < |b| && i < |c| {
      DirCmpOrder(DescAt(dirs, i), a[i], b[i]);
      DirCmpOrder(DescAt(dirs, i), b[i], c[i]);
      DirCmpOrder(DescAt(dirs, i), a[i], c[i]);
      if a[i] == b[i] == c[i] {
        TupleCmpTrans(dirs, a, b, c, i + 1);
      } else {
        DirCmpTrans(DescAt(dirs, i), a[i], b[i], c[i]);
      }
    }
  }

  lemma {:induction false} TupleSkip(dirs: seq<bool>, a: seq<Value>, b: seq<Value>, i: nat, n: nat)
    requires i <= n <= |a| && n <= |b|
    requires forall j :: i <= j < n ==> a[j] == b[j]
    ensures TupleCmp(dirs, a, b, i) == TupleCmp(dirs, a, b, n)
    decreases n - i
  {
    if i < n {
      TupleSkip(dirs, a, b, i + 1, n);
    }
  }
}
