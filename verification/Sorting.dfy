/** The sort of ORDER BY (sortOffsetProject in sql/exec.go): a stable sort by several keys,
    NULLs last, and what is left of it once the rows already come in order. */
module Sorting {
  import opened Values
  import opened Schema
  import opened Planner

  /** ORDER BY's comparison of two values: NULLs last. */
  function OrderCmp(a: Value, b: Value): int {
    if a == Null && b == Null then 0
    else if a == Null then 1
    else if b == Null then -1
    else match CompareVals(a, b)
         case Some(c) => c
         case None => 0
  }

  function KeyOrder(k: SortKey, a: Row, b: Row): int {
    var c := OrderCmp(At(a, k.ord), At(b, k.ord));
    if k.desc then -c else c
  }

  function KeysCmp(keys: seq<SortKey>, a: Row, b: Row): int {
    if keys == [] then 0
    else if KeyOrder(keys[0], a, b) != 0 then KeyOrder(keys[0], a, b)
    else KeysCmp(keys[1..], a, b)
  }

  ghost predicate Sorted(keys: seq<SortKey>, rows: seq<Row>) {
    forall i, j :: 0 <= i < j < |rows| ==> KeysCmp(keys, rows[i], rows[j]) <= 0
  }

  ghost predicate AllOK(d: TableDesc, rows: seq<Row>) {
    forall i :: 0 <= i < |rows| ==> RowOK(d, rows[i])
  }

  // --- the comparison is a weak order on the rows of a table ---

  lemma OrderCmpSame(v: Value)
    ensures OrderCmp(v, v) == 0
  {
    if v.Str? {
      CmpBytesOrder(v.s, v.s, 0);
    } else if v.Blob? {
      CmpBytesOrder(v.bs, v.bs, 0);
    }
  }

  lemma OrderCmpFlips(a: Value, b: Value)
    ensures OrderCmp(a, b) == -OrderCmp(b, a)
  {
    if a != Null && b != Null {
      CompareFlip(a, b);
    }
  }

  lemma OrderCmpTrans(a: Value, b: Value, c: Value, t: ColType)
    requires Fits(a, t) && Fits(b, t) && Fits(c, t)
    requires OrderCmp(a, b) <= 0 && OrderCmp(b, c) <= 0
    ensures OrderCmp(a, c) <= 0 && (OrderCmp(a, b) < 0 || OrderCmp(b, c) < 0 ==> OrderCmp(a, c) < 0)
  {
    if a != Null && b != Null && c != Null {
      CompareIsKeyOrder(a, b, t);
      CompareIsKeyOrder(b, c, t);
      CompareIsKeyOrder(a, c, t);
      KeyCmpTrans(a, b, c);
    }
  }

  lemma KeyOrderFlips(k: SortKey, a: Row, b: Row)
    ensures KeyOrder(k, a, b) == -KeyOrder(k, b, a)
  {
    OrderCmpFlips(At(a, k.ord), At(b, k.ord));
  }

  lemma KeyOrderTrans(d: TableDesc, k: SortKey, a: Row, b: Row, c: Row)
    requires RowOK(d, a) && RowOK(d, b) && RowOK(d, c)
    requires KeyOrder(k, a, b) <= 0 && KeyOrder(k, b, c) <= 0
    ensures KeyOrder(k, a, c) <= 0 && (KeyOrder(k, a, b) < 0 || KeyOrder(k, b, c) < 0 ==> KeyOrder(k, a, c) < 0)
  {
    var x, y, z := At(a, k.ord), At(b, k.ord), At(c, k.ord);
    var t := if k.ord < |d.columns| then d.columns[k.ord].typ else TInt;
    hide OrderCmp;
    OrderCmpFlips(x, y);
    OrderCmpFlips(y, z);
    OrderCmpFlips(x, z);
    if k.desc {
      OrderCmpTrans(z, y, x, t);
    } else {
      OrderCmpTrans(x, y, z, t);
    }
  }

  /** Rows compare the other way round with the sign turned. */
  lemma {:induction false} KeysCmpFlips(keys: seq<SortKey>, a: Row, b: Row)
    ensures KeysCmp(keys, a, b) == -KeysCmp(keys, b, a)
  {
    if keys != [] {
      KeyOrderFlips(keys[0], a, b);
      KeysCmpFlips(keys[1..], a, b);
    }
  }

  /** On rows of one table the comparison is transitive, strictly when a step is strict. */
  lemma {:induction false} KeysCmpTrans(d: TableDesc, keys: seq<SortKey>, a: Row, b: Row, c: Row)
    requires RowOK(d, a) && RowOK(d, b) && RowOK(d, c)
    requires KeysCmp(keys, a, b) <= 0 && KeysCmp(keys, b, c) <= 0
    ensures KeysCmp(keys, a, c) <= 0 && (KeysCmp(keys, a, b) < 0 || KeysCmp(keys, b, c) < 0 ==> KeysCmp(keys, a, c) < 0)
  {
    hide RowOK, KeyOrder;
    if keys != [] {
      var k := keys[0];
      KeyOrderTrans(d, k, a, b, c);
      if KeyOrder(k, a, b) == 0 && KeyOrder(k, b, c) == 0 {
        KeyOrderFlips(k, a, b);
        KeyOrderFlips(k, b, c);
        KeyOrderFlips(k, a, c);
        KeyOrderTrans(d, k, c, b, a);
        KeysCmpTrans(d, keys[1..], a, b, c);
      }
    }
  }

  // --- the sort ---

  /** The row after those it does not come before, in a list in order. */
  function Placed(keys: seq<SortKey>, rows: seq<Row>, x: Row): (r: seq<Row>)
    ensures |r| == |rows| + 1
  {
    if rows == [] || KeysCmp(keys, rows[|rows| - 1], x) <= 0 then rows + [x]
    else Placed(keys, rows[..|rows| - 1], x) + [rows[|rows| - 1]]
  }

  /** The rows in order, ties as they came. */
  function StableSort(keys: seq<SortKey>, rows: seq<Row>): (r: seq<Row>)
    ensures |r| == |rows|
  {
    if rows == [] then [] else Placed(keys, StableSort(keys, rows[..|rows| - 1]), rows[|rows| - 1])
  }

  /** The rows that tie with x, in the order they come. */
  function Ties(keys: seq<SortKey>, rows: seq<Row>, x: Row): seq<Row> {
    if rows == [] then []
    else (if KeysCmp(keys, rows[0], x) == 0 then [rows[0]] else []) + Ties(keys, rows[1..], x)
  }

  /** The list b is a in order, with every group of ties as it came. */
  ghost predicate StablyOrdered(d: TableDesc, keys: seq<SortKey>, a: seq<Row>, b: seq<Row>) {
    && multiset(b) == multiset(a) && Sorted(keys, b)
    && forall x :: RowOK(d, x) ==> Ties(keys, b, x) == Ties(keys, a, x)
  }

  /** One row put into a list in order, moving down past the rows it comes before. */
  method PlaceRow(rows: seq<Row>, x: Row, keys: seq<SortKey>) returns (out: seq<Row>)
    ensures out == Placed(keys, rows, x)
  {
    hide KeysCmp;
    var n: nat, moved: seq<Row> := |rows|, [];
    assert rows[..n] == rows;
    while n > 0 && KeysCmp(keys, rows[n - 1], x) > 0
      invariant 0 <= n <= |rows|
      invariant Placed(keys, rows, x) == Placed(keys, rows[..n], x) + moved
      invariant rows == rows[..n] + moved
    {
      assert rows[..n][..n - 1] == rows[..n - 1];
      assert Placed(keys, rows[..n - 1], x) + [rows[n - 1]] + moved
          == Placed(keys, rows[..n - 1], x) + ([rows[n - 1]] + moved);
      n, moved := n - 1, [rows[n - 1]] + moved;
    }
    out := rows[..n] + [x] + moved;
  }

  /** The stable sort by the keys. */
  method SortRows(rows: seq<Row>, keys: seq<SortKey>) returns (out: seq<Row>)
    ensures out == StableSort(keys, rows)
  {
    out := [];
    var i := 0;
    while i < |rows|
      invariant 0 <= i <= |rows| && out == StableSort(keys, rows[..i])
    {
      assert rows[..i + 1][..i] == rows[..i];
      out := PlaceRow(out, rows[i], keys);
      i := i + 1;
    }
    assert rows[..i] == rows;
  }

  // --- it sorts, and keeps ties as they came ---

  lemma {:induction false} PlacedPerm(keys: seq<SortKey>, rows: seq<Row>, x: Row)
    ensures multiset(Placed(keys, rows, x)) == multiset(rows) + multiset{x}
  {
    if rows != [] && KeysCmp(keys, rows[|rows| - 1], x) > 0 {
      PlacedPerm(keys, rows[..|rows| - 1], x);
      assert rows == rows[..|rows| - 1] + [rows[|rows| - 1]];
    }
  }

  lemma {:induction false} SortPerm(keys: seq<SortKey>, rows: seq<Row>)
    ensures multiset(StableSort(keys, rows)) == multiset(rows)
  {
    if rows != [] {
      SortPerm(keys, rows[..|rows| - 1]);
      PlacedPerm(keys, StableSort(keys, rows[..|rows| - 1]), rows[|rows| - 1]);
      assert rows == rows[..|rows| - 1] + [rows[|rows| - 1]];
    }
  }

  lemma PermOK(d: TableDesc, a: seq<Row>, b: seq<Row>)
    requires AllOK(d, a) && multiset(b) == multiset(a)
    ensures AllOK(d, b)
  {
    forall i | 0 <= i < |b| ensures RowOK(d, b[i]) {
      assert b[i] in multiset(b);
      assert b[i] in a;
    }
  }

  lemma SortOK(d: TableDesc, keys: seq<SortKey>, rows: seq<Row>)
    requires AllOK(d, rows)
    ensures AllOK(d, StableSort(keys, rows))
  {
    SortPerm(keys, rows);
    PermOK(d, rows, StableSort(keys, rows));
  }

  /** Every row of a placed list is an old one or the new one. */
  lemma PlacedAmong(keys: seq<SortKey>, rows: seq<Row>, x: Row, i: nat)
    requires i < |rows| + 1
    ensures Placed(keys, rows, x)[i] == x || Placed(keys, rows, x)[i] in rows
  {
    PlacedPerm(keys, rows, x);
    assert Placed(keys, rows, x)[i] in multiset(Placed(keys, rows, x));
  }

  /** Nothing in a list in order, nor a row before its last one, passes that last row. */
  lemma BelowLast(d: TableDesc, keys: seq<SortKey>, rows: seq<Row>, x: Row, y: Row)
    requires AllOK(d, rows) && RowOK(d, x) && Sorted(keys, rows) && rows != []
    requires y == x || y in rows[..|rows| - 1]
    requires KeysCmp(keys, rows[|rows| - 1], x) > 0
    ensures KeysCmp(keys, y, rows[|rows| - 1]) <= 0
  {
    if y == x {
      KeysCmpFlips(keys, rows[|rows| - 1], x);
    }
  }

  lemma AboveAll(d: TableDesc, keys: seq<SortKey>, rows: seq<Row>, x: Row, i: nat)
    requires AllOK(d, rows) && RowOK(d, x) && Sorted(keys, rows) && i < |rows|
    requires KeysCmp(keys, rows[|rows| - 1], x) <= 0
    ensures KeysCmp(keys, rows[i], x) <= 0
  {
    if i < |rows| - 1 {
      KeysCmpTrans(d, keys, rows[i], rows[|rows| - 1], x);
    }
  }

  lemma {:induction false} PlacedSorted(d: TableDesc, keys: seq<SortKey>, rows: seq<Row>, x: Row)
    requires AllOK(d, rows) && RowOK(d, x) && Sorted(keys, rows)
    ensures Sorted(keys, Placed(keys, rows, x))
  {
    hide KeysCmp, RowOK;
    if rows == [] {
    } else if KeysCmp(keys, rows[|rows| - 1], x) <= 0 {
      forall i | 0 <= i < |rows| ensures KeysCmp(keys, rows[i], x) <= 0 {
        AboveAll(d, keys, rows, x, i);
      }
    } else {
      var front, last := rows[..|rows| - 1], rows[|rows| - 1];
      PlacedSorted(d, keys, front, x);
      forall i | 0 <= i < |rows| ensures KeysCmp(keys, Placed(keys, front, x)[i], last) <= 0 {
        PlacedAmong(keys, front, x, i);
        BelowLast(d, keys, rows, x, Placed(keys, front, x)[i]);
      }
    }
  }

  lemma {:induction false} TiesConcat(keys: seq<SortKey>, a: seq<Row>, b: seq<Row>, y: Row)
    ensures Ties(keys, a + b, y) == Ties(keys, a, y) + Ties(keys, b, y)
  {
    if a == [] {
      assert a + b == b;
    } else {
      assert (a + b)[0] == a[0] && (a + b)[1..] == a[1..] + b;
      TiesConcat(keys, a[1..], b, y);
    }
  }

  lemma TiesOne(keys: seq<SortKey>, x: Row, y: Row)
    ensures Ties(keys, [x], y) == if KeysCmp(keys, x, y) == 0 then [x] else []
  {
    assert [x][1..] == [];
  }

  /** Two rows in strict order do not tie with one row. */
  lemma NotBothTie(d: TableDesc, keys: seq<SortKey>, a: Row, b: Row, y: Row)
    requires RowOK(d, a) && RowOK(d, b) && RowOK(d, y) && KeysCmp(keys, a, b) > 0
    ensures KeysCmp(keys, a, y) != 0 || KeysCmp(keys, b, y) != 0
  {
    if KeysCmp(keys, a, y) == 0 && KeysCmp(keys, b, y) == 0 {
      KeysCmpFlips(keys, b, y);
      KeysCmpTrans(d, keys, a, y, b);
    }
  }

  lemma {:induction false} PlacedTies(d: TableDesc, keys: seq<SortKey>, rows: seq<Row>, x: Row, y: Row)
    requires AllOK(d, rows) && RowOK(d, x) && RowOK(d, y)
    ensures Ties(keys, Placed(keys, rows, x), y) == Ties(keys, rows, y) + Ties(keys, [x], y)
  {
    hide KeysCmp, RowOK, Ties;
    if rows == [] || KeysCmp(keys, rows[|rows| - 1], x) <= 0 {
      TiesConcat(keys, rows, [x], y);
    } else {
      var front, last := rows[..|rows| - 1], rows[|rows| - 1];
      PlacedTies(d, keys, front, x, y);
      TiesConcat(keys, Placed(keys, front, x), [last], y);
      assert rows == front + [last];
      TiesConcat(keys, front, [last], y);
      NotBothTie(d, keys, last, x, y);
      TiesOne(keys, x, y);
      TiesOne(keys, last, y);
    }
  }

  lemma {:induction false} SortTies(d: TableDesc, keys: seq<SortKey>, rows: seq<Row>, y: Row)
    requires AllOK(d, rows) && RowOK(d, y)
    ensures Ties(keys, StableSort(keys, rows), y) == Ties(keys, rows, y)
  {
    hide KeysCmp, RowOK, Ties, Placed;
    if rows != [] {
      var front, last := rows[..|rows| - 1], rows[|rows| - 1];
      SortTies(d, keys, front, y);
      SortOK(d, keys, front);
      PlacedTies(d, keys, StableSort(keys, front), last, y);
      TiesConcat(keys, front, [last], y);
      assert rows == front + [last];
    }
  }

  lemma {:induction false} SortSorts(d: TableDesc, keys: seq<SortKey>, rows: seq<Row>)
    requires AllOK(d, rows)
    ensures Sorted(keys, StableSort(keys, rows))
  {
    if rows != [] {
      var front := rows[..|rows| - 1];
      SortSorts(d, keys, front);
      SortOK(d, keys, front);
      PlacedSorted(d, keys, StableSort(keys, front), rows[|rows| - 1]);
    }
  }

  /** The rows of a table come out in order, each as often as it went in, ties as they came. */
  lemma SortIsStable(d: TableDesc, keys: seq<SortKey>, rows: seq<Row>)
    requires AllOK(d, rows)
    ensures StablyOrdered(d, keys, rows, StableSort(keys, rows))
  {
    SortPerm(keys, rows);
    SortSorts(d, keys, rows);
    forall x | RowOK(d, x) ensures Ties(keys, StableSort(keys, rows), x) == Ties(keys, rows, x) {
      SortTies(d, keys, rows, x);
    }
  }

  // --- there is only one such list ---

  lemma {:induction false} TiesMembers(keys: seq<SortKey>, rows: seq<Row>, x: Row, y: Row)
    ensures y in Ties(keys, rows, x) <==> y in rows && KeysCmp(keys, y, x) == 0
  {
    if rows != [] {
      TiesMembers(keys, rows[1..], x, y);
    }
  }

  lemma KeysCmpSame(keys: seq<SortKey>, x: Row)
    ensures KeysCmp(keys, x, x) == 0
  {
    KeysCmpFlips(keys, x, x);
  }

  /** A row that ties with itself in one list is in every list with the same ties. */
  lemma SameTiesMember(keys: seq<SortKey>, a: seq<Row>, b: seq<Row>, x: Row)
    requires x in a && Ties(keys, a, x) == Ties(keys, b, x)
    ensures x in b
  {
    KeysCmpSame(keys, x);
    TiesMembers(keys, a, x, x);
    TiesMembers(keys, b, x, x);
  }

  lemma HeadFirst(keys: seq<SortKey>, a: seq<Row>, x: Row)
    requires Sorted(keys, a) && x in a
    ensures KeysCmp(keys, a[0], x) <= 0
  {
    KeysCmpSame(keys, a[0]);
  }

  lemma HeadsSame(d: TableDesc, keys: seq<SortKey>, a: seq<Row>, b: seq<Row>)
    requires AllOK(d, a) && AllOK(d, b) && Sorted(keys, a) && Sorted(keys, b) && a != [] && b != []
    requires forall x :: RowOK(d, x) ==> Ties(keys, a, x) == Ties(keys, b, x)
    ensures a[0] == b[0]
  {
    hide KeysCmp, RowOK;
    SameTiesMember(keys, a, b, a[0]);
    SameTiesMember(keys, b, a, b[0]);
    HeadFirst(keys, a, b[0]);
    HeadFirst(keys, b, a[0]);
    KeysCmpFlips(keys, a[0], b[0]);
    KeysCmpSame(keys, a[0]);
    assert Ties(keys, a, a[0])[0] == a[0];
    assert Ties(keys, b, a[0])[0] == b[0];
  }

  /** Order and ties determine the list. */
  lemma {:induction false} StableUnique(d: TableDesc, keys: seq<SortKey>, a: seq<Row>, b: seq<Row>)
    requires AllOK(d, a) && AllOK(d, b) && Sorted(keys, a) && Sorted(keys, b)
    requires forall x :: RowOK(d, x) ==> Ties(keys, a, x) == Ties(keys, b, x)
    ensures a == b
  {
    hide KeysCmp, RowOK, Ties;
    if a == [] || b == [] {
      EmptyTies(d, keys, a, b);
    } else {
      HeadsSame(d, keys, a, b);
      forall x | RowOK(d, x) ensures Ties(keys, a[1..], x) == Ties(keys, b[1..], x) {
        TiesTail(keys, a, x);
        TiesTail(keys, b, x);
        var h := if KeysCmp(keys, a[0], x) == 0 then [a[0]] else [];
        SameRest(h, Ties(keys, a[1..], x), Ties(keys, b[1..], x));
      }
      StableUnique(d, keys, a[1..], b[1..]);
      assert a == [a[0]] + a[1..] && b == [b[0]] + b[1..];
    }
  }

  lemma SameRest<T>(h: seq<T>, u: seq<T>, v: seq<T>)
    requires h + u == h + v
    ensures u == v
  {
    assert u == (h + u)[|h|..] && v == (h + v)[|h|..];
  }

  lemma EmptyTies(d: TableDesc, keys: seq<SortKey>, a: seq<Row>, b: seq<Row>)
    requires AllOK(d, a) && AllOK(d, b) && (a == [] || b == [])
    requires forall x :: RowOK(d, x) ==> Ties(keys, a, x) == Ties(keys, b, x)
    ensures a == b
  {
    if a != [] {
      SameTiesMember(keys, a, b, a[0]);
    } else if b != [] {
      SameTiesMember(keys, b, a, b[0]);
    }
  }

  lemma TiesTail(keys: seq<SortKey>, a: seq<Row>, x: Row)
    requires a != []
    ensures Ties(keys, a, x) == (if KeysCmp(keys, a[0], x) == 0 then [a[0]] else []) + Ties(keys, a[1..], x)
  {
  }

  /** Whatever algorithm sorts stably, its result is this one. */
  lemma SortIsOnly(d: TableDesc, keys: seq<SortKey>, rows: seq<Row>, out: seq<Row>)
    requires AllOK(d, rows) && StablyOrdered(d, keys, rows, out)
    ensures out == StableSort(keys, rows)
  {
    hide KeysCmp, RowOK, Ties;
    SortIsStable(d, keys, rows);
    SortOK(d, keys, rows);
    PermOK(d, rows, out);
    StableUnique(d, keys, out, StableSort(keys, rows));
  }

  /** Rows that come in order are sorted already: dropping the sort changes nothing. */
  lemma {:induction false} SortedStays(keys: seq<SortKey>, rows: seq<Row>)
    requires Sorted(keys, rows)
    ensures StableSort(keys, rows) == rows
  {
    hide KeysCmp;
    if rows != [] {
      var front := rows[..|rows| - 1];
      SortedStays(keys, front);
      assert rows == front + [rows[|rows| - 1]];
    }
  }
}
