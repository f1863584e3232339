/** Any sequence of ADD, DROP and RENAME COLUMN, re-adding a name included: what stored
    rows read, and what key, index and foreign-key ordinals name, from the operations. */
module ColumnRun {
  import opened Values
  import opened Schema
  import opened Store
  import opened Table
  import opened TableProof
  import opened TableScan
  import opened Columns
  import opened ColumnOps

  /** `refs` are the names of columns that foreign keys elsewhere reference by then. */
  datatype Op =
    | Add(c: NewCol)
    | Drop(name: string, refs: set<string>)
    | Rename(was: string, now: string, refs: set<string>)

  /** The table's row keys, in key order. */
  ghost function RowList(a: Tab): seq<Key> {
    Ascend(a.s, RangeOf(a.d, Primary, [], [], true))
  }

  /** An operation the engine refuses; so is a default that does not fit its column. */
  ghost predicate Refuses(a: Tab, op: Op) {
    match op
    case Add(c) => !Fits(c.dflt, c.typ) || AddRefused(a.d, c, |RowList(a)|)
    case Drop(name, refs) => DropRefused(a.d, name, refs)
    case Rename(was, now, refs) => RenameRefused(a.d, was, now, refs)
  }

  /** What an operation makes of a table; a refusal leaves it as it was. */
  ghost predicate StepBy(a: Tab, op: Op, b: Tab) {
    if Refuses(a, op) then b == a
    else match op
         case Add(c) => AddsTo(a, c, b)
         case Drop(name, _) => DropsFrom(a, ColIndex(a.d, name, 0).value, b)
         case Rename(was, now, _) => b == a.(d := Renamed(a.d, ColIndex(a.d, was, 0).value, was, now))
  }

  ghost predicate AddsTo(a: Tab, c: NewCol, b: Tab) {
    && b.d == AddedTo(a.d, c) && AddedRows(a.s, RowList(a), a.d.nextColID, c, b.s)
    && b.counters == AddedCounters(a.counters, a.d.nextColID, c, |RowList(a)|)
  }

  ghost predicate DropsFrom(a: Tab, ord: nat, b: Tab)
    requires ord < |a.d.columns|
  {
    b.s == a.s && Dropped(a.d, b.d, ord) && b.counters == DroppedCounters(a.counters, a.d, ord)
  }

  /** A good table whose identity counters belong to IDs already used. */
  ghost predicate GoodTab(a: Tab) {
    Good(a.s, a.d) && forall id :: id in a.counters ==> id < a.d.nextColID
  }

  ghost predicate Stepped(a: Tab, b: Tab) {
    ColumnStep(a.s, a.d, b.s, b.d)
  }

  lemma StillStep(a: Tab)
    requires Good(a.s, a.d)
    ensures Stepped(a, a)
  {
    forall k | k in a.s && IsRowKey(a.d, k) ensures a.s[k].RowVal? && ReadsSame(a.s, a.d, a.s, a.d, k) {
      assert RowGood(a.s, a.d, k);
    }
  }

  lemma AddSteps(a: Tab, c: NewCol, b: Tab)
    requires GoodTab(a) && !Refuses(a, Add(c)) && AddsTo(a, c, b)
    ensures Stepped(a, b) && GoodTab(b)
  {
    hide ReadsFilled, ListsRows;
    RowsStored(a.s, a.d, RowList(a));
    AddStep(a.s, a.d, c, RowList(a), b.s);
  }

  lemma DropSteps(a: Tab, name: string, refs: set<string>, b: Tab)
    requires GoodTab(a) && !Refuses(a, Drop(name, refs)) && DropsFrom(a, ColIndex(a.d, name, 0).value, b)
    ensures Stepped(a, b) && GoodTab(b) && !HasID(b.d, a.d.columns[ColIndex(a.d, name, 0).value].id)
  {
    DropKeeps(a.s, a.d, b.d, ColIndex(a.d, name, 0).value);
  }

  lemma RenameSteps(a: Tab, was: string, now: string, refs: set<string>, b: Tab)
    requires GoodTab(a) && !Refuses(a, Rename(was, now, refs))
    requires b == a.(d := Renamed(a.d, ColIndex(a.d, was, 0).value, was, now))
    ensures Stepped(a, b) && GoodTab(b)
  {
    RenameKeeps(a.s, a.d, b.d, ColIndex(a.d, was, 0).value, now);
  }

  /** Every operation on a good table is a column step to a good table. */
  lemma StepKeeps(a: Tab, op: Op, b: Tab)
    requires GoodTab(a) && StepBy(a, op, b)
    ensures Stepped(a, b) && GoodTab(b)
  {
    if Refuses(a, op) {
      StillStep(a);
    } else {
      match op
      case Add(c) => AddSteps(a, c, b);
      case Drop(name, refs) => DropSteps(a, name, refs, b);
      case Rename(was, now, refs) => RenameSteps(a, was, now, refs, b);
    }
  }

  /** The tables a list of operations passes through. */
  ghost predicate IsRun(ops: seq<Op>, c: seq<Tab>) {
    |c| == |ops| + 1 && forall i :: 0 <= i < |ops| ==> StepAt(ops, c, i)
  }

  ghost predicate StepAt(ops: seq<Op>, c: seq<Tab>, i: nat)
    requires i < |ops| && i + 1 < |c|
  {
    StepBy(c[i], ops[i], c[i + 1])
  }

  lemma {:induction false} RunGood(ops: seq<Op>, c: seq<Tab>, i: nat)
    requires IsRun(ops, c) && i < |c| && GoodTab(c[0])
    ensures GoodTab(c[i])
  {
    if i > 0 {
      RunGood(ops, c, i - 1);
      assert StepAt(ops, c, i - 1);
      StepKeeps(c[i - 1], ops[i - 1], c[i]);
    }
  }

  /** A run from a good table is a chain of column steps. */
  lemma RunIsChain(ops: seq<Op>, c: seq<Tab>)
    requires IsRun(ops, c) && GoodTab(c[0])
    ensures Chain(c)
  {
    forall i | 0 <= i < |c| - 1 ensures Stepped(c[i], c[i + 1]) {
      RunGood(ops, c, i);
      assert StepAt(ops, c, i);
      StepKeeps(c[i], ops[i], c[i + 1]);
    }
  }

  /** Over any run a row reads the same for every column that is there before and after. */
  lemma ReadsForever(ops: seq<Op>, c: seq<Tab>, i: nat, j: nat, k: Key, id: nat)
    requires IsRun(ops, c) && GoodTab(c[0]) && i <= j < |c| && k in c[i].s && IsRowKey(c[i].d, k)
    requires HasID(c[i].d, id) && HasID(c[j].d, id)
    ensures k in c[j].s && IsRowKey(c[j].d, k) && ReadAt(c[j].s, c[j].d, k, id) == ReadAt(c[i].s, c[i].d, k, id)
  {
    RunIsChain(ops, c);
    ChainReads(c, i, j, k, id);
  }

  /** An ID once used and not there never comes back. */
  lemma NeverBack(ops: seq<Op>, c: seq<Tab>, i: nat, j: nat, id: nat)
    requires IsRun(ops, c) && GoodTab(c[0]) && i <= j < |c| && id < c[i].d.nextColID && !HasID(c[i].d, id)
    ensures !HasID(c[j].d, id)
  {
    RunIsChain(ops, c);
    ChainNeverBack(c, i, j, id);
  }

  /** Key, index and foreign-key ordinals name the same column IDs throughout, and every
      index stays exact. */
  lemma KeysForever(ops: seq<Op>, c: seq<Tab>, i: nat, j: nat)
    requires IsRun(ops, c) && GoodTab(c[0]) && i < j < |c|
    ensures Good(c[i].s, c[i].d) && Good(c[j].s, c[j].d) && SameKeys(c[i].d, c[j].d)
  {
    RunIsChain(ops, c);
    ChainKeys(c, i, j);
  }

  /** A new column reads its default, NULL, or 1..n in every row there was, for as long as
      it stays, a name used before included. */
  lemma DefaultForever(ops: seq<Op>, c: seq<Tab>, i: nat, j: nat, n: nat)
    requires IsRun(ops, c) && GoodTab(c[0]) && i < j < |c| && ops[i].Add? && !Refuses(c[i], ops[i])
    requires n < |RowList(c[i])| && HasID(c[j].d, c[i].d.nextColID)
    ensures ReadsFill(c[j].s, c[j].d, RowList(c[i])[n], c[i].d.nextColID, FillOf(ops[i].c.identity, ops[i].c.dflt)(n))
  {
    DefaultAt(ops, c, i, n);
    FillStays(ops, c, i + 1, j, RowList(c[i])[n], c[i].d.nextColID, FillOf(ops[i].c.identity, ops[i].c.dflt)(n));
  }

  lemma FillStays(ops: seq<Op>, c: seq<Tab>, i: nat, j: nat, k: Key, id: nat, v: Value)
    requires IsRun(ops, c) && GoodTab(c[0]) && i <= j < |c| && IsRowKey(c[i].d, k)
    requires ReadsFill(c[i].s, c[i].d, k, id, v) && HasID(c[j].d, id)
    ensures ReadsFill(c[j].s, c[j].d, k, id, v)
  {
    ReadsForever(ops, c, i, j, k, id);
  }

  lemma DefaultAt(ops: seq<Op>, c: seq<Tab>, i: nat, n: nat)
    requires IsRun(ops, c) && GoodTab(c[0]) && i + 1 < |c| && ops[i].Add? && !Refuses(c[i], ops[i])
    requires n < |RowList(c[i])|
    ensures var k := RowList(c[i])[n];
            && IsRowKey(c[i + 1].d, k)
            && ReadsFill(c[i + 1].s, c[i + 1].d, k, c[i].d.nextColID, FillOf(ops[i].c.identity, ops[i].c.dflt)(n))
  {
    RunGood(ops, c, i);
    assert StepAt(ops, c, i);
    DefaultRead(c[i], ops[i].c, c[i + 1], n);
  }

  lemma DefaultRead(a: Tab, c: NewCol, b: Tab, n: nat)
    requires GoodTab(a) && !Refuses(a, Add(c)) && AddsTo(a, c, b) && n < |RowList(a)|
    ensures ReadsFill(b.s, b.d, RowList(a)[n], a.d.nextColID, FillOf(c.identity, c.dflt)(n))
    ensures IsRowKey(b.d, RowList(a)[n])
  {
    RowsStored(a.s, a.d, RowList(a));
    AddStep(a.s, a.d, c, RowList(a), b.s);
  }

  /** A dropped column's data never resurfaces: its ID and its counter are gone for good. */
  lemma DroppedForever(ops: seq<Op>, c: seq<Tab>, i: nat, j: nat)
    requires IsRun(ops, c) && GoodTab(c[0]) && i < j < |c| && ops[i].Drop? && !Refuses(c[i], ops[i])
    ensures var col := c[i].d.columns[ColIndex(c[i].d, ops[i].name, 0).value];
            !HasID(c[j].d, col.id) && (col.identity ==> col.id !in c[j].counters)
  {
    RunGood(ops, c, i);
    assert StepAt(ops, c, i);
    var col := c[i].d.columns[ColIndex(c[i].d, ops[i].name, 0).value];
    DropSteps(c[i], ops[i].name, ops[i].refs, c[i + 1]);
    NeverBack(ops, c, i + 1, j, col.id);
    if col.identity {
      CounterGone(ops, c, i + 1, j, col.id);
    }
  }

  lemma {:induction false} CounterGone(ops: seq<Op>, c: seq<Tab>, i: nat, j: nat, id: nat)
    requires IsRun(ops, c) && GoodTab(c[0]) && i <= j < |c| && id < c[i].d.nextColID && id !in c[i].counters
    ensures id !in c[j].counters && id < c[j].d.nextColID
    decreases j
  {
    if i < j {
      CounterGone(ops, c, i, j - 1, id);
      RunGood(ops, c, j - 1);
      assert StepAt(ops, c, j - 1);
      StepKeeps(c[j - 1], ops[j - 1], c[j]);
    }
  }

  /** The next value of an identity column's counter. */
  function NextDraw(counters: Counters, id: nat): nat {
    if id in counters then counters[id] else 1
  }

  /** A new identity column numbers the rows there are from 1, and its first draw is one
      past the last of them. */
  lemma IdentityNext(a: Tab, c: NewCol, b: Tab, n: nat)
    requires GoodTab(a) && c.identity && !Refuses(a, Add(c)) && AddsTo(a, c, b)
    ensures NextDraw(b.counters, a.d.nextColID) == |RowList(a)| + 1
    ensures n < |RowList(a)| ==> ReadsFill(b.s, b.d, RowList(a)[n], a.d.nextColID, Int(n + 1))
  {
    hide RowList, Good;
    if n < |RowList(a)| {
      DefaultRead(a, c, b, n);
    }
  }
}
