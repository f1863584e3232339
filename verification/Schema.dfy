/** Table descriptors, rows, and the key order of a table's access paths. */
module Schema {
  import opened Values

  datatype Column = Column(id: nat, name: string, typ: ColType, notNull: bool, identity: bool)

  datatype IndexDesc = IndexDesc(id: nat, name: string, cols: seq<nat>, unique: bool, desc: seq<bool>)

  datatype FKDesc = FKDesc(name: string, cols: seq<nat>, refTable: string, refCols: seq<string>, cascade: bool)

  datatype TableDesc = TableDesc(
    id: nat, name: string, columns: seq<Column>, pkCols: seq<nat>,
    indexes: seq<IndexDesc>, foreignKeys: seq<FKDesc>, nextColID: nat)

  /** An access path of a table: its primary index or one secondary index. */
  datatype Path = Primary | Secondary(idx: IndexDesc)

  predicate OrdsIn(ords: seq<nat>, width: nat) {
    forall i :: 0 <= i < |ords| ==> ords[i] < width
  }

  predicate ValidIndex(idx: IndexDesc, width: nat) {
    OrdsIn(idx.cols, width) && |idx.desc| <= |idx.cols|
  }

  predicate ValidDesc(d: TableDesc) {
    && OrdsIn(d.pkCols, |d.columns|)
    && (forall i :: 0 <= i < |d.indexes| ==> ValidIndex(d.indexes[i], |d.columns|))
  }

  /** A row as stored: one value per column, typed, key and NOT NULL columns filled. */
  predicate RowOK(d: TableDesc, row: Row) {
    && |row| == |d.columns|
    && (forall i :: 0 <= i < |row| ==> Fits(row[i], d.columns[i].typ))
    && (forall i :: 0 <= i < |row| && (NonNullCol(d, i) || d.columns[i].identity) ==> row[i] != Null)
  }

  predicate NonNullCol(d: TableDesc, ord: nat) {
    ord in d.pkCols || (ord < |d.columns| && d.columns[ord].notNull)
  }

  /** The value at an ordinal; ordinals past the row read as NULL. */
  function At(row: Row, i: nat): Value {
    if i < |row| then row[i] else Null
  }

  /** The first column of that name. */
  function ColIndex(d: TableDesc, name: string, i: nat): (r: Option<nat>)
    requires i <= |d.columns|
    ensures r.Some? ==> i <= r.value < |d.columns| && d.columns[r.value].name == name
    ensures r.None? ==> forall j :: i <= j < |d.columns| ==> d.columns[j].name != name
    decreases |d.columns| - i
  {
    if i == |d.columns| then None else if d.columns[i].name == name then Some(i) else ColIndex(d, name, i + 1)
  }

  function Project(row: Row, cols: seq<nat>): (vs: seq<Value>)
    ensures |vs| == |cols|
    ensures forall i :: 0 <= i < |cols| ==> vs[i] == At(row, cols[i])
  {
    seq(|cols|, i requires 0 <= i < |cols| => At(row, cols[i]))
  }

  function PathCols(d: TableDesc, path: Path): seq<nat> {
    match path
    case Primary => d.pkCols
    case Secondary(idx) => idx.cols
  }

  /** Directions of a path's key columns; the primary key ascends. */
  function PathDirs(path: Path): seq<bool> {
    match path
    case Primary => []
    case Secondary(idx) => idx.desc
  }

  predicate PathOf(d: TableDesc, path: Path) {
    path.Secondary? ==> path.idx in d.indexes
  }

  /** The tuple a path orders a row by: its key columns, then the primary key. */
  function PathKey(d: TableDesc, path: Path, row: Row): seq<Value> {
    Project(row, PathCols(d, path)) + (if path.Secondary? then Project(row, d.pkCols) else [])
  }

  function PathCmp(d: TableDesc, path: Path, a: Row, b: Row): int {
    TupleCmp(PathDirs(path), PathKey(d, path, a), PathKey(d, path, b), 0)
  }

  /** A table's rows listed in a path's key order. */
  predicate Listed(d: TableDesc, path: Path, rows: seq<Row>) {
    && (forall i :: 0 <= i < |rows| ==> RowOK(d, rows[i]))
    && (forall i, j :: 0 <= i < j < |rows| ==> PathCmp(d, path, rows[i], rows[j]) < 0)
  }

  /** A partial bound, coerced to the types of the path's leading columns. */
  function CoerceBound(d: TableDesc, path: Path, bound: seq<Value>): (vs: seq<Value>)
    ensures |vs| == |bound|
  {
    seq(|bound|, i requires 0 <= i < |bound| =>
      if i < |PathCols(d, path)| && PathCols(d, path)[i] < |d.columns|
      then Coerce(bound[i], d.columns[PathCols(d, path)[i]].typ) else bound[i])
  }

  function BoundCmp(d: TableDesc, path: Path, row: Row, bound: seq<Value>): int {
    TupleCmp(PathDirs(path), PathKey(d, path, row), CoerceBound(d, path, bound), 0)
  }

  /** Rows whose key is at or above the bound (`from`, inclusive). */
  predicate AtOrAbove(d: TableDesc, path: Path, row: Row, bound: seq<Value>) {
    BoundCmp(d, path, row, bound) >= 0
  }

  /** Rows whose key is below the bound, or, when incl, starts with it. */
  predicate Below(d: TableDesc, path: Path, row: Row, bound: seq<Value>, incl: bool) {
    BoundCmp(d, path, row, bound) < 0 || (incl && CoerceBound(d, path, bound) <= PathKey(d, path, row))
  }
}
