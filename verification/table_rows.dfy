/** The row and cell shapes both table components emit, with the MUI markup
    stripped: a row is its React key and its cells, a cell is its key and the
    props it was given. */
module TableRows {
  import opened Wrappers
  import opened JsValues

  /** The props of one `TableCell`: `colSpan`, which the empty-data placeholder
      sets, and every other prop, kept uninterpreted. */
  datatype CellSpec = CellSpec(colSpan: Option<int>, props: map<string, string>)

  /** A `tableItem` (head, footer or what `body` returns): its `children` are
      meant to be an array of cell props but are not checked. The row's other
      props are pass-through styling and are not modelled. */
  datatype TableItem = TableItem(children: JsVal<CellSpec>)

  /** A row's React key: none, the position, or what `keyExtractor` returned. */
  datatype RowKey = Unkeyed | Index(i: nat) | Extracted(s: string)

  datatype Cell = Cell(key: Option<nat>, spec: CellSpec)

  datatype Row = Row(key: RowKey, cells: seq<Cell>)

  /** `specs` as cells keyed `from`, `from + 1`, ... */
  function KeyedCells(specs: seq<CellSpec>, from: nat): (cells: seq<Cell>)
    ensures |cells| == |specs|
    ensures forall j :: 0 <= j < |specs| ==> cells[j] == Cell(Some(from + j), specs[j])
    decreases |specs|
  {
    if specs == [] then [] else [Cell(Some(from), specs[0])] + KeyedCells(specs[1..], from + 1)
  }

  /** A row's cells: one cell per normalised child, in order, keyed by its
      position; non-array children give no cells. */
  function RenderCells(children: JsVal<CellSpec>): (cells: seq<Cell>)
    ensures |cells| == |ArrayDebug(children)|
    ensures children.NonArray? ==> cells == []
    ensures forall j :: 0 <= j < |cells| ==> cells[j].key == Some(j) && cells[j].spec == ArrayDebug(children)[j]
  {
    KeyedCells(ArrayDebug(children), 0)
  }

  /** The key a body row gets: `keyExtractor(item, index)` when it is a
      function, otherwise the index. */
  function RowKeyOf<T>(keyExtractor: Option<(T, nat) -> string>, item: T, index: nat): (k: RowKey)
    ensures keyExtractor.Some? ==> k == Extracted(keyExtractor.value(item, index))
    ensures keyExtractor.None? ==> k == Index(index)
  {
    match keyExtractor
    case Some(f) => Extracted(f(item, index))
    case None => Index(index)
  }

  /** One body row: keyed by `RowKeyOf`, celled from what `build` returns. */
  function BuildRow<T>(item: T, index: nat, build: (T, nat) -> TableItem, keyExtractor: Option<(T, nat) -> string>): Row
  {
    Row(RowKeyOf(keyExtractor, item, index), RenderCells(build(item, index).children))
  }

  /** The body rows for `items`, the first at position `from`: exactly one row
      per item, in order, row `i` built from `items[i]` at position `from + i`. */
  function MapRows<T>(items: seq<T>, from: nat, build: (T, nat) -> TableItem, keyExtractor: Option<(T, nat) -> string>): (rows: seq<Row>)
    ensures |rows| == |items|
    ensures forall i :: 0 <= i < |items| ==> rows[i] == BuildRow(items[i], from + i, build, keyExtractor)
    decreases |items|
  {
    if items == [] then []
    else
      var rest := MapRows(items[1..], from + 1, build, keyExtractor);
      assert forall i :: 1 <= i < |items| ==> items[i] == items[1..][i - 1];
      [BuildRow(items[0], from, build, keyExtractor)] + rest
  }
}
