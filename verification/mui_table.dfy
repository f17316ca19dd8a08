/** `mui/CombinedTable.js`: head row, body rows with an optional placeholder
    for empty data, and footer row. */
module MuiTable {
  import opened Wrappers
  import opened JsValues
  import opened TableRows

  /** The props that shape the output; the styling props are left out. An
      absent `body`/`keyExtractor` stands for any value that is not a function. */
  datatype Props<!T> = Props(
    data: JsVal<T>,
    head: Option<TableItem>,
    body: Option<(T, nat) -> TableItem>,
    footer: Option<TableItem>,
    keyExtractor: Option<(T, nat) -> string>,
    emptyItem: Option<CellSpec>)

  /** The rows inside `TableHead`, `TableBody` and `TableFooter`. */
  datatype Table = Table(head: seq<Row>, body: seq<Row>, footer: seq<Row>)

  /** `_renderStatic`: one unkeyed row holding the item's cells when it is
      present, nothing otherwise. */
  function RenderStatic(params: Option<TableItem>): (rows: seq<Row>)
    ensures params.None? <==> rows == []
    ensures params.Some? ==> rows == [Row(Unkeyed, RenderCells(params.value.children))]
  {
    match params
    case Some(item) => [Row(Unkeyed, RenderCells(item.children))]
    case None => []
  }

  /** The empty-data row: one unkeyed cell whose `colSpan` defaults to the
      number of head cells, with `emptyItem`'s props spread over it so that its
      own `colSpan`, if any, wins. */
  function Placeholder(head: TableItem, emptyItem: CellSpec): (row: Row)
    ensures row.key == Unkeyed && |row.cells| == 1 && row.cells[0].key == None
    ensures emptyItem.colSpan.None? ==> row.cells[0].spec.colSpan == Some(|ArrayDebug(head.children)|)
    ensures emptyItem.colSpan.Some? ==> row.cells[0].spec == emptyItem
    ensures row.cells[0].spec.props == emptyItem.props
  {
    var colSpan := |ArrayDebug(head.children)|;
    Row(Unkeyed, [Cell(None, emptyItem.(colSpan := Some(emptyItem.colSpan.GetOr(colSpan))))])
  }

  /** `_renderBody`. */
  function RenderBody<T>(p: Props<T>): (rows: seq<Row>)
    ensures var items := ArrayDebug(p.data);
      |items| > 0 && p.body.Some? ==>
        && |rows| == |items|
        && forall i :: 0 <= i < |items| ==>
             rows[i] == Row(RowKeyOf(p.keyExtractor, items[i], i), RenderCells(p.body.value(items[i], i).children))
    ensures |ArrayDebug(p.data)| > 0 && p.body.None? ==> rows == []
    ensures |ArrayDebug(p.data)| == 0 && p.head.Some? && p.emptyItem.Some? ==>
      rows == [Placeholder(p.head.value, p.emptyItem.value)]
    ensures |ArrayDebug(p.data)| == 0 && (p.head.None? || p.emptyItem.None?) ==> rows == []
  {
    var items := ArrayDebug(p.data);
    if |items| > 0 then
      match p.body
      case Some(body) => MapRows(items, 0, body, p.keyExtractor)
      case None => []
    else if p.head.Some? && p.emptyItem.Some? then
      [Placeholder(p.head.value, p.emptyItem.value)]
    else
      []
  }

  /** `CombinedTable` with the container and styling stripped. */
  function CombinedTable<T>(p: Props<T>): (t: Table)
    ensures |t.head| == (if p.head.Some? then 1 else 0)
    ensures |t.footer| == (if p.footer.Some? then 1 else 0)
    ensures |ArrayDebug(p.data)| > 0 && p.body.Some? ==> |t.body| == |ArrayDebug(p.data)|
    ensures |ArrayDebug(p.data)| > 0 && p.body.None? ==> t.body == []
    ensures |ArrayDebug(p.data)| == 0 ==> |t.body| == (if p.head.Some? && p.emptyItem.Some? then 1 else 0)
  {
    Table(RenderStatic(p.head), RenderBody(p), RenderStatic(p.footer))
  }
}
