/** `CombinedTable.js`, the earlier variant: head row and body rows only; `body`
    receives the item without its index, and there is no placeholder for empty
    data and no footer. */
module BasicTable {
  import opened Wrappers
  import opened JsValues
  import opened TableRows

  /** The props that shape the output; the styling props are left out. */
  datatype Props<!T> = Props(
    data: JsVal<T>,
    head: Option<TableItem>,
    body: Option<T -> TableItem>,
    keyExtractor: Option<(T, nat) -> string>)

  datatype Table = Table(head: seq<Row>, body: seq<Row>)

  /** `renderHead`: one unkeyed row holding the head's cells when it is
      present, nothing otherwise. */
  function RenderHead(head: Option<TableItem>): (rows: seq<Row>)
    ensures head.None? <==> rows == []
    ensures head.Some? ==> rows == [Row(Unkeyed, RenderCells(head.value.children))]
  {
    if head.Some? then [Row(Unkeyed, RenderCells(head.value.children))] else []
  }

  /** `renderBody`: with a function `body`, one row per normalised element, in
      order, built from `body(item)` alone; otherwise no rows. */
  function RenderBody<T>(p: Props<T>): (rows: seq<Row>)
    ensures p.body.None? ==> rows == []
    ensures var items := ArrayDebug(p.data);
      p.body.Some? ==>
        && |rows| == |items|
        && forall i :: 0 <= i < |items| ==>
             rows[i] == Row(RowKeyOf(p.keyExtractor, items[i], i), RenderCells(p.body.value(items[i]).children))
  {
    match p.body
    case Some(body) => MapRows(ArrayDebug(p.data), 0, (item, _) => body(item), p.keyExtractor)
    case None => []
  }

  /** `CombinedTable` with the container and styling stripped. */
  function CombinedTable<T>(p: Props<T>): (t: Table)
    ensures |t.head| == (if p.head.Some? then 1 else 0)
    ensures p.body.Some? ==> |t.body| == |ArrayDebug(p.data)|
    ensures p.body.None? ==> t.body == []
  {
    Table(RenderHead(p.head), RenderBody(p))
  }
}
