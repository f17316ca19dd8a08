/** Properties of the two table components: keys, the empty-data branch, and
    how the two variants relate. */
module TableProperties {
  import opened Wrappers
  import opened JsValues
  import opened TableRows
  import MuiTable
  import BasicTable

  /** Cell keys within one row are distinct: they are the positions 0..n-1. */
  lemma CellKeysDistinct(children: JsVal<CellSpec>)
    ensures var cells := RenderCells(children);
      forall i, j :: 0 <= i < j < |cells| ==> cells[i].key != cells[j].key
  {
  }

  /** Without a `keyExtractor` the body rows are keyed by position, in either
      variant, as long as the MUI variant has data and a function `body` (its
      empty-data placeholder row carries no key). */
  lemma PositionalRowKeys<T>(p: MuiTable.Props<T>, q: BasicTable.Props<T>)
    requires p.keyExtractor.None? && q.keyExtractor.None?
    requires |ArrayDebug(p.data)| > 0 && p.body.Some?
    requires q.body.Some?
    ensures var rows := MuiTable.RenderBody(p);
      forall i :: 0 <= i < |rows| ==> rows[i].key == Index(i)
    ensures var rows := BasicTable.RenderBody(q);
      forall i :: 0 <= i < |rows| ==> rows[i].key == Index(i)
  {
  }

  /** Both variants render a head the same way. */
  lemma HeadsAgree(head: Option<TableItem>)
    ensures MuiTable.RenderStatic(head) == BasicTable.RenderHead(head)
  {
  }

  /** The MUI props that pass the basic variant's index-free `body` through. */
  function Lift<T(!new)>(q: BasicTable.Props<T>, footer: Option<TableItem>, emptyItem: Option<CellSpec>): (p: MuiTable.Props<T>)
    ensures p.data == q.data && p.head == q.head && p.keyExtractor == q.keyExtractor
    ensures q.body.None? <==> p.body.None?
    ensures q.body.Some? ==> forall x, i :: p.body.value(x, i) == q.body.value(x)
  {
    var body := match q.body
      case Some(f) => Some((x: T, _: nat) => f(x))
      case None => None;
    MuiTable.Props(q.data, q.head, body, footer, q.keyExtractor, emptyItem)
  }

  /** On non-empty data the two variants produce the same body rows when the
      MUI `body` ignores its index; they differ only on empty data. */
  lemma BodiesAgreeOnData<T(!new)>(q: BasicTable.Props<T>, footer: Option<TableItem>, emptyItem: Option<CellSpec>)
    requires |ArrayDebug(q.data)| > 0
    ensures MuiTable.RenderBody(Lift(q, footer, emptyItem)) == BasicTable.RenderBody(q)
  {
    var p := Lift(q, footer, emptyItem);
    var a := MuiTable.RenderBody(p);
    var b := BasicTable.RenderBody(q);
    if q.body.Some? {
      assert |a| == |b|;
      forall i | 0 <= i < |a|
        ensures a[i] == b[i]
      {
        var x := ArrayDebug(q.data)[i];
        assert p.body.value(x, i) == q.body.value(x);
      }
    }
  }

  /** On empty data, only the MUI variant draws the placeholder row. */
  lemma BodiesDifferOnEmpty<T(!new)>(q: BasicTable.Props<T>, footer: Option<TableItem>, emptyItem: CellSpec)
    requires |ArrayDebug(q.data)| == 0 && q.head.Some?
    ensures |MuiTable.RenderBody(Lift(q, footer, Some(emptyItem)))| == 1
    ensures BasicTable.RenderBody(q) == []
  {
  }

  /** Data `[a, b, c]` with a row mapper `f` and no `keyExtractor`: three rows,
      in input order, row `i` built from `f(item, i)` and keyed `i`. */
  lemma ThreeRowsInOrder<T>(a: T, b: T, c: T, f: (T, nat) -> TableItem)
    ensures var rows := MuiTable.RenderBody(MuiTable.Props(Arr([a, b, c]), None, Some(f), None, None, None));
      rows == [Row(Index(0), RenderCells(f(a, 0).children)),
               Row(Index(1), RenderCells(f(b, 1).children)),
               Row(Index(2), RenderCells(f(c, 2).children))]
  {
  }

  /** Empty data under a two-cell head: with an `emptyItem` lacking `colSpan`,
      one placeholder row whose single cell spans 2; with its own `colSpan`,
      that span wins; without an `emptyItem`, no rows. The
      same holds for data that is not an array at all. */
  lemma PlaceholderSpansHead<T>(h1: CellSpec, h2: CellSpec, props: map<string, string>, n: int, data: JsVal<T>, body: Option<(T, nat) -> TableItem>)
    requires data == Arr([]) || data == NonArray
    ensures var rows := MuiTable.RenderBody(MuiTable.Props(data, Some(TableItem(Arr([h1, h2]))), body, None, None, Some(CellSpec(None, props))));
      |rows| == 1 && |rows[0].cells| == 1 && rows[0].cells[0].spec.colSpan == Some(2)
    ensures var rows := MuiTable.RenderBody(MuiTable.Props(data, Some(TableItem(Arr([h1, h2]))), body, None, None, Some(CellSpec(Some(n), props))));
      |rows| == 1 && |rows[0].cells| == 1 && rows[0].cells[0].spec.colSpan == Some(n)
    ensures MuiTable.RenderBody(MuiTable.Props(data, Some(TableItem(Arr([h1, h2]))), body, None, None, None)) == []
  {
  }
}
