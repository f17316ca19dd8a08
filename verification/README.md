# Stacked alert dialog and combined table, modelled in Dafny

This project models the logic of two React helper components built on MUI:

- **`AlertProvider` / `useAlert` / `AlertModal`** (`mui/Alert.js`). Callers use
  `alert(title, contentText, actions)` or `notify(contentText, onClick, text)` to
  push a record onto a queue held by a reducer. One dialog shows the most recent
  record. While the dialog is open, clicking a button closes the top record and
  then runs its callback. During the closing fade the queue is already empty, so
  a click on a cached button pops nothing but still runs that callback.
  Closing pops the tail, so records come back in last-in-first-out order. A ref
  keeps a record around so the closing fade still has text to draw.
- **`CombinedTable`**, in two variants: `mui/CombinedTable.js` and the older
  `CombinedTable.js`. Each one maps props to a head row, body rows and, in the
  MUI variant, a footer row and an empty-data placeholder row.

Modules:

- `Wrappers`: `Option`, standing for a property that may be `undefined`. `GetOr` is JavaScript's `??`.
- `Alert`: the records and their defaults, `alert`/`notify`, the reducer (`Step`), the display rule (`View`), the buttons (`ResolveAction`, `ActionsMap`) and the click traces (`Activate`, `Dismiss`). It also has the provider over time: `Session` and `Apply` render once after each dispatch.
- `AlertProperties`: the round trips, LIFO order over whole traces, the fade cache invariant and the click behaviour.
- `JsValues`: `JsVal` (an array, or anything else) and `ArrayDebug`. Both table files define an identical `arrayDebug` (`mui/CombinedTable.js:119-121`, `CombinedTable.js:55-57`), and it is modelled once.
- `TableRows`: the abstract row and cell shapes, cell rendering and the row mapping that both variants share.
- `MuiTable`, `BasicTable`: the two variants.
- `TableProperties`: keys, the empty-data branch and how the two variants relate.

User callbacks are opaque `Callback` ids; `Noop` is the default `() => {}`. A click becomes the event trace `[Dispatch(Close), Invoke(id)]`. `body` and `keyExtractor` are `Option`s of total functions; `None` stands for any value that is not a function. The ref behind the fade is an explicit `cache` argument.

Facts about the code that shape the model:

- The queue is popped at the tail (`mui/Alert.js:127-130`), so it is LIFO.
- The ref is overwritten every time a render sees exactly one record (`mui/Alert.js:160-162`). The invariant this keeps is `AlertProperties.CacheIsBottom`: whenever the queue is non-empty, the ref holds its bottom record.
- A click always dispatches `close` first and then calls the callback (`mui/Alert.js:189-192`).
- `alert` applies `||` to every argument, so an empty title is replaced. In the same code, `??` at render time keeps an empty button text.

## Model

| member | source | states |
|---|---|---|
| Alert.OrElse | mui/Alert.js:73-75 | the JavaScript or-operator with a fallback, on an optional string: a present non-empty string is kept; an absent or empty one gives the fallback |
| Alert.MakeAlert | mui/Alert.js:69-78 | `alert` always yields a non-empty title: the given title if non-empty, else "通知". The content text is the given one, or "". The actions are the given array (kept even when empty), or the single default "確認"/contained action |
| Alert.Notify | mui/Alert.js:84-99 | `notify` uses the default title and passes the content text through unchanged. It builds exactly one action with the given text and callback, unfilled, and variant contained |
| Alert.Step | mui/Alert.js:122-135 | `open` grows the queue by one at the tail and keeps the prefix. `close` drops only the tail and yields [] on an empty queue. Any other action yields [] |
| Alert.View | mui/Alert.js:149-171 | the dialog is visible iff the queue is non-empty. It shows the tail of a non-empty queue, and the ref when the queue is empty. The ref becomes `data[0]` exactly when the queue has one record |
| Alert.Render | mui/Alert.js:198-206 | the drawn dialog is open iff the queue is non-empty. It carries the shown record's title and text, with one resolved button per action |
| Alert.ResolveAction | mui/Alert.js:180-197 | each of text, callback and variant is the action's own value when present (an empty text included), else "確認", the no-op or contained. The key is the position |
| Alert.ActionsMap | mui/Alert.js:204 | one button per action, in order, button `i` resolved from action `i` and keyed `i` |
| Alert.Activate | mui/Alert.js:189-192 | a click is exactly a `close` dispatch followed by one call of the button's callback |
| AlertProperties.DismissClosesOnly | mui/Alert.js:172-174 | the dialog's own close request dispatches exactly one `close`, so the queue loses its top record as after a click, but unlike a click it invokes no callback |
| Alert.Apply | mui/Alert.js:104-112 | a dispatch followed by its render: the queue is the reducer's result. The ref holds the only record when one remains, and is otherwise unchanged |
| AlertProperties.CloseUndoesOpen | mui/Alert.js:124-130 | `close` after `open` restores the earlier queue exactly |
| AlertProperties.OpenUndoesClose | mui/Alert.js:127-130 | re-opening the record `close` removed restores a non-empty queue, so `close` dropped only the tail |
| AlertProperties.OtherResets | mui/Alert.js:131-133 | an unknown action empties a queue of any length and hides the dialog |
| AlertProperties.RunOpens | mui/Alert.js:124-126 | opening `ds` in order appends `ds` after the existing queue |
| AlertProperties.RunCloses | mui/Alert.js:127-130 | `k` closes drop exactly the last `k` records, or everything when `k` exceeds the length |
| AlertProperties.OpensThenCloses | mui/Alert.js:122-135 | from empty, `k` opens and then `j <= k` closes leave the first `k - j` records. With `j = k` the queue is empty |
| AlertProperties.LastInFirstOut | mui/Alert.js:127-130 | after `j` closes the top record is the one opened just before the last removed one. The dialog stays visible and shows it until all records are closed |
| AlertProperties.OpensShowLatest | mui/Alert.js:164-165 | after opening `ds` from empty, the queue length equals the number of records opened and the dialog shows the latest record |
| AlertProperties.ApplyKeepsCacheIsBottom | mui/Alert.js:160-162 | one dispatch plus its render keeps the ref equal to the bottom record of a non-empty queue |
| AlertProperties.CacheIsBottomAlways | mui/Alert.js:149-162 | rendering after every dispatch keeps that invariant across any command trace |
| AlertProperties.FadeShowsBottom | mui/Alert.js:163-168 | when the last record is closed, or an unknown action empties the queue, the dialog hides but draws the former bottom record |
| AlertProperties.NewRequestReplacesFade | mui/Alert.js:160-165 | an `open` on an empty queue is shown at once and replaces the ref |
| AlertProperties.NoOpenStaysInitial | mui/Alert.js:149-153 | a trace without `open` leaves a fresh provider unchanged: the queue stays empty and the ref keeps the defaults |
| AlertProperties.ViewIdempotent | mui/Alert.js:154-171 | re-running the selection with the ref it wrote gives the same display, so memoising on `data` is harmless |
| AlertProperties.AlertWithNothingIsDefault | mui/Alert.js:51-55 | `alert()` with no arguments queues exactly `defaultAlertData` |
| AlertProperties.AlertFalsyArguments | mui/Alert.js:73-75 | an empty title becomes "通知", an empty text stays "", and an empty actions array is kept |
| AlertProperties.MakeAlertNormalForm | mui/Alert.js:69-78 | for every argument combination, feeding a built record's fields back into `alert` rebuilds the same record, so defaults are applied once and never stack |
| AlertProperties.AlertDefaultButton | mui/Alert.js:69-77 | `alert` without actions renders an open dialog whose title is the given non-empty title or "通知", never empty, with exactly one "確認" contained button calling the no-op |
| AlertProperties.NotifyButton | mui/Alert.js:180-184 | the rendered `notify` dialog is open with the default title and the given text. It has one contained button whose text is the given text (even "") or "確認", and whose callback is the given one or the no-op |
| AlertProperties.ActivateClosesThenCalls | mui/Alert.js:189-192 | a click dispatches exactly one `close` and invokes exactly the button's callback. Its effect on the queue is one `close` |
| AlertProperties.NotifyRoundTrip | mui/Alert.js:84-99 | `notify(text, cb, "OK")` renders one "OK" button. Clicking it calls `cb` once and returns the queue to what it was before |
| AlertProperties.FadeClickCallsAgain | mui/Alert.js:189-192 | a click on a button drawn from the cached record while the queue is empty leaves the queue empty and still invokes that button's callback once |
| JsValues.ArrayDebug | mui/CombinedTable.js:119-121 | an array is returned unchanged; every non-array becomes [] |
| JsValues.ArrayDebugIdempotent | mui/CombinedTable.js:119-121 | normalising an already normalised value changes nothing |
| JsValues.ArrayDebugEmpty | mui/CombinedTable.js:119-121 | the result is empty exactly for a non-array or an empty array |
| TableRows.KeyedCells | mui/CombinedTable.js:71-73 | cell `j` carries child `j`'s props and key `from + j` |
| TableRows.RenderCells | mui/CombinedTable.js:71-73 | a row has exactly as many cells as its normalised children, cell `j` built from child `j` and keyed `j`. Non-array children give no cells |
| TableRows.RowKeyOf | mui/CombinedTable.js:65-68 | the row key is `keyExtractor(item, index)` when it is a function, else the index |
| TableRows.MapRows | mui/CombinedTable.js:63-76 | exactly one row per item, in order: row `i` is keyed by `RowKeyOf` and its cells come from the builder applied to item `i` at position `from + i` |
| MuiTable.RenderStatic | mui/CombinedTable.js:104-117 | a present head or footer gives exactly one unkeyed row of its cells; an absent one gives none |
| MuiTable.Placeholder | mui/CombinedTable.js:82-88 | the placeholder is one row with one unkeyed cell. Its colSpan is the head's child count unless `emptyItem` sets its own, which wins |
| MuiTable.RenderBody | mui/CombinedTable.js:59-93 | non-empty data with a function `body` gives one row per element, in order, from `body(item, i)`. With a non-function `body` it gives none. Empty or non-array data gives the single placeholder iff head and `emptyItem` are both present, else none |
| MuiTable.CombinedTable | mui/CombinedTable.js:94-102 | the head and footer sections each hold one row exactly when their prop is present. The body holds one row per element for non-empty data with a function `body`, none with a non-function `body`, and for empty data one row iff head and `emptyItem` are both present |
| BasicTable.RenderHead | CombinedTable.js:59-71 | a present head gives exactly one unkeyed row whose cell `j` is built from normalised child `j` and keyed `j`; an absent one gives none |
| BasicTable.RenderBody | CombinedTable.js:73-91 | a function `body` gives one row per normalised element, in order, from `body(item)` without the index (none for empty or non-array data). A non-function `body` gives none |
| BasicTable.CombinedTable | CombinedTable.js:92-99 | the head section holds one row exactly when `head` is present. The body holds one row per normalised element when `body` is a function, and none otherwise |
| TableProperties.CellKeysDistinct | mui/CombinedTable.js:71-73 | cell keys within a row are pairwise distinct |
| TableProperties.PositionalRowKeys | mui/CombinedTable.js:65-68 | without `keyExtractor`, body row `i` is keyed `i`, hence the keys are distinct: in the older variant whenever `body` is a function, in the MUI variant when the data is non-empty and `body` is a function (its empty-data placeholder row has no key) |
| TableProperties.HeadsAgree | CombinedTable.js:59-71 | both variants render a head identically |
| TableProperties.BodiesAgreeOnData | CombinedTable.js:73-91 | on non-empty data the older variant's body rows equal the MUI variant's when `body` ignores its index |
| TableProperties.BodiesDifferOnEmpty | mui/CombinedTable.js:80-91 | on empty data with a head and an `emptyItem`, the MUI variant draws one placeholder row and the older variant draws none |
| TableProperties.ThreeRowsInOrder | mui/CombinedTable.js:60-76 | with no `keyExtractor`, data `[a, b, c]` gives exactly three rows, in order, row `i` from `f(item, i)` and keyed `i` |
| TableProperties.PlaceholderSpansHead | mui/CombinedTable.js:80-91 | empty or non-array data under a two-cell head gives one placeholder spanning 2 when an `emptyItem` without its own `colSpan` is given, one spanning the `emptyItem`'s own `colSpan` when it has one, and no rows without an `emptyItem` |

## Left out

- React plumbing (`createContext`/`useContext`, `useReducer`, `memo`, `useMemo`, `useRef`, `useCallback`): the reducer state and the ref are explicit values, and `View` is the memoised computation.
- Batching: React may apply several dispatches before one render. The model renders once per dispatch (`Alert.Apply`), so a queue that jumps from 0 to 2 records without a render in between is not modelled. That case leaves the ref stale.
- `useAlert` outside any provider dispatches to the context default `() => {}` and does nothing; the model assumes a provider.
- The in-place `state.pop()` on the previous state array (`mui/Alert.js:129`): only the returned sequence is modelled.
- The effects of user callbacks (`onClick`, `body`, `keyExtractor`): they are opaque ids or uninterpreted total functions.
- MUI components, the JSX tree, the fade animation and its timing, and every pass-through styling prop (`tableProps`, `tableContainerProps`, `tableHeadProps`, `tableBodyProps`, `tableFooterProps`, and a row's other props `otherBody`/`otherHead`).
- React key uniqueness and reconciliation. The key `action-${index}` is modelled as the index, and a numeric key and a string key are kept apart even though React compares them as strings.
- General JavaScript truthiness: strings are present, absent or empty. Non-string titles, non-object records and a `colSpan` own property explicitly set to `undefined` (which the spread would also copy over) are not modelled.
- Render-time TypeErrors are excluded by the types: a `body` returning `null`/`undefined` makes the destructuring throw (`mui/CombinedTable.js:64`, `CombinedTable.js:76`), a truthy non-array `actions` passes `||` and then `actions.map` throws (`mui/Alert.js:75`, `mui/Alert.js:204`), and a `null` entry in `actions` makes `item.text` throw (`mui/Alert.js:182`). `build` always returns a `TableItem`, `actions` is an `Option<seq<AlertAction>>` and every entry is an `AlertAction`, so none of these throws is modelled.
