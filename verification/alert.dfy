/** The stacked alert dialog of `mui/Alert.js`: the records a caller builds with
    `alert`/`notify`, the reducer that keeps the queue of pending records, the
    rule that picks what the single dialog shows, and the buttons it renders.

    React hooks are replaced by explicit values: the reducer state is a
    `seq<AlertData>`, the ref that smooths the closing fade is a `cache`
    argument threaded through `View`, and user callbacks are opaque ids. */
module Alert {
  import opened Wrappers

  /** Identity of a button callback; `Noop` is the default `() => {}`. */
  datatype Callback = Noop | User(id: nat)

  /** The MUI button variants a caller may ask for. */
  datatype Variant = Text | Outlined | Contained

  /** One entry of a record's `actions`; every field may be absent. */
  datatype AlertAction = AlertAction(text: Option<string>, onClick: Option<Callback>, variant: Option<Variant>)

  /** One pending alert. `title` is always a string once built by `alert` or
      `notify`; `contentText` is passed through unchanged by `notify` and so may
      be absent. */
  datatype AlertData = AlertData(title: string, contentText: Option<string>, actions: seq<AlertAction>)

  const DefaultTitle: string := "通知"
  const DefaultContentText: string := ""
  const DefaultButtonText: string := "確認"
  const DefaultAction: AlertAction := AlertAction(Some(DefaultButtonText), Some(Noop), Some(Contained))

  /** `defaultAlertData`: the record the dialog shows before anything was queued. */
  const DefaultAlertData: AlertData := AlertData(DefaultTitle, Some(DefaultContentText), [DefaultAction])

  /** JavaScript truthiness of an optional string: absent and "" are falsy. */
  predicate Truthy(s: Option<string>)
  {
    s.Some? && s.value != ""
  }

  /** JavaScript `s || fallback` for an optional string. */
  function OrElse(s: Option<string>, fallback: string): (r: string)
    ensures Truthy(s) ==> r == s.value
    ensures !Truthy(s) ==> r == fallback
  {
    if Truthy(s) then s.value else fallback
  }

  /** The record `alert(title, contentText, actions)` queues. Every argument
      goes through `||`: an absent or empty title or text takes the default;
      `actions`, being an array when present, is kept even when empty. */
  function MakeAlert(title: Option<string>, contentText: Option<string>, actions: Option<seq<AlertAction>>): (r: AlertData)
    ensures r.title != ""
    ensures Truthy(title) ==> r.title == title.value
    ensures !Truthy(title) ==> r.title == DefaultTitle
    ensures r.contentText == Some(contentText.GetOr(""))
    ensures r.actions == actions.GetOr([DefaultAction])
  {
    AlertData(OrElse(title, DefaultTitle),
              Some(OrElse(contentText, DefaultContentText)),
              match actions case Some(a) => a case None => DefaultAlertData.actions)
  }

  /** The record `notify(contentText, onClick, text)` queues: the default title,
      the text as given, and one "contained" action carrying exactly the given
      `text` and `onClick` (absent ones are filled in only when rendered). */
  function Notify(contentText: Option<string>, onClick: Option<Callback>, text: Option<string>): (r: AlertData)
    ensures r.title == DefaultTitle
    ensures r.contentText == contentText
    ensures |r.actions| == 1
    ensures r.actions[0].text == text && r.actions[0].onClick == onClick
    ensures r.actions[0].variant == Some(Contained)
  {
    AlertData(DefaultAlertData.title, contentText,
              [AlertAction(text := text, variant := DefaultAlertData.actions[0].variant, onClick := onClick)])
  }

  // ---------------------------------------------------------------------------
  // The reducer

  /** A dispatched reducer action: `open` with its record, `close`, or any
      other `type`. */
  datatype Command = Open(data: AlertData) | Close | Other

  /** `alertDataReducer`: `open` pushes at the tail, `close` pops the tail (a
      no-op on an empty queue, as `pop` is), anything else resets to empty. */
  function Step(queue: seq<AlertData>, cmd: Command): (r: seq<AlertData>)
    ensures cmd.Open? ==> |r| == |queue| + 1 && r[..|queue|] == queue && r[|queue|] == cmd.data
    ensures cmd.Close? && |queue| > 0 ==> |r| == |queue| - 1 && queue == r + [queue[|queue| - 1]]
    ensures cmd.Close? && |queue| == 0 ==> r == []
    ensures cmd.Other? ==> r == []
  {
    match cmd
    case Open(d) => queue + [d]
    case Close => if |queue| == 0 then [] else queue[..|queue| - 1]
    case Other => []
  }

  /** The queue after dispatching `cmds` in order. */
  function Run(queue: seq<AlertData>, cmds: seq<Command>): seq<AlertData>
    decreases |cmds|
  {
    if cmds == [] then queue else Run(Step(queue, cmds[0]), cmds[1..])
  }

  // ---------------------------------------------------------------------------
  // What the dialog shows

  /** One evaluation of the dialog: whether it is open, which record it draws,
      and the value the ref holds afterwards. */
  datatype Display = Display(visible: bool, shown: AlertData, cache: AlertData)

  /** `AlertModal`'s selection: the ref is overwritten with `data[0]` exactly
      when the queue holds one record; a non-empty queue shows its tail and an
      empty one shows the ref, so the closing fade keeps its text; the dialog is
      open exactly when the queue is non-empty. */
  function View(queue: seq<AlertData>, cache: AlertData): (r: Display)
    ensures r.visible <==> |queue| > 0
    ensures |queue| > 0 ==> r.shown == queue[|queue| - 1]
    ensures |queue| == 0 ==> r.shown == cache
    ensures |queue| == 1 ==> r.cache == queue[0]
    ensures |queue| != 1 ==> r.cache == cache
  {
    var cache' := if |queue| == 1 then queue[0] else cache;
    var shown := if |queue| > 0 then queue[|queue| - 1] else cache';
    Display(|queue| > 0, shown, cache')
  }

  // ---------------------------------------------------------------------------
  // Buttons and their activation

  /** A rendered action button: `key` is the index behind `action-${index}`. */
  datatype Button = Button(key: nat, text: string, variant: Variant, onClick: Callback)

  /** `actionsMap` on one entry: each absent field takes the default action's
      value through `??`, so an empty-string text is kept. */
  function ResolveAction(item: AlertAction, index: nat): (b: Button)
    ensures b.key == index
    ensures item.text.Some? ==> b.text == item.text.value
    ensures item.text.None? ==> b.text == DefaultButtonText
    ensures item.onClick.Some? ==> b.onClick == item.onClick.value
    ensures item.onClick.None? ==> b.onClick == Noop
    ensures item.variant.Some? ==> b.variant == item.variant.value
    ensures item.variant.None? ==> b.variant == Contained
  {
    var d := DefaultAlertData.actions[0];
    Button(index, item.text.GetOr(d.text.value), item.variant.GetOr(d.variant.value), item.onClick.GetOr(d.onClick.value))
  }

  /** `actions.map(actionsMap)`: one button per action, in order, keyed by position. */
  function ActionsMap(actions: seq<AlertAction>): (bs: seq<Button>)
    ensures |bs| == |actions|
    ensures forall i :: 0 <= i < |bs| ==> bs[i].key == i
    ensures forall i :: 0 <= i < |bs| ==> bs[i] == ResolveAction(actions[i], i)
  {
    seq(|actions|, i requires 0 <= i < |actions| => ResolveAction(actions[i], i))
  }

  /** What a click sets off, in order: a reducer dispatch or a user callback. */
  datatype Event = Dispatch(cmd: Command) | Invoke(callback: Callback)

  /** A button's `onClick`: close the dialog first, then run the callback. */
  function Activate(b: Button): (trace: seq<Event>)
    ensures |trace| == 2
    ensures trace[0] == Dispatch(Close) && trace[1] == Invoke(b.onClick)
  {
    [Dispatch(Close), Invoke(b.onClick)]
  }

  /** The dialog's own `onClose` (backdrop or escape): close only. */
  function Dismiss(): (trace: seq<Event>)
    ensures trace == [Dispatch(Close)]
  {
    [Dispatch(Close)]
  }

  /** The queue after the dispatches in `trace`; callbacks leave it alone. */
  function ApplyEvents(queue: seq<AlertData>, trace: seq<Event>): seq<AlertData>
    decreases |trace|
  {
    if trace == [] then queue
    else
      var q := if trace[0].Dispatch? then Step(queue, trace[0].cmd) else queue;
      ApplyEvents(q, trace[1..])
  }

  /** The callbacks `trace` invokes, in order. */
  function Invoked(trace: seq<Event>): seq<Callback>
    decreases |trace|
  {
    if trace == [] then []
    else (if trace[0].Invoke? then [trace[0].callback] else []) + Invoked(trace[1..])
  }

  /** The dialog as drawn: open flag, the shown record's text and its buttons. */
  datatype Modal = Modal(open: bool, title: string, contentText: Option<string>, buttons: seq<Button>)

  /** One render of `AlertModal` from the queue and the ref. */
  function Render(queue: seq<AlertData>, cache: AlertData): (m: Modal)
    ensures m.open <==> |queue| > 0
    ensures var d := if |queue| > 0 then queue[|queue| - 1] else cache;
      && m.title == d.title
      && m.contentText == d.contentText
      && |m.buttons| == |d.actions|
      && forall i :: 0 <= i < |m.buttons| ==> m.buttons[i] == ResolveAction(d.actions[i], i)
  {
    var v := View(queue, cache);
    Modal(v.visible, v.shown.title, v.shown.contentText, ActionsMap(v.shown.actions))
  }

  // ---------------------------------------------------------------------------
  // The provider over time

  /** The provider's state between renders: the reducer's queue and the ref. */
  datatype Session = Session(queue: seq<AlertData>, cache: AlertData)

  /** A fresh provider: empty queue, ref holding the defaults. */
  const Initial: Session := Session([], DefaultAlertData)

  /** One dispatch followed by the render it causes. */
  function Apply(s: Session, cmd: Command): (s': Session)
    ensures s'.queue == Step(s.queue, cmd)
    ensures |s'.queue| == 1 ==> s'.cache == s'.queue[0]
    ensures |s'.queue| != 1 ==> s'.cache == s.cache
  {
    var q := Step(s.queue, cmd);
    Session(q, View(q, s.cache).cache)
  }

  /** The provider after dispatching `cmds` in order, rendering after each. */
  function ApplyAll(s: Session, cmds: seq<Command>): Session
    decreases |cmds|
  {
    if cmds == [] then s else ApplyAll(Apply(s, cmds[0]), cmds[1..])
  }
}
