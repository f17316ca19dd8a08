/** Properties of the alert queue model: the reducer's round trips, LIFO order
    over whole traces, the closing-fade cache, and what one button click does. */
module AlertProperties {
  import opened Wrappers
  import opened Alert

  // ---------------------------------------------------------------------------
  // One step at a time

  /** `close` undoes `open`: whatever was queued before is back, unchanged. */
  lemma CloseUndoesOpen(queue: seq<AlertData>, d: AlertData)
    ensures Step(Step(queue, Open(d)), Close) == queue
  {
    assert Step(queue, Open(d))[..|queue|] == queue;
  }

  /** Re-opening the record `close` removed restores the queue: `close` drops
      exactly the tail and nothing else. */
  lemma OpenUndoesClose(queue: seq<AlertData>)
    requires |queue| > 0
    ensures Step(Step(queue, Close), Open(queue[|queue| - 1])) == queue
  {
  }

  /** An unknown action type empties the queue whatever its length, and the
      dialog closes. */
  lemma OtherResets(queue: seq<AlertData>, cache: AlertData)
    ensures Step(queue, Other) == []
    ensures !View(Step(queue, Other), cache).visible
  {
  }

  // ---------------------------------------------------------------------------
  // Traces

  /** `open` for each record of `ds`, in order. */
  function Opens(ds: seq<AlertData>): (cmds: seq<Command>)
    ensures |cmds| == |ds|
    ensures forall i :: 0 <= i < |ds| ==> cmds[i] == Open(ds[i])
  {
    seq(|ds|, i requires 0 <= i < |ds| => Open(ds[i]))
  }

  /** `k` successive `close` actions. */
  function Closes(k: nat): (cmds: seq<Command>)
    ensures |cmds| == k
    ensures forall i :: 0 <= i < k ==> cmds[i] == Close
  {
    seq(k, _ => Close)
  }

  lemma {:induction false} RunAppend(queue: seq<AlertData>, a: seq<Command>, b: seq<Command>)
    ensures Run(queue, a + b) == Run(Run(queue, a), b)
    decreases |a|
  {
    if a == [] {
      assert a + b == b;
    } else {
      assert (a + b)[1..] == a[1..] + b;
      RunAppend(Step(queue, a[0]), a[1..], b);
    }
  }

  /** Opening the records `ds` appends them, in order, after what was queued. */
  lemma {:induction false} RunOpens(queue: seq<AlertData>, ds: seq<AlertData>)
    ensures Run(queue, Opens(ds)) == queue + ds
    decreases |ds|
  {
    if ds != [] {
      var cmds := Opens(ds);
      assert cmds[1..] == Opens(ds[1..]);
      RunOpens(queue + [ds[0]], ds[1..]);
      assert queue + [ds[0]] + ds[1..] == queue + ds;
    }
  }

  /** `k` closes drop the last `k` records (all of them when `k` is larger). */
  lemma {:induction false} RunCloses(queue: seq<AlertData>, k: nat)
    ensures k <= |queue| ==> Run(queue, Closes(k)) == queue[..|queue| - k]
    ensures k > |queue| ==> Run(queue, Closes(k)) == []
    decreases k
  {
    if k > 0 {
      assert Closes(k)[1..] == Closes(k - 1);
      var q := Step(queue, Close);
      RunCloses(q, k - 1);
      if |queue| > 0 {
        assert q == queue[..|queue| - 1];
        if k <= |queue| {
          assert q[..|q| - (k - 1)] == queue[..|queue| - k];
        }
      }
    }
  }

  /** From an empty queue, `k` opens followed by `j <= k` closes leave the first
      `k - j` records; in particular equal numbers return to empty. */
  lemma OpensThenCloses(ds: seq<AlertData>, j: nat)
    requires j <= |ds|
    ensures Run([], Opens(ds) + Closes(j)) == ds[..|ds| - j]
    ensures j == |ds| ==> Run([], Opens(ds) + Closes(j)) == []
  {
    RunAppend([], Opens(ds), Closes(j));
    RunOpens([], ds);
    assert [] + ds == ds;
    RunCloses(ds, j);
  }

  /** LIFO: after `j` closes on the stack `ds`, the record on top is the one
      opened immediately before the last record removed, and the dialog stays
      open until exactly `|ds|` closes have been dispatched. */
  lemma LastInFirstOut(ds: seq<AlertData>, j: nat, cache: AlertData)
    requires 0 < j < |ds|
    ensures var q := Run([], Opens(ds) + Closes(j));
      && |q| == |ds| - j
      && q[|q| - 1] == ds[|ds| - j - 1]
      && Run(q, [Close]) == ds[..|ds| - j - 1]
      && View(q, cache).visible
      && View(q, cache).shown == ds[|ds| - j - 1]
  {
    OpensThenCloses(ds, j);
    OpensThenCloses(ds, j + 1);
    var q := Run([], Opens(ds) + Closes(j));
    assert Run(q, [Close]) == Step(q, Close);
  }

  /** After opening the non-empty `ds` from empty, the dialog is open and shows
      the most recent record. */
  lemma OpensShowLatest(ds: seq<AlertData>, cache: AlertData)
    requires |ds| > 0
    ensures var q := Run([], Opens(ds));
      |q| == |ds| && View(q, cache).visible && View(q, cache).shown == ds[|ds| - 1]
  {
    RunOpens([], ds);
    assert [] + ds == ds;
  }

  // ---------------------------------------------------------------------------
  // The closing-fade cache

  /** Between renders, whenever the queue is non-empty, the ref holds its bottom
      record, the one the dialog showed when it opened. */
  ghost predicate CacheIsBottom(s: Session)
  {
    |s.queue| > 0 ==> s.cache == s.queue[0]
  }

  lemma ApplyKeepsCacheIsBottom(s: Session, cmd: Command)
    requires CacheIsBottom(s)
    ensures CacheIsBottom(Apply(s, cmd))
  {
    var s' := Apply(s, cmd);
    if |s'.queue| > 1 {
      assert s'.queue[0] == s.queue[0];
    }
  }

  /** Rendering after every dispatch keeps the ref on the bottom record, from a
      fresh provider onwards. */
  lemma {:induction false} CacheIsBottomAlways(s: Session, cmds: seq<Command>)
    requires CacheIsBottom(s)
    ensures CacheIsBottom(ApplyAll(s, cmds))
    decreases |cmds|
  {
    if cmds != [] {
      ApplyKeepsCacheIsBottom(s, cmds[0]);
      CacheIsBottomAlways(Apply(s, cmds[0]), cmds[1..]);
    }
  }

  /** When the last record is closed, or an unknown action empties the queue,
      the dialog closes but keeps drawing the bottom record during the fade
      rather than the defaults or an empty box. */
  lemma FadeShowsBottom(s: Session, cmd: Command)
    requires CacheIsBottom(s) && |s.queue| > 0
    requires cmd.Other? || (cmd.Close? && |s.queue| == 1)
    ensures var s' := Apply(s, cmd);
      && s'.queue == []
      && !View(s'.queue, s'.cache).visible
      && View(s'.queue, s'.cache).shown == s.queue[0]
  {
  }

  /** A new request after the queue emptied is shown at once; the cached record
      is not drawn again. */
  lemma NewRequestReplacesFade(s: Session, d: AlertData)
    requires s.queue == []
    ensures var s' := Apply(s, Open(d));
      View(s'.queue, s'.cache).visible && View(s'.queue, s'.cache).shown == d && s'.cache == d
  {
  }

  /** Without any `open`, a fresh provider never leaves its initial state: the
      fade would draw the defaults. */
  lemma {:induction false} NoOpenStaysInitial(cmds: seq<Command>)
    requires forall i :: 0 <= i < |cmds| ==> !cmds[i].Open?
    ensures ApplyAll(Initial, cmds) == Initial
    decreases |cmds|
  {
    if cmds != [] {
      assert Apply(Initial, cmds[0]) == Initial;
      NoOpenStaysInitial(cmds[1..]);
    }
  }

  /** Re-evaluating the selection with the ref it just wrote changes nothing, so
      skipping the evaluation while `data` is unchanged is harmless. */
  lemma ViewIdempotent(queue: seq<AlertData>, cache: AlertData)
    ensures View(queue, View(queue, cache).cache) == View(queue, cache)
  {
  }

  // ---------------------------------------------------------------------------
  // Building records

  /** `alert()` with nothing queues exactly the default record. */
  lemma AlertWithNothingIsDefault()
    ensures MakeAlert(None, None, None) == DefaultAlertData
  {
  }

  /** `||` treats an empty title like a missing one; an empty `actions` array
      is truthy and kept, so the dialog then has no buttons. */
  lemma AlertFalsyArguments(contentText: Option<string>)
    ensures MakeAlert(Some(""), contentText, None).title == DefaultTitle
    ensures MakeAlert(None, Some(""), None).contentText == Some("")
    ensures MakeAlert(None, contentText, Some([])).actions == []
  {
  }

  /** A record built by `alert` is a fixed point of `alert`: feeding its own
      fields back in rebuilds it unchanged, so the defaults are applied once. */
  lemma MakeAlertNormalForm(title: Option<string>, contentText: Option<string>, actions: Option<seq<AlertAction>>)
    ensures var r := MakeAlert(title, contentText, actions);
      MakeAlert(Some(r.title), r.contentText, Some(r.actions)) == r
  {
  }

  /** `alert` without `actions`, once rendered: an open dialog with a non-empty
      title and exactly one "確認" contained button calling the no-op. */
  lemma AlertDefaultButton(queue: seq<AlertData>, cache: AlertData, title: Option<string>, contentText: Option<string>)
    ensures var m := Render(Step(queue, Open(MakeAlert(title, contentText, None))), cache);
      && m.open
      && m.title != ""
      && m.title == OrElse(title, DefaultTitle)
      && |m.buttons| == 1
      && m.buttons[0] == Button(0, DefaultButtonText, Contained, Noop)
  {
  }

  /** The single button `notify` produces, once rendered: `??` fills an absent
      text or callback from the default action but keeps an empty text. */
  lemma NotifyButton(queue: seq<AlertData>, cache: AlertData, contentText: Option<string>, onClick: Option<Callback>, text: Option<string>)
    ensures var m := Render(Step(queue, Open(Notify(contentText, onClick, text))), cache);
      && m.open
      && m.title == DefaultTitle
      && m.contentText == contentText
      && |m.buttons| == 1
      && m.buttons[0].text == text.GetOr(DefaultButtonText)
      && m.buttons[0].onClick == onClick.GetOr(Noop)
      && m.buttons[0].variant == Contained
  {
  }

  // ---------------------------------------------------------------------------
  // Clicking a button

  /** The dispatches in `trace` that are `close`. */
  function CloseCount(trace: seq<Event>): nat
    decreases |trace|
  {
    if trace == [] then 0 else (if trace[0] == Dispatch(Close) then 1 else 0) + CloseCount(trace[1..])
  }

  /** A click dispatches exactly one `close`, then runs its callback exactly
      once: the queue loses its tail and nothing else happens to it. */
  lemma ActivateClosesThenCalls(queue: seq<AlertData>, b: Button)
    ensures CloseCount(Activate(b)) == 1
    ensures Invoked(Activate(b)) == [b.onClick]
    ensures ApplyEvents(queue, Activate(b)) == Step(queue, Close)
  {
    var t := Activate(b);
    assert t[1..] == [Invoke(b.onClick)];
    assert t[1..][1..] == [];
    assert CloseCount(t[1..]) == 0;
    assert Invoked(t[1..]) == [b.onClick];
    assert ApplyEvents(Step(queue, Close), t[1..]) == Step(queue, Close);
  }

  /** `notify(text, cb, "OK")` on top of `queue`: one "OK" button whose click
      calls `cb` once and leaves exactly the earlier queue. */
  lemma NotifyRoundTrip(queue: seq<AlertData>, cache: AlertData, contentText: Option<string>, cb: Callback)
    ensures var q := Step(queue, Open(Notify(contentText, Some(cb), Some("OK"))));
      var m := Render(q, cache);
      && |m.buttons| == 1
      && m.buttons[0].text == "OK"
      && Invoked(Activate(m.buttons[0])) == [cb]
      && ApplyEvents(q, Activate(m.buttons[0])) == queue
  {
    var d := Notify(contentText, Some(cb), Some("OK"));
    var q := Step(queue, Open(d));
    var m := Render(q, cache);
    NotifyButton(queue, cache, contentText, Some(cb), Some("OK"));
    ActivateClosesThenCalls(q, m.buttons[0]);
    CloseUndoesOpen(queue, d);
  }

  /** During the closing fade the dialog still draws the cached record's
      buttons; a click then pops nothing but runs the callback once more. */
  lemma FadeClickCallsAgain(cache: AlertData, i: nat)
    requires i < |cache.actions|
    ensures var m := Render([], cache);
      && !m.open
      && i < |m.buttons|
      && ApplyEvents([], Activate(m.buttons[i])) == []
      && Invoked(Activate(m.buttons[i])) == [m.buttons[i].onClick]
  {
    ActivateClosesThenCalls([], Render([], cache).buttons[i]);
  }

  /** The dialog's own close request (backdrop or escape) pops the top record
      like a click does, but runs no callback at all. */
  lemma DismissClosesOnly(queue: seq<AlertData>)
    ensures ApplyEvents(queue, Dismiss()) == Step(queue, Close)
    ensures Invoked(Dismiss()) == []
    ensures CloseCount(Dismiss()) == 1
  {
    assert Dismiss()[1..] == [];
  }
}
