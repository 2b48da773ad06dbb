/** The dialog gate of src/utils/confirmAction.ts: the module-level `isOpen`, `resolving` and
    `lastOpenAt`, the 350 ms debounce of `beginOpen`, `finishClose`, the `resolveOnce` closures
    of `confirmAction` and `niceAlert`, their key mapping, and the button styles. The clock is a
    parameter; building and removing the overlay is reduced to a per-dialog "shown" flag. */
module ConfirmAction {
  import opened Wrappers

  const OpenDebounceMs: int := 350

  // ---------------------------------------------------------------------------------------
  // Button styles
  // ---------------------------------------------------------------------------------------

  datatype Variant = Default | Danger | Warning | Info

  datatype ButtonKind = ConfirmButton | CancelButton

  const CancelClasses: string :=
    "rounded-lg border border-slate-300 dark:border-slate-600 px-4 py-2 text-sm text-slate-700 dark:text-slate-200 hover:bg-slate-50 dark:hover:bg-slate-700 transition"
  const RoseClasses: string :=
    "rounded-lg bg-rose-600 px-4 py-2 text-sm font-semibold text-white hover:bg-rose-700 transition"
  const AmberClasses: string :=
    "rounded-lg bg-amber-600 px-4 py-2 text-sm font-semibold text-white hover:bg-amber-700 transition"
  const SkyClasses: string :=
    "rounded-lg bg-sky-600 px-4 py-2 text-sm font-semibold text-white hover:bg-sky-700 transition"
  const EmeraldClasses: string :=
    "rounded-lg bg-emerald-600 px-4 py-2 text-sm font-semibold text-white hover:bg-emerald-700 transition"

  /** `btnClasses(kind, variant)` */
  function ButtonClasses(kind: ButtonKind, variant: Variant): string {
    if kind == CancelButton then CancelClasses
    else if variant == Danger then RoseClasses
    else if variant == Warning then AmberClasses
    else if variant == Info then SkyClasses
    else EmeraldClasses
  }

  /** The cancel button looks the same whatever the variant; "default" falls through to the
      emerald confirm style; and the four confirm styles differ from each other and from the
      cancel style. */
  lemma ButtonStyles(v: Variant, w: Variant)
    ensures ButtonClasses(CancelButton, v) == ButtonClasses(CancelButton, w)
    ensures ButtonClasses(ConfirmButton, Default) == EmeraldClasses
    ensures v != w ==> ButtonClasses(ConfirmButton, v) != ButtonClasses(ConfirmButton, w)
    ensures ButtonClasses(ConfirmButton, v) != ButtonClasses(CancelButton, w)
  {
    // the colour names have different lengths, and each appears twice in a confirm style
    assert |RoseClasses| != |AmberClasses| && |RoseClasses| != |SkyClasses|;
    assert |RoseClasses| != |EmeraldClasses| && |AmberClasses| != |SkyClasses|;
    assert |AmberClasses| != |EmeraldClasses| && |SkyClasses| != |EmeraldClasses|;
    assert |CancelClasses| > |EmeraldClasses| > |AmberClasses| > |RoseClasses| > |SkyClasses|;
  }

  // ---------------------------------------------------------------------------------------
  // Keys
  // ---------------------------------------------------------------------------------------

  /** The answer a key press gives a confirmation: Escape cancels, Enter confirms. */
  function ConfirmKeyAnswer(key: string): (r: Option<bool>)
    ensures r == Some(false) <==> key == "Escape"
    ensures r == Some(true) <==> key == "Enter"
    ensures r.None? <==> key != "Escape" && key != "Enter"
  {
    if key == "Escape" then Some(false)
    else if key == "Enter" then Some(true)
    else None
  }

  /** Whether a key press dismisses an alert. */
  predicate AlertKeyDismisses(key: string) {
    key == "Escape" || key == "Enter"
  }

  // ---------------------------------------------------------------------------------------
  // The gate
  // ---------------------------------------------------------------------------------------

  /** `beginOpen`'s test: the debounce window has passed and no dialog is open. */
  predicate Admits(isOpen: bool, lastOpenAt: int, now: int) {
    !(now - lastOpenAt < OpenDebounceMs) && !isOpen
  }

  datatype DialogKind = ConfirmDialog | AlertDialog

  /** How a dialog's promise stands: not settled yet, settled with a confirmation's answer, or
      settled by dismissing an alert. */
  datatype Outcome = Unsettled | Answered(value: bool) | Acknowledged

  /** What `confirmAction` hands back: a promise already settled with `false` when the gate
      refuses, or a dialog waiting for its answer. */
  datatype Reply = Declined | Waiting(dialog: nat)

  class DialogGate {
    var isOpen: bool
    var resolving: bool
    var lastOpenAt: int
    /** One entry per dialog built so far, in opening order: its kind, whether its overlay is
        still in the document, how its promise stands, how often `finishClose` ran for it, and
        whether its one-shot `window` keydown listener is still registered. */
    var kinds: seq<DialogKind>
    var shown: seq<bool>
    var outcomes: seq<Outcome>
    var closes: seq<nat>
    var listening: seq<bool>
    /** When each dialog passed `beginOpen`. */
    ghost var openedAt: seq<int>

    /** Besides the bookkeeping, `resolving` is false between calls: every path that sets it
        runs `finishClose`, which clears it again, so the guard of `resolveOnce` never blocks. */
    ghost predicate Valid()
      reads this
    {
      var n := |kinds|;
      && |shown| == n && |outcomes| == n && |closes| == n && |listening| == n && |openedAt| == n
      && !resolving
      && lastOpenAt == (if n == 0 then 0 else openedAt[n - 1])
      && (n > 0 ==> openedAt[0] >= OpenDebounceMs)
      && (forall i :: 0 < i < n ==> openedAt[i] - openedAt[i - 1] >= OpenDebounceMs)
      && (forall i :: 0 <= i < n ==> (shown[i] <==> outcomes[i].Unsettled?))
      && (forall i :: 0 <= i < n ==> (shown[i] <==> closes[i] == 0))
      && (isOpen ==> n > 0 && shown[n - 1])
    }

    /** "At most one dialog open": only the newest dialog may be shown, and `isOpen` says
        whether it is. */
    ghost predicate Exclusive()
      reads this
    {
      && (forall i :: 0 <= i < |shown| && shown[i] ==> i == |shown| - 1)
      && (isOpen <==> |shown| > 0 && shown[|shown| - 1])
    }

    /** The module's initial state. */
    constructor ()
      ensures Valid() && Exclusive()
      ensures !isOpen && !resolving && lastOpenAt == 0 && kinds == []
    {
      isOpen, resolving, lastOpenAt := false, false, 0;
      kinds, shown, outcomes, closes, listening := [], [], [], [], [];
      openedAt := [];
    }

    /** `beginOpen()`: refuses inside the debounce window or while a dialog is open, changing
        nothing; otherwise records the opening. */
    method BeginOpen(now: int) returns (ok: bool)
      modifies this`isOpen, this`resolving, this`lastOpenAt
      ensures ok == Admits(old(isOpen), old(lastOpenAt), now)
      ensures ok ==> isOpen && !resolving && lastOpenAt == now
      ensures !ok ==> isOpen == old(isOpen) && resolving == old(resolving) && lastOpenAt == old(lastOpenAt)
    {
      if now - lastOpenAt < OpenDebounceMs {
        return false;
      }
      if isOpen {
        return false;
      }
      lastOpenAt := now;
      isOpen := true;
      resolving := false;
      return true;
    }

    /** `beginOpen` and, when it succeeds, building the overlay of a new dialog and registering
        its keydown listener. */
    method Open(kind: DialogKind, now: int) returns (d: Option<nat>)
      requires Valid()
      modifies this
      ensures Valid()
      ensures d.Some? <==> Admits(old(isOpen), old(lastOpenAt), now)
      ensures d.None? ==> unchanged(this)
      ensures d.Some? ==>
        && d.value == old(|kinds|) && kinds == old(kinds) + [kind]
        && shown == old(shown) + [true] && outcomes == old(outcomes) + [Unsettled]
        && closes == old(closes) + [0] && listening == old(listening) + [true]
        && isOpen && lastOpenAt == now && openedAt == old(openedAt) + [now]
        && now - old(lastOpenAt) >= OpenDebounceMs
      ensures old(Exclusive()) ==> Exclusive()
    {
      var ok := BeginOpen(now);
      if !ok {
        return None;
      }
      d := Some(|kinds|);
      kinds, shown, outcomes, closes := kinds + [kind], shown + [true], outcomes + [Unsettled], closes + [0];
      listening := listening + [true];
      assert forall i :: 0 <= i < d.value ==>
        shown[i] == old(shown[i]) && outcomes[i] == old(outcomes[i]) && closes[i] == old(closes[i]);
      openedAt := openedAt + [now];
    }

    /** `confirmAction(...)`: `false` at once when the gate refuses, else a waiting dialog. */
    method ConfirmAction(now: int) returns (r: Reply)
      requires Valid()
      modifies this
      ensures Valid()
      ensures r.Declined? <==> !Admits(old(isOpen), old(lastOpenAt), now)
      ensures r.Declined? ==> unchanged(this)
      ensures r.Waiting? ==> r.dialog == old(|kinds|) && kinds == old(kinds) + [ConfirmDialog]
      ensures r.Waiting? ==> isOpen && lastOpenAt == now && shown == old(shown) + [true]
      ensures r.Waiting? ==> outcomes == old(outcomes) + [Unsettled] && closes == old(closes) + [0]
      ensures r.Waiting? ==> listening == old(listening) + [true] && openedAt == old(openedAt) + [now]
      ensures old(Exclusive()) ==> Exclusive()
    {
      var d := Open(ConfirmDialog, now);
      r := if d.None? then Declined else Waiting(d.value);
    }

    /** `niceAlert(...)`: resolves at once, showing nothing, when the gate refuses. */
    method NiceAlert(now: int) returns (d: Option<nat>)
      requires Valid()
      modifies this
      ensures Valid()
      ensures d.None? <==> !Admits(old(isOpen), old(lastOpenAt), now)
      ensures d.None? ==> unchanged(this)
      ensures d.Some? ==> d.value == old(|kinds|) && kinds == old(kinds) + [AlertDialog]
      ensures d.Some? ==> isOpen && lastOpenAt == now && shown == old(shown) + [true]
      ensures d.Some? ==> outcomes == old(outcomes) + [Unsettled] && closes == old(closes) + [0]
      ensures d.Some? ==> listening == old(listening) + [true] && openedAt == old(openedAt) + [now]
      ensures old(Exclusive()) ==> Exclusive()
    {
      d := Open(AlertDialog, now);
    }

    /** `finishClose(overlay)` for dialog `d`. */
    method FinishClose(d: nat)
      requires d < |shown| && |closes| == |shown|
      modifies this`shown, this`closes, this`isOpen, this`resolving
      ensures shown == old(shown)[d := false] && closes == old(closes)[d := old(closes[d]) + 1]
      ensures !isOpen && !resolving
    {
      shown := shown[d := false];
      isOpen := false;
      resolving := false;
      closes := closes[d := closes[d] + 1];
    }

    /** The `resolveOnce` closure of dialog `d`, called with the result its caller passes
        (an answer for a confirmation, a dismissal for an alert): a button click, or the
        keydown listener. The guard finds `resolving` clear, so it closes the dialog, which
        clears `resolving` again, and settles the promise, which keeps whichever result came
        first. The keydown listener stays registered. */
    method ResolveOnce(d: nat, result: Outcome)
      requires Valid() && d < |kinds|
      requires result.Answered? <==> kinds[d] == ConfirmDialog
      requires !result.Unsettled?
      modifies this
      ensures Valid()
      ensures !isOpen && lastOpenAt == old(lastOpenAt) && kinds == old(kinds)
      ensures shown == old(shown)[d := false] && listening == old(listening) && openedAt == old(openedAt)
      ensures closes == old(closes)[d := old(closes[d]) + 1]
      ensures outcomes == old(outcomes)[d := if old(outcomes[d]).Unsettled? then result else old(outcomes[d])]
      ensures old(shown[d]) && old(Exclusive()) ==> Exclusive()
    {
      if resolving {
        return;
      }
      resolving := true;
      FinishClose(d);
      if outcomes[d].Unsettled? {
        outcomes := outcomes[d := result];
      }
    }

    /** A key press as the keydown listener of confirmation `d` sees it. The listener is
        one-shot: once removed, key presses do not reach it; otherwise the first key press of
        any kind removes it, and only Escape and Enter go on to answer the dialog. */
    method OnConfirmKey(d: nat, key: string)
      requires Valid() && d < |kinds| && kinds[d] == ConfirmDialog
      modifies this
      ensures Valid()
      ensures !old(listening[d]) ==> unchanged(this)
      ensures old(listening[d]) ==> listening == old(listening)[d := false] && kinds == old(kinds)
      ensures openedAt == old(openedAt)
      ensures old(listening[d]) && ConfirmKeyAnswer(key).None? ==>
        && isOpen == old(isOpen) && shown == old(shown) && outcomes == old(outcomes)
        && closes == old(closes) && lastOpenAt == old(lastOpenAt)
      ensures old(listening[d]) && ConfirmKeyAnswer(key).Some? ==>
        && !isOpen && lastOpenAt == old(lastOpenAt)
        && shown == old(shown)[d := false] && closes == old(closes)[d := old(closes[d]) + 1]
        && outcomes == old(outcomes)[d := if old(outcomes[d]).Unsettled? then Answered(ConfirmKeyAnswer(key).value)
                                          else old(outcomes[d])]
      ensures old(shown[d]) && old(Exclusive()) ==> Exclusive()
    {
      if !listening[d] {
        return;
      }
      listening := listening[d := false];
      match ConfirmKeyAnswer(key)
      case Some(v) => ResolveOnce(d, Answered(v));
      case None =>
    }

    /** A key press as the keydown listener of alert `d` sees it: the first key press removes
        the listener, and Escape or Enter dismiss the alert. */
    method OnAlertKey(d: nat, key: string)
      requires Valid() && d < |kinds| && kinds[d] == AlertDialog
      modifies this
      ensures Valid()
      ensures !old(listening[d]) ==> unchanged(this)
      ensures old(listening[d]) ==> listening == old(listening)[d := false] && kinds == old(kinds)
      ensures openedAt == old(openedAt)
      ensures old(listening[d]) && !AlertKeyDismisses(key) ==>
        && isOpen == old(isOpen) && shown == old(shown) && outcomes == old(outcomes)
        && closes == old(closes) && lastOpenAt == old(lastOpenAt)
      ensures old(listening[d]) && AlertKeyDismisses(key) ==>
        && !isOpen && lastOpenAt == old(lastOpenAt)
        && shown == old(shown)[d := false] && closes == old(closes)[d := old(closes[d]) + 1]
        && outcomes == old(outcomes)[d := if old(outcomes[d]).Unsettled? then Acknowledged else old(outcomes[d])]
      ensures old(shown[d]) && old(Exclusive()) ==> Exclusive()
    {
      if !listening[d] {
        return;
      }
      listening := listening[d := false];
      if AlertKeyDismisses(key) {
        ResolveOnce(d, Acknowledged);
      }
    }
  }

  /** Successful opens are at least the debounce window apart: consecutive openings pairwise,
      and any two by induction on the distance between them. */
  lemma {:induction false} OpeningsSpaced(g: DialogGate, i: nat, j: nat)
    requires g.Valid() && i < j < |g.kinds|
    ensures g.openedAt[j] - g.openedAt[i] >= OpenDebounceMs
  {
    if j > i + 1 {
      OpeningsSpaced(g, i, j - 1);
    }
  }

  /** A second confirmation requested while one is open is declined at once and shows nothing,
      even after the debounce window. */
  method SecondConfirmationDeclined() returns (g: DialogGate, first: Reply, second: Reply)
    ensures g.Valid() && g.Exclusive()
    ensures first == Waiting(0) && second == Declined && g.shown == [true]
  {
    g := new DialogGate();
    first := g.ConfirmAction(1000);
    second := g.ConfirmAction(5000);
  }

  /** A key other than Escape or Enter, pressed while a confirmation is open, uses up its
      one-shot listener: a later Enter no longer answers, and the dialog stays open until a
      button is clicked. */
  method OtherKeyDisarmsKeyboard() returns (g: DialogGate)
    ensures g.Valid() && g.Exclusive()
    ensures g.isOpen && g.shown == [true] && g.outcomes == [Unsettled] && g.listening == [false]
  {
    g := new DialogGate();
    var a := g.ConfirmAction(1000);
    g.OnConfirmKey(0, "a");
    g.OnConfirmKey(0, "Enter");
  }

  /** A confirmation answered by a click: its overlay is gone, but its keydown listener is
      still registered. */
  method AnsweredByClick() returns (g: DialogGate)
    ensures fresh(g) && g.Valid() && g.Exclusive()
    ensures g.kinds == [ConfirmDialog] && !g.isOpen && g.lastOpenAt == 1000
    ensures g.shown == [false] && g.listening == [true]
    ensures g.outcomes == [Answered(true)] && g.closes == [1]
  {
    g := new DialogGate();
    var a := g.ConfirmAction(1000);
    assert a == Waiting(0) && g.kinds == [ConfirmDialog] && g.lastOpenAt == 1000;
    assert g.shown == [true] && g.listening == [true] && g.outcomes == [Unsettled] && g.closes == [0];
    g.ResolveOnce(0, Answered(true));
  }

  /** After that click, a second confirmation is opened. */
  method ClickedThenReopened() returns (g: DialogGate)
    ensures fresh(g) && g.Valid() && g.Exclusive()
    ensures g.kinds == [ConfirmDialog, ConfirmDialog] && g.isOpen && g.lastOpenAt == 2000
    ensures g.shown == [false, true] && g.listening == [true, true]
    ensures g.outcomes == [Answered(true), Unsettled] && g.closes == [1, 0]
  {
    g := AnsweredByClick();
    var b := g.ConfirmAction(2000);
    assert b == Waiting(1);
  }

  /** The `resolving` guard does not make a dialog's resolution single: it is cleared again by
      `finishClose` inside the same call, so a late call into a closed dialog's `resolveOnce`
      (here its keydown listener, still registered after a click closed it) runs `finishClose`
      a second time. That clears `isOpen` while a newer dialog is still shown, and the gate
      then lets a third dialog open beside it. The promise itself keeps its first answer. This
      is what the guard by itself allows; `StaleListenerInOneDispatch` shows the same key
      press as the page delivers it. */
  method LateResolutionOpensSecondOverlay() returns (g: DialogGate)
    ensures g.Valid() && !g.Exclusive()
    ensures g.shown == [false, true, true]
    ensures g.closes[0] == 2 && g.outcomes[0] == Answered(true)
  {
    g := ClickedThenReopened();
    g.OnConfirmKey(0, "Escape");
    assert !g.isOpen && g.lastOpenAt == 2000 && g.shown == [false, true];
    var c := g.ConfirmAction(3000);
    assert g.shown[1] && 1 != |g.shown| - 1;
  }

  /** The same stale listener as the page runs it: a key press reaches every registered
      `window` keydown listener in the order they were added, so the newer dialog's own
      listener answers it in the same dispatch. Both overlays are gone, the gate is open for
      the next dialog, and each promise holds the answer it was given. */
  method StaleListenerInOneDispatch() returns (g: DialogGate)
    ensures g.Valid() && g.Exclusive() && !g.isOpen
    ensures g.shown == [false, false] && g.listening == [false, false]
    ensures g.outcomes == [Answered(true), Answered(false)] && g.closes == [2, 1]
  {
    g := ClickedThenReopened();
    g.OnConfirmKey(0, "Escape");
    g.OnConfirmKey(1, "Escape");
  }
}
