/** The focus bookkeeping of the pane (src/ui/pane.rs), on values: elements
    as the pane sees them, the agreement between the pane's two focus indices
    and the elements' visual focus flags, the first-match hit test, and the
    flag updates the pane performs when focus moves. */
module Focus {
  import opened Wrappers
  import opened Ui
  import opened MouseStates

  /** An element as the pane sees it: its hit test on the pointer position
      (shape, anchor, offset and surface size folded in) and its two visual
      focus flags. */
  datatype Element = Element(contains: Point -> bool, mouseFocus: bool, keybdFocus: bool)

  /** A focus index is either absent or names an element. */
  predicate IndexOk(f: Option<nat>, n: nat) {
    f.Some? ==> f.value < n
  }

  /** Element i shows mouse focus exactly when the index names i. */
  predicate MouseSynced(es: seq<Element>, f: Option<nat>) {
    IndexOk(f, |es|) && forall i :: 0 <= i < |es| ==> (es[i].mouseFocus <==> f == Some(i))
  }

  /** Element i shows keyboard focus exactly when the index names i. */
  predicate KeybdSynced(es: seq<Element>, f: Option<nat>) {
    IndexOk(f, |es|) && forall i :: 0 <= i < |es| ==> (es[i].keybdFocus <==> f == Some(i))
  }

  /** The same elements in the same order, their flags aside. */
  ghost predicate SameShapes(es: seq<Element>, es': seq<Element>) {
    |es| == |es'| && forall i :: 0 <= i < |es| ==> es'[i].contains == es[i].contains
  }

  /** While the flags agree with an index, at most one element shows each
      kind of focus. */
  lemma AtMostOneFocused(es: seq<Element>, mf: Option<nat>, kf: Option<nat>)
    requires MouseSynced(es, mf) && KeybdSynced(es, kf)
    ensures forall i, j :: 0 <= i < j < |es| ==> !(es[i].mouseFocus && es[j].mouseFocus)
    ensures forall i, j :: 0 <= i < j < |es| ==> !(es[i].keybdFocus && es[j].keybdFocus)
  {
  }

  // ---------------------------------------------------------------------
  // Hit testing

  /** `focused_element_idx` as a specification: the smallest index whose
      element contains the pointer, or None when none does. */
  function FirstHit(es: seq<Element>, p: Point): (r: Option<nat>)
    ensures r.Some? ==> r.value < |es| && es[r.value].contains(p)
    ensures r.Some? ==> forall j :: 0 <= j < r.value ==> !es[j].contains(p)
    ensures r.None? ==> forall j :: 0 <= j < |es| ==> !es[j].contains(p)
  {
    if es == [] then Option.None
    else if es[0].contains(p) then Some(0)
    else
      match FirstHit(es[1..], p)
      case None => Option.None
      case Some(k) => Some(k + 1)
  }

  /** Overlapping elements: the one registered first wins, never a later one. */
  lemma FirstMatchWins(es: seq<Element>, p: Point, a: nat, b: nat)
    requires a < b < |es| && es[a].contains(p) && es[b].contains(p)
    ensures FirstHit(es, p) != Some(b)
    ensures FirstHit(es, p).Some? && FirstHit(es, p).value <= a
  {
  }

  // ---------------------------------------------------------------------
  // Mouse focus transfer (update_mouse_focus)

  /** Clear the mouse flag of the old holder, then set the new holder's. */
  function MoveMouseFocus(es: seq<Element>, from: Option<nat>, to: Option<nat>): (r: seq<Element>)
    requires IndexOk(from, |es|) && IndexOk(to, |es|)
    ensures SameShapes(es, r)
    ensures forall i :: 0 <= i < |es| ==> r[i].keybdFocus == es[i].keybdFocus
    ensures MouseSynced(es, from) ==> MouseSynced(r, to)
  {
    var cleared := if from.Some? then es[from.value := es[from.value].(mouseFocus := false)] else es;
    if to.Some? then cleared[to.value := cleared[to.value].(mouseFocus := true)] else cleared
  }

  // ---------------------------------------------------------------------
  // Keyboard focus requests (handle_mouse_input)

  /** The keyboard-focus index after element `idx`'s handler returned `req`:
      a claim makes `idx` the holder, a release leaves no holder, and the
      other requests leave the holder as it was. */
  function NextKeybdFocus(kf: Option<nat>, idx: nat, req: UiRequest): (r: Option<nat>)
    ensures req == KeyboardFocus(true) ==> r == Some(idx)
    ensures req == KeyboardFocus(false) ==> r.None?
    ensures !req.KeyboardFocus? ==> r == kf
  {
    match req
    case KeyboardFocus(on) => if on then Some(idx) else Option.None
    case _ => kf
  }

  /** The keyboard flags as pane.rs writes them: only the requesting
      element's flag is touched; a previous holder keeps its flag. */
  function KeybdFlagsAsWritten(es: seq<Element>, idx: nat, req: UiRequest): (r: seq<Element>)
    requires idx < |es|
    ensures SameShapes(es, r)
    ensures forall i :: 0 <= i < |es| ==> r[i].mouseFocus == es[i].mouseFocus
    ensures forall i :: 0 <= i < |es| && i != idx ==> r[i] == es[i]
    ensures req.KeyboardFocus? ==> r[idx].keybdFocus == req.on
    ensures !req.KeyboardFocus? ==> r == es
  {
    match req
    case KeyboardFocus(on) => es[idx := es[idx].(keybdFocus := on)]
    case _ => es
  }

  /** A claim or release from a non-holder while another element holds
      keyboard focus: the as-written update leaves the holder's flag on. */
  lemma KeybdFlagsAsWrittenDesync(es: seq<Element>, kf: Option<nat>, idx: nat, req: UiRequest)
    requires idx < |es| && KeybdSynced(es, kf)
    ensures KeybdSynced(KeybdFlagsAsWritten(es, idx, req), NextKeybdFocus(kf, idx, req))
      <==> (!req.KeyboardFocus? || kf.None? || kf == Some(idx))
  {
    var r := KeybdFlagsAsWritten(es, idx, req);
    if req.KeyboardFocus? && kf.Some? && kf != Some(idx) {
      var j := kf.value;
      assert r[j].keybdFocus;
      assert NextKeybdFocus(kf, idx, req) != Some(j);
    }
  }

  /** A concrete case: element 0 holds keyboard focus, element 1 is clicked
      and claims it; afterwards both elements show keyboard focus. */
  lemma KeybdClaimLeavesTwoFlags()
    ensures
      var es := [Element(_ => true, false, true), Element(_ => true, true, false)];
      var r := KeybdFlagsAsWritten(es, 1, KeyboardFocus(true));
      KeybdSynced(es, Some(0)) && r[0].keybdFocus && r[1].keybdFocus &&
      !KeybdSynced(r, NextKeybdFocus(Some(0), 1, KeyboardFocus(true)))
  {
  }

  /** Clear the keyboard flag of the current holder, if any. */
  function ClearKeybdFocus(es: seq<Element>, kf: Option<nat>): (r: seq<Element>)
    requires IndexOk(kf, |es|)
    ensures SameShapes(es, r)
    ensures forall i :: 0 <= i < |es| ==> r[i].mouseFocus == es[i].mouseFocus
    ensures KeybdSynced(es, kf) ==> KeybdSynced(r, Option.None)
  {
    if kf.Some? then es[kf.value := es[kf.value].(keybdFocus := false)] else es
  }

  /** The keyboard flags after element `idx`'s handler returned `req`,
      corrected: a claim or release first clears the flag of the current
      holder, then sets or clears the requester's flag. */
  function KeybdFlags(es: seq<Element>, kf: Option<nat>, idx: nat, req: UiRequest): (r: seq<Element>)
    requires idx < |es| && IndexOk(kf, |es|)
    ensures SameShapes(es, r)
    ensures forall i :: 0 <= i < |es| ==> r[i].mouseFocus == es[i].mouseFocus
    ensures KeybdSynced(es, kf) ==> KeybdSynced(r, NextKeybdFocus(kf, idx, req))
    ensures req.KeyboardFocus? ==> r[idx].keybdFocus == req.on
  {
    match req
    case KeyboardFocus(on) =>
      var cleared := ClearKeybdFocus(es, kf);
      cleared[idx := cleared[idx].(keybdFocus := on)]
    case _ => es
  }

  /** The correction changes nothing where the as-written update already
      kept the flags in agreement. */
  lemma KeybdFlagsAgreeWhenNoOtherHolder(es: seq<Element>, kf: Option<nat>, idx: nat, req: UiRequest)
    requires idx < |es| && KeybdSynced(es, kf)
    requires kf.None? || kf == Some(idx)
    ensures KeybdFlags(es, kf, idx, req) == KeybdFlagsAsWritten(es, idx, req)
  {
  }
}
