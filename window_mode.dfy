/** The window's positioning modes and geometry as the host (X-Plane's window
    API) sees them, and the mode request the render pass may make. */
module WindowMode {

  /** `XPLMWindowPositioningMode` values the window uses, and "no request". */
  const NoRequest := -1
  const PositionFree := 0
  const PopOut := 4
  const InVR := 5

  predicate IsRequestValue(m: int) {
    m == NoRequest || m == PositionFree || m == PopOut || m == InVR
  }

  /** Window geometry in the host's coordinates: `top` above `bottom`. */
  datatype Rect = Rect(left: int, top: int, right: int, bottom: int)

  function Width(g: Rect): int {
    g.right - g.left
  }

  function Height(g: Rect): int {
    g.top - g.bottom
  }

  /** The geometry set on return to free-floating: the size of `g`, placed with
      its top-left corner at the standard anchor the host computed. */
  function Reanchored(g: Rect, anchorLeft: int, anchorTop: int): (r: Rect)
    ensures Width(r) == Width(g) && Height(r) == Height(g)
    ensures r.left == anchorLeft && r.top == anchorTop
  {
    Rect(anchorLeft, anchorTop, anchorLeft + Width(g), anchorTop - Height(g))
  }

  /** The three window-mode buttons of one render pass; each only counts when
      it is drawn. */
  datatype ModeClicks = ModeClicks(vr: bool, popIn: bool, popOut: bool)

  predicate VRButtonShown(mode: int, vrEnabled: bool) {
    vrEnabled && mode != InVR
  }

  predicate PopInButtonShown(mode: int) {
    mode == PopOut || mode == InVR
  }

  predicate PopOutButtonShown(mode: int) {
    mode != PopOut
  }

  predicate AnyShownButtonFired(mode: int, vrEnabled: bool, clicks: ModeClicks) {
    || (clicks.vr && VRButtonShown(mode, vrEnabled))
    || (clicks.popIn && PopInButtonShown(mode))
    || (clicks.popOut && PopOutButtonShown(mode))
  }

  /** The pending request after the buttons were drawn in the order VR,
      pop-in, pop-out: the last drawn button that fired wins, and with none
      fired the earlier request stands. */
  function Requested(pending: int, mode: int, vrEnabled: bool, clicks: ModeClicks): (r: int)
    ensures r == pending || r == InVR || r == PositionFree || r == PopOut
    ensures r == InVR && pending != InVR ==> clicks.vr && VRButtonShown(mode, vrEnabled)
    ensures r == PositionFree && pending != PositionFree ==> clicks.popIn && PopInButtonShown(mode)
    ensures r == PopOut && pending != PopOut ==> clicks.popOut && PopOutButtonShown(mode)
    ensures clicks.popOut && PopOutButtonShown(mode) ==> r == PopOut
    ensures clicks.popIn && PopInButtonShown(mode) && !(clicks.popOut && PopOutButtonShown(mode))
            ==> r == PositionFree
    ensures (clicks.vr && VRButtonShown(mode, vrEnabled) && !(clicks.popIn && PopInButtonShown(mode))
             && !(clicks.popOut && PopOutButtonShown(mode))) ==> r == InVR
    ensures !AnyShownButtonFired(mode, vrEnabled, clicks) ==> r == pending
  {
    var afterVR := if VRButtonShown(mode, vrEnabled) && clicks.vr then InVR else pending;
    var afterPopIn := if PopInButtonShown(mode) && clicks.popIn then PositionFree else afterVR;
    if PopOutButtonShown(mode) && clicks.popOut then PopOut else afterPopIn
  }
}
