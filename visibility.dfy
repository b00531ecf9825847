/** The visibility heuristic: is a field effectively hidden from the user right
    now? It is a disjunction over one style-and-layout measurement of the
    element; a measurement that throws counts as "not hidden" (fail open). */
module Visibility {
  import opened Util

  /** What `getBoundingClientRect`, `getComputedStyle`, `offsetParent` and
      `getClientRects` report for one element. Opacity is recorded only as
      whether it parses to zero. */
  datatype Measure = Measure(
    visibility: string,
    opacityIsZero: bool,
    display: string,
    width: real,
    height: real,
    left: real,
    top: real,
    hasOffsetParent: bool,
    clientRectCount: nat)

  /** The individual reasons an element counts as hidden. */
  datatype Reason =
    | VisibilityHidden
    | ZeroOpacity
    | DisplayNone
    | ZeroWidth
    | ZeroHeight
    | NoOffsetParent
    | NoClientRects
    | FarLeft
    | FarAbove

  /** Whether one reason applies to a measurement. */
  predicate Applies(r: Reason, m: Measure) {
    match r
    case VisibilityHidden => m.visibility == "hidden"
    case ZeroOpacity => m.opacityIsZero
    case DisplayNone => m.display == "none"
    case ZeroWidth => m.width == 0.0
    case ZeroHeight => m.height == 0.0
    case NoOffsetParent => !m.hasOffsetParent
    case NoClientRects => m.clientRectCount == 0
    case FarLeft => m.left < -1000.0
    case FarAbove => m.top < -1000.0
  }

  /** `isHiddenEl`: `None` is a measurement that threw. The element is hidden
      exactly when at least one reason applies; a failed measurement is never
      hidden. */
  function IsHidden(measured: Option<Measure>): (hidden: bool)
    ensures measured.None? ==> !hidden
    ensures measured.Some? ==> (hidden <==> exists r :: Applies(r, measured.value))
  {
    match measured
    case None => false
    case Some(m) =>
      SomeReasonApplies(m);
      || m.visibility == "hidden"
      || m.opacityIsZero
      || m.display == "none"
      || m.width == 0.0 || m.height == 0.0
      || !m.hasOffsetParent
      || m.clientRectCount == 0
      || m.left < -1000.0 || m.top < -1000.0
  }

  /** Each disjunct of the heuristic is witnessed by its reason. */
  lemma SomeReasonApplies(m: Measure)
    ensures (|| m.visibility == "hidden"
             || m.opacityIsZero
             || m.display == "none"
             || m.width == 0.0 || m.height == 0.0
             || !m.hasOffsetParent
             || m.clientRectCount == 0
             || m.left < -1000.0 || m.top < -1000.0)
            ==> exists r :: Applies(r, m)
  {
    if m.visibility == "hidden" { assert Applies(VisibilityHidden, m); }
    else if m.opacityIsZero { assert Applies(ZeroOpacity, m); }
    else if m.display == "none" { assert Applies(DisplayNone, m); }
    else if m.width == 0.0 { assert Applies(ZeroWidth, m); }
    else if m.height == 0.0 { assert Applies(ZeroHeight, m); }
    else if !m.hasOffsetParent { assert Applies(NoOffsetParent, m); }
    else if m.clientRectCount == 0 { assert Applies(NoClientRects, m); }
    else if m.left < -1000.0 { assert Applies(FarLeft, m); }
    else if m.top < -1000.0 { assert Applies(FarAbove, m); }
  }

  /** Default styling: visible, opaque, displayed, laid out, on screen. */
  predicate DefaultStyled(m: Measure) {
    && m.visibility == "visible" && !m.opacityIsZero && m.display != "none"
    && m.hasOffsetParent && m.clientRectCount > 0
    && m.left >= -1000.0 && m.top >= -1000.0
  }

  /** A box with no area is hidden; one with positive area and default styling
      is not; zero opacity hides even a box with positive area. */
  lemma HiddenScenarios(m: Measure)
    ensures m.width == 0.0 || m.height == 0.0 ==> IsHidden(Some(m))
    ensures m.width > 0.0 && m.height > 0.0 && DefaultStyled(m) ==> !IsHidden(Some(m))
    ensures m.width > 0.0 && m.height > 0.0 && m.opacityIsZero ==> IsHidden(Some(m))
  {
    if m.width == 0.0 {
      assert Applies(ZeroWidth, m);
    }
  }
}
