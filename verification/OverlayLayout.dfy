/** The avatar overlay: a mascot anchored on a display, a tray in one of four places
    around it, and a fixed-size window over both. */
module OverlayLayout {
  import opened Wrappers
  import opened ScreenCoordinates

  const DEFAULT_VIEWPORT_WIDTH := 356.0
  const DEFAULT_VIEWPORT_HEIGHT := 320.0
  const DEFAULT_TRAY := Size(276.0, 131.0)
  const PADDING_TOP := 8.0
  const PADDING_RIGHT := 28.0
  const PADDING_BOTTOM := 8.0
  const PADDING_LEFT := 0.0
  const TRAY_GAP := 4.0
  const PREVIOUS_PLACEMENT_BIAS := 96
  const OTHER_PLACEMENT_PENALTY := 32

  datatype Size = Size(width: real, height: real)

  datatype Rect = Rect(x: real, y: real, width: real, height: real)

  datatype Placement = TopStart | TopEnd | BottomStart | BottomEnd

  /** A rectangle in whole window pixels, as sent to the renderer. */
  datatype PixelRect = PixelRect(left: int, top: int, width: nat, height: nat)

  datatype Layout = Layout(
    anchor: Rect,
    mascot: PixelRect,
    placement: Placement,
    tray: Option<PixelRect>,
    viewportWidth: nat,
    viewportHeight: nat,
    windowBounds: Rect)

  function ViewportFor(display: Rect): Size {
    Size(Min(DEFAULT_VIEWPORT_WIDTH, display.width), Min(DEFAULT_VIEWPORT_HEIGHT, display.height))
  }

  function ClampTraySize(tray: Size, viewport: Size, mascotHeight: real): Size {
    Size(Min(tray.width, Max(viewport.width - PADDING_LEFT - PADDING_RIGHT, 0.0)),
         Min(tray.height, Max(viewport.height - mascotHeight - PADDING_BOTTOM - TRAY_GAP, 0.0)))
  }

  function CenterX(rect: Rect): real { rect.x + rect.width / 2.0 }

  function CenterY(rect: Rect): real { rect.y + rect.height / 2.0 }

  function PreferredPlacement(anchor: Rect, display: Rect): Placement {
    if CenterY(anchor) < CenterY(display) then
      if CenterX(anchor) < CenterX(display) then BottomStart else BottomEnd
    else
      if CenterX(anchor) < CenterX(display) then TopStart else TopEnd
  }

  function TrayRect(anchor: Rect, tray: Size, placement: Placement): Rect {
    Rect(if placement.TopEnd? || placement.BottomEnd? then anchor.x + anchor.width - tray.width else anchor.x,
         if placement.TopStart? || placement.TopEnd? then anchor.y - tray.height - TRAY_GAP
         else anchor.y + anchor.height + TRAY_GAP,
         tray.width, tray.height)
  }

  /** The area of an overflowing strip. */
  function Strip(amount: real, length: real): real { amount * length }

  function OverflowPenalty(left: real, top: real, right: real, bottom: real, width: real, height: real): real {
    left + top + right + bottom + Strip(left + right, height) + Strip(top + bottom, width)
  }

  function OutOfBoundsScore(rect: Rect, display: Rect): int {
    var left := Max(display.x - rect.x, 0.0);
    var top := Max(display.y - rect.y, 0.0);
    var right := Max(rect.x + rect.width - display.x - display.width, 0.0);
    var bottom := Max(rect.y + rect.height - display.y - display.height, 0.0);
    Pixel(OverflowPenalty(left, top, right, bottom, rect.width, rect.height))
  }

  function PlacementScore(anchor: Rect, display: Rect, preferred: Placement, previous: Placement,
                          tray: Size, placement: Placement): int {
    OutOfBoundsScore(TrayRect(anchor, tray, placement), display)
    + (if placement != preferred then OTHER_PLACEMENT_PENALTY else 0)
    - (if placement == previous then PREVIOUS_PLACEMENT_BIAS else 0)
  }

  /** Position in the order in which the candidates are tried; ties go to the first. */
  function Rank(placement: Placement): nat {
    match placement
    case TopStart => 0
    case TopEnd => 1
    case BottomStart => 2
    case BottomEnd => 3
  }

  function ChoosePlacement(anchor: Rect, display: Rect, preferred: Placement, previous: Placement,
                           tray: Size): (chosen: Placement)
    ensures forall p: Placement ::
              var best := PlacementScore(anchor, display, preferred, previous, tray, chosen);
              var score := PlacementScore(anchor, display, preferred, previous, tray, p);
              best < score || (best == score && Rank(chosen) <= Rank(p))
  {
    var score := (p: Placement) => PlacementScore(anchor, display, preferred, previous, tray, p);
    var top := if score(TopEnd) < score(TopStart) then TopEnd else TopStart;
    var three := if score(BottomStart) < score(top) then BottomStart else top;
    if score(BottomEnd) < score(three) then BottomEnd else three
  }

  function ExpandMascot(anchor: Rect): Rect {
    Rect(anchor.x - PADDING_LEFT, anchor.y - PADDING_TOP,
         anchor.width + PADDING_LEFT + PADDING_RIGHT, anchor.height + PADDING_TOP + PADDING_BOTTOM)
  }

  function ClampAnchor(rect: Rect, display: Rect): Rect {
    Rect(ClampCoordinate(rect.x, display.x, display.x + display.width - rect.width),
         ClampCoordinate(rect.y, display.y, display.y + display.height - rect.height - PADDING_BOTTOM),
         rect.width, rect.height)
  }

  function ClampToDisplay(rect: Rect, display: Rect): Rect {
    Rect(ClampCoordinate(rect.x, display.x, display.x + display.width - rect.width),
         ClampCoordinate(rect.y, display.y, display.y + display.height - rect.height),
         rect.width, rect.height)
  }

  function Union(a: Rect, b: Rect): Rect {
    var x := Min(a.x, b.x);
    var y := Min(a.y, b.y);
    Rect(x, y, Max(a.x + a.width, b.x + b.width) - x, Max(a.y + a.height, b.y + b.height) - y)
  }

  function WindowBounds(content: Rect, display: Rect, viewport: Size): Rect {
    Rect(ClampCoordinate(content.x + content.width - viewport.width,
                         display.x, display.x + display.width - viewport.width),
         ClampCoordinate(content.y + content.height - viewport.height,
                         display.y, display.y + display.height - viewport.height),
         viewport.width, viewport.height)
  }

  /** A negative length becomes zero in an unsigned conversion. */
  function AsPixels(length: real): nat {
    var rounded := Pixel(length);
    if rounded < 0 then 0 else rounded
  }

  function RelativeRect(rect: Rect, window: Rect): PixelRect {
    PixelRect(Pixel(rect.x - window.x), Pixel(rect.y - window.y),
              AsPixels(rect.width), AsPixels(rect.height))
  }

  /** What the layout is computed from, besides the display. */
  datatype Inputs = Inputs(
    anchor: Rect,
    mascot: Size,
    measured: bool,
    tray: Option<Size>,
    previous: Placement)

  function AnchorOf(inputs: Inputs, display: Rect): Rect {
    ClampAnchor(Rect(inputs.anchor.x, inputs.anchor.y,
                     Min(inputs.mascot.width, display.width), Min(inputs.mascot.height, display.height)),
                display)
  }

  /** Before the renderer has measured anything a default tray is assumed. */
  function TraySizeOf(inputs: Inputs, display: Rect): Option<Size> {
    var requested := if inputs.measured || inputs.tray.Some? then inputs.tray else Some(DEFAULT_TRAY);
    if requested.None? then None
    else Some(ClampTraySize(requested.value, ViewportFor(display), AnchorOf(inputs, display).height))
  }

  function PlacementOf(inputs: Inputs, display: Rect): Placement {
    var anchor := AnchorOf(inputs, display);
    var preferred := PreferredPlacement(anchor, display);
    match TraySizeOf(inputs, display)
    case None => preferred
    case Some(tray) => ChoosePlacement(anchor, display, preferred, inputs.previous, tray)
  }

  function TrayOf(inputs: Inputs, display: Rect): Option<Rect> {
    match TraySizeOf(inputs, display)
    case None => None
    case Some(tray) =>
      Some(ClampToDisplay(TrayRect(AnchorOf(inputs, display), tray, PlacementOf(inputs, display)), display))
  }

  /** The window over the padded mascot and, if shown, the tray. */
  function WindowAround(anchor: Rect, tray: Option<Rect>, display: Rect): Rect {
    var mascot := ExpandMascot(anchor);
    var content := match tray
                   case None => mascot
                   case Some(rect) => Union(mascot, rect);
    WindowBounds(content, display, ViewportFor(display))
  }

  function Assemble(anchor: Rect, placement: Placement, tray: Option<Rect>, display: Rect): Layout {
    var window := WindowAround(anchor, tray, display);
    Layout(anchor, RelativeRect(anchor, window), placement,
           match tray case None => None case Some(rect) => Some(RelativeRect(rect, window)),
           AsPixels(ViewportFor(display).width), AsPixels(ViewportFor(display).height),
           window)
  }

  function LayoutOf(inputs: Inputs, display: Rect): Layout {
    Assemble(AnchorOf(inputs, display), PlacementOf(inputs, display), TrayOf(inputs, display), display)
  }

  /** What the next layout of the same overlay starts from. */
  function InputsAfter(inputs: Inputs, display: Rect): Inputs {
    inputs.(anchor := AnchorOf(inputs, display), previous := PlacementOf(inputs, display))
  }
}
