/** What every layout of the avatar overlay guarantees. */
module OverlayGuarantees {
  import opened Wrappers
  import opened ScreenCoordinates
  import opened OverlayLayout

  /** Monitors have whole positions and sizes; the measured elements are assumed to. */
  ghost predicate WholeSize(size: Size) {
    Whole(size.width) && Whole(size.height) && size.width >= 0.0 && size.height >= 0.0
  }

  ghost predicate WholeDisplay(display: Rect) {
    Whole(display.x) && Whole(display.y) && WholeSize(Size(display.width, display.height))
  }

  ghost predicate PixelAligned(inputs: Inputs, display: Rect) {
    WholeDisplay(display) && WholeSize(inputs.mascot) && (inputs.tray.Some? ==> WholeSize(inputs.tray.value))
  }

  ghost predicate WholeRect(r: Rect) { Whole(r.x) && Whole(r.y) && WholeSize(Size(r.width, r.height)) }

  predicate RectInside(inner: Rect, outer: Rect) {
    && outer.x <= inner.x && inner.x + inner.width <= outer.x + outer.width
    && outer.y <= inner.y && inner.y + inner.height <= outer.y + outer.height
  }

  predicate InViewport(rect: PixelRect, layout: Layout) {
    && 0 <= rect.left && rect.left + rect.width <= layout.viewportWidth
    && 0 <= rect.top && rect.top + rect.height <= layout.viewportHeight
  }

  /** The mascot stands on the display: it leaves the bottom padding free, or lacks one pixel of
      it on a display not at the top, where the middle of the empty range is rounded upwards. */
  predicate Stands(mascot: Size, display: Rect) {
    || mascot.height + PADDING_BOTTOM <= display.height
    || (mascot.height + PADDING_BOTTOM == display.height + 1.0 && display.y >= 1.0)
  }

  /** The mascot stands on the display, and a display larger than the window leaves the mascot,
      its right padding and `below` pixels inside the window. */
  predicate HasRoom(mascot: Size, display: Rect, below: real) {
    && Stands(mascot, display)
    && (display.width <= DEFAULT_VIEWPORT_WIDTH
        || Min(mascot.width, display.width) + PADDING_RIGHT <= DEFAULT_VIEWPORT_WIDTH)
    && (display.height <= DEFAULT_VIEWPORT_HEIGHT || mascot.height + below <= DEFAULT_VIEWPORT_HEIGHT)
  }

  // ---------- one axis at a time ----------

  /** A window of length v, placed so that it ends where the longer of the padded mascot
      [a, a + w + p] and the tray [t, t + l] ends, covers mascot and tray. */
  lemma WindowCovers(d: real, dl: real, v: real, a: real, w: real, p: real, t: real, l: real)
    requires Whole(d) && Whole(dl) && Whole(v) && Whole(a) && Whole(w) && Whole(p) && Whole(t) && Whole(l)
    requires 0.0 <= v <= dl && 0.0 <= p
    requires d <= a && a + w <= d + dl && d <= t && t + l <= d + dl
    requires v == dl || (w + p <= v && l <= v && a + w + p - t <= v && t + l - a <= v)
    ensures var x := ClampCoordinate(Max(a + w + p, t + l) - v, d, d + dl - v);
            Whole(x) && d <= x && x + v <= d + dl && x <= a && a + w <= x + v && x <= t && t + l <= x + v
  {
    WholeSum(a, w);
    WholeSum(a + w, p);
    WholeSum(t, l);
    WholeSum(d, dl);
    WholeSum(d + dl, v);
    WholeSum(Max(a + w + p, t + l), v);
  }

  predicate Across(anchor: Rect, display: Rect) {
    display.x <= anchor.x && anchor.x + anchor.width <= display.x + display.width
  }

  lemma AnchorAligned(inputs: Inputs, display: Rect)
    requires PixelAligned(inputs, display)
    ensures var a := AnchorOf(inputs, display);
            && WholeRect(a) && Across(a, display)
            && a.width == Min(inputs.mascot.width, display.width)
            && a.height == Min(inputs.mascot.height, display.height)
            && (RectInside(a, display) <==> Stands(inputs.mascot, display))
  {
    hide ClampCoordinate;
    var w, h := Min(inputs.mascot.width, display.width), Min(inputs.mascot.height, display.height);
    WholeSum(display.x, display.width);
    WholeSum(display.x + display.width, w);
    ClampsAcross(inputs.anchor.x, display.x, display.width, w);
    ClampsAbove(inputs.anchor.y, display.y, display.height, inputs.mascot.height);
  }

  lemma ClampsAcross(x: real, d: real, dl: real, w: real)
    requires Whole(d) && Whole(dl) && Whole(w) && 0.0 <= w <= dl
    ensures var r := ClampCoordinate(x, d, d + dl - w); Whole(r) && d <= r && r + w <= d + dl
  {
    WholeSum(d, dl);
    WholeSum(d + dl, w);
  }

  lemma ClampsAbove(y: real, d: real, dl: real, mascotHeight: real)
    requires Whole(d) && Whole(dl) && Whole(mascotHeight) && 0.0 <= mascotHeight && 0.0 <= dl
    ensures var h := Min(mascotHeight, dl);
            var r := ClampCoordinate(y, d, d + dl - h - PADDING_BOTTOM);
            Whole(r) && (d <= r && r + h <= d + dl <==> Stands(Size(0.0, mascotHeight), Rect(0.0, d, 0.0, dl)))
  {
    var h := Min(mascotHeight, dl);
    FloorIs(1.0, 1);
    FloorIs(PADDING_BOTTOM, 8);
    WholeSum(d, dl);
    WholeSum(d + dl, h);
    WholeSum(d + dl - h, PADDING_BOTTOM);
    WholeSum(h, PADDING_BOTTOM);
    WholeSum(h + PADDING_BOTTOM, dl);
    WholeSum(dl, 1.0);
    WholeSum(dl + 1.0, h + PADDING_BOTTOM);
    WholeSum(0.0, d);
    FloorIs(0.0, 0);
    if h + PADDING_BOTTOM == dl + 1.0 {
      HalfBelow(d);
    }
  }

  /** Half a pixel above a whole coordinate rounds to it exactly on the positive side. */
  lemma HalfBelow(d: real)
    requires Whole(d)
    ensures Round(d - 0.5) == if d >= 1.0 then d else d - 1.0
  {
    FloorIs(1.0, 1);
    FloorIs(0.0, 0);
    WholeSum(d, 1.0);
    WholeSum(0.0, d);
    if d >= 1.0 {
      FloorIs(d - 0.5 + 0.5, d.Floor);
    } else {
      FloorIs(0.5 - (d - 0.5), 1 - d.Floor);
    }
  }

  lemma TraySizeAligned(inputs: Inputs, display: Rect)
    requires PixelAligned(inputs, display)
    ensures var v := ViewportFor(display);
            Whole(v.width) && Whole(v.height) && 0.0 <= v.width <= display.width && 0.0 <= v.height <= display.height
    ensures TraySizeOf(inputs, display).Some? ==>
              var t := TraySizeOf(inputs, display).value;
              var v := ViewportFor(display);
              && WholeSize(t)
              && t.width <= Max(v.width - PADDING_RIGHT, 0.0)
              && t.height <= Max(v.height - Min(inputs.mascot.height, display.height) - PADDING_BOTTOM - TRAY_GAP, 0.0)
  {
    FloorIs(356.0, 356); FloorIs(320.0, 320); FloorIs(276.0, 276); FloorIs(131.0, 131);
    FloorIs(28.0, 28); FloorIs(8.0, 8); FloorIs(4.0, 4); FloorIs(0.0, 0);
    hide ClampCoordinate;
    var v := ViewportFor(display);
    var h := Min(inputs.mascot.height, display.height);
    WholeSum(v.width, PADDING_LEFT);
    WholeSum(v.width - PADDING_LEFT, PADDING_RIGHT);
    WholeSum(v.height, h);
    WholeSum(v.height - h, PADDING_BOTTOM);
    WholeSum(v.height - h - PADDING_BOTTOM, TRAY_GAP);
  }

  /** The tray position before clamping is whole. */
  lemma TrayRectAligned(a: Rect, tray: Size, placement: Placement)
    requires Whole(a.x) && Whole(a.y) && Whole(a.width) && Whole(a.height) && WholeSize(tray)
    ensures var t := TrayRect(a, tray, placement); Whole(t.x) && Whole(t.y)
  {
    FloorIs(TRAY_GAP, 4);
    WholeSum(a.x, a.width);
    WholeSum(a.x + a.width, tray.width);
    WholeSum(a.y, tray.height);
    WholeSum(a.y - tray.height, TRAY_GAP);
    WholeSum(a.y, a.height);
    WholeSum(a.y + a.height, TRAY_GAP);
  }

  lemma ClampedTrayAligned(t: Rect, display: Rect)
    requires WholeDisplay(display)
    requires Whole(t.x) && Whole(t.y) && WholeSize(Size(t.width, t.height))
    requires t.width <= display.width && t.height <= display.height
    ensures var c := ClampToDisplay(t, display);
            Whole(c.x) && Whole(c.y) && RectInside(c, display)
            && (RectInside(t, display) ==> c == t)
            && (c.x == t.x || (c.x == display.x && t.x < c.x)
                || (c.x == display.x + display.width - t.width && c.x < t.x))
            && (c.y == t.y || (c.y == display.y && t.y < c.y)
                || (c.y == display.y + display.height - t.height && c.y < t.y))
  {
    WholeSum(display.x, display.width);
    WholeSum(display.x + display.width, t.width);
    WholeSum(display.y, display.height);
    WholeSum(display.y + display.height, t.height);
  }

  // ---------- containment ----------

  /** Which coordinates the window takes: it ends where its content ends. */
  lemma WindowEndsWithContent(a: Rect, tray: Option<Rect>, display: Rect)
    ensures var v := ViewportFor(display);
            var t := if tray.Some? then tray.value else a;
            && WindowAround(a, tray, display) == Rect(
                 ClampCoordinate(Max(a.x + a.width + PADDING_RIGHT, t.x + t.width) - v.width,
                                 display.x, display.x + display.width - v.width),
                 ClampCoordinate(Max(a.y + a.height + PADDING_BOTTOM, t.y + t.height) - v.height,
                                 display.y, display.y + display.height - v.height),
                 v.width, v.height)
  {
    if tray.Some? {
      var t := tray.value;
      var u := Union(ExpandMascot(a), t);
      assert u.x + u.width == Max(a.x + a.width + PADDING_RIGHT, t.x + t.width);
      assert u.y + u.height == Max(a.y + a.height + PADDING_BOTTOM, t.y + t.height);
    }
  }

  /** Content no longer than the window fits inside it. */
  lemma WindowCoversContent(a: Rect, tray: Option<Rect>, display: Rect)
    requires WholeDisplay(display) && WholeRect(a) && (tray.Some? ==> WholeRect(tray.value))
    requires var v := ViewportFor(display);
             var t := if tray.Some? then tray.value else a;
             && Whole(v.width) && Whole(v.height)
             && 0.0 <= v.width <= display.width && 0.0 <= v.height <= display.height
             && RectInside(a, display) && RectInside(t, display)
             && (v.width == display.width
                 || (t.width <= v.width && a.width + PADDING_RIGHT <= v.width
                     && a.x + a.width + PADDING_RIGHT - t.x <= v.width && t.x + t.width - a.x <= v.width))
             && (v.height == display.height
                 || (t.height <= v.height && a.height + PADDING_BOTTOM <= v.height
                     && a.y + a.height + PADDING_BOTTOM - t.y <= v.height && t.y + t.height - a.y <= v.height))
    ensures var window := WindowAround(a, tray, display);
            var t := if tray.Some? then tray.value else a;
            window.width == ViewportFor(display).width && window.height == ViewportFor(display).height
            && WholeRect(window) && RectInside(window, display) && RectInside(a, window) && RectInside(t, window)
  {
    hide WindowAround, ClampCoordinate, ViewportFor;
    WindowEndsWithContent(a, tray, display);
    FloorIs(PADDING_RIGHT, 28);
    FloorIs(PADDING_BOTTOM, 8);
    var v := ViewportFor(display);
    var t := if tray.Some? then tray.value else a;
    WindowCovers(display.x, display.width, v.width, a.x, a.width, PADDING_RIGHT, t.x, t.width);
    WindowCovers(display.y, display.height, v.height, a.y, a.height, PADDING_BOTTOM, t.y, t.height);
  }

  lemma TrayBeside(a: Rect, tray: Size, placement: Placement, display: Rect)
    requires WholeDisplay(display)
    requires Whole(a.x) && Whole(a.y) && WholeSize(Size(a.width, a.height)) && WholeSize(tray)
    requires RectInside(a, display)
    requires tray.width <= display.width && tray.height <= display.height
    ensures var t := ClampToDisplay(TrayRect(a, tray, placement), display);
            && Whole(t.x) && Whole(t.y) && t.width == tray.width && t.height == tray.height && RectInside(t, display)
            && a.x + a.width - t.x <= Max(a.width, tray.width) && t.x + t.width - a.x <= Max(a.width, tray.width)
            && a.y + a.height - t.y <= tray.height + TRAY_GAP + a.height
            && t.y + t.height - a.y <= tray.height + TRAY_GAP + a.height
  {
    TrayRectAligned(a, tray, placement);
    ClampedTrayAligned(TrayRect(a, tray, placement), display);
  }

  lemma RelativeInViewport(rect: Rect, window: Rect, layout: Layout)
    requires WholeRect(rect) && WholeRect(window)
    requires layout.viewportWidth == AsPixels(window.width) && layout.viewportHeight == AsPixels(window.height)
    ensures RectInside(rect, window) <==> InViewport(RelativeRect(rect, window), layout)
  {
    WholeSum(rect.x, window.x);
    WholeSum(rect.y, window.y);
    WholePixel(rect.x - window.x);
    WholePixel(rect.y - window.y);
    WholePixel(rect.width);
    WholePixel(rect.height);
    WholePixel(window.width);
    WholePixel(window.height);
  }

  predicate Contained(layout: Layout, display: Rect) {
    && RectInside(layout.windowBounds, display)
    && InViewport(layout.mascot, layout)
    && (layout.tray.Some? ==> InViewport(layout.tray.value, layout))
  }

  /** For every anchor and previous placement the window lies on the display and the
      renderer is told to draw both mascot and tray inside it. */
  lemma LayoutContained(inputs: Inputs, display: Rect)
    requires PixelAligned(inputs, display) && HasRoom(inputs.mascot, display, PADDING_BOTTOM)
    requires TraySizeOf(inputs, display).None? || HasRoom(inputs.mascot, display, PADDING_BOTTOM + TRAY_GAP)
    ensures Contained(LayoutOf(inputs, display), display)
    ensures LayoutOf(inputs, display).tray.Some? <==> TraySizeOf(inputs, display).Some?
  {
    hide AnchorOf, TraySizeOf, PlacementOf, TrayRect, ClampCoordinate, WindowAround, RelativeRect, AsPixels;
    AnchorAligned(inputs, display);
    TraySizeAligned(inputs, display);
    var a := AnchorOf(inputs, display);
    var size := TraySizeOf(inputs, display);
    var placement := PlacementOf(inputs, display);
    if size.Some? {
      TrayBeside(a, size.value, placement, display);
    }
    var tray := TrayOf(inputs, display);
    WindowCoversContent(a, tray, display);
    var layout := Assemble(a, placement, tray, display);
    RelativeInViewport(a, layout.windowBounds, layout);
    if tray.Some? {
      RelativeInViewport(tray.value, layout.windowBounds, layout);
    }
  }

  lemma WindowOnDisplay(a: Rect, tray: Option<Rect>, display: Rect)
    requires WholeDisplay(display)
    ensures WholeRect(WindowAround(a, tray, display)) && RectInside(WindowAround(a, tray, display), display)
    ensures WindowAround(a, tray, display).width == ViewportFor(display).width
    ensures WindowAround(a, tray, display).height == ViewportFor(display).height
  {
    hide WindowAround, ClampCoordinate;
    FloorIs(356.0, 356); FloorIs(320.0, 320);
    WindowEndsWithContent(a, tray, display);
    var v := ViewportFor(display);
    var t := if tray.Some? then tray.value else a;
    ClampsAcross(Max(a.x + a.width + PADDING_RIGHT, t.x + t.width) - v.width, display.x, display.width, v.width);
    ClampsAcross(Max(a.y + a.height + PADDING_BOTTOM, t.y + t.height) - v.height, display.y, display.height, v.height);
  }

  function At(inputs: Inputs, x: real, y: real): Inputs {
    inputs.(anchor := Rect(x, y, inputs.anchor.width, inputs.anchor.height))
  }

  lemma PastOrigin(d: real, dl: real, v: real, end: real)
    requires Whole(d) && Whole(dl) && Whole(v) && v < dl && end >= d + v + 1.0
    ensures ClampCoordinate(end - v, d, d + dl - v) >= d + 1.0
  {
    FloorIs(1.0, 1);
    WholeSum(dl, v);
    WholeSum(0.0, dl - v);
    FloorIs(0.0, 0);
    var rounded := Round(end - v);
    WholeSum(rounded, d);
    WholeSum(0.0, rounded - d);
  }

  lemma WindowPastOrigin(a: Rect, tray: Option<Rect>, display: Rect)
    requires WholeDisplay(display) && WholeRect(a) && a.x == display.x && a.y == display.y
    requires (display.width > DEFAULT_VIEWPORT_WIDTH && a.width + PADDING_RIGHT > DEFAULT_VIEWPORT_WIDTH)
             || (display.height > DEFAULT_VIEWPORT_HEIGHT && a.height + PADDING_BOTTOM > DEFAULT_VIEWPORT_HEIGHT)
    ensures var w := WindowAround(a, tray, display); w.x >= a.x + 1.0 || w.y >= a.y + 1.0
  {
    hide WindowAround, ClampCoordinate;
    FloorIs(356.0, 356); FloorIs(320.0, 320); FloorIs(28.0, 28); FloorIs(8.0, 8);
    WindowEndsWithContent(a, tray, display);
    var t := if tray.Some? then tray.value else a;
    if display.width > DEFAULT_VIEWPORT_WIDTH && a.width + PADDING_RIGHT > DEFAULT_VIEWPORT_WIDTH {
      WholeSum(a.width, PADDING_RIGHT);
      WholeSum(DEFAULT_VIEWPORT_WIDTH, a.width + PADDING_RIGHT);
      PastOrigin(display.x, display.width, DEFAULT_VIEWPORT_WIDTH,
                 Max(a.x + a.width + PADDING_RIGHT, t.x + t.width));
    } else {
      WholeSum(a.height, PADDING_BOTTOM);
      WholeSum(DEFAULT_VIEWPORT_HEIGHT, a.height + PADDING_BOTTOM);
      PastOrigin(display.y, display.height, DEFAULT_VIEWPORT_HEIGHT,
                 Max(a.y + a.height + PADDING_BOTTOM, t.y + t.height));
    }
  }

  /** Without the room the mascot is cut off once it is dragged to the display's origin. */
  lemma MascotCutWithoutRoom(inputs: Inputs, display: Rect)
    requires PixelAligned(inputs, display)
    requires !HasRoom(inputs.mascot, display, PADDING_BOTTOM)
    ensures var layout := LayoutOf(At(inputs, display.x, display.y), display);
            !InViewport(layout.mascot, layout)
  {
    hide AnchorOf, PlacementOf, TrayOf, WindowAround, RelativeRect, AsPixels, ViewportFor;
    var moved := At(inputs, display.x, display.y);
    AnchorAligned(moved, display);
    var a, tray := AnchorOf(moved, display), TrayOf(moved, display);
    var layout := LayoutOf(moved, display);
    WindowOnDisplay(a, tray, display);
    RelativeInViewport(a, layout.windowBounds, layout);
    if Stands(inputs.mascot, display) {
      OriginKept(moved, display);
      WindowPastOrigin(a, tray, display);
    }
  }

  lemma OriginKept(inputs: Inputs, display: Rect)
    requires PixelAligned(inputs, display) && Stands(inputs.mascot, display)
    requires inputs.anchor.x == display.x && inputs.anchor.y == display.y
    ensures AnchorOf(inputs, display).x == display.x && AnchorOf(inputs, display).y == display.y
  {
    hide Round;
    HalfBelow(display.y);
  }

  /** Without a tray, the room is exactly what keeps the mascot visible at every anchor. */
  lemma MascotVisibleExactly(inputs: Inputs, display: Rect)
    requires PixelAligned(inputs, display) && TraySizeOf(inputs, display).None?
    ensures (forall x: real, y: real ::
               var layout := LayoutOf(At(inputs, x, y), display); InViewport(layout.mascot, layout))
            <==> HasRoom(inputs.mascot, display, PADDING_BOTTOM)
  {
    if HasRoom(inputs.mascot, display, PADDING_BOTTOM) {
      forall x: real, y: real
        ensures var layout := LayoutOf(At(inputs, x, y), display); InViewport(layout.mascot, layout)
      {
        LayoutContained(At(inputs, x, y), display);
      }
    } else {
      MascotCutWithoutRoom(inputs, display);
    }
  }

  /** With any tray, anchor and previous placement, the room has to include the gap. */
  lemma LayoutContainedExactly(mascot: Size, display: Rect)
    requires WholeDisplay(display) && WholeSize(mascot)
    ensures (forall inputs: Inputs ::
               PixelAligned(inputs, display) && inputs.mascot == mascot
               ==> Contained(LayoutOf(inputs, display), display))
            <==> HasRoom(mascot, display, PADDING_BOTTOM + TRAY_GAP)
  {
    hide LayoutOf, Contained, TraySizeOf;
    if HasRoom(mascot, display, PADDING_BOTTOM + TRAY_GAP) {
      forall inputs: Inputs | PixelAligned(inputs, display) && inputs.mascot == mascot
        ensures Contained(LayoutOf(inputs, display), display)
      {
        LayoutContained(inputs, display);
      }
    } else {
      var inputs := EmptyTrayAtBottom(mascot, display);
      FloorIs(0.0, 0);
      assert PixelAligned(At(inputs, display.x, display.y), display);
      assert PixelAligned(inputs, display);
      if HasRoom(mascot, display, PADDING_BOTTOM) {
        EmptyTrayCut(mascot, display);
      } else {
        MascotCutWithoutRoom(inputs, display);
        NotContained(LayoutOf(At(inputs, display.x, display.y), display), display);
      }
    }
  }

  lemma NotContained(layout: Layout, display: Rect)
    requires !InViewport(layout.mascot, layout) || (layout.tray.Some? && !InViewport(layout.tray.value, layout))
    ensures !Contained(layout, display)
  {
  }

  /** An empty tray that was above a mascot now standing at the bottom of the display. */
  function EmptyTrayAtBottom(mascot: Size, display: Rect): Inputs {
    Inputs(Rect(display.x, display.y + display.height - mascot.height - PADDING_BOTTOM, mascot.width, mascot.height),
           mascot, true, Some(Size(0.0, 0.0)), TopStart)
  }

  lemma EmptyTrayAnchor(mascot: Size, display: Rect)
    requires WholeDisplay(display) && WholeSize(mascot) && mascot.height + PADDING_BOTTOM <= display.height
    requires display.height >= DEFAULT_VIEWPORT_HEIGHT
    ensures var inputs := EmptyTrayAtBottom(mascot, display);
            && AnchorOf(inputs, display)
               == Rect(display.x, inputs.anchor.y, Min(mascot.width, display.width), mascot.height)
            && TraySizeOf(inputs, display) == Some(Size(0.0, 0.0))
            && PixelAligned(inputs, display) && Whole(inputs.anchor.y)
  {
    hide Round;
    FloorIs(0.0, 0);
    FloorIs(PADDING_BOTTOM, 8);
    WholeSum(display.y, display.height);
    WholeSum(display.y + display.height, mascot.height);
    WholeSum(display.y + display.height - mascot.height, PADDING_BOTTOM);
  }

  lemma EmptyTrayStaysAbove(a: Rect, display: Rect, preferred: Placement)
    requires WholeDisplay(display) && WholeRect(a) && RectInside(a, display) && a.x == display.x
    ensures ChoosePlacement(a, display, preferred, TopStart, Size(0.0, 0.0)) == TopStart
  {
    hide OverflowPenalty, Pixel, ChoosePlacement;
    FloorIs(0.0, 0);
    var empty := Size(0.0, 0.0);
    forall p: Placement ensures OutOfBoundsScore(TrayRect(a, empty, p), display) >= 0 {
      TrayRectAligned(a, empty, p);
      OverflowScore(TrayRect(a, empty, p), display, 0.0);
    }
    OverflowOfEmpty(Max(display.y - (a.y - TRAY_GAP), 0.0));
    var chosen := ChoosePlacement(a, display, preferred, TopStart, empty);
    assert PlacementScore(a, display, preferred, TopStart, empty, chosen)
        <= PlacementScore(a, display, preferred, TopStart, empty, TopStart);
  }

  lemma OverflowOfEmpty(top: real)
    requires 0.0 <= top <= 4.0
    ensures Pixel(OverflowPenalty(0.0, top, 0.0, 0.0, 0.0, 0.0)) <= 5
  {
  }

  /** It stays above because of the bias, out of the window's reach. */
  lemma EmptyTrayCut(mascot: Size, display: Rect)
    requires WholeDisplay(display) && WholeSize(mascot)
    requires HasRoom(mascot, display, PADDING_BOTTOM) && !HasRoom(mascot, display, PADDING_BOTTOM + TRAY_GAP)
    ensures !Contained(LayoutOf(EmptyTrayAtBottom(mascot, display), display), display)
  {
    hide AnchorOf, TraySizeOf, WindowAround, ClampCoordinate, RelativeRect, AsPixels, ChoosePlacement;
    var inputs := EmptyTrayAtBottom(mascot, display);
    EmptyTrayAnchor(mascot, display);
    AnchorAligned(inputs, display);
    var a := AnchorOf(inputs, display);
    EmptyTrayStaysAbove(a, display, PreferredPlacement(a, display));
    FloorIs(0.0, 0);
    TrayRectAligned(a, Size(0.0, 0.0), TopStart);
    ClampedTrayAligned(TrayRect(a, Size(0.0, 0.0), TopStart), display);
    var tray := ClampToDisplay(TrayRect(a, Size(0.0, 0.0), TopStart), display);
    assert TrayOf(inputs, display) == Some(tray);
    WindowOnDisplay(a, Some(tray), display);
    WindowAtBottom(a, tray, display);
    var layout := LayoutOf(inputs, display);
    RelativeInViewport(tray, layout.windowBounds, layout);
    NotContained(layout, display);
  }

  lemma WindowAtBottom(a: Rect, tray: Rect, display: Rect)
    requires WholeDisplay(display) && display.height >= DEFAULT_VIEWPORT_HEIGHT
    requires a.y + a.height + PADDING_BOTTOM == display.y + display.height
    requires tray.y + tray.height <= display.y + display.height
    ensures WindowAround(a, Some(tray), display).y == display.y + display.height - DEFAULT_VIEWPORT_HEIGHT
  {
    hide WindowAround, Round;
    WindowEndsWithContent(a, Some(tray), display);
    FloorIs(DEFAULT_VIEWPORT_HEIGHT, 320);
    WholeSum(display.y, display.height);
    WholeSum(display.y + display.height, DEFAULT_VIEWPORT_HEIGHT);
  }

  // ---------- hysteresis ----------

  /** A whole rectangle that is not on the display scores at least one pixel of overflow
      plus that pixel times the side it crosses. */
  lemma OverflowScore(t: Rect, display: Rect, side: real)
    requires WholeDisplay(display) && Whole(t.x) && Whole(t.y) && WholeSize(Size(t.width, t.height))
    requires Whole(side) && 0.0 <= side <= t.width
    requires Across(t, display) || side <= t.height
    ensures RectInside(t, display) ==> OutOfBoundsScore(t, display) == 0
    ensures !RectInside(t, display) ==> OutOfBoundsScore(t, display) >= 1 + side.Floor
  {
    hide OverflowPenalty;
    var left, right := Overflow(t.x, t.width, display.x, display.width);
    var top, bottom := Overflow(t.y, t.height, display.y, display.height);
    PenaltyBound(left, top, right, bottom, t.width, t.height, side);
    WholePixel(OverflowPenalty(left, top, right, bottom, t.width, t.height));
  }

  lemma PenaltyBound(left: real, top: real, right: real, bottom: real, width: real, height: real, side: real)
    requires Whole(left) && Whole(top) && Whole(right) && Whole(bottom) && Whole(width) && Whole(height)
    requires left >= 0.0 && top >= 0.0 && right >= 0.0 && bottom >= 0.0
    requires 0.0 <= side <= width && 0.0 <= height && (left + right > 0.0 ==> side <= height)
    ensures var total := OverflowPenalty(left, top, right, bottom, width, height);
            Whole(total) && total >= 0.0
            && (left + right == 0.0 && top + bottom == 0.0 ==> total == 0.0)
            && (left + right > 0.0 || top + bottom > 0.0 ==> total >= 1.0 + side)
  {
    hide Strip;
    WholeSum(left, right);
    WholeSum(top, bottom);
    OverflowAcross(left + right, height, side);
    OverflowAcross(top + bottom, width, side);
    PenaltyTotal(left + right, top + bottom, Strip(left + right, height), Strip(top + bottom, width), side);
  }

  lemma PenaltyTotal(across: real, along: real, acrossCost: real, alongCost: real, side: real)
    requires Whole(across) && Whole(along) && Whole(acrossCost) && Whole(alongCost)
    requires across >= 0.0 && along >= 0.0 && acrossCost >= 0.0 && alongCost >= 0.0
    requires across == 0.0 ==> acrossCost == 0.0
    requires along == 0.0 ==> alongCost == 0.0
    requires across > 0.0 ==> across >= 1.0 && acrossCost >= side
    requires along > 0.0 ==> along >= 1.0 && alongCost >= side
    ensures var total := across + along + (acrossCost + alongCost);
            Whole(total) && total >= 0.0
            && (across == 0.0 && along == 0.0 ==> total == 0.0)
            && (across > 0.0 || along > 0.0 ==> total >= 1.0 + side)
  {
    WholeSum(across, along);
    WholeSum(acrossCost, alongCost);
    WholeSum(across + along, acrossCost + alongCost);
  }

  lemma Overflow(x: real, length: real, from: real, extent: real) returns (near: real, far: real)
    requires Whole(x) && Whole(length) && Whole(from) && Whole(extent)
    ensures near == Max(from - x, 0.0) && far == Max(x + length - from - extent, 0.0)
    ensures Whole(near) && Whole(far) && near >= 0.0 && far >= 0.0
    ensures near + far > 0.0 <==> !(from <= x && x + length <= from + extent)
  {
    near, far := Max(from - x, 0.0), Max(x + length - from - extent, 0.0);
    FloorIs(0.0, 0);
    WholeSum(from, x);
    WholeSum(x, length);
    WholeSum(x + length, from);
    WholeSum(x + length - from, extent);
  }

  lemma OverflowAcross(amount: real, length: real, side: real)
    requires Whole(amount) && Whole(length) && amount >= 0.0
    requires 0.0 <= length && (amount > 0.0 ==> side <= length)
    ensures Whole(Strip(amount, length)) && Strip(amount, length) >= 0.0
    ensures amount == 0.0 ==> Strip(amount, length) == 0.0
    ensures amount > 0.0 ==> amount >= 1.0 && Strip(amount, length) >= side
  {
    assert Strip(amount, length) == amount * length;
    WholeProduct(amount, length);
    if amount > 0.0 {
      FloorIs(0.0, 0);
      WholeSum(0.0, amount);
      ProductAtLeast(amount, length);
    }
  }

  lemma ProductAtLeast(factor: real, length: real)
    requires length >= 0.0 && factor >= 1.0
    ensures factor * length >= length
  {
    assert (factor - 1.0) * length >= 0.0;
    assert factor * length == (factor - 1.0) * length + length;
  }

  predicate Fits(anchor: Rect, display: Rect, tray: Size, placement: Placement) {
    RectInside(TrayRect(anchor, tray, placement), display)
  }

  function Chosen(anchor: Rect, display: Rect, previous: Placement, tray: Size): Placement {
    ChoosePlacement(anchor, display, PreferredPlacement(anchor, display), previous, tray)
  }

  /** Half the display always has at least as much room as the other half. */
  lemma PreferredFitsIfAnyDoes(anchor: Rect, display: Rect, tray: Size, placement: Placement)
    requires anchor.height >= 0.0 && tray.height >= 0.0
    requires Across(anchor, display) && Fits(anchor, display, tray, placement)
    ensures Fits(anchor, display, tray, PreferredPlacement(anchor, display))
  {
  }

  /** A tray for which a pixel of overflow costs more than the bias is worth: it is wide, and
      high unless it is no wider than the mascot and so never overflows sideways. */
  predicate Harmless(mascotWidth: real, tray: Size) {
    tray.width >= 64.0 && (tray.height >= 64.0 || tray.width <= mascotWidth)
  }

  lemma OverflowDear(anchor: Rect, display: Rect, tray: Size, placement: Placement)
    requires WholeDisplay(display) && WholeRect(anchor) && Across(anchor, display)
    requires WholeSize(tray) && Harmless(anchor.width, tray)
    ensures var score := OutOfBoundsScore(TrayRect(anchor, tray, placement), display);
            if Fits(anchor, display, tray, placement) then score == 0 else score >= 65
  {
    hide OutOfBoundsScore;
    FloorIs(64.0, 64);
    TrayRectAligned(anchor, tray, placement);
    OverflowScore(TrayRect(anchor, tray, placement), display, 64.0);
  }

  /** The bias towards the previous placement never hides part of such a tray if it could be
      shown whole. */
  lemma ChosenFitsIffAnyDoes(anchor: Rect, display: Rect, previous: Placement, tray: Size)
    requires WholeDisplay(display) && WholeRect(anchor) && Across(anchor, display)
    requires WholeSize(tray) && Harmless(anchor.width, tray)
    ensures Fits(anchor, display, tray, Chosen(anchor, display, previous, tray))
            <==> exists p: Placement :: Fits(anchor, display, tray, p)
  {
    hide OutOfBoundsScore, Fits, ChoosePlacement;
    var preferred := PreferredPlacement(anchor, display);
    if p: Placement :| Fits(anchor, display, tray, p) {
      PreferredFitsIfAnyDoes(anchor, display, tray, p);
      OverflowDear(anchor, display, tray, preferred);
      OverflowDear(anchor, display, tray, Chosen(anchor, display, previous, tray));
      ScoresCompared(anchor, display, preferred, previous, tray);
    }
  }

  lemma ScoresCompared(anchor: Rect, display: Rect, preferred: Placement, previous: Placement, tray: Size)
    ensures var chosen := ChoosePlacement(anchor, display, preferred, previous, tray);
            OutOfBoundsScore(TrayRect(anchor, tray, chosen), display)
              <= OutOfBoundsScore(TrayRect(anchor, tray, preferred), display)
                 + (if chosen == preferred then 0 else 64)
  {
    var chosen := ChoosePlacement(anchor, display, preferred, previous, tray);
    assert PlacementScore(anchor, display, preferred, previous, tray, chosen)
        <= PlacementScore(anchor, display, preferred, previous, tray, preferred);
  }

  /** The tray sizes that the layout of a mascot can arrive at. */
  predicate Holdable(mascot: Size, tray: Size) {
    && tray.width <= DEFAULT_VIEWPORT_WIDTH - PADDING_RIGHT
    && tray.height <= Max(DEFAULT_VIEWPORT_HEIGHT - mascot.height - PADDING_BOTTOM - TRAY_GAP, 0.0)
  }

  lemma HeldTray(inputs: Inputs, display: Rect)
    requires PixelAligned(inputs, display) && TraySizeOf(inputs, display).Some?
    ensures var tray := TraySizeOf(inputs, display).value;
            && Holdable(inputs.mascot, tray)
            && tray.width <= Max(display.width - PADDING_RIGHT, 0.0)
  {
    hide TraySizeOf;
    TraySizeAligned(inputs, display);
  }

  /** What the layout does with a tray that some placement could show whole. */
  ghost predicate TrayShownWhole(inputs: Inputs, display: Rect)
    requires TraySizeOf(inputs, display).Some?
  {
    var anchor, tray := AnchorOf(inputs, display), TraySizeOf(inputs, display).value;
    (exists p: Placement :: Fits(anchor, display, tray, p))
    ==> Fits(anchor, display, tray, PlacementOf(inputs, display))
  }

  /** A cheap enough overflow above the mascot is kept although another placement fits. */
  lemma BiasKeepsCut(anchor: Rect, display: Rect, tray: Size, preferred: Placement)
    requires WholeDisplay(display) && WholeRect(anchor) && WholeSize(tray) && preferred != TopStart
    requires !Fits(anchor, display, tray, TopStart)
    requires OutOfBoundsScore(TrayRect(anchor, tray, TopStart), display) <= 64
    ensures !Fits(anchor, display, tray, ChoosePlacement(anchor, display, preferred, TopStart, tray))
  {
    hide OutOfBoundsScore, ChoosePlacement;
    var chosen := ChoosePlacement(anchor, display, preferred, TopStart, tray);
    FloorIs(0.0, 0);
    TrayRectAligned(anchor, tray, chosen);
    OverflowScore(TrayRect(anchor, tray, chosen), display, 0.0);
    assert PlacementScore(anchor, display, preferred, TopStart, tray, TopStart) <= 0;
    assert OutOfBoundsScore(TrayRect(anchor, tray, chosen), display) < 0
        || PlacementScore(anchor, display, preferred, TopStart, tray, chosen) >= 0 || chosen == TopStart;
  }

  /** An overlay whose mascot stands at `x` and `y`, on a display with 1000 pixels to spare. */
  function Dragged(mascot: Size, tray: Size, x: real, y: real): Inputs {
    Inputs(Rect(x, y, mascot.width, mascot.height), mascot, true, Some(tray), TopStart)
  }

  function Spacious(mascot: Size): Rect { Rect(0.0, 0.0, mascot.width + 1000.0, mascot.height + 1000.0) }

  lemma DraggedLayout(mascot: Size, tray: Size, x: real, y: real)
    requires WholeSize(mascot) && WholeSize(tray) && Holdable(mascot, tray)
    requires Whole(x) && Whole(y) && 0.0 <= x <= 1000.0 && 0.0 <= y <= 1000.0 - PADDING_BOTTOM
    ensures var inputs, display := Dragged(mascot, tray, x, y), Spacious(mascot);
            && PixelAligned(inputs, display) && WholeRect(inputs.anchor)
            && AnchorOf(inputs, display) == inputs.anchor
            && TraySizeOf(inputs, display) == Some(tray)
  {
    hide Round;
    FloorIs(0.0, 0);
    FloorIs(1000.0, 1000);
    WholeSum(mascot.width, 1000.0);
    WholeSum(mascot.height, 1000.0);
  }

  /** One pixel of vertical overflow of a narrow tray costs less than the bias is worth. */
  lemma NarrowTrayCut(mascot: Size, tray: Size)
    requires WholeSize(mascot) && WholeSize(tray) && Holdable(mascot, tray) && tray.width <= 63.0
    ensures var inputs, display := Dragged(mascot, tray, 0.0, tray.height + 3.0), Spacious(mascot);
            && PixelAligned(inputs, display) && TraySizeOf(inputs, display) == Some(tray)
            && !TrayShownWhole(inputs, display)
  {
    hide AnchorOf, TraySizeOf, OverflowPenalty, Pixel, ChoosePlacement;
    FloorIs(0.0, 0);
    FloorIs(3.0, 3);
    WholeSum(tray.height, 3.0);
    DraggedLayout(mascot, tray, 0.0, tray.height + 3.0);
    var anchor, display := Dragged(mascot, tray, 0.0, tray.height + 3.0).anchor, Spacious(mascot);
    assert PreferredPlacement(anchor, display) == BottomStart;
    OneAcross(tray.width, tray.height);
    assert OutOfBoundsScore(TrayRect(anchor, tray, TopStart), display) <= 64;
    BiasKeepsCut(anchor, display, tray, BottomStart);
    assert Fits(anchor, display, tray, BottomStart);
  }

  /** The same for one pixel of horizontal overflow of a flat tray wider than the mascot. */
  lemma FlatTrayCut(mascot: Size, tray: Size)
    requires WholeSize(mascot) && WholeSize(tray) && Holdable(mascot, tray)
    requires tray.width >= 64.0 && tray.height <= 63.0 && mascot.width < tray.width
    ensures var inputs, display := Dragged(mascot, tray, mascot.width + 1001.0 - tray.width, 500.0), Spacious(mascot);
            && PixelAligned(inputs, display) && TraySizeOf(inputs, display) == Some(tray)
            && !TrayShownWhole(inputs, display)
  {
    hide AnchorOf, TraySizeOf, OverflowPenalty, Pixel, ChoosePlacement;
    var x := mascot.width + 1001.0 - tray.width;
    FloorIs(500.0, 500);
    FloorIs(1001.0, 1001);
    FloorIs(1.0, 1);
    WholeSum(mascot.width, 1001.0);
    WholeSum(mascot.width + 1001.0, tray.width);
    WholeSum(mascot.width, tray.width);
    DraggedLayout(mascot, tray, x, 500.0);
    var anchor, display := Dragged(mascot, tray, x, 500.0).anchor, Spacious(mascot);
    assert PreferredPlacement(anchor, display) == TopEnd;
    OneAcross(tray.width, tray.height);
    assert OutOfBoundsScore(TrayRect(anchor, tray, TopStart), display) <= 64;
    BiasKeepsCut(anchor, display, tray, TopEnd);
    assert Fits(anchor, display, tray, TopEnd);
  }

  lemma OneAcross(width: real, height: real)
    requires WholeSize(Size(width, height))
    ensures width <= 63.0 ==> Pixel(OverflowPenalty(0.0, 1.0, 0.0, 0.0, width, height)) <= 64
    ensures height <= 63.0 ==> Pixel(OverflowPenalty(0.0, 0.0, 1.0, 0.0, width, height)) <= 64
  {
  }

  lemma HarmlessShownWhole(inputs: Inputs, display: Rect)
    requires PixelAligned(inputs, display) && TraySizeOf(inputs, display).Some?
    requires Harmless(inputs.mascot.width, TraySizeOf(inputs, display).value)
    ensures TrayShownWhole(inputs, display)
  {
    hide AnchorOf, TraySizeOf, Fits, ChoosePlacement;
    AnchorAligned(inputs, display);
    HeldTray(inputs, display);
    TraySizeAligned(inputs, display);
    ChosenFitsIffAnyDoes(AnchorOf(inputs, display), display, inputs.previous, TraySizeOf(inputs, display).value);
  }

  /** Over all displays, anchors and previous placements, the bias never hides part of a tray
      that could be shown whole, exactly for the harmless trays among those a layout can have. */
  lemma HysteresisHarmlessExactly(mascot: Size, tray: Size)
    requires WholeSize(mascot) && WholeSize(tray)
    ensures (forall inputs: Inputs, display: Rect ::
               PixelAligned(inputs, display) && inputs.mascot == mascot && TraySizeOf(inputs, display) == Some(tray)
               ==> TrayShownWhole(inputs, display))
            <==> (Holdable(mascot, tray) ==> Harmless(mascot.width, tray))
  {
    hide AnchorOf, TraySizeOf, PlacementOf, TrayShownWhole, PixelAligned;
    FloorIs(64.0, 64);
    WholeSum(tray.width, 64.0);
    WholeSum(tray.height, 64.0);
    if Holdable(mascot, tray) && !Harmless(mascot.width, tray) {
      if tray.width < 64.0 {
        NarrowTrayCut(mascot, tray);
      } else {
        FlatTrayCut(mascot, tray);
      }
    } else {
      forall inputs: Inputs, display: Rect
        | PixelAligned(inputs, display) && inputs.mascot == mascot && TraySizeOf(inputs, display) == Some(tray)
        ensures TrayShownWhole(inputs, display)
      {
        HeldTray(inputs, display);
        HarmlessShownWhole(inputs, display);
      }
    }
  }

  // ---------- which placement ----------

  /** The preferred placement is on the side with more room: below only if there is strictly
      more than above, and starting at the mascot's left edge only if there is strictly more to
      its right than to its left. */
  lemma PreferredHasRoom(a: Rect, display: Rect)
    ensures var above, below := a.y - display.y, display.y + display.height - (a.y + a.height);
            var left, right := a.x - display.x, display.x + display.width - (a.x + a.width);
            PreferredPlacement(a, display)
            == if above < below then (if left < right then BottomStart else BottomEnd)
               else (if left < right then TopStart else TopEnd)
  {
  }

  lemma OverflowNatural(anchor: Rect, display: Rect, tray: Size, p: Placement)
    requires WholeDisplay(display) && WholeRect(anchor) && WholeSize(tray)
    ensures OutOfBoundsScore(TrayRect(anchor, tray, p), display) >= 0
    ensures Fits(anchor, display, tray, p) <==> OutOfBoundsScore(TrayRect(anchor, tray, p), display) == 0
  {
    hide OutOfBoundsScore;
    FloorIs(0.0, 0);
    TrayRectAligned(anchor, tray, p);
    OverflowScore(TrayRect(anchor, tray, p), display, 0.0);
  }

  /** A tray that can stay where it was shown whole stays there. */
  lemma FittingPlaceKept(inputs: Inputs, display: Rect)
    requires PixelAligned(inputs, display) && TraySizeOf(inputs, display).Some?
    requires Fits(AnchorOf(inputs, display), display, TraySizeOf(inputs, display).value, inputs.previous)
    ensures PlacementOf(inputs, display) == inputs.previous
  {
    hide AnchorOf, TraySizeOf, OutOfBoundsScore, Fits, TrayRect, PreferredPlacement;
    AnchorAligned(inputs, display);
    TraySizeAligned(inputs, display);
    var a, tray := AnchorOf(inputs, display), TraySizeOf(inputs, display).value;
    forall p: Placement
      ensures OutOfBoundsScore(TrayRect(a, tray, p), display) >= 0
      ensures p == inputs.previous ==> OutOfBoundsScore(TrayRect(a, tray, p), display) == 0
    {
      OverflowNatural(a, display, tray, p);
    }
  }

  /** Otherwise a harmless tray that can be shown whole goes to the preferred placement, in
      whichever order the placements are tried. */
  lemma LostPlaceReplaced(inputs: Inputs, display: Rect, p: Placement)
    requires PixelAligned(inputs, display) && TraySizeOf(inputs, display).Some?
    requires Harmless(inputs.mascot.width, TraySizeOf(inputs, display).value)
    requires var a, tray := AnchorOf(inputs, display), TraySizeOf(inputs, display).value;
             !Fits(a, display, tray, inputs.previous) && Fits(a, display, tray, p)
    ensures PlacementOf(inputs, display) == PreferredPlacement(AnchorOf(inputs, display), display)
  {
    hide AnchorOf, TraySizeOf, OutOfBoundsScore, Fits, TrayRect, PreferredPlacement;
    AnchorAligned(inputs, display);
    TraySizeAligned(inputs, display);
    HeldTray(inputs, display);
    var a, tray := AnchorOf(inputs, display), TraySizeOf(inputs, display).value;
    PreferredFitsIfAnyDoes(a, display, tray, p);
    forall q: Placement
      ensures var score := OutOfBoundsScore(TrayRect(a, tray, q), display);
              if Fits(a, display, tray, q) then score == 0 else score >= 65
    {
      OverflowDear(a, display, tray, q);
    }
  }

  /** Without a tray the placement is the preferred one, wherever it was before. */
  lemma NoTrayPreferred(inputs: Inputs, display: Rect)
    requires inputs.measured && inputs.tray.None?
    ensures PlacementOf(inputs, display) == PreferredPlacement(AnchorOf(inputs, display), display)
    ensures LayoutOf(inputs, display).tray.None?
  {
  }

  /** How much overflow a move from the previous placement has to save. */
  function Threshold(preferred: Placement, previous: Placement, next: Placement): int {
    if next == preferred then 64 else if previous == preferred then 128 else 96
  }

  function OverflowAt(a: Rect, display: Rect, tray: Size, p: Placement): int {
    OutOfBoundsScore(TrayRect(a, tray, p), display)
  }

  /** A tray stays exactly unless some move saves more overflow than its threshold, or as much
      to a placement tried earlier. When it moves, it passes over the preferred placement only
      to save 32 more. */
  lemma MovesExactlyForGain(a: Rect, display: Rect, previous: Placement, tray: Size)
    ensures var preferred, chosen := PreferredPlacement(a, display), Chosen(a, display, previous, tray);
            var stay := OverflowAt(a, display, tray, previous);
            && (chosen == previous <==>
                  forall p: Placement :: p != previous ==>
                    var saved := stay - OverflowAt(a, display, tray, p);
                    || saved < Threshold(preferred, previous, p)
                    || (saved == Threshold(preferred, previous, p) && Rank(previous) < Rank(p)))
            && (chosen != previous && chosen != preferred && preferred != previous ==>
                  OverflowAt(a, display, tray, preferred) - OverflowAt(a, display, tray, chosen) >= 32)
  {
    hide OutOfBoundsScore, TrayRect, PreferredPlacement, ChoosePlacement, Rank;
    RanksDiffer();
    var preferred, chosen := PreferredPlacement(a, display), Chosen(a, display, previous, tray);
    forall p: Placement
      ensures PlacementScore(a, display, preferred, previous, tray, p)
           == OverflowAt(a, display, tray, p) + (if p != preferred then 32 else 0) - (if p == previous then 96 else 0)
    {
    }
    assert PlacementScore(a, display, preferred, previous, tray, chosen)
        <= PlacementScore(a, display, preferred, previous, tray, preferred);
    assert PlacementScore(a, display, preferred, previous, tray, chosen)
        <= PlacementScore(a, display, preferred, previous, tray, previous);
  }

  lemma RanksDiffer()
    ensures forall p: Placement, q: Placement :: Rank(p) == Rank(q) ==> p == q
  {
  }

  /** How many pixels of [x, x + length] lie outside [from, from + extent]. */
  function Outside(x: real, length: real, from: real, extent: real): real {
    length - (Min(x + length, from + extent) - Max(x, from))
  }

  lemma OutsideIs(x: real, length: real, from: real, extent: real)
    requires length <= extent && x <= from + extent && from <= x + length
    ensures Max(from - x, 0.0) + Max(x + length - from - extent, 0.0) == Outside(x, length, from, extent)
  {
  }

  /** The overflow of a tray that touches the display: each row and column outside of it costs
      its pixels and one more. */
  lemma OverflowExactly(t: Rect, display: Rect)
    requires WholeDisplay(display) && WholeRect(t) && t.width <= display.width && t.height <= display.height
    requires t.x <= display.x + display.width && display.x <= t.x + t.width
    requires t.y <= display.y + display.height && display.y <= t.y + t.height
    ensures OutOfBoundsScore(t, display) as real
         == Outside(t.x, t.width, display.x, display.width) * (1.0 + t.height)
            + Outside(t.y, t.height, display.y, display.height) * (1.0 + t.width)
  {
    hide OverflowPenalty, Pixel, Max, Outside;
    var left, right := Overflow(t.x, t.width, display.x, display.width);
    var top, bottom := Overflow(t.y, t.height, display.y, display.height);
    OutsideIs(t.x, t.width, display.x, display.width);
    OutsideIs(t.y, t.height, display.y, display.height);
    PenaltyTwice(left, top, right, bottom, t.width, t.height);
    FloorIs(0.0, 0);
    PenaltyBound(left, top, right, bottom, t.width, t.height, 0.0);
    WholePixel(OverflowPenalty(left, top, right, bottom, t.width, t.height));
  }

  lemma PenaltyTwice(left: real, top: real, right: real, bottom: real, width: real, height: real)
    ensures OverflowPenalty(left, top, right, bottom, width, height)
         == (left + right) * (1.0 + height) + (top + bottom) * (1.0 + width)
  {
  }

  // ---------- a tray beside its mascot ----------

  /** Four pixels above or below, and flush with the mascot's left or right edge. */
  predicate Beside(mascot: PixelRect, tray: PixelRect, placement: Placement) {
    && (if placement.TopStart? || placement.TopEnd? then tray.top + tray.height + 4 == mascot.top
        else mascot.top + mascot.height + 4 == tray.top)
    && (if placement.TopStart? || placement.BottomStart? then tray.left == mascot.left
        else tray.left + tray.width == mascot.left + mascot.width)
  }

  lemma WindowWhole(a: Rect, tray: Option<Rect>, display: Rect)
    requires WholeDisplay(display)
    ensures Whole(WindowAround(a, tray, display).x) && Whole(WindowAround(a, tray, display).y)
  {
    WindowOnDisplay(a, tray, display);
  }

  /** No natural number is nearer to a length than its pixels. */
  lemma NearestNatural(length: real, n: nat)
    ensures var d := AsPixels(length) as real - length;
            var e := n as real - length;
            (if d < 0.0 then -d else d) <= (if e < 0.0 then -e else e)
  {
    hide Pixel;
    var p := Pixel(length);
    if n > p {
      assert n as real >= p as real + 1.0;
    } else if n < p {
      assert n as real + 1.0 <= p as real;
    }
  }

  lemma RelativeWhole(rect: Rect, window: Rect)
    requires WholeRect(rect) && Whole(window.x) && Whole(window.y)
    ensures var r := RelativeRect(rect, window);
            && r.left as real == rect.x - window.x && r.top as real == rect.y - window.y
            && r.width as real == rect.width && r.height as real == rect.height
  {
    WholeSum(rect.x, window.x);
    WholeSum(rect.y, window.y);
    WholePixel(rect.x - window.x);
    WholePixel(rect.y - window.y);
    WholePixel(rect.width);
    WholePixel(rect.height);
  }

  lemma GapInWindow(a: Rect, tray: Size, placement: Placement, window: Rect)
    requires WholeRect(a) && WholeSize(tray) && Whole(window.x) && Whole(window.y)
    ensures Beside(RelativeRect(a, window), RelativeRect(TrayRect(a, tray, placement), window), placement)
  {
    hide AsPixels, Pixel;
    TrayRectAligned(a, tray, placement);
    RelativeWhole(a, window);
    RelativeWhole(TrayRect(a, tray, placement), window);
  }

  lemma UnclampedTray(inputs: Inputs, display: Rect, p: Placement)
    requires PixelAligned(inputs, display) && TraySizeOf(inputs, display).Some?
    requires var tray := TraySizeOf(inputs, display).value;
             Harmless(inputs.mascot.width, tray) && Fits(AnchorOf(inputs, display), display, tray, p)
    ensures TrayOf(inputs, display) == Some(TrayRect(AnchorOf(inputs, display), TraySizeOf(inputs, display).value,
                                                     PlacementOf(inputs, display)))
  {
    hide AnchorOf, TraySizeOf, ClampToDisplay, ChoosePlacement;
    AnchorAligned(inputs, display);
    TraySizeAligned(inputs, display);
    HarmlessShownWhole(inputs, display);
    var a := AnchorOf(inputs, display);
    var tray := TraySizeOf(inputs, display).value;
    var chosen := PlacementOf(inputs, display);
    TrayRectAligned(a, tray, chosen);
    ClampedTrayAligned(TrayRect(a, tray, chosen), display);
  }

  /** A tray that can be shown whole stays clear of the mascot by exactly the gap. */
  lemma TrayKeepsGap(inputs: Inputs, display: Rect, p: Placement)
    requires PixelAligned(inputs, display) && TraySizeOf(inputs, display).Some?
    requires var tray := TraySizeOf(inputs, display).value;
             Harmless(inputs.mascot.width, tray) && Fits(AnchorOf(inputs, display), display, tray, p)
    ensures var layout := LayoutOf(inputs, display);
            layout.tray.Some? && Beside(layout.mascot, layout.tray.value, layout.placement)
  {
    AnchorAligned(inputs, display);
    TraySizeAligned(inputs, display);
    UnclampedTray(inputs, display, p);
    var a := AnchorOf(inputs, display);
    var tray := TrayOf(inputs, display);
    WindowWhole(a, tray, display);
    GapInWindow(a, TraySizeOf(inputs, display).value, PlacementOf(inputs, display), WindowAround(a, tray, display));
  }

  // ---------- idempotence ----------

  /** The largest coordinate an element of this size may take survives rounding. */
  predicate StableEdge(from: real, to: real) { from > to || Round(to) >= to }

  predicate StableSizes(inputs: Inputs, display: Rect) {
    && StableEdge(display.x, display.x + display.width - Min(inputs.mascot.width, display.width))
    && StableEdge(display.y, display.y + display.height - Min(inputs.mascot.height, display.height) - PADDING_BOTTOM)
  }

  /** The second choice, biased towards the first, is the first. */
  lemma ChoiceStable(anchor: Rect, display: Rect, preferred: Placement, previous: Placement, tray: Size)
    ensures var chosen := ChoosePlacement(anchor, display, preferred, previous, tray);
            ChoosePlacement(anchor, display, preferred, chosen, tray) == chosen
  {
    var chosen := ChoosePlacement(anchor, display, preferred, previous, tray);
    var again := ChoosePlacement(anchor, display, preferred, chosen, tray);
    assert PlacementScore(anchor, display, preferred, previous, tray, chosen)
        <= PlacementScore(anchor, display, preferred, previous, tray, again);
    assert PlacementScore(anchor, display, preferred, chosen, tray, again)
        <= PlacementScore(anchor, display, preferred, chosen, tray, chosen);
  }

  lemma LayoutIdempotent(inputs: Inputs, display: Rect)
    requires AnchorOf(InputsAfter(inputs, display), display) == AnchorOf(inputs, display)
    ensures LayoutOf(InputsAfter(inputs, display), display) == LayoutOf(inputs, display)
    ensures InputsAfter(InputsAfter(inputs, display), display) == InputsAfter(inputs, display)
  {
    var anchor := AnchorOf(inputs, display);
    if TraySizeOf(inputs, display).Some? {
      ChoiceStable(anchor, display, PreferredPlacement(anchor, display), inputs.previous,
                   TraySizeOf(inputs, display).value);
    }
  }

  lemma ClampAnchorTwice(rect: Rect, display: Rect)
    requires Whole(display.x) && Whole(display.y)
    requires StableEdge(display.x, display.x + display.width - rect.width)
    requires StableEdge(display.y, display.y + display.height - rect.height - PADDING_BOTTOM)
    ensures ClampAnchor(ClampAnchor(rect, display), display) == ClampAnchor(rect, display)
  {
    hide ClampCoordinate, Round;
    ClampTwice(rect.x, display.x, display.x + display.width - rect.width);
    ClampTwice(rect.y, display.y, display.y + display.height - rect.height - PADDING_BOTTOM);
  }

  lemma AnchorTwice(inputs: Inputs, display: Rect)
    requires WholeDisplay(display) && StableSizes(inputs, display)
    ensures AnchorOf(InputsAfter(inputs, display), display) == AnchorOf(inputs, display)
  {
    ClampAnchorTwice(Rect(inputs.anchor.x, inputs.anchor.y,
                          Min(inputs.mascot.width, display.width), Min(inputs.mascot.height, display.height)),
                     display);
  }

  lemma AnchorDrifts(inputs: Inputs, display: Rect)
    requires WholeDisplay(display) && !StableSizes(inputs, display)
    requires inputs.anchor.x > display.x + display.width - Min(inputs.mascot.width, display.width) + 1.0
    requires inputs.anchor.y
             > display.y + display.height - Min(inputs.mascot.height, display.height) - PADDING_BOTTOM + 1.0
    ensures AnchorOf(InputsAfter(inputs, display), display) != AnchorOf(inputs, display)
  {
    hide ClampCoordinate, Round, PlacementOf;
    EdgeDrifts(inputs.anchor.x, display.x, display.x + display.width - Min(inputs.mascot.width, display.width));
    EdgeDrifts(inputs.anchor.y, display.y,
               display.y + display.height - Min(inputs.mascot.height, display.height) - PADDING_BOTTOM);
  }

  lemma EdgeDrifts(v: real, from: real, to: real)
    requires Whole(from) && v > to + 1.0
    ensures !StableEdge(from, to) ==>
              ClampCoordinate(ClampCoordinate(v, from, to), from, to) != ClampCoordinate(v, from, to)
  {
    if !StableEdge(from, to) {
      assert ClampCoordinate(v, from, to) == to;
    }
  }

  /** On a whole display, laying out twice equals laying out once for every anchor exactly
      when both edges of the mascot's range survive rounding; whole sizes always do. */
  lemma LayoutIdempotentExactly(inputs: Inputs, display: Rect)
    requires WholeDisplay(display)
    ensures (forall x: real, y: real ::
               var once := InputsAfter(At(inputs, x, y), display);
               LayoutOf(once, display) == LayoutOf(At(inputs, x, y), display))
            <==> StableSizes(inputs, display)
  {
    if StableSizes(inputs, display) {
      forall x: real, y: real
        ensures LayoutOf(InputsAfter(At(inputs, x, y), display), display) == LayoutOf(At(inputs, x, y), display)
      {
        AnchorTwice(At(inputs, x, y), display);
        LayoutIdempotent(At(inputs, x, y), display);
      }
    } else {
      var x := display.x + display.width - Min(inputs.mascot.width, display.width) + 2.0;
      var y := display.y + display.height - Min(inputs.mascot.height, display.height) - PADDING_BOTTOM + 2.0;
      AnchorDrifts(At(inputs, x, y), display);
      assert LayoutOf(InputsAfter(At(inputs, x, y), display), display).anchor
          != LayoutOf(At(inputs, x, y), display).anchor;
    }
  }

  lemma WholeSizesAreStable(inputs: Inputs, display: Rect)
    requires WholeDisplay(display) && WholeSize(inputs.mascot)
    ensures StableSizes(inputs, display)
  {
    var w, h := Min(inputs.mascot.width, display.width), Min(inputs.mascot.height, display.height);
    FloorIs(PADDING_BOTTOM, 8);
    WholeSum(display.x, display.width);
    WholeSum(display.x + display.width, w);
    WholeSum(display.y, display.height);
    WholeSum(display.y + display.height, h);
    WholeSum(display.y + display.height - h, PADDING_BOTTOM);
  }

  // ---------- the default geometry ----------

  const SMALL_DISPLAY := Rect(0.0, 0.0, DEFAULT_VIEWPORT_WIDTH, DEFAULT_VIEWPORT_HEIGHT)
  const SMALL_ANCHOR := Rect(244.0, 191.0, 112.0, 121.0)
  const SMALL_TRAY := Rect(80.0, 56.0, 276.0, 131.0)

  lemma Drawn(rect: Rect, pixels: PixelRect)
    requires rect == Rect(pixels.left as real, pixels.top as real, pixels.width as real, pixels.height as real)
    ensures WholeRect(rect) && RelativeRect(rect, SMALL_DISPLAY) == pixels
    ensures AsPixels(rect.width) == pixels.width && AsPixels(rect.height) == pixels.height
  {
    FloorIs(rect.x, pixels.left); WholePixel(rect.x);
    FloorIs(rect.y, pixels.top); WholePixel(rect.y);
    FloorIs(rect.width, pixels.width); WholePixel(rect.width);
    FloorIs(rect.height, pixels.height); WholePixel(rect.height);
  }

  /** Only the place above the mascot, flush with its right edge, holds the default tray. */
  lemma SmallTrayAbove()
    requires WholeRect(SMALL_DISPLAY) && WholeRect(SMALL_ANCHOR) && WholeRect(SMALL_TRAY)
    ensures Chosen(SMALL_ANCHOR, SMALL_DISPLAY, TopEnd, DEFAULT_TRAY) == TopEnd
    ensures ClampToDisplay(TrayRect(SMALL_ANCHOR, DEFAULT_TRAY, TopEnd), SMALL_DISPLAY) == SMALL_TRAY
  {
    hide Chosen, ClampToDisplay;
    assert Fits(SMALL_ANCHOR, SMALL_DISPLAY, DEFAULT_TRAY, TopEnd);
    ChosenFitsIffAnyDoes(SMALL_ANCHOR, SMALL_DISPLAY, TopEnd, DEFAULT_TRAY);
    ClampedTrayAligned(SMALL_TRAY, SMALL_DISPLAY);
  }

  /** The layout of the default sizes on a display no larger than the window: with the default
      tray or none, the default one also being assumed until the renderer has measured. */
  lemma DefaultGeometry(measured: bool, tray: Option<Size>)
    requires tray.None? || tray == Some(DEFAULT_TRAY)
    ensures LayoutOf(Inputs(SMALL_ANCHOR, Size(112.0, 121.0), measured, tray, TopEnd), SMALL_DISPLAY)
         == Layout(SMALL_ANCHOR, PixelRect(244, 191, 112, 121), TopEnd,
                   if measured && tray.None? then None else Some(PixelRect(80, 56, 276, 131)),
                   356, 320, SMALL_DISPLAY)
  {
    hide Round, WindowAround, ChoosePlacement, ClampToDisplay, TrayRect, RelativeRect, AsPixels;
    Drawn(SMALL_ANCHOR, PixelRect(244, 191, 112, 121));
    Drawn(SMALL_TRAY, PixelRect(80, 56, 276, 131));
    Drawn(SMALL_DISPLAY, PixelRect(0, 0, 356, 320));
    SmallTrayAbove();
    WindowOnDisplay(SMALL_ANCHOR, None, SMALL_DISPLAY);
    WindowOnDisplay(SMALL_ANCHOR, Some(SMALL_TRAY), SMALL_DISPLAY);
  }
}
