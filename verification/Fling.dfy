/** Flinging the avatar: a released drag keeps moving the anchor until friction, the edge of
    the display or the time limit stops it. */
module Fling {
  import opened Wrappers
  import opened ScreenCoordinates
  import opened OverlayLayout
  import opened OverlayGuarantees

  const TICK_MS := 16
  const TICK_SECONDS := 16.0 / 1000.0
  const FRICTION := 0.88
  const STOP_SPEED := 65.0
  const MAX_DURATION_MS := 900
  const MAX_TICKS := 57

  /** One fling in progress; `running` is false once its task has returned. */
  datatype State = State(inputs: Inputs, vx: real, vy: real, elapsed: nat, running: bool)

  /** The monitor nearest to a point at a time of the fling, if monitors can be read then. */
  type Monitors = (nat, real, real) -> Option<Rect>

  function Candidate(s: State): Rect {
    var a := s.inputs.anchor;
    Rect(a.x + s.vx * TICK_SECONDS, a.y + s.vy * TICK_SECONDS, a.width, a.height)
  }

  function Slowed(v: real, actual: real, candidate: real): real {
    (if actual != Round(candidate) then 0.0 else v) * FRICTION
  }

  /** The comparison of the speed with its limit, without the square root. */
  predicate Expired(elapsed: nat, vx: real, vy: real) {
    elapsed >= MAX_DURATION_MS || vx * vx + vy * vy < STOP_SPEED * STOP_SPEED
  }

  function DisplayFor(s: State, monitors: Monitors): Option<Rect> {
    monitors(s.elapsed, CenterX(Candidate(s)), CenterY(Candidate(s)))
  }

  function Tick(s: State, monitors: Monitors): State {
    var candidate := Candidate(s);
    match DisplayFor(s, monitors)
    case None => s.(elapsed := s.elapsed + TICK_MS, running := false)
    case Some(display) =>
      var next := InputsAfter(s.inputs.(anchor := candidate), display);
      var vx := Slowed(s.vx, next.anchor.x, candidate.x);
      var vy := Slowed(s.vy, next.anchor.y, candidate.y);
      var elapsed := s.elapsed + TICK_MS;
      State(next, vx, vy, elapsed, !Expired(elapsed, vx, vy))
  }

  function After(s: State, monitors: Monitors, ticks: nat): State
    decreases ticks
  {
    if ticks == 0 then s
    else
      var before := After(s, monitors, ticks - 1);
      if before.running then Tick(before, monitors) else before
  }

  /** The layout shown after some ticks: that of the last tick that still found a monitor. */
  function LayoutAfter(s: State, monitors: Monitors, ticks: nat, shown: Option<Layout>): Option<Layout>
    decreases ticks
  {
    if ticks == 0 then shown
    else
      var before := After(s, monitors, ticks - 1);
      if before.running && DisplayFor(before, monitors).Some? then
        TickLayout(before, DisplayFor(before, monitors).value)
      else LayoutAfter(s, monitors, ticks - 1, shown)
  }

  function TickLayout(s: State, display: Rect): Option<Layout> {
    Some(LayoutOf(s.inputs.(anchor := Candidate(s)), display))
  }

  /** The overlay's mutable state, as far as layouts and flings touch it. */
  class Snapshot {
    var anchor: Rect
    var mascot: Size
    var measured: bool
    var tray: Option<Size>
    var placement: Placement
    var layout: Option<Layout>
    var momentumGeneration: nat

    constructor ()
      ensures momentumGeneration == 0 && layout == None && placement == TopEnd && !measured && tray == None
      ensures mascot == Size(112.0, 121.0)
      ensures anchor == Rect(244.0, 191.0, 112.0, 121.0)
    {
      anchor := Rect(356.0 - 112.0, 320.0 - 121.0 - PADDING_BOTTOM, 112.0, 121.0);
      mascot := Size(112.0, 121.0);
      measured := false;
      tray := None;
      placement := TopEnd;
      layout := None;
      momentumGeneration := 0;
    }

    function Current(): Inputs
      reads this
    {
      Inputs(anchor, mascot, measured, tray, placement)
    }

    method ApplyLayout(display: Rect)
      modifies this`anchor, this`layout, this`placement
      ensures Current() == InputsAfter(old(Current()), display)
      ensures layout == Some(LayoutOf(old(Current()), display))
    {
      var viewport := ViewportFor(display);
      var clamped := ClampAnchor(Rect(anchor.x, anchor.y, Min(mascot.width, display.width),
                                      Min(mascot.height, display.height)), display);
      var traySize := if measured then tray else if tray.Some? then tray else Some(DEFAULT_TRAY);
      var chosen := PreferredPlacement(clamped, display);
      var trayBounds: Option<Rect> := None;
      if traySize.Some? {
        var size := ClampTraySize(traySize.value, viewport, clamped.height);
        chosen := ChoosePlacement(clamped, display, chosen, placement, size);
        trayBounds := Some(ClampToDisplay(TrayRect(clamped, size, chosen), display));
      }
      layout := Some(Assemble(clamped, chosen, trayBounds, display));
      anchor := clamped;
      placement := chosen;
    }

    method CancelMomentum()
      modifies this`momentumGeneration
      ensures momentumGeneration == old(momentumGeneration) + 1
    {
      momentumGeneration := momentumGeneration + 1;
    }

    /** One turn of the fling's loop, after its sleep and generation check. */
    method MomentumTick(vx: real, vy: real, elapsed: nat, monitors: Monitors)
      returns (vx': real, vy': real, elapsed': nat, running: bool)
      modifies this`anchor, this`layout, this`placement
      ensures State(Current(), vx', vy', elapsed', running)
           == Tick(State(old(Current()), vx, vy, elapsed, true), monitors)
      ensures var display := DisplayFor(State(old(Current()), vx, vy, elapsed, true), monitors);
              layout == if display.None? then old(layout)
                        else TickLayout(State(old(Current()), vx, vy, elapsed, true), display.value)
    {
      hide InputsAfter, LayoutOf, Slowed, Expired;
      vx', vy', elapsed' := vx, vy, elapsed + TICK_MS;
      var candidate := Rect(anchor.x + vx * TICK_SECONDS, anchor.y + vy * TICK_SECONDS, anchor.width, anchor.height);
      var display := monitors(elapsed, CenterX(candidate), CenterY(candidate));
      if display.None? {
        running := false;
        return;
      }
      anchor := candidate;
      ApplyLayout(display.value);
      vx' := Slowed(vx, anchor.x, candidate.x);
      vy' := Slowed(vy, anchor.y, candidate.y);
      running := !Expired(elapsed', vx', vy');
    }

    /** A whole fling that nothing else interrupts. */
    method DragRelease(velocityX: real, velocityY: real, monitors: Monitors) returns (ticks: nat)
      modifies this`momentumGeneration, this`anchor, this`layout, this`placement
      ensures ticks <= MAX_TICKS
      ensures velocityX == 0.0 && velocityY == 0.0 ==> ticks == 0 && momentumGeneration == old(momentumGeneration)
      ensures velocityX != 0.0 || velocityY != 0.0 ==> momentumGeneration == old(momentumGeneration) + 1
      ensures var start := State(old(Current()), velocityX, velocityY, 0, velocityX != 0.0 || velocityY != 0.0);
              && Current() == After(start, monitors, ticks).inputs && !After(start, monitors, ticks).running
              && layout == LayoutAfter(start, monitors, ticks, old(layout))
    {
      hide Tick, TickLayout, DisplayFor;
      ticks := 0;
      if velocityX == 0.0 && velocityY == 0.0 {
        return;
      }
      ghost var start := State(Current(), velocityX, velocityY, 0, true);
      momentumGeneration := momentumGeneration + 1;
      var vx, vy, elapsed, running := velocityX, velocityY, 0, true;
      while running
        invariant elapsed == TICK_MS * ticks && ticks <= MAX_TICKS
        invariant running ==> elapsed < MAX_DURATION_MS
        invariant momentumGeneration == old(momentumGeneration) + 1
        invariant After(start, monitors, ticks) == State(Current(), vx, vy, elapsed, running)
        invariant layout == LayoutAfter(start, monitors, ticks, old(layout))
        decreases if running then MAX_DURATION_MS - elapsed else 0
      {
        ElapsedByTick(After(start, monitors, ticks), monitors);
        vx, vy, elapsed, running := MomentumTick(vx, vy, elapsed, monitors);
        ticks := ticks + 1;
      }
    }
  }

  lemma ElapsedByTick(s: State, monitors: Monitors)
    ensures var next := Tick(s, monitors);
            next.elapsed == s.elapsed + TICK_MS && (next.running ==> next.elapsed < MAX_DURATION_MS)
  {
  }

  /** Whatever the monitors do meanwhile, a fling is over after 57 ticks. */
  lemma FlingEnds(s: State, monitors: Monitors)
    requires s.elapsed == 0
    ensures !After(s, monitors, MAX_TICKS).running
  {
    ElapsedAfter(s, monitors, MAX_TICKS);
  }

  lemma {:induction false} ElapsedAfter(s: State, monitors: Monitors, ticks: nat)
    requires s.elapsed == 0
    ensures var now := After(s, monitors, ticks);
            now.running ==> now.elapsed == TICK_MS * ticks && (ticks > 0 ==> now.elapsed < MAX_DURATION_MS)
  {
    hide Tick;
    if ticks > 0 {
      ElapsedAfter(s, monitors, ticks - 1);
      ElapsedByTick(After(s, monitors, ticks - 1), monitors);
    }
  }

  // ---------- how long a fling lasts ----------

  /** A fling goes on exactly while it finds a monitor, has time left and is fast enough. */
  lemma TickGoesOn(s: State, monitors: Monitors)
    ensures var next := Tick(s, monitors);
            && next.elapsed == s.elapsed + 16
            && (next.running <==>
                  && DisplayFor(s, monitors).Some?
                  && s.elapsed + 16 < 900
                  && next.vx * next.vx + next.vy * next.vy >= 65.0 * 65.0)
  {
    hide InputsAfter, Candidate, Slowed;
  }

  /** A monitor was found and its edges were not in the way. */
  ghost predicate FreeTick(s: State, monitors: Monitors) {
    && DisplayFor(s, monitors).Some?
    && var next := Tick(s, monitors).inputs.anchor;
       next.x == Round(s.inputs.anchor.x + s.vx * 0.016) && next.y == Round(s.inputs.anchor.y + s.vy * 0.016)
  }

  ghost predicate Unhindered(s: State, monitors: Monitors) {
    forall n: nat :: After(s, monitors, n).running ==> FreeTick(After(s, monitors, n), monitors)
  }

  lemma FreeTickSlows(s: State, monitors: Monitors)
    requires FreeTick(s, monitors)
    ensures Tick(s, monitors).vx == s.vx * 0.88 && Tick(s, monitors).vy == s.vy * 0.88
  {
    hide InputsAfter;
  }

  function Power(x: real, n: nat): real { if n == 0 then 1.0 else x * Power(x, n - 1) }

  lemma PowerSmall(n: nat)
    ensures 0.0 < Power(0.88, n) <= 1.0
  {
  }

  lemma {:induction false} PowerFalls(m: nat, n: nat)
    requires m <= n
    ensures Power(0.88, n) <= Power(0.88, m)
    decreases n
  {
    PowerSmall(n);
    if m < n {
      PowerFalls(m, n - 1);
      PowerSmall(n - 1);
    }
  }

  /** The speed left after n free ticks, squared. */
  function SpeedSquared(vx: real, vy: real, n: nat): real {
    (vx * Power(0.88, n)) * (vx * Power(0.88, n)) + (vy * Power(0.88, n)) * (vy * Power(0.88, n))
  }

  lemma SquareFalls(v: real, p: real, q: real)
    requires 0.0 <= q <= p
    ensures (v * q) * (v * q) <= (v * p) * (v * p)
  {
    assert v * q * (v * q) == (v * v) * (q * q);
    assert v * p * (v * p) == (v * v) * (p * p);
    assert q * q <= p * p;
  }

  lemma SpeedFalls(vx: real, vy: real, m: nat, n: nat)
    requires m <= n
    ensures SpeedSquared(vx, vy, n) <= SpeedSquared(vx, vy, m)
  {
    PowerFalls(m, n);
    PowerSmall(n);
    SquareFalls(vx, Power(0.88, m), Power(0.88, n));
    SquareFalls(vy, Power(0.88, m), Power(0.88, n));
  }

  /** A fling that meets no edge is still under way after n ticks exactly if n is zero or, less
      than 900 ms old, it still has 65 pixels per second of its speed times 0.88 to the n-th. */
  lemma {:induction false} FlingUnderWay(s: State, monitors: Monitors, n: nat)
    requires s.running && s.elapsed == 0 && Unhindered(s, monitors)
    ensures var now := After(s, monitors, n);
            && (now.running <==> n == 0 || (16 * n < 900 && SpeedSquared(s.vx, s.vy, n) >= 65.0 * 65.0))
            && (now.running ==>
                  && now.elapsed == 16 * n
                  && now.vx == s.vx * Power(0.88, n) && now.vy == s.vy * Power(0.88, n))
  {
    hide Tick, FreeTick, SpeedSquared;
    if n > 0 {
      FlingUnderWay(s, monitors, n - 1);
      SpeedFalls(s.vx, s.vy, n - 1, n);
      var before := After(s, monitors, n - 1);
      if before.running {
        FreeTickSlows(before, monitors);
        FreeTickGoesOn(before, monitors);
        SpeedAfter(s, before, Tick(before, monitors), n);
      }
    }
  }

  lemma FreeTickGoesOn(s: State, monitors: Monitors)
    requires FreeTick(s, monitors)
    ensures var next := Tick(s, monitors);
            && next.elapsed == s.elapsed + 16
            && (next.running <==> s.elapsed + 16 < 900 && next.vx * next.vx + next.vy * next.vy >= 65.0 * 65.0)
  {
    hide Tick;
    TickGoesOn(s, monitors);
  }

  lemma SpeedAfter(s: State, before: State, next: State, n: nat)
    requires n > 0
    requires before.vx == s.vx * Power(0.88, n - 1) && before.vy == s.vy * Power(0.88, n - 1)
    requires next.vx == before.vx * 0.88 && next.vy == before.vy * 0.88
    ensures next.vx == s.vx * Power(0.88, n) && next.vy == s.vy * Power(0.88, n)
    ensures next.vx * next.vx + next.vy * next.vy == SpeedSquared(s.vx, s.vy, n)
  {
    Regroup(s.vx, Power(0.88, n - 1));
    Regroup(s.vy, Power(0.88, n - 1));
  }

  lemma Regroup(v: real, p: real)
    ensures v * p * 0.88 == v * (0.88 * p)
  {
  }

  /** So it stops after the first tick that leaves too little speed, or after the 57th. */
  lemma FlingStopsAt(s: State, monitors: Monitors, n: nat)
    requires s.running && s.elapsed == 0 && Unhindered(s, monitors)
    requires 1 <= n <= 57
    ensures (After(s, monitors, n - 1).running && !After(s, monitors, n).running)
            <==> && (n == 57 || SpeedSquared(s.vx, s.vy, n) < 65.0 * 65.0)
                 && (forall m :: 1 <= m < n ==> SpeedSquared(s.vx, s.vy, m) >= 65.0 * 65.0)
  {
    hide SpeedSquared, After, Unhindered;
    FlingUnderWay(s, monitors, n);
    FlingUnderWay(s, monitors, n - 1);
    forall m | 1 <= m < n ensures SpeedSquared(s.vx, s.vy, m) >= SpeedSquared(s.vx, s.vy, n - 1) {
      SpeedFalls(s.vx, s.vy, m, n - 1);
    }
  }

  // ---------- on one display ----------

  function Abs(x: real): real { if x >= 0.0 then x else -x }

  function OneDisplay(display: Rect): Monitors { (elapsed: nat, x: real, y: real) => Some(display) }

  function RightEdge(inputs: Inputs, display: Rect): real {
    display.x + display.width - Min(inputs.mascot.width, display.width)
  }

  function BottomEdge(inputs: Inputs, display: Rect): real {
    display.y + display.height - Min(inputs.mascot.height, display.height) - PADDING_BOTTOM
  }

  predicate InRange(inputs: Inputs, display: Rect) {
    && display.x <= inputs.anchor.x <= RightEdge(inputs, display)
    && display.y <= inputs.anchor.y <= BottomEdge(inputs, display)
  }

  lemma TickByAxis(s: State, display: Rect)
    ensures var next := Tick(s, OneDisplay(display));
            && next.inputs.mascot == s.inputs.mascot
            && next.inputs.anchor.x
               == ClampCoordinate(s.inputs.anchor.x + s.vx * TICK_SECONDS, display.x, RightEdge(s.inputs, display))
            && next.inputs.anchor.y
               == ClampCoordinate(s.inputs.anchor.y + s.vy * TICK_SECONDS, display.y, BottomEdge(s.inputs, display))
            && next.vx == Slowed(s.vx, next.inputs.anchor.x, s.inputs.anchor.x + s.vx * TICK_SECONDS)
            && next.vy == Slowed(s.vy, next.inputs.anchor.y, s.inputs.anchor.y + s.vy * TICK_SECONDS)
  {
    hide Slowed, Expired, ClampCoordinate, PlacementOf, LayoutOf;
  }

  /** Two fifteenths of the speed is exactly the distance friction still allows. */
  lemma StepBound(x: real, v: real, from: real, to: real)
    requires from <= x <= to
    ensures var candidate := x + v * TICK_SECONDS;
            var next := ClampCoordinate(candidate, from, to);
            && from <= next <= to
            && Abs(next - x) + 2.0 / 15.0 * Abs(Slowed(v, next, candidate)) <= 2.0 / 15.0 * Abs(v) + 0.5
  {
  }

  lemma Farther(origin: real, x: real, next: real, left: real, spent: real, budget: real)
    requires Abs(x - origin) + left <= budget
    requires Abs(next - x) + spent <= left + 0.5
    ensures Abs(next - origin) + spent <= budget + 0.5
  {
  }

  /** After n ticks each axis has moved at most 2/15 of its initial speed, plus half a pixel
      of rounding per tick, and the anchor has not left the display. */
  lemma {:induction false} TravelBound(s: State, display: Rect, ticks: nat)
    requires InRange(s.inputs, display)
    ensures var now := After(s, OneDisplay(display), ticks);
            && now.inputs.mascot == s.inputs.mascot
            && InRange(now.inputs, display)
            && Abs(now.inputs.anchor.x - s.inputs.anchor.x) + 2.0 / 15.0 * Abs(now.vx)
               <= 2.0 / 15.0 * Abs(s.vx) + 0.5 * ticks as real
            && Abs(now.inputs.anchor.y - s.inputs.anchor.y) + 2.0 / 15.0 * Abs(now.vy)
               <= 2.0 / 15.0 * Abs(s.vy) + 0.5 * ticks as real
  {
    hide Tick, ClampCoordinate, Slowed, Abs;
    if ticks == 0 {
      NoTravel(s.inputs.anchor.x);
      NoTravel(s.inputs.anchor.y);
    } else {
      TravelBound(s, display, ticks - 1);
      var before := After(s, OneDisplay(display), ticks - 1);
      var now := After(s, OneDisplay(display), ticks);
      if before.running {
        TickByAxis(before, display);
        StepBound(before.inputs.anchor.x, before.vx, display.x, RightEdge(s.inputs, display));
        StepBound(before.inputs.anchor.y, before.vy, display.y, BottomEdge(s.inputs, display));
        Farther(s.inputs.anchor.x, before.inputs.anchor.x, now.inputs.anchor.x, 2.0 / 15.0 * Abs(before.vx),
                2.0 / 15.0 * Abs(now.vx), 2.0 / 15.0 * Abs(s.vx) + 0.5 * (ticks - 1) as real);
        Farther(s.inputs.anchor.y, before.inputs.anchor.y, now.inputs.anchor.y, 2.0 / 15.0 * Abs(before.vy),
                2.0 / 15.0 * Abs(now.vy), 2.0 / 15.0 * Abs(s.vy) + 0.5 * (ticks - 1) as real);
      }
    }
  }

  /** Nothing hinders a fling that starts far enough from the edges of its display. */
  lemma FarFromEdges(s: State, display: Rect)
    requires s.elapsed == 0
    requires var x, y := s.inputs.anchor.x, s.inputs.anchor.y;
             var reachX, reachY := 2.0 / 15.0 * Abs(s.vx) + 29.0, 2.0 / 15.0 * Abs(s.vy) + 29.0;
             && display.x + reachX <= x <= RightEdge(s.inputs, display) - reachX
             && display.y + reachY <= y <= BottomEdge(s.inputs, display) - reachY
    ensures Unhindered(s, OneDisplay(display))
  {
    hide Tick, After, Abs, ClampCoordinate, Round;
    forall n: nat | After(s, OneDisplay(display), n).running
      ensures FreeTick(After(s, OneDisplay(display), n), OneDisplay(display))
    {
      var now := After(s, OneDisplay(display), n);
      ElapsedAfter(s, OneDisplay(display), n);
      MagnitudeNatural(s.vx);
      MagnitudeNatural(s.vy);
      TravelBound(s, display, n);
      TickByAxis(now, display);
      FreeAxis(s.inputs.anchor.x, now.inputs.anchor.x, s.vx, now.vx, n, display.x, RightEdge(s.inputs, display));
      FreeAxis(s.inputs.anchor.y, now.inputs.anchor.y, s.vy, now.vy, n, display.y, BottomEdge(s.inputs, display));
    }
  }

  lemma MagnitudeNatural(v: real)
    ensures Abs(v) >= 0.0
  {
  }

  lemma FreeAxis(origin: real, x: real, first: real, v: real, n: nat, from: real, to: real)
    requires n <= 56
    requires from + 2.0 / 15.0 * Abs(first) + 29.0 <= origin <= to - 2.0 / 15.0 * Abs(first) - 29.0
    requires Abs(x - origin) + 2.0 / 15.0 * Abs(v) <= 2.0 / 15.0 * Abs(first) + 0.5 * n as real
    ensures ClampCoordinate(x + v * TICK_SECONDS, from, to) == Round(x + v * 0.016)
  {
  }

  lemma NoTravel(x: real)
    ensures Abs(x - x) == 0.0
  {
  }

  lemma {:induction false} MascotKept(s: State, monitors: Monitors, ticks: nat)
    ensures After(s, monitors, ticks).inputs.mascot == s.inputs.mascot
  {
    hide AnchorOf, PlacementOf, Slowed, Expired, Candidate, DisplayFor;
    if ticks > 0 {
      MascotKept(s, monitors, ticks - 1);
    }
  }

  /** An axis that met an edge has no speed left and stays at that edge. */
  lemma {:induction false} ClampedAxisStops(s: State, display: Rect, hit: nat, ticks: nat)
    requires WholeDisplay(display) && StableSizes(s.inputs, display)
    requires hit < ticks && After(s, OneDisplay(display), hit).running
    ensures var candidate := Candidate(After(s, OneDisplay(display), hit));
            var after := After(s, OneDisplay(display), hit + 1).inputs.anchor;
            var now := After(s, OneDisplay(display), ticks);
            && (after.x != Round(candidate.x) ==>
                  now.vx == 0.0 && now.inputs.anchor.x == after.x
                  && after.x == ClampCoordinate(candidate.x, display.x, RightEdge(s.inputs, display)))
            && (after.y != Round(candidate.y) ==>
                  now.vy == 0.0 && now.inputs.anchor.y == after.y
                  && after.y == ClampCoordinate(candidate.y, display.y, BottomEdge(s.inputs, display)))
  {
    hide Tick, ClampCoordinate;
    var before := After(s, OneDisplay(display), ticks - 1);
    MascotKept(s, OneDisplay(display), ticks - 1);
    TickByAxis(before, display);
    if ticks > hit + 1 {
      ClampedAxisStops(s, display, hit, ticks - 1);
      var candidate := Candidate(After(s, OneDisplay(display), hit));
      ClampTwice(candidate.x, display.x, RightEdge(s.inputs, display));
      ClampTwice(candidate.y, display.y, BottomEdge(s.inputs, display));
    }
  }
}
