/** Rounding and clamping of screen coordinates. Coordinates are reals; a value is
    "whole" when it sits exactly on a pixel. */
module ScreenCoordinates {

  ghost predicate Whole(x: real) { x == x.Floor as real }

  function Min(a: real, b: real): real { if a <= b then a else b }

  function Max(a: real, b: real): real { if a >= b then a else b }

  /** Nearest pixel, halves away from zero, as f64::round. */
  function Pixel(x: real): (n: int)
    ensures -0.5 <= n as real - x <= 0.5
  {
    if x >= 0.0 then (x + 0.5).Floor else -(0.5 - x).Floor
  }

  function Round(x: real): (r: real)
    ensures Whole(r)
    ensures -0.5 <= r - x <= 0.5
    ensures Whole(x) ==> r == x
  {
    WholePixel(x);
    Pixel(x) as real
  }

  function ClampCoordinate(value: real, minimum: real, maximum: real): (r: real)
    ensures minimum <= maximum ==> minimum <= r <= maximum
    ensures Whole(minimum) && Whole(maximum) ==> Whole(r)
    ensures Whole(value) && minimum <= value <= maximum ==> r == value
    ensures Whole(value) && value <= minimum <= maximum ==> r == minimum
    ensures Whole(value) && minimum <= maximum <= value ==> r == maximum
  {
    if minimum > maximum then
      Round((minimum + maximum) / 2.0)
    else
      var rounded := Round(value);
      if rounded < minimum then minimum else if rounded > maximum then maximum else rounded
  }

  lemma FloorIs(x: real, n: int)
    requires n as real <= x < n as real + 1.0
    ensures x.Floor == n
  {}

  lemma WholePixel(x: real)
    ensures Whole(x) ==> Pixel(x) as real == x
    ensures Whole(Pixel(x) as real)
  {
    if Whole(x) && x >= 0.0 {
      FloorIs(x + 0.5, x.Floor);
    } else if Whole(x) {
      FloorIs(0.5 - x, -x.Floor);
    }
    FloorIs(Pixel(x) as real, Pixel(x));
  }

  lemma WholeSum(a: real, b: real)
    requires Whole(a) && Whole(b)
    ensures Whole(a + b) && Whole(a - b)
    ensures a < b ==> a + 1.0 <= b
  {
    var i, j := a.Floor, b.Floor;
    FloorIs(a + b, i + j);
    FloorIs(a - b, i - j);
    assert a < b ==> i < j;
  }

  lemma WholeProduct(a: real, b: real)
    requires Whole(a) && Whole(b)
    ensures Whole(a * b)
  {
    var i, j := a.Floor, b.Floor;
    assert a * b == (i * j) as real;
    FloorIs(a * b, i * j);
  }

  /** Clamping twice is clamping once for every input exactly when the upper bound
      survives its own rounding: an upper bound that rounds down is not a fixed point. */
  lemma ClampIdempotentExactly(minimum: real, maximum: real)
    requires Whole(minimum)
    ensures (forall v: real ::
               ClampCoordinate(ClampCoordinate(v, minimum, maximum), minimum, maximum)
               == ClampCoordinate(v, minimum, maximum))
            <==> (minimum > maximum || Round(maximum) >= maximum)
  {
    if minimum <= maximum && Round(maximum) < maximum {
      var v := maximum + 1.0;
      assert ClampCoordinate(v, minimum, maximum) == maximum;
      assert ClampCoordinate(maximum, minimum, maximum) != maximum;
    } else {
      forall v: real
        ensures ClampCoordinate(ClampCoordinate(v, minimum, maximum), minimum, maximum)
             == ClampCoordinate(v, minimum, maximum)
      {
        ClampTwice(v, minimum, maximum);
      }
    }
  }

  lemma ClampTwice(v: real, minimum: real, maximum: real)
    requires Whole(minimum)
    requires minimum > maximum || Round(maximum) >= maximum
    ensures ClampCoordinate(ClampCoordinate(v, minimum, maximum), minimum, maximum)
         == ClampCoordinate(v, minimum, maximum)
  {
  }
}
