/**
 Updating a runtime curve when its class becomes active at (x, y): the new curve is to be the
 minimum of the old one and the service curve restarted at (x, y). The code computes it with
 two segments and truncating divisions; this module bounds how far it is from the minimum.
 */
module CurveMinimum {
  import opened Basics
  import opened FloorDivision
  import opened ServiceCurve

  function RtscMin(rtsc: RuntimeSc, isc: InternalSc, x: int, y: nat): RuntimeSc {
    var y1 := RtscX2Y(rtsc, x);
    if isc.sm1 <= isc.sm2 then
      if y1 < y then rtsc else rtsc.(x := x, y := y)
    else if y1 <= y then
      rtsc
    else if RtscX2Y(rtsc, x + isc.dx) >= y + isc.dy then
      rtsc.(x := x, y := y, dx := isc.dx, dy := isc.dy)
    else
      var dx := ((y1 - y) * SM_SCALE) / (isc.sm1 - isc.sm2)
                + if rtsc.x + rtsc.dx > x then rtsc.x + rtsc.dx - x else 0;
      rtsc.(x := x, y := y, dx := dx, dy := SegX2Y(dx, isc.sm1))
  }

  // The update in the source's own steps: early returns, then one field after another.
  method UpdateToMin(old_rtsc: RuntimeSc, isc: InternalSc, x: int, y: nat) returns (rtsc: RuntimeSc)
    ensures rtsc == RtscMin(old_rtsc, isc, x, y)
  {
    rtsc := old_rtsc;
    if isc.sm1 <= isc.sm2 {
      var y1 := RtscX2Y(rtsc, x);
      if y1 < y {
        return;
      }
      rtsc := rtsc.(x := x);
      rtsc := rtsc.(y := y);
      return;
    }
    var y1 := RtscX2Y(rtsc, x);
    if y1 <= y {
      return;
    }
    var y2 := RtscX2Y(rtsc, x + isc.dx);
    if y2 >= y + isc.dy {
      rtsc := rtsc.(x := x);
      rtsc := rtsc.(y := y);
      rtsc := rtsc.(dx := isc.dx);
      rtsc := rtsc.(dy := isc.dy);
      return;
    }
    var dx := ((y1 - y) * SM_SCALE) / (isc.sm1 - isc.sm2);
    if rtsc.x + rtsc.dx > x {
      dx := dx + (rtsc.x + rtsc.dx - x);
    }
    var dy := SegX2Y(dx, isc.sm1);
    rtsc := rtsc.(x := x);
    rtsc := rtsc.(y := y);
    rtsc := rtsc.(dx := dx);
    rtsc := rtsc.(dy := dy);
  }

  /// ## What every update keeps

  ghost predicate SameSlopes(c: RuntimeSc, isc: InternalSc) {
    c.sm1 == isc.sm1 && c.ism1 == isc.ism1 && c.sm2 == isc.sm2 && c.ism2 == isc.ism2
  }

  // The first segment of a concave curve never outgrows the configured one by more than one
  // byte's worth of the slope difference.
  ghost predicate FirstSegmentBounded(c: RuntimeSc, isc: InternalSc) {
    if isc.sm1 <= isc.sm2 then c.dx == isc.dx
    else (isc.sm1 - isc.sm2) * (c.dx - isc.dx) <= SM_SCALE
  }

  ghost predicate CurveOf(c: RuntimeSc, isc: InternalSc) {
    WellFormed(c) && SameSlopes(c, isc) && FirstSegmentBounded(c, isc)
  }

  /// ## Scaled curves
  ///
  /// Multiplying by SM_SCALE removes the truncation. From a reference time x on, u nanoseconds
  /// later, a curve of slopes sm1 and sm2 is a constant + sm2 * u + (sm1 - sm2) * min(u, r),
  /// where r is what remains of the first segment.

  function Remaining(c: RuntimeSc, x: int): nat {
    if x < c.x + c.dx then c.x + c.dx - x else 0
  }

  function Scaled(c: RuntimeSc, t: int): int
    requires c.x <= t
  {
    SM_SCALE * c.y + c.sm2 * (t - c.x) + (c.sm1 - c.sm2) * Min(t - c.x, c.dx)
  }

  lemma ScaledBounds(c: RuntimeSc, t: int)
    requires WellFormed(c) && c.x <= t
    ensures SM_SCALE * RtscX2Y(c, t) <= Scaled(c, t) <= SM_SCALE * RtscX2Y(c, t) + 2 * (SM_SCALE - 1)
  {
    var w := t - c.x;
    if w <= c.dx {
      SegX2YExact(w, c.sm1);
      FloorBounds(w * c.sm1, SM_SCALE);
      Expand(c.sm1, c.sm2, w, w);
    } else {
      SegX2YExact(c.dx, c.sm1);
      SegX2YExact(w - c.dx, c.sm2);
      FloorBounds(c.dx * c.sm1, SM_SCALE);
      FloorBounds((w - c.dx) * c.sm2, SM_SCALE);
      Expand(c.sm1, c.sm2, w, c.dx);
    }
  }

  lemma Expand(s1: int, s2: int, w: int, d: int)
    ensures s2 * w + (s1 - s2) * d == d * s1 + (w - d) * s2
  {
  }

  lemma ScaledFrom(c: RuntimeSc, x: int, u: nat)
    requires c.x <= x
    ensures Scaled(c, x + u) == Scaled(c, x) + c.sm2 * u + (c.sm1 - c.sm2) * Min(u, Remaining(c, x))
  {
    var a := x - c.x;
    assert Min(a + u, c.dx) == Min(a, c.dx) + Min(u, Remaining(c, x));
    Distribute(c.sm1 - c.sm2, Min(a, c.dx), Min(u, Remaining(c, x)));
    Distribute(c.sm2, a, u);
  }

  lemma Distribute(k: int, a: int, b: int)
    ensures k * (a + b) == k * a + k * b
  {
  }

  /// ## Concave curves: the update is the minimum

  // Scaled curves at x + u without their common term sm2 * u.
  function Lifted(base: int, delta: int, u: nat, r: nat): int {
    base + delta * Min(u, r)
  }

  // Old curve, restarted curve and new curve at t as lifted curves over x, with the truncation bounds.
  lemma Lift(c: RuntimeSc, x: int, t: int)
    requires WellFormed(c) && c.x <= x <= t
    ensures var k := c.sm2 * (t - x);
      var v := Lifted(Scaled(c, x), c.sm1 - c.sm2, t - x, Remaining(c, x)) + k;
      SM_SCALE * RtscX2Y(c, t) <= v <= SM_SCALE * RtscX2Y(c, t) + 2 * (SM_SCALE - 1)
  {
    ScaledBounds(c, t);
    ScaledFrom(c, x, t - x);
  }

  // The old curve is kept: it is below the restarted curve.
  lemma KeptBelow(delta: nat, a1: int, py: int, u: nat, rem: nat, d: nat)
    requires a1 <= py + 2 * SM_SCALE - 2
    requires delta * (rem - d) <= SM_SCALE
    ensures Lifted(a1, delta, u, rem) <= Lifted(py, delta, u, d) + 3 * SM_SCALE - 2
  {
    if Min(u, rem) <= Min(u, d) {
      MulMono(Min(u, rem), Min(u, d), delta);
    } else {
      assert Min(u, d) == d;
      Distribute(delta, d, Min(u, rem) - d);
      MulMono(Min(u, rem) - d, rem - d, delta);
    }
  }

  // The old curve is replaced: the restarted curve is below it.
  lemma ReplacedBelow(delta: nat, a1: int, py: int, u: nat, rem: nat, d: nat)
    requires py + SM_SCALE <= a1
    requires Lifted(a1, delta, d, rem) >= Lifted(py, delta, d, d) - (SM_SCALE - 1)
    ensures Lifted(py, delta, u, d) <= Lifted(a1, delta, u, rem) + SM_SCALE - 1
  {
    if Min(u, d) <= Min(u, rem) {
      MulMono(Min(u, d), Min(u, rem), delta);
    } else {
      assert rem < u && rem < d;
      MulMono(Min(u, d), d, delta);
    }
  }

  // The curves cross: the new curve follows the restarted one for q + rem, then the old one.
  lemma CrossingBetween(delta: nat, a1: int, py: int, rise: nat, u: nat, rem: nat, d: nat, q: nat)
    requires SM_SCALE * rise + py <= a1 <= SM_SCALE * rise + py + 2 * SM_SCALE - 2
    requires delta * q <= rise * SM_SCALE < delta * q + delta
    requires delta * (q + rem - d) <= SM_SCALE
    ensures Lifted(py, delta, u, q + rem) <= Lifted(a1, delta, u, rem)
    ensures Lifted(py, delta, u, q + rem) <= Lifted(py, delta, u, d) + SM_SCALE
    ensures Lifted(py, delta, u, q + rem) >= Lifted(py, delta, u, d)
         || Lifted(py, delta, u, q + rem) >= Lifted(a1, delta, u, rem) - delta - 2 * SM_SCALE + 2
  {
    Distribute(delta, q, rem);
    Distribute(delta, q, Min(u, rem));
    MulMono(Min(u, q + rem), q + Min(u, rem), delta);
    if Min(u, q + rem) <= Min(u, d) {
      MulMono(Min(u, q + rem), Min(u, d), delta);
    } else {
      Distribute(delta, d, Min(u, q + rem) - d);
      MulMono(Min(u, q + rem) - d, q + rem - d, delta);
    }
    if u <= q + rem {
      MulMono(Min(u, d), u, delta);
    } else {
      assert Min(u, rem) == rem;
    }
  }

  // The crossing is never much later than the end of the configured first segment.
  lemma CrossingEarly(delta: nat, a1: int, py: int, rise: nat, rem: nat, d: nat, q: nat)
    requires 0 < rise
    requires SM_SCALE * rise + py <= a1
    requires delta * q <= rise * SM_SCALE
    requires Lifted(a1, delta, d, rem) <= Lifted(py, delta, d, d) + SM_SCALE - 2
    ensures delta * (q + rem - d) <= SM_SCALE
  {
    Distribute(delta, q, rem - d);
    Distribute(delta, d, rem - d);
  }

  // The configured first segment rises by dy, up to truncation.
  lemma ConfiguredRise(isc: InternalSc)
    requires WellFormedIsc(isc) && isc.sm2 < isc.sm1
    ensures SM_SCALE * isc.dy <= isc.sm2 * isc.dx + (isc.sm1 - isc.sm2) * isc.dx <= SM_SCALE * isc.dy + SM_SCALE - 1
  {
    SegX2YExact(isc.dx, isc.sm1);
    FloorBounds(isc.dx * isc.sm1, SM_SCALE);
    Expand(isc.sm1, isc.sm2, isc.dx, isc.dx);
  }

  // The old curve one configured segment after x, in the lifted form.
  lemma OldAtSegmentEnd(c: RuntimeSc, isc: InternalSc, x: int, y: nat)
    requires CurveOf(c, isc) && WellFormedIsc(isc) && isc.sm2 < isc.sm1 && c.x <= x
    ensures var delta, rem, y2 := isc.sm1 - isc.sm2, Remaining(c, x), RtscX2Y(c, x + isc.dx);
      var gap := Lifted(Scaled(c, x), delta, isc.dx, rem) - Lifted(SM_SCALE * y, delta, isc.dx, isc.dx);
      SM_SCALE * (y2 - y - isc.dy) - SM_SCALE + 1 <= gap <= SM_SCALE * (y2 - y - isc.dy) + 2 * SM_SCALE - 2
  {
    ConfiguredRise(isc);
    Lift(c, x, x + isc.dx);
  }

  // The facts of the crossing branch, in the lifted form.
  lemma CrossingFacts(c: RuntimeSc, isc: InternalSc, x: int, y: nat)
    requires CurveOf(c, isc) && WellFormedIsc(isc) && isc.sm2 < isc.sm1 && c.x <= x
    requires RtscX2Y(c, x) > y && RtscX2Y(c, x + isc.dx) < y + isc.dy
    ensures var delta, rise, rem := isc.sm1 - isc.sm2, RtscX2Y(c, x) - y, Remaining(c, x);
      var q := (rise * SM_SCALE) / delta;
      && delta * q <= rise * SM_SCALE < delta * q + delta
      && delta * (q + rem - isc.dx) <= SM_SCALE
  {
    var delta, rise, rem := isc.sm1 - isc.sm2, RtscX2Y(c, x) - y, Remaining(c, x);
    FloorBounds(rise * SM_SCALE, delta);
    ScaledBounds(c, x);
    OldAtSegmentEnd(c, isc, x, y);
    CrossingEarly(delta, Scaled(c, x), SM_SCALE * y, rise, rem, isc.dx, (rise * SM_SCALE) / delta);
  }

  lemma {:induction false} UpdateKeepsWellFormed(c: RuntimeSc, isc: InternalSc, x: int, y: nat)
    requires WellFormed(c) && SameSlopes(c, isc) && WellFormedIsc(isc)
    ensures WellFormed(RtscMin(c, isc, x, y)) && SameSlopes(RtscMin(c, isc, x, y), isc)
  {
  }

  lemma CrossingLength(c: RuntimeSc, isc: InternalSc, x: int, y: nat)
    requires isc.sm2 < isc.sm1 && RtscX2Y(c, x) > y && RtscX2Y(c, x + isc.dx) < y + isc.dy
    ensures RtscMin(c, isc, x, y).dx == ((RtscX2Y(c, x) - y) * SM_SCALE) / (isc.sm1 - isc.sm2) + Remaining(c, x)
  {
  }

  lemma OtherLengths(c: RuntimeSc, isc: InternalSc, x: int, y: nat)
    requires !(isc.sm2 < isc.sm1 && RtscX2Y(c, x) > y && RtscX2Y(c, x + isc.dx) < y + isc.dy)
    ensures RtscMin(c, isc, x, y).dx == c.dx || (isc.sm2 < isc.sm1 && RtscMin(c, isc, x, y).dx == isc.dx)
  {
  }

  lemma SameExcess(delta: int, dx: int, q: int, rem: int, d: int)
    requires dx == q + rem && delta * (q + rem - d) <= SM_SCALE
    ensures delta * (dx - d) <= SM_SCALE
  {
  }

  lemma CrossingExcess(c: RuntimeSc, isc: InternalSc, x: int, y: nat)
    requires CurveOf(c, isc) && WellFormedIsc(isc) && isc.sm2 < isc.sm1 && c.x <= x
    requires RtscX2Y(c, x) > y && RtscX2Y(c, x + isc.dx) < y + isc.dy
    ensures (isc.sm1 - isc.sm2) * (RtscMin(c, isc, x, y).dx - isc.dx) <= SM_SCALE
  {
    var delta, rise, rem := isc.sm1 - isc.sm2, RtscX2Y(c, x) - y, Remaining(c, x);
    var q := (rise * SM_SCALE) / delta;
    assert delta * (q + rem - isc.dx) <= SM_SCALE by {
      CrossingFacts(c, isc, x, y);
    }
    var dx := RtscMin(c, isc, x, y).dx;
    assert dx == q + rem by {
      CrossingLength(c, isc, x, y);
    }
    SameExcess(delta, dx, q, rem, isc.dx);
  }

  lemma UpdateKeepsBound(c: RuntimeSc, isc: InternalSc, x: int, y: nat)
    requires CurveOf(c, isc) && WellFormedIsc(isc) && c.x <= x
    ensures FirstSegmentBounded(RtscMin(c, isc, x, y), isc)
  {
    if isc.sm2 < isc.sm1 && RtscX2Y(c, x) > y && RtscX2Y(c, x + isc.dx) < y + isc.dy {
      CrossingExcess(c, isc, x, y);
    } else {
      OtherLengths(c, isc, x, y);
      SameLengthBounded(c, RtscMin(c, isc, x, y), isc);
    }
  }

  lemma SameLengthBounded(c: RuntimeSc, n: RuntimeSc, isc: InternalSc)
    requires FirstSegmentBounded(c, isc) && (n.dx == c.dx || (isc.sm2 < isc.sm1 && n.dx == isc.dx))
    ensures FirstSegmentBounded(n, isc)
  {
    if n.dx == isc.dx {
      assert n.dx - isc.dx == 0;
    }
  }

  lemma {:induction false} UpdateKeepsCurve(c: RuntimeSc, isc: InternalSc, x: int, y: nat)
    requires CurveOf(c, isc) && WellFormedIsc(isc) && c.x <= x
    ensures CurveOf(RtscMin(c, isc, x, y), isc)
  {
    UpdateKeepsWellFormed(c, isc, x, y);
    UpdateKeepsBound(c, isc, x, y);
  }

  // n is the minimum m up to 4 bytes, plus one nanosecond's worth of the slope difference
  // that the truncated crossing point can lose.
  ghost predicate Near(n: int, m: int, delta: int) {
    n <= m + 4 && SM_SCALE * m <= SM_SCALE * (n + 4) + delta
  }

  // A curve that starts at x itself, in the lifted form.
  lemma LiftFromStart(c: RuntimeSc, t: int)
    requires WellFormed(c) && c.x <= t
    ensures var v := Lifted(SM_SCALE * c.y, c.sm1 - c.sm2, t - c.x, c.dx) + c.sm2 * (t - c.x);
      SM_SCALE * RtscX2Y(c, t) <= v <= SM_SCALE * RtscX2Y(c, t) + 2 * SM_SCALE - 2
  {
    ScaledBounds(c, t);
  }

  // What every case of the concave update starts from: the old and the restarted curve at t.
  lemma OldAndRestarted(c: RuntimeSc, isc: InternalSc, x: int, y: nat, t: int)
    requires CurveOf(c, isc) && WellFormedIsc(isc) && isc.sm2 < isc.sm1 && c.x <= x <= t
    ensures var delta, k := isc.sm1 - isc.sm2, isc.sm2 * (t - x);
      var o := Lifted(Scaled(c, x), delta, t - x, Remaining(c, x)) + k;
      var r := Lifted(SM_SCALE * y, delta, t - x, isc.dx) + k;
      && SM_SCALE * RtscX2Y(c, x) <= Scaled(c, x) <= SM_SCALE * RtscX2Y(c, x) + 2 * SM_SCALE - 2
      && SM_SCALE * RtscX2Y(c, t) <= o <= SM_SCALE * RtscX2Y(c, t) + 2 * SM_SCALE - 2
      && SM_SCALE * RtscX2Y(RuntimeInit(isc, x, y), t) <= r <= SM_SCALE * RtscX2Y(RuntimeInit(isc, x, y), t)
        + 2 * SM_SCALE - 2
  {
    ScaledBounds(c, x);
    Lift(c, x, t);
    LiftFromStart(RuntimeInit(isc, x, y), t);
  }

  lemma ConcaveKept(c: RuntimeSc, isc: InternalSc, x: int, y: nat, t: int)
    requires CurveOf(c, isc) && WellFormedIsc(isc) && isc.sm2 < isc.sm1 && c.x <= x <= t
    requires RtscX2Y(c, x) <= y
    ensures RtscX2Y(c, t) <= RtscX2Y(RuntimeInit(isc, x, y), t) + 4
  {
    var delta, rem := isc.sm1 - isc.sm2, Remaining(c, x);
    OldAndRestarted(c, isc, x, y, t);
    assert rem <= c.dx;
    MulMono(rem - isc.dx, c.dx - isc.dx, delta);
    KeptBelow(delta, Scaled(c, x), SM_SCALE * y, t - x, rem, isc.dx);
  }

  lemma ConcaveReplaced(c: RuntimeSc, isc: InternalSc, x: int, y: nat, t: int)
    requires CurveOf(c, isc) && WellFormedIsc(isc) && isc.sm2 < isc.sm1 && c.x <= x <= t
    requires RtscX2Y(c, x) > y && RtscX2Y(c, x + isc.dx) >= y + isc.dy
    ensures RtscX2Y(RuntimeInit(isc, x, y), t) <= RtscX2Y(c, t) + 2
  {
    OldAndRestarted(c, isc, x, y, t);
    OldAtSegmentEnd(c, isc, x, y);
    ReplacedBelow(isc.sm1 - isc.sm2, Scaled(c, x), SM_SCALE * y, t - x, Remaining(c, x), isc.dx);
  }

  // The new curve of the crossing case, in the lifted form.
  lemma CrossingCurve(c: RuntimeSc, isc: InternalSc, x: int, y: nat, t: int)
    requires CurveOf(c, isc) && WellFormedIsc(isc) && isc.sm2 < isc.sm1 && c.x <= x <= t
    requires RtscX2Y(c, x) > y && RtscX2Y(c, x + isc.dx) < y + isc.dy
    ensures var delta := isc.sm1 - isc.sm2;
      var q, n := ((RtscX2Y(c, x) - y) * SM_SCALE) / delta, RtscX2Y(RtscMin(c, isc, x, y), t);
      var vn := Lifted(SM_SCALE * y, delta, t - x, q + Remaining(c, x)) + isc.sm2 * (t - x);
      SM_SCALE * n <= vn <= SM_SCALE * n + 2 * SM_SCALE - 2
  {
    LiftFromStart(RtscMin(c, isc, x, y), t);
  }

  // The numbers of the crossing case for a curve.
  datatype Crossing = Crossing(a1: int, py: int, rise: nat, k: int, delta: nat, u: nat, rem: nat, d: nat, q: nat)

  ghost predicate Fits(v: int, lifted: int) {
    SM_SCALE * v <= lifted <= SM_SCALE * v + 2 * SM_SCALE - 2
  }

  ghost predicate Consistent(z: Crossing) {
    && SM_SCALE * z.rise + z.py <= z.a1 <= SM_SCALE * z.rise + z.py + 2 * SM_SCALE - 2
    && z.delta * z.q <= z.rise * SM_SCALE < z.delta * z.q + z.delta
    && z.delta * (z.q + z.rem - z.d) <= SM_SCALE
  }

  ghost predicate Crosses(z: Crossing, n: int, o: int, r: int) {
    && Fits(n, Lifted(z.py, z.delta, z.u, z.q + z.rem) + z.k)
    && Fits(o, Lifted(z.a1, z.delta, z.u, z.rem) + z.k)
    && Fits(r, Lifted(z.py, z.delta, z.u, z.d) + z.k)
  }

  ghost function CrossingOf(c: RuntimeSc, isc: InternalSc, x: int, y: nat, t: int): Crossing
    requires isc.sm2 < isc.sm1 && c.x <= x <= t && RtscX2Y(c, x) > y
  {
    var delta, rise := isc.sm1 - isc.sm2, RtscX2Y(c, x) - y;
    QuotientIsNat(rise * SM_SCALE, delta);
    Crossing(Scaled(c, x), SM_SCALE * y, rise, isc.sm2 * (t - x), delta, t - x, Remaining(c, x), isc.dx,
      (rise * SM_SCALE) / delta)
  }

  lemma QuotientIsNat(a: nat, b: nat)
    requires b > 0
    ensures a / b >= 0
  {
  }

  lemma CrossingConsistent(c: RuntimeSc, isc: InternalSc, x: int, y: nat, t: int)
    requires CurveOf(c, isc) && WellFormedIsc(isc) && isc.sm2 < isc.sm1 && c.x <= x <= t
    requires RtscX2Y(c, x) > y && RtscX2Y(c, x + isc.dx) < y + isc.dy
    ensures Consistent(CrossingOf(c, isc, x, y, t))
  {
    CrossingFacts(c, isc, x, y);
    OldAndRestarted(c, isc, x, y, t);
  }

  lemma CrossingCrosses(c: RuntimeSc, isc: InternalSc, x: int, y: nat, t: int)
    requires CurveOf(c, isc) && WellFormedIsc(isc) && isc.sm2 < isc.sm1 && c.x <= x <= t
    requires RtscX2Y(c, x) > y && RtscX2Y(c, x + isc.dx) < y + isc.dy
    ensures Crosses(CrossingOf(c, isc, x, y, t), RtscX2Y(RtscMin(c, isc, x, y), t), RtscX2Y(c, t),
      RtscX2Y(RuntimeInit(isc, x, y), t))
  {
    CrossingCurve(c, isc, x, y, t);
    OldAndRestarted(c, isc, x, y, t);
  }

  lemma CrossingNear(z: Crossing, n: int, o: int, r: int)
    requires Consistent(z) && Crosses(z, n, o, r)
    ensures Near(n, Min(o, r), z.delta)
  {
    CrossingBetween(z.delta, z.a1, z.py, z.rise, z.u, z.rem, z.d, z.q);
  }

  lemma ConcaveCrossing(c: RuntimeSc, isc: InternalSc, x: int, y: nat, t: int)
    requires CurveOf(c, isc) && WellFormedIsc(isc) && isc.sm2 < isc.sm1 && c.x <= x <= t
    requires RtscX2Y(c, x) > y && RtscX2Y(c, x + isc.dx) < y + isc.dy
    ensures Near(RtscX2Y(RtscMin(c, isc, x, y), t),
                 Min(RtscX2Y(c, t), RtscX2Y(RuntimeInit(isc, x, y), t)), isc.sm1 - isc.sm2)
  {
    CrossingConsistent(c, isc, x, y, t);
    CrossingCrosses(c, isc, x, y, t);
    CrossingNear(CrossingOf(c, isc, x, y, t), RtscX2Y(RtscMin(c, isc, x, y), t), RtscX2Y(c, t),
      RtscX2Y(RuntimeInit(isc, x, y), t));
  }

  lemma {:induction false} ConcaveMinimum(c: RuntimeSc, isc: InternalSc, x: int, y: nat, t: int)
    requires CurveOf(c, isc) && WellFormedIsc(isc) && isc.sm2 < isc.sm1 && c.x <= x <= t
    ensures Near(RtscX2Y(RtscMin(c, isc, x, y), t),
                 Min(RtscX2Y(c, t), RtscX2Y(RuntimeInit(isc, x, y), t)), isc.sm1 - isc.sm2)
  {
    if RtscX2Y(c, x) <= y {
      ConcaveKept(c, isc, x, y, t);
    } else if RtscX2Y(c, x + isc.dx) >= y + isc.dy {
      ConcaveReplaced(c, isc, x, y, t);
      assert RtscMin(c, isc, x, y) == RuntimeInit(isc, x, y);
    } else {
      ConcaveCrossing(c, isc, x, y, t);
    }
  }

  /// ## Convex and linear curves

  // For sm1 <= sm2 both curves at t, in the lifted form.
  lemma ConvexLifts(c: RuntimeSc, isc: InternalSc, x: int, y: nat, t: int)
    requires CurveOf(c, isc) && WellFormedIsc(isc) && isc.sm1 <= isc.sm2 && c.x <= x <= t
    ensures var delta, k := isc.sm1 - isc.sm2, isc.sm2 * (t - x);
      var o := Lifted(Scaled(c, x), delta, t - x, Remaining(c, x)) + k;
      var r := Lifted(SM_SCALE * y, delta, t - x, isc.dx) + k;
      && SM_SCALE * RtscX2Y(c, x) <= Scaled(c, x) <= SM_SCALE * RtscX2Y(c, x) + 2 * SM_SCALE - 2
      && SM_SCALE * RtscX2Y(c, t) <= o <= SM_SCALE * RtscX2Y(c, t) + 2 * SM_SCALE - 2
      && SM_SCALE * RtscX2Y(RuntimeInit(isc, x, y), t) <= r <= SM_SCALE * RtscX2Y(RuntimeInit(isc, x, y), t)
        + 2 * SM_SCALE - 2
  {
    ScaledBounds(c, x);
    Lift(c, x, t);
    LiftFromStart(RuntimeInit(isc, x, y), t);
  }

  // A longer stretch at the lower slope never serves more.
  lemma LongerFirstSegment(delta: int, u: nat, rem: nat, d: nat)
    requires delta <= 0 && rem <= d
    ensures delta * Min(u, d) <= delta * Min(u, rem)
    ensures delta * Min(u, rem) - delta * Min(u, d) <= delta * Min(d, rem) - delta * d
  {
    MulMono(Min(u, rem), Min(u, d), -delta);
    MulMono(Min(u, d) - Min(u, rem), d - Min(d, rem), -delta);
    Distribute(-delta, Min(u, d), -Min(u, rem));
    Distribute(-delta, d, -Min(d, rem));
  }

  // A convex update keeps the old curve or restarts the service curve, and a restart never
  // lies above the old curve by more than one byte of rounding.
  lemma {:induction false} ConvexUpdate(c: RuntimeSc, isc: InternalSc, x: int, y: nat, t: int)
    requires CurveOf(c, isc) && WellFormedIsc(isc) && isc.sm1 <= isc.sm2 && c.x <= x <= t
    ensures RtscMin(c, isc, x, y) == if RtscX2Y(c, x) < y then c else RuntimeInit(isc, x, y)
    ensures RtscX2Y(RtscMin(c, isc, x, y), t) <= RtscX2Y(c, t) + 1
  {
    if RtscX2Y(c, x) >= y {
      assert RtscMin(c, isc, x, y) == RuntimeInit(isc, x, y);
      ConvexLifts(c, isc, x, y, t);
      LongerFirstSegment(isc.sm1 - isc.sm2, t - x, Remaining(c, x), isc.dx);
    }
  }

  // A kept convex curve may exceed the restarted one later, most of all at the end of the
  // restarted curve's first segment.
  lemma {:induction false} ConvexKeptExcess(c: RuntimeSc, isc: InternalSc, x: int, y: nat, t: int)
    requires CurveOf(c, isc) && WellFormedIsc(isc) && isc.sm1 <= isc.sm2 && c.x <= x <= t
    ensures RtscX2Y(c, t) - RtscX2Y(RuntimeInit(isc, x, y), t)
         <= RtscX2Y(c, x + isc.dx) - RtscX2Y(RuntimeInit(isc, x, y), x + isc.dx) + 3
  {
    ConvexLifts(c, isc, x, y, t);
    ConvexLifts(c, isc, x, y, x + isc.dx);
    LongerFirstSegment(isc.sm1 - isc.sm2, t - x, Remaining(c, x), isc.dx);
  }

  // The updated curve is the minimum of the old curve and the restarted one, up to e bytes.
  ghost predicate IsMinimum(c: RuntimeSc, isc: InternalSc, x: int, y: nat, e: nat) {
    forall t: int :: x <= t ==> MinimumAt(c, isc, x, y, e, t)
  }

  ghost predicate MinimumAt(c: RuntimeSc, isc: InternalSc, x: int, y: nat, e: nat, t: int) {
    var n, m := RtscX2Y(RtscMin(c, isc, x, y), t), Min(RtscX2Y(c, t), RtscX2Y(RuntimeInit(isc, x, y), t));
    m <= n <= m + e
  }

  // The old curve is not behind at x, or it is no more than e bytes ahead at the end of the
  // restarted curve's first segment. The first alternative is the guard under which the update restarts.
  predicate RestartsOrClose(c: RuntimeSc, isc: InternalSc, x: int, y: nat, e: nat) {
    RtscX2Y(c, x) >= y || RtscX2Y(c, x + isc.dx) <= y + isc.dy + e
  }

  lemma RestartAtCorner(isc: InternalSc, x: int, y: nat)
    requires WellFormedIsc(isc)
    ensures RtscX2Y(RuntimeInit(isc, x, y), x + isc.dx) == y + isc.dy
  {
    SegX2YExact(0, isc.sm1);
  }

  lemma ConvexMinimumAt(c: RuntimeSc, isc: InternalSc, x: int, y: nat, e: nat, t: int)
    requires CurveOf(c, isc) && WellFormedIsc(isc) && isc.sm1 <= isc.sm2 && c.x <= x <= t
    requires RestartsOrClose(c, isc, x, y, e)
    ensures MinimumAt(c, isc, x, y, e + 3, t)
  {
    ConvexUpdate(c, isc, x, y, t);
    ConvexKeptExcess(c, isc, x, y, t);
    RestartAtCorner(isc, x, y);
  }

  // When a convex update is the minimum of both curves: up to rounding, if and only if it restarts
  // or the curve it keeps is not ahead at the end of the restarted curve's first segment. A minimum
  // up to e bytes meets the condition with e, and the condition with e makes a minimum up to e + 3.
  lemma {:induction false} ConvexMinimum(c: RuntimeSc, isc: InternalSc, x: int, y: nat, e: nat)
    requires CurveOf(c, isc) && WellFormedIsc(isc) && isc.sm1 <= isc.sm2 && c.x <= x
    ensures IsMinimum(c, isc, x, y, e) ==> RestartsOrClose(c, isc, x, y, e)
    ensures RestartsOrClose(c, isc, x, y, e) ==> IsMinimum(c, isc, x, y, e + 3)
  {
    if IsMinimum(c, isc, x, y, e) {
      assert MinimumAt(c, isc, x, y, e, x + isc.dx);
      ConvexUpdate(c, isc, x, y, x + isc.dx);
      RestartAtCorner(isc, x, y);
    }
    if RestartsOrClose(c, isc, x, y, e) {
      var slack := e + 3;
      forall t: int | x <= t ensures MinimumAt(c, isc, x, y, slack, t) {
        ConvexMinimumAt(c, isc, x, y, e, t);
      }
    }
  }

  // One millisecond of nothing and then 8 Gbit/s.
  const LATE_START := InternalSc(0, HT_INFINITY, 1_000_000, 0, SM_SCALE, ISM_SCALE)

  lemma LateStart()
    ensures Sc2Isc(Sc(0, 1, 8_000_000_000)) == LATE_START
    ensures WellFormedIsc(LATE_START) && CurveOf(RuntimeInit(LATE_START, 0, 0), LATE_START)
  {
    ConfiguredWellFormed(Sc(0, 1, 8_000_000_000));
  }

  // A case where it is not: that curve, kept at the end of its flat start one byte behind, is then
  // ahead of the restarted curve by almost a megabyte.
  lemma ConvexIsNotMinimum(e: nat)
    requires e < 999_999
    ensures Sc2Isc(Sc(0, 1, 8_000_000_000)) == LATE_START
    ensures !IsMinimum(RuntimeInit(LATE_START, 0, 0), LATE_START, 1_000_000, 1, e)
  {
    var c := RuntimeInit(LATE_START, 0, 0);
    LateStart();
    SegX2YExact(1_000_000, SM_SCALE);
    ConvexMinimum(c, LATE_START, 1_000_000, 1, e);
  }

  // With equal slopes the update is the minimum up to 2 bytes.
  lemma {:induction false} LinearMinimum(c: RuntimeSc, isc: InternalSc, x: int, y: nat, t: int)
    requires CurveOf(c, isc) && WellFormedIsc(isc) && isc.sm1 == isc.sm2 && c.x <= x <= t
    ensures var n := RtscX2Y(RtscMin(c, isc, x, y), t);
      var m := Min(RtscX2Y(c, t), RtscX2Y(RuntimeInit(isc, x, y), t));
      m <= n <= m + 2
  {
    ConvexUpdate(c, isc, x, y, t);
    ConvexLifts(c, isc, x, y, t);
  }

  /// ## Whole runs
  ///
  /// A class that becomes active again and again, at nondecreasing times: its curve is the
  /// minimum of all the restarted service curves, within a slack per activation.

  datatype Activation = Activation(x: int, y: nat)

  function Activated(isc: InternalSc, acts: seq<Activation>): RuntimeSc {
    if acts == [] then RuntimeInit(isc, 0, 0)
    else
      var last := acts[|acts| - 1];
      RtscMin(Activated(isc, acts[..|acts| - 1]), isc, last.x, last.y)
  }

  function Envelope(isc: InternalSc, acts: seq<Activation>, t: int): nat {
    if acts == [] then RtscX2Y(RuntimeInit(isc, 0, 0), t)
    else
      var last := acts[|acts| - 1];
      Min(Envelope(isc, acts[..|acts| - 1], t), RtscX2Y(RuntimeInit(isc, last.x, last.y), t))
  }

  ghost predicate ClockOrdered(acts: seq<Activation>) {
    && (forall i :: 0 <= i < |acts| ==> 0 <= acts[i].x)
    && (forall i, j :: 0 <= i < j < |acts| ==> acts[i].x <= acts[j].x)
  }

  function LastTime(acts: seq<Activation>): int {
    if acts == [] then 0 else acts[|acts| - 1].x
  }

  // The envelope is the least of the restarted curves.
  lemma {:induction false} EnvelopeIsLeast(isc: InternalSc, acts: seq<Activation>, t: int, i: nat)
    requires i < |acts|
    ensures Envelope(isc, acts, t) <= RtscX2Y(RuntimeInit(isc, acts[i].x, acts[i].y), t)
    ensures || Envelope(isc, acts, t) == RtscX2Y(RuntimeInit(isc, 0, 0), t)
            || exists j :: 0 <= j < |acts| &&
                 Envelope(isc, acts, t) == RtscX2Y(RuntimeInit(isc, acts[j].x, acts[j].y), t)
  {
    var n := |acts| - 1;
    if i < n {
      EnvelopeIsLeast(isc, acts[..n], t, i);
    } else if 0 < n {
      EnvelopeIsLeast(isc, acts[..n], t, 0);
    }
    assert acts[n] == acts[|acts| - 1];
    assert forall j :: 0 <= j < n ==> acts[..n][j] == acts[j];
  }

  lemma {:induction false} ActivatedCurve(isc: InternalSc, acts: seq<Activation>)
    requires WellFormedIsc(isc) && ClockOrdered(acts)
    ensures CurveOf(Activated(isc, acts), isc)
    ensures Activated(isc, acts).x <= LastTime(acts)
  {
    if acts != [] {
      var n := |acts| - 1;
      ActivatedCurve(isc, acts[..n]);
      assert LastTime(acts[..n]) <= acts[n].x;
      UpdateKeepsCurve(Activated(isc, acts[..n]), isc, acts[n].x, acts[n].y);
    }
  }

  // n is within k per-update slacks of m.
  ghost predicate WithinSlacks(n: int, m: int, delta: int, k: nat) {
    n <= m + 4 * k && SM_SCALE * m <= SM_SCALE * (n + 4 * k) + delta * k
  }

  lemma SlackStep(n: int, m: int, r: int, n': int, delta: nat, k: nat)
    requires WithinSlacks(n, m, delta, k)
    requires Near(n', Min(n, r), delta)
    ensures WithinSlacks(n', Min(m, r), delta, k + 1)
  {
    assert delta * (k + 1) == delta * k + delta;
    assert 0 <= delta * k;
  }

  lemma {:induction false} CurveIsEnvelopeOfRestarts(isc: InternalSc, acts: seq<Activation>, t: int)
    requires WellFormedIsc(isc) && isc.sm2 <= isc.sm1 && ClockOrdered(acts) && LastTime(acts) <= t
    ensures WithinSlacks(RtscX2Y(Activated(isc, acts), t), Envelope(isc, acts, t), isc.sm1 - isc.sm2, |acts|)
  {
    if acts != [] {
      var n, last, delta := |acts| - 1, acts[|acts| - 1], isc.sm1 - isc.sm2;
      var c := Activated(isc, acts[..n]);
      ActivatedCurve(isc, acts[..n]);
      assert LastTime(acts[..n]) <= last.x;
      CurveIsEnvelopeOfRestarts(isc, acts[..n], t);
      if isc.sm2 < isc.sm1 {
        ConcaveMinimum(c, isc, last.x, last.y, t);
      } else {
        LinearMinimum(c, isc, last.x, last.y, t);
      }
      SlackStep(RtscX2Y(c, t), Envelope(isc, acts[..n], t), RtscX2Y(RuntimeInit(isc, last.x, last.y), t),
                RtscX2Y(Activated(isc, acts), t), delta, n);
    }
  }
}
