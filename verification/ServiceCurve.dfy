/**
 The two-piece linear service curves of the HFSC scheduler and their fixed-point arithmetic.
 A slope `sm` counts bytes per nanosecond scaled by 2^24, its reciprocal `ism` counts
 nanoseconds per byte scaled by 2^10. Quantities are unbounded integers, except in the
 section on machine words, which says when 64-bit arithmetic computes the same values.
 */
module ServiceCurve {
  import opened FloorDivision

  const SM_SCALE := 0x100_0000
  const ISM_SCALE := 0x400
  const U64_MODULUS := 0x1_0000_0000_0000_0000
  const HT_INFINITY := U64_MODULUS - 1
  const HFSC_FREQ := 1_000_000_000

  /** A configured curve: slope m1 for d milliseconds, then slope m2 (bits per second). */
  datatype Sc = Sc(m1: nat, d: nat, m2: nat)

  datatype InternalSc = InternalSc(sm1: nat, ism1: nat, dx: nat, dy: nat, sm2: nat, ism2: nat)

  datatype RuntimeSc = RuntimeSc(x: int, y: nat, sm1: nat, ism1: nat, dx: nat, dy: nat, sm2: nat, ism2: nat)

  function SegX2Y(x: nat, sm: nat): nat {
    (x / SM_SCALE) * sm + ((x % SM_SCALE) * sm) / SM_SCALE
  }

  function SegY2X(y: nat, ism: nat): nat {
    if y == 0 then
      0
    else if ism == HT_INFINITY then
      HT_INFINITY
    else
      (y / ISM_SCALE) * ism + ((y % ISM_SCALE) * ism) / ISM_SCALE
  }

  // The left shift drops the bits above the machine word.
  function M2Sm(m: nat): nat {
    (m * SM_SCALE) % U64_MODULUS / 8 / HFSC_FREQ
  }

  function M2Ism(m: nat): nat {
    if m == 0 then HT_INFINITY else HFSC_FREQ * ISM_SCALE * 8 / m
  }

  function D2Dx(d: nat): nat {
    d * HFSC_FREQ / 1000
  }

  function Sc2Isc(sc: Sc): InternalSc {
    InternalSc(M2Sm(sc.m1), M2Ism(sc.m1), D2Dx(sc.d), SegX2Y(D2Dx(sc.d), M2Sm(sc.m1)), M2Sm(sc.m2), M2Ism(sc.m2))
  }

  function RuntimeInit(isc: InternalSc, x: int, y: nat): RuntimeSc {
    RuntimeSc(x, y, isc.sm1, isc.ism1, isc.dx, isc.dy, isc.sm2, isc.ism2)
  }

  function RtscY2X(rtsc: RuntimeSc, y: nat): int {
    if y < rtsc.y then
      rtsc.x
    else if y <= rtsc.y + rtsc.dy then
      if rtsc.dy == 0 then rtsc.x + rtsc.dx else rtsc.x + SegY2X(y - rtsc.y, rtsc.ism1)
    else
      rtsc.x + rtsc.dx + SegY2X(y - rtsc.y - rtsc.dy, rtsc.ism2)
  }

  function RtscX2Y(rtsc: RuntimeSc, x: int): nat {
    if x <= rtsc.x then
      rtsc.y
    else if x <= rtsc.x + rtsc.dx then
      rtsc.y + SegX2Y(x - rtsc.x, rtsc.sm1)
    else
      rtsc.y + rtsc.dy + SegX2Y(x - rtsc.x - rtsc.dx, rtsc.sm2)
  }

  /// ## Exactness of the split multiplications

  lemma SegX2YExact(x: nat, sm: nat)
    ensures SegX2Y(x, sm) == x * sm / SM_SCALE
  {
    SplitProduct(x, sm, SM_SCALE);
  }

  lemma SegY2XExact(y: nat, ism: nat)
    ensures y != 0 && ism == HT_INFINITY ==> SegY2X(y, ism) == HT_INFINITY
    ensures ism != HT_INFINITY ==> SegY2X(y, ism) == y * ism / ISM_SCALE
  {
    SplitProduct(y, ism, ISM_SCALE);
  }

  /// ## Machine words
  ///
  /// The same computations with every intermediate result reduced to 64 bits.

  function Wrap(n: nat): (r: nat)
    ensures r < U64_MODULUS
    ensures r == n <==> n < U64_MODULUS
  {
    n % U64_MODULUS
  }

  function SegX2YWord(x: nat, sm: nat): nat {
    Wrap(Wrap((x / SM_SCALE) * sm) + Wrap((x % SM_SCALE) * sm) / SM_SCALE)
  }

  function SegY2XWord(y: nat, ism: nat): nat {
    if y == 0 then
      0
    else if ism == HT_INFINITY then
      HT_INFINITY
    else
      Wrap(Wrap((y / ISM_SCALE) * ism) + Wrap((y % ISM_SCALE) * ism) / ISM_SCALE)
  }

  // Every slope a configuration can produce is small enough for the split to be safe.
  lemma SlopesFit(m: nat)
    ensures M2Sm(m) < 0x100_0000_0000
    ensures m == 0 || M2Ism(m) < 0x40_0000_0000_0000
  {
    var v := (m * SM_SCALE) % U64_MODULUS;
    assert v < U64_MODULUS;
    assert v / 8 < U64_MODULUS / 8;
    if m != 0 {
      var n := HFSC_FREQ * ISM_SCALE * 8;
      FloorAtMost(n, m, n) by { MulMono(1, m, n); }
    }
  }

  // For every slope of a configured curve the 64-bit computation is the exact product
  // if and only if that product fits in 64 bits.
  lemma SegX2YWordExact(x: nat, m: nat)
    ensures SegX2YWord(x, M2Sm(m)) == x * M2Sm(m) / SM_SCALE <==> x * M2Sm(m) / SM_SCALE < U64_MODULUS
  {
    var sm := M2Sm(m);
    SlopesFit(m);
    SplitProduct(x, sm, SM_SCALE);
    var low := (x % SM_SCALE) * sm;
    assert low < U64_MODULUS by {
      MulMono(x % SM_SCALE, SM_SCALE - 1, sm);
    }
    assert Wrap(low) == low;
    if x * sm / SM_SCALE < U64_MODULUS {
      assert low / SM_SCALE >= 0;
      assert (x / SM_SCALE) * sm < U64_MODULUS;
    }
  }

  lemma SegY2XWordExact(y: nat, m: nat)
    requires m != 0
    ensures SegY2XWord(y, M2Ism(m)) == y * M2Ism(m) / ISM_SCALE <==> y * M2Ism(m) / ISM_SCALE < U64_MODULUS
  {
    var ism := M2Ism(m);
    SlopesFit(m);
    SplitProduct(y, ism, ISM_SCALE);
    var low := (y % ISM_SCALE) * ism;
    assert low < U64_MODULUS by {
      MulMono(y % ISM_SCALE, ISM_SCALE - 1, ism);
    }
    assert Wrap(low) == low;
    if y * ism / ISM_SCALE < U64_MODULUS {
      assert low / ISM_SCALE >= 0;
      assert (y / ISM_SCALE) * ism < U64_MODULUS;
    }
  }

  // The time of a whole curve, every intermediate result a word.
  function RtscY2XWord(rtsc: RuntimeSc, y: nat): int {
    if y < rtsc.y then
      rtsc.x
    else if y <= rtsc.y + rtsc.dy then
      if rtsc.dy == 0 then WrapSum(rtsc.x, rtsc.dx) else WrapSum(rtsc.x, SegY2XWord(y - rtsc.y, rtsc.ism1))
    else
      WrapSum(WrapSum(rtsc.x, rtsc.dx), SegY2XWord(y - rtsc.y - rtsc.dy, rtsc.ism2))
  }

  function WrapSum(x: int, d: int): (r: nat)
    ensures r < U64_MODULUS
    ensures r == x + d <==> 0 <= x + d < U64_MODULUS
  {
    (x + d) % U64_MODULUS
  }

  // A curve of configured rates whose fields are words.
  ghost predicate WordCurve(c: RuntimeSc, m1: nat, m2: nat) {
    && 0 <= c.x < U64_MODULUS && c.ism1 == M2Ism(m1) && c.ism2 == M2Ism(m2)
    && c.dx < U64_MODULUS && c.y + c.dy < U64_MODULUS
  }

  lemma SegY2XWordFits(y: nat, m: nat)
    ensures SegY2XWord(y, M2Ism(m)) < U64_MODULUS
    ensures SegY2X(y, M2Ism(m)) < U64_MODULUS ==> SegY2XWord(y, M2Ism(m)) == SegY2X(y, M2Ism(m))
  {
    if y != 0 && m != 0 {
      SlopesFit(m);
      SegY2XExact(y, M2Ism(m));
      SegY2XWordExact(y, m);
    }
  }

  // In 64 bits the time a curve assigns to y bytes is the exact one if and only if that time fits,
  // which an infinite one does only on a curve that starts at 0 without a first segment.
  lemma RtscY2XWordExact(c: RuntimeSc, y: nat, m1: nat, m2: nat)
    requires WordCurve(c, m1, m2)
    ensures RtscY2XWord(c, y) == RtscY2X(c, y) <==> RtscY2X(c, y) < U64_MODULUS
  {
    if c.y <= y {
      if y <= c.y + c.dy {
        SegY2XWordFits(y - c.y, m1);
      } else {
        SegY2XWordFits(y - c.y - c.dy, m2);
      }
    }
  }

  // Past the first segment of a curve whose second slope is flat the time is infinite, but the 64-bit
  // sum is the last nanosecond of that segment instead.
  lemma FlatSlopeWraps(c: RuntimeSc, y: nat, m1: nat)
    requires WordCurve(c, m1, 0) && c.y + c.dy < y && 0 < c.x + c.dx < U64_MODULUS
    ensures RtscY2X(c, y) >= U64_MODULUS && RtscY2XWord(c, y) == c.x + c.dx - 1
  {
  }

  // The bytes of a whole curve, every intermediate result a word.
  function RtscX2YWord(rtsc: RuntimeSc, x: int): int {
    if x <= rtsc.x then
      rtsc.y
    else if x <= WrapSum(rtsc.x, rtsc.dx) then
      WrapSum(rtsc.y, SegX2YWord(x - rtsc.x, rtsc.sm1))
    else
      WrapSum(WrapSum(rtsc.y, rtsc.dy), SegX2YWord(WrapSum(x - rtsc.x - rtsc.dx, 0), rtsc.sm2))
  }

  // A curve of configured rates whose first segment ends at a time that is a word.
  ghost predicate WordTimes(c: RuntimeSc, m1: nat, m2: nat) {
    && c.sm1 == M2Sm(m1) && c.sm2 == M2Sm(m2)
    && 0 <= c.x && c.x + c.dx < U64_MODULUS && c.y < U64_MODULUS && c.dy < U64_MODULUS
  }

  lemma SegX2YWordFits(x: nat, m: nat)
    ensures SegX2YWord(x, M2Sm(m)) < U64_MODULUS
    ensures SegX2Y(x, M2Sm(m)) < U64_MODULUS ==> SegX2YWord(x, M2Sm(m)) == SegX2Y(x, M2Sm(m))
  {
    SegX2YExact(x, M2Sm(m));
    SegX2YWordExact(x, m);
  }

  // In 64 bits the bytes a curve grants by a time are the exact ones if and only if those fit.
  lemma RtscX2YWordExact(c: RuntimeSc, x: int, m1: nat, m2: nat)
    requires WordTimes(c, m1, m2) && 0 <= x < U64_MODULUS
    ensures RtscX2YWord(c, x) == RtscX2Y(c, x) <==> RtscX2Y(c, x) < U64_MODULUS
  {
    if c.x < x {
      if x <= c.x + c.dx {
        SegX2YWordFits(x - c.x, m1);
      } else {
        SegX2YWordFits(x - c.x - c.dx, m2);
      }
    }
  }

  const FAST := Sc(0, 0, 100_000_000_000)

  lemma FastIs()
    ensures var isc := Sc2Isc(FAST); isc.dx == 0 && isc.dy == 0 && isc.sm2 == 209_715_200
  {
    SegX2YExact(0, M2Sm(0));
  }

  // They do not for a deadline curve of 100 Gbit/s as it is created, at any time of day since the
  // end of 2023: the clock counts the nanoseconds from 1970.
  lemma FastCurveWraps(x: int)
    requires 1_700_000_000_000_000_000 <= x < U64_MODULUS
    ensures var c := RuntimeInit(Sc2Isc(FAST), 0, 0); RtscX2YWord(c, x) < U64_MODULUS <= RtscX2Y(c, x)
  {
    var sm := Sc2Isc(FAST).sm2;
    FastIs();
    SegX2YExact(x, sm);
    assert SegX2Y(x, sm) >= U64_MODULUS;
  }

  /// ## Well-formed curves

  // A slope and its reciprocal never overshoot: sm * ism stays below the product of the scales.
  ghost predicate Reciprocal(sm: nat, ism: nat) {
    if ism == HT_INFINITY then sm == 0 else sm * ism <= SM_SCALE * ISM_SCALE
  }

  lemma RateReciprocal(m: nat)
    ensures Reciprocal(M2Sm(m), M2Ism(m))
  {
    if m != 0 {
      SlopesFit(m);
      var sm, ism := M2Sm(m), M2Ism(m);
      var n := HFSC_FREQ * ISM_SCALE * 8;
      var v := (m * SM_SCALE) % U64_MODULUS;
      FloorBounds(n, m);
      assert m * ism <= n;
      assert v <= m * SM_SCALE;
      assert sm * (8 * HFSC_FREQ) <= v by {
        FloorBounds(v, 8);
        FloorBounds(v / 8, HFSC_FREQ);
      }
      calc <= {
        sm * ism * (8 * HFSC_FREQ);
        {
          assert sm * ism * (8 * HFSC_FREQ) == (sm * (8 * HFSC_FREQ)) * ism;
          MulMono(sm * (8 * HFSC_FREQ), m * SM_SCALE, ism);
        }
        (m * SM_SCALE) * ism;
        { assert (m * SM_SCALE) * ism == (m * ism) * SM_SCALE; MulMono(m * ism, n, SM_SCALE); }
        n * SM_SCALE;
      }
    }
  }

  // Truncation loses no more than that either, exactly for the rates whose scaling does not drop bits.
  lemma RateTight(m: nat)
    requires m > 0
    ensures SM_SCALE * ISM_SCALE <= M2Sm(m) * M2Ism(m) + M2Sm(m) + M2Ism(m) <==> m < 0x100_0000_0000
  {
    if m < 0x100_0000_0000 {
      TightBelow(m);
    } else {
      LooseAbove(m);
    }
  }

  lemma TightBelow(m: nat)
    requires 0 < m < 0x100_0000_0000
    ensures SM_SCALE * ISM_SCALE < (M2Sm(m) + 1) * (M2Ism(m) + 1)
  {
    var sm, ism := M2Sm(m), M2Ism(m);
    var n := HFSC_FREQ * ISM_SCALE * 8;
    assert m * SM_SCALE % U64_MODULUS == m * SM_SCALE;
    FloorBounds(m * SM_SCALE / 8, HFSC_FREQ);
    assert m * SM_SCALE < (sm + 1) * (8 * HFSC_FREQ);
    FloorBounds(n, m);
    assert n < m * (ism + 1);
    MulMono(m * SM_SCALE, (sm + 1) * (8 * HFSC_FREQ), ism + 1);
    assert (m * SM_SCALE) * (ism + 1) == (m * (ism + 1)) * SM_SCALE;
    assert ((sm + 1) * (8 * HFSC_FREQ)) * (ism + 1) == ((sm + 1) * (ism + 1)) * (8 * HFSC_FREQ);
  }

  // Above that the bits dropped are at least half of the rate.
  lemma LooseAbove(m: nat)
    requires 0x100_0000_0000 <= m
    ensures M2Sm(m) * M2Ism(m) + M2Sm(m) + M2Ism(m) < SM_SCALE * ISM_SCALE
  {
    var kept := m % 0x100_0000_0000;
    var n := HFSC_FREQ * ISM_SCALE * 8;
    KeptSlope(m);
    FloorBounds(n, m);
    HalfKept(M2Sm(m), M2Ism(m), kept, m, n);
    FloorAtMost(n, m, 8);
    SmallSum(M2Sm(m) * M2Ism(m), M2Sm(m), M2Ism(m));
  }

  lemma KeptSlope(m: nat)
    ensures M2Sm(m) * (8 * HFSC_FREQ) <= (m % 0x100_0000_0000) * SM_SCALE
  {
    assert m * SM_SCALE % U64_MODULUS == (m % 0x100_0000_0000) * SM_SCALE;
  }

  lemma SmallSum(product: nat, sm: nat, ism: nat)
    requires 2 * product * (8 * HFSC_FREQ) <= HFSC_FREQ * ISM_SCALE * 8 * SM_SCALE
    requires sm * (8 * HFSC_FREQ) < U64_MODULUS && ism <= 8
    ensures product + sm + ism < SM_SCALE * ISM_SCALE
  {
  }

  lemma HalfKept(sm: nat, ism: nat, kept: nat, m: nat, n: nat)
    requires sm * (8 * HFSC_FREQ) <= kept * SM_SCALE && 2 * kept <= m && m * ism <= n
    ensures 2 * (sm * ism) * (8 * HFSC_FREQ) <= n * SM_SCALE
  {
    MulMono(sm * (8 * HFSC_FREQ), kept * SM_SCALE, ism);
    assert (sm * (8 * HFSC_FREQ)) * ism == (sm * ism) * (8 * HFSC_FREQ);
    assert (kept * SM_SCALE) * ism == (kept * ism) * SM_SCALE;
    MulMono(2 * kept, m, ism);
    assert (2 * kept) * ism == 2 * (kept * ism);
  }

  // A rate is so many bits per second: the bytes of a second, and the time of the bytes of eight, but for
  // truncation.
  lemma RateIsPerSecond(m: nat)
    requires 0 < m < 0x100_0000_0000
    ensures m / 8 - 60 <= SegX2Y(HFSC_FREQ, M2Sm(m)) <= m / 8
    ensures 8 * HFSC_FREQ - m / ISM_SCALE - 1 <= SegY2X(m, M2Ism(m)) <= 8 * HFSC_FREQ
  {
    SegX2YExact(HFSC_FREQ, M2Sm(m));
    SlopesFit(m);
    SegY2XExact(m, M2Ism(m));
    var n := HFSC_FREQ * ISM_SCALE * 8;
    FloorBounds(n, m);
    assert m * SM_SCALE % U64_MODULUS == m * SM_SCALE;
  }

  // The first segment of a configured curve lasts for its d milliseconds.
  lemma ConfiguredLength(sc: Sc)
    ensures Sc2Isc(sc).dx == sc.d * 1_000_000
  {
  }

  // dy is the rise over the first segment, and both slopes have sound reciprocals.
  ghost predicate WellFormed(c: RuntimeSc) {
    && c.dy == SegX2Y(c.dx, c.sm1)
    && Reciprocal(c.sm1, c.ism1)
    && Reciprocal(c.sm2, c.ism2)
  }

  ghost predicate WellFormedIsc(isc: InternalSc) {
    WellFormed(RuntimeInit(isc, 0, 0))
  }

  lemma ConfiguredWellFormed(sc: Sc)
    ensures WellFormedIsc(Sc2Isc(sc))
  {
    RateReciprocal(sc.m1);
    RateReciprocal(sc.m2);
  }

  /// ## Segments are monotone and invert each other from below

  lemma SegX2YMono(x: nat, x': nat, sm: nat)
    requires x <= x'
    ensures SegX2Y(x, sm) <= SegX2Y(x', sm)
  {
    SegX2YExact(x, sm);
    SegX2YExact(x', sm);
    MulMono(x, x', sm);
    FloorMono(x * sm, x' * sm, SM_SCALE);
  }

  lemma SegY2XMono(y: nat, y': nat, ism: nat)
    requires y <= y'
    ensures SegY2X(y, ism) <= SegY2X(y', ism)
  {
    if ism != HT_INFINITY {
      SegY2XExact(y, ism);
      SegY2XExact(y', ism);
      MulMono(y, y', ism);
      FloorMono(y * ism, y' * ism, ISM_SCALE);
    }
  }

  // The time a segment needs for y bytes is never enough to serve more than y bytes.
  lemma SegInverse(y: nat, sm: nat, ism: nat)
    requires Reciprocal(sm, ism)
    ensures SegX2Y(SegY2X(y, ism), sm) <= y
  {
    var x := SegY2X(y, ism);
    SegX2YExact(x, sm);
    SegY2XExact(y, ism);
    if ism == HT_INFINITY {
      assert x * sm == 0;
    } else {
      RoundTripAtMost(y, ism, ISM_SCALE, sm, SM_SCALE);
    }
  }

  // Bytes served in x nanoseconds never take longer than x, provided the slope is not flat.
  lemma SegInverseTime(x: nat, sm: nat, ism: nat)
    requires Reciprocal(sm, ism)
    ensures SegY2X(SegX2Y(x, sm), ism) <= x
  {
    var y := SegX2Y(x, sm);
    SegX2YExact(x, sm);
    SegY2XExact(y, ism);
    if ism == HT_INFINITY {
      assert x * sm == 0;
    } else {
      RoundTripAtMost(x, sm, SM_SCALE, ism, ISM_SCALE);
    }
  }

  /// ## Whole curves

  lemma RtscX2YMono(c: RuntimeSc, t: int, t': int)
    requires WellFormed(c) && t <= t'
    ensures RtscX2Y(c, t) <= RtscX2Y(c, t')
  {
    if c.x < t {
      if t' <= c.x + c.dx {
        SegX2YMono(t - c.x, t' - c.x, c.sm1);
      } else if t <= c.x + c.dx {
        SegX2YMono(t - c.x, c.dx, c.sm1);
      } else {
        SegX2YMono(t - c.x - c.dx, t' - c.x - c.dx, c.sm2);
      }
    }
  }

  // The first segment's inverse stays within the first segment.
  lemma FirstSegmentWithin(c: RuntimeSc, y: nat)
    requires WellFormed(c) && y <= c.dy
    ensures SegY2X(y, c.ism1) <= c.dx
  {
    SegY2XMono(y, c.dy, c.ism1);
    SegInverseTime(c.dx, c.sm1, c.ism1);
  }

  lemma RtscY2XMono(c: RuntimeSc, y: nat, y': nat)
    requires WellFormed(c) && y <= y'
    ensures RtscY2X(c, y) <= RtscY2X(c, y')
  {
    if c.y <= y {
      if y' <= c.y + c.dy {
        SegY2XMono(y - c.y, y' - c.y, c.ism1);
      } else if y <= c.y + c.dy {
        FirstSegmentWithin(c, y - c.y);
      } else {
        SegY2XMono(y - c.y - c.dy, y' - c.y - c.dy, c.ism2);
      }
    }
  }

  // At the time a curve assigns to y bytes it has granted at most y bytes.
  lemma InverseBound(c: RuntimeSc, y: nat)
    requires WellFormed(c) && c.y <= y
    ensures RtscX2Y(c, RtscY2X(c, y)) <= y
  {
    if y <= c.y + c.dy {
      if c.dy != 0 {
        FirstSegmentWithin(c, y - c.y);
        SegInverse(y - c.y, c.sm1, c.ism1);
      }
    } else {
      SegInverse(y - c.y - c.dy, c.sm2, c.ism2);
    }
  }

  // What is lost of y bytes by going through a truncated inverse slope and a truncated slope.
  function Lost(y: nat, sm: nat, ism: nat): nat
    requires sm * ism <= SM_SCALE * ISM_SCALE
  {
    1 + y * (SM_SCALE * ISM_SCALE - sm * ism) / (SM_SCALE * ISM_SCALE)
  }

  // Slope and inverse slope miss the product of the scales by no more than their sum.
  ghost predicate Tight(sm: nat, ism: nat) {
    sm * ism <= SM_SCALE * ISM_SCALE <= sm * ism + sm + ism
  }

  lemma RateIsTight(m: nat)
    requires 0 < m < 0x100_0000_0000
    ensures M2Ism(m) != HT_INFINITY && Tight(M2Sm(m), M2Ism(m))
  {
    SlopesFit(m);
    RateReciprocal(m);
    RateTight(m);
  }

  // For a configured rate below 2^40 that is what the truncation of either slope loses by the other.
  lemma ConfiguredLost(y: nat, m: nat)
    requires 0 < m < 0x100_0000_0000
    ensures M2Ism(m) != HT_INFINITY && M2Sm(m) * M2Ism(m) <= SM_SCALE * ISM_SCALE
    ensures Lost(y, M2Sm(m), M2Ism(m)) <= 1 + y * (M2Sm(m) + M2Ism(m)) / (SM_SCALE * ISM_SCALE)
  {
    RateIsTight(m);
    LostAtMost(y, M2Sm(m), M2Ism(m));
  }

  lemma LostAtMost(y: nat, sm: nat, ism: nat)
    requires Tight(sm, ism)
    ensures Lost(y, sm, ism) <= 1 + y * (sm + ism) / (SM_SCALE * ISM_SCALE)
  {
    MulMono(SM_SCALE * ISM_SCALE - sm * ism, sm + ism, y);
    FloorMono(y * (SM_SCALE * ISM_SCALE - sm * ism), y * (sm + ism), SM_SCALE * ISM_SCALE);
  }

  // One nanosecond after the time for y bytes a segment has served them, but for that loss.
  lemma SegInverseAtLeast(y: nat, sm: nat, ism: nat)
    requires Reciprocal(sm, ism) && ism != HT_INFINITY
    ensures y <= SegX2Y(SegY2X(y, ism) + 1, sm) + Lost(y, sm, ism)
  {
    SegY2XExact(y, ism);
    SegX2YExact(SegY2X(y, ism) + 1, sm);
    assert ism * sm == sm * ism;
    RoundTripAtLeast(y, ism, ISM_SCALE, sm, SM_SCALE, SM_SCALE * ISM_SCALE);
  }

  // The loss on the segment that y bytes fall into.
  function LostAt(c: RuntimeSc, y: nat): nat
    requires WellFormed(c) && (y > c.y + c.dy ==> c.ism2 != HT_INFINITY)
  {
    if y <= c.y then 0
    else if y <= c.y + c.dy then Lost(y - c.y, c.sm1, c.ism1)
    else Lost(y - c.y - c.dy, c.sm2, c.ism2)
  }

  lemma FlatFirst(c: RuntimeSc)
    requires WellFormed(c) && c.dy != 0
    ensures c.ism1 != HT_INFINITY
  {
    SegX2YExact(c.dx, c.sm1);
  }

  // One nanosecond after the time a curve assigns to y bytes it has granted them, but for that loss:
  // the time is not too early, unless it is infinite.
  lemma InverseAtLeast(c: RuntimeSc, y: nat)
    requires WellFormed(c) && (y > c.y + c.dy ==> c.ism2 != HT_INFINITY)
    ensures y <= RtscX2Y(c, RtscY2X(c, y) + 1) + LostAt(c, y)
  {
    if c.y < y {
      if y <= c.y + c.dy {
        FlatFirst(c);
        FirstSegmentWithin(c, y - c.y);
        SegInverseAtLeast(y - c.y, c.sm1, c.ism1);
      } else {
        SegInverseAtLeast(y - c.y - c.dy, c.sm2, c.ism2);
      }
    }
  }

  // So no time by which the curve has granted less than that comes after it.
  lemma TooEarly(c: RuntimeSc, y: nat, t: int)
    requires WellFormed(c) && (y > c.y + c.dy ==> c.ism2 != HT_INFINITY)
    requires RtscX2Y(c, t) + LostAt(c, y) < y
    ensures t <= RtscY2X(c, y)
  {
    InverseAtLeast(c, y);
    if RtscY2X(c, y) < t {
      RtscX2YMono(c, RtscY2X(c, y) + 1, t);
    }
  }

  // Conversely the time assigned to the bytes granted by t is no later than t. This is false
  // exactly on the flat start of a curve, where the inverse jumps to the segment's end.
  lemma InverseTimeBound(c: RuntimeSc, t: int)
    requires WellFormed(c) && c.x <= t
    ensures RtscY2X(c, RtscX2Y(c, t)) <= t <==> (c.dy != 0 || c.x + c.dx <= t)
  {
    var y := RtscX2Y(c, t);
    if t <= c.x + c.dx {
      if c.x < t {
        SegX2YMono(t - c.x, c.dx, c.sm1);
        SegInverseTime(t - c.x, c.sm1, c.ism1);
      }
    } else {
      if y == c.y + c.dy {
        FirstSegmentWithin(c, c.dy);
      } else {
        SegInverseTime(t - c.x - c.dx, c.sm2, c.ism2);
      }
    }
  }
}
