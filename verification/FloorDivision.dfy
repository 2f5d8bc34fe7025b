/**
 Floor division and multiplication facts that the fixed-point service curves rest on.
 The divisors are powers of two in the callers; nothing here depends on that.
 */
module FloorDivision {

  // The defining bounds of a floor.
  lemma FloorBounds(v: int, p: int)
    requires p > 0
    ensures p * (v / p) <= v < p * (v / p) + p
  {
  }

  // The quotient is the only integer within those bounds.
  lemma FloorUnique(v: int, p: int, q: int)
    requires p > 0
    requires p * q <= v < p * q + p
    ensures v / p == q
  {
    FloorBounds(v, p);
    if q < v / p {
      MulMono(q + 1, v / p, p);
    } else if v / p < q {
      MulMono(v / p + 1, q, p);
    }
  }

  lemma MulMono(a: int, b: int, k: int)
    requires a <= b && 0 <= k
    ensures a * k <= b * k
    ensures k * a <= k * b
  {
  }

  lemma FloorMono(a: int, b: int, p: int)
    requires p > 0 && a <= b
    ensures a / p <= b / p
  {
    FloorBounds(a, p);
    FloorBounds(b, p);
    if b / p < a / p {
      MulMono(b / p + 1, a / p, p);
    }
  }

  // A bound on the dividend is a bound on the quotient.
  lemma FloorAtMost(v: int, p: int, q: int)
    requires p > 0 && v <= p * q
    ensures v / p <= q
  {
    FloorBounds(v, p);
    if q < v / p {
      MulMono(q + 1, v / p, p);
    }
  }

  // A multiplication split over the high and low part of one factor loses nothing.
  lemma SplitProduct(x: int, m: int, p: int)
    requires p > 0
    ensures (x / p) * m + ((x % p) * m) / p == (x * m) / p
  {
    var h, l := x / p, x % p;
    assert x == p * h + l;
    assert x * m == p * (h * m) + l * m by {
      assert (p * h) * m == p * (h * m);
    }
    FloorBounds(l * m, p);
    assert p * (h * m + (l * m) / p) == p * (h * m) + p * ((l * m) / p);
    FloorUnique(x * m, p, h * m + (l * m) / p);
  }

  // Scaling down by a/p and then by b/q never gains, when a * b <= p * q.
  lemma RoundTripAtMost(x: nat, a: nat, p: nat, b: nat, q: nat)
    requires p > 0 && q > 0 && a * b <= p * q
    ensures ((x * a) / p) * b / q <= x
  {
    var y := (x * a) / p;
    FloorBounds(x * a, p);
    assert (p * y) * b <= (x * a) * b by { MulMono(p * y, x * a, b); }
    assert (a * b) * x <= (p * q) * x by { MulMono(a * b, p * q, x); }
    Reorder(x, a, b);
    Reorder(x, p, q);
    Reorder(b, p, y);
    assert p * (y * b) <= p * (q * x);
    MulCancel(y * b, q * x, p);
    FloorAtMost(y * b, q, x);
  }

  // And one more in between makes up for both floors, up to what the factors lose.
  lemma RoundTripAtLeast(x: nat, a: nat, p: nat, b: nat, q: nat, pq: nat)
    requires p > 0 && q > 0 && pq == p * q && a * b <= pq
    ensures x <= ((x * a) / p + 1) * b / q + 1 + x * (pq - a * b) / pq
  {
    var y := (x * a) / p;
    var z := (y + 1) * b / q;
    var lost := x * (pq - a * b) / pq;
    assert pq > 0 by { MulMono(1, p, q); }
    TwoFloors(x, a, p, b, q, y, z);
    FloorBounds(x * (pq - a * b), pq);
    assert x * (pq - a * b) == pq * x - (a * b) * x;
    assert pq * (z + 1) == (p * q) * (z + 1);
    assert pq * (z + 1) + pq * (lost + 1) == pq * (z + lost + 2);
    if x > z + lost + 1 {
      MulMono(z + lost + 2, x, pq);
    }
  }

  lemma TwoFloors(x: nat, a: nat, p: nat, b: nat, q: nat, y: nat, z: nat)
    requires p > 0 && q > 0 && y == (x * a) / p && z == (y + 1) * b / q
    ensures (a * b) * x <= (p * q) * (z + 1)
  {
    FloorBounds(x * a, p);
    FloorBounds((y + 1) * b, q);
    MulMono(x * a, p * (y + 1), b);
    MulMono((y + 1) * b, q * (z + 1), p);
    Reorder(x, a, b);
    Reorder(z + 1, p, q);
    Reorder(b, p, y + 1);
    assert (p * (y + 1)) * b == p * ((y + 1) * b);
  }

  lemma Reorder(x: int, a: int, b: int)
    ensures (x * a) * b == (a * b) * x
    ensures a * (b * x) == (a * b) * x
  {
  }

  lemma MulCancel(a: int, b: int, k: int)
    requires 0 < k && k * a <= k * b
    ensures a <= b
  {
    if b < a {
      MulMono(b + 1, a, k);
    }
  }
}
