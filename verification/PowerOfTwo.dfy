/**
 The least power of two that is not below a 32-bit number, computed by spreading the top bit over
 all the bits below it. Words are natural numbers below 2^32; sums and differences wrap around.
 */
module PowerOfTwo {
  import opened Basics

  const WORD: nat := 0x1_0000_0000
  const HALF: nat := 0x8000_0000

  function Exp(n: nat): (r: nat)
    ensures r > 0
  {
    if n == 0 then 1 else 2 * Exp(n - 1)
  }

  // Bitwise or.
  function Or(a: nat, b: nat): nat {
    if a == 0 then b
    else if b == 0 then a
    else 2 * Or(a / 2, b / 2) + (if a % 2 == 1 || b % 2 == 1 then 1 else 0)
  }

  function ShiftRight(a: nat, n: nat): nat
    decreases n
  {
    if n == 0 then a else ShiftRight(a / 2, n - 1)
  }

  function BitLength(x: nat): nat {
    if x == 0 then 0 else 1 + BitLength(x / 2)
  }

  // Of a word.
  function LeadingZeros(x: nat): nat {
    if BitLength(x) <= 32 then 32 - BitLength(x) else 0
  }

  lemma {:induction false} ShiftShift(a: nat, m: nat, n: nat)
    ensures ShiftRight(ShiftRight(a, m), n) == ShiftRight(a, m + n)
    decreases m
  {
    if m != 0 {
      ShiftShift(a / 2, m - 1, n);
    }
  }

  lemma OrHalves(a: nat, b: nat)
    ensures Or(a, b) / 2 == Or(a / 2, b / 2)
  {
  }

  lemma {:induction false} OrShifts(a: nat, b: nat, n: nat)
    ensures ShiftRight(Or(a, b), n) == Or(ShiftRight(a, n), ShiftRight(b, n))
    decreases n
  {
    if n != 0 {
      OrHalves(a, b);
      OrShifts(a / 2, b / 2, n - 1);
    }
  }

  // Ones above and ones below make ones throughout.
  lemma {:induction false} OrFills(a: nat, j: nat, m: nat)
    requires ShiftRight(a, m) == Exp(j) - 1
    ensures Or(a, Exp(m) - 1) == Exp(j + m) - 1
    decreases m
  {
    if m != 0 {
      OrFills(a / 2, j, m - 1);
      var b := Exp(m) - 1;
      assert b % 2 == 1 && b / 2 == Exp(m - 1) - 1;
      assert Exp(j + m) == 2 * Exp(j + m - 1);
    }
  }

  // v has h bits, the top m of which are ones.
  ghost predicate Ones(v: nat, h: nat, m: nat) {
    m <= h && ShiftRight(v, h - m) == Exp(m) - 1
  }

  lemma {:induction false} OnesBelow(j: nat, m: nat)
    ensures ShiftRight(Exp(j + m) - 1, m) == Exp(j) - 1
    decreases m
  {
    if m != 0 {
      assert (Exp(j + m) - 1) / 2 == Exp(j + m - 1) - 1;
      OnesBelow(j, m - 1);
    }
  }

  // One spreading step doubles the ones.
  lemma Spread(v: nat, m: nat, k: nat, t: nat)
    requires k <= m && ShiftRight(v, t + k) == Exp(m) - 1
    ensures ShiftRight(Or(v, ShiftRight(v, m)), t) == Exp(m + k) - 1
  {
    var w := ShiftRight(v, m);
    assert ShiftRight(w, t) == Exp(k) - 1 by {
      ShiftShift(v, m, t);
      ShiftShift(v, t + k, m - k);
      OnesBelow(k, m - k);
    }
    assert ShiftRight(ShiftRight(v, t), k) == Exp(m) - 1 by {
      ShiftShift(v, t, k);
    }
    OrShifts(v, w, t);
    OrFills(ShiftRight(v, t), m, k);
  }

  lemma {:induction false} ExpGrows(m: nat, n: nat)
    ensures m < n ==> Exp(m) < Exp(n)
    ensures m <= n ==> Exp(m) <= Exp(n)
    decreases n
  {
    if m < n {
      ExpGrows(m, n - 1);
    }
  }

  lemma {:induction false} TopBit(x: nat)
    ensures x < Exp(BitLength(x)) && (x > 0 ==> BitLength(x) > 0 && Exp(BitLength(x) - 1) <= x)
  {
    if x != 0 {
      TopBit(x / 2);
    }
  }

  lemma {:induction false} TopOne(x: nat)
    ensures Ones(x, BitLength(x), Min(1, BitLength(x)))
  {
    if x > 1 {
      TopOne(x / 2);
    }
  }

  // The length of a number is known from the powers of two around it.
  lemma LengthIs(x: nat, h: nat)
    requires h > 0 && Exp(h - 1) <= x < Exp(h)
    ensures BitLength(x) == h
  {
    TopBit(x);
    ExpGrows(h, BitLength(x) - 1);
    ExpGrows(BitLength(x), h - 1);
  }

  // The least power of two from val up, or 0 if that does not fit or val is 0.
  function NextPow2(val: nat): nat {
    if 1 <= val <= HALF then Exp(BitLength(val - 1)) else 0
  }

  // The bit length of w is at most n exactly if w is below that power.
  lemma LengthBelow(w: nat, n: nat)
    ensures BitLength(w) <= n <==> w < Exp(n)
  {
    var h := BitLength(w);
    TopBit(w);
    ExpGrows(h, n);
    if n < h {
      ExpGrows(n, h - 1);
    }
  }

  lemma NextIsLeast(val: nat, n: nat)
    requires 1 <= val <= HALF
    ensures val <= NextPow2(val) <= HALF && BitLength(val - 1) <= 31
    ensures val <= Exp(n) ==> NextPow2(val) <= Exp(n)
  {
    var h: nat, top: nat := BitLength(val - 1), 31;
    HalfWord(top);
    TopBit(val - 1);
    LengthBelow(val - 1, top);
    LengthBelow(val - 1, n);
    ExpGrows(h, top);
    ExpGrows(h, n);
  }

  // Five steps spread the top bit of a word over all bits below it.
  lemma SpreadWord(v: nat, v1: nat, v2: nat, v4: nat, v8: nat, v16: nat)
    requires v < WORD
    requires v1 == Or(v, ShiftRight(v, 1)) && v2 == Or(v1, ShiftRight(v1, 2)) && v4 == Or(v2, ShiftRight(v2, 4))
    requires v8 == Or(v4, ShiftRight(v4, 8)) && v16 == Or(v8, ShiftRight(v8, 16))
    ensures v16 == Exp(BitLength(v)) - 1
  {
    var h := BitLength(v);
    WordLength(v);
    TopOne(v);
    SpreadMore(v, h, 1);
    SpreadMore(v1, h, 2);
    SpreadMore(v2, h, 4);
    SpreadMore(v4, h, 8);
    SpreadMore(v8, h, 16);
  }

  lemma SpreadTo(v: nat, h: nat, m: nat, k: nat)
    requires k <= m && m + k <= h && Ones(v, h, m)
    ensures Ones(Or(v, ShiftRight(v, m)), h, m + k)
  {
    var t := h - m - k;
    assert t + k == h - m;
    Spread(v, m, k, t);
  }

  lemma SpreadMore(v: nat, h: nat, m: nat)
    requires Ones(v, h, Min(m, h))
    ensures Ones(Or(v, ShiftRight(v, m)), h, Min(2 * m, h))
  {
    if m <= h {
      SpreadTo(v, h, m, Min(2 * m, h) - m);
    } else {
      AllOnes(v, h, m);
    }
  }

  lemma AllOnes(v: nat, h: nat, m: nat)
    requires ShiftRight(v, 0) == Exp(h) - 1 && h <= m
    ensures Or(v, ShiftRight(v, m)) == v
  {
    ShiftOut(h, m);
  }

  lemma {:induction false} ShiftOut(h: nat, m: nat)
    requires h <= m
    ensures ShiftRight(Exp(h) - 1, m) == 0
    decreases m
  {
    if h > 0 {
      ShiftOut(h - 1, m - 1);
    } else if m > 0 {
      ShiftOut(0, m - 1);
    }
  }

  lemma {:induction false} ExpSum(m: nat, n: nat)
    ensures Exp(m + n) == Exp(m) * Exp(n)
    decreases m
  {
    if m != 0 {
      ExpSum(m - 1, n);
      assert Exp(m + n) == 2 * Exp(m - 1 + n);
      assert 2 * (Exp(m - 1) * Exp(n)) == (2 * Exp(m - 1)) * Exp(n);
    }
  }

  lemma Square(m: nat, n: nat)
    requires n == m + m
    ensures Exp(n) == Exp(m) * Exp(m)
  {
    ExpSum(m, m);
  }

  lemma FullWord(n: nat)
    requires n == 32
    ensures Exp(n) == WORD
  {
    var a: nat, b: nat, c: nat, d: nat := 2, 4, 8, 16;
    Square(a, b);
    Square(b, c);
    Square(c, d);
    Square(d, n);
  }

  lemma HalfWord(n: nat)
    requires n == 31
    ensures Exp(n) == HALF
  {
    FullWord(n + 1);
    assert Exp(n + 1) == 2 * Exp(n);
  }

  lemma ExpInHalf(k: nat)
    requires k <= 31
    ensures Exp(k) <= HALF
  {
    var top: nat := 31;
    HalfWord(top);
    ExpGrows(k, top);
  }

  lemma WordLength(v: nat)
    requires v < WORD
    ensures BitLength(v) <= 32
  {
    var bits: nat := 32;
    FullWord(bits);
    LengthBelow(v, bits);
  }

  // Adding one to the ones gives the power of two, and wraps to 0 where it does not fit or where
  // the subtraction before wrapped.
  lemma RoundsUp(val: nat, was: nat, v: nat)
    requires val < WORD && was == (val + WORD - 1) % WORD && v == Exp(BitLength(was)) - 1
    ensures (v + 1) % WORD == NextPow2(val)
  {
    Before(val);
    assert v + 1 == if 1 <= val <= HALF then NextPow2(val) else WORD by {
      if 1 <= val <= HALF {
        assert was == val - 1;
      } else {
        FullLength(was);
      }
    }
    if 1 <= val <= HALF {
      NextIsLeast(val, 0);
    }
    Within(v + 1);
  }

  lemma Within(v: nat)
    requires v <= WORD
    ensures v % WORD == if v == WORD then 0 else v
  {
  }

  lemma Before(val: nat)
    requires val < WORD
    ensures (val + WORD - 1) % WORD == if val == 0 then WORD - 1 else val - 1
  {
  }

  lemma FullLength(w: nat)
    requires HALF <= w < WORD
    ensures Exp(BitLength(w)) == WORD
  {
    HalfLength(w);
    WordLength(w);
    FullWord(BitLength(w));
  }

  // A word below half the range has fewer than 32 bits, and the power of two above it is a word.
  lemma HalfLength(w: nat)
    ensures BitLength(w) <= 31 <==> w < HALF
    ensures w < HALF ==> Exp(BitLength(w)) <= HALF
  {
    var h: nat, top: nat := BitLength(w), 31;
    HalfWord(top);
    LengthBelow(w, top);
    ExpGrows(h, top);
  }

  // The code's sequence of shifts computes it, and gives 0 where the sums wrap around.
  method Pow2U32(val: nat) returns (v: nat)
    requires val < WORD
    ensures v == NextPow2(val)
  {
    v := (val + WORD - 1) % WORD;
    ghost var was := v;
    v := Or(v, ShiftRight(v, 1));
    ghost var v1 := v;
    v := Or(v, ShiftRight(v, 2));
    ghost var v2 := v;
    v := Or(v, ShiftRight(v, 4));
    ghost var v4 := v;
    v := Or(v, ShiftRight(v, 8));
    ghost var v8 := v;
    v := Or(v, ShiftRight(v, 16));
    SpreadWord(was, v1, v2, v4, v8, v);
    RoundsUp(val, was, v);
    v := (v + 1) % WORD;
  }

  // A power of two is its own next one.
  lemma PowerStays(k: nat)
    requires k <= 31
    ensures NextPow2(Exp(k)) == Exp(k) <= HALF
  {
    ExpInHalf(k);
    if k > 0 {
      LengthIs(Exp(k) - 1, k);
    }
  }
}
