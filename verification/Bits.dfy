/** Bit operations on naturals, digit by digit, and big-endian values of byte strings. */
module Bits {
  import opened Basics

  function Power2(n: nat): nat {
    if n == 0 then 1 else 2 * Power2(n - 1)
  }

  /** Exclusive or of the low `width` bits. */
  function XorBits(a: nat, b: nat, width: nat): (x: nat)
    ensures x < Power2(width)
  {
    if width == 0 then 0
    else 2 * XorBits(a / 2, b / 2, width - 1) + (if a % 2 != b % 2 then 1 else 0)
  }

  /** Conjunction of the low `width` bits. */
  function AndBits(a: nat, b: nat, width: nat): (x: nat)
    ensures x < Power2(width)
  {
    if width == 0 then 0
    else 2 * AndBits(a / 2, b / 2, width - 1) + (if a % 2 == b % 2 == 1 then 1 else 0)
  }

  /** `a` without its low `k` bits. */
  function High(a: nat, k: nat): nat {
    if k == 0 then a else High(a / 2, k - 1)
  }

  /** The low `k` bits of `a`. */
  function Low(a: nat, k: nat): (x: nat)
    ensures x < Power2(k) && x <= a
  {
    if k == 0 then 0 else 2 * Low(a / 2, k - 1) + a % 2
  }

  /** `a` with `k` zero bits appended. */
  function Shift(a: nat, k: nat): nat {
    if k == 0 then a else 2 * Shift(a, k - 1)
  }

  /** `width - k` ones followed by `k` zeros. */
  function Mask(width: nat, k: nat): nat
    requires k <= width
  {
    if width == 0 then 0 else if k == 0 then 2 * Mask(width - 1, 0) + 1 else 2 * Mask(width - 1, k - 1)
  }

  lemma {:induction false} XorBitsTwice(a: nat, b: nat, width: nat)
    requires a < Power2(width)
    ensures XorBits(XorBits(a, b, width), b, width) == a
  {
    if width > 0 {
      var x := XorBits(a, b, width);
      assert x / 2 == XorBits(a / 2, b / 2, width - 1);
      assert x % 2 == if a % 2 != b % 2 then 1 else 0;
      XorBitsTwice(a / 2, b / 2, width - 1);
    }
  }

  /** The bit of `a` above its low `i` bits. */
  function BitOf(a: nat, i: nat): nat {
    High(a, i) % 2
  }

  /** A bit of the exclusive or is set exactly if the two bits differ. */
  lemma {:induction false} XorBitsAt(a: nat, b: nat, width: nat, i: nat)
    requires i < width
    ensures BitOf(XorBits(a, b, width), i) == if BitOf(a, i) != BitOf(b, i) then 1 else 0
  {
    var x := XorBits(a, b, width);
    assert x / 2 == XorBits(a / 2, b / 2, width - 1);
    assert x % 2 == if a % 2 != b % 2 then 1 else 0;
    if i > 0 {
      XorBitsAt(a / 2, b / 2, width - 1, i - 1);
    }
  }

  /** Masking keeps the high bits in their place. */
  lemma {:induction false} MaskKeepsHigh(a: nat, width: nat, k: nat)
    requires k <= width && a < Power2(width)
    ensures AndBits(a, Mask(width, k), width) == Shift(High(a, k), k)
  {
    if width > 0 {
      var m := Mask(width, k);
      if k == 0 {
        assert m / 2 == Mask(width - 1, 0) && m % 2 == 1;
        MaskKeepsHigh(a / 2, width - 1, 0);
      } else {
        assert m / 2 == Mask(width - 1, k - 1) && m % 2 == 0;
        MaskKeepsHigh(a / 2, width - 1, k - 1);
      }
    }
  }

  lemma {:induction false} ShiftInjective(a: nat, b: nat, k: nat)
    ensures Shift(a, k) == Shift(b, k) <==> a == b
  {
    if k > 0 {
      ShiftInjective(a, b, k - 1);
    }
  }

  /** Numbers with the same high bits form an interval of Power2(k) numbers. */
  lemma {:induction false} SameHighIsInterval(a: nat, b: nat, k: nat)
    ensures High(a, k) == High(b, k) <==> a - Low(a, k) <= b < a - Low(a, k) + Power2(k)
  {
    if k > 0 {
      SameHighIsInterval(a / 2, b / 2, k - 1);
    }
  }

  lemma {:induction false} HighOfHigh(a: nat, j: nat, k: nat)
    ensures High(High(a, j), k) == High(a, j + k)
  {
    if j > 0 {
      HighOfHigh(a / 2, j - 1, k);
    }
  }

  lemma {:induction false} ShiftedParts(v: nat, x: nat, j: nat, k: nat)
    requires k <= j
    ensures Low(Shift(v, j) + x, k) == Low(x, k)
    ensures High(Shift(v, j) + x, j) == v + High(x, j)
  {
    if j > 0 {
      assert (Shift(v, j) + x) / 2 == Shift(v, j - 1) + x / 2;
      ShiftedParts(v, x / 2, j - 1, if k == 0 then 0 else k - 1);
    }
  }

  lemma {:induction false} HighOfSmall(x: nat, k: nat)
    requires x < Power2(k)
    ensures High(x, k) == 0
  {
    if k > 0 {
      HighOfSmall(x / 2, k - 1);
    }
  }

  lemma {:induction false} HighOfShifted(u: nat, x: nat, j: nat, k: nat)
    requires k <= j
    ensures High(Shift(u, j) + x, k) == Shift(u, j - k) + High(x, k)
  {
    if k > 0 {
      assert (Shift(u, j) + x) / 2 == Shift(u, j - 1) + x / 2;
      HighOfShifted(u, x / 2, j - 1, k - 1);
    }
  }

  lemma {:induction false} HighBound(x: nat, j: nat, k: nat)
    requires k <= j && x < Power2(j)
    ensures High(x, k) < Power2(j - k)
  {
    if k > 0 {
      HighBound(x / 2, j - 1, k - 1);
    }
  }

  lemma ShiftedUnique(u: nat, v: nat, p: nat, q: nat, j: nat)
    requires p < Power2(j) && q < Power2(j)
    ensures Shift(u, j) + p == Shift(v, j) + q <==> u == v && p == q
  {
    ShiftedParts(u, p, j, j);
    ShiftedParts(v, q, j, j);
    HighOfSmall(p, j);
    HighOfSmall(q, j);
  }

  /** Two numbers of low part x and y: their bits above k agree when the high parts do, and the bits
      of x and y above k. */
  lemma HighOfParts(u: nat, v: nat, x: nat, y: nat, j: nat, k: nat)
    requires k <= j && x < Power2(j) && y < Power2(j)
    ensures High(Shift(u, j) + x, k) == High(Shift(v, j) + y, k) <==> u == v && High(x, k) == High(y, k)
  {
    HighOfShifted(u, x, j, k);
    HighOfShifted(v, y, j, k);
    HighBound(x, j, k);
    HighBound(y, j, k);
    ShiftedUnique(u, v, High(x, k), High(y, k), j - k);
  }

  // ---- Big-endian values ----

  function Value(b: Bytes): nat {
    if b == [] then 0 else Shift(Value(b[..|b| - 1]), 8) + b[|b| - 1] as nat
  }

  lemma HighOfValue(b: Bytes)
    requires b != []
    ensures High(Value(b), 8) == Value(b[..|b| - 1])
  {
    var x := b[|b| - 1] as nat;
    assert Power2(8) == 256;
    HighOfSmall(x, 8);
    ShiftedParts(Value(b[..|b| - 1]), x, 8, 8);
  }

  /** Equal high bits beyond a byte: the last bytes do not matter. */
  lemma HighBeyondByte(a: Bytes, b: Bytes, k: nat)
    requires |a| == |b| > 0
    ensures High(Value(a), k + 8) == High(Value(b), k + 8) <==>
            High(Value(a[..|a| - 1]), k) == High(Value(b[..|b| - 1]), k)
  {
    HighOfValue(a);
    HighOfValue(b);
    HighOfHigh(Value(a), 8, k);
    HighOfHigh(Value(b), 8, k);
  }

  /** Equal high bits within the last byte: the bytes before are equal, and its own high bits. */
  lemma HighWithinByte(a: Bytes, b: Bytes, k: nat)
    requires |a| == |b| > 0 && k <= 8
    ensures High(Value(a), k) == High(Value(b), k) <==>
            && Value(a[..|a| - 1]) == Value(b[..|b| - 1])
            && High(a[|a| - 1] as nat, k) == High(b[|b| - 1] as nat, k)
  {
    assert Power2(8) == 256;
    HighOfParts(Value(a[..|a| - 1]), Value(b[..|b| - 1]), a[|a| - 1] as nat, b[|b| - 1] as nat, 8, k);
  }

  lemma {:induction false} ValueInjective(a: Bytes, b: Bytes)
    requires |a| == |b|
    ensures Value(a) == Value(b) <==> a == b
  {
    if a == [] {
    } else {
      HighWithinByte(a, b, 0);
      ValueInjective(a[..|a| - 1], b[..|b| - 1]);
      assert a == a[..|a| - 1] + [a[|a| - 1]] && b == b[..|b| - 1] + [b[|b| - 1]];
    }
  }
}
