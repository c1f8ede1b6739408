/**
  The 16-bit unsigned floating point numbers of QUIC: 5 bits of exponent, 11 bits of mantissa and
  a hidden bit. An ACK frame carries its delay in this form.
 */
module Float16 {

  const MAX_VALUE: nat := 4095 * 0x4000_0000

  function Pow2(n: nat): (p: nat)
    ensures p > 0
  {
    if n == 0 then 1 else 2 * Pow2(n - 1)
  }

  // the number that the 16 bits x stand for
  function Decode(x: nat): (v: nat)
    requires x < 0x1_0000
  {
    if x < 4096 then x
    else
      var exponent := x / 2048 - 1;
      (x - exponent * 2048) * Pow2(exponent)
  }

  // the distance from the number of x to the next one
  function Ulp(x: nat): (u: nat)
    requires x < 0x1_0000
  {
    if x < 4096 then 1 else Pow2(x / 2048 - 1)
  }

  lemma {:induction false} Pow2Adds(m: nat, n: nat)
    ensures Pow2(m + n) == Pow2(m) * Pow2(n)
  {
    if m > 0 {
      Pow2Adds(m - 1, n);
      assert Pow2(m + n) == 2 * Pow2((m - 1) + n);
    }
  }

  lemma NextValue(x: nat)
    requires x < 0xFFFF
    ensures Decode(x + 1) == Decode(x) + Ulp(x)
  {
    if x >= 4096 {
      var e := x / 2048 - 1;
      var m := x - e * 2048;
      if m < 4095 {
        assert (x + 1) / 2048 - 1 == e;
        assert (m + 1) * Pow2(e) == m * Pow2(e) + Pow2(e);
      } else {
        assert (x + 1) / 2048 - 1 == e + 1;
        assert 2048 * (2 * Pow2(e)) == 4095 * Pow2(e) + Pow2(e);
      }
    } else if x == 4095 {
      assert Pow2(1) == 2;
    }
  }

  lemma {:induction false} DecodeIsMonotone(x: nat, y: nat)
    requires x < y < 0x1_0000
    ensures Decode(x) < Decode(y)
    decreases y - x
  {
    NextValue(x);
    if x + 1 < y { DecodeIsMonotone(x + 1, y); }
  }

  // x is the representation of v: the largest number not above v
  ghost predicate Represents(x: nat, v: nat) {
    x < 0x1_0000 && Decode(x) <= v && (x < 0xFFFF ==> v < Decode(x + 1))
  }

  lemma RepresentationIsUnique(x: nat, y: nat, v: nat)
    requires Represents(x, v) && Represents(y, v)
    ensures x == y
  {
    if x < y {
      if x + 1 < y { DecodeIsMonotone(x + 1, y); }
    } else if y < x {
      if y + 1 < x { DecodeIsMonotone(y + 1, x); }
    }
  }

  // the largest number from x downwards that is not above v
  function Largest(v: nat, x: nat): (r: nat)
    requires x < 0x1_0000 && (x < 0xFFFF ==> v < Decode(x + 1))
    ensures Represents(r, v)
  {
    if x == 0 || Decode(x) <= v then x else Largest(v, x - 1)
  }

  function Representation(v: nat): (x: nat)
    ensures Represents(x, v)
  {
    Largest(v, 0xFFFF)
  }

  // Every number is the representation of its value.
  lemma RoundTrip(x: nat)
    requires x < 0x1_0000
    ensures Representation(Decode(x)) == x
  {
    hide Representation, Decode;
    if x < 0xFFFF { DecodeIsMonotone(x, x + 1); }
    RepresentationIsUnique(x, Representation(Decode(x)), Decode(x));
  }

  lemma RepresentationIsMonotone(v: nat, w: nat)
    requires v <= w
    ensures Representation(v) <= Representation(w)
  {
    hide Representation, Decode;
    var x, y := Representation(v), Representation(w);
    if y + 1 < x { DecodeIsMonotone(y + 1, x); }
  }

  lemma UlpIsSmall(x: nat)
    requires 4096 <= x < 0x1_0000
    ensures 2048 * Ulp(x) <= Decode(x)
  {
    var e := x / 2048 - 1;
    var m, p := x - e * 2048, Pow2(e);
    assert m >= 2048;
    assert m * p == 2048 * p + (m - 2048) * p;
  }

  // Below the largest number the relative error is less than 2^-11.
  lemma RelativeError(x: nat, v: nat)
    requires Represents(x, v) && x < 0xFFFF
    ensures v == Decode(x) || 2048 * (v - Decode(x)) < Decode(x)
  {
    hide Decode, Ulp;
    NextValue(x);
    if x >= 4096 {
      UlpIsSmall(x);
    } else {
      SmallUlp(x);
    }
  }

  lemma SmallUlp(x: nat)
    requires x < 4096
    ensures Ulp(x) == 1
  {
  }

  // ----- writing

  // what a partly shifted value says about the original one
  ghost predicate Shifted(v: nat, value: nat, exponent: nat) {
    2048 <= value && value * Pow2(exponent) <= v < (value + 1) * Pow2(exponent)
  }

  lemma ShiftMore(v: nat, value: nat, exponent: nat, offset: nat)
    requires Shifted(v, value, exponent) && value >= 2048 * Pow2(offset)
    ensures Shifted(v, value / Pow2(offset), exponent + offset)
  {
    var p, q := Pow2(exponent), Pow2(offset);
    Pow2Adds(exponent, offset);
    var h := value / q;
    DivideBounds(value, q);
    QuotientAtLeast(value, q, 2048);
    ScaledBounds(v, value, h, p, q);
    assert Pow2(exponent + offset) == p * q;
  }

  lemma DivideBounds(value: nat, q: nat)
    requires q > 0
    ensures (value / q) * q <= value < (value / q + 1) * q
  {
    var h, r := value / q, value % q;
    assert value == h * q + r;
    assert (h + 1) * q == h * q + q;
  }

  lemma QuotientAtLeast(value: nat, q: nat, b: nat)
    requires q > 0 && value >= b * q
    ensures value / q >= b
  {
    var h := value / q;
    var next := h + 1;
    DivideBounds(value, q);
    assert b * q < next * q;
    LessThanMultiple(b, next, q);
  }

  lemma QuotientBelow(value: nat, q: nat, b: nat)
    requires q > 0 && value < b * q
    ensures value / q < b
  {
    var h := value / q;
    DivideBounds(value, q);
    assert h * q < b * q;
    LessThanMultiple(h, b, q);
  }

  lemma LessThanMultiple(x: nat, y: nat, q: nat)
    requires q > 0 && x * q < y * q
    ensures x < y
  {
  }

  lemma ScaledBounds(v: nat, value: nat, h: nat, p: nat, q: nat)
    requires p > 0 && q > 0 && value * p <= v < (value + 1) * p && h * q <= value && value + 1 <= (h + 1) * q
    ensures h * (p * q) <= v < (h + 1) * (p * q)
  {
    assert h * (p * q) == (h * q) * p;
    assert (h + 1) * (p * q) == ((h + 1) * q) * p;
    MulMonotone(h * q, value, p);
    MulMonotone(value + 1, (h + 1) * q, p);
  }

  lemma MulMonotone(x: nat, y: nat, p: nat)
    requires x <= y
    ensures x * p <= y * p
  {
  }

  // the bound on the value before the shift by offset is considered
  function ValueBound(offset: nat): (b: nat) {
    if offset == 0 then 4096 else 2048 * Pow2(2 * offset)
  }

  lemma BoundAfterShift(value: nat, offset: nat)
    requires offset > 0 && value < ValueBound(offset)
    ensures value / Pow2(offset) < 2048 * Pow2(offset)
  {
    var q := Pow2(offset);
    Pow2Adds(offset, offset);
    assert 2048 * (q * q) == (2048 * q) * q;
    QuotientBelow(value, q, 2048 * q);
  }

  // A shifted value is the representation, with the exponent in the high bits.
  lemma ShiftedRepresents(v: nat, value: nat, exponent: nat)
    requires Shifted(v, value, exponent) && value < 4096 && 1 <= exponent && v < MAX_VALUE
    ensures exponent <= 30 && Represents(value + exponent * 2048, v)
  {
    ExponentBound(v, value, exponent);
    var x := value + exponent * 2048;
    assert x / 2048 - 1 == exponent;
    assert Decode(x) == value * Pow2(exponent);
    if x < 0xFFFF {
      NextValue(x);
      assert (value + 1) * Pow2(exponent) == value * Pow2(exponent) + Pow2(exponent);
    }
  }

  lemma ExponentBound(v: nat, value: nat, exponent: nat)
    requires Shifted(v, value, exponent) && v < MAX_VALUE
    ensures exponent <= 30
  {
    if exponent > 30 {
      Pow2Adds(31, exponent - 31);
      Powers();
      var p, r := Pow2(exponent), Pow2(exponent - 31);
      assert p == 0x8000_0000 * r >= 0x8000_0000;
      MulMonotone(2048, value, p);
    }
  }

  // Write a number: the highest bit is shifted to position 11 by a binary search over the exponents.
  method Encode(v: nat) returns (result: nat)
    ensures result == Representation(v)
    ensures v >= MAX_VALUE ==> result == 0xFFFF
  {
    if v < 4096 {
      result := v;
      if v == 4095 { NextValue(4095); }
    } else if v >= MAX_VALUE {
      LargestValue();
      result := 0xFFFF;
    } else {
      var value: nat, exponent: nat, offset: nat := v, 0, 16;
      StartBound(v);
      while offset > 0
        invariant offset in {0, 1, 2, 4, 8, 16}
        invariant Shifted(v, value, exponent) && value < ValueBound(offset)
      {
        if value >= 2048 * Pow2(offset) {
          ShiftMore(v, value, exponent, offset);
          BoundAfterShift(value, offset);
          exponent := exponent + offset;
          value := value / Pow2(offset);
        }
        assert offset == 1 ==> 2048 * Pow2(1) == 4096;
        offset := offset / 2;
      }
      assert exponent >= 1 by { assert Pow2(0) == 1; }
      ShiftedRepresents(v, value, exponent);
      result := value + exponent * 2048;
    }
    RepresentationIsUnique(result, Representation(v), v);
  }

  lemma LargestValue()
    ensures Decode(0xFFFF) == MAX_VALUE
  {
    Powers();
  }

  lemma StartBound(v: nat)
    requires v < MAX_VALUE
    ensures v < ValueBound(16)
  {
    Powers();
  }

  lemma Powers()
    ensures Pow2(30) == 0x4000_0000 && Pow2(31) == 0x8000_0000 && Pow2(32) == 0x1_0000_0000
  {
    assert Pow2(5) == 32;
    assert Pow2(10) == 1024 by { Pow2Adds(5, 5); }
    assert Pow2(20) == 0x10_0000 by { Pow2Adds(10, 10); }
    assert Pow2(30) == 0x4000_0000 by { Pow2Adds(10, 20); }
  }
}
