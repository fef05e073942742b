/** The numeric helpers of the Arduino core and of C++ that the firmware
    relies on, written out explicitly: `constrain`, `map` on `long`, C's
    truncating integer division and the float-to-int conversion. */
module ArduinoMath {

  /** Arduino `constrain(x, lo, hi)` on floats, modelled on reals: below
      the band it gives the lower bound, above it the upper bound, inside it
      the value itself. */
  function ConstrainReal(x: real, lo: real, hi: real): (r: real)
    ensures lo <= hi ==> lo <= r <= hi
    ensures lo <= x <= hi ==> r == x
    ensures x < lo ==> r == lo
    ensures lo <= x && x > hi ==> r == hi
  {
    if x < lo then lo else if x > hi then hi else x
  }

  /** Arduino `constrain(x, lo, hi)` on integers: the same macro, whose
      result on whole numbers is a whole number. */
  function ConstrainInt(x: int, lo: int, hi: int): (r: int)
    ensures lo <= hi ==> lo <= r <= hi
    ensures lo <= x <= hi ==> r == x
    ensures x < lo ==> r == lo
    ensures lo <= x && x > hi ==> r == hi
  {
    ConstrainReal(x as real, lo as real, hi as real).Floor
  }

  /** C/C++ integer division, which truncates toward zero (Dafny's `/` is
      Euclidean): the quotient times the divisor is the multiple of `b`
      nearest to `a` on the side of zero. */
  function CDiv(a: int, b: int): (q: int)
    requires b != 0
    ensures b > 0 && a >= 0 ==> q * b <= a < q * b + b
    ensures b > 0 && a < 0 ==> q * b - b < a <= q * b
    ensures b < 0 && a >= 0 ==> q * b <= a < q * b - b
    ensures b < 0 && a < 0 ==> q * b + b < a <= q * b
  {
    var ma := if a < 0 then -a else a;
    var mb := if b < 0 then -b else b;
    var m := ma / mb;
    MagnitudeQuotient(ma, mb);
    if (a < 0) == (b < 0) then
      assert m * b == (if a < 0 then -(m * mb) else m * mb);
      m
    else
      assert -m * b == (if a < 0 then -(m * mb) else m * mb);
      -m
  }

  lemma MagnitudeQuotient(ma: int, mb: int)
    requires ma >= 0 && mb > 0
    ensures (ma / mb) * mb <= ma < (ma / mb) * mb + mb
  {
  }

  /** Arduino `map(x, inMin, inMax, outMin, outMax)`: linear rescaling in
      `long` arithmetic with truncating division. The firmware only calls it
      with a non-degenerate input range. On an increasing range the end
      points map to the end points, and in between the result is the scaled
      offset rounded toward `outMin`. */
  function MapRange(x: int, inMin: int, inMax: int, outMin: int, outMax: int): (r: int)
    requires inMax != inMin
    ensures x == inMin ==> r == outMin
    ensures x == inMax ==> r == outMax
    ensures inMin < inMax && inMin <= x && outMin <= outMax ==>
              (r - outMin) * (inMax - inMin) <= (x - inMin) * (outMax - outMin)
              < (r - outMin + 1) * (inMax - inMin)
  {
    ScaledQuotient(x - inMin, inMax - inMin, outMax - outMin);
    CDiv((x - inMin) * (outMax - outMin), inMax - inMin) + outMin
  }

  /** The quotient `map` takes: zero at the start of the input range, the
      whole output span at its end, and the truncated ratio in between. */
  lemma ScaledQuotient(dx: int, d: int, span: int)
    requires d != 0
    ensures dx == 0 ==> CDiv(dx * span, d) == 0
    ensures dx == d ==> CDiv(dx * span, d) == span
    ensures d > 0 && dx >= 0 && span >= 0 ==>
              var q := CDiv(dx * span, d);
              q * d <= dx * span < (q + 1) * d
  {
    if dx == d {
      SpanQuotient(span, d);
    } else if dx == 0 {
      CDivExact(0, d);
    } else if d > 0 && dx >= 0 && span >= 0 {
      TruncatedQuotient(dx * span, d);
    }
  }

  lemma SpanQuotient(span: int, d: int)
    requires d != 0
    ensures CDiv(d * span, d) == span
  {
    assert d * span == span * d;
    CDivExact(span, d);
  }

  lemma TruncatedQuotient(n: int, d: int)
    requires d > 0 && n >= 0
    ensures CDiv(n, d) * d <= n < (CDiv(n, d) + 1) * d
  {
    var q := CDiv(n, d);
    assert (q + 1) * d == q * d + d;
  }

  lemma MulNonNegative(a: int, b: int)
    requires a >= 0 && b >= 0
    ensures a * b >= 0
  {
  }

  /** The only multiple of a positive `d` in (-d, 0] is zero times `d`. */
  lemma QuotientUnique(x: int, d: int)
    requires d > 0 && x * d <= 0 < x * d + d
    ensures x == 0
  {
    if x >= 1 {
      assert x * d == (x - 1) * d + d;
      MulNonNegative(x - 1, d);
    } else if x <= -1 {
      assert x * d + d == -((-x - 1) * d);
      MulNonNegative(-x - 1, d);
    }
  }

  /** Dividing an exact multiple gives the multiplier. */
  lemma CDivExact(k: int, d: int)
    requires d != 0
    ensures CDiv(k * d, d) == k
  {
    if d > 0 {
      CDivExactPositive(k, d, CDiv(k * d, d));
    } else {
      assert k * d == (-k) * (-d);
      CDivExactNegative(k, -d, CDiv(k * d, d));
    }
  }

  lemma CDivExactPositive(k: int, d: int, q: int)
    requires d > 0 && q == CDiv(k * d, d)
    ensures q == k
  {
    var x := q - k;
    assert x * d == q * d - k * d;
    if k * d >= 0 {
      QuotientUnique(x, d);
    } else {
      assert (-x) * d == -(x * d);
      QuotientUnique(-x, d);
    }
  }

  lemma CDivExactNegative(k: int, e: int, q: int)
    requires e > 0 && q == CDiv(k * -e, -e)
    ensures q == k
  {
    var x := k - q;
    assert q * -e == x * e - k * e;
    assert k * -e == -(k * e);
    if k * -e >= 0 {
      QuotientUnique(x, e);
    } else {
      assert (-x) * e == -(x * e);
      QuotientUnique(-x, e);
    }
  }

  /** Conversion of a float to `int` in C++: truncation toward zero. */
  function TruncToInt(x: real): (r: int)
    ensures x >= 0.0 ==> r as real <= x < r as real + 1.0
    ensures x < 0.0 ==> r as real - 1.0 < x <= r as real
  {
    if x >= 0.0 then x.Floor else -((-x).Floor)
  }

  /** Conversion of an `int` to a 16-bit two's-complement `int16_t`
      (wrap-around modulo 2^16). */
  function ToInt16(x: int): (r: int)
    ensures -0x8000 <= r < 0x8000
    ensures (r - x) % 0x1_0000 == 0
    ensures -0x8000 <= x < 0x8000 ==> r == x
  {
    (x + 0x8000) % 0x1_0000 - 0x8000
  }
}
