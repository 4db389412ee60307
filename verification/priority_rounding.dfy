/** Rounding in the priority baseline (analytics/prioritization/baseline.py, `_round`, `_round_signed`):
    clamp, then round to six decimals, ties to even. Values are real numbers; binary floating point
    is not modelled. */
module PriorityRounding {

  const SCALE := 1000000.0

  /** Nearest integer, ties to the even one. */
  function Nearest(y: real): int {
    var f := y.Floor;
    var rest := y - f as real;
    if rest < 0.5 then f else if rest > 0.5 then f + 1 else if f % 2 == 0 then f else f + 1
  }

  function Decimals(x: real): real { Nearest(x * SCALE) as real / SCALE }

  function Clamp(x: real, low: real, high: real): real {
    if x < low then low else if x > high then high else x
  }

  function Round(x: real): real { Decimals(Clamp(x, 0.0, 100.0)) }

  function RoundSigned(x: real): real { Decimals(Clamp(x, -100.0, 100.0)) }

  lemma NearestMonotone(x: real, y: real)
    requires x <= y
    ensures Nearest(x) <= Nearest(y)
  {
    assert x.Floor <= y.Floor;
  }

  lemma NearestOfInteger(n: int)
    ensures Nearest(n as real) == n
  {
  }

  lemma NearestIsClose(y: real)
    ensures -0.5 <= Nearest(y) as real - y <= 0.5
  {
  }

  lemma DecimalsMonotone(x: real, y: real)
    requires x <= y
    ensures Decimals(x) <= Decimals(y)
  {
    NearestMonotone(x * SCALE, y * SCALE);
  }

  lemma DecimalsOfDecimals(x: real)
    ensures Decimals(Decimals(x)) == Decimals(x)
  {
    hide Nearest;
    assert Decimals(x) * SCALE == Nearest(x * SCALE) as real;
    NearestOfInteger(Nearest(x * SCALE));
  }

  /** Rounded values lie within the bounds, never reorder, move by at most half a unit in the
      sixth place from the clamped value, and are not changed by rounding again. */
  lemma RoundIsSound(x: real, y: real)
    requires x <= y
    ensures 0.0 <= Round(x) <= Round(y) <= 100.0
    ensures -0.0000005 <= Round(x) - Clamp(x, 0.0, 100.0) <= 0.0000005
    ensures Round(Round(x)) == Round(x)
  {
    hide Nearest;
    NearestOfInteger(0);
    NearestOfInteger(100000000);
    assert Decimals(0.0) == 0.0 && Decimals(100.0) == 100.0;
    DecimalsMonotone(0.0, Clamp(x, 0.0, 100.0));
    DecimalsMonotone(Clamp(x, 0.0, 100.0), Clamp(y, 0.0, 100.0));
    DecimalsMonotone(Clamp(y, 0.0, 100.0), 100.0);
    NearestIsClose(Clamp(x, 0.0, 100.0) * SCALE);
    DecimalsOfDecimals(Clamp(x, 0.0, 100.0));
  }

  /** The signed rounding never changes the sign, and is symmetric around zero. */
  lemma RoundSignedIsSound(x: real)
    ensures -100.0 <= RoundSigned(x) <= 100.0
    ensures x <= 0.0 ==> RoundSigned(x) <= 0.0
    ensures x >= 0.0 ==> RoundSigned(x) >= 0.0
    ensures RoundSigned(-x) == -RoundSigned(x)
  {
    NearestOfInteger(0);
    NearestOfInteger(100000000);
    NearestOfInteger(-100000000);
    assert Decimals(0.0) == 0.0 && Decimals(100.0) == 100.0 && Decimals(-100.0) == -100.0;
    var c := Clamp(x, -100.0, 100.0);
    NearestOfNegative(c * SCALE);
    hide Nearest;
    DecimalsMonotone(-100.0, c);
    DecimalsMonotone(c, 100.0);
    if x <= 0.0 { DecimalsMonotone(c, 0.0); }
    if x >= 0.0 { DecimalsMonotone(0.0, c); }
    assert Clamp(-x, -100.0, 100.0) * SCALE == -(c * SCALE);
  }

  lemma NearestOfNegative(y: real)
    ensures Nearest(-y) == -Nearest(y)
  {
    var f, g := y.Floor, (-y).Floor;
    if y == f as real {
      NearestOfInteger(f);
      NearestOfInteger(-f);
      assert -y == (-f) as real;
    } else {
      assert g == -f - 1;
    }
  }

  /** Six decimals, the nearest ones; half way between two, the one with the even last digit. */
  lemma RoundExactly(x: real, n: int)
    requires 0.0 <= x <= 100.0
    ensures Round(x) * 1000000.0 == n as real <==>
      (-0.5 < x * 1000000.0 - n as real < 0.5
       || (n % 2 == 0 && (x * 1000000.0 - n as real == 0.5 || x * 1000000.0 - n as real == -0.5)))
  {
    assert Round(x) * 1000000.0 == Nearest(x * 1000000.0) as real;
    NearestExactly(x * 1000000.0, n);
    hide Nearest, Round;
  }

  lemma NearestExactly(y: real, n: int)
    ensures Nearest(y) == n <==>
      (-0.5 < y - n as real < 0.5 || (n % 2 == 0 && (y - n as real == 0.5 || y - n as real == -0.5)))
  {
    assert y.Floor as real <= y < y.Floor as real + 1.0;
  }
}
