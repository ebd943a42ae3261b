/** Costs are exact reals; round(x, 8) rounds half to even at the eighth decimal. */
module Money {
  import opened Prelude

  const SCALE := 100000000.0
  const UNIT := 0.00000001

  /** k hundred-millionths. */
  function Units(k: int): real {
    k as real / SCALE
  }

  function RoundHalfEven(x: real): int {
    var low := x.Floor;
    var rest := x - low as real;
    if rest < 0.5 then low
    else if rest > 0.5 then low + 1
    else if low % 2 == 0 then low
    else low + 1
  }

  function Round8(x: real): real {
    Units(RoundHalfEven(x * SCALE))
  }

  /** Rounding moves an amount by at most half a unit, and never below zero. */
  lemma Round8Close(x: real)
    ensures AbsReal(Round8(x) - x) <= 0.5 * UNIT
    ensures x >= 0.0 ==> Round8(x) >= 0.0
  {
    var y := x * SCALE;
    var k := RoundHalfEven(y);
    assert y.Floor as real <= y < y.Floor as real + 1.0;
    assert -0.5 <= k as real - y <= 0.5;
    if x >= 0.0 {
      assert y.Floor >= 0;
    }
  }

  lemma Round8Units(k: int)
    ensures Round8(Units(k)) == Units(k)
  {
    assert Units(k) * SCALE == k as real;
    assert (k as real).Floor == k;
  }

  /** Whole multiples of a unit, and only those, are left alone by rounding. */
  lemma Round8Fixed(x: real)
    ensures Round8(x) == x <==> exists k :: x == Units(k)
    ensures Round8(Round8(x)) == Round8(x)
  {
    Round8Units(RoundHalfEven(x * SCALE));
    if k :| x == Units(k) {
      Round8Units(k);
    }
  }

  /** The nearest whole number of units, a tie going to the even one. */
  lemma Round8Nearest(x: real) returns (k: int)
    ensures Round8(x) == k as real / 100000000.0
    ensures -0.5 <= k as real - x * 100000000.0 <= 0.5
    ensures k as real - x * 100000000.0 in {-0.5, 0.5} ==> k % 2 == 0
  {
    var y := x * SCALE;
    k := RoundHalfEven(y);
    assert y.Floor as real <= y < y.Floor as real + 1.0;
  }
}
