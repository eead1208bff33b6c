/** Python 3's built-in `round` on a single argument, taken over exact
    rationals: the nearest integer, ties going to the even neighbour. */
module Rounding {

  function Abs(x: real): real {
    if x < 0.0 then -x else x
  }

  /** round(x): nearest integer, and the even one at an exact tie. */
  function RoundHalfEven(x: real): (r: int)
    ensures Abs(r as real - x) <= 0.5
    ensures Abs(r as real - x) == 0.5 ==> r % 2 == 0
  {
    var f := x.Floor;
    var d := x - f as real;
    if d < 0.5 then f
    else if d > 0.5 then f + 1
    else if f % 2 == 0 then f
    else f + 1
  }

  /** An integer strictly closer than one half to `x` is what `round` returns. */
  lemma RoundNearest(x: real, n: int)
    requires Abs(n as real - x) < 0.5
    ensures RoundHalfEven(x) == n
  {
    var r := RoundHalfEven(x);
    assert Abs(r as real - n as real) < 1.0;
  }

  /** round is monotone: a larger argument never rounds lower. */
  lemma RoundMonotone(x: real, y: real)
    requires x <= y
    ensures RoundHalfEven(x) <= RoundHalfEven(y)
  {
    var fx, fy := x.Floor, y.Floor;
    if fx < fy {
      assert RoundHalfEven(x) <= fx + 1 <= fy <= RoundHalfEven(y);
    }
  }

  /** An argument between two integers rounds to a value between them. */
  lemma RoundBounds(x: real, lo: int, hi: int)
    requires lo as real <= x <= hi as real
    ensures lo <= RoundHalfEven(x) <= hi
  {
  }
}
