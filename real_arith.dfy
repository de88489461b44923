/** Small facts of real arithmetic that the solver does not find unaided. */
module RealArith {

  lemma PositiveProduct(a: real, b: real)
    requires 0.0 < a && 0.0 < b
    ensures 0.0 < a * b
  {
  }

  lemma ScaleWithin(r: real, w: real)
    requires 0.0 <= r <= 1.0 && 0.0 <= w
    ensures 0.0 <= r * w <= w
  {
    assert 0.0 <= (1.0 - r) * w;
  }

  lemma RatioInUnit(a: real, b: real)
    requires 0.0 <= a <= b && 0.0 < b
    ensures 0.0 <= a / b <= 1.0
  {
    assert (a / b) * b == a;
  }

  lemma RatioOfNegatives(a: real, b: real)
    requires b < a <= 0.0
    ensures 0.0 <= a / b < 1.0
  {
    assert a / b == (-a) / (-b);
    RatioInUnit(-a, -b);
    DivideMonotone(-a, -b, -b);
    assert (-b) / (-b) == 1.0;
  }

  lemma MulDiv(a: real, b: real, v: real)
    requires v != 0.0
    ensures (a / v) * b == (a * b) / v
  {
  }

  lemma SquareDiv(v: real)
    requires v != 0.0
    ensures (v * v) / v == v
  {
  }

  lemma AddDiv(a: real, b: real, v: real)
    requires v != 0.0
    ensures a / v + b / v == (a + b) / v
  {
  }

  lemma DivideMonotone(a: real, b: real, d: real)
    requires a < b && 0.0 < d
    ensures a / d < b / d
  {
  }

  lemma SquareNonNegative(x: real)
    ensures 0.0 <= x * x
  {
    if x < 0.0 {
      assert x * x == (-x) * (-x);
    }
  }

  lemma SquareZero(x: real)
    ensures x * x == 0.0 ==> x == 0.0
  {
    if x != 0.0 {
      SquareDiv(x);
    }
  }
}
