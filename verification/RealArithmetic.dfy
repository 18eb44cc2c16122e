/** Real-number helpers shared by the models; products are named so that proofs can treat them as units. */
module RealArithmetic {
  function Abs(a: real): real {
    if a < 0.0 then -a else a
  }

  function Min(a: real, b: real): real {
    if b < a then b else a
  }

  function Max(a: real, b: real): real {
    if a < b then b else a
  }

  function Product(a: real, b: real): real {
    a * b
  }

  function Ratio(a: real, d: real): real
    requires d != 0.0
  {
    a / d
  }

  lemma RatioBack(a: real, d: real)
    requires d != 0.0
    ensures Product(Ratio(a, d), d) == a
    ensures Ratio(Product(a, d), d) == a
  {
  }

  lemma RatioOfZero(d: real)
    requires d != 0.0
    ensures Ratio(0.0, d) == 0.0
  {
  }

  lemma RatioOfSelf(d: real)
    requires d != 0.0
    ensures Ratio(d, d) == 1.0
  {
  }

  lemma RatioSum(a: real, b: real, d: real)
    requires d != 0.0
    ensures Ratio(a, d) + Ratio(b, d) == Ratio(a + b, d)
    ensures Ratio(a, d) - Ratio(b, d) == Ratio(a - b, d)
  {
    RatioBack(a, d);
    RatioBack(b, d);
    Distribute(Ratio(a, d), Ratio(b, d), d);
    RatioBack(Ratio(a, d) + Ratio(b, d), d);
    RatioBack(Ratio(a, d) - Ratio(b, d), d);
  }

  lemma Distribute(a: real, b: real, f: real)
    ensures Product(a + b, f) == Product(a, f) + Product(b, f)
    ensures Product(a - b, f) == Product(a, f) - Product(b, f)
    ensures Product(-a, f) == -Product(a, f)
  {
  }

  lemma ProductCommutes(a: real, b: real)
    ensures Product(a, b) == Product(b, a)
  {
  }

  lemma ProductAssociates(a: real, b: real, c: real)
    ensures Product(Product(a, b), c) == Product(a, Product(b, c))
  {
  }

  lemma SignOfProduct(u: real, v: real)
    ensures u > 0.0 && v > 0.0 ==> Product(u, v) > 0.0
    ensures u < 0.0 && v > 0.0 ==> Product(u, v) < 0.0
    ensures u > 0.0 && v < 0.0 ==> Product(u, v) < 0.0
    ensures u < 0.0 && v < 0.0 ==> Product(u, v) > 0.0
    ensures u == 0.0 || v == 0.0 ==> Product(u, v) == 0.0
  {
  }

  lemma SquareOrder(a: real, b: real)
    requires a >= 0.0 && b >= 0.0
    ensures Product(a, a) < Product(b, b) <==> a < b
  {
    assert Product(b, b) - Product(a, a) == Product(b - a, b + a);
    SignOfProduct(b - a, b + a);
    if a >= b && b + a == 0.0 {
      assert a == 0.0 && b == 0.0;
    }
  }

  lemma AbsProduct(a: real, b: real)
    ensures Abs(Product(a, b)) == Product(Abs(a), Abs(b))
  {
    if a < 0.0 && b < 0.0 {
      assert (-a) * (-b) == a * b;
      assert (-a) * (-b) >= 0.0;
    } else if a < 0.0 {
      assert (-a) * b >= 0.0;
    } else if b < 0.0 {
      assert a * (-b) >= 0.0;
    } else {
      assert a * b >= 0.0;
    }
  }

  lemma Monotone(a: real, b: real, f: real)
    requires f > 0.0
    ensures Product(a, f) <= Product(b, f) <==> a <= b
  {
    if a > b {
      assert (a - b) * f > 0.0;
    } else {
      assert (b - a) * f >= 0.0;
    }
  }

  lemma RatioMonotone(a: real, b: real, d: real)
    requires d > 0.0
    ensures Ratio(a, d) <= Ratio(b, d) <==> a <= b
  {
    RatioBack(a, d);
    RatioBack(b, d);
    Monotone(Ratio(a, d), Ratio(b, d), d);
  }

  lemma AbsRatio(a: real, d: real)
    requires d != 0.0
    ensures Abs(Ratio(a, d)) == Ratio(Abs(a), Abs(d))
  {
    RatioBack(a, d);
    AbsProduct(Ratio(a, d), d);
    RatioBack(Abs(Ratio(a, d)), Abs(d));
  }
}
