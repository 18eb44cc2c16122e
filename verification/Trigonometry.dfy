/** Cosine and sine as any pair of functions that obey the angle laws. */
module Trigonometry {
  datatype Trig = Trig(cos: real -> real, sin: real -> real) {
    ghost predicate UnitCircle(a: real) {
      cos(a) * cos(a) + sin(a) * sin(a) == 1.0
    }

    ghost predicate Sum(a: real, b: real) {
      && cos(a + b) == cos(a) * cos(b) - sin(a) * sin(b)
      && sin(a + b) == sin(a) * cos(b) + cos(a) * sin(b)
    }

    ghost predicate Lawful() {
      && cos(0.0) == 1.0 && sin(0.0) == 0.0
      && (forall a :: UnitCircle(a))
      && (forall a, b :: Sum(a, b))
    }
  }

  /** (x, y) turned by the rotation (c, s). */
  function TurnX(c: real, s: real, x: real, y: real): real {
    x * c - y * s
  }

  function TurnY(c: real, s: real, x: real, y: real): real {
    x * s + y * c
  }

  lemma TurnBack(c: real, s: real, x: real, y: real)
    requires c * c + s * s == 1.0
    ensures TurnX(c, s, TurnX(c, -s, x, y), TurnY(c, -s, x, y)) == x
    ensures TurnY(c, s, TurnX(c, -s, x, y), TurnY(c, -s, x, y)) == y
  {
    assert TurnX(c, s, TurnX(c, -s, x, y), TurnY(c, -s, x, y)) == x * (c * c + s * s);
    assert TurnY(c, s, TurnX(c, -s, x, y), TurnY(c, -s, x, y)) == y * (c * c + s * s);
  }

  lemma TurnKeepsLength(c: real, s: real, x: real, y: real)
    requires c * c + s * s == 1.0
    ensures TurnX(c, s, x, y) * TurnX(c, s, x, y) + TurnY(c, s, x, y) * TurnY(c, s, x, y) == x * x + y * y
  {
    assert TurnX(c, s, x, y) * TurnX(c, s, x, y) + TurnY(c, s, x, y) * TurnY(c, s, x, y)
        == (x * x + y * y) * (c * c + s * s);
  }

  lemma TurnTwice(c: real, s: real, d: real, r: real, x: real, y: real)
    ensures TurnX(d, r, TurnX(c, s, x, y), TurnY(c, s, x, y)) == TurnX(c * d - s * r, s * d + c * r, x, y)
    ensures TurnY(d, r, TurnX(c, s, x, y), TurnY(c, s, x, y)) == TurnY(c * d - s * r, s * d + c * r, x, y)
  {
  }

  lemma TurnDifference(c: real, s: real, x: real, y: real, u: real, v: real)
    ensures TurnX(c, s, x, y) - TurnX(c, s, u, v) == TurnX(c, s, x - u, y - v)
    ensures TurnY(c, s, x, y) - TurnY(c, s, u, v) == TurnY(c, s, x - u, y - v)
  {
  }
}
