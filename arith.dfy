/** Facts about products of reals. The solver reasons poorly about
    several products of real variables at once, so proofs state such steps
    over `Mul`, whose only role is to name a product. */
module RealArith {

  function Mul(a: real, b: real): real { a * b }

  lemma MulComm(a: real, b: real)
    ensures Mul(a, b) == Mul(b, a)
  {
  }

  lemma MulAssoc(a: real, b: real, c: real)
    ensures Mul(Mul(a, b), c) == Mul(a, Mul(b, c))
  {
  }

  lemma MulDistrib(a: real, b: real, c: real)
    ensures Mul(a, c) + Mul(b, c) == Mul(a + b, c)
  {
  }

  /** The square of a product is the product of the squares. */
  lemma SquareOfProduct(a: real, u: real)
    ensures Mul(Mul(a, u), Mul(a, u)) == Mul(Mul(a, a), Mul(u, u))
  {
    MulAssoc(a, u, Mul(a, u));
    MulAssoc(u, a, u);
    MulComm(u, a);
    MulAssoc(a, u, u);
    MulAssoc(a, a, Mul(u, u));
  }

  lemma MulSwap(a: real, b: real, u: real)
    ensures Mul(Mul(a, u), b) == Mul(Mul(b, u), a)
  {
    MulAssoc(a, u, b);
    MulComm(u, b);
    MulAssoc(b, u, a);
    MulComm(a, Mul(u, b));
    MulComm(b, Mul(u, a));
    MulAssoc(u, b, a);
    MulAssoc(u, a, b);
    MulComm(a, b);
  }

  lemma MulRight(a: real, u: real, b: real)
    ensures Mul(Mul(a, u), b) == Mul(Mul(a, b), u)
  {
    MulAssoc(a, u, b);
    MulComm(u, b);
    MulAssoc(a, b, u);
  }

  /** A non-negative quotient by a positive divisor, times that divisor. */
  lemma DivCancel(m: real, d: real)
    requires m >= 0.0 && d > 0.0
    ensures m / d >= 0.0 && Mul(m / d, d) == m
  {
  }

  /** A quotient by a positive divisor is 1 exactly for equal operands. */
  lemma DivOne(m: real, d: real)
    requires d > 0.0
    ensures m / d == 1.0 <==> m == d
  {
  }

  /** Dividing by `d` and multiplying by `m` is multiplying by `m / d`. */
  lemma DivMul(a: real, d: real, m: real)
    requires d != 0.0
    ensures (a / d) * m == Mul(a, m / d)
  {
  }

  lemma MulLe(a: real, b: real, c: real)
    requires a <= b && c >= 0.0
    ensures Mul(a, c) <= Mul(b, c)
  {
    assert Mul(b, c) - Mul(a, c) == (b - a) * c;
  }

  lemma MulStrict(a: real, b: real, c: real)
    requires a < b && c > 0.0
    ensures Mul(a, c) < Mul(b, c)
  {
    assert Mul(b, c) - Mul(a, c) == (b - a) * c;
  }

  /** A square is never negative, and is zero only for zero. */
  lemma Square(a: real)
    ensures Mul(a, a) >= 0.0
    ensures Mul(a, a) == 0.0 <==> a == 0.0
  {
    if a > 0.0 {
      MulStrict(0.0, a, a);
    } else if a < 0.0 {
      assert Mul(a, a) == Mul(-a, -a);
      MulStrict(0.0, -a, -a);
    }
  }
}
