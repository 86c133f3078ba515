/** Exact complex numbers over `real`, standing in for std::complex<double>.
    Only the algebra the solvers need is defined here; floating-point rounding
    is not modelled. */
module Complex {

  datatype Complex = Complex(re: real, im: real)

  const Zero: Complex := Complex(0.0, 0.0)
  const One: Complex := Complex(1.0, 0.0)
  /** The imaginary unit `I(0.0, 1.0)` of the solver. */
  const I: Complex := Complex(0.0, 1.0)

  function Add(x: Complex, y: Complex): Complex {
    Complex(x.re + y.re, x.im + y.im)
  }

  function Sub(x: Complex, y: Complex): Complex {
    Complex(x.re - y.re, x.im - y.im)
  }

  function Neg(x: Complex): Complex {
    Complex(-x.re, -x.im)
  }

  function Mul(x: Complex, y: Complex): Complex {
    Complex(x.re * y.re - x.im * y.im, x.re * y.im + x.im * y.re)
  }

  /** A complex value times a double (`z * r`, `r * z`). */
  function Scale(x: Complex, r: real): Complex {
    Complex(x.re * r, x.im * r)
  }

  /** A complex value divided by a non-zero double (`z / r`). */
  function DivReal(x: Complex, r: real): Complex
    requires r != 0.0
  {
    Complex(x.re / r, x.im / r)
  }

  function Square(u: real): real {
    u * u
  }

  /** std::norm: the squared magnitude. */
  function Norm(z: Complex): real {
    Square(z.re) + Square(z.im)
  }

  // The solver does not relate two textual copies of `u * u` reliably, so the
  // sign facts about squares go through this product of two named factors.
  function Times(a: real, b: real): real {
    a * b
  }

  lemma TimesPositive(a: real, b: real)
    requires a > 0.0 && b > 0.0
    ensures Times(a, b) > 0.0
  {}

  lemma TimesNegNeg(a: real, b: real)
    ensures Times(-a, -b) == Times(a, b)
  {}

  lemma SquarePositive(u: real)
    requires u != 0.0
    ensures Square(u) > 0.0
  {
    if u > 0.0 {
      TimesPositive(u, u);
    } else {
      TimesPositive(-u, -u);
      TimesNegNeg(u, u);
    }
  }

  lemma SquareNonneg(u: real)
    ensures Square(u) >= 0.0
  {
    if u != 0.0 {
      SquarePositive(u);
    }
  }

  lemma NormNonneg(z: Complex)
    ensures Norm(z) >= 0.0
  {
    SquareNonneg(z.re);
    SquareNonneg(z.im);
  }

  /** Only Zero has norm zero. */
  lemma NormPositive(z: Complex)
    requires z != Zero
    ensures Norm(z) > 0.0
  {
    SquareNonneg(z.re);
    SquareNonneg(z.im);
    if z.re != 0.0 {
      SquarePositive(z.re);
    } else {
      SquarePositive(z.im);
    }
  }

  /** The reciprocal of a non-zero value. */
  function Inv(y: Complex): Complex
    requires y != Zero
  {
    NormPositive(y);
    var n := Norm(y);
    Complex(y.re / n, -y.im / n)
  }

  /** Complex division. IEEE division by zero yields Inf/NaN; this model
      yields Zero instead, and every theorem that divides assumes a non-zero
      divisor. */
  function Div(x: Complex, y: Complex): Complex {
    if y == Zero then Zero else Mul(x, Inv(y))
  }

  lemma AddComm(x: Complex, y: Complex)
    ensures Add(x, y) == Add(y, x)
  {}

  lemma MulComm(x: Complex, y: Complex)
    ensures Mul(x, y) == Mul(y, x)
  {}

  /** The real part of both groupings, written out over the six components. */
  lemma ProductRe(a: real, b: real, c: real, d: real, e: real, f: real)
    ensures (a * c - b * d) * e - (a * d + b * c) * f == a * (c * e - d * f) - b * (c * f + d * e)
  {}

  /** The imaginary part of both groupings. */
  lemma ProductIm(a: real, b: real, c: real, d: real, e: real, f: real)
    ensures (a * c - b * d) * f + (a * d + b * c) * e == a * (c * f + d * e) + b * (c * e - d * f)
  {}

  lemma MulAssoc(x: Complex, y: Complex, z: Complex)
    ensures Mul(Mul(x, y), z) == Mul(x, Mul(y, z))
  {
    ProductRe(x.re, x.im, y.re, y.im, z.re, z.im);
    ProductIm(x.re, x.im, y.re, y.im, z.re, z.im);
  }

  lemma MulDistribSub(x: Complex, y: Complex, z: Complex)
    ensures Mul(x, Sub(y, z)) == Sub(Mul(x, y), Mul(x, z))
  {}

  lemma MulDistribAdd(x: Complex, y: Complex, z: Complex)
    ensures Mul(x, Add(y, z)) == Add(Mul(x, y), Mul(x, z))
  {}

  lemma MulNeg(x: Complex, y: Complex)
    ensures Mul(Neg(x), y) == Neg(Mul(x, y))
  {}

  /** (1 + t) x == x + t x. */
  lemma MulOnePlus(t: Complex, x: Complex)
    ensures Mul(Add(One, t), x) == Add(x, Mul(t, x))
  {}

  lemma MulInv(y: Complex)
    requires y != Zero
    ensures Mul(Inv(y), y) == One
  {
    var n := Norm(y);
    NormPositive(y);
    calc {
      y.re / n * y.re - (-y.im / n) * y.im;
      (Square(y.re) + Square(y.im)) / n;
      1.0;
    }
    calc {
      y.re / n * y.im + (-y.im / n) * y.re;
      (y.re * y.im - y.im * y.re) / n;
      0.0;
    }
  }

  /** Dividing by a non-zero value and multiplying back gives the dividend. */
  lemma DivMulCancel(x: Complex, y: Complex)
    requires y != Zero
    ensures Mul(Div(x, y), y) == x
  {
    MulInv(y);
    MulAssoc(x, Inv(y), y);
  }

  lemma NormMulParts(a: real, b: real, c: real, d: real, p: real, q: real)
    requires p == a * c - b * d && q == a * d + b * c
    ensures Square(p) + Square(q) == (Square(a) + Square(b)) * (Square(c) + Square(d))
  {}

  /** The norm is multiplicative. */
  lemma NormMul(x: Complex, y: Complex)
    ensures Norm(Mul(x, y)) == Norm(x) * Norm(y)
  {
    var z := Mul(x, y);
    NormMulParts(x.re, x.im, y.re, y.im, z.re, z.im);
  }

  /** The sum of the norms of a buffer, accumulated from the front. */
  function NormSum(s: seq<Complex>): real {
    if |s| == 0 then 0.0 else NormSum(s[..|s| - 1]) + Norm(s[|s| - 1])
  }

  lemma {:induction false} NormSumNonneg(s: seq<Complex>)
    ensures NormSum(s) >= 0.0
  {
    if |s| > 0 {
      NormSumNonneg(s[..|s| - 1]);
      NormNonneg(s[|s| - 1]);
    }
  }

  /** Cell by cell smaller norms give a smaller sum, and equal norms an
      equal one. */
  lemma {:induction false} NormSumMonotone(a: seq<Complex>, b: seq<Complex>)
    requires |a| == |b|
    requires forall k :: 0 <= k < |a| ==> Norm(a[k]) <= Norm(b[k])
    ensures NormSum(a) <= NormSum(b)
    ensures (forall k :: 0 <= k < |a| ==> Norm(a[k]) == Norm(b[k])) ==> NormSum(a) == NormSum(b)
  {
    if |a| > 0 {
      NormSumMonotone(a[..|a| - 1], b[..|b| - 1]);
    }
  }
}
