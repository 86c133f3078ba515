/** The Thomas algorithm for one complex tridiagonal system, solved in place.
    Row i of the system reads a[i] x[i-1] + b[i] x[i] + c[i] x[i+1] = d[i];
    a[0] and c[n-1] lie outside the matrix. */
module Tridiag {
  import opened Complex

  /** Four coefficient vectors of one common, non-zero length. */
  predicate Shaped(a: seq<Complex>, b: seq<Complex>, c: seq<Complex>, d: seq<Complex>) {
    |b| >= 1 && |a| == |b| && |c| == |b| && |d| == |b|
  }

  /** The diagonal entry b[i] after the forward sweep: each row subtracts
      (a[i] / pivot[i-1]) times the super-diagonal of the row above. */
  function Pivot(a: seq<Complex>, b: seq<Complex>, c: seq<Complex>, i: nat): Complex
    requires i < |b| && |a| == |b| && |c| == |b|
  {
    if i == 0 then b[0]
    else Sub(b[i], Mul(Div(a[i], Pivot(a, b, c, i - 1)), c[i - 1]))
  }

  /** The right-hand side d[i] after the forward sweep. */
  function Reduced(a: seq<Complex>, b: seq<Complex>, c: seq<Complex>, d: seq<Complex>, i: nat): Complex
    requires Shaped(a, b, c, d) && i < |b|
  {
    if i == 0 then d[0]
    else Sub(d[i], Mul(Div(a[i], Pivot(a, b, c, i - 1)), Reduced(a, b, c, d, i - 1)))
  }

  /** The whole diagonal left behind by the forward sweep. */
  function Pivots(a: seq<Complex>, b: seq<Complex>, c: seq<Complex>): (p: seq<Complex>)
    requires |b| >= 1 && |a| == |b| && |c| == |b|
    ensures |p| == |b| && p[0] == b[0]
  {
    seq(|b|, i requires 0 <= i < |b| => Pivot(a, b, c, i))
  }

  /** The whole right-hand side left behind by the forward sweep. */
  function ReducedAll(a: seq<Complex>, b: seq<Complex>, c: seq<Complex>, d: seq<Complex>): (r: seq<Complex>)
    requires Shaped(a, b, c, d)
    ensures |r| == |b| && r[0] == d[0]
  {
    seq(|b|, i requires 0 <= i < |b| => Reduced(a, b, c, d, i))
  }

  /** The unknown x[i] computed by back substitution from the eliminated
      diagonal p and right-hand side r. */
  function Back(p: seq<Complex>, r: seq<Complex>, c: seq<Complex>, i: nat): Complex
    requires |r| == |p| && |c| == |p| && i < |p|
    decreases |p| - i
  {
    if i == |p| - 1 then Div(r[i], p[i])
    else Div(Sub(r[i], Mul(c[i], Back(p, r, c, i + 1))), p[i])
  }

  /** The whole vector of unknowns computed by back substitution. */
  function BackAll(p: seq<Complex>, r: seq<Complex>, c: seq<Complex>): (x: seq<Complex>)
    requires |r| == |p| && |c| == |p|
    ensures |x| == |p|
  {
    seq(|p|, i requires 0 <= i < |p| => Back(p, r, c, i))
  }

  /** The vector the solver leaves in d. */
  function Solution(a: seq<Complex>, b: seq<Complex>, c: seq<Complex>, d: seq<Complex>): (x: seq<Complex>)
    requires Shaped(a, b, c, d)
    ensures |x| == |b|
  {
    BackAll(Pivots(a, b, c), ReducedAll(a, b, c, d), c)
  }

  /** Row i of the tridiagonal matrix applied to x (the reference meaning of
      the coefficients: no a-term in the first row, no c-term in the last). */
  function RowTimes(a: seq<Complex>, b: seq<Complex>, c: seq<Complex>, x: seq<Complex>, i: nat): Complex
    requires |a| == |b| && |c| == |b| && |x| == |b| && i < |b|
  {
    var left := if i > 0 then Mul(a[i], x[i - 1]) else Zero;
    var right := if i < |b| - 1 then Mul(c[i], x[i + 1]) else Zero;
    Add(Add(left, Mul(b[i], x[i])), right)
  }

  /** Every pivot of the elimination is non-zero. */
  predicate NonSingular(a: seq<Complex>, b: seq<Complex>, c: seq<Complex>)
    requires |b| >= 1 && |a| == |b| && |c| == |b|
  {
    forall i :: 0 <= i < |b| ==> Pivot(a, b, c, i) != Zero
  }

  /** solve_tridiagonal: forward elimination, then back substitution, in
      place. Only b and d are written; a and c are read-only. */
  method SolveTridiagonal(a: array<Complex>, b: array<Complex>, c: array<Complex>, d: array<Complex>)
    requires b.Length >= 1 && a.Length == b.Length && c.Length == b.Length && d.Length == b.Length
    requires b != d && a != b && a != d && c != b && c != d
    modifies b, d
    ensures b[..] == Pivots(old(a[..]), old(b[..]), old(c[..]))
    ensures d[..] == Solution(old(a[..]), old(b[..]), old(c[..]), old(d[..]))
  {
    ForwardSweep(a, b, c, d);
    BackSubstitute(b, c, d);
  }

  /** The forward loop of solve_tridiagonal. */
  method ForwardSweep(a: array<Complex>, b: array<Complex>, c: array<Complex>, d: array<Complex>)
    requires b.Length >= 1 && a.Length == b.Length && c.Length == b.Length && d.Length == b.Length
    requires b != d && a != b && a != d && c != b && c != d
    modifies b, d
    ensures b[..] == Pivots(a[..], old(b[..]), c[..])
    ensures d[..] == ReducedAll(a[..], old(b[..]), c[..], old(d[..]))
  {
    ghost var A, B, C, D := a[..], b[..], c[..], d[..];
    ghost var P, R := Pivots(A, B, C), ReducedAll(A, B, C, D);
    var n := b.Length;
    var i := 1;
    while i < n
      invariant 1 <= i <= n
      invariant forall k :: 0 <= k < i ==> b[k] == P[k] && d[k] == R[k]
      invariant forall k :: i <= k < n ==> b[k] == B[k] && d[k] == D[k]
    {
      var w := Div(a[i], b[i - 1]);
      var p, r := Sub(b[i], Mul(w, c[i - 1])), Sub(d[i], Mul(w, d[i - 1]));
      assert p == P[i] && r == R[i] by { ForwardStep(A, B, C, D, i); }
      b[i], d[i] := p, r;
      i := i + 1;
    }
  }

  /** The backward loop of solve_tridiagonal, run on the eliminated
      diagonal b and right-hand side d. */
  method BackSubstitute(b: array<Complex>, c: array<Complex>, d: array<Complex>)
    requires b.Length >= 1 && c.Length == b.Length && d.Length == b.Length
    requires b != d && c != d
    modifies d
    ensures d[..] == BackAll(b[..], old(d[..]), c[..])
  {
    ghost var P, R, C := b[..], d[..], c[..];
    ghost var X := BackAll(P, R, C);
    var n := b.Length;
    d[n - 1] := Div(d[n - 1], b[n - 1]);
    var j := n - 2;
    while j >= 0
      invariant -1 <= j <= n - 2
      invariant forall k :: 0 <= k <= j ==> d[k] == R[k]
      invariant forall k :: j < k < n ==> d[k] == X[k]
    {
      d[j] := Div(Sub(d[j], Mul(c[j], d[j + 1])), b[j]);
      j := j - 1;
    }
  }

  /** One step of the forward sweep, read off the whole-vector functions. */
  lemma ForwardStep(a: seq<Complex>, b: seq<Complex>, c: seq<Complex>, d: seq<Complex>, i: nat)
    requires Shaped(a, b, c, d) && 0 < i < |b|
    ensures var w := Div(a[i], Pivots(a, b, c)[i - 1]);
            Pivots(a, b, c)[i] == Sub(b[i], Mul(w, c[i - 1])) &&
            ReducedAll(a, b, c, d)[i] == Sub(d[i], Mul(w, ReducedAll(a, b, c, d)[i - 1]))
  {}

  /** Back substitution makes row i of the eliminated system hold. */
  lemma BackRow(a: seq<Complex>, b: seq<Complex>, c: seq<Complex>, d: seq<Complex>, i: nat)
    requires Shaped(a, b, c, d) && i < |b| && NonSingular(a, b, c)
    ensures var x := Solution(a, b, c, d);
            var right := if i < |b| - 1 then Mul(c[i], x[i + 1]) else Zero;
            Add(Mul(Pivot(a, b, c, i), x[i]), right) == Reduced(a, b, c, d, i)
  {
    var x := Solution(a, b, c, d);
    var p := Pivot(a, b, c, i);
    var q := if i < |b| - 1 then Sub(Reduced(a, b, c, d, i), Mul(c[i], x[i + 1]))
             else Reduced(a, b, c, d, i);
    assert x[i] == Div(q, p);
    DivMulCancel(q, p);
    MulComm(Div(q, p), p);
  }

  /** If no pivot vanishes, the solver's output solves the original system. */
  lemma SolutionSolves(a: seq<Complex>, b: seq<Complex>, c: seq<Complex>, d: seq<Complex>, i: nat)
    requires Shaped(a, b, c, d) && i < |b| && NonSingular(a, b, c)
    ensures RowTimes(a, b, c, Solution(a, b, c, d), i) == d[i]
  {
    var x := Solution(a, b, c, d);
    var n := |b|;
    var right := if i < n - 1 then Mul(c[i], x[i + 1]) else Zero;
    BackRow(a, b, c, d, i);
    if i > 0 {
      var p := Pivot(a, b, c, i - 1);
      var w := Div(a[i], p);
      BackRow(a, b, c, d, i - 1);
      // Reduced row i-1:  p x[i-1] + c[i-1] x[i] == Reduced(i-1)
      // Reduced row i:    (b[i] - w c[i-1]) x[i] + right == Reduced(i)
      // Reduced(i) == d[i] - w Reduced(i-1)
      var bx := Mul(b[i], x[i]);
      var wcx := Mul(w, Mul(c[i - 1], x[i]));
      var ax := Mul(a[i], x[i - 1]);
      calc {
        Mul(Pivot(a, b, c, i), x[i]);
        Mul(Sub(b[i], Mul(w, c[i - 1])), x[i]);
        { MulComm(Sub(b[i], Mul(w, c[i - 1])), x[i]);
          MulDistribSub(x[i], b[i], Mul(w, c[i - 1]));
          MulComm(x[i], b[i]);
          MulComm(x[i], Mul(w, c[i - 1]));
          MulAssoc(w, c[i - 1], x[i]); }
        Sub(bx, wcx);
      }
      calc {
        Mul(w, Reduced(a, b, c, d, i - 1));
        Mul(w, Add(Mul(p, x[i - 1]), Mul(c[i - 1], x[i])));
        { MulDistribAdd(w, Mul(p, x[i - 1]), Mul(c[i - 1], x[i])); }
        Add(Mul(w, Mul(p, x[i - 1])), wcx);
        { MulAssoc(w, p, x[i - 1]); DivMulCancel(a[i], p); }
        Add(ax, wcx);
      }
    } else {
      assert Pivot(a, b, c, 0) == b[0];
    }
  }

  /** The solver's output satisfies every row of the original system. */
  lemma SolutionSolvesAll(a: seq<Complex>, b: seq<Complex>, c: seq<Complex>, d: seq<Complex>)
    requires Shaped(a, b, c, d) && NonSingular(a, b, c)
    ensures forall i :: 0 <= i < |b| ==> RowTimes(a, b, c, Solution(a, b, c, d), i) == d[i]
  {
    forall i | 0 <= i < |b|
      ensures RowTimes(a, b, c, Solution(a, b, c, d), i) == d[i]
    {
      SolutionSolves(a, b, c, d, i);
    }
  }

  /** A one-row system is solved by a single division. */
  lemma SingleRow(a: seq<Complex>, b: seq<Complex>, c: seq<Complex>, d: seq<Complex>)
    requires Shaped(a, b, c, d) && |b| == 1
    ensures Solution(a, b, c, d) == [Div(d[0], b[0])]
  {}

  /** The elimination never reads a[0]: row 0 is only ever used through b[0],
      c[0] and d[0]; nor c[n-1], which belongs to no row below. */
  lemma {:induction false} PivotIgnoresEnds(a: seq<Complex>, b: seq<Complex>, c: seq<Complex>, u: Complex, v: Complex, i: nat)
    requires |b| >= 1 && |a| == |b| && |c| == |b| && i < |b|
    ensures Pivot(a[0 := u], b, c[|c| - 1 := v], i) == Pivot(a, b, c, i)
  {
    if i > 0 {
      PivotIgnoresEnds(a, b, c, u, v, i - 1);
    }
  }

  lemma {:induction false} ReducedIgnoresEnds(a: seq<Complex>, b: seq<Complex>, c: seq<Complex>, d: seq<Complex>, u: Complex, v: Complex, i: nat)
    requires Shaped(a, b, c, d) && i < |b|
    ensures Reduced(a[0 := u], b, c[|c| - 1 := v], d, i) == Reduced(a, b, c, d, i)
  {
    if i > 0 {
      PivotIgnoresEnds(a, b, c, u, v, i - 1);
      ReducedIgnoresEnds(a, b, c, d, u, v, i - 1);
    }
  }

  /** Back substitution never reads c[n-1]: the last unknown is r / p alone. */
  lemma {:induction false} BackIgnoresEnd(p: seq<Complex>, r: seq<Complex>, c: seq<Complex>, v: Complex, i: nat)
    requires |r| == |p| && |c| == |p| && i < |p|
    ensures Back(p, r, c[|c| - 1 := v], i) == Back(p, r, c, i)
    decreases |p| - i
  {
    if i < |p| - 1 {
      BackIgnoresEnd(p, r, c, v, i + 1);
    }
  }

  /** a[0] and c[n-1] lie outside the matrix and are never read: whatever
      they hold, the solver leaves the same pivots and the same solution. */
  lemma EndsNeverRead(a: seq<Complex>, b: seq<Complex>, c: seq<Complex>, d: seq<Complex>, u: Complex, v: Complex)
    requires Shaped(a, b, c, d)
    ensures Pivots(a[0 := u], b, c[|c| - 1 := v]) == Pivots(a, b, c)
    ensures ReducedAll(a[0 := u], b, c[|c| - 1 := v], d) == ReducedAll(a, b, c, d)
    ensures Solution(a[0 := u], b, c[|c| - 1 := v], d) == Solution(a, b, c, d)
  {
    var a', c' := a[0 := u], c[|c| - 1 := v];
    forall i | 0 <= i < |b|
      ensures Pivot(a', b, c', i) == Pivot(a, b, c, i)
      ensures Reduced(a', b, c', d, i) == Reduced(a, b, c, d, i)
    {
      PivotIgnoresEnds(a, b, c, u, v, i);
      ReducedIgnoresEnds(a, b, c, d, u, v, i);
    }
    var p, r := Pivots(a, b, c), ReducedAll(a, b, c, d);
    forall i | 0 <= i < |b|
      ensures Back(p, r, c', i) == Back(p, r, c, i)
    {
      BackIgnoresEnd(p, r, c, v, i);
    }
  }
}
