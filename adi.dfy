/** CrankNicolsonADI::step: one Strang-split time step of
    i dpsi/dt = -(1/2) Laplacian(psi) + V psi on the Nx by Ny grid with
    Dirichlet-zero walls. A potential half-kick, an implicit sweep along x,
    an implicit sweep along y, and a second half-kick. */
module Adi {
  import opened Complex
  import opened Grid
  import opened Tridiag

  /** The step's dimensions and spacings: the grid is Nx by Ny, the cells
      dx by dy, the time step dt. */
  datatype Mesh = Mesh(nx: int, ny: int, dx: real, dy: real, dt: real)

  /** What the step needs of its arguments: a non-empty grid with non-zero
      spacings, and psi and V both of Nx * Ny cells. */
  predicate Fits(g: Mesh, psi: seq<Complex>, V: seq<Complex>) {
    g.nx >= 1 && g.ny >= 1 && g.dx != 0.0 && g.dy != 0.0 &&
    |psi| == g.nx * g.ny && |V| == g.nx * g.ny
  }

  // ----- potential half-kicks -----

  /** exp(-i V dt/2): the phase factor of one potential half-kick, with the
      complex exponential supplied by the caller. */
  function KickFactor(cexp: Complex -> Complex, v: Complex, dt: real): Complex {
    cexp(Scale(Mul(Neg(I), v), 0.5 * dt))
  }

  /** psi with every cell multiplied by its half-kick factor. */
  function Kicked(cexp: Complex -> Complex, psi: seq<Complex>, V: seq<Complex>, dt: real): (r: seq<Complex>)
    requires |V| == |psi|
    ensures |r| == |psi|
  {
    seq(|psi|, k requires 0 <= k < |psi| => Mul(psi[k], KickFactor(cexp, V[k], dt)))
  }

  // ----- the implicit sweeps -----

  /** alpha = i dt / 4. */
  function Alpha(dt: real): Complex {
    Scale(I, dt * 0.25)
  }

  /** alpha / h^2: the off-diagonal weight of one axis (ax, ay). */
  function AxisWeight(dt: real, h: real): Complex
    requires h != 0.0
  {
    SquarePositive(h);
    DivReal(Alpha(dt), Square(h))
  }

  /** psi at cell (i, j), and 0 outside the grid: the Dirichlet-zero wall. */
  function At(psi: seq<Complex>, nx: int, ny: int, i: int, j: int): Complex
    requires |psi| == nx * ny
  {
    if 0 <= i < nx && 0 <= j < ny then
      IdxInRange(i, j, nx, ny);
      psi[Idx(i, j, nx)]
    else Zero
  }

  /** center + alpha (lo - 2 center + hi) / h^2: one cell of the explicit
      half (I + alpha D) applied along one axis. */
  function Explicit(center: Complex, lo: Complex, hi: Complex, dt: real, h: real): Complex
    requires h != 0.0
  {
    SquarePositive(h);
    Add(center, Mul(Alpha(dt), DivReal(Add(Sub(lo, Mul(Complex(2.0, 0.0), center)), hi), Square(h))))
  }

  /** The sub-diagonal of (I - w D) on n cells; a[0] is 0. */
  function Lower(n: nat, w: Complex): (a: seq<Complex>)
    ensures |a| == n
  {
    seq(n, i => if i == 0 then Zero else Neg(w))
  }

  /** The main diagonal of (I - w D): 1 + 2w everywhere. */
  function Diagonal(n: nat, w: Complex): (b: seq<Complex>)
    ensures |b| == n
  {
    seq(n, i => Add(One, Mul(Complex(2.0, 0.0), w)))
  }

  /** The super-diagonal of (I - w D) on n cells; c[n-1] is 0. */
  function Upper(n: nat, w: Complex): (c: seq<Complex>)
    ensures |c| == n
  {
    seq(n, i => if i == n - 1 then Zero else Neg(w))
  }

  /** The right-hand side of row j of the x-sweep: (I + alpha D_y) psi. */
  function XRhs(g: Mesh, psi: seq<Complex>, j: int): (d: seq<Complex>)
    requires g.nx >= 1 && g.dy != 0.0 && |psi| == g.nx * g.ny
    ensures |d| == g.nx
  {
    seq(g.nx, i => Explicit(At(psi, g.nx, g.ny, i, j), At(psi, g.nx, g.ny, i, j - 1), At(psi, g.nx, g.ny, i, j + 1), g.dt, g.dy))
  }

  /** Row j of phi: the solution of (I - alpha D_x) phi = (I + alpha D_y) psi. */
  function XRow(g: Mesh, psi: seq<Complex>, j: int): (x: seq<Complex>)
    requires g.nx >= 1 && g.dx != 0.0 && g.dy != 0.0 && |psi| == g.nx * g.ny
    ensures |x| == g.nx
  {
    var w := AxisWeight(g.dt, g.dx);
    Solution(Lower(g.nx, w), Diagonal(g.nx, w), Upper(g.nx, w), XRhs(g, psi, j))
  }

  /** phi: the x-sweep applied to every row. */
  function XSweep(g: Mesh, psi: seq<Complex>): (phi: seq<Complex>)
    requires g.nx >= 1 && g.ny >= 1 && g.dx != 0.0 && g.dy != 0.0 && |psi| == g.nx * g.ny
    ensures |phi| == |psi|
  {
    seq(|psi|, k requires 0 <= k < |psi| =>
      IdxOfColRow(k, g.nx, g.ny);
      XRow(g, psi, Row(k, g.nx))[Col(k, g.nx)])
  }

  /** The right-hand side of column i of the y-sweep: (I + alpha D_x) phi. */
  function YRhs(g: Mesh, phi: seq<Complex>, i: int): (d: seq<Complex>)
    requires g.ny >= 1 && g.dx != 0.0 && |phi| == g.nx * g.ny
    ensures |d| == g.ny
  {
    seq(g.ny, j => Explicit(At(phi, g.nx, g.ny, i, j), At(phi, g.nx, g.ny, i - 1, j), At(phi, g.nx, g.ny, i + 1, j), g.dt, g.dx))
  }

  /** Column i of the new psi: the solution of
      (I - alpha D_y) psi = (I + alpha D_x) phi. */
  function YColumn(g: Mesh, phi: seq<Complex>, i: int): (x: seq<Complex>)
    requires g.ny >= 1 && g.dx != 0.0 && g.dy != 0.0 && |phi| == g.nx * g.ny
    ensures |x| == g.ny
  {
    var w := AxisWeight(g.dt, g.dy);
    Solution(Lower(g.ny, w), Diagonal(g.ny, w), Upper(g.ny, w), YRhs(g, phi, i))
  }

  /** The y-sweep applied to every column. */
  function YSweep(g: Mesh, phi: seq<Complex>): (psi: seq<Complex>)
    requires g.nx >= 1 && g.ny >= 1 && g.dx != 0.0 && g.dy != 0.0 && |phi| == g.nx * g.ny
    ensures |psi| == |phi|
  {
    seq(|phi|, k requires 0 <= k < |phi| =>
      IdxOfColRow(k, g.nx, g.ny);
      YColumn(g, phi, Col(k, g.nx))[Row(k, g.nx)])
  }

  /** The whole step: kick, x-sweep, y-sweep on the x-sweep's phi, kick. */
  function Stepped(cexp: Complex -> Complex, g: Mesh, psi: seq<Complex>, V: seq<Complex>): (r: seq<Complex>)
    requires Fits(g, psi, V)
    ensures |r| == |psi|
  {
    Kicked(cexp, YSweep(g, XSweep(g, Kicked(cexp, psi, V, g.dt))), V, g.dt)
  }

  // ----- the step, in place -----

  /** CrankNicolsonADI::step: psi is advanced by one time step in place. */
  method Step(cexp: Complex -> Complex, psi: array<Complex>, g: Mesh, V: seq<Complex>)
    requires Fits(g, psi[..], V)
    modifies psi
    ensures psi[..] == Stepped(cexp, g, old(psi[..]), V)
  {
    Kick(cexp, psi, g, V);
    var phi := new Complex[psi.Length](_ => Zero);
    SweepX(g, psi, phi);
    SweepY(g, phi, psi);
    Kick(cexp, psi, g, V);
  }

  /** One potential half-step over the grid, row by row. */
  method Kick(cexp: Complex -> Complex, psi: array<Complex>, g: Mesh, V: seq<Complex>)
    requires Fits(g, psi[..], V)
    modifies psi
    ensures psi[..] == Kicked(cexp, old(psi[..]), V, g.dt)
  {
    ghost var P := psi[..];
    ghost var K := Kicked(cexp, P, V, g.dt);
    ghost var c := 0;
    var j := 0;
    while j < g.ny
      invariant 0 <= j <= g.ny && c == Idx(0, j, g.nx)
      invariant forall k :: 0 <= k < c ==> psi[k] == K[k]
      invariant forall k :: c <= k < psi.Length ==> psi[k] == P[k]
    {
      IdxInRange(g.nx - 1, j, g.nx, g.ny);
      var i := 0;
      while i < g.nx
        invariant 0 <= i <= g.nx && c == Idx(i, j, g.nx)
        invariant forall k :: 0 <= k < c ==> psi[k] == K[k]
        invariant forall k :: c <= k < psi.Length ==> psi[k] == P[k]
      {
        IdxInRange(i, j, g.nx, g.ny);
        var k := Idx(i, j, g.nx);
        assert psi[k] == P[k] && K[k] == Mul(P[k], KickFactor(cexp, V[k], g.dt));
        psi[k] := Mul(psi[k], KickFactor(cexp, V[k], g.dt));
        i, c := i + 1, c + 1;
      }
      IdxNextRow(j, g.nx);
      j := j + 1;
    }
    IdxEnd(g.nx, g.ny);
  }

  /** Sets a, b, c to the three diagonals of (I - w D) on a.Length cells. */
  method FillCoefficients(a: array<Complex>, b: array<Complex>, c: array<Complex>, w: Complex)
    requires b.Length == a.Length && c.Length == a.Length && a != b && b != c && a != c
    modifies a, b, c
    ensures a[..] == Lower(a.Length, w) && b[..] == Diagonal(a.Length, w) && c[..] == Upper(a.Length, w)
  {
    var n := a.Length;
    var i := 0;
    while i < n
      invariant 0 <= i <= n
      invariant forall k :: 0 <= k < i ==> a[k] == Lower(n, w)[k] && b[k] == Diagonal(n, w)[k] && c[k] == Upper(n, w)[k]
    {
      a[i] := if i == 0 then Zero else Neg(w);
      b[i] := Add(One, Mul(Complex(2.0, 0.0), w));
      c[i] := if i == n - 1 then Zero else Neg(w);
      i := i + 1;
    }
  }

  /** Step 1: every row j of phi solves its implicit x-system. */
  method SweepX(g: Mesh, psi: array<Complex>, phi: array<Complex>)
    requires g.nx >= 1 && g.ny >= 1 && g.dx != 0.0 && g.dy != 0.0
    requires psi.Length == g.nx * g.ny && phi.Length == psi.Length && phi != psi
    modifies phi
    ensures phi[..] == XSweep(g, psi[..])
  {
    ghost var P := psi[..];
    ghost var X := XSweep(g, P);
    var a := new Complex[g.nx];
    var b := new Complex[g.nx];
    var c := new Complex[g.nx];
    var d := new Complex[g.nx];
    forall k | 0 <= k < phi.Length
      ensures 0 <= Row(k, g.nx) < g.ny
    {
      IdxOfColRow(k, g.nx, g.ny);
    }
    var j := 0;
    while j < g.ny
      invariant 0 <= j <= g.ny
      invariant forall k :: 0 <= k < phi.Length && Row(k, g.nx) < j ==> phi[k] == X[k]
    {
      SolveXRow(g, psi, j, a, b, c, d);
      forall k | 0 <= k < phi.Length && Row(k, g.nx) == j
        ensures d[Col(k, g.nx)] == X[k]
      {}
      ghost var before := phi[..];
      StoreRow(g, phi, j, d);
      forall k | 0 <= k < phi.Length && Row(k, g.nx) < j + 1
        ensures phi[k] == X[k]
      {
        if Row(k, g.nx) < j {
          assert phi[k] == before[k];
        }
      }
      j := j + 1;
    }
  }

  /** Row j of the x-sweep: right-hand side, coefficients, Thomas solve. */
  method SolveXRow(g: Mesh, psi: array<Complex>, j: int, a: array<Complex>, b: array<Complex>, c: array<Complex>, d: array<Complex>)
    requires g.nx >= 1 && g.dx != 0.0 && g.dy != 0.0 && psi.Length == g.nx * g.ny && 0 <= j < g.ny
    requires a.Length == g.nx && b.Length == g.nx && c.Length == g.nx && d.Length == g.nx
    requires a != b && a != c && a != d && b != c && b != d && c != d
    requires psi != a && psi != b && psi != c && psi != d
    modifies a, b, c, d
    ensures d[..] == XRow(g, psi[..], j)
  {
    XRhsRow(g, psi, j, d);
    FillCoefficients(a, b, c, AxisWeight(g.dt, g.dx));
    SolveTridiagonal(a, b, c, d);
  }

  /** Writes d along row j of phi; every other row is left alone. */
  method StoreRow(g: Mesh, phi: array<Complex>, j: int, d: array<Complex>)
    requires g.nx >= 1 && g.ny >= 1 && phi.Length == g.nx * g.ny && 0 <= j < g.ny
    requires d.Length == g.nx && d != phi
    modifies phi
    ensures forall k :: 0 <= k < phi.Length ==>
      phi[k] == if Row(k, g.nx) == j then d[Col(k, g.nx)] else old(phi[k])
  {
    IdxInRange(g.nx - 1, j, g.nx, g.ny);
    ghost var start := Idx(0, j, g.nx);
    ghost var done := start;
    var i := 0;
    while i < g.nx
      invariant 0 <= i <= g.nx && done == Idx(i, j, g.nx)
      invariant forall k :: 0 <= k < phi.Length ==>
        phi[k] == if start <= k < done then d[k - start] else old(phi[k])
    {
      IdxInRange(i, j, g.nx, g.ny);
      phi[Idx(i, j, g.nx)] := d[i];
      i, done := i + 1, done + 1;
    }
    forall k | 0 <= k < phi.Length
      ensures start <= k < done <==> Row(k, g.nx) == j
      ensures start <= k < done ==> Col(k, g.nx) == k - start
    {
      InRowSpan(k, j, 0, g.nx - 1, g.nx);
      if start <= k < done {
        DivModUnique(k, g.nx, j, k - start);
      }
    }
  }

  /** The right-hand side of row j of the x-sweep, into d. */
  method XRhsRow(g: Mesh, psi: array<Complex>, j: int, d: array<Complex>)
    requires g.nx >= 1 && g.dy != 0.0 && psi.Length == g.nx * g.ny && 0 <= j < g.ny
    requires d.Length == g.nx && d != psi
    modifies d
    ensures d[..] == XRhs(g, psi[..], j)
  {
    hide Explicit;
    ghost var P := psi[..];
    ghost var R := XRhs(g, P, j);
    var i := 0;
    while i < g.nx
      invariant 0 <= i <= g.nx
      invariant forall k :: 0 <= k < i ==> d[k] == R[k]
    {
      IdxInRange(i, j, g.nx, g.ny);
      var center := psi[Idx(i, j, g.nx)];
      var up := Zero;
      if j > 0 {
        IdxInRange(i, j - 1, g.nx, g.ny);
        up := psi[Idx(i, j - 1, g.nx)];
      }
      var dn := Zero;
      if j < g.ny - 1 {
        IdxInRange(i, j + 1, g.nx, g.ny);
        dn := psi[Idx(i, j + 1, g.nx)];
      }
      assert center == At(P, g.nx, g.ny, i, j);
      assert up == At(P, g.nx, g.ny, i, j - 1) && dn == At(P, g.nx, g.ny, i, j + 1);
      d[i] := Explicit(center, up, dn, g.dt, g.dy);
      assert d[i] == R[i];
      i := i + 1;
    }
  }

  /** Step 2: every column i of psi solves its implicit y-system, whose
      right-hand side is built from phi. */
  method SweepY(g: Mesh, phi: array<Complex>, psi: array<Complex>)
    requires g.nx >= 1 && g.ny >= 1 && g.dx != 0.0 && g.dy != 0.0
    requires phi.Length == g.nx * g.ny && psi.Length == phi.Length && phi != psi
    modifies psi
    ensures psi[..] == YSweep(g, phi[..])
  {
    ghost var F := phi[..];
    ghost var Y := YSweep(g, F);
    var a := new Complex[g.ny];
    var b := new Complex[g.ny];
    var c := new Complex[g.ny];
    var d := new Complex[g.ny];
    var i := 0;
    while i < g.nx
      invariant 0 <= i <= g.nx
      invariant forall k :: 0 <= k < psi.Length && Col(k, g.nx) < i ==> psi[k] == Y[k]
    {
      SolveYColumn(g, phi, i, a, b, c, d);
      forall k | 0 <= k < psi.Length && Col(k, g.nx) == i
        ensures 0 <= Row(k, g.nx) < g.ny && d[Row(k, g.nx)] == Y[k]
      {
        IdxOfColRow(k, g.nx, g.ny);
      }
      StoreColumn(g, psi, i, d);
      i := i + 1;
    }
    forall k | 0 <= k < psi.Length
      ensures Col(k, g.nx) < g.nx
    {
      IdxOfColRow(k, g.nx, g.ny);
    }
  }

  /** Column i of the y-sweep: right-hand side, coefficients, Thomas solve. */
  method SolveYColumn(g: Mesh, phi: array<Complex>, i: int, a: array<Complex>, b: array<Complex>, c: array<Complex>, d: array<Complex>)
    requires g.ny >= 1 && g.dx != 0.0 && g.dy != 0.0 && phi.Length == g.nx * g.ny && 0 <= i < g.nx
    requires a.Length == g.ny && b.Length == g.ny && c.Length == g.ny && d.Length == g.ny
    requires a != b && a != c && a != d && b != c && b != d && c != d
    requires phi != a && phi != b && phi != c && phi != d
    modifies a, b, c, d
    ensures d[..] == YColumn(g, phi[..], i)
  {
    YRhsColumn(g, phi, i, d);
    FillCoefficients(a, b, c, AxisWeight(g.dt, g.dy));
    SolveTridiagonal(a, b, c, d);
  }

  /** The right-hand side of column i of the y-sweep, into d. */
  method YRhsColumn(g: Mesh, phi: array<Complex>, i: int, d: array<Complex>)
    requires g.ny >= 1 && g.dx != 0.0 && phi.Length == g.nx * g.ny && 0 <= i < g.nx
    requires d.Length == g.ny && d != phi
    modifies d
    ensures d[..] == YRhs(g, phi[..], i)
  {
    hide Explicit;
    ghost var F := phi[..];
    ghost var R := YRhs(g, F, i);
    var j := 0;
    while j < g.ny
      invariant 0 <= j <= g.ny
      invariant forall k :: 0 <= k < j ==> d[k] == R[k]
    {
      IdxInRange(i, j, g.nx, g.ny);
      var center := phi[Idx(i, j, g.nx)];
      var lf := Zero;
      if i > 0 {
        IdxInRange(i - 1, j, g.nx, g.ny);
        lf := phi[Idx(i - 1, j, g.nx)];
      }
      var rt := Zero;
      if i < g.nx - 1 {
        IdxInRange(i + 1, j, g.nx, g.ny);
        rt := phi[Idx(i + 1, j, g.nx)];
      }
      assert center == At(F, g.nx, g.ny, i, j);
      assert lf == At(F, g.nx, g.ny, i - 1, j) && rt == At(F, g.nx, g.ny, i + 1, j);
      d[j] := Explicit(center, lf, rt, g.dt, g.dx);
      assert d[j] == R[j];
      j := j + 1;
    }
  }

  /** Writes d down column i of psi; every other column is left alone. */
  method StoreColumn(g: Mesh, psi: array<Complex>, i: int, d: array<Complex>)
    requires g.nx >= 1 && g.ny >= 1 && psi.Length == g.nx * g.ny && 0 <= i < g.nx
    requires d.Length == g.ny && d != psi
    modifies psi
    ensures forall k :: 0 <= k < psi.Length ==>
      psi[k] == if Col(k, g.nx) == i then d[Row(k, g.nx)] else old(psi[k])
  {
    forall k | 0 <= k < psi.Length
      ensures 0 <= Row(k, g.nx) < g.ny
    {
      IdxOfColRow(k, g.nx, g.ny);
    }
    var j := 0;
    while j < g.ny
      invariant 0 <= j <= g.ny
      invariant forall k :: 0 <= k < psi.Length ==>
        psi[k] == if Col(k, g.nx) == i && Row(k, g.nx) < j then d[Row(k, g.nx)] else old(psi[k])
    {
      IdxInRange(i, j, g.nx, g.ny);
      ColRowOfIdx(i, j, g.nx);
      ghost var before := psi[..];
      psi[Idx(i, j, g.nx)] := d[j];
      forall k | 0 <= k < psi.Length
        ensures psi[k] == if Col(k, g.nx) == i && Row(k, g.nx) < j + 1 then d[Row(k, g.nx)] else old(psi[k])
      {
        if k != Idx(i, j, g.nx) {
          assert psi[k] == before[k];
          if Col(k, g.nx) == i && Row(k, g.nx) == j {
            IdxOfColRow(k, g.nx, g.ny);
          }
        }
      }
      j := j + 1;
    }
  }

  // ----- the implicit systems are well posed -----

  /** alpha / h^2 is purely imaginary. */
  lemma AxisWeightImaginary(dt: real, h: real)
    requires h != 0.0
    ensures AxisWeight(dt, h).re == 0.0
  {
    assert Alpha(dt).re == 0.0;
    SquarePositive(h);
    assert 0.0 / Square(h) == 0.0;
  }

  /** One elimination step of (I - w D) with w purely imaginary keeps the
      real part of the pivot at least 1: the new pivot is
      1 + 2w - w^2 / p, whose real part is 1 + |w|^2 Re(p) / |p|^2. */
  lemma PivotStep(w: Complex, p: Complex)
    requires w.re == 0.0 && p.re >= 1.0
    ensures p != Zero
    ensures Sub(Add(One, Mul(Complex(2.0, 0.0), w)), Mul(Div(Neg(w), p), Neg(w))).re >= 1.0
  {
    assert p != Zero;
    NormPositive(p);
    var n := Norm(p);
    var u := p.re / n;
    assert u > 0.0;
    var q := Mul(Div(Neg(w), p), Neg(w));
    assert q.re == -(Times(w.im, w.im) * u) by {
      assert Div(Neg(w), p) == Mul(Neg(w), Inv(p));
    }
    SquareNonneg(w.im);
    PositiveScale(Times(w.im, w.im), u);
  }

  lemma PositiveScale(a: real, u: real)
    requires a >= 0.0 && u > 0.0
    ensures a * u >= 0.0
  {}

  /** Every pivot of (I - w D) on n cells has real part at least 1. */
  lemma {:induction false} PivotsDominant(n: nat, w: Complex, i: nat)
    requires w.re == 0.0 && i < n
    ensures Pivot(Lower(n, w), Diagonal(n, w), Upper(n, w), i).re >= 1.0
  {
    var a, b, c := Lower(n, w), Diagonal(n, w), Upper(n, w);
    if i > 0 {
      PivotsDominant(n, w, i - 1);
      var p := Pivot(a, b, c, i - 1);
      assert a[i] == Neg(w) && c[i - 1] == Neg(w) && b[i] == Add(One, Mul(Complex(2.0, 0.0), w));
      PivotStep(w, p);
    }
  }

  /** Hence the Thomas solve of either sweep never divides by zero. */
  lemma SweepNonSingular(n: nat, w: Complex)
    requires w.re == 0.0 && n >= 1
    ensures NonSingular(Lower(n, w), Diagonal(n, w), Upper(n, w))
  {
    forall i | 0 <= i < n
      ensures Pivot(Lower(n, w), Diagonal(n, w), Upper(n, w), i) != Zero
    {
      PivotsDominant(n, w, i);
    }
  }

  // ----- what each sweep solves -----

  /** x - alpha (lo - 2x + hi) / h^2: one cell of the implicit half
      (I - alpha D) applied along one axis. */
  function Implicit(x: Complex, lo: Complex, hi: Complex, dt: real, h: real): Complex
    requires h != 0.0
  {
    SquarePositive(h);
    Sub(x, Mul(Alpha(dt), DivReal(Add(Sub(lo, Mul(Complex(2.0, 0.0), x)), hi), Square(h))))
  }

  lemma QuotientSwap(a: real, b: real, s: real)
    requires s != 0.0
    ensures (a / s) * b == a * (b / s)
  {
    assert (a / s) * b == (a * b) / s;
    assert a * (b / s) == (a * b) / s;
  }

  /** Dividing alpha or the stencil by h^2 comes to the same. */
  lemma WeightSwap(dt: real, h: real, z: Complex)
    requires h != 0.0
    ensures Square(h) != 0.0 && Mul(AxisWeight(dt, h), z) == Mul(Alpha(dt), DivReal(z, Square(h)))
  {
    SquarePositive(h);
    var a, s := Alpha(dt), Square(h);
    QuotientSwap(a.re, z.re, s);
    QuotientSwap(a.im, z.im, s);
    QuotientSwap(a.re, z.im, s);
    QuotientSwap(a.im, z.re, s);
  }

  /** x with zero beyond both ends: the value next to a boundary cell. */
  function Cell(x: seq<Complex>, i: int): Complex {
    if 0 <= i < |x| then x[i] else Zero
  }

  /** -(p) + (x + q) + -(r) regroups as x - ((p - q) + r). */
  lemma Regroup(x: Complex, p: Complex, q: Complex, r: Complex)
    ensures Add(Add(Neg(p), Add(x, q)), Neg(r)) == Sub(x, Add(Sub(p, q), r))
  {}

  /** Row i of the matrix (a, b, c) = (-w, 1 + 2w, -w) applied to x is
      x[i] - w (lo - 2 x[i] + hi). */
  lemma StencilRow(w: Complex, lo: Complex, x: Complex, hi: Complex)
    ensures Add(Add(Mul(Neg(w), lo), Mul(Add(One, Mul(Complex(2.0, 0.0), w)), x)), Mul(Neg(w), hi))
         == Sub(x, Mul(w, Add(Sub(lo, Mul(Complex(2.0, 0.0), x)), hi)))
  {
    var two := Complex(2.0, 0.0);
    MulNeg(w, lo);
    MulNeg(w, hi);
    MulOnePlus(Mul(two, w), x);
    MulComm(two, w);
    MulAssoc(w, two, x);
    MulDistribAdd(w, Sub(lo, Mul(two, x)), hi);
    MulDistribSub(w, lo, Mul(two, x));
    Regroup(x, Mul(w, lo), Mul(w, Mul(two, x)), Mul(w, hi));
  }

  /** The Thomas solution x of the system (I - w D) x = d satisfies every
      row, with zero beyond both ends, when w is purely imaginary. */
  lemma SweepSolves(n: nat, w: Complex, d: seq<Complex>, x: seq<Complex>, i: nat)
    requires w.re == 0.0 && |d| == n && i < n
    requires x == Solution(Lower(n, w), Diagonal(n, w), Upper(n, w), d)
    ensures Sub(x[i], Mul(w, Add(Sub(Cell(x, i - 1), Mul(Complex(2.0, 0.0), x[i])), Cell(x, i + 1)))) == d[i]
  {
    var a, b, c := Lower(n, w), Diagonal(n, w), Upper(n, w);
    var lo, hi := Cell(x, i - 1), Cell(x, i + 1);
    SweepNonSingular(n, w);
    SolutionSolves(a, b, c, d, i);
    StencilRow(w, lo, x[i], hi);
    assert RowTimes(a, b, c, x, i) == Add(Add(Mul(Neg(w), lo), Mul(b[i], x[i])), Mul(Neg(w), hi));
  }

  /** The same row in the solver's own terms: the solution of a sweep with
      weight alpha / h^2 satisfies (I - alpha D) x = d on every cell. */
  lemma ImplicitSolves(n: nat, dt: real, h: real, d: seq<Complex>, x: seq<Complex>, i: nat)
    requires h != 0.0 && |d| == n && i < n
    requires x == Solution(Lower(n, AxisWeight(dt, h)), Diagonal(n, AxisWeight(dt, h)), Upper(n, AxisWeight(dt, h)), d)
    ensures Implicit(x[i], Cell(x, i - 1), Cell(x, i + 1), dt, h) == d[i]
  {
    var w := AxisWeight(dt, h);
    AxisWeightImaginary(dt, h);
    SweepSolves(n, w, d, x, i);
    WeightSwap(dt, h, Add(Sub(Cell(x, i - 1), Mul(Complex(2.0, 0.0), x[i])), Cell(x, i + 1)));
  }

  /** phi read back along row j is the x-sweep's row solution, zero beyond
      the row's ends. */
  lemma XSweepAt(g: Mesh, psi: seq<Complex>, i: int, j: int)
    requires g.nx >= 1 && g.ny >= 1 && g.dx != 0.0 && g.dy != 0.0 && |psi| == g.nx * g.ny
    requires 0 <= j < g.ny
    ensures At(XSweep(g, psi), g.nx, g.ny, i, j) == Cell(XRow(g, psi, j), i)
  {
    if 0 <= i < g.nx {
      IdxInRange(i, j, g.nx, g.ny);
      ColRowOfIdx(i, j, g.nx);
    }
  }

  /** The y-sweep's output read back along column i is its column solution,
      zero beyond the column's ends. */
  lemma YSweepAt(g: Mesh, phi: seq<Complex>, i: int, j: int)
    requires g.nx >= 1 && g.ny >= 1 && g.dx != 0.0 && g.dy != 0.0 && |phi| == g.nx * g.ny
    requires 0 <= i < g.nx
    ensures At(YSweep(g, phi), g.nx, g.ny, i, j) == Cell(YColumn(g, phi, i), j)
  {
    if 0 <= j < g.ny {
      IdxInRange(i, j, g.nx, g.ny);
      ColRowOfIdx(i, j, g.nx);
    }
  }

  /** Step 1 is the Crank-Nicolson half step along x:
      (I - alpha D_x) phi = (I + alpha D_y) psi on every cell, with phi
      and psi taken as 0 outside the grid. */
  lemma XSweepSolves(g: Mesh, psi: seq<Complex>, phi: seq<Complex>, i: int, j: int)
    requires g.nx >= 1 && g.ny >= 1 && g.dx != 0.0 && g.dy != 0.0 && |psi| == g.nx * g.ny
    requires 0 <= i < g.nx && 0 <= j < g.ny && phi == XSweep(g, psi)
    ensures Implicit(At(phi, g.nx, g.ny, i, j), At(phi, g.nx, g.ny, i - 1, j), At(phi, g.nx, g.ny, i + 1, j), g.dt, g.dx)
         == Explicit(At(psi, g.nx, g.ny, i, j), At(psi, g.nx, g.ny, i, j - 1), At(psi, g.nx, g.ny, i, j + 1), g.dt, g.dy)
  {
    var x := XRow(g, psi, j);
    ImplicitSolves(g.nx, g.dt, g.dx, XRhs(g, psi, j), x, i);
    XSweepAt(g, psi, i, j);
    XSweepAt(g, psi, i - 1, j);
    XSweepAt(g, psi, i + 1, j);
  }

  /** Step 2 is the Crank-Nicolson half step along y, fed by phi:
      (I - alpha D_y) psi' = (I + alpha D_x) phi on every cell. */
  lemma YSweepSolves(g: Mesh, phi: seq<Complex>, psi: seq<Complex>, i: int, j: int)
    requires g.nx >= 1 && g.ny >= 1 && g.dx != 0.0 && g.dy != 0.0 && |phi| == g.nx * g.ny
    requires 0 <= i < g.nx && 0 <= j < g.ny && psi == YSweep(g, phi)
    ensures Implicit(At(psi, g.nx, g.ny, i, j), At(psi, g.nx, g.ny, i, j - 1), At(psi, g.nx, g.ny, i, j + 1), g.dt, g.dy)
         == Explicit(At(phi, g.nx, g.ny, i, j), At(phi, g.nx, g.ny, i - 1, j), At(phi, g.nx, g.ny, i + 1, j), g.dt, g.dx)
  {
    var x := YColumn(g, phi, i);
    ImplicitSolves(g.ny, g.dt, g.dy, YRhs(g, phi, i), x, j);
    YSweepAt(g, phi, i, j);
    YSweepAt(g, phi, i, j - 1);
    YSweepAt(g, phi, i, j + 1);
  }

  // ----- what the kicks do to the norm -----

  /** What the kicks need of the complex exponential: |exp(z)| <= 1 when
      Re z <= 0, and |exp(z)| = 1 on the imaginary axis. */
  ghost predicate ExpOnLeftHalfPlane(cexp: Complex -> Complex) {
    forall z: Complex :: z.re <= 0.0 ==> Norm(cexp(z)) <= 1.0 && (z.re == 0.0 ==> Norm(cexp(z)) == 1.0)
  }

  /** -i V dt/2 has real part Im(V) dt/2: not positive when Im V <= 0,
      and zero when V is real. */
  lemma KickExponent(v: Complex, dt: real)
    requires dt >= 0.0 && v.im <= 0.0
    ensures Scale(Mul(Neg(I), v), 0.5 * dt).re <= 0.0
    ensures v.im == 0.0 ==> Scale(Mul(Neg(I), v), 0.5 * dt).re == 0.0
  {
    assert Scale(Mul(Neg(I), v), 0.5 * dt).re == v.im * (0.5 * dt);
    NonPositiveTimes(v.im, 0.5 * dt);
  }

  lemma NonPositiveTimes(a: real, b: real)
    requires a <= 0.0 && b >= 0.0
    ensures a * b <= 0.0
  {}

  lemma ShrinkBy(a: real, f: real)
    requires a >= 0.0 && 0.0 <= f <= 1.0
    ensures a * f <= a
  {}

  /** Multiplying by a factor of norm at most 1 does not increase the norm,
      and a factor of norm 1 keeps it. */
  lemma ScaledByUnit(p: Complex, f: Complex)
    requires Norm(f) <= 1.0
    ensures Norm(Mul(p, f)) <= Norm(p)
    ensures Norm(f) == 1.0 ==> Norm(Mul(p, f)) == Norm(p)
  {
    NormMul(p, f);
    NormNonneg(p);
    NormNonneg(f);
    ShrinkBy(Norm(p), Norm(f));
  }

  /** The half-kick factor has norm at most 1 where Im V <= 0 (the absorbing
      layer), and norm 1 where V is real. */
  lemma KickFactorNorm(cexp: Complex -> Complex, v: Complex, dt: real)
    requires ExpOnLeftHalfPlane(cexp) && dt >= 0.0 && v.im <= 0.0
    ensures Norm(KickFactor(cexp, v, dt)) <= 1.0
    ensures v.im == 0.0 ==> Norm(KickFactor(cexp, v, dt)) == 1.0
  {
    KickExponent(v, dt);
  }

  /** Hence a half-kick never increases a cell's |psi|^2 where Im V <= 0,
      and keeps it where V is real. */
  lemma KickCell(cexp: Complex -> Complex, p: Complex, v: Complex, dt: real)
    requires ExpOnLeftHalfPlane(cexp) && dt >= 0.0 && v.im <= 0.0
    ensures Norm(Mul(p, KickFactor(cexp, v, dt))) <= Norm(p)
    ensures v.im == 0.0 ==> Norm(Mul(p, KickFactor(cexp, v, dt))) == Norm(p)
  {
    KickFactorNorm(cexp, v, dt);
    ScaledByUnit(p, KickFactor(cexp, v, dt));
  }

  /** Summed over the grid: a half-kick does not add probability when
      Im V <= 0 everywhere, and conserves it when V is real. */
  lemma KickedNormSum(cexp: Complex -> Complex, psi: seq<Complex>, V: seq<Complex>, dt: real)
    requires ExpOnLeftHalfPlane(cexp) && dt >= 0.0 && |V| == |psi|
    requires forall k :: 0 <= k < |V| ==> V[k].im <= 0.0
    ensures NormSum(Kicked(cexp, psi, V, dt)) <= NormSum(psi)
    ensures (forall k :: 0 <= k < |V| ==> V[k].im == 0.0) ==> NormSum(Kicked(cexp, psi, V, dt)) == NormSum(psi)
  {
    var K := Kicked(cexp, psi, V, dt);
    forall k | 0 <= k < |K|
      ensures Norm(K[k]) <= Norm(psi[k]) && (V[k].im == 0.0 ==> Norm(K[k]) == Norm(psi[k]))
    {
      KickCell(cexp, psi[k], V[k], dt);
    }
    NormSumMonotone(K, psi);
  }
}
