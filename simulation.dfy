/** The Simulation driver: grid geometry, the wavefunction psi, the
    potential V rebuilt from the scene, Gaussian packet injection, time
    stepping and the probability-mass diagnostics. */
module Simulation {
  import opened Complex
  import opened Grid
  import opened Numeric
  import opened Potential
  import opened Adi

  /** A Gaussian source: centre and width in normalised [0,1] units, an
      amplitude and a momentum (kx, ky) in radians per unit length. */
  datatype Packet = Packet(cx: real, cy: real, sigma: real, amplitude: real, kx: real, ky: real)

  // ----- geometry -----

  /** Square cells: dx = dy = 1 / min(Nx, Ny), and the domain is Nx dx by
      Ny dy. */
  predicate SquareCells(nx: int, ny: int, lx: real, ly: real, dx: real, dy: real) {
    nx >= 1 && ny >= 1 &&
    dx == 1.0 / (MinInt(nx, ny) as real) && dx > 0.0 && dy == dx &&
    lx == nx as real * dx && ly == ny as real * dy
  }

  lemma CellPositive(n: int)
    requires n >= 1
    ensures 1.0 / (n as real) > 0.0
  {}

  // ----- packets -----

  /** The packet's width in physical units, floored at 1e-12. */
  function PacketWidth(p: Packet, lx: real, ly: real): (s: real)
    ensures s >= 0.000000000001
  {
    MaxReal(0.000000000001, p.sigma * MinReal(lx, ly))
  }

  /** The physical centre of cell i along an axis of spacing h. */
  function Centre(i: int, h: real): real {
    (i as real + 0.5) * h
  }

  /** The Gaussian envelope g = exp(-(u^2 + v^2) / 2) of packet p on cell
      (i, j), u and v the cell centre's offsets from the packet centre in
      units of the packet width. */
  function Envelope(m: Libm, lx: real, ly: real, dx: real, dy: real, p: Packet, i: int, j: int): real {
    var sig := PacketWidth(p, lx, ly);
    var u := (Centre(i, dx) - p.cx * lx) / sig;
    var v := (Centre(j, dy) - p.cy * ly) / sig;
    m.exp(-0.5 * (u * u + v * v))
  }

  /** The phase k . (r - centre) of packet p on cell (i, j). */
  function Phase(lx: real, ly: real, dx: real, dy: real, p: Packet, i: int, j: int): real {
    p.kx * (Centre(i, dx) - p.cx * lx) + p.ky * (Centre(j, dy) - p.cy * ly)
  }

  /** The plane-wave factor exp(i phase). */
  function PlaneWave(cexp: Complex -> Complex, phase: real): Complex {
    cexp(Scale(I, phase))
  }

  /** What injectGaussian adds to cell (i, j): amplitude * g * exp(i phase). */
  function Wave(m: Libm, cexp: Complex -> Complex, lx: real, ly: real, dx: real, dy: real, p: Packet, i: int, j: int): Complex {
    Scale(PlaneWave(cexp, Phase(lx, ly, dx, dy, p, i, j)), p.amplitude * Envelope(m, lx, ly, dx, dy, p, i, j))
  }

  /** The sum of the waves of packets ps on cell (i, j), added in list order
      onto zero. */
  function Waves(m: Libm, cexp: Complex -> Complex, lx: real, ly: real, dx: real, dy: real, ps: seq<Packet>, i: int, j: int): Complex
    decreases |ps|
  {
    if |ps| == 0 then Zero
    else Add(Waves(m, cexp, lx, ly, dx, dy, ps[..|ps| - 1], i, j), Wave(m, cexp, lx, ly, dx, dy, ps[|ps| - 1], i, j))
  }

  /** Injections superpose: the packets of ps + qs put on a cell what ps
      puts there plus what qs puts there. */
  lemma {:induction false} WavesAppend(m: Libm, cexp: Complex -> Complex, lx: real, ly: real, dx: real, dy: real,
                                       ps: seq<Packet>, qs: seq<Packet>, i: int, j: int)
    ensures Waves(m, cexp, lx, ly, dx, dy, ps + qs, i, j)
         == Add(Waves(m, cexp, lx, ly, dx, dy, ps, i, j), Waves(m, cexp, lx, ly, dx, dy, qs, i, j))
  {
    if |qs| == 0 {
      assert ps + qs == ps;
    } else {
      var qs', q := qs[..|qs| - 1], qs[|qs| - 1];
      assert (ps + qs)[..|ps + qs| - 1] == ps + qs';
      WavesAppend(m, cexp, lx, ly, dx, dy, ps, qs', i, j);
    }
  }

  /** Hence the order of the packet list does not matter. */
  lemma WavesSwap(m: Libm, cexp: Complex -> Complex, lx: real, ly: real, dx: real, dy: real,
                  ps: seq<Packet>, qs: seq<Packet>, i: int, j: int)
    ensures Waves(m, cexp, lx, ly, dx, dy, ps + qs, i, j) == Waves(m, cexp, lx, ly, dx, dy, qs + ps, i, j)
  {
    WavesAppend(m, cexp, lx, ly, dx, dy, ps, qs, i, j);
    WavesAppend(m, cexp, lx, ly, dx, dy, qs, ps, i, j);
  }

  lemma NormScale(z: Complex, r: real)
    ensures Norm(Scale(z, r)) == Square(r) * Norm(z)
  {
    var s := Scale(z, r);
    assert Square(s.re) == Square(r) * Square(z.re);
    assert Square(s.im) == Square(r) * Square(z.im);
  }

  lemma SquareShrinks(a: real, g: real)
    requires 0.0 < g <= 1.0
    ensures Square(a * g) <= Square(a)
  {
    assert Square(a * g) == Square(a) * Square(g);
    SquareNonneg(a);
    SquareNonneg(g);
    SquareAtMostOne(g);
    ShrinkBy(Square(a), Square(g));
  }

  /** A unit phase scaled by amplitude * g, with g in (0, 1], has norm at
      most amplitude^2. */
  lemma ScaledPhaseBounded(w: Complex, e: Complex, a: real, g: real)
    requires Norm(e) == 1.0 && 0.0 < g <= 1.0 && w == Scale(e, a * g)
    ensures Norm(w) <= Square(a)
  {
    NormScale(e, a * g);
    SquareShrinks(a, g);
  }

  /** A packet's |psi|^2 never exceeds amplitude^2 on any cell: the plane
      wave has modulus 1 and the Gaussian envelope is at most 1. */
  lemma WaveBounded(m: Libm, cexp: Complex -> Complex, lx: real, ly: real, dx: real, dy: real, p: Packet, i: int, j: int)
    requires ExpBounded(m) && ExpOnLeftHalfPlane(cexp)
    ensures Norm(Wave(m, cexp, lx, ly, dx, dy, p, i, j)) <= Square(p.amplitude)
  {
    EnvelopeRange(m, lx, ly, dx, dy, p, i, j);
    PlaneWaveUnit(cexp, Phase(lx, ly, dx, dy, p, i, j));
    FactorsBounded(m, cexp, lx, ly, dx, dy, p, i, j);
  }

  /** The bound of WaveBounded from the bounds on its two factors. */
  lemma FactorsBounded(m: Libm, cexp: Complex -> Complex, lx: real, ly: real, dx: real, dy: real, p: Packet, i: int, j: int)
    requires Norm(PlaneWave(cexp, Phase(lx, ly, dx, dy, p, i, j))) == 1.0
    requires 0.0 < Envelope(m, lx, ly, dx, dy, p, i, j) <= 1.0
    ensures Norm(Wave(m, cexp, lx, ly, dx, dy, p, i, j)) <= Square(p.amplitude)
  {
    var w := Wave(m, cexp, lx, ly, dx, dy, p, i, j);
    var e := PlaneWave(cexp, Phase(lx, ly, dx, dy, p, i, j));
    var g := Envelope(m, lx, ly, dx, dy, p, i, j);
    ScaledPhaseBounded(w, e, p.amplitude, g);
  }

  /** The Gaussian envelope lies in (0, 1]. */
  lemma EnvelopeRange(m: Libm, lx: real, ly: real, dx: real, dy: real, p: Packet, i: int, j: int)
    requires ExpBounded(m)
    ensures 0.0 < Envelope(m, lx, ly, dx, dy, p, i, j) <= 1.0
  {
    var sig := PacketWidth(p, lx, ly);
    var u := (Centre(i, dx) - p.cx * lx) / sig;
    var v := (Centre(j, dy) - p.cy * ly) / sig;
    SquareNonneg(u);
    SquareNonneg(v);
    assert -0.5 * (u * u + v * v) <= 0.0;
  }

  /** The plane wave has modulus 1. */
  lemma PlaneWaveUnit(cexp: Complex -> Complex, phase: real)
    requires ExpOnLeftHalfPlane(cexp)
    ensures Norm(PlaneWave(cexp, phase)) == 1.0
  {
    assert Scale(I, phase).re == 0.0;
  }

  // ----- time stepping -----

  /** One solver step as a function of psi; a buffer of the wrong size is
      left alone. */
  function StepOf(cexp: Complex -> Complex, g: Mesh, V: seq<Complex>): seq<Complex> -> seq<Complex> {
    s => if Fits(g, s, V) then Stepped(cexp, g, s, V) else s
  }

  /** f applied n times; not at all for n <= 0. */
  function Iterate(f: seq<Complex> -> seq<Complex>, s: seq<Complex>, n: int): seq<Complex>
    decreases n
  {
    if n <= 0 then s else f(Iterate(f, s, n - 1))
  }

  /** Iterating a then b times is iterating a + b times. */
  lemma {:induction false} IterateCompose(f: seq<Complex> -> seq<Complex>, s: seq<Complex>, a: nat, b: nat)
    ensures Iterate(f, Iterate(f, s, a), b) == Iterate(f, s, a + b)
    decreases b
  {
    if b > 0 {
      IterateCompose(f, s, a, b - 1);
    }
  }

  /** A step keeps psi on the grid, so every iterate does. */
  lemma {:induction false} IterateFits(cexp: Complex -> Complex, g: Mesh, s: seq<Complex>, V: seq<Complex>, n: int)
    requires Fits(g, s, V)
    ensures Fits(g, Iterate(StepOf(cexp, g, V), s, n), V)
    decreases n
  {
    if n > 0 {
      IterateFits(cexp, g, s, V, n - 1);
    }
  }

  // ----- mass -----

  /** The probability mass of one cell: |z|^2 dx dy. */
  function CellMass(z: Complex, dx: real, dy: real): real {
    Norm(z) * dx * dy
  }

  /** The part of the mass on one side of the vertical line i = mid: cell
      k counts on the left when its column is below mid. */
  function SideMass(s: seq<Complex>, nx: int, mid: int, left: bool, dx: real, dy: real): real
    requires nx >= 1
    decreases |s|
  {
    if |s| == 0 then 0.0
    else
      var k := |s| - 1;
      SideMass(s[..k], nx, mid, left, dx, dy) + (if (Col(k, nx) < mid) == left then CellMass(s[k], dx, dy) else 0.0)
  }

  /** Taking one more cell adds its mass to its own side only. */
  lemma SideMassNext(s: seq<Complex>, c: int, nx: int, mid: int, left: bool, dx: real, dy: real, w: real)
    requires nx >= 1 && 0 <= c < |s| && w == CellMass(s[c], dx, dy)
    ensures SideMass(s[..c + 1], nx, mid, left, dx, dy)
         == SideMass(s[..c], nx, mid, left, dx, dy) + (if (Col(c, nx) < mid) == left then w else 0.0)
  {
    assert s[..c + 1][..c] == s[..c];
  }

  lemma Distribute(a: real, z: Complex, dx: real, dy: real)
    ensures (a + Norm(z)) * dx * dy == a * dx * dy + CellMass(z, dx, dy)
  {
    var b := Norm(z);
    assert (a + b) * dx * dy == a * dx * dy + b * dx * dy;
  }

  /** The two sides of the split add up to the mass. */
  lemma {:induction false} SidesMakeMass(s: seq<Complex>, nx: int, mid: int, dx: real, dy: real)
    requires nx >= 1
    ensures SideMass(s, nx, mid, true, dx, dy) + SideMass(s, nx, mid, false, dx, dy) == NormSum(s) * dx * dy
  {
    if |s| > 0 {
      var k := |s| - 1;
      SidesMakeMass(s[..k], nx, mid, dx, dy);
      Distribute(NormSum(s[..k]), s[k], dx, dy);
    }
  }

  lemma NonnegProduct(a: real, dx: real, dy: real)
    requires a >= 0.0 && dx > 0.0 && dy > 0.0
    ensures a * dx * dy >= 0.0
  {}

  /** Each side of the split is non-negative. */
  lemma {:induction false} SideMassNonneg(s: seq<Complex>, nx: int, mid: int, left: bool, dx: real, dy: real)
    requires nx >= 1 && dx > 0.0 && dy > 0.0
    ensures SideMass(s, nx, mid, left, dx, dy) >= 0.0
  {
    if |s| > 0 {
      var k := |s| - 1;
      SideMassNonneg(s[..k], nx, mid, left, dx, dy);
      NormNonneg(s[k]);
      NonnegProduct(Norm(s[k]), dx, dy);
    }
  }

  // ----- the loops over psi -----

  /** The sum of |psi|^2 over the buffer, in storage order. */
  method SumNorms(psi: array<Complex>) returns (sum: real)
    ensures sum == NormSum(psi[..])
  {
    sum := 0.0;
    var k := 0;
    while k < psi.Length
      invariant 0 <= k <= psi.Length
      invariant sum == NormSum(psi[..k])
    {
      assert psi[..k + 1][..k] == psi[..k];
      sum := sum + Norm(psi[k]);
      k := k + 1;
    }
    assert psi[..k] == psi[..];
  }

  /** The row-major double loop of mass_split: each cell's mass goes to the
      left sum when its column is below mid, to the right sum otherwise. */
  method SplitMass(psi: array<Complex>, nx: int, ny: int, mid: int, dx: real, dy: real) returns (left: real, right: real)
    requires nx >= 1 && ny >= 1 && psi.Length == nx * ny
    ensures left == SideMass(psi[..], nx, mid, true, dx, dy)
    ensures right == SideMass(psi[..], nx, mid, false, dx, dy)
  {
    left, right := 0.0, 0.0;
    ghost var c := 0;
    var j := 0;
    while j < ny
      invariant 0 <= j <= ny && c == Idx(0, j, nx)
      invariant left == SideMass(psi[..c], nx, mid, true, dx, dy)
      invariant right == SideMass(psi[..c], nx, mid, false, dx, dy)
    {
      IdxInRange(nx - 1, j, nx, ny);
      var i := 0;
      while i < nx
        invariant 0 <= i <= nx && c == Idx(i, j, nx)
        invariant left == SideMass(psi[..c], nx, mid, true, dx, dy)
        invariant right == SideMass(psi[..c], nx, mid, false, dx, dy)
      {
        IdxInRange(i, j, nx, ny);
        ColRowOfIdx(i, j, nx);
        var w := CellMass(psi[Idx(i, j, nx)], dx, dy);
        assert psi[..][c] == psi[Idx(i, j, nx)];
        SideMassNext(psi[..], c, nx, mid, true, dx, dy, w);
        SideMassNext(psi[..], c, nx, mid, false, dx, dy, w);
        if i < mid {
          left := left + w;
        } else {
          right := right + w;
        }
        i, c := i + 1, c + 1;
      }
      IdxNextRow(j, nx);
      j := j + 1;
    }
    IdxEnd(nx, ny);
    assert psi[..c] == psi[..];
  }

  /** Every packet of ps, in order, added onto psi cell by cell. */
  method InjectAll(psi: array<Complex>, nx: int, ny: int, m: Libm, cexp: Complex -> Complex,
                   lx: real, ly: real, dx: real, dy: real, ps: seq<Packet>)
    requires nx >= 1 && ny >= 1 && psi.Length == nx * ny
    modifies psi
    ensures forall k :: 0 <= k < psi.Length ==>
      psi[k] == Add(old(psi[k]), Waves(m, cexp, lx, ly, dx, dy, ps, Col(k, nx), Row(k, nx)))
  {
    var t := 0;
    while t < |ps|
      invariant 0 <= t <= |ps|
      invariant forall k :: 0 <= k < psi.Length ==>
        psi[k] == Add(old(psi[k]), Waves(m, cexp, lx, ly, dx, dy, ps[..t], Col(k, nx), Row(k, nx)))
    {
      var p := ps[t];
      AddCellwise(psi, nx, ny, (i, j) => Wave(m, cexp, lx, ly, dx, dy, p, i, j));
      assert ps[..t + 1][..t] == ps[..t];
      t := t + 1;
    }
    assert ps[..t] == ps;
  }

  // ----- the simulation object -----

  class Simulation {
    var nx: int
    var ny: int
    var lx: real
    var ly: real
    var dx: real
    var dy: real
    var dt: real
    var running: bool
    /** The wavefunction, updated in place by the solver and the injections. */
    var psi: array<Complex>
    /** The potential, rebuilt wholesale from pfield. */
    var V: seq<Complex>
    /** The scene the potential is built from. */
    var pfield: PotentialField
    /** The sources reset re-injects. */
    var packets: seq<Packet>
    /** exp and sqrt for the potential and the packets. */
    const libm: Libm
    /** The complex exponential of the kicks and the plane waves. */
    const cexp: Complex -> Complex

    /** The grid every operation keeps: at least 8 by 8 square cells, and
        psi and V of Nx * Ny cells. */
    ghost predicate Sized()
      reads this
    {
      nx >= 8 && ny >= 8 && SquareCells(nx, ny, lx, ly, dx, dy) &&
      psi.Length == nx * ny && |V| == nx * ny
    }

    /** The whole invariant: the grid, the scene on the same grid, and V
        built from the scene. */
    ghost predicate Valid()
      reads this
    {
      Sized() && SqrtPositive(libm) && OnGrid() && V == Field(libm, pfield)
    }

    /** The scene lies on the simulation's grid. */
    ghost predicate OnGrid()
      reads this
    {
      pfield.nx == nx && pfield.ny == ny && pfield.lx == lx && pfield.ly == ly
    }

    /** The solver's view of the grid. */
    function Grid(): Mesh
      reads this
    {
      Mesh(nx, ny, dx, dy, dt)
    }

    /** idx(i, j) = j * Nx + i: a cell of the grid has an index in the
        buffer, from which its column and row are read back. */
    function Index(i: int, j: int): (k: int)
      reads this
      requires nx >= 1 && 0 <= i < nx && 0 <= j < ny
      ensures 0 <= k < nx * ny && Col(k, nx) == i && Row(k, nx) == j
    {
      IdxInRange(i, j, nx, ny);
      ColRowOfIdx(i, j, nx);
      Idx(i, j, nx)
    }

    /** psi as reset leaves it: every packet injected onto zero. */
    ghost function Injected(ps: seq<Packet>): (r: seq<Complex>)
      reads this
      requires nx >= 1 && ny >= 1
      ensures |r| == nx * ny
    {
      var nx, ny, lx, ly, dx, dy := nx, ny, lx, ly, dx, dy;
      MulNonneg(nx, ny);
      seq(nx * ny, k requires 0 <= k < nx * ny => Waves(libm, cexp, lx, ly, dx, dy, ps, Col(k, nx), Row(k, nx)))
    }

    /** Simulation(): a 372 by 300 grid, dt = 1e-4, not running, the default
        scene (cap strength 1, cap ratio 0.1, no features) and no packets,
        then resize to the same size. */
    constructor (libm: Libm, cexp: Complex -> Complex)
      requires SqrtPositive(libm)
      ensures Valid() && fresh(psi)
      ensures nx == 372 && ny == 300 && dx == dy == 1.0 / 300.0 && lx == 1.24 && ly == 1.0
      ensures dt == 0.0001 && !running && packets == []
      ensures pfield == PotentialField(372, 300, 1.24, 1.0, 1.0, 0.1, [], [])
      ensures forall k :: 0 <= k < psi.Length ==> psi[k] == Zero
    {
      this.libm := libm;
      this.cexp := cexp;
      nx, ny := 372, 300;
      lx, ly := 1.0, 1.0;
      dx, dy := 1.0 / 372.0, 1.0 / 300.0;
      dt := 0.0001;
      running := false;
      psi := new Complex[0];
      V := [];
      pfield := PotentialField(128, 128, 1.0, 1.0, 1.0, 0.1, [], []);
      packets := [];
      new;
      Resize(372, 300);
    }

    /** resize: both sizes clamped to at least 8, square cells of side
        1 / min(Nx, Ny), psi and V reallocated, then reset. */
    method Resize(newNx: int, newNy: int)
      requires SqrtPositive(libm)
      modifies this
      ensures Valid() && fresh(psi)
      ensures nx == MaxInt(8, newNx) && ny == MaxInt(8, newNy)
      ensures dt == old(dt) && running == old(running) && packets == old(packets)
      ensures pfield == old(pfield).(nx := nx, ny := ny, lx := lx, ly := ly)
      ensures psi[..] == Injected(packets)
    {
      Reshape(newNx, newNy);
      Reset();
    }

    /** The first part of resize: the new sizes and spacings, a zeroed psi
        and V rebuilt on the new grid. */
    method Reshape(newNx: int, newNy: int)
      requires SqrtPositive(libm)
      modifies this`nx, this`ny, this`lx, this`ly, this`dx, this`dy, this`psi, this`pfield, this`V
      ensures Valid() && fresh(psi)
      ensures nx == MaxInt(8, newNx) && ny == MaxInt(8, newNy)
      ensures pfield == old(pfield).(nx := nx, ny := ny, lx := lx, ly := ly)
    {
      Regrid(newNx, newNy);
      MulNonneg(nx, ny);
      psi := new Complex[nx * ny](_ => Zero);
      pfield := pfield.(nx := nx, ny := ny, lx := lx, ly := ly);
      V := Build(libm, pfield);
    }

    /** The grid part of resize: Nx = max(8, newNx), Ny = max(8, newNy),
        cells of side 1 / max(8, min(Nx, Ny)), and the extents to match. */
    method Regrid(newNx: int, newNy: int)
      modifies this`nx, this`ny, this`lx, this`ly, this`dx, this`dy
      ensures nx == MaxInt(8, newNx) && ny == MaxInt(8, newNy)
      ensures SquareCells(nx, ny, lx, ly, dx, dy)
    {
      nx := MaxInt(8, newNx);
      ny := MaxInt(8, newNy);
      var minDim := MaxInt(8, MinInt(nx, ny));
      var cell := 1.0 / (minDim as real);
      CellPositive(minDim);
      lx := nx as real * cell;
      ly := ny as real * cell;
      dx := cell;
      dy := cell;
    }

    /** clearPsi: every cell of psi set to zero. */
    method ClearPsi()
      modifies psi
      ensures forall k :: 0 <= k < psi.Length ==> psi[k] == Zero
    {
      var k := 0;
      while k < psi.Length
        invariant 0 <= k <= psi.Length
        invariant forall t :: 0 <= t < k ==> psi[t] == Zero
      {
        psi[k] := Zero;
        k := k + 1;
      }
    }

    /** reset: psi cleared, V rebuilt from the scene on the current grid,
        then every packet re-injected in list order. The scene's features
        and the packets are kept. */
    method Reset()
      requires Sized() && SqrtPositive(libm)
      modifies this`pfield, this`V, psi
      ensures Valid()
      ensures pfield == old(pfield).(nx := nx, ny := ny, lx := lx, ly := ly)
      ensures V == Field(libm, pfield)
      ensures old(Valid()) ==> pfield == old(pfield) && V == old(V)
      ensures psi[..] == Injected(packets)
    {
      ClearPsi();
      pfield := pfield.(nx := nx, ny := ny, lx := lx, ly := ly);
      V := Build(libm, pfield);
      InjectAll(psi, nx, ny, libm, cexp, lx, ly, dx, dy, packets);
      forall k | 0 <= k < psi.Length
        ensures psi[k] == Injected(packets)[k]
      {
      }
    }

    /** injectGaussian: the packet's wave is added to every cell; nothing is
        overwritten. */
    method InjectGaussian(p: Packet)
      requires Sized()
      modifies psi
      ensures forall k :: 0 <= k < psi.Length ==>
        psi[k] == Add(old(psi[k]), Wave(libm, cexp, lx, ly, dx, dy, p, Col(k, nx), Row(k, nx)))
    {
      var lx, ly, dx, dy := lx, ly, dx, dy;
      AddCellwise(psi, nx, ny, (i, j) => Wave(libm, cexp, lx, ly, dx, dy, p, i, j));
    }

    /** addBox: the box is appended to the scene and V rebuilt from the
        whole scene; psi is untouched. When V was already built from the
        scene, each cell of V gains the box's height exactly where the box
        covers it. */
    method AddBox(b: Box)
      requires Sized() && SqrtPositive(libm) && OnGrid()
      modifies this`pfield, this`V
      ensures Valid() && V == Field(libm, pfield)
      ensures pfield == old(pfield).(boxes := old(pfield).boxes + [b])
      ensures old(Valid()) ==> forall k :: 0 <= k < |V| ==>
        V[k] == Add(old(V)[k], Complex(if Covers(BoxRect(b, nx, ny), Col(k, nx), Row(k, nx)) then b.height else 0.0, 0.0))
    {
      ghost var pf := pfield;
      pfield := pfield.(boxes := pfield.boxes + [b]);
      V := Build(libm, pfield);
      forall k | 0 <= k < |V| && old(Valid())
        ensures V[k] == Add(old(V)[k], Complex(if Covers(BoxRect(b, nx, ny), Col(k, nx), Row(k, nx)) then b.height else 0.0, 0.0))
      {
        FieldWithBox(libm, pf, b, k);
      }
    }

    /** addWell: the well is appended to the scene and V rebuilt from the
        whole scene; psi is untouched. When V was already built from the
        scene, each cell of V gains the well's contribution. */
    method AddWell(w: RadialWell)
      requires Sized() && SqrtPositive(libm) && OnGrid()
      modifies this`pfield, this`V
      ensures Valid() && V == Field(libm, pfield)
      ensures pfield == old(pfield).(wells := old(pfield).wells + [w])
      ensures old(Valid()) ==> forall k :: 0 <= k < |V| ==>
        V[k] == Add(old(V)[k], Complex(WellAt(libm, old(pfield), w, Col(k, nx), Row(k, nx)), 0.0))
    {
      ghost var pf := pfield;
      pfield := pfield.(wells := pfield.wells + [w]);
      V := Build(libm, pfield);
      forall k | 0 <= k < |V| && old(Valid())
        ensures V[k] == Add(old(V)[k], Complex(WellAt(libm, pf, w, Col(k, nx), Row(k, nx)), 0.0))
      {
        FieldWithWell(libm, pf, w, k);
      }
    }

    /** step: one Crank-Nicolson ADI step of psi under V. */
    method Step()
      requires Sized()
      modifies psi
      ensures psi[..] == Stepped(cexp, Grid(), old(psi[..]), V)
    {
      Adi.Step(cexp, psi, Grid(), V);
    }

    /** stepN: n steps; none when n <= 0. */
    method StepN(n: int)
      requires Sized()
      modifies psi
      ensures psi[..] == Iterate(StepOf(cexp, Grid(), V), old(psi[..]), n)
    {
      var k := 0;
      while k < n
        invariant 0 <= k && (k <= n || k == 0)
        invariant psi[..] == Iterate(StepOf(cexp, Grid(), V), old(psi[..]), k)
      {
        ghost var before := psi[..];
        Step();
        assert Fits(Grid(), before, V);
        k := k + 1;
      }
    }

    /** mass: the sum of |psi|^2 over the grid times dx dy, never negative. */
    method Mass() returns (mass: real)
      requires Sized()
      ensures mass == NormSum(psi[..]) * dx * dy
      ensures mass >= 0.0
    {
      var sum := SumNorms(psi);
      mass := sum * dx * dy;
      NormSumNonneg(psi[..]);
      NonnegProduct(sum, dx, dy);
    }

    /** mass_split: column i counts on the left exactly when i < Nx / 2;
        the two sides add up to the mass. */
    method MassSplit() returns (left: real, right: real)
      requires Sized()
      ensures left == SideMass(psi[..], nx, nx / 2, true, dx, dy)
      ensures right == SideMass(psi[..], nx, nx / 2, false, dx, dy)
      ensures left + right == NormSum(psi[..]) * dx * dy
      ensures left >= 0.0 && right >= 0.0
    {
      var mid := nx / 2;
      left, right := SplitMass(psi, nx, ny, mid, dx, dy);
      SidesMakeMass(psi[..], nx, mid, dx, dy);
      SideMassNonneg(psi[..], nx, mid, true, dx, dy);
      SideMassNonneg(psi[..], nx, mid, false, dx, dy);
    }
  }
}
