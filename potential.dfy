/** PotentialField::build: the complex potential V on the Nx by Ny grid, the
    sum of rectangular boxes, radial wells and an absorbing boundary sponge
    (the negative imaginary part). */
module Potential {
  import opened Complex
  import opened Grid
  import opened Numeric

  /** A rectangle in normalised [0,1] screen coordinates with a real height. */
  datatype Box = Box(x0: real, y0: real, x1: real, y1: real, height: real)

  datatype Profile = Gaussian | SoftCoulomb | InverseSquare | HarmonicOscillator

  /** A smooth radial feature centred at (cx, cy) in normalised coordinates. */
  datatype RadialWell = RadialWell(cx: real, cy: real, strength: real, radius: real, profile: Profile)

  /** The inputs of build: grid size, physical extents, sponge parameters
      and the static features. */
  datatype PotentialField = PotentialField(
    nx: int, ny: int, lx: real, ly: real,
    capStrength: real, capRatio: real,
    boxes: seq<Box>, wells: seq<RadialWell>)

  /** The two libm functions build calls, supplied by the caller. */
  datatype Libm = Libm(exp: real -> real, sqrt: real -> real)

  /** The square root of a positive number is positive. */
  ghost predicate SqrtPositive(m: Libm) {
    forall t :: t > 0.0 ==> m.sqrt(t) > 0.0
  }

  /** exp is positive everywhere and at most 1 on the non-positive axis. */
  ghost predicate ExpBounded(m: Libm) {
    forall t :: 0.0 < m.exp(t) && (t <= 0.0 ==> m.exp(t) <= 1.0)
  }

  /** A grid build can index: at least one cell in each direction. */
  predicate Buildable(pf: PotentialField) {
    pf.nx >= 1 && pf.ny >= 1
  }

  // ----- boxes -----

  /** An inclusive rectangle of cell indices. */
  datatype Rect = Rect(i0: int, i1: int, j0: int, j1: int)

  /** floor(t * n) clamped to [0, n - 1]. */
  function CellIndex(t: real, n: int): int {
    MaxInt(0, MinInt(n - 1, (t * n as real).Floor))
  }

  /** The cells a box covers: both corners clamped into the grid, then
      swapped when they come in the wrong order. */
  function BoxRect(b: Box, nx: int, ny: int): Rect {
    var ix0, ix1 := CellIndex(b.x0, nx), CellIndex(b.x1, nx);
    var iy0, iy1 := CellIndex(b.y0, ny), CellIndex(b.y1, ny);
    var (i0, i1) := if ix1 < ix0 then (ix1, ix0) else (ix0, ix1);
    var (j0, j1) := if iy1 < iy0 then (iy1, iy0) else (iy0, iy1);
    Rect(i0, i1, j0, j1)
  }

  predicate Covers(r: Rect, i: int, j: int) {
    r.i0 <= i <= r.i1 && r.j0 <= j <= r.j1
  }

  /** The real potential the boxes bs put on cell (i, j). */
  function BoxesAt(bs: seq<Box>, nx: int, ny: int, i: int, j: int): real
    decreases |bs|
  {
    if |bs| == 0 then 0.0
    else
      var b := bs[|bs| - 1];
      BoxesAt(bs[..|bs| - 1], nx, ny, i, j) + (if Covers(BoxRect(b, nx, ny), i, j) then b.height else 0.0)
  }

  // ----- wells -----

  /** The physical length scale of a well, floored at 1e-4. */
  function R0(w: RadialWell, minLength: real): real {
    MaxReal(0.0001, w.radius * minLength)
  }

  /** The physical coordinate of the centre of cell i of n across length l. */
  function CellCentre(i: int, n: int, l: real): real
    requires n >= 1
  {
    (i as real + 0.5) * (l / n as real)
  }

  /** The contribution of one well profile at squared distance r2. The
      profile switch has no HarmonicOscillator case, so such a well adds 0. */
  function Contribution(m: Libm, p: Profile, strength: real, r2: real, r0sq: real): real
    requires SqrtPositive(m) && r2 >= 0.0 && r0sq > 0.0
  {
    match p
    case Gaussian => strength * m.exp(-(r2 / r0sq))
    case SoftCoulomb => strength / m.sqrt(r2 + r0sq)
    case InverseSquare => strength / (r2 + r0sq)
    case HarmonicOscillator => 0.0
  }

  lemma R0Positive(w: RadialWell, minLength: real)
    ensures R0(w, minLength) >= 0.0001
    ensures Square(R0(w, minLength)) > 0.0
  {
    SquarePositive(R0(w, minLength));
  }

  /** The squared physical distance from the centre of cell (i, j) to the
      centre of well w. */
  function DistSq(pf: PotentialField, w: RadialWell, i: int, j: int): (r2: real)
    requires Buildable(pf)
    ensures r2 >= 0.0
  {
    var dx := CellCentre(i, pf.nx, pf.lx) - w.cx * pf.lx;
    var dy := CellCentre(j, pf.ny, pf.ly) - w.cy * pf.ly;
    SquareNonneg(dx);
    SquareNonneg(dy);
    Square(dx) + Square(dy)
  }

  /** The real potential well w puts on cell (i, j). */
  function WellAt(m: Libm, pf: PotentialField, w: RadialWell, i: int, j: int): real
    requires SqrtPositive(m) && Buildable(pf)
  {
    R0Positive(w, MinReal(pf.lx, pf.ly));
    Contribution(m, w.profile, w.strength, DistSq(pf, w, i, j), Square(R0(w, MinReal(pf.lx, pf.ly))))
  }

  /** The real potential the wells ws put on cell (i, j). */
  function WellsAt(m: Libm, pf: PotentialField, ws: seq<RadialWell>, i: int, j: int): real
    requires SqrtPositive(m) && Buildable(pf)
    decreases |ws|
  {
    if |ws| == 0 then 0.0
    else WellsAt(m, pf, ws[..|ws| - 1], i, j) + WellAt(m, pf, ws[|ws| - 1], i, j)
  }

  // ----- absorbing sponge -----

  /** The sponge width in cells: round(ratio * n), at least 1. */
  function BandWidth(ratio: real, n: int): int {
    MaxInt(1, RoundHalfAway(ratio * n as real))
  }

  /** How deep cell i lies in the sponge band of width w along an axis of n
      cells: 1 at either edge, falling linearly to 0 at the inner boundary. */
  function Proximity(i: int, n: int, w: int): real
    requires w >= 1
  {
    if i < w then (w - i) as real / w as real
    else if i >= n - w then (i - (n - w - 1)) as real / w as real
    else 0.0
  }

  /** The smoothstep ramp s^2 (3 - 2s). */
  function Smoothstep(s: real): real {
    Square(s) * (3.0 - 2.0 * s)
  }

  /** The larger of the two axis proximities of cell (i, j). */
  function SpongeDepth(pf: PotentialField, i: int, j: int): real {
    var wx := BandWidth(pf.capRatio, pf.nx);
    var wy := BandWidth(pf.capRatio, pf.ny);
    MaxReal(Proximity(i, pf.nx, wx), Proximity(j, pf.ny, wy))
  }

  /** The absorption subtracted from the imaginary part of V at cell (i, j). */
  function Absorb(pf: PotentialField, i: int, j: int): real {
    Ramp(pf.capStrength, SpongeDepth(pf, i, j))
  }

  /** The absorption at depth s: cap_strength * smoothstep(s)^2 where s is
      positive, nothing elsewhere. */
  function Ramp(c: real, s: real): real {
    if s > 0.0 then c * Square(Smoothstep(s)) else 0.0
  }

  // ----- the whole field -----

  /** What the box pass adds to cell (i, j). */
  function BoxLayer(pf: PotentialField, i: int, j: int): Complex {
    Complex(BoxesAt(pf.boxes, pf.nx, pf.ny, i, j), 0.0)
  }

  /** What the well pass adds to cell (i, j). */
  function WellLayer(m: Libm, pf: PotentialField, i: int, j: int): Complex
    requires SqrtPositive(m) && Buildable(pf)
  {
    Complex(WellsAt(m, pf, pf.wells, i, j), 0.0)
  }

  /** What the sponge pass adds to cell (i, j). */
  function CapLayer(pf: PotentialField, i: int, j: int): Complex {
    Complex(0.0, -Absorb(pf, i, j))
  }

  /** The value build leaves at cell (i, j): zero plus the three passes. */
  function CellPotential(m: Libm, pf: PotentialField, i: int, j: int): Complex
    requires SqrtPositive(m) && Buildable(pf)
  {
    Add(Add(Add(Zero, BoxLayer(pf, i, j)), WellLayer(m, pf, i, j)), CapLayer(pf, i, j))
  }

  /** The whole field V, in row-major order. */
  function Field(m: Libm, pf: PotentialField): (V: seq<Complex>)
    requires SqrtPositive(m) && Buildable(pf)
    ensures |V| == pf.nx * pf.ny
  {
    MulNonneg(pf.nx, pf.ny);
    seq(pf.nx * pf.ny, k requires 0 <= k < pf.nx * pf.ny => CellPotential(m, pf, Col(k, pf.nx), Row(k, pf.nx)))
  }

  // ----- build -----

  /** PotentialField::build: V is replaced by a zeroed field of Nx * Ny
      cells, then boxes, wells and the sponge are added in that order. */
  method Build(m: Libm, pf: PotentialField) returns (V: seq<Complex>)
    requires SqrtPositive(m) && Buildable(pf)
    ensures V == Field(m, pf)
  {
    hide BoxesAt, WellsAt, Absorb;
    MulNonneg(pf.nx, pf.ny);
    var v := new Complex[pf.nx * pf.ny](_ => Zero);
    ghost var v0 := v[..];
    AddBoxes(pf, v);
    ghost var v1 := v[..];
    AddWells(m, pf, v);
    ghost var v2 := v[..];
    AddCap(pf, v);
    V := v[..];
    forall k | 0 <= k < |V|
      ensures V[k] == Field(m, pf)[k]
    {
      assert v0[k] == Zero;
    }
  }

  /** Every box, in order, adds its height to the cells it covers. */
  method AddBoxes(pf: PotentialField, v: array<Complex>)
    requires Buildable(pf) && v.Length == pf.nx * pf.ny
    modifies v
    ensures forall k :: 0 <= k < v.Length ==>
      v[k] == Add(old(v[k]), BoxLayer(pf, Col(k, pf.nx), Row(k, pf.nx)))
  {
    var n := 0;
    while n < |pf.boxes|
      invariant 0 <= n <= |pf.boxes|
      invariant forall k :: 0 <= k < v.Length ==>
        v[k] == Add(old(v[k]), Complex(BoxesAt(pf.boxes[..n], pf.nx, pf.ny, Col(k, pf.nx), Row(k, pf.nx)), 0.0))
    {
      assert pf.boxes[..n + 1][..n] == pf.boxes[..n];
      AddBox(pf.nx, pf.ny, pf.boxes[n], v);
      n := n + 1;
    }
    assert pf.boxes[..n] == pf.boxes;
  }

  /** One box: clamp, order, then add the height over the inclusive
      rectangle, row by row. */
  method AddBox(nx: int, ny: int, b: Box, v: array<Complex>)
    requires nx >= 1 && ny >= 1 && v.Length == nx * ny
    modifies v
    ensures forall k :: 0 <= k < v.Length ==>
      v[k] == if Covers(BoxRect(b, nx, ny), Col(k, nx), Row(k, nx)) then Add(old(v[k]), Complex(b.height, 0.0)) else old(v[k])
  {
    var ix0 := CellIndex(b.x0, nx);
    var ix1 := CellIndex(b.x1, nx);
    var iy0 := CellIndex(b.y0, ny);
    var iy1 := CellIndex(b.y1, ny);
    if ix1 < ix0 {
      ix0, ix1 := ix1, ix0;
    }
    if iy1 < iy0 {
      iy0, iy1 := iy1, iy0;
    }
    ghost var r := Rect(ix0, ix1, iy0, iy1);
    assert r == BoxRect(b, nx, ny);
    var j := iy0;
    while j <= iy1
      invariant iy0 <= j <= iy1 + 1
      invariant forall k :: 0 <= k < v.Length ==>
        v[k] == if ix0 <= Col(k, nx) <= ix1 && iy0 <= Row(k, nx) < j then Add(old(v[k]), Complex(b.height, 0.0)) else old(v[k])
    {
      IdxInRange(ix1, j, nx, ny);
      ghost var c := Idx(ix0, j, nx);
      var i := ix0;
      while i <= ix1
        invariant ix0 <= i <= ix1 + 1 && c == Idx(i, j, nx)
        invariant forall k :: 0 <= k < v.Length ==>
          v[k] == if (ix0 <= Col(k, nx) <= ix1 && iy0 <= Row(k, nx) < j) || Idx(ix0, j, nx) <= k < c
                  then Add(old(v[k]), Complex(b.height, 0.0)) else old(v[k])
      {
        IdxInRange(i, j, nx, ny);
        ColRowOfIdx(i, j, nx);
        v[Idx(i, j, nx)] := Add(v[Idx(i, j, nx)], Complex(b.height, 0.0));
        i, c := i + 1, c + 1;
      }
      forall k | 0 <= k < v.Length
        ensures Idx(ix0, j, nx) <= k < c <==> Row(k, nx) == j && ix0 <= Col(k, nx) <= ix1
      {
        InRowSpan(k, j, ix0, ix1, nx);
      }
      j := j + 1;
    }
  }

  /** Every well, in order, adds its contribution to every cell. */
  method AddWells(m: Libm, pf: PotentialField, v: array<Complex>)
    requires SqrtPositive(m) && Buildable(pf) && v.Length == pf.nx * pf.ny
    modifies v
    ensures forall k :: 0 <= k < v.Length ==>
      v[k] == Add(old(v[k]), WellLayer(m, pf, Col(k, pf.nx), Row(k, pf.nx)))
  {
    var n := 0;
    while n < |pf.wells|
      invariant 0 <= n <= |pf.wells|
      invariant forall k :: 0 <= k < v.Length ==>
        v[k] == Add(old(v[k]), Complex(WellsAt(m, pf, pf.wells[..n], Col(k, pf.nx), Row(k, pf.nx)), 0.0))
    {
      assert pf.wells[..n + 1][..n] == pf.wells[..n];
      AddWell(m, pf, pf.wells[n], v);
      n := n + 1;
    }
    assert pf.wells[..n] == pf.wells;
  }

  /** One well over the whole grid: potential.cpp:37-62. */
  method AddWell(m: Libm, pf: PotentialField, w: RadialWell, v: array<Complex>)
    requires SqrtPositive(m) && Buildable(pf) && v.Length == pf.nx * pf.ny
    modifies v
    ensures forall k :: 0 <= k < v.Length ==>
      v[k] == Add(old(v[k]), Complex(WellAt(m, pf, w, Col(k, pf.nx), Row(k, pf.nx)), 0.0))
  {
    AddCellwise(v, pf.nx, pf.ny, (i, j) => Complex(WellAt(m, pf, w, i, j), 0.0));
  }

  /** The sponge over the whole grid: cells of positive depth lose
      cap_strength * ramp^2 from their imaginary part, the others get 0 added. */
  method AddCap(pf: PotentialField, v: array<Complex>)
    requires Buildable(pf) && v.Length == pf.nx * pf.ny
    modifies v
    ensures forall k :: 0 <= k < v.Length ==>
      v[k] == Add(old(v[k]), CapLayer(pf, Col(k, pf.nx), Row(k, pf.nx)))
  {
    AddCellwise(v, pf.nx, pf.ny, (i, j) => CapLayer(pf, i, j));
  }

  /** The row-major double loop over the grid, j outer and i inner, adding
      f(i, j) to cell idx(i, j); c counts the cells done so far. */
  method AddCellwise(v: array<Complex>, nx: int, ny: int, f: (int, int) -> Complex)
    requires nx >= 1 && ny >= 1 && v.Length == nx * ny
    modifies v
    ensures forall k :: 0 <= k < v.Length ==> v[k] == Add(old(v[k]), f(Col(k, nx), Row(k, nx)))
  {
    ghost var c := 0;
    var j := 0;
    while j < ny
      invariant 0 <= j <= ny && c == Idx(0, j, nx)
      invariant forall k :: 0 <= k < c ==> v[k] == Add(old(v[k]), f(Col(k, nx), Row(k, nx)))
      invariant forall k :: c <= k < v.Length ==> v[k] == old(v[k])
    {
      IdxInRange(nx - 1, j, nx, ny);
      var i := 0;
      while i < nx
        invariant 0 <= i <= nx && c == Idx(i, j, nx)
        invariant forall k :: 0 <= k < c ==> v[k] == Add(old(v[k]), f(Col(k, nx), Row(k, nx)))
        invariant forall k :: c <= k < v.Length ==> v[k] == old(v[k])
      {
        IdxInRange(i, j, nx, ny);
        ColRowOfIdx(i, j, nx);
        v[Idx(i, j, nx)] := Add(v[Idx(i, j, nx)], f(i, j));
        i, c := i + 1, c + 1;
      }
      IdxNextRow(j, nx);
      j := j + 1;
    }
    IdxEnd(nx, ny);
  }

  // ----- properties -----

  /** The real part of a cell is the sum of its box and well potentials, the
      imaginary part the negated absorption. */
  lemma CellPotentialParts(m: Libm, pf: PotentialField, i: int, j: int)
    requires SqrtPositive(m) && Buildable(pf)
    ensures CellPotential(m, pf, i, j).re == BoxesAt(pf.boxes, pf.nx, pf.ny, i, j) + WellsAt(m, pf, pf.wells, i, j)
    ensures CellPotential(m, pf, i, j).im == -Absorb(pf, i, j)
  {}

  /** Clamping and ordering leave a non-empty rectangle inside the grid. */
  lemma BoxRectInGrid(b: Box, nx: int, ny: int)
    requires nx >= 1 && ny >= 1
    ensures var r := BoxRect(b, nx, ny);
            0 <= r.i0 <= r.i1 < nx && 0 <= r.j0 <= r.j1 < ny
  {}

  /** A box whose corners lie inside the unit square in order is neither
      clamped nor swapped: it covers the cells from floor(x0 Nx) to
      floor(x1 Nx) and from floor(y0 Ny) to floor(y1 Ny). */
  lemma BoxRectOrdered(b: Box, nx: int, ny: int)
    requires nx >= 1 && ny >= 1
    requires 0.0 <= b.x0 <= b.x1 < 1.0 && 0.0 <= b.y0 <= b.y1 < 1.0
    ensures BoxRect(b, nx, ny) == Rect((b.x0 * nx as real).Floor, (b.x1 * nx as real).Floor,
                                       (b.y0 * ny as real).Floor, (b.y1 * ny as real).Floor)
  {
    CellIndexOfUnit(b.x0, b.x1, nx);
    CellIndexOfUnit(b.y0, b.y1, ny);
  }

  /** For 0 <= t0 <= t1 < 1 the clamp does nothing and the cells are in order. */
  lemma CellIndexOfUnit(t0: real, t1: real, n: int)
    requires n >= 1 && 0.0 <= t0 <= t1 < 1.0
    ensures CellIndex(t0, n) == (t0 * n as real).Floor
    ensures CellIndex(t1, n) == (t1 * n as real).Floor
    ensures CellIndex(t0, n) <= CellIndex(t1, n)
  {
    FloorOfUnit(t0, t1, n);
  }

  lemma FloorOfUnit(t0: real, t1: real, n: int)
    requires n >= 1 && 0.0 <= t0 <= t1 < 1.0
    ensures 0 <= (t0 * n as real).Floor <= (t1 * n as real).Floor <= n - 1
  {
    var a, b := t0 * n as real, t1 * n as real;
    assert b - a == (t1 - t0) * n as real;
    assert n as real - b == (1.0 - t1) * n as real;
  }

  /** Boxes add up: the potential of two box lists is the sum of theirs. */
  lemma {:induction false} BoxesAppend(bs: seq<Box>, cs: seq<Box>, nx: int, ny: int, i: int, j: int)
    ensures BoxesAt(bs + cs, nx, ny, i, j) == BoxesAt(bs, nx, ny, i, j) + BoxesAt(cs, nx, ny, i, j)
    decreases |cs|
  {
    if |cs| == 0 {
      assert bs + cs == bs;
    } else {
      var cs' := cs[..|cs| - 1];
      assert (bs + cs)[..|bs + cs| - 1] == bs + cs';
      BoxesAppend(bs, cs', nx, ny, i, j);
    }
  }

  /** Wells add up in the same way. */
  lemma {:induction false} WellsAppend(m: Libm, pf: PotentialField, ws: seq<RadialWell>, us: seq<RadialWell>, i: int, j: int)
    requires SqrtPositive(m) && Buildable(pf)
    ensures WellsAt(m, pf, ws + us, i, j) == WellsAt(m, pf, ws, i, j) + WellsAt(m, pf, us, i, j)
    decreases |us|
  {
    if |us| == 0 {
      assert ws + us == ws;
    } else {
      var us' := us[..|us| - 1];
      assert (ws + us)[..|ws + us| - 1] == ws + us';
      WellsAppend(m, pf, ws, us', i, j);
    }
  }

  /** Adding one box to the scene adds its height on the cells it covers
      and leaves every other cell of V as it was. */
  lemma FieldWithBox(m: Libm, pf: PotentialField, b: Box, k: int)
    requires SqrtPositive(m) && Buildable(pf) && 0 <= k < pf.nx * pf.ny
    ensures var pf' := pf.(boxes := pf.boxes + [b]);
            var i, j := Col(k, pf.nx), Row(k, pf.nx);
            Field(m, pf')[k] == Add(Field(m, pf)[k], Complex(if Covers(BoxRect(b, pf.nx, pf.ny), i, j) then b.height else 0.0, 0.0))
  {
    var pf' := pf.(boxes := pf.boxes + [b]);
    var i, j := Col(k, pf.nx), Row(k, pf.nx);
    assert (pf.boxes + [b])[..|pf.boxes|] == pf.boxes;
    assert WellsAt(m, pf', pf.wells, i, j) == WellsAt(m, pf, pf.wells, i, j) by {
      WellsIgnoreBoxes(m, pf, pf', pf.wells, i, j);
    }
  }

  /** Adding one well to the scene adds its contribution to every cell. */
  lemma FieldWithWell(m: Libm, pf: PotentialField, w: RadialWell, k: int)
    requires SqrtPositive(m) && Buildable(pf) && 0 <= k < pf.nx * pf.ny
    ensures var pf' := pf.(wells := pf.wells + [w]);
            Field(m, pf')[k] == Add(Field(m, pf)[k], Complex(WellAt(m, pf, w, Col(k, pf.nx), Row(k, pf.nx)), 0.0))
  {
    var pf' := pf.(wells := pf.wells + [w]);
    var i, j := Col(k, pf.nx), Row(k, pf.nx);
    CellWithWell(m, pf, w, i, j);
    hide CellPotential, WellAt;
    assert Field(m, pf')[k] == CellPotential(m, pf', i, j);
    assert Field(m, pf)[k] == CellPotential(m, pf, i, j);
  }

  /** Cell by cell: the new well adds its real contribution to the cell's
      value and the box and sponge passes are untouched. */
  lemma CellWithWell(m: Libm, pf: PotentialField, w: RadialWell, i: int, j: int)
    requires SqrtPositive(m) && Buildable(pf)
    ensures var pf' := pf.(wells := pf.wells + [w]);
            CellPotential(m, pf', i, j) == Add(CellPotential(m, pf, i, j), Complex(WellAt(m, pf, w, i, j), 0.0))
  {
    hide WellsAt, Absorb, BoxesAt;
    var pf' := pf.(wells := pf.wells + [w]);
    WellsWithWell(m, pf, w, i, j);
    AbsorbIgnoresFeatures(pf, pf', i, j);
  }

  /** The well pass over the extended list is the old pass plus the new well. */
  lemma WellsWithWell(m: Libm, pf: PotentialField, w: RadialWell, i: int, j: int)
    requires SqrtPositive(m) && Buildable(pf)
    ensures var pf' := pf.(wells := pf.wells + [w]);
            WellsAt(m, pf', pf'.wells, i, j) == WellsAt(m, pf, pf.wells, i, j) + WellAt(m, pf, w, i, j)
  {
    var pf' := pf.(wells := pf.wells + [w]);
    hide WellAt;
    assert (pf.wells + [w])[..|pf.wells|] == pf.wells;
    WellsIgnoreBoxes(m, pf, pf', pf.wells, i, j);
    WellIgnoresScene(m, pf, pf', w, i, j);
  }

  /** The sponge depends on the grid and the sponge settings alone, not on
      the boxes and wells of the scene. */
  lemma AbsorbIgnoresFeatures(pf: PotentialField, pf': PotentialField, i: int, j: int)
    requires pf'.nx == pf.nx && pf'.ny == pf.ny
    requires pf'.capRatio == pf.capRatio && pf'.capStrength == pf.capStrength
    ensures Absorb(pf', i, j) == Absorb(pf, i, j)
  {
    hide Proximity, BandWidth, MaxReal, Ramp;
  }

  /** A well's contribution depends on the grid, the extents and the well
      alone, not on the other features of the scene. */
  lemma {:induction false} WellsIgnoreBoxes(m: Libm, pf: PotentialField, pf': PotentialField, ws: seq<RadialWell>, i: int, j: int)
    requires SqrtPositive(m) && Buildable(pf)
    requires pf'.nx == pf.nx && pf'.ny == pf.ny && pf'.lx == pf.lx && pf'.ly == pf.ly
    ensures WellsAt(m, pf', ws, i, j) == WellsAt(m, pf, ws, i, j)
    decreases |ws|
  {
    if |ws| > 0 {
      WellsIgnoreBoxes(m, pf, pf', ws[..|ws| - 1], i, j);
      WellIgnoresScene(m, pf, pf', ws[|ws| - 1], i, j);
    }
  }

  lemma WellIgnoresScene(m: Libm, pf: PotentialField, pf': PotentialField, w: RadialWell, i: int, j: int)
    requires SqrtPositive(m) && Buildable(pf)
    requires pf'.nx == pf.nx && pf'.ny == pf.ny && pf'.lx == pf.lx && pf'.ly == pf.ly
    ensures WellAt(m, pf', w, i, j) == WellAt(m, pf, w, i, j)
  {
    assert DistSq(pf', w, i, j) == DistSq(pf, w, i, j);
    assert MinReal(pf'.lx, pf'.ly) == MinReal(pf.lx, pf.ly);
  }

  /** The profile switch has no HarmonicOscillator case: such a well adds
      nothing anywhere. */
  lemma HarmonicAddsNothing(m: Libm, pf: PotentialField, w: RadialWell, i: int, j: int)
    requires SqrtPositive(m) && Buildable(pf) && w.profile == HarmonicOscillator
    ensures WellAt(m, pf, w, i, j) == 0.0
  {}

  /** Every well has the sign of its strength: attractive wells (negative
      strength) lower the potential, barriers raise it. */
  lemma WellSign(m: Libm, pf: PotentialField, w: RadialWell, i: int, j: int)
    requires SqrtPositive(m) && ExpBounded(m) && Buildable(pf)
    ensures w.strength >= 0.0 ==> WellAt(m, pf, w, i, j) >= 0.0
    ensures w.strength <= 0.0 ==> WellAt(m, pf, w, i, j) <= 0.0
  {
    R0Positive(w, MinReal(pf.lx, pf.ly));
    ContributionSign(m, w.profile, w.strength, DistSq(pf, w, i, j), Square(R0(w, MinReal(pf.lx, pf.ly))));
  }

  lemma ContributionSign(m: Libm, p: Profile, strength: real, r2: real, r0sq: real)
    requires SqrtPositive(m) && ExpBounded(m) && r2 >= 0.0 && r0sq > 0.0
    ensures strength >= 0.0 ==> Contribution(m, p, strength, r2, r0sq) >= 0.0
    ensures strength <= 0.0 ==> Contribution(m, p, strength, r2, r0sq) <= 0.0
  {
    match p
    case Gaussian =>
      var e := m.exp(-(r2 / r0sq));
      assert e > 0.0;
      SignOfProduct(strength, e);
    case SoftCoulomb =>
      var q := m.sqrt(r2 + r0sq);
      assert q > 0.0;
      SignOfQuotient(strength, q);
    case InverseSquare =>
      SignOfQuotient(strength, r2 + r0sq);
    case HarmonicOscillator =>
  }

  lemma SignOfProduct(a: real, e: real)
    requires e > 0.0
    ensures a >= 0.0 ==> a * e >= 0.0
    ensures a <= 0.0 ==> a * e <= 0.0
  {}

  lemma SignOfQuotient(a: real, q: real)
    requires q > 0.0
    ensures a >= 0.0 ==> a / q >= 0.0
    ensures a <= 0.0 ==> a / q <= 0.0
  {}

  /** A Gaussian well never exceeds its peak strength in magnitude, and an
      inverse-square well never exceeds strength / r0^2: the 1e-4 floor on
      r0 keeps both finite at the centre. */
  lemma WellBounded(m: Libm, pf: PotentialField, w: RadialWell, i: int, j: int)
    requires SqrtPositive(m) && ExpBounded(m) && Buildable(pf) && w.strength >= 0.0
    ensures w.profile == Gaussian ==> WellAt(m, pf, w, i, j) <= w.strength
    ensures w.profile == InverseSquare ==>
              WellAt(m, pf, w, i, j) <= w.strength / Square(R0(w, MinReal(pf.lx, pf.ly)))
  {
    R0Positive(w, MinReal(pf.lx, pf.ly));
    ContributionBounded(m, w.profile, w.strength, DistSq(pf, w, i, j), Square(R0(w, MinReal(pf.lx, pf.ly))));
  }

  lemma ContributionBounded(m: Libm, p: Profile, strength: real, r2: real, r0sq: real)
    requires SqrtPositive(m) && ExpBounded(m) && r2 >= 0.0 && r0sq > 0.0 && strength >= 0.0
    ensures p == Gaussian ==> Contribution(m, p, strength, r2, r0sq) <= strength
    ensures p == InverseSquare ==> Contribution(m, p, strength, r2, r0sq) <= strength / r0sq
  {
    if p == Gaussian {
      var t := r2 / r0sq;
      assert t >= 0.0;
      ScaleAtMostOne(strength, m.exp(-t));
    } else if p == InverseSquare {
      QuotientShrinks(strength, r0sq, r2 + r0sq);
    }
  }

  lemma ScaleAtMostOne(a: real, e: real)
    requires a >= 0.0 && 0.0 < e <= 1.0
    ensures a * e <= a
  {}

  lemma QuotientShrinks(a: real, q: real, q': real)
    requires a >= 0.0 && 0.0 < q <= q'
    ensures a / q' <= a / q
  {
    assert a / q' * q' == a;
    assert a / q * q == a;
  }

  /** The sponge is at least one cell wide on each axis. */
  lemma BandWidthPositive(ratio: real, n: int)
    ensures BandWidth(ratio, n) >= 1
    ensures ratio * n as real >= 0.5 ==> BandWidth(ratio, n) == RoundHalfAway(ratio * n as real)
  {}

  /** Proximity lies in (0, 1] inside the band, is 0 strictly between the two
      bands, is 1 on the first cell and, when the band is narrower than the
      grid, 1 on the last cell too (the bands may overlap). */
  lemma ProximityRange(i: int, n: int, w: int)
    requires w >= 1 && 0 <= i < n
    ensures 0.0 <= Proximity(i, n, w) <= 1.0
    ensures (i < w || i >= n - w) <==> Proximity(i, n, w) > 0.0
    ensures Proximity(0, n, w) == 1.0
    ensures w < n ==> Proximity(n - 1, n, w) == 1.0
  {
    ProximityWalls(n, w);
    if i < w {
      UnitFraction(w - i, w);
    } else if i >= n - w {
      UnitFraction(i - (n - w - 1), w);
    }
  }

  /** When the band is as wide as the grid or wider, the last cell is reached
      from the lower band only: its depth is (w - n + 1) / w, short of 1 as
      soon as the grid has two cells, so the upper wall is not fully
      absorbing. */
  lemma ProximityWideBand(n: int, w: int)
    requires 1 <= n <= w
    ensures Proximity(n - 1, n, w) == (w - n + 1) as real / w as real
    ensures 2 <= n ==> Proximity(n - 1, n, w) < 1.0
  {
    if 2 <= n {
      QuotientMonotone((w - n + 1) as real, w as real, w as real);
    }
  }

  /** Both walls sit at depth w / w = 1 when the band fits inside the grid. */
  lemma ProximityWalls(n: int, w: int)
    requires w >= 1
    ensures Proximity(0, n, w) == 1.0
    ensures w < n ==> Proximity(n - 1, n, w) == 1.0
  {
    UnitFraction(w, w);
  }

  lemma UnitFraction(a: int, w: int)
    requires 1 <= a <= w
    ensures 0.0 < a as real / w as real <= 1.0
    ensures a == w ==> a as real / w as real == 1.0
  {}

  /** On the lower band proximity falls strictly cell by cell, and it never
      rises again before the upper band begins. */
  lemma ProximityFalls(i: int, i': int, n: int, w: int)
    requires w >= 1 && 0 <= i <= i' < n - w
    ensures Proximity(i', n, w) <= Proximity(i, n, w)
    ensures i < i' < w ==> Proximity(i', n, w) < Proximity(i, n, w)
  {
    if i' < w {
      assert (w - i') as real <= (w - i) as real;
      QuotientMonotone((w - i') as real, (w - i) as real, w as real);
    } else {
      ProximityRange(i, n, w);
    }
  }

  lemma QuotientMonotone(a: real, b: real, q: real)
    requires q > 0.0 && a <= b
    ensures a / q <= b / q
    ensures a < b ==> a / q < b / q
  {}

  /** When the two bands do not overlap, the profile is mirror symmetric. */
  lemma ProximityMirror(i: int, n: int, w: int)
    requires w >= 1 && 2 * w <= n && 0 <= i < n
    ensures Proximity(n - 1 - i, n, w) == Proximity(i, n, w)
  {}

  /** The smoothstep ramp maps [0, 1] into [0, 1]. */
  lemma SmoothstepRange(s: real)
    requires 0.0 <= s <= 1.0
    ensures 0.0 <= Smoothstep(s) <= 1.0
    ensures s > 0.0 ==> Smoothstep(s) > 0.0
  {
    SquareNonneg(s);
    SmoothstepComplement(s);
    SquareNonneg(1.0 - s);
    ScaleNonneg(Square(1.0 - s), 1.0 + 2.0 * s);
    ScaleNonneg(Square(s), 3.0 - 2.0 * s);
    if s > 0.0 {
      SquarePositive(s);
      TimesPositive(Square(s), 3.0 - 2.0 * s);
    }
  }

  lemma SmoothstepComplement(s: real)
    ensures 1.0 - Smoothstep(s) == Square(1.0 - s) * (1.0 + 2.0 * s)
  {}

  lemma SquareAtMostOne(s: real)
    requires 0.0 <= s <= 1.0
    ensures Square(s) <= 1.0
  {
    assert s * s <= s * 1.0;
  }

  lemma ScaleNonneg(a: real, b: real)
    requires a >= 0.0 && b >= 0.0
    ensures a * b >= 0.0
  {}

  lemma ScaleMonotone(c: real, a: real, b: real)
    requires c >= 0.0 && a <= b
    ensures Times(c, a) <= Times(c, b)
  {
    ScaleNonneg(c, b - a);
  }

  /** The smoothstep ramp is non-decreasing on [0, 1]. */
  lemma SmoothstepMonotone(s: real, t: real)
    requires 0.0 <= s <= t <= 1.0
    ensures Smoothstep(s) <= Smoothstep(t)
  {
    SmoothstepDifference(s, t);
    RampSlopeNonneg(s, t);
    GapNonneg(Smoothstep(s), Smoothstep(t), t - s, 3.0 * (t + s) - 2.0 * (Times(t, t) + Times(t, s) + Times(s, s)));
  }

  lemma GapNonneg(a: real, b: real, d: real, g: real)
    requires b - a == d * g && d >= 0.0 && g >= 0.0
    ensures a <= b
  {
    ScaleNonneg(d, g);
  }

  lemma SmoothstepDifference(s: real, t: real)
    ensures Smoothstep(t) - Smoothstep(s)
         == (t - s) * (3.0 * (t + s) - 2.0 * (Times(t, t) + Times(t, s) + Times(s, s)))
  {}

  lemma RampSlopeNonneg(s: real, t: real)
    requires 0.0 <= s <= t <= 1.0
    ensures 3.0 * (t + s) - 2.0 * (Times(t, t) + Times(t, s) + Times(s, s)) >= 0.0
  {
    ScaleMonotone(t, t, 1.0);
    ScaleMonotone(s, s, 1.0);
    ScaleMonotone(s, t, 1.0);
  }

  /** c r^2 lies in [0, c] for r in (0, 1]. */
  lemma ScaledSquareRange(c: real, r: real)
    requires c >= 0.0 && 0.0 < r <= 1.0
    ensures 0.0 <= c * Square(r) <= c
    ensures c > 0.0 ==> c * Square(r) > 0.0
  {
    SquarePositive(r);
    SquareAtMostOne(r);
    ScaleNonneg(c, Square(r));
    ScaleMonotone(c, Square(r), 1.0);
    if c > 0.0 {
      TimesPositive(c, Square(r));
    }
  }

  /** c r^2 grows with r >= 0. */
  lemma ScaledSquareMonotone(c: real, r: real, r': real)
    requires c >= 0.0 && 0.0 <= r <= r'
    ensures c * Square(r) <= c * Square(r')
  {
    ScaleMonotone(r, r, r');
    ScaleMonotone(r', r, r');
    ScaleMonotone(c, Square(r), Square(r'));
  }

  /** The absorption of a cell at depth s in (0, 1] lies in
      [0, cap_strength], and is positive when the strength is. */
  lemma RampRange(c: real, s: real)
    requires c >= 0.0 && s <= 1.0
    ensures 0.0 <= Ramp(c, s) <= c
    ensures s <= 0.0 ==> Ramp(c, s) == 0.0
    ensures c > 0.0 && s > 0.0 ==> Ramp(c, s) > 0.0
  {
    if s > 0.0 {
      SmoothstepRange(s);
      ScaledSquareRange(c, Smoothstep(s));
    }
  }

  /** A deeper cell absorbs at least as much. */
  lemma RampMonotone(c: real, s: real, t: real)
    requires c >= 0.0 && 0.0 <= s <= t <= 1.0
    ensures Ramp(c, s) <= Ramp(c, t)
  {
    if s > 0.0 {
      SmoothstepMonotone(s, t);
      SmoothstepRange(s);
      ScaledSquareMonotone(c, Smoothstep(s), Smoothstep(t));
    } else {
      RampRange(c, t);
    }
  }

  /** The depth of a cell is 0 exactly strictly inside both bands, and at
      most 1. */
  lemma DepthRange(pf: PotentialField, i: int, j: int)
    requires Buildable(pf) && 0 <= i < pf.nx && 0 <= j < pf.ny
    ensures 0.0 <= SpongeDepth(pf, i, j) <= 1.0
    ensures var wx, wy := BandWidth(pf.capRatio, pf.nx), BandWidth(pf.capRatio, pf.ny);
            (wx <= i < pf.nx - wx && wy <= j < pf.ny - wy) <==> SpongeDepth(pf, i, j) == 0.0
  {
    BandWidthPositive(pf.capRatio, pf.nx);
    BandWidthPositive(pf.capRatio, pf.ny);
    ProximityRange(i, pf.nx, BandWidth(pf.capRatio, pf.nx));
    ProximityRange(j, pf.ny, BandWidth(pf.capRatio, pf.ny));
  }

  /** With a non-negative strength the sponge absorbs between 0 and
      cap_strength; it absorbs nothing strictly inside both bands, and with
      a positive strength it absorbs on every other cell. */
  lemma AbsorbRange(pf: PotentialField, i: int, j: int)
    requires Buildable(pf) && pf.capStrength >= 0.0 && 0 <= i < pf.nx && 0 <= j < pf.ny
    ensures 0.0 <= Absorb(pf, i, j) <= pf.capStrength
    ensures var wx, wy := BandWidth(pf.capRatio, pf.nx), BandWidth(pf.capRatio, pf.ny);
            var interior := wx <= i < pf.nx - wx && wy <= j < pf.ny - wy;
            (interior ==> Absorb(pf, i, j) == 0.0) &&
            (pf.capStrength > 0.0 && !interior ==> Absorb(pf, i, j) > 0.0)
  {
    DepthRange(pf, i, j);
    RampRange(pf.capStrength, SpongeDepth(pf, i, j));
  }

  /** The sponge deepens towards the lower edge: moving a cell towards
      column 0, without entering the upper band, never lowers its
      absorption. */
  lemma AbsorbGrowsTowardsEdge(pf: PotentialField, i: int, i': int, j: int)
    requires Buildable(pf) && pf.capStrength >= 0.0
    requires 0 <= i <= i' < pf.nx - BandWidth(pf.capRatio, pf.nx) && 0 <= j < pf.ny
    ensures Absorb(pf, i', j) <= Absorb(pf, i, j)
  {
    var wx := BandWidth(pf.capRatio, pf.nx);
    BandWidthPositive(pf.capRatio, pf.nx);
    ProximityFalls(i, i', pf.nx, wx);
    DepthRange(pf, i, j);
    DepthRange(pf, i', j);
    RampMonotone(pf.capStrength, SpongeDepth(pf, i', j), SpongeDepth(pf, i, j));
  }

  /** The potential is never a source: Im V <= 0 on every cell, bounded
      below by -cap_strength, and zero strictly inside both bands. */
  lemma ImaginaryNonPositive(m: Libm, pf: PotentialField, i: int, j: int)
    requires SqrtPositive(m) && Buildable(pf) && pf.capStrength >= 0.0 && 0 <= i < pf.nx && 0 <= j < pf.ny
    ensures -pf.capStrength <= CellPotential(m, pf, i, j).im <= 0.0
    ensures var wx, wy := BandWidth(pf.capRatio, pf.nx), BandWidth(pf.capRatio, pf.ny);
            wx <= i < pf.nx - wx && wy <= j < pf.ny - wy ==> CellPotential(m, pf, i, j).im == 0.0
  {
    CellPotentialParts(m, pf, i, j);
    AbsorbRange(pf, i, j);
  }
}
