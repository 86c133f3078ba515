# Schrodinger2D core in Dafny

A Dafny model of the numerical core of Schrodinger2D, an interactive 2-D time-dependent
Schrodinger equation simulator, and of its scene-file reader. The model covers the following:

- the complex tridiagonal (Thomas) solver, `solve_tridiagonal`;
- the Crank-Nicolson ADI time step: a potential half-kick, an implicit sweep along x, an
  implicit sweep along y, and another half-kick;
- `PotentialField::build`: rectangular barriers, smooth radial wells and the complex
  absorbing sponge near the walls;
- the `Simulation` driver: resize, reset, clearPsi, injectGaussian, addBox, addWell,
  stepN, mass and mass_split;
- the scene reader: the minimal JSON parser, the member lookup and typed accessors, and the
  part of `load_scene` that fills a `Scene` from the parsed document.

Each in-place algorithm of the source is an imperative Dafny method:

- the Thomas solver works on `array`s;
- the time step updates `psi` in place;
- the JSON parser is a class with a cursor;
- `Simulation` and `Scene` are classes whose methods update their fields.

Each such method is proved against a specification function. The properties the source
relies on are lemmas about those functions:

- the solver's output satisfies every row of the original system;
- the ADI pivots never vanish;
- each sweep solves its Crank-Nicolson half step;
- the potential kicks never add probability where Im V <= 0;
- the sponge is non-positive and grows toward the walls;
- the mass split adds up to the mass;
- the parser reads back what a conforming writer writes, rejects trailing characters,
  trailing commas, bad escapes and malformed numbers, and agrees with the reference
  grammar of numbers;
- duplicate keys resolve to the first member;
- `load_scene` either leaves the scene untouched or reads every setting with the old value
  as the default.

Modules, one per source unit:

| module | file | models |
|---|---|---|
| `Complex` | complex.dfy | `std::complex<double>` as exact pairs of reals |
| `Grid` | grid.dfy | the row-major `idx(i, j, Nx)` addressing |
| `Numeric` | numeric.dfy | `std::max`, `std::min`, `std::round` and `std::llround` on reals |
| `Tridiag` | tridiag.dfy | `src/sim/tridiag.hpp` |
| `Potential` | potential.dfy | `src/sim/potential.cpp` |
| `Adi` | adi.dfy | `src/sim/solver.cpp` |
| `Simulation` | simulation.dfy | `src/sim/simulation.cpp` |
| `Json` | json.dfy | the JSON parser of `src/io/scene.cpp` |
| `SceneFile` | scene.dfy | `get_member`, `as_*` and `load_scene` of `src/io/scene.cpp` |

Two points about the source that the model follows:

- **Radial well profiles.** `RadialWell::Profile` has a fourth value, `HarmonicOscillator`, which
  src/ui/presets.cpp:128 and 184 use. The switch in `PotentialField::build`
  (src/sim/potential.cpp:45-59) has no case for it, so such a well adds nothing. The model keeps
  the value, and `Potential.HarmonicAddsNothing` states that it adds nothing.
- **Header and implementation.** `potential.hpp` declares no wells and no physical extents, while
  `potential.cpp` uses both. The model follows `potential.cpp`.

## Model

| member | source | states |
|---|---|---|
| Tridiag.SolveTridiagonal | src/sim/tridiag.hpp:13-29 | b is left holding the elimination pivots and d the solution computed by elimination then back substitution |
| Tridiag.ForwardSweep | src/sim/tridiag.hpp:20-24 | the forward loop leaves every pivot and every reduced right-hand side of the elimination |
| Tridiag.BackSubstitute | src/sim/tridiag.hpp:25-28 | the backward loop leaves the back-substituted unknowns of the eliminated system |
| Tridiag.ForwardStep | src/sim/tridiag.hpp:21-23 | each row's pivot and right-hand side are the previous ones reduced by w = a[i] / pivot[i-1] |
| Tridiag.BackRow | src/sim/tridiag.hpp:25-28 | with non-zero pivots each row of the eliminated system holds for the computed unknowns |
| Tridiag.SolutionSolves | src/sim/tridiag.hpp:9-12 | with non-zero pivots row i of the original matrix applied to the output equals d[i] |
| Tridiag.SolutionSolvesAll | src/sim/tridiag.hpp:9-12 | with non-zero pivots the output solves A x = d on every row |
| Tridiag.SingleRow | src/sim/tridiag.hpp:25 | a one-row system is solved by the single division d[0] / b[0] |
| Tridiag.EndsNeverRead | src/sim/tridiag.hpp:10-28 | a[0] and c[N-1] are unused: whatever they hold, the pivots, the reduced right-hand side and the solution are the same |
| Tridiag.PivotIgnoresEnds | src/sim/tridiag.hpp:20-22 | no pivot depends on a[0] or c[N-1] |
| Tridiag.ReducedIgnoresEnds | src/sim/tridiag.hpp:20-23 | no reduced right-hand side depends on a[0] or c[N-1] |
| Tridiag.BackIgnoresEnd | src/sim/tridiag.hpp:25-28 | back substitution does not depend on c[N-1] |
| Tridiag.Pivots | src/sim/tridiag.hpp:20-22 | the pivot vector has one entry per row and starts with b[0] |
| Tridiag.ReducedAll | src/sim/tridiag.hpp:20-23 | the reduced right-hand side has one entry per row and starts with d[0] |
| Tridiag.Solution | src/sim/tridiag.hpp:13-29 | the solver's output has one entry per row |
| Grid.IdxInRange | src/sim/potential.cpp:8 | every in-grid cell (i, j) has a flat index inside the Nx*Ny buffer |
| Grid.ColRowOfIdx | src/sim/solver.cpp:9 | the column and row read back from idx(i, j) are i and j |
| Grid.IdxOfColRow | src/sim/simulation.hpp:58 | every buffer index is idx of its own in-grid column and row |
| Grid.InRowSpan | src/sim/potential.cpp:22-26 | cells a..b of row j are exactly the flat indices idx(a, j)..idx(b, j) |
| Numeric.RoundNearest | src/io/scene.cpp:274 | llround's result is within one half of its argument |
| Numeric.RoundOdd | src/io/scene.cpp:274 | rounding commutes with negation |
| Numeric.RoundHalfwayAway | src/io/scene.cpp:274 | halfway cases round away from zero |
| Numeric.RoundWhole | src/sim/potential.cpp:67-68 | whole numbers are left unchanged by rounding |
| Potential.Build | src/sim/potential.cpp:10-85 | the built V is the reference field: zero plus the box, well and sponge layers of every cell |
| Potential.AddBoxes | src/sim/potential.cpp:15-27 | the box pass adds each cell's summed box heights to it |
| Potential.AddBox | src/sim/potential.cpp:16-26 | one box adds its height exactly on the cells of its clamped, ordered rectangle and leaves every other cell unchanged |
| Potential.AddWells | src/sim/potential.cpp:32-63 | the well pass adds each cell's summed well contributions to its real part |
| Potential.AddWell | src/sim/potential.cpp:33-62 | one well adds its profile's contribution at each cell centre to every cell |
| Potential.AddCap | src/sim/potential.cpp:67-84 | the sponge pass subtracts the absorption from the imaginary part of every cell |
| Potential.AddCellwise | src/sim/potential.cpp:69-84 | the j-outer, i-inner double loop adds f(i, j) to every cell exactly once |
| Potential.Field | src/sim/potential.cpp:12 | the field has Nx*Ny cells |
| Potential.DistSq | src/sim/potential.cpp:38-43 | the squared distance from a cell centre to the well centre is non-negative |
| Potential.R0Positive | src/sim/potential.cpp:33-34 | the well length scale is at least 1e-4, so r0^2 is positive and no profile divides by zero |
| Potential.CellPotentialParts | src/sim/potential.cpp:22-81 | Re V is the sum of box and well potentials, and Im V is minus the absorption |
| Potential.BoxRectInGrid | src/sim/potential.cpp:16-21 | clamping and swapping give a non-empty rectangle inside the grid whatever the box corners |
| Potential.BoxRectOrdered | src/sim/potential.cpp:16-21 | for ordered corners in [0,1) the rectangle is just the floors of x*Nx and y*Ny |
| Potential.CellIndexOfUnit | src/sim/potential.cpp:16-17 | for 0 <= t0 <= t1 < 1 the clamp does nothing and the cells are ordered |
| Potential.BoxesAppend | src/sim/potential.cpp:15-27 | the box potential of two lists is the sum of their box potentials |
| Potential.WellsAppend | src/sim/potential.cpp:32-63 | the well potential of two lists is the sum of their well potentials |
| Potential.FieldWithBox | src/sim/potential.cpp:15-27 | adding one box changes V only by its height on its rectangle |
| Potential.FieldWithWell | src/sim/potential.cpp:32-63 | adding one well changes V only by its own contribution on each cell |
| Potential.WellsIgnoreBoxes | src/sim/potential.cpp:30-43 | the wells depend only on the grid and the extents, not on boxes or sponge settings |
| Potential.WellIgnoresScene | src/sim/potential.cpp:33-43 | a single well depends only on the grid and the extents |
| Potential.HarmonicAddsNothing | src/sim/potential.cpp:45-59 | a HarmonicOscillator well adds nothing, because the switch has no case for it |
| Potential.WellSign | src/sim/potential.cpp:45-59 | a well's contribution has the sign of its strength on every cell |
| Potential.ContributionSign | src/sim/potential.cpp:46-58 | each profile formula has the sign of the strength |
| Potential.WellBounded | src/sim/potential.cpp:46-57 | a Gaussian well never exceeds its strength, and an inverse-square well never exceeds strength / r0^2 |
| Potential.ContributionBounded | src/sim/potential.cpp:46-57 | the Gaussian and inverse-square formulas peak at strength and strength / r0^2 |
| Potential.BandWidthPositive | src/sim/potential.cpp:67-68 | the sponge is at least one cell wide, and is round(ratio*N) when that is at least 1 |
| Potential.ProximityRange | src/sim/potential.cpp:71-76 | the band depth lies in [0,1], is positive exactly inside either band, is 1 on the first cell, and is 1 on the last cell whenever the band is narrower than the grid, overlapping bands included |
| Potential.ProximityWideBand | src/sim/potential.cpp:71-76 | when the band is at least as wide as the grid, the last cell's depth is (w-n+1)/w, below 1 once the grid has two cells: the upper wall is then not fully absorbing |
| Potential.ProximityFalls | src/sim/potential.cpp:72 | band depth falls, strictly inside the lower band, moving away from the lower wall |
| Potential.ProximityMirror | src/sim/potential.cpp:72-73 | when the bands do not overlap the depth profile is mirror-symmetric |
| Potential.SmoothstepRange | src/sim/potential.cpp:79 | the smoothstep ramp maps [0,1] into [0,1] and is positive on (0,1] |
| Potential.SmoothstepComplement | src/sim/potential.cpp:79 | 1 - s^2(3 - 2s) equals (1 - s)^2 (1 + 2s) |
| Potential.SmoothstepMonotone | src/sim/potential.cpp:79 | the smoothstep ramp is non-decreasing on [0,1] |
| Potential.RampRange | src/sim/potential.cpp:78-81 | the absorption at depth s <= 1 lies in [0, cap_strength], is zero when s <= 0 and is positive otherwise |
| Potential.RampMonotone | src/sim/potential.cpp:79-80 | a deeper cell absorbs at least as much |
| Potential.DepthRange | src/sim/potential.cpp:67-77 | the sponge depth lies in [0,1] and is zero exactly strictly inside both bands |
| Potential.AbsorbRange | src/sim/potential.cpp:67-84 | absorption lies in [0, cap_strength], is zero in the interior and positive in the bands |
| Potential.AbsorbGrowsTowardsEdge | src/sim/potential.cpp:72-80 | moving a cell toward the lower wall never lowers its absorption |
| Potential.ImaginaryNonPositive | src/sim/potential.cpp:81 | Im V lies in [-cap_strength, 0] on every cell and is 0 in the interior |
| Adi.Step | src/sim/solver.cpp:11-92 | psi becomes the reference step: kick, x-sweep, y-sweep fed by the x-sweep, then kick |
| Adi.Kick | src/sim/solver.cpp:21-26 | every cell is multiplied by its own half-kick factor exp(-i V dt/2) |
| Adi.FillCoefficients | src/sim/solver.cpp:49-53 | a, b and c hold the sub-, main and super-diagonals of (I - w D), with a[0] = c[N-1] = 0 |
| Adi.SweepX | src/sim/solver.cpp:37-60 | phi is the x-sweep of psi: every row solves its implicit system |
| Adi.SolveXRow | src/sim/solver.cpp:40-55 | d ends as the Thomas solution of row j's system |
| Adi.StoreRow | src/sim/solver.cpp:57-59 | row j of phi is overwritten with d, and every other cell is unchanged |
| Adi.XRhsRow | src/sim/solver.cpp:40-46 | d is (I + alpha D_y) psi along row j, with zero beyond the top and bottom walls |
| Adi.SweepY | src/sim/solver.cpp:63-83 | psi is the y-sweep of phi: every column solves its implicit system |
| Adi.SolveYColumn | src/sim/solver.cpp:66-79 | d ends as the Thomas solution of column i's system |
| Adi.YRhsColumn | src/sim/solver.cpp:66-72 | d is (I + alpha D_x) phi down column i, with zero beyond the side walls |
| Adi.StoreColumn | src/sim/solver.cpp:80-82 | column i of psi is overwritten with d, and every other cell is unchanged |
| Adi.Kicked | src/sim/solver.cpp:21-26 | kicking keeps the buffer length |
| Adi.Lower | src/sim/solver.cpp:50 | the sub-diagonal has one entry per cell |
| Adi.Diagonal | src/sim/solver.cpp:51 | the main diagonal has one entry per cell |
| Adi.Upper | src/sim/solver.cpp:52 | the super-diagonal has one entry per cell |
| Adi.XRhs | src/sim/solver.cpp:40-46 | the x-sweep right-hand side has Nx entries |
| Adi.XRow | src/sim/solver.cpp:55 | the solved row has Nx entries |
| Adi.XSweep | src/sim/solver.cpp:34-60 | phi has the size of psi |
| Adi.YRhs | src/sim/solver.cpp:66-72 | the y-sweep right-hand side has Ny entries |
| Adi.YColumn | src/sim/solver.cpp:79 | the solved column has Ny entries |
| Adi.YSweep | src/sim/solver.cpp:64-83 | the y-sweep keeps the buffer size |
| Adi.Stepped | src/sim/solver.cpp:11-92 | a step keeps the buffer size |
| Adi.AxisWeightImaginary | src/sim/solver.cpp:29-31 | ax and ay are purely imaginary |
| Adi.PivotStep | src/sim/tridiag.hpp:21-22 | one elimination step of (I - w D), w imaginary, keeps the pivot's real part at least 1 |
| Adi.PivotsDominant | src/sim/solver.cpp:49-55 | every pivot of either sweep's system has real part at least 1 |
| Adi.SweepNonSingular | src/sim/solver.cpp:55-79 | neither sweep's Thomas solve ever divides by zero |
| Adi.SweepSolves | src/sim/solver.cpp:49-55 | the solution x of (I - w D) x = d satisfies x_i - w (x_{i-1} - 2 x_i + x_{i+1}) = d_i with zero walls |
| Adi.ImplicitSolves | src/sim/solver.cpp:29-55 | the same row in the step's own terms: x - alpha D_h x = d |
| Adi.XSweepAt | src/sim/solver.cpp:57-59 | phi read along row j is that row's solution, with zero beyond the walls |
| Adi.YSweepAt | src/sim/solver.cpp:80-82 | the y-sweep's output read down column i is that column's solution |
| Adi.XSweepSolves | src/sim/solver.cpp:36 | (I - alpha D_x) phi = (I + alpha D_y) psi at every cell |
| Adi.YSweepSolves | src/sim/solver.cpp:62 | (I - alpha D_y) psi_new = (I + alpha D_x) phi at every cell |
| Adi.KickExponent | src/sim/solver.cpp:24 | where Im V <= 0 the exponent -i V dt/2 has non-positive real part, and for real V that real part is zero |
| Adi.KickFactorNorm | src/sim/solver.cpp:24 | the half-kick factor has norm at most 1 where Im V <= 0, and exactly 1 where V is real |
| Adi.KickCell | src/sim/solver.cpp:24 | a half-kick never increases a cell's abs(psi)^2 where Im V <= 0, and keeps it where V is real |
| Adi.KickedNormSum | src/sim/solver.cpp:21-26 | a half-kick does not add probability when Im V <= 0 everywhere, and conserves it when V is real |
| Adi.ScaledByUnit | src/sim/solver.cpp:24 | multiplying by a factor of norm at most 1 does not increase the norm |
| Simulation.Simulation.constructor | src/sim/simulation.cpp:8-10 | a valid 372 by 300 grid with dt 1e-4, not running, the default scene, no packets and psi all zero |
| Simulation.Simulation.Resize | src/sim/simulation.cpp:12-28 | sizes are clamped to at least 8, cells are square, the scene follows the grid, V is rebuilt and psi holds the packets injected onto zero |
| Simulation.Simulation.Reshape | src/sim/simulation.cpp:13-26 | the new grid, a fresh psi and V rebuilt from the scene on it |
| Simulation.Simulation.Regrid | src/sim/simulation.cpp:13-20 | Nx = max(8, newNx), Ny = max(8, newNy), and dx = dy = 1 / min(Nx, Ny) (which is at least 8), with Lx = Nx dx and Ly = Ny dy |
| Simulation.Simulation.ClearPsi | src/sim/simulation.cpp:30-32 | every cell of psi is zero |
| Simulation.Simulation.Reset | src/sim/simulation.cpp:34-42 | on any sized grid, even after the scene was edited: the scene is put on the grid, V is rebuilt from it, the invariant holds, V is unchanged when it was already built from the scene, and psi holds every packet injected onto zero |
| Simulation.Simulation.InjectGaussian | src/sim/simulation.cpp:44-65 | every cell gains amplitude * g * exp(i phase) of the packet, and nothing else changes |
| Simulation.Simulation.AddBox | src/sim/simulation.cpp:67-70 | the box is appended and V is rebuilt from the whole scene; when V was built from the scene before, it changes only by the box's height on its rectangle |
| Simulation.Simulation.AddWell | src/sim/simulation.cpp:72-75 | the well is appended and V is rebuilt from the whole scene; when V was built from the scene before, each cell changes only by the well's contribution |
| Simulation.Simulation.Step | src/sim/simulation.cpp:77-79 | psi becomes one ADI step of itself under V |
| Simulation.Simulation.StepN | src/sim/simulation.cpp:81-83 | psi becomes n steps of itself, and is unchanged when n <= 0 |
| Simulation.Simulation.Mass | src/sim/simulation.cpp:85-89 | the mass is the sum of abs(psi)^2 times dx dy, and is non-negative |
| Simulation.Simulation.MassSplit | src/sim/simulation.cpp:91-101 | left and right hold the mass of columns below and from Nx/2, both non-negative, and add up to the mass |
| Simulation.Simulation.Index | src/sim/simulation.hpp:58 | idx(i, j) of an in-grid cell lies in the buffer and reads back as (i, j) |
| Simulation.SumNorms | src/sim/simulation.cpp:86-87 | the loop sums abs(z)^2 over the whole buffer in storage order |
| Simulation.SplitMass | src/sim/simulation.cpp:93-100 | the double loop sends each cell's mass to its side of the midline |
| Simulation.InjectAll | src/sim/simulation.cpp:41 | each packet in order adds its wave to every cell |
| Simulation.PacketWidth | src/sim/simulation.cpp:48 | the packet width is floored at 1e-12 |
| Simulation.WavesAppend | src/sim/simulation.cpp:41 | injecting ps then qs puts the sum of both on each cell |
| Simulation.WavesSwap | src/sim/simulation.cpp:41 | the order of the packet list does not matter |
| Simulation.WaveBounded | src/sim/simulation.cpp:58-62 | a packet never puts more than amplitude^2 of abs(psi)^2 on any cell |
| Simulation.FactorsBounded | src/sim/simulation.cpp:61 | a unit phase and an envelope in (0,1] bound the wave by amplitude^2 |
| Simulation.EnvelopeRange | src/sim/simulation.cpp:58 | the Gaussian envelope lies in (0,1] |
| Simulation.PlaneWaveUnit | src/sim/simulation.cpp:60-61 | the plane-wave factor has modulus 1 |
| Simulation.IterateCompose | src/sim/simulation.cpp:81-83 | stepping a times then b times is stepping a + b times |
| Simulation.IterateFits | src/sim/simulation.cpp:81-83 | every number of steps keeps psi on the grid |
| Simulation.SideMassNext | src/sim/simulation.cpp:96-97 | one more cell adds its mass to its own side only |
| Simulation.SidesMakeMass | src/sim/simulation.cpp:91-101 | left plus right is the total mass |
| Simulation.SideMassNonneg | src/sim/simulation.cpp:96-97 | each side's mass is non-negative |
| Json.JsonParser.constructor | src/io/scene.cpp:82-96 | the parser starts at position 0 of its text |
| Json.JsonParser.Peek | src/io/scene.cpp:99 | the character under the cursor, or '\0' at the end |
| Json.JsonParser.Get | src/io/scene.cpp:100 | the character under the cursor, or '\0' at the end; the cursor moves past it unless at the end |
| Json.JsonParser.SkipWs | src/io/scene.cpp:102-106 | the cursor moves to the end of the white-space run |
| Json.JsonParser.Expect | src/io/scene.cpp:108-112 | succeeds exactly when the next character is c; the cursor moves as in get |
| Json.JsonParser.Consume | src/io/scene.cpp:114-121 | succeeds exactly when the text continues with kw, and then steps over it; otherwise the cursor stays |
| Json.JsonParser.ParseValue | src/io/scene.cpp:123-153 | returns what the reference grammar gives at the cursor, or its error, and leaves the cursor where it ends |
| Json.JsonParser.ParseString | src/io/scene.cpp:155-182 | the decoded string and its end, or the string error, as the reference decoder |
| Json.JsonParser.ScanInteger | src/io/scene.cpp:186-192 | the integer part is a lone 0 or a non-zero digit and digits, else "invalid number" |
| Json.JsonParser.ScanFraction | src/io/scene.cpp:193-197 | an optional point must have at least one digit after it, else "invalid fraction" |
| Json.JsonParser.ScanExponent | src/io/scene.cpp:198-203 | an optional e or E, an optional sign, then at least one digit, else "invalid exponent" |
| Json.JsonParser.ParseNumber | src/io/scene.cpp:184-209 | the scanned number text converted by stod, or the scan's error |
| Json.JsonParser.ParseArray | src/io/scene.cpp:211-230 | the elements in order, or the first error, as the reference grammar |
| Json.JsonParser.ParseMember | src/io/scene.cpp:242-247 | a string key, white space, ':' and a value, else "object key expected" or the inner error |
| Json.JsonParser.ParseObject | src/io/scene.cpp:232-256 | the members in source order, duplicates kept, or the first error |
| Json.JsonParser.Parse | src/io/scene.cpp:84-92 | the result is the whole-document reference parse: one value surrounded by white space, else an error |
| Json.ParseText | src/io/scene.cpp:288 | a fresh parser over the text returns the document's reference parse |
| Json.WsEnd | src/io/scene.cpp:102-106 | skip_ws never moves back and never passes the end |
| Json.DigitsEnd | src/io/scene.cpp:191 | the digit run ends within the text |
| Json.IntegerEnd | src/io/scene.cpp:186-192 | an accepted integer part is non-empty |
| Json.FractionEnd | src/io/scene.cpp:193-197 | the fraction scan stays within the text |
| Json.ExponentEnd | src/io/scene.cpp:198-203 | the exponent scan stays within the text |
| Json.NumberEnd | src/io/scene.cpp:184-203 | an accepted number is non-empty and within the text |
| Json.NumberAt | src/io/scene.cpp:184-209 | the cursor advances and stays within the text |
| Json.StringAt | src/io/scene.cpp:155-182 | the cursor advances and stays within the text |
| Json.CharsAt | src/io/scene.cpp:158-181 | the cursor advances and stays within the text |
| Json.ValueAt | src/io/scene.cpp:123-153 | the cursor advances and stays within the text |
| Json.ArrayAt | src/io/scene.cpp:211-230 | the cursor advances and stays within the text |
| Json.ElementsAt | src/io/scene.cpp:220-229 | the cursor advances and stays within the text |
| Json.ObjectAt | src/io/scene.cpp:232-256 | the cursor advances and stays within the text |
| Json.MemberAt | src/io/scene.cpp:242-247 | the cursor advances and stays within the text |
| Json.MembersAt | src/io/scene.cpp:241-255 | the cursor advances and stays within the text |
| Json.WsEndSpans | src/io/scene.cpp:102-106 | everything skipped is white space and the stopping character is not |
| Json.WsRun | src/io/scene.cpp:102-106 | a white-space run ended by a non-space character or the end is skipped entirely |
| Json.WsEndAgain | src/io/scene.cpp:102-106 | skipping white space twice skips no more than once |
| Json.DigitsEndSpans | src/io/scene.cpp:191 | the scanned digits form a run ended by a non-digit |
| Json.DigitsRun | src/io/scene.cpp:191 | a digit run ended by a non-digit is scanned entirely |
| Json.IntegerSound | src/io/scene.cpp:186-192 | an accepted integer part matches the grammar |
| Json.FractionSound | src/io/scene.cpp:193-197 | an accepted fraction matches the grammar |
| Json.ExponentSound | src/io/scene.cpp:198-203 | an accepted exponent matches the grammar |
| Json.NumberSound | src/io/scene.cpp:184-203 | every text parse_number accepts is a number of the grammar |
| Json.IntegerComplete | src/io/scene.cpp:186-192 | every integer part of the grammar is accepted up to its end |
| Json.FractionComplete | src/io/scene.cpp:193-197 | every fraction of the grammar is accepted up to its end |
| Json.ExponentComplete | src/io/scene.cpp:198-203 | every exponent of the grammar is accepted up to its end |
| Json.NumberComplete | src/io/scene.cpp:184-203 | every number of the grammar followed by a delimiter is accepted up to its end |
| Json.NumberExamples | src/io/scene.cpp:187-203 | "1." and "1e" and "1e+" and "-" are rejected with their own errors; "01" stops after the 0, and as a document it is rejected |
| Json.PlainCopied | src/io/scene.cpp:177-179 | characters other than quote and backslash are copied unchanged |
| Json.RawString | src/io/scene.cpp:155-182 | a string without escapes decodes to its raw characters |
| Json.Unterminated | src/io/scene.cpp:181 | a string without its closing quote is rejected as unterminated |
| Json.BadEscape | src/io/scene.cpp:163-176 | a trailing backslash is an invalid escape, and any escape outside the eight supported ones, \u included, is unsupported |
| Json.EscapeStep | src/io/scene.cpp:163-176 | each supported escape decodes to its character |
| Json.DecodeStep | src/io/scene.cpp:158-180 | one written character, escaped or not, decodes to itself |
| Json.EscapedDecodes | src/io/scene.cpp:158-180 | an escaped text decodes back to the original |
| Json.QuoteRoundTrip | src/io/scene.cpp:155-182 | parse_string reads back any string a writer quotes |
| Json.AtMatches | src/io/scene.cpp:116 | the text holds kw at pos exactly when the |kw| characters from pos equal kw |
| Json.ArrayOpen | src/io/scene.cpp:212-220 | after '[' the element loop starts |
| Json.ArrayEmpty | src/io/scene.cpp:216-219 | "[]" is the empty array |
| Json.ObjectOpen | src/io/scene.cpp:233-241 | after '{' the member loop starts |
| Json.ObjectEmpty | src/io/scene.cpp:237-240 | "{}" is the empty object |
| Json.ElementsClose | src/io/scene.cpp:221-226 | an element followed by ']' ends the array with it appended |
| Json.ElementsNext | src/io/scene.cpp:221-228 | an element followed by ',' continues the loop after the comma |
| Json.MembersClose | src/io/scene.cpp:247-251 | a member followed by '}' ends the object with it appended last |
| Json.MembersNext | src/io/scene.cpp:247-254 | a member followed by ',' continues the loop after the comma |
| Json.ArrayTrailingComma | src/io/scene.cpp:227-228 | a comma followed by ']' is rejected as an invalid value |
| Json.ObjectTrailingComma | src/io/scene.cpp:242-254 | a comma followed by '}' is rejected as "object key expected" |
| Json.ObjectKeyFirst | src/io/scene.cpp:236-242 | an object whose first member does not start with a quote is rejected |
| Json.NullRoundTrip | src/io/scene.cpp:147-151 | "null" is read as null |
| Json.BoolRoundTrip | src/io/scene.cpp:135-146 | "true" and "false" are read as booleans |
| Json.NumberRoundTrip | src/io/scene.cpp:134-209 | a grammatical number followed by a delimiter is read as what stod gives |
| Json.StringRoundTrip | src/io/scene.cpp:128-133 | a quoted string is read back as a string value |
| Json.ValueDispatch | src/io/scene.cpp:126-127 | '[' and '{' go to parse_array and parse_object |
| Json.ValueRoundTrip | src/io/scene.cpp:123-153 | every written value followed by a delimiter is read back whole, when each number in it is written in the grammar and stod converts that text back |
| Json.ScalarRoundTrip | src/io/scene.cpp:128-151 | every written scalar is read back; a number, when its text is in the grammar and stod converts it back |
| Json.ArrayRoundTrip | src/io/scene.cpp:211-230 | a written array is read back with its elements in order, when each number in it is written in the grammar and stod converts it back |
| Json.ElementsRoundTrip | src/io/scene.cpp:220-229 | the written elements and ']' are read back in order, under the same condition on their numbers |
| Json.ObjectRoundTrip | src/io/scene.cpp:232-256 | a written object is read back with its members in order, duplicates kept, when each number in it is written in the grammar and stod converts it back |
| Json.MemberRoundTrip | src/io/scene.cpp:242-247 | a written member is read back, under the same condition on the numbers in its value |
| Json.MembersRoundTrip | src/io/scene.cpp:241-255 | the written members and '}' are read back in order, under the same condition on their numbers |
| Json.DocumentRoundTrip | src/io/scene.cpp:84-92 | a written value between white space parses back to itself, and anything else after it is "unexpected trailing characters"; only the numbers occurring in the value need to be written in the grammar and converted back by stod |
| Json.DocumentExample | src/io/scene.cpp:84-92 | the document [1,{"a":null},true] parses to its array, with a stod that converts "1" and nothing else |
| SceneFile.GetMember | src/io/scene.cpp:260 | nothing is found in a value that is not an object |
| SceneFile.LookupFirst | src/io/scene.cpp:261-264 | the member loop finds nothing exactly when no key matches, and otherwise finds the first match |
| SceneFile.MemberFound | src/io/scene.cpp:259-265 | get_member is null exactly for a non-object or a missing key, and otherwise gives the first member with that key |
| SceneFile.FirstMemberWins | src/io/scene.cpp:261-263 | with repeated keys the first member's value is returned |
| SceneFile.Int32 | src/io/scene.cpp:274 | the long-long-to-int cast gives a 32-bit value congruent to its argument modulo 2^32 |
| SceneFile.Int32Fits | src/io/scene.cpp:274 | a value that fits in an int is converted unchanged |
| SceneFile.DefaultsKept | src/io/scene.cpp:267-280 | a missing member or a non-object leaves every accessor at its default |
| SceneFile.NumberRead | src/io/scene.cpp:267-275 | a present number is read as is by as_number, and rounded to nearest with ties away from zero by as_int |
| SceneFile.CollectAppend | src/io/scene.cpp:315-324 | collecting two lists of elements collects each in turn |
| SceneFile.CollectOnlyObjects | src/io/scene.cpp:316 | only object elements contribute, at most one entry each, and an array without objects gives nothing |
| SceneFile.CollectObjects | src/io/scene.cpp:315-324 | when every element is an object each gives exactly one entry, in place |
| SceneFile.EmptyElementIsZero | src/io/scene.cpp:317-349 | an empty object element gives an all-zero box, well or packet |
| SceneFile.Scene.constructor | src/io/scene.hpp:14-33 | a fresh Scene holds the struct's default settings and empty lists |
| SceneFile.SceneRoot | src/io/scene.cpp:284-292 | a root exists exactly when the file was read, parses, and its root is an object |
| SceneFile.LoadScene | src/io/scene.cpp:282-355 | false and the scene unchanged on a read failure, a parse failure or a non-object root; otherwise true with every setting read and the lists rebuilt |
| SceneFile.ReadRoot | src/io/scene.cpp:294-352 | all fifteen settings are read with the old values as defaults and the three lists are rebuilt from the root |
| SceneFile.ReadSettings | src/io/scene.cpp:294-308 | each scalar setting takes its member's value, or keeps the old one |
| SceneFile.ReadGrid | src/io/scene.cpp:294-299 | Nx, Ny, dt, cap_strength, cap_ratio and steps are read with the old values as defaults |
| SceneFile.ReadTolerances | src/io/scene.cpp:300-305 | the six drift tolerances are read with the old values as defaults |
| SceneFile.ReadMonitor | src/io/scene.cpp:306-308 | the warm-up steps and the two monitor switches are read with the old values as defaults |
| SceneFile.ReadLists | src/io/scene.cpp:310-352 | the three lists are cleared, then each holds one entry per object element of its array member, in order |
| SceneFile.ReadBoxes | src/io/scene.cpp:314-325 | a box is appended for every object element, in order; other elements are skipped |
| SceneFile.ReadWells | src/io/scene.cpp:327-338 | a well is appended for every object element, in order; other elements are skipped |
| SceneFile.ReadPackets | src/io/scene.cpp:340-352 | a packet is appended for every object element, in order; other elements are skipped |

## Left out

- Floating point: every `double` is an exact `real`, and `std::complex<double>` is an exact pair
  of reals. The model shows no rounding, overflow, NaN or infinity.
- `exp`, `sqrt`, the complex exponential and `std::stod` are not defined by the model. They are
  parameters, and the lemmas state the properties they need of them:
  - `exp` is positive, and at most 1 on the non-positive axis;
  - `sqrt` is positive on positive numbers;
  - the complex exponential has modulus at most 1 on the left half-plane, and exactly 1 on the
    imaginary axis.
- `Complex.Div`: division by zero gives zero rather than an IEEE infinity or NaN. The solver
  properties are proved only where no pivot vanishes, and the ADI pivots are proved never to
  vanish.
- `Json.NumberAt`: `std::stod` throwing out of range or on invalid input is `stod` returning
  None, which fails the parse as load_scene's catch does.
- `SceneFile.AsInt`: the case where `llround` overflows `long long` is not modelled. Rounding is
  exact on reals, and the cast to `int` wraps modulo 2^32.
- `SceneFile.GetMember`: returns a copy of the member's value rather than a pointer into the
  document.
- `read_file` is not modelled. `LoadScene` takes the file's contents as an `Option<string>`,
  None when the file could not be read.
- `save_scene` (number formatting), `to_simulation`, `from_simulation` and the example
  command-line runner are not modelled. `Json.Serialize` is a reference writer used only to
  state the round trips. It is not the program's own writer.
- Characters are Unicode `char`s rather than bytes. White space is the six characters that
  `std::isspace` accepts in the "C" locale.
- Integer widths in the simulator are unbounded. The model does not capture overflow of `Nx*Ny`
  or of the sponge width.
- `Simulation.Simulation.Reset`, `Simulation.Simulation.AddBox` and `Simulation.Simulation.AddWell`
  require a grid whose buffers have Nx*Ny cells. `AddBox` and `AddWell` also require the scene's
  grid to be the simulation's. Every simulation the constructor or `Resize` makes meets both, and
  editing the scene's lists by hand keeps them. The source states no precondition.
- The model claims no mass conservation for the whole ADI step. It proves only that the kicks do
  not add probability, and that each sweep solves its Crank-Nicolson system.
- Not modelled: the stability monitor, the eigenstate solver (`compute_eigenstates`,
  `apply_eigenstate`), the field renderer, the GUI and the presets.
- The `running` flag is only initialised, because no modelled operation reads it. The solver
  object is not modelled, because it has no state.
