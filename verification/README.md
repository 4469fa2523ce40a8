# SeisFAT3D control logic in Dafny

This project models the deterministic core of SeisFAT3D, a 3-D seismic
modeling and travel-time inversion package. It is written as pure Dafny
functions, methods and lemmas. The floating-point fields are `real`s, and
every solver, file and trigonometric call is a parameter.

It covers five pieces of the system:

- **Inversion control** (`Inversion`, `StepLength`, `Smoothing`, `GridIndex`):
  - the convergence state machine;
  - the ordered per-shot forward pass, with its adjoint call gated by the iteration;
  - the optimisation step (`gmax`, `gdot`, the residual-scaled lambda and the cap alpha);
  - the zero-padded embedding of the variation and the direct 3-D Gaussian convolution with its kernel-fill loop;
  - the gradient reset;
  - the names of the files the inversion writes.
- **Modeling set-up** (`Modeling`):
  - the geometry overflow check, both as written and as intended;
  - the phase order of `Modeling::set_parameters`, including the geometry-type table.
- **Geometry** (`Geometry`, `Circular`, `Regular`):
  - ring-by-ring shot synthesis of the circular layout;
  - list accumulation of the regular layout;
  - the default relational window;
  - the order of the set-up phases (import vs. synthesis, reciprocity, relational window, export).
- **Configuration lookup** (`Configuration`, `Strings`): the `catch_parameter` of the visualisation tool, over the text of a configuration file.
- **Slice filters** (`SliceFilter`): the proximity filters that choose which shots and nodes are drawn on a slice plane.

`Strings` holds the text primitives the models share:

- Python's `split()` and `readlines()`;
- decimal rendering as in `std::to_string`;
- its inverse.

The overflow check as written conjoins all six axis comparisons, so a
position is flagged only when it is outside the model on every axis at once.
Its error message, "shots geometry overflow", evidently means a position
outside on any one axis, i.e. a disjunction. The model follows the code. `Modeling.Rule` selects between the test as written (`AsWritten`) and
the intended one (`Bounds`), and both are reasoned about below.

## Model

| member | source | states |
|---|---|---|
| Configuration.CatchParameter | tools/visualization/check_configuration.py:8-15 | reading the file's lines, the lookup returns None exactly when every line is a comment, blank, or keyed by another name; a value it finds is one whitespace-free token |
| Configuration.CatchInLines | tools/visualization/check_configuration.py:10-15 | a value found by the lookup is always one whitespace-free token |
| Configuration.CommentIgnored | tools/visualization/check_configuration.py:11 | a line starting with '#' never affects the result, whatever it contains |
| Configuration.BlankIgnored | tools/visualization/check_configuration.py:12-13 | a line that splits into no tokens never affects the result |
| Configuration.FirstMatchWins | tools/visualization/check_configuration.py:10-15 | the lookup over `a + b` is the lookup over `a` unless that finds nothing, in which case it is the lookup over `b`: later lines with the same key are never consulted |
| Configuration.NotFoundIffAllPass | tools/visualization/check_configuration.py:8-15 | the function returns None exactly when every line is a comment, blank, or keyed by another name |
| Configuration.FirstDecidingLine | tools/visualization/check_configuration.py:10-15 | the first line that is not skipped decides the answer: its third token, or an index error when it has fewer than three tokens |
| Configuration.KeyLineFound | tools/visualization/check_configuration.py:14-15 | a `key = value` line after lines that do not match is found, and the answer is `value` |
| Configuration.KeyLineTerminatedFound | tools/visualization/check_configuration.py:10-15 | the same holds when the line carries the newline that `readlines` keeps |
| Configuration.FileErrorsAreShortKeyLines | tools/visualization/check_configuration.py:10-15 | on the lines of a real file an index error can only come from a matching line with fewer than three tokens, never from `line[0]` |
| Strings.Split | tools/visualization/check_configuration.py:12 | every token `split()` yields is a non-empty word without whitespace |
| Strings.SplitJoin | tools/visualization/check_configuration.py:12 | splitting the space-joined words gives back exactly those words |
| Strings.SplitKeepsEveryCharacter | tools/visualization/check_configuration.py:12 | `split()` drops the whitespace and nothing else: the tokens concatenate to the line without its blanks |
| Strings.ReadLinesConcat | tools/visualization/check_configuration.py:10 | the lines `readlines` yields concatenate back to the whole file |
| Strings.ReadLinesOfLines | tools/visualization/check_configuration.py:10 | reading back newline-terminated lines with no inner newline yields those lines |
| Strings.ReadLines | tools/visualization/check_configuration.py:10 | `readlines` never yields an empty line |
| SliceFilter.Trunc | tools/visualization/check_configuration.py:91 | `int()` on a float rounds toward zero: within one unit below a non-negative value, within one unit above a negative one |
| SliceFilter.TruncTowardZero | tools/visualization/check_configuration.py:91 | `int(-0.5)` is 0 and `int(-1.5)` is -1, unlike the floor |
| SliceFilter.KeptIff | tools/visualization/check_configuration.py:89-93 | point i is kept exactly when `int(c_i/d)-1 <= int(slice) <= int(c_i/d)+1` on the key axis |
| SliceFilter.KeptIncreasing | tools/visualization/check_configuration.py:90-93 | kept points appear in input order, without repetition |
| SliceFilter.FilterPlane | tools/visualization/check_configuration.py:86-136 | the appended arrays hold, for every kept point in order, its two remaining coordinates in grid units: they are the projections of the kept indices on the two other axes |
| SliceFilter.ZyPlane | tools/visualization/check_configuration.py:86-97 | the zy-plane filter keys on x against `slices[2]` and keeps `(y/dy, z/dz)` of each kept point |
| SliceFilter.ZxPlane | tools/visualization/check_configuration.py:99-110 | the zx-plane filter keys on y against `slices[1]` and keeps `(x/dx, z/dz)` of each kept point |
| SliceFilter.SinglePointAgrees | tools/visualization/check_configuration.py:94-97 | the single-point branch gives the same result as the many-point loop on a one-point list: index 0 is kept exactly when the point is near the slice, and the two arrays are that point's projections, or empty otherwise |
| SliceFilter.NearWindow | tools/visualization/check_configuration.py:91 | a shot at x = 95 m on a 10 m grid is drawn for integer slices 8, 9 and 10 and no other |
| Inversion.CheckConvergence | src/inversion/inversion.cpp:79-88 | below `max_iteration` the counter advances by one and the run goes on; at or past it the run is converged and the counter stays |
| Inversion.CallsBeforeLast | src/inversion/inversion.cpp:79-88 | from iteration 0, after k <= `max_iteration` checks the counter is k and the run has not converged |
| Inversion.ConvergesOnLastCall | src/inversion/inversion.cpp:79-88 | the run first converges on check `max_iteration + 1`, with the counter at `max_iteration` |
| Inversion.ConvergedIsStable | src/inversion/inversion.cpp:79-83 | checking a converged run again changes nothing |
| Inversion.ForwardModeling | src/inversion/inversion.cpp:60-72 | the calls are one block per shot 0 .. total_shots-1 in increasing order, with the adjoint included exactly when `iteration != max_iteration` |
| Inversion.ShotBlock | src/inversion/inversion.cpp:60-71 | shot s's block sits after all earlier shots' blocks and begins by setting the shot index before the initial conditions and the propagation |
| Inversion.AdjointIff | src/inversion/inversion.cpp:70-71 | an adjoint propagation occurs exactly when there is a shot and this is not the final iteration |
| Inversion.ResetGradient | src/inversion/inversion.cpp:161-162 | every gradient entry becomes 0 and the length is kept |
| Inversion.ModelUpdate | src/inversion/inversion.cpp:155-170 | smoothing off or a zero deviation leaves the variation unchanged; the model is the specification update of the smoothed variation; the gradient is all zero; the model is exported exactly when asked, under a name that reads back as this iteration and these dimensions |
| Inversion.DimsRoundTrip | src/inversion/inversion.cpp:166 | `<nz>x<nx>x<ny>` reads back as the three dimensions, negative ones included |
| Inversion.ModelIterationPath | src/inversion/inversion.cpp:166 | the per-iteration model name starts with the folder and ends in `.bin`, with something in between |
| Inversion.FinalModelPath | src/inversion/inversion.cpp:174 | the final model name starts with the folder and ends in `.bin`, with something in between |
| Inversion.ConvergencePath | src/inversion/inversion.cpp:175 | the convergence file name starts with the folder and ends in `.txt`, with something in between |
| Inversion.ModelIterationPathRoundTrip | src/inversion/inversion.cpp:166 | the per-iteration model name under a folder reads back as its iteration and dimensions |
| Inversion.ModelIterationPathsDistinct | src/inversion/inversion.cpp:166 | distinct (iteration, nz, nx, ny) give distinct per-iteration names, so no export overwrites another |
| Inversion.FinalModelPathRoundTrip | src/inversion/inversion.cpp:174 | the final model name reads back as its dimensions |
| Inversion.ConvergencePathRoundTrip | src/inversion/inversion.cpp:175 | the convergence file name reads back as its iteration count |
| Inversion.ResidualsReadBack | src/inversion/inversion.cpp:179-182 | the residual file read back by lines has one line per residual, in order, each the rendered value and its newline |
| Strings.IntString | src/inversion/inversion.cpp:166 | `std::to_string` of an integer is non-empty and made only of digits and '-' |
| Strings.IntStringRoundTrip | src/inversion/inversion.cpp:166 | the decimal rendering of every integer parses back to it |
| Strings.IntStringInjective | src/inversion/inversion.cpp:166 | different integers render differently |
| StepLength.GMax | src/inversion/inversion.cpp:93-98 | gmax is non-negative, bounds every gradient magnitude and is attained by some entry unless it is 0 |
| StepLength.GDotZeroIffAllZero | src/inversion/inversion.cpp:94-100 | the sum of squares is 0 exactly when every gradient entry is 0 |
| StepLength.GMaxPositive | src/inversion/inversion.cpp:97-98 | a gradient with a non-zero sum of squares has a positive gmax |
| StepLength.GradientNorms | src/inversion/inversion.cpp:93-101 | the loop's running maximum and running sum are the gradient's max magnitude and sum of squares |
| StepLength.ComputableWhen | src/inversion/inversion.cpp:105-107 | both divisions are defined for every non-zero gradient unless the cap is negative and the residual zero |
| StepLength.Optimization | src/inversion/inversion.cpp:91-111 | the step is alpha*lambda*g_i for every cell, with lambda = 0.5*residual/gdot and alpha = gamma/(lambda*gmax) when lambda*gmax > gamma, else 1 |
| StepLength.AlphaBounds | src/inversion/inversion.cpp:107 | for a non-negative lambda and cap, 0 <= alpha <= 1 (positive for a positive cap) and alpha*lambda*gmax never exceeds the cap, meeting it when the cap binds |
| StepLength.StepIsCapped | src/inversion/inversion.cpp:105-110 | for a non-negative residual and cap every cell changes by at most `max_variation`, and when the cap binds the largest change is exactly `max_variation` |
| StepLength.CapExample | src/inversion/inversion.cpp:93-110 | g = [1, -2, 3], residual 7, cap 0.5 gives gdot 14, gmax 3, lambda 1/4, alpha 2/3 and the step [1/6, -1/3, 1/2] |
| GridIndex.Decompose | src/inversion/inversion.cpp:128-130 | the (i, j, k) recovered from a flat index lie in the box and flatten back to it |
| GridIndex.DecomposeFlat | src/inversion/inversion.cpp:128-134 | every in-box cell flattens below the cell count and decomposes back to itself |
| GridIndex.FlatInjective | src/inversion/inversion.cpp:134 | distinct in-box cells have distinct flat indices |
| GridIndex.PadIndex | src/inversion/inversion.cpp:132 | `ind_filt` lies below the auxiliary count `aux_nx*aux_ny*aux_nz` |
| GridIndex.PadIndexInjective | src/inversion/inversion.cpp:132 | distinct physical samples go to distinct auxiliary cells |
| GridIndex.PadUnpad | src/inversion/inversion.cpp:132-147 | padding an index lands on an inner auxiliary cell, and unpadding that cell recovers the index |
| GridIndex.UnpadPad | src/inversion/inversion.cpp:145-147 | every inner auxiliary cell is the image of exactly one physical index |
| Smoothing.Kernel | src/inversion/inversion.cpp:205-232 | with a zero deviation the kernel is the impulse at the centre cell; otherwise it is the given Gaussian weights |
| Smoothing.Mid | src/inversion/inversion.cpp:205-207 | the centre `mid + mid*N + mid*N*N` lies inside the N^3 kernel |
| Smoothing.ReadIndex | src/inversion/inversion.cpp:249 | every `partial` read for an interior cell lies inside the input array |
| Smoothing.GaussianSmoothing | src/inversion/inversion.cpp:191-256 | the cell-by-cell reference for the smoother: cells outside [init, n-init) on some axis keep the input value; interior cells hold the kernel-weighted sum of their N^3 neighbourhood |
| Smoothing.GaussianSmoothingLoops | src/inversion/inversion.cpp:191-256 | the copy loop, the kernel choice and the interior k, j, i loops together produce exactly the cell-by-cell reference `GaussianSmoothing` |
| Smoothing.SmoothPlane | src/inversion/inversion.cpp:236-256 | the j loop for plane k (one pass of the k loop) writes every interior cell of that plane with its weighted sum and leaves all other cells as they were |
| Smoothing.SmoothRow | src/inversion/inversion.cpp:238-256 | the i loop for row (j, k) (one pass of the j loop) writes every interior cell of that row, at `i + j*nz + k*nx*nz`, with its weighted sum and leaves all other cells as they were |
| Smoothing.AccumulateCell | src/inversion/inversion.cpp:240-251 | the three kernel loops (yk outermost, zk innermost) add the weighted reads of all N^3 kernel cells in increasing kernel index, which is the weighted sum `Accumulate` defines |
| Smoothing.AccumulateRow | src/inversion/inversion.cpp:246-251 | the zk loop extends the sum over the first `xk*N + yk*N*N` kernel cells by the next N |
| Smoothing.AddKernelTerm | src/inversion/inversion.cpp:248-251 | `partial` and `index` as the loop body computes them lie inside the input and the kernel, and adding their product extends the sum by exactly one kernel cell |
| Smoothing.CentreReadsSelf | src/inversion/inversion.cpp:205-207 | the kernel centre decomposes to offset (init, init, init), whose read index is the cell itself |
| Smoothing.AccumulateImpulse | src/inversion/inversion.cpp:240-256 | with the impulse kernel the weighted sum at an interior cell is that cell's input value |
| Smoothing.ZeroStdvIsIdentity | src/inversion/inversion.cpp:202-256 | with a zero deviation the output equals the input everywhere |
| Smoothing.AsWrittenFillOverruns | src/inversion/inversion.cpp:213-219 | with an even number of samples the fill loops reach an offset whose kernel index is past the N^3 kernel |
| Smoothing.AsWrittenFillOddInBounds | src/inversion/inversion.cpp:213-219 | with an odd number of samples every index the fill loops write lies inside the kernel |
| Smoothing.CorrectedFillCoversKernel | src/inversion/inversion.cpp:213-219 | loops over -init .. N-1-init write inside the kernel and reach every kernel cell; for odd N they are the loops as written |
| Smoothing.Embed | src/inversion/inversion.cpp:123-135 | the auxiliary array holds each physical sample at its padded cell and zero in the margin |
| Smoothing.Extract | src/inversion/inversion.cpp:139-148 | each physical sample is read back from its padded cell |
| Smoothing.ExtractEmbedded | src/inversion/inversion.cpp:126-148 | reading back at the padded cell returns the embedded sample |
| Smoothing.PaddedCellsAreInterior | src/inversion/inversion.cpp:132 | with padding N per side, every padded physical cell is interior for the convolution's N/2 margin, so the smoother overwrites it |
| Smoothing.UpdateSmoothing | src/inversion/inversion.cpp:113-153 | smoothing off leaves the variation unchanged; a zero deviation returns it exactly; otherwise each sample becomes the kernel-weighted sum around its padded cell of the embedded array |
| Modeling.CheckGeometryOverflow | src/modeling/modeling.cpp:25-42 | a shot error is reported exactly when some shot offends, a node error exactly when no shot offends and some node does, and the check passes otherwise |
| Modeling.CheckIsVerdict | src/modeling/modeling.cpp:27-41 | the check's outcome is the shots-first verdict |
| Modeling.AsWrittenOverflow | src/modeling/modeling.cpp:29-31 | the throw condition joins the six comparisons with `&&`: a position is flagged only when it is below 0 and beyond `(n-1)*d` on all three axes at once, which needs every extent to be negative |
| Modeling.AsWrittenNeedsNegativeExtents | src/modeling/modeling.cpp:29-31 | a grid that meets the as-written condition for some position cannot have at least one sample and a non-negative spacing on every axis |
| Modeling.AsWrittenAlwaysPasses | src/modeling/modeling.cpp:27-41 | with at least one sample and a non-negative spacing per axis, the as-written check passes for all shots and nodes |
| Modeling.AsWrittenMissesOutsideShot | src/modeling/modeling.cpp:29-31 | a shot 5 m west of a 10x10x10 grid is outside the model but does not trigger the as-written condition |
| Modeling.AsWrittenWeaker | src/modeling/modeling.cpp:29-31 | everything the as-written condition flags, the per-axis bounds test flags too |
| Modeling.BoundsPassIffInside | src/modeling/modeling.cpp:27-41 | the corrected check passes exactly when every shot and node lies in the closed model box |
| Modeling.KindOf | src/modeling/modeling.cpp:101-103 | geometry type 0 selects the regular layout and 1 the circular one; every other value is outside the table |
| Modeling.SetParameters | src/modeling/modeling.cpp:98-116 | parameters and boundaries come first; a type outside the table stops there; otherwise the geometry is built, the totals copied and the overflow check run; the set-up is ready, with the totals of the built geometry, exactly when the check's verdict on that geometry is a pass, and on a failed check it stops after five phases with that verdict |
| Modeling.AsWrittenSetUpNeverStops | src/modeling/modeling.cpp:98-116 | with the check as written, a valid geometry type on a non-negative grid always reaches wavefields and outputs |
| Geometry.SetRelational | src/geometry/circular/circular.cpp:92-102 | one window per shot, each starting at node 0 and ending at `nodes.total` |
| Geometry.WindowCoversEveryNode | src/geometry/regular/regular.cpp:46-56 | with a non-negative node total, 0 <= beg <= end = nodes.total and node n records the shot exactly when 0 <= n < nodes.total |
| Circular.CosStep | src/geometry/circular/circular.cpp:70 | the argument of acos is at most 1, equals 1 exactly when the spacing is 0, and drops below -1 when the spacing exceeds twice the radius |
| Circular.StepAngle | src/geometry/circular/circular.cpp:70 | with a zero spacing the angular step is acos(1) |
| Circular.RingCount | src/geometry/circular/circular.cpp:63-73 | a ring emits the least n with n*step >= 2*pi points: n is positive and (n-1)*step < 2*pi |
| Circular.BelowCount | src/geometry/circular/circular.cpp:65 | every shot index below the ring count has its angle below the full turn |
| Circular.Ring | src/geometry/circular/circular.cpp:63-73 | the ring loop yields the points `xc + r*sin(k*step)`, `yc + r*cos(k*step)` for k = 0 .. count-1, in increasing angle |
| Circular.RingsLength | src/geometry/circular/circular.cpp:59-74 | the shot total is the sum of the ring counts |
| Circular.SetCircular | src/geometry/circular/circular.cpp:55-90 | the shots are the rings in `offsets` order; their total is the sum of ring counts; every z is `zc`; the offsets are emptied |
| Circular.RingSlice | src/geometry/circular/circular.cpp:59-85 | ring m occupies the positions from the sum of the earlier rings' counts onward, shot k at angle k*step |
| Circular.RingStartsNorth | src/geometry/circular/circular.cpp:63-68 | given sin 0 = 0 and cos 0 = 1, each ring's first shot is (xc, yc + r) |
| Circular.ZeroSpacingNeverEnds | src/geometry/circular/circular.cpp:65-70 | with spacing 0 the step is acos(1) = 0 and the angle stays below the full turn after any number of steps |
| Circular.SetGeometry | src/geometry/circular/circular.cpp:5-53 | import replaces all synthesis; otherwise the centre is read as (z, x, y), the rings and the node lattice are built, reciprocity is applied if asked, and every shot gets the full node window |
| Circular.TraceOrdered | src/geometry/circular/circular.cpp:14-49 | a synthesising run builds the rings first, then the nodes, then the optional reciprocity, the relational window and finally the export |
| Regular.GroupPasses | src/geometry/regular/regular.cpp:18-32 | the loop over "shots" then "nodes" appends to the shared lists, so the shot lattice is built from the `shots_` entries alone and the node lattice from the shot entries followed by the node entries, key by key |
| Regular.SetGeometry | src/geometry/regular/regular.cpp:3-44 | import replaces all synthesis; otherwise the shot lattice is built from the shot lists, the lists the node pass sees are the shot entries followed by the node entries, and the node lattice is built from them; reciprocity is applied if asked, and the window count is the shot total after reciprocity |
| Regular.TraceOrdered | src/geometry/regular/regular.cpp:18-43 | shots are built before nodes, reciprocity after both and before the relational window, and export is last |

## Left out

- Console output, GPU and RAM telemetry, wall-clock timing and `system("clear")` are not modelled. They are device and OS I/O.
- Binary and text export (`export_binary_float`, the `ofstream` of `export_results`) and `import_coordinates`/`export_coordinates` are not modelled. Only the file names and the line layout of the residual file are; the imported layout is a parameter.
- The C++ `catch_parameter`, `split` on ',' and `stoi`/`stof` are not modelled. The values a layout reads are the parameters `ints` and `reals`, already converted.
- `Inversion::set_parameters` is not modelled. It reads configuration values and calls `set_forward_modeling`, the set-up of the modeling object (which `Modeling.SetParameters` covers), `set_inversion_volumes` and `modeling->set_runtime`; those three other calls belong to solver classes outside this model.
- The forward and adjoint solvers, `get_objective_function`, `extract_calculated_data`, `set_regular`, `set_reciprocity` and `update_specifications` are opaque calls. They appear as call markers or as function parameters.
- The driver loop of the inversion is not modelled: it is commented out in the main program.
- The initial state of `iteration` and `converged` is assumed to be 0 and false, because inversion.hpp is not part of this model.
- Floating point is not modelled: every `float` is a `real`. Rounding in the accumulation of theta, gmax, gdot and the kernel sum is ignored, so the float ring count may differ from the real one.
- The Gaussian weights (`expf`, `sqrtf`, `atanf` and the normalisation by their sum) are a given sequence of N^3 values.
- acos, sin and cos are function parameters, and 2*pi is the parameter `turn`.
- The OpenMP pragma is not modelled: each output cell is independent, so the model is sequential.
- The edge-replicating boundary expand/reduce of the padded model is not part of this model. Its code is not among the modelled files.
- StepLength.Optimization: requires both divisions to be defined (a non-zero `gdot`, and `lambda*gmax` non-zero when it exceeds the cap). The source divides unguarded there, and a zero divisor gives infinities or NaN in float.
- Smoothing.UpdateSmoothing: requires at least one smoother sample when smoothing is on. With zero samples the source writes the centre of an empty kernel.
- Smoothing.GaussianSmoothing: requires at least one sample, for the same reason.
- Circular.SetGeometry: requires a centre of at least three entries when synthesising, where the source reads `splitted[0..2]` unchecked.
- Circular.SetGeometry: requires a non-zero radius and a positive angular step for every ring. With a zero step the source loop never ends, which `Circular.ZeroSpacingNeverEnds` states. A zero radius makes the acos argument -inf (or 0/0 = NaN when the spacing is 0 too) in float, so acos and then theta become NaN, the loop stops after one shot and that ring is the single point (xc, yc); a spacing above twice the radius makes the argument less than -1 (`Circular.CosStep`), acos gives NaN, and the ring is the single point (xc, yc + r). Neither float outcome is modelled.
- Circular.SetCircular: requires a non-zero radius and a positive angular step, for the same reasons: the zero radius and the spacing above twice the radius each give one NaN-terminated shot per ring in the source.
- SliceFilter.FilterPlane: requires non-zero spacings. With numpy values a zero spacing does not raise ZeroDivisionError: the division gives inf or nan with a RuntimeWarning, `int()` of it then raises OverflowError or ValueError on the key axis, and a zero spacing on a projected axis appends inf or nan to the drawn coordinates.
- SliceFilter.ZyPlane and SliceFilter.ZxPlane: require non-zero spacings, as above.
- SliceFilter.ZyPlane and SliceFilter.ZxPlane: `np.loadtxt` (tools/visualization/check_configuration.py:237-238) returns a one-line file as a one-dimensional array of three values, which takes the single-point branch; `SliceFilter.SinglePointAgrees` shows that branch agrees with the loop on a one-point list. A two-dimensional (1, 3) array would also take that branch and raise TypeError at `int()` (lines 95, 108, 121, 134); that case is not modelled.
- Modeling.SetParameters: a geometry type outside {0, 1} indexes past the two-entry `types` table, which is undefined behaviour in C++; the model stops the set-up cleanly there instead.
- Regular.SetGeometry: assumes `set_regular` (whose code is not part of this model) leaves the shared `nlines`, `SW`, `NW` and `SE` lists as they are, so the node pass sees the shot entries followed by the node entries. If it cleared them, as `set_circular` empties its own `offsets` list (src/geometry/circular/circular.cpp:89), the node lattice would be built from the node entries alone.
- GridIndex.Decompose, GridIndex.PadIndex and Smoothing.ReadIndex: do not model 32-bit `int` overflow. The source computes `nPoints`, `aux_nPoints`, `ind_filt`, `k*nx*nz`, `partial`, the kernel index and `shots.total` in `int` (src/inversion/inversion.cpp:121, 128-132, 194-195, 249; src/geometry/circular/circular.cpp:72), and the bounds these members state hold only while those products fit in 32 bits.
- Inversion.ResidualsReadBack: requires that the rendering of a residual contains no newline. Stream formatting of floats is not modelled.
- Strings.ReadLines: does not model newline translation of text-mode reads. Lines end at '\n' only.

## Findings

| source | as written | input that shows it | evidently intended | confidence | as-written member | corrected member |
|---|---|---|---|---|---|---|
| src/modeling/modeling.cpp:29-31 | the six axis comparisons are joined by `&&`, so a position must be below 0 and above `(n-1)*d` on every axis at once; the node loop (lines 37-39) has the same form | grid 10x10x10 with 1 m spacing, shot at (x, y, z) = (-5, 0, 0): outside the model, yet no error | error when the position is outside `[0, (n-1)*d]` on at least one axis | not executed | Modeling.AsWrittenMissesOutsideShot | Modeling.BoundsPassIffInside |
| src/inversion/inversion.cpp:213-219 | the fill loops run from `-init` to `+init` inclusive with `init = N/2`, i.e. N+1 offsets per axis when N is even | `smoother_samples = 2`: offset (1, 1, 1) writes `kernel[2 + 2*2 + 2*4] = kernel[14]` of an 8-entry kernel | N offsets per axis, `-init .. N-1-init`, covering each kernel cell once | not executed | Smoothing.AsWrittenFillOverruns | Smoothing.CorrectedFillCoversKernel |
