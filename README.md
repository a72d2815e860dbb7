# Strange-attractor density maps, as a verified Dafny model

This project models the core of a program that draws the Clifford strange attractor. These are the parts it covers:

- **The attractor object** (`attractor.dfy`). It holds a `width × height` grid of 32-bit hit counters (the density map) and a parameter vector. A dispatch table of variant hooks may have null entries. The operations are:
  - creation;
  - clean (zero the grid);
  - reset (clean and restore the default parameters);
  - occupancy (the fraction of non-zero cells);
  - randomize;
  - the "randomize until chaotic" search;
  - the null-safe iterate, update and initialize dispatchers.
- **The Clifford map** (`clifford.dfy`). It computes `x' = sin(a·y) + c·cos(a·x)` and `y' = sin(b·x) + d·cos(b·y)`. Each step clamps the point to `[-2, 2]²`, scales it onto the grid and writes 255 into the cell it lands in.
- **Density-to-texture normalisation and colouring** (`rendering.dfy`). The texture is an RGBA float texture:
  - It is first cleared.
  - Every non-empty cell is divided by the densest cell (by 1 on an empty map).
  - The result goes through one of five transfer functions (linear, log, power, sigmoid, square root).
  - It is written behind a border as an opaque grey.
  - A second pass recolours the texture along a two-colour gradient between the darkest and brightest qualifying red values.
- **The frame-rate ring buffer** (`fps.dfy`). It has 512 slots, a pivot, a sample count that saturates at 512, and maximum and average queries.
- **The placeholder chessboard texture** (`chessboard.dfy`). It is a 512 × 512 RGBA byte image of 64-pixel black and white squares.
- **Shared vocabulary** (`common.dfy`):
  - 32-bit and 8-bit unsigned integers;
  - IEEE float values (finite, ±infinity, NaN), with IEEE `<` and division by zero;
  - row-major index arithmetic.

Floats are modelled as reals, and the special values appear only where the code produces them:
- 0/0 in the occupancy and the average;
- ±infinity as the start values of the colouring pass's minimum and maximum.

sin, cos, expf, logf, powf and sqrtf are parameters. The lemmas state the facts they need:
- sin and cos stay in [-1, 1];
- exp is positive and increasing;
- log and sqrt are increasing;
- log(1) = 0, sqrt(0) = 0, sqrt(1) = 1, and 1 to any power is 1;
- a positive power is increasing on the non-negatives.

Variant hooks (code reached through the dispatch table) are modelled as functions from the attractor's contents to new contents. Randomness is a draw index passed to the randomize hook.

## Model

| member | source | states |
|---|---|---|
| Common.Divide | src/attractor.c:116 | a float quotient over a count: the real quotient when the count is non-zero; NaN exactly when 0 is divided by 0 |
| Attractor.SettingsOf | src/attractor.c:31-41 | the variant table entry has the requested kind, and its parameter count equals the number of default parameters |
| Attractor.CountOccupied | src/attractor.c:108-114 | the occupied-cell count never exceeds the number of cells |
| Attractor.CountIsOccupiedCells | src/attractor.c:108-114 | the counting loop's result is exactly the number of indices whose counter is non-zero |
| Attractor.OccupancyInUnitInterval | src/attractor.c:107-117 | on a non-empty grid, occupancy is a finite number in [0, 1] |
| Attractor.ClearedGridUnoccupied | src/attractor.c:103-117 | an all-zero grid counts 0 occupied cells; its occupancy is 0, or NaN when the grid has no cells |
| Attractor.OccupancyOf | src/attractor.c:116 | occupancy is the float quotient of the occupied-cell count by the number of cells; its range is stated by Attractor.OccupancyInUnitInterval |
| Attractor.Chaotic | src/attractor.c:133 | the search stops when occupancy is not below 0.01 in IEEE comparison, so NaN also stops it; Attractor.ChaoticMeansOccupied states its meaning |
| Attractor.ChaoticMeansOccupied | src/attractor.c:130-133 | the loop's exit test passes exactly when the grid has no cells (occupancy NaN) or occupancy is at least 0.01 |
| Attractor.Attractor.Make | src/attractor.c:49-64 | width, height and kind are stored; the parameter count, defaults {-1.4, 1.6, 1.0, 0.7} and hook table come from the variant table; every density cell is 0 |
| Attractor.Attractor.Clean | src/attractor.c:103-105 | every one of the width·height counters becomes 0; the parameters are unchanged |
| Attractor.Attractor.Reset | src/attractor.c:96-101 | afterwards the grid is all zero and the parameters equal the variant's defaults |
| Attractor.Attractor.GetOccupancy | src/attractor.c:107-117 | the result is the float quotient of the occupied-cell count by width·height (NaN on an empty grid) |
| Attractor.Attractor.Iterate | src/attractor.c:82-86 | the iterate hook's result when the entry is set; nothing changes when it is null |
| Attractor.Attractor.Update | src/attractor.c:76-80 | the update hook's result when the entry is set; nothing changes when it is null |
| Attractor.Attractor.Initialize | src/attractor.c:136-142 | the initialize hook's result when the entry is set; nothing changes when it is null |
| Attractor.Attractor.Randomize | src/attractor.c:119-122 | the new contents are the randomize hook applied to the reset state: the grid is always cleared and the defaults restored first |
| Attractor.Attractor.Attempt | src/attractor.c:130-133 | one loop body: the state is reset, randomize, then 25 000 iterations; the returned flag is the loop's exit test on that state |
| Attractor.Attractor.RandomizeUntilChaotic | src/attractor.c:124-134 | callable whenever the custom hook or the randomize entry is set; a set custom hook takes precedence and the loop does not run; otherwise, if the search settles, the final state passes the exit test and is the outcome of the last attempt, and every earlier attempt failed the test |
| Clifford.Step | src/clifford.c:41-45 | one step of the map; the new y uses the old x; Clifford.StepStaysInside bounds it |
| Clifford.Scaled | src/clifford.c:52-53 | the truncated grid coordinate of a clamped value; its range is stated by Clifford.ScaledRange |
| Clifford.WriteIndexAsWritten | src/clifford.c:55 | the buffer index the source writes, with no guard on either coordinate; Clifford.AsWrittenIndexEscapes shows where it leaves the grid |
| Clifford.Clamp | src/clifford.c:48-49 | the clamped coordinate lies in [-2, 2], equals the input inside that range, and equals the nearer bound outside it |
| Clifford.ScaledRange | src/clifford.c:52-53 | a clamped coordinate scales to an integer in [0, extent], and reaches extent exactly when the coordinate is 2.0 |
| Clifford.AsWrittenIndexEscapes | src/clifford.c:52-55 | as written, a clamped y of 2.0 gives an index at or past width·height; a clamped x of 2.0 (y below 2.0) gives the first cell of the next row |
| Clifford.StepReachesRightEdge | src/clifford.c:41-53 | with c = 1, sin(a·y) = 1 and cos(a·x) = 1, the next x is exactly 2.0 and its scaled column equals width |
| Clifford.Cell | src/clifford.c:48-55 | the corrected cell exists exactly when the grid is non-empty, and it is then below width·height |
| Clifford.CellAgreesBelowEdge | src/clifford.c:52-55 | when both clamped coordinates are below 2.0, the corrected cell is the source's own index |
| Clifford.StepStaysInside | src/clifford.c:41-42 | with sin and cos in [-1, 1] and \|c\|, \|d\| < 1, a step lands strictly inside (-2, 2)² |
| Clifford.SmallCoefficientsStayInside | src/clifford.c:41-55 | with sin and cos in [-1, 1] and \|c\|, \|d\| < 1, the source's index is inside the buffer and equals the corrected cell |
| Clifford.VisitedBounds | src/clifford.c:40-55 | n steps mark at most n cells, all inside the grid; zero steps mark none |
| Clifford.Clifford.Make | src/clifford.c:23-35 | a, b, c, d, width and height are stored unchanged; the buffer holds width·height cells |
| Clifford.Clifford.Iterate | src/clifford.c:39-57 | every cell the orbit visits from the given start holds exactly 255; every other cell keeps its old value |
| Rendering.SigmoidInUnitInterval | src/rendering.c:43-49 | the sigmoid lies strictly in (0, 1), and is 0.5 at the midpoint |
| Rendering.SigmoidNormalize | src/rendering.c:43-49 | the logistic curve 1/(1 + exp(-(x - midpoint)·steepness)) lies strictly in (0, 1) when exp is positive |
| Rendering.Scale | src/rendering.c:83-98 | the transfer function picked by the scaling method, with an unrecognised method leaving the value as it is; Rendering.ScaleRange states its range |
| Rendering.ScaleRange | src/rendering.c:83-98 | for a value in (0, 1], linear, log and sqrt scaling give a value in (0, 1]; sigmoid gives a value in (0, 1); an unrecognised method is the identity; every method but sigmoid maps 1 to 1 |
| Rendering.ScaleMonotone | src/rendering.c:83-98 | on (0, 1] every transfer function preserves order: linear, log, sqrt and an unrecognised method always, power for a positive exponent, sigmoid for a non-negative steepness |
| Rendering.Peak | src/rendering.c:63-68 | the peak is at least every counter, and is 0 or one of the counters |
| Rendering.Divisor | src/rendering.c:63-71 | the divisor is positive, at least every counter, and is attained by some counter when any is non-zero |
| Rendering.Border | src/rendering.c:59-60 | the border is the truncation of extent·percent |
| Rendering.Source | src/rendering.c:74-78 | a texture pixel shows a density cell exactly when it lies inside the window behind the border, and that cell is inside the map |
| Rendering.SourcePlacement | src/rendering.c:76-77 | cell (i, j) is shown at pixel (border_x + i, border_y + j) and at no other pixel |
| Rendering.Channel | src/rendering.c:101-104 | each channel of each pixel lies inside the width·height·4 floats |
| Rendering.ChannelInjective | src/rendering.c:101-104 | different channels or pixels occupy different floats |
| Rendering.Ratio | src/rendering.c:81 | a positive count at most the peak becomes a value in (0, 1], and the peak itself becomes 1 |
| Rendering.Texel | src/rendering.c:55-105 | a texture channel after normalisation: 0 outside the window and over empty cells, otherwise the scaled ratio in R, G and B and 1 in alpha; Rendering.BlankTexel and Rendering.ShownTexel state its properties |
| Rendering.BlankTexel | src/rendering.c:55-57 | outside the window, and over empty cells, every channel of the result is 0 |
| Rendering.ShownTexel | src/rendering.c:80-105 | a shown non-empty cell has R = G = B and A = 1; under linear, log or sqrt its grey lies in (0, 1]; the densest cell is white under every method but sigmoid |
| Rendering.TexelMonotone | src/rendering.c:80-104 | of two shown non-empty cells, the denser one is never drawn darker, under every order-preserving configuration |
| Rendering.FindPeak | src/rendering.c:63-68 | the first pass returns the peak of the density map |
| Rendering.Clear | src/rendering.c:55-57 | every float of the texture becomes 0 |
| Rendering.WriteTexel | src/rendering.c:101-104 | the pixel gets grey R, G, B and alpha 1; no other float changes |
| Rendering.CopyCell | src/rendering.c:76-105 | only the cell's own pixel changes, and it becomes its normalised texel |
| Rendering.NormalizeAttractorToTexture | src/rendering.c:51-108 | every channel of every pixel of the texture equals its normalised texel, for the window the borders define |
| Rendering.MaxRed | src/rendering.c:115-125 | the brightest red is -infinity or a positive finite value |
| Rendering.MaxRedIsBrightest | src/rendering.c:119-125 | the brightest red is -infinity exactly when no red is positive; otherwise it is at least every red and is one of them |
| Rendering.MinRed | src/rendering.c:128-134 | the darkest qualifying red is +infinity or finite |
| Rendering.MinRedIsDarkest | src/rendering.c:127-134 | the darkest qualifying red is +infinity exactly when no red exceeds the cutoff; otherwise it exceeds the cutoff, is at most every red above the cutoff, and is one of them |
| Rendering.Range | src/rendering.c:140-143 | the range is always positive, and is max - min whenever that is positive |
| Rendering.Clamp01 | src/rendering.c:157 | the gradient position lies in [0, 1] and is unchanged inside it |
| Rendering.Gradient | src/rendering.c:115-143 | the range used by the recolouring loop is positive, so its division is defined |
| Rendering.GradientBounds | src/rendering.c:128-143 | when some red is positive, the gradient's bottom is an actual red above 1% of the brightest and at most the brightest; the range is their difference, or 1 when they coincide |
| Rendering.MixBetween | src/rendering.c:159-161 | a position in [0, 1] gives a component between the starting and ending component, equal to them at 0 and 1 |
| Rendering.Colored | src/rendering.c:145-172 | a channel after recolouring, as a function of the pixel's old red and the gradient; Rendering.ColoredMeaning states its properties |
| Rendering.ColoredMeaning | src/rendering.c:145-172 | alpha is always 0; a non-positive red clears the pixel; otherwise each of R, G and B lies between its starting and ending component, and is the starting colour at or below the minimum and the ending colour at or above min + range |
| Rendering.GradientEnds | src/rendering.c:128-161 | when the darkest and brightest qualifying reds differ, the brightest pixel gets the ending colour and the darkest the starting colour |
| Rendering.FindMaxRed | src/rendering.c:115-125 | the first colouring pass returns the brightest positive red |
| Rendering.FindMinRed | src/rendering.c:128-134 | the second colouring pass returns the darkest red above the cutoff |
| Rendering.RecolorPixel | src/rendering.c:146-171 | the pixel's four channels become the recoloured values of its old red; no other float changes |
| Rendering.ApplyColoring | src/rendering.c:114-173 | every channel of every pixel becomes the recoloured value of its old red, under the gradient computed from the old texture |
| Fps.Empty | src/fps.c:24-27 | the initial ring has 512 slots |
| Fps.Push | src/fps.c:37-41 | the sample is written at the old pivot and every other slot is unchanged; the pivot advances by one modulo 512; the count grows by one up to 512 |
| Fps.Pushed | src/fps.c:37-41 | any run of samples from the initial state leaves the pivot and the count in range |
| Fps.PushedCounters | src/fps.c:39-40 | after n samples, the count is min(n, 512) and the pivot is n mod 512 |
| Fps.PushedUnwritten | src/fps.c:24-38 | slots the ring has not reached yet still hold 0 |
| Fps.PushedHoldsLatest | src/fps.c:38-39 | each of the latest (at most) 512 samples sits in the slot its position mod 512 names |
| Fps.RecordedPrefix | src/fps.c:37-41 | until the ring wraps, the first count slots hold exactly the recorded samples in order |
| Fps.Sum | src/fps.c:61-63 | the sum the averaging loop accumulates, front to back; Fps.SumBounds bounds it |
| Fps.SumBounds | src/fps.c:61-63 | a sum of n values in [lo, hi] lies in [n·lo, n·hi] |
| Fps.AverageBounds | src/fps.c:58-66 | the average of no samples is NaN; of some samples it lies between their least and greatest value |
| Fps.FpsCounter.constructor | src/fps.c:24-27 | the zero-initialised statics: every slot 0, pivot and count 0 |
| Fps.FpsCounter.Init | src/fps.c:29-35 | every slot becomes 0 and index i becomes i; pivot and count are unchanged |
| Fps.FpsCounter.AddSample | src/fps.c:37-41 | the new state is the old state with the sample pushed |
| Fps.FpsCounter.MaxFps | src/fps.c:43-53 | the result is non-negative, at least each of the first count slots, and is 0 or one of them |
| Fps.FpsCounter.AverageFps | src/fps.c:58-66 | the result is the float quotient of the first count slots' sum by the count, NaN when there are none |
| Chessboard.Color | src/main.c:149 | the grey level is 255 or 0, and 255 exactly when one of the square's column and row is odd and the other even |
| Chessboard.OffsetInBounds | src/main.c:144-147 | every channel of every pixel lies inside the 512·512·4 bytes |
| Chessboard.OffsetInjective | src/main.c:145-147 | different channels or pixels occupy different bytes |
| Chessboard.OffsetOnto | src/main.c:144-153 | every byte of the buffer is some channel of some pixel |
| Chessboard.SameSquareSameColor | src/main.c:142-149 | all pixels of one 64 × 64 square share its colour |
| Chessboard.NeighbourSquaresDiffer | src/main.c:142-149 | squares next to each other horizontally or vertically have different colours |
| Chessboard.MakeChessboard | src/main.c:140-155 | a fresh buffer of 512·512·4 bytes; each pixel has R = G = B = 255 when exactly one of its square's column and row is odd, and 0 otherwise; alpha is 255 |

## Left out

- `iterate_until_timeout` (src/attractor.c:88-94): it loops on the wall clock.
- `destroy_attractor` (src/attractor.c:66-74) calls the variant's destroy hook when that entry is set (it is null for Clifford) and then frees the density map, the parameters and the object. `destroy_clifford` (src/clifford.c:37) frees the buffer. The model has no deallocation, so neither is modelled.
- The upload helpers `set_shader_storage_buffer`, `clear_texture` and `render_texture_to_gl`: they are GL calls.
- `get_fps_buffer` and `get_fps_index_buffer`: they only expose the arrays, which are fields of `Fps.FpsCounter` here.
- The `*_with_sample_limit` functions and `get_fps_sample_count` are declared in src/fps.h:27-33 and called from src/gui.c. `normalize_texture_data` and `copy_attractor_to_texture_data` are declared in src/rendering.h:49-55. src/fps.c and src/rendering.c do not define them, and they are not part of this model.
- `randomize_clifford` (declared in src/clifford.h:35) is not part of this model. The randomize hook that stands for it is a parameter.
- src/clifford.c and src/rendering.h use the Clifford struct and `ColoringInfo` without defining them. The model's fields for them follow their uses in src/clifford.c:25-32 and src/rendering.c:159-161.
- IEEE single-precision rounding, overflow and underflow: finite floats are reals. In single precision the scaling edge of src/clifford.c:52-53 is one step wider than in the real model: the largest float below 2.0 also scales to `width`, because 1.99999988f + 2.0f rounds to 4.0f, so Clifford.ScaledRange and Clifford.SmallCoefficientsStayInside hold of the real model only. NaN or infinite values inside the texture are not modelled, and every texture value is a real.
- 32-bit overflow of `width * height` and of the index products: the model's integers are unbounded. The `int` loop counters in the source are modelled as naturals.
- The `& 1` parity in the chessboard colour is written as remainder modulo 2. The two agree on the non-negative quotients that reach it.
- Attractor.Attractor.RandomizeUntilChaotic: the source loop has no attempt bound. The model stops after `maxAttempts` attempts with `settled == false`; at that point the source would still be searching.
- Attractor.Attractor.Randomize: the random draw is an explicit parameter, and the chaos search uses draws 0, 1, 2, ... in turn.
- Clifford.Clifford.Iterate: it models the corrected index (`Clifford.Cell`), so the out-of-bounds write of the source at a clamped 2.0 is not reproduced. It is stated separately under Findings. On a grid with no cells it writes nothing, where the source writes out of bounds of its zero-length buffer.
- Rendering.ScaleRange: it says nothing about the range of power scaling beyond 1 ↦ 1, because it depends on powf for arbitrary exponents.
- Rendering.ScaleMonotone: it states no order for power scaling with an exponent ≤ 0 or a sigmoid with a negative steepness, where the transfer function is not increasing.
- Rendering.RecolorPixel: the powf alpha is computed and then overwritten with 0, as in the source. Its value is not constrained.
- Fps.FpsCounter.MaxFps and Fps.FpsCounter.AverageFps scan slots 0 .. count-1. After the ring wraps this is the whole ring, as in the source.
- src/clifford.c:55 writes 255 into a visited cell; it does not increment a hit count.
- src/clifford.c:48-49 clamps each coordinate to the fixed range [-2, 2], whatever c and d are.
- src/clifford.c:39-45 keeps the orbit in by-value locals, so each call restarts from the point it is given.
- The chaos search's exit test also passes when occupancy is NaN (an empty grid). The model keeps that, so "occupancy ≥ 0.01 after the search" holds only for non-empty grids (Attractor.ChaoticMeansOccupied).

## Findings

| source | as written | input that shows it | evidently intended | confidence | as-written member | corrected member |
|---|---|---|---|---|---|---|
| src/clifford.c:52-55 | a clamped coordinate of exactly 2.0 scales to `width` (or `height`). At x = 2.0 the write lands in the first cell of the next row; at y = 2.0 it lands past the end of the buffer | any step whose new x exceeds 2 (possible whenever \|c\| > 1), which clamps to exactly 2.0; or the default c = 1.0 at a point with cos(a·x) = 1 and sin(a·y) = 1 (x = 0, a·y = π/2), where the next x is 2.0: either way the column is `width`. In single precision the largest float below 2.0, 1.99999988f, scales to `width` too (1.99999988f + 2.0f rounds to 4.0f); it is reachable with \|c\| < 1, e.g. c = 0.99999994f, x = 0 and a·y near π/2 | every write lands in the visited cell of the `width × height` grid, capping the scaled coordinate at the last column or row | high for a step beyond 2, since the clamp yields exactly 2.0 in float too; not executed | Clifford.AsWrittenIndexEscapes | Clifford.Cell |
