# AAOCASeg cardiac-phase gating, modelled in Dafny

AAOCASeg segments intravascular ultrasound (IVUS) pullbacks of anomalous
aortic origin of a coronary artery. This project models the logic of its
contour-based gating. A gating session normalises and smooths per-frame signals,
detects their extrema and fuses the signals by the regularity of their extrema.
It reconciles the scale of the two fused curves and lets the operator place
phase markers on the plot. It also models two smaller pieces beside it:

- the contour store behind the image view (downsampling, rescaling, clearing a
  contour when a new one is drawn, the manual-drawing point buffer);
- the post-processing script (the systole/diastole row split and the
  frame-difference to millimetre z-position column).

Files and modules:

- `signals.dfy` (`Signals`): sums, minimum, mean, `normalize_data`, and
  `np.convolve(..., mode='same')` with the moving-average formula proved
  against an independent window sum.
- `sorting.dfy` (`Sorting`): the ascending sort behind `np.sort`, uniqueness of
  sorted permutations, and the descending sort of `sort_values(ascending=False)`.
- `extrema.dfy` (`Extrema`): `argrelextrema` with strict neighbours and
  `identify_extrema`.
- `fusion.dfy` (`Fusion`): `combined_signal` as three list-building loops and an
  accumulation loop; the inverse-share weights; the scale block of `plot_data`.
- `gating.dfy` (`Gating`): the frame-range check of `define_intramural_part`,
  Python slicing, `crop_frames`, `calculate_correlation`, and the marker editor.
  The editor is a pure state machine (`Click`, `Motion`, `Release`) plus the
  class `ContourBasedGating` whose handlers update its fields in place.
- `contour_display.dfy` (`ContourDisplay`): `downsample`, `resize` on arrays in
  place, and the class `Display` with `setFrame`, `new` and `addManualSpline`.
- `postprocessing.dfy` (`Postprocessing`): the even/odd row split,
  `calculate_zposition` filling an array in a loop, and the script's use of the
  two phases.
- `wrappers.dfy` (`Wrappers`): the `Option` type.

Floats are exact reals, so sums, means and quotients are exact. Python's
`round` is round-half-to-even. `int()` truncates toward zero. Python slices
clamp out-of-range bounds and count negative bounds from the end. Pearson
correlation and `np.std` are abstract functions passed in as parameters.

Three points of the code that a reader might expect to be otherwise:

- `combined_signal` adds up its input signals, each times its weight
  (gating/contour_based_gating.py:146-148). The re-smoothed copies only feed
  the variabilities. In `plot_data` the inputs are themselves smoothed curves.
- `get_x_indices` returns the raw marker positions, in creation order, not
  rounded to frames (gating/contour_based_gating.py:188-190).
- The comment at gating/contour_based_gating.py:211 says the scale block
  scales the smaller curve to match the larger one. The first branch does
  bring the two means together. The else branch multiplies the max-family
  curve, already the larger, by a factor of at least 1 (see Findings).

## Model

| member | source | states |
|---|---|---|
| Signals.Min | gating/contour_based_gating.py:88 | the minimum is at most every sample and is attained by one |
| Signals.Normalize | gating/contour_based_gating.py:87-88 | for a non-constant signal the result has the input's length, no negative entry, an entry equal to 0, sum exactly 1, and the same order between any two samples |
| Signals.NormalizeMinIsZero | gating/contour_based_gating.py:87-88 | the minimum of a normalised non-constant signal is 0 |
| Signals.SumScale | gating/contour_based_gating.py:223 | scaling a signal scales its sum by the same factor |
| Signals.MeanScale | gating/contour_based_gating.py:216-227 | scaling a signal scales its mean by the same factor |
| Signals.SumPositive | gating/contour_based_gating.py:88 | non-negative samples with one positive sample have a positive sum, so the normalising divisor is not 0 |
| Signals.DivBySumIsOne | gating/contour_based_gating.py:88 | dividing by a positive sum gives samples that sum to 1 |
| Signals.ConvolveSame | gating/contour_based_gating.py:153 | numpy's 'same' convolution has length max(len(a), len(v)) |
| Signals.SmoothCurve | gating/contour_based_gating.py:152-153 | the smoothed signal has length max(len(signal), window) |
| Signals.SmoothWindow | gating/contour_based_gating.py:152-153 | output i is the sum of the samples at positions c-(w-1)..c divided by w, with c = i + (min(n, w) - 1) / 2 and positions outside the signal counting 0; so w = 5 averages i-2..i+2 and w = 2 averages i-1..i |
| Sorting.Sort | gating/contour_based_gating.py:118 | the result is sorted and is a permutation of the input |
| Sorting.InsertSorted | gating/contour_based_gating.py:118 | inserting into a sorted sequence keeps it sorted and adds exactly the new element to its multiset |
| Sorting.SortedUnique | gating/contour_based_gating.py:118 | two sorted sequences with the same elements are equal |
| Sorting.SortDescending | postprocessing.py:32-33 | the result is in descending order and is a permutation of the input |
| Extrema.IndicesWhere | gating/contour_based_gating.py:113-114 | the listed indices are exactly those in range satisfying the test, strictly increasing |
| Extrema.DisjointIndices | gating/contour_based_gating.py:117 | listing two disjoint index sets and joining them gives, as a multiset, the listing of their union |
| Extrema.SortedExtremaListing | gating/contour_based_gating.py:117-118 | np.sort of the maxima followed by the minima is the ascending listing of every interior strict extremum |
| Extrema.IdentifyExtremaSpec | gating/contour_based_gating.py:112-120 | the first result is strictly increasing and holds exactly the interior strict maxima and minima; the second holds exactly the strict maxima, ascending; endpoints are never returned |
| Extrema.ExtremaExample | gating/contour_based_gating.py:112-120 | on [0, 1, 0, 1, 0] the maxima are {1, 3} and all extrema are {1, 2, 3} |
| Fusion.Diff | gating/contour_based_gating.py:140 | np.diff has one entry fewer than a non-empty input, and positive entries on a strictly increasing input |
| Fusion.Variabilities | gating/contour_based_gating.py:124-140 | one variability per signal, built by the three passes over the signals |
| Fusion.VariabilitiesAt | gating/contour_based_gating.py:124-140 | variability j is std of the spacings between the extrema of signal j after re-smoothing |
| Fusion.SmoothAll | gating/contour_based_gating.py:124-127 | entry j of the list is signal j re-smoothed with the given window |
| Fusion.ExtremaAll | gating/contour_based_gating.py:130-135 | the loop builds one list per smoothed signal: entry j is its maxima in maxima-only mode, otherwise all its extrema |
| Fusion.SpacingVariability | gating/contour_based_gating.py:137-140 | the loop builds one value per extrema list: entry j is std of the differences of list j |
| Fusion.ExtremaVariability | gating/contour_based_gating.py:123-140 | the variability list equals std of the extrema spacings of each re-smoothed signal |
| Fusion.WeightedSum | gating/contour_based_gating.py:146-148 | starting from zeros and adding each weighted signal in turn, sample i ends as the sum over j of weight j times signal j at i |
| Fusion.Weights | gating/contour_based_gating.py:143-144 | one weight per variability, every weight positive when every variability is |
| Fusion.WeightsReciprocalsSumToOne | gating/contour_based_gating.py:143-144 | the reciprocals of the weights sum to 1 |
| Fusion.WeightsInverseOrder | gating/contour_based_gating.py:144 | a lower variability gives a strictly larger weight, and conversely |
| Fusion.WeightsExample | gating/contour_based_gating.py:143-144 | variabilities 2 and 8 give weights 5 and 1.25 |
| Fusion.CombinedSignal | gating/contour_based_gating.py:122-150 | the fused signal has the length of the first input, and sample i is the sum over j of weight j times input signal j at i (inputs, not the re-smoothed copies) |
| Fusion.FusedPairExample | gating/contour_based_gating.py:143-148 | with variabilities 2 and 8 the fused sample is 5*s1[i] + 1.25*s2[i] |
| Fusion.ReconcileScale | gating/contour_based_gating.py:216-228 | factor = mean(max) / mean(extrema); below 1 only the extrema curve is scaled and the means become equal; otherwise only the max curve is scaled and its mean becomes factor times its old mean |
| Fusion.ReconcileElseBranchMeans | gating/contour_based_gating.py:219-228 | in the else branch the means end up equal if and only if they were already equal |
| Fusion.ReconcileHalvesExtrema | gating/contour_based_gating.py:219-224 | means 4 and 8: only the extrema curve is scaled, by 0.5 |
| Fusion.ReconcileWidensGap | gating/contour_based_gating.py:225-228 | means 8 and 4: the max curve is doubled to mean 16 while the extrema curve stays at mean 4 |
| Fusion.ReconcileScaleMatched | gating/contour_based_gating.py:216-228 | corrected reconciliation: exactly one curve is rescaled, the other is untouched, and the means are equal afterwards |
| Gating.SliceBound | gating/contour_based_gating.py:69 | a slice bound lands in [0, n]; a negative bound counts from the end; a bound past the end stops at the end |
| Gating.PySlice | gating/contour_based_gating.py:69 | `s[a:b]` has length hi - lo of the clamped bounds (0 if reversed) and entry k is s[lo + k] |
| Gating.PySliceCases | gating/contour_based_gating.py:69 | within bounds a Python slice is the plain slice, past the end it stops at the end, a reversed range is empty |
| Gating.CropImage | gating/contour_based_gating.py:76 | a cropped frame has as many rows as the row slice |
| Gating.CropStack | gating/contour_based_gating.py:76 | cropping keeps the number of frames |
| Gating.CropPixels | gating/contour_based_gating.py:74-76 | pixel (i, j) of a cropped frame is pixel (x1 + i, y1 + j) of the original; a large enough frame is cut to (x2 - x1) by (y2 - y1) |
| Gating.CropImagePixels | gating/contour_based_gating.py:76 | every pixel of a cropped frame exists in the original at the offset (x1, y1) and equals it |
| Gating.CropImageShape | gating/contour_based_gating.py:76 | a frame with at least x2 rows of at least y2 pixels is cut to exactly (x2 - x1) by (y2 - y1) |
| Gating.FrameNumbers | gating/contour_based_gating.py:70 | one frame number per row |
| Gating.RowsInRange | gating/contour_based_gating.py:58-60 | a row is kept if and only if its frame lies in lower+1..upper |
| Gating.RowsInRangeIsMask | gating/contour_based_gating.py:58-60 | the boolean-mask cut keeps each in-range row exactly as many times as the report holds it, drops every other row, and keeps report order |
| Gating.MissingFrames | gating/contour_based_gating.py:62-66 | the listed frames are exactly those in lower+1..upper that no row carries, ascending |
| Gating.CheckFrameRange | gating/contour_based_gating.py:58-68 | the kept rows are the in-range rows; rejection happens exactly when their count is not upper - lower, and then the missing frames are listed |
| Gating.FrameRange | gating/contour_based_gating.py:63 | the frames lower+1..upper, upper - lower of them |
| Gating.AcceptedIffComplete | gating/contour_based_gating.py:58-68 | with one row per frame and lower <= upper, the range is accepted if and only if every frame in it has a row, and a rejection names at least one frame |
| Gating.KeptFramesExact | gating/contour_based_gating.py:58-60 | the rows kept by the cut carry exactly the frames of lower+1..upper that the report carries |
| Gating.KeptCountIffComplete | gating/contour_based_gating.py:58-61 | with one row per frame and lower <= upper, the cut keeps upper - lower rows exactly when every frame of the range has a row |
| Gating.ReversedRangeRejected | gating/contour_based_gating.py:58-68 | with upper < lower no row is kept and the range is rejected naming no frame |
| Gating.DuplicateRowMasksGap | gating/contour_based_gating.py:61 | two rows for frame 1 pass the range 1..2 although frame 2 has no row |
| Gating.MissingFrameTwelve | gating/contour_based_gating.py:58-68 | frames 1..50 without 12: the range is rejected and 12 is the only frame named |
| Gating.RoundHalfEven | gating/contour_based_gating.py:175 | round() is within 1/2 of its argument, and ties go to the even integer |
| Gating.RoundHalfEvenUnique | gating/contour_based_gating.py:175 | those two properties determine the rounded value |
| Gating.RoundHalfEvenExamples | gating/contour_based_gating.py:185 | round(2.5) = 2, round(3.5) = 4, round(-0.5) = 0, round(1.4) = 1, round(1.6) = 2 |
| Gating.Nearest | gating/contour_based_gating.py:166-169 | argmin of the distances: a nearest marker, and no earlier marker is as near |
| Gating.Click | gating/contour_based_gating.py:155-175 | ignored while zooming or panning, for other buttons and outside the axes; otherwise the slider goes to round(x - 1) and, if some marker is closer than len(frames)/100, the first nearest is selected and nothing is added, else x is appended and the selection is unchanged |
| Gating.Motion | gating/contour_based_gating.py:180-186 | while dragging with the left button, only the selected marker moves, to x, and the slider follows; otherwise nothing changes; a drag outside the axes fails |
| Gating.Release | gating/contour_based_gating.py:177-178 | the selection is cleared and every marker stays |
| Gating.ReplayKeepsMarkers | gating/contour_based_gating.py:155-186 | over any event stream the selection stays a valid marker, no marker is deleted, and at most one marker is added per event |
| Gating.MarkerLifecycle | gating/contour_based_gating.py:155-190 | clicks at 30 and 10 make two markers, a click at 10.5 selects the second, a drag to 12 moves only it, and the release keeps both in creation order |
| Gating.ContourBasedGating.constructor | gating/contour_based_gating.py:15-28 | a session over a freshly computed report starts with that report, no frames, no markers and no selection |
| Gating.ContourBasedGating.DefineIntramuralPart | gating/contour_based_gating.py:50-72 | a declined dialog changes nothing; otherwise the report is cut to the range even when the range is rejected; on success the frames become images[lower:upper] and x the kept frame numbers |
| Gating.ContourBasedGating.CropFrames | gating/contour_based_gating.py:74-76 | the frames are replaced by their crop; nothing else changes |
| Gating.ContourBasedGating.CalculateCorrelation | gating/contour_based_gating.py:90-97 | as many values as frames (one when there are none), value i the correlation of frames i and i+1, and a trailing 0 |
| Gating.ContourBasedGating.OnClick | gating/contour_based_gating.py:155-175 | the markers, selection and slider become Click of the old ones |
| Gating.ContourBasedGating.OnMotion | gating/contour_based_gating.py:180-186 | the markers, selection and slider become Motion of the old ones, or the handler reports failure |
| Gating.ContourBasedGating.OnRelease | gating/contour_based_gating.py:177-178 | the markers become Release of the old ones |
| Gating.ContourBasedGating.GetXIndices | gating/contour_based_gating.py:188-190 | the marker positions in creation order |
| ContourDisplay.EveryNthPositions | gui/display.py:192-193 | keeping positions j with j % step == 0 keeps ceil(n/step) points, the first point always, and point k is pts[k*step] |
| ContourDisplay.EveryNthSubsequence | gui/display.py:192-193 | the kept points appear in their original order |
| ContourDisplay.Step | gui/display.py:191 | len // num_points is at least 1 once there are num_points points and 0 below |
| ContourDisplay.Downsample | gui/display.py:182-195 | fails exactly when some non-empty frame has fewer than num_points points, naming the first; otherwise as many frames as the x-lists, empty frames stay empty, and a non-empty frame keeps every step-th x and y point with the step of its x-list |
| ContourDisplay.Trunc | gui/display.py:147 | int() is the integer between 0 and its argument less than 1 away from it |
| ContourDisplay.TruncScaled | gui/display.py:147 | int(val * scale) is a whole number between 0 and val*scale, less than 1 away |
| ContourDisplay.ScaleTrunc | gui/display.py:147 | every value is rescaled and truncated toward zero; the number of points is kept |
| ContourDisplay.Resize | gui/display.py:144-151 | in place: a frame with a non-empty x-list has its x-list and its y-list rescaled, other frames are untouched, and the same lists are returned |
| ContourDisplay.ClearFrame | gui/display.py:317-324 | the x and y lists of the given frame are emptied and every other frame is unchanged |
| ContourDisplay.AddPoint | gui/display.py:262-287 | the buffer is emptied when the new point closes the drawing, otherwise it grows by exactly that point |
| ContourDisplay.AddPointKeepsOpen | gui/display.py:279-287 | an open buffer (no point after the first near the first) stays open |
| ContourDisplay.FeedKeepsOpenSuffix | gui/display.py:259-287 | over any stream of points the buffer stays open and holds exactly the points since the last close |
| ContourDisplay.Display.constructor | gui/display.py:29-51 | the display starts at frame 0, not drawing, with empty contours and an empty buffer |
| ContourDisplay.Display.SetFrame | gui/display.py:330-331 | the current frame becomes the value, nothing else changes, and the buffer invariant is kept |
| ContourDisplay.Display.New | gui/display.py:309-326 | drawing starts and the selection is stored for any selection; 0, 1 and 2 empty the stent, plaque and lumen contour at the current frame only; the buffer invariant is kept |
| ContourDisplay.Display.AddManualSpline | gui/display.py:256-287 | the buffer becomes AddPoint of the old one, drawing stops when the point closes it, a spline exists from the fourth point, and the buffer invariant is kept |
| Postprocessing.SplitPartitions | postprocessing.py:13-14 | systole and diastole rows together are the table as a multiset, and interleaving them gives the table back |
| Postprocessing.SplitSizes | postprocessing.py:13-14 | systole holds ceil(n/2) rows and diastole floor(n/2) |
| Postprocessing.ZColumn | postprocessing.py:21-30 | the column has one entry per row, 0 at the first and at the last row |
| Postprocessing.FillZPosition | postprocessing.py:22-28 | the array filled by the loop equals the z-position column |
| Postprocessing.CalculateZPosition | postprocessing.py:21-30 | the table passed in gets the z-position column and is returned; its frames are unchanged |
| Postprocessing.ZNonDecreasing | postprocessing.py:23-28 | with positive speed and rate the column does not decrease over rows 0..n-2 |
| Postprocessing.ZIgnoresFirstRow | postprocessing.py:23-28 | the frame number of row 0 does not affect the column (the first gap is never counted) |
| Postprocessing.TravelTelescopes | postprocessing.py:23-28 | on frames in descending order, z at row i is (f[1] - f[i+1]) / rate * speed |
| Postprocessing.ZExample | postprocessing.py:22-28 | frames 10, 8, 5, 2 at 30 fps and 0.5 mm/s give z = 0, 0.05, 0.1, 0 |
| Postprocessing.PhasePositions | postprocessing.py:32-35 | the table named dia holds the systole rows in descending frame order and the one named sys the diastole rows, each with its z-position column |

## Left out

- Pearson correlation (`np.corrcoef`) is the parameter `corr` of `CalculateCorrelation`; floating-point library numerics are not modelled.
- `calculate_blurring_fft` (the FFT blur score) is not modelled; it is floating-point library numerics.
- `np.std` of the extrema spacings is the parameter `std`; it needs a square root.
- `prepare_data`, `plot_data` outside its scale block, and `__call__` are not modelled. They orchestrate the modelled operations and do the plotting.
- Plotting, `plt.draw`, the status bar, `ErrorMessage`, `FrameRangeDialog` and `report(...)` are not modelled. The dialog's outcome becomes the inputs `accepted`, `lower` and `upper`.
- The canvas cursor-shape test is the flag `navigating`.
- The unused `mean_elliptic_ratio` and the dead methods after `plot_data` are not modelled.
- Signals.Normalize: requires a non-constant signal. numpy divides 0 by 0 there and yields NaN rather than raising.
- Fusion.Weights: requires positive variabilities. A zero variability makes numpy yield inf or NaN rather than raise.
- Fusion.CombinedSignal: does not model the NaN path. A re-smoothed signal with fewer than two extrema has an empty spacing list, and `np.std` of it is NaN, so every weight and the whole fused curve become NaN (gating/contour_based_gating.py:140-148). The parameter `std` is an arbitrary real-valued function, so the model gives finite weights there.
- Fusion.ReconcileScale: requires a non-zero extrema-family mean, for the same reason.
- Gating.Motion and Gating.ContourBasedGating.OnMotion: a drag outside the axes is reported as a failure, and OnMotion then keeps the old state. The source first sets the selected marker's position to None and then raises. The model leaves the markers unchanged and does not represent a missing position.
- Gating.ContourBasedGating.DefineIntramuralPart: report rows carry the frame and the three geometry measures; the report's other columns are not modelled.
- ContourDisplay.Downsample: requires num_points > 0 and y-lists for at least as many frames as x-lists. The source raises only when a frame with a non-empty x-list breaks these (gui/display.py:190-193), so the requires also excludes some inputs on which it returns normally; both calls in gui/display.py use the default num_points 20, and the one at line 289 passes one x-list and one y-list.
- ContourDisplay.Resize: requires two distinct lists and a y-list no longer than the x-list. The source raises IndexError for a longer y-list.
- ContourDisplay.Display.New: requires the current frame to index the cleared contour kind. The source raises IndexError otherwise. Negative indices are not modelled.
- ContourDisplay.Display.AddManualSpline: the `Spline` object is reduced to the flag `hasSpline`. Not modelled: the spline update, the scene items, the write of the downsampled spline into a contour when the drawing closes, the cursor change and `displayImage`. The distance test `sqrt(d) < 10` is modelled as `d < 100`.
- `displayImage`, `mousePressEvent`, `mouseMoveEvent`, `mouseReleaseEvent`, `findItem`, `getData`, `setData` and `resizeContours` are not modelled (Qt rendering, or geometry from the gui.geometry module, which is not part of this model).
- Postprocessing.CalculateZPosition: requires at least three rows, because the source reads row 2 unconditionally and raises otherwise. It also requires a non-zero frame rate. Frame numbers are integers.
- Postprocessing.PhasePositions: requires at least six report rows, so that each phase has three. A phase table keeps only its frame and z_position columns.
- Postprocessing: rows are assumed to have their default positional index.
- Postprocessing: the CSV read and write, renaming, the frame-difference mean, the heart rate and the merge are not modelled.
- segmentation/predict.py, segmentation/save_as_nifti.py and filters/nonlocal_means.py are not part of this model. They are model inference, file writes and library wrappers.

## Findings

| source | as written | input that shows it | evidently intended | confidence | as-written member | corrected member |
|---|---|---|---|---|---|---|
| gating/contour_based_gating.py:225-228 | when mean(max) / mean(extrema) >= 1 the max-family curve, already the larger, is multiplied by that factor | max-family mean 8, extrema-family mean 4: factor 2, the max curve goes to mean 16 while the other stays at 4 | both curves brought to the same mean, as the other branch does: scale the larger curve by 1/factor (or the smaller by factor) | not executed | Fusion.ReconcileWidensGap | Fusion.ReconcileScaleMatched |
