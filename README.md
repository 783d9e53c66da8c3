# touchscreen-toolbox, modelled in Dafny

touchscreen-toolbox turns videos of mice working in a touchscreen chamber into per-frame
behaviour tables. A DeepLabCut pose table gives, for every frame, the x, y and confidence of 14
points: eight on the mouse and six on the chamber. The postprocessing pipeline works on that table:

- **Refine** (`refine.dfy`, and the in-place older copy in `extract.dfy`). Coordinates whose
  confidence is below `P_CUTOFF` are blanked. The confidence columns are dropped. Every column is
  smoothed by a centred rolling median of five frames that keeps gaps as gaps, and then by a
  Savitzky-Golay filter.
- **Standardize** (`standardize.dfy`, `fill.dfy`). y is flipped. The chamber's reference points
  are pinned to their medians. `ll_corner` is moved to the origin. The plane is rotated and scaled
  so that `lr_corner` lands at (TRAY_LENGTH, 0). Gaps are filled: runs between two values are
  interpolated, and runs at either end take the nearest value. A column is filled only when one
  of its missing frames is not frame 0, so a column whose only gap is frame 0 keeps it.
- **Features** (`feature.dfy`, `arithmetic.dfy`). Distances, speeds and angles are computed
  between the mouse's body points, and between the snout and the screens and food port. The
  angular velocity of `get_angv` is wrapped into [-180, 180]; the `angv-` columns of the feature
  table are the unwrapped frame-to-frame change of the angle.
- **Event alignment** (`timestamp.dfy`). The events of the chamber's log are moved onto the
  video's frames, and colliding frames are bumped. The state is forward-filled and re-coded.
  Trials are numbered from their start events. The trial parameters and the subject's attributes
  are joined on.
- **Quality statistics** (`statistics.dfy`). For each confidence column: the frames without
  confidence, their fraction, and the longest run of them.

Around the pipeline sit:

- the schema of column names and constants (`config.dfy`, `layout.dfy`);
- the per-video information (`video_info.dfy`): decoding a video's name, the cut window, and the
  saved and exported information;
- the path bookkeeping of video preprocessing (`preprocess.dfy`);
- the label side of flip augmentation for training images (`augment.dfy`).

`tables.dfy`, `strings.dfy` and `wrappers.dfy` hold the pandas, `str` and optional-value
operations these rely on.

Numbers are `real`, frame numbers `int`, and a missing cell is `None`. A table is a sequence of
named columns, and a column's index labels are its positions 0, 1, .... Where the source changes
things in place, the model does too:

- the pose table of standardize and extract is class `Standardize.PoseFrame`;
- the event log of `merge_states` is class `Timestamp.StateLog`;
- the `vid_info` dictionary is class `VideoInfo.VidInfo`;
- the caller's label list of `augment` is class `Augment.Labels`.

Each method is proved against a function, and the lemmas are about that function.
`sqrt`, `arctan2` and `pi` are parameters (`Arithmetic.Math`), constrained only by the facts the
proofs use (`Arithmetic.Lawful`).

## Model

| member | source | states |
|---|---|---|
| Arithmetic.AbsMin | touchscreen_toolbox/utils/arithmetic.py:6-11 | each entry is the entry of `x1` or of `x2` at that position, its magnitude is no larger than either's, and on a tie it is `x2`'s |
| Arithmetic.AbsMax | touchscreen_toolbox/utils/arithmetic.py:14-19 | each entry is the entry of `x1` or of `x2` at that position, its magnitude is no smaller than either's, and on a tie it is `x2`'s |
| Arithmetic.Dist1 | touchscreen_toolbox/utils/arithmetic.py:24-26 | the distance of a point from the origin is non-negative and its square is x² + y² |
| Arithmetic.Dist2 | touchscreen_toolbox/utils/arithmetic.py:29-31 | the distance between two points is non-negative and its square is the sum of the squared coordinate differences |
| Arithmetic.Dist2Symmetric | touchscreen_toolbox/utils/arithmetic.py:29-31 | the distance from p to q equals the distance from q to p |
| Arithmetic.ConvertedAll | touchscreen_toolbox/utils/arithmetic.py:36-41 | converting a series of angles keeps its length and converts each angle on its own |
| Arithmetic.Converted | touchscreen_toolbox/utils/arithmetic.py:36-41 | a radian result is the angle or the angle plus 2π; a degree result is that radian value times 180/π |
| Arithmetic.ConvertedRange | touchscreen_toolbox/utils/arithmetic.py:36-41 | an angle in (-2π, 2π) is mapped into [0, 2π) in radians and into [0, 360) in degrees |
| Arithmetic.ConvertedKeeps | touchscreen_toolbox/utils/arithmetic.py:38-39 | a non-negative angle is left unchanged when radians are requested |
| Arithmetic.ConvertAngles | touchscreen_toolbox/utils/arithmetic.py:36-41 | the array is converted in place: each entry gains 2π when negative and is then turned into degrees unless radians are requested |
| Arithmetic.Angle1 | touchscreen_toolbox/utils/arithmetic.py:44-47 | each result is the converted atan2 of its vector and lies in [0, 2π) or [0, 360) |
| Arithmetic.Angle2 | touchscreen_toolbox/utils/arithmetic.py:50-53 | each result is the converted difference of the two vectors' atan2 values and lies in [0, 2π) or [0, 360) |
| Arithmetic.Angle3 | touchscreen_toolbox/utils/arithmetic.py:56-60 | the angle at the middle point lies in [0, 2π) or [0, 360) |
| Arithmetic.Angle3Translation | touchscreen_toolbox/utils/arithmetic.py:56-60 | moving all three points by the same offset leaves the angle unchanged |
| Arithmetic.AbsAngle | touchscreen_toolbox/utils/arithmetic.py:63-67 | the absolute angle lies in [0, 2π) or [0, 360) |
| Arithmetic.AbsAngleIsAngle3 | touchscreen_toolbox/utils/arithmetic.py:56-67 | the absolute angle of v about u is the three-point angle at u, from the point one unit to its right round to v |
| Arithmetic.RoundHalfEven | touchscreen_toolbox/utils/arithmetic.py:77 | `np.round` to an integer moves its argument by at most one half, and a half goes to the even neighbour |
| Arithmetic.RoundTies | touchscreen_toolbox/utils/arithmetic.py:77 | 2.5 rounds to 2, 3.5 to 4 and -2.5 to -2 |
| Arithmetic.RoundInteger | touchscreen_toolbox/utils/arithmetic.py:77 | an integer is rounded to itself |
| Arithmetic.RoundBounds | touchscreen_toolbox/utils/arithmetic.py:77 | rounding keeps a value's integer bounds |
| Arithmetic.RoundMonotone | touchscreen_toolbox/utils/arithmetic.py:77 | rounding never reverses the order of two values |
| Arithmetic.Round4 | touchscreen_toolbox/postprocess/standardize.py:119 | rounding to four decimals moves a value by at most 0.00005 |
| Arithmetic.Round4Ties | touchscreen_toolbox/postprocess/standardize.py:119 | a tie at the fourth decimal goes to the even digit: 0.00125 to 0.0012, 0.00135 to 0.0014 |
| Arithmetic.Round4Exact | touchscreen_toolbox/postprocess/standardize.py:119 | a value with at most four decimals is left unchanged by the rounding |
| Arithmetic.Round4Idempotent | touchscreen_toolbox/postprocess/standardize.py:119 | rounding twice to four decimals gives the same result as rounding once |
| Arithmetic.Frame2Sec | touchscreen_toolbox/utils/arithmetic.py:72-73 | the seconds times FPS give the frame number back |
| Arithmetic.Sec2Frame | touchscreen_toolbox/utils/arithmetic.py:76-77 | the frame is within half a frame of FPS times the seconds |
| Arithmetic.FrameSecondRoundTrip | touchscreen_toolbox/utils/arithmetic.py:72-77 | converting a frame number to seconds and back gives the same frame |
| Arithmetic.SecondFrameRoundTrip | touchscreen_toolbox/utils/arithmetic.py:72-77 | converting seconds to a frame and back is off by at most half a frame's duration |
| Strings.DropLast | touchscreen_toolbox/pose_estimation/preprocess.py:183 | Python's `s[:-k]`: for 0 < k <= len(s) the first len(s) - k characters, which the last k complete to `s`; empty when k = 0 or when the cut reaches past the start |
| Strings.Without | touchscreen_toolbox/video_info.py:70 | `"".join(s.split("-"))` is never longer than `s` |
| Strings.WithoutMembers | touchscreen_toolbox/video_info.py:70 | the result holds exactly the characters of `s` other than the removed one |
| Strings.WithoutConcat | touchscreen_toolbox/video_info.py:70 | removing a character from a concatenation removes it from each part |
| Strings.WithoutIdentity | touchscreen_toolbox/video_info.py:70 | a string that does not contain the character is unchanged |
| Strings.InfixFromSlice | touchscreen_toolbox/config.py:52-54 | the substring search from index i succeeds exactly when `t` occurs at some index j ≥ i of `s` |
| Strings.ContainsAcross | touchscreen_toolbox/config.py:52-54 | for a tag and a suffix that both start with `_`, the tag occurs in name + suffix exactly when it occurs in the name or in the suffix |
| Tables.Names | touchscreen_toolbox/postprocess/refine.py:14 | the column names, one per column, in column order |
| Tables.IndexOf | touchscreen_toolbox/postprocess/standardize.py:14 | the first position that holds the value |
| Tables.Get | touchscreen_toolbox/postprocess/standardize.py:14 | `df[name]` is the cells of a column that has that name |
| Tables.Drop | touchscreen_toolbox/postprocess/refine.py:14 | `drop(columns=names)` never adds columns |
| Tables.DropKeeps | touchscreen_toolbox/postprocess/refine.py:14 | after `drop(columns=names)` no column has a listed name, and every column with an unlisted name is kept |
| Tables.DropConcat | touchscreen_toolbox/postprocess/refine.py:14 | dropping from two tables placed side by side is dropping from each |
| Tables.LastPresent | touchscreen_toolbox/postprocess/standardize.py:87 | there is a last present value before i exactly when some cell before i is present |
| Tables.FirstPresent | touchscreen_toolbox/postprocess/standardize.py:86 | there is a first present value from i on exactly when some cell from i on is present |
| Tables.FFill | touchscreen_toolbox/postprocess/timestamp.py:55 | forward filling keeps the length and every present cell |
| Tables.BFill | touchscreen_toolbox/postprocess/standardize.py:86 | backward filling keeps the length and every present cell |
| Tables.FFillLatest | touchscreen_toolbox/postprocess/timestamp.py:55 | a forward-filled cell holds the latest present cell at or before it |
| Tables.FFillLeading | touchscreen_toolbox/postprocess/timestamp.py:55 | a cell with no present cell at or before it stays missing |
| Tables.Insert | touchscreen_toolbox/postprocess/refine.py:50 | inserting into a sorted list gives a sorted list holding the old values and the new one |
| Tables.Sort | touchscreen_toolbox/postprocess/refine.py:50 | the result is sorted and is a permutation of the input |
| Tables.Present | touchscreen_toolbox/postprocess/refine.py:50 | the values that are not NaN are never more than the cells |
| Tables.PresentMember | touchscreen_toolbox/postprocess/refine.py:50 | a value is among the present values exactly when some cell holds it |
| Tables.Median | touchscreen_toolbox/postprocess/refine.py:50 | the median of no values is missing, and of some values is present |
| Tables.MedianBounds | touchscreen_toolbox/postprocess/refine.py:50 | the median lies between the smallest and the largest value, and equals the value when all values are equal |
| Config.Select | touchscreen_toolbox/config.py:52-54 | the comprehension `[i for i in HEADERS if tag in i]` never lengthens the list |
| Config.SelectMembers | touchscreen_toolbox/config.py:52-54 | the comprehension keeps exactly the names that contain the tag |
| Config.PointsUntagged | touchscreen_toolbox/config.py:13-14 | no point name in MICE or REFE contains `_x`, `_y` or `_cfd` |
| Config.MiceUntagged | touchscreen_toolbox/config.py:13 | no point name in MICE contains `_x`, `_y` or `_cfd` |
| Config.RefeUntagged | touchscreen_toolbox/config.py:14 | no point name in REFE contains `_x`, `_y` or `_cfd` |
| Config.TagsOfHeader | touchscreen_toolbox/config.py:51-54 | for such a point, `p_x` contains the tag `_x` only, `p_y` the tag `_y` only and `p_cfd` the tag `_cfd` only |
| Config.HeadersOfShape | touchscreen_toolbox/config.py:51 | the header comprehension lists, for each point in order, its `_x`, `_y` and `_cfd` names |
| Config.SelectHeaders | touchscreen_toolbox/config.py:52-54 | selecting the generated headers by one tag gives each point's name with that tag, in point order |
| Config.HeadersLayout | touchscreen_toolbox/config.py:51 | there are 14 points and 42 headers, and headers 3k, 3k+1 and 3k+2 belong to point k |
| Config.ColumnLists | touchscreen_toolbox/config.py:52-54 | XCOLS, YCOLS and CCOLS have 14 names each, and entry i of each is point i's name with its tag |
| Config.ColumnListsPartition | touchscreen_toolbox/config.py:51-54 | every header is in exactly one of XCOLS, YCOLS and CCOLS, and the three lists together hold only headers, as many as there are |
| Config.HeaderPoint | touchscreen_toolbox/config.py:51 | every header is a point's name followed by one of the three tags |
| Config.RepeatedShape | touchscreen_toolbox/config.py:57 | `[i[:-4] for i in CCOLS for j in "12345"]` repeats each name, without its last four characters, five times |
| Config.CycledShape | touchscreen_toolbox/config.py:58-60 | the second header row cycles through the five statistic labels |
| Config.StatisticsHeaders | touchscreen_toolbox/config.py:57-60 | HEAD1 and HEAD2 have 78 entries: INFO_LS and then `frame` over dashes, then each point's name over its five statistic labels |
| Layout.XYHeadersOf | touchscreen_toolbox/postprocess/refine.py:14 | the names left after dropping the confidences alternate: entry 2k is point k's `_x` name and entry 2k+1 its `_y` name |
| Layout.XYHeadersLayout | touchscreen_toolbox/postprocess/refine.py:14 | the 28 x/y names interleave XCOLS and YCOLS |
| Layout.DropHeaders | touchscreen_toolbox/postprocess/refine.py:14 | dropping every `_cfd` name from a table laid out like the headers keeps the x and y columns, in order |
| Layout.ConfidenceNames | touchscreen_toolbox/config.py:54 | CCOLS holds every point's `_cfd` name and none of its `_x` or `_y` names |
| Layout.DropConfidence | touchscreen_toolbox/postprocess/refine.py:14 | `drop(columns=CCOLS)` on the 42-column table leaves its x and y columns, named as XYHEADERS |
| Layout.XYNames | touchscreen_toolbox/postprocess/standardize.py:93-117 | in the x/y layout the even columns are exactly the XCOLS names and the odd columns exactly the YCOLS names |
| Refine.Blanked | touchscreen_toolbox/postprocess/refine.py:29-31 | a frame's x or y cell becomes NaN exactly when its confidence is below the cutoff; the name and every other cell are kept |
| Refine.Low | touchscreen_toolbox/postprocess/refine.py:29-31 | a missing confidence is never below the cutoff, as NaN compares false |
| Refine.CutoffTable | touchscreen_toolbox/postprocess/refine.py:20-33 | the cut-off table has as many columns as the input |
| Refine.CutoffConcat | touchscreen_toolbox/postprocess/refine.py:28 | the cutoff works triple by triple: on two tables placed side by side it is the cutoff of each |
| Refine.CutoffShape | touchscreen_toolbox/postprocess/refine.py:20-33 | the cutoff keeps every column's name and length |
| Refine.CutoffAt | touchscreen_toolbox/postprocess/refine.py:28-31 | in triple j, the x and y columns are blanked by that triple's confidence column, which is itself kept |
| Refine.Cutoff | touchscreen_toolbox/postprocess/refine.py:20-33 | the loop over the triples computes the cut-off table |
| Refine.BlankedTwice | touchscreen_toolbox/postprocess/refine.py:29-31 | blanking twice by the same confidences is blanking once |
| Refine.CutoffIdempotent | touchscreen_toolbox/postprocess/refine.py:20-33 | applying the cutoff to its own output changes nothing |
| Refine.Window | touchscreen_toolbox/postprocess/refine.py:49 | the centred window of five frames, clipped at the ends, holds the frame itself |
| Refine.SmoothedCell | touchscreen_toolbox/postprocess/refine.py:46-52 | a smoothed cell is NaN exactly when the input cell is NaN |
| Refine.Smoothed | touchscreen_toolbox/postprocess/refine.py:45-52 | NaN stays exactly where it was, and every other cell becomes the median of the present cells of its window |
| Refine.SmoothedBetween | touchscreen_toolbox/postprocess/refine.py:47-51 | a smoothed value lies between the smallest and the largest present value of its window |
| Refine.SmoothedConstant | touchscreen_toolbox/postprocess/refine.py:36-54 | a gap-free constant column is unchanged |
| Refine.SmoothTable | touchscreen_toolbox/postprocess/refine.py:36-54 | every column is smoothed, with names and order kept |
| Refine.MedianFilter | touchscreen_toolbox/postprocess/refine.py:36-54 | the loop over the columns computes the smoothed table |
| Refine.SavgolTable | touchscreen_toolbox/postprocess/refine.py:57-68 | the filter, given as a parameter, is applied to every column, with names and order kept |
| Refine.RefineData | touchscreen_toolbox/postprocess/refine.py:10-17 | the refined table is the cutoff, then the dropping of CCOLS, then the median filter, then the Savitzky-Golay filter |
| Refine.RefineLayout | touchscreen_toolbox/postprocess/refine.py:10-17 | on a 42-column table named by HEADERS the refined table is named XYHEADERS, keeps its length, and column 2k (2k+1) is the filtered, smoothed, cut-off x (y) column of point k |
| Refine.FilterLayout | touchscreen_toolbox/postprocess/refine.py:14-16 | the same for the last three steps on any table named by HEADERS |
| Extract.Cutoff | touchscreen_toolbox/extract/postprocess.py:11-22 | the in-place cutoff leaves the table's columns equal to the cut-off table of the old ones |
| Extract.Rolled | touchscreen_toolbox/extract/postprocess.py:28 | rolling keeps the column's length |
| Extract.RolledCell | touchscreen_toolbox/extract/postprocess.py:28 | a rolled cell is NaN exactly when every cell within two frames of it is NaN, and where the input is present it agrees with the filter that keeps NaN |
| Extract.RolledConstant | touchscreen_toolbox/extract/postprocess.py:28 | a gap-free constant column is unchanged |
| Extract.RolledTable | touchscreen_toolbox/extract/postprocess.py:25-28 | every column is rolled, with names and order kept |
| Extract.MedianFilter | touchscreen_toolbox/extract/postprocess.py:25-28 | the in-place filter leaves the table's columns equal to the rolled table of the old ones |
| Fill.MissingIndices | touchscreen_toolbox/postprocess/standardize.py:47 | the labels of the missing cells, exactly those and in increasing order |
| Fill.MissingLayout | touchscreen_toolbox/postprocess/standardize.py:47 | the missing labels are in range and increasing, and every cell before the first, between two consecutive ones and after the last is present |
| Fill.GroupConsecutive | touchscreen_toolbox/postprocess/standardize.py:51-63 | the grouping loop splits the missing labels, in order, into runs of consecutive labels that cannot be extended, with present cells between runs |
| Fill.GroupNext | touchscreen_toolbox/postprocess/standardize.py:54-62 | one pass of the grouping loop either extends the open run or closes it and opens a new one, keeping the loop's invariant |
| Fill.FinishGroups | touchscreen_toolbox/postprocess/standardize.py:63 | appending the open run after the loop completes the split into runs |
| Fill.Before | touchscreen_toolbox/postprocess/standardize.py:69 | the nearest present position before a cell (or -1), with only missing cells in between |
| Fill.After | touchscreen_toolbox/postprocess/standardize.py:70 | the nearest present position after a cell (or the length), with only missing cells in between |
| Fill.StepLast | touchscreen_toolbox/postprocess/standardize.py:71-76 | after `len(group)` additions of `step` the running value reaches the next present value |
| Fill.Step | touchscreen_toolbox/postprocess/standardize.py:71-76 | no step leaves the previous value, and `len(group)` steps reach the next one |
| Fill.Interpolated | touchscreen_toolbox/postprocess/standardize.py:67-82 | the interpolation pass leaves every present cell unchanged |
| Fill.InterpolatedAll | touchscreen_toolbox/postprocess/standardize.py:67-82 | the interpolation pass over the column, one cell per cell, keeping every present cell |
| Fill.InteriorCell | touchscreen_toolbox/postprocess/standardize.py:69-76 | the j-th cell of a run with present neighbours a and b becomes a + (j+1)(b - a)/len(run) |
| Fill.RunNeighbours | touchscreen_toolbox/postprocess/standardize.py:69-70 | inside a run, the neighbours of every cell are the run's neighbours |
| Fill.FillGroup | touchscreen_toolbox/postprocess/standardize.py:74-76 | the inner loop over a run with two present neighbours writes the interpolation pass's values over the whole run |
| Fill.BoundaryGroup | touchscreen_toolbox/postprocess/standardize.py:78-82 | a run that touches either end is skipped, since the interpolation pass leaves it missing |
| Fill.Boundary | touchscreen_toolbox/postprocess/standardize.py:80-85 | some run touches an end exactly when the first or the last cell is missing |
| Fill.InterpolateGroups | touchscreen_toolbox/postprocess/standardize.py:66-82 | the loop over the runs computes the interpolation pass, and raises `out_of_bound` exactly when some run touches an end |
| Fill.Filled | touchscreen_toolbox/postprocess/standardize.py:40-87 | fillna with the intended guard keeps every present cell and the length |
| Fill.FilledComplete | touchscreen_toolbox/postprocess/standardize.py:40-87 | with the intended guard a column with one present cell has no gap left |
| Fill.FilledLeadingRun | touchscreen_toolbox/postprocess/standardize.py:85-87 | a run of gaps at the start of a column takes the first present value after it; as written only when some missing label is non-zero, and otherwise stays missing |
| Fill.FilledTrailingRun | touchscreen_toolbox/postprocess/standardize.py:85-87 | a run of gaps at the end of a column takes the last present value before it, with the guard as written too |
| Fill.FilledAsWritten | touchscreen_toolbox/postprocess/standardize.py:49 | fillna as written keeps every present cell and the length |
| Fill.FirstGapKept | touchscreen_toolbox/postprocess/standardize.py:49 | as written, a column whose only gap is its first cell keeps that gap, while the intended fill copies the next value into it |
| Fill.FilledAsWrittenCases | touchscreen_toolbox/postprocess/standardize.py:49 | the as-written fill equals the intended one except on a column whose only gap is frame 0, which it returns unchanged |
| Fill.FilledAsWrittenComplete | touchscreen_toolbox/postprocess/standardize.py:40-87 | as written, a column with a present cell is left without a gap, unless its only gap is frame 0 |
| Fill.FillColumn | touchscreen_toolbox/postprocess/standardize.py:43-87 | the body of the column loop, behind its guard `if idx.any():`, computes the as-written fill of the column |
| Tables.FillsComplete | touchscreen_toolbox/postprocess/standardize.py:86-87 | `bfill` then `ffill` leaves no gap in a column that has a present cell |
| Standardize.PoseFrame.constructor | touchscreen_toolbox/postprocess/standardize.py:90 | the frame holds the given columns |
| Standardize.Negated | touchscreen_toolbox/postprocess/standardize.py:96 | negating a column keeps its length |
| Standardize.NegatedTwice | touchscreen_toolbox/postprocess/standardize.py:96 | negating twice gives the column back, and negation keeps the gaps where they are |
| Standardize.Shifted | touchscreen_toolbox/postprocess/standardize.py:24-26 | subtracting a value keeps the column's length |
| Standardize.ShiftedInverse | touchscreen_toolbox/postprocess/standardize.py:18-26 | subtracting a column's own first cell puts that cell at 0, and subtracting then adding back a value gives the column back |
| Standardize.Constant | touchscreen_toolbox/postprocess/standardize.py:12-15 | replacing a column by its median keeps its length |
| Standardize.ConstantPinned | touchscreen_toolbox/postprocess/standardize.py:12-15 | every cell becomes the median of the present cells, or missing when there is none, and doing it twice is doing it once |
| Standardize.ConstantMedian | touchscreen_toolbox/postprocess/standardize.py:12-15 | the median of a constant column is that constant |
| Standardize.Apply | touchscreen_toolbox/postprocess/standardize.py:23-26 | applying a column operation to the named columns keeps the names and the order |
| Standardize.GetApply | touchscreen_toolbox/postprocess/standardize.py:23-26 | a named column gets the operation and every other column is unchanged |
| Standardize.ApplyConcat | touchscreen_toolbox/postprocess/standardize.py:23-26 | applying to one list of names and then to a disjoint list is applying to both lists at once |
| Standardize.PointsDistinct | touchscreen_toolbox/config.py:13-14 | the 14 point names are distinct, `ll_corner` is point 9, `lr_corner` point 10 and REFE points 8 to 13 |
| Standardize.ColumnsDistinct | touchscreen_toolbox/config.py:52-53 | XCOLS and YCOLS have 14 distinct names each, no x name is a y name, and the corners are entry 9 and 10 |
| Standardize.ReplaceWithMedian | touchscreen_toolbox/postprocess/standardize.py:12-15 | the method replaces the point's x and y columns by their medians in place and changes nothing else |
| Standardize.Origin | touchscreen_toolbox/postprocess/standardize.py:18-26 | `set_origin` keeps the column names |
| Standardize.GetOrigin | touchscreen_toolbox/postprocess/standardize.py:18-26 | every x column loses the point's first x cell, every y column its first y cell, and other columns are unchanged |
| Standardize.SetOrigin | touchscreen_toolbox/postprocess/standardize.py:18-26 | the method computes `set_origin` in place |
| Standardize.ShiftColumns | touchscreen_toolbox/postprocess/standardize.py:23-26 | the loop subtracts the value from each listed column in place |
| Standardize.TransformOrigin | touchscreen_toolbox/postprocess/standardize.py:36-37 | the linear transformer fixes the origin |
| Standardize.Transform | touchscreen_toolbox/postprocess/standardize.py:36-37 | the transform of a row fixes the origin, and the identity transformer fixes every row |
| Standardize.TransformFacts | touchscreen_toolbox/postprocess/standardize.py:32-37 | the default transformer is the identity, and a rotation multiplies every length by the scale |
| Standardize.MakeTransformerFacts | touchscreen_toolbox/postprocess/standardize.py:106-110 | a transformer exists exactly when `lr_corner` is away from the origin; it is a rotation with a positive scale that takes `lr_corner` to (TRAY_LENGTH, 0) |
| Standardize.MakeTransformer | touchscreen_toolbox/postprocess/standardize.py:106-110 | a transformer is built exactly when both `lr_corner` coordinates are present and not both 0, and its scale is positive |
| Standardize.TransformerOf | touchscreen_toolbox/postprocess/standardize.py:106-110 | the transformer of a table exists exactly when its first `lr_corner` cells are present and not both 0, and has a positive scale |
| Standardize.TransformCells | touchscreen_toolbox/postprocess/standardize.py:113-114 | transforming an x/y pair of columns keeps their length |
| Standardize.TransformConstant | touchscreen_toolbox/postprocess/standardize.py:113-114 | a constant pair is sent to the constant pair of the transformed point |
| Standardize.TransformMissing | touchscreen_toolbox/postprocess/standardize.py:108-114 | without a transformer (a zero or missing hypotenuse) every transformed cell is missing |
| Standardize.TransformedPair | touchscreen_toolbox/postprocess/standardize.py:114 | transforming one pair keeps the names and the number of frames |
| Standardize.TransformPairs | touchscreen_toolbox/postprocess/standardize.py:113-114 | transforming the first k pairs keeps the names and the number of frames |
| Standardize.TransformPairsAt | touchscreen_toolbox/postprocess/standardize.py:113-114 | after the first k pairs are transformed, pair p holds the transformed columns when p < k and its old columns otherwise |
| Standardize.TransformAll | touchscreen_toolbox/postprocess/standardize.py:113-114 | the loop over the 14 pairs transforms them all in place |
| Standardize.FillNa | touchscreen_toolbox/postprocess/standardize.py:40-87 | the loop over the columns fills each of them in place with the as-written fill, guard included |
| Standardize.FilledFull | touchscreen_toolbox/postprocess/standardize.py:49 | a column without a gap is left as it is, by the as-written and the intended fill alike |
| Standardize.FilledEmpty | touchscreen_toolbox/postprocess/standardize.py:40-87 | a column without a present cell stays without one, by the as-written and the intended fill alike |
| Standardize.FillNaComplete | touchscreen_toolbox/postprocess/standardize.py:49-117 | after `fillna` a column with a present cell has no gap, unless its only gap is frame 0, which then stays as it was |
| Standardize.Flipped | touchscreen_toolbox/postprocess/standardize.py:96 | flipping the y columns keeps the names |
| Standardize.Pinned | touchscreen_toolbox/postprocess/standardize.py:99-100 | pinning the reference points to their medians keeps the names |
| Standardize.PinReferences | touchscreen_toolbox/postprocess/standardize.py:99-100 | the loop over REFE pins every reference point in place |
| Standardize.Rounded | touchscreen_toolbox/postprocess/standardize.py:119 | rounding a column keeps its length |
| Standardize.RoundedFacts | touchscreen_toolbox/postprocess/standardize.py:119 | rounding keeps the gaps, moves no value by more than 0.00005, and rounding twice is rounding once |
| Standardize.StageShapes | touchscreen_toolbox/postprocess/standardize.py:93-100 | dropping CCOLS gives the x/y layout, and each stage keeps n cells per column |
| Standardize.Centered | touchscreen_toolbox/postprocess/standardize.py:93-103 | the table after `set_origin` has the x/y names and n cells per column |
| Standardize.Standardized | touchscreen_toolbox/postprocess/standardize.py:90-117 | the standardized table, filled by the as-written `fillna`, has the x/y names and n cells per column |
| Standardize.Standardize | touchscreen_toolbox/postprocess/standardize.py:90-119 | the method leaves the standardized table, filled by the as-written `fillna`, in the frame and returns it rounded to four decimals |
| Standardize.PinnedCorner | touchscreen_toolbox/postprocess/standardize.py:93-100 | after the flip and the pinning, a corner's columns are the median of its x and of its negated y |
| Standardize.CenteredCorners | touchscreen_toolbox/postprocess/standardize.py:93-103 | after `set_origin` `ll_corner` is at (0, 0) wherever it was seen, and `lr_corner` is at its offset from `ll_corner` |
| Standardize.CornerTransformer | touchscreen_toolbox/postprocess/standardize.py:106-110 | for a corner away from the origin the transformer exists and takes the corner to (TRAY_LENGTH, 0) |
| Standardize.TransformedCorners | touchscreen_toolbox/postprocess/standardize.py:113-114 | the transformation keeps `ll_corner` at the origin and sends `lr_corner` to (TRAY_LENGTH, 0) |
| Standardize.StandardizedCorners | touchscreen_toolbox/postprocess/standardize.py:90-117 | when both corners were seen and are apart, the result has `ll_corner` at (0, 0) and `lr_corner` at (TRAY_LENGTH, 0) in every frame |
| Standardize.StandardizedDegenerate | touchscreen_toolbox/postprocess/standardize.py:106-117 | when a corner was never seen or the two coincide, every coordinate of the result is missing |
| Standardize.RoundedCorners | touchscreen_toolbox/postprocess/standardize.py:119 | the rounded copy keeps the corners at (0, 0) and (TRAY_LENGTH, 0) |
| Statistics.CountTrue | touchscreen_toolbox/postprocess/statistics.py:21 | `zeros.sum()` never exceeds the number of frames |
| Statistics.Zeros | touchscreen_toolbox/postprocess/statistics.py:19-20 | a frame counts as zero exactly when `fillna(0)` makes its confidence 0 |
| Statistics.LongestMaximal | touchscreen_toolbox/postprocess/statistics.py:23-25 | the longest run found is a run of frames without confidence, and no such run is longer |
| Statistics.Longest | touchscreen_toolbox/postprocess/statistics.py:23-25 | the longest run among the first i frames is at most i |
| Statistics.CountCovers | touchscreen_toolbox/postprocess/statistics.py:21-25 | a run of frames without confidence is no longer than their count |
| Statistics.ConsecutiveBounds | touchscreen_toolbox/postprocess/statistics.py:21-25 | the longest run is at most the count, which is at most the frames; it is 0 exactly when the count is 0; it bounds every run, and some run reaches it |
| Statistics.PercentRange | touchscreen_toolbox/postprocess/statistics.py:22 | the fraction is NaN exactly for an empty table, and otherwise lies in [0, 1] within half a hundredth of the exact ratio |
| Statistics.Consecutive | touchscreen_toolbox/postprocess/statistics.py:23-25 | the longest run of frames without confidence is at most the frames, and 0 when there are none |
| Statistics.Round2 | touchscreen_toolbox/postprocess/statistics.py:22 | rounding to two decimals moves a number by at most half a hundredth |
| Statistics.Percent | touchscreen_toolbox/postprocess/statistics.py:22 | the fraction is missing exactly for zero frames, and otherwise within half a hundredth of `nums / frames` |
| Statistics.Round2Ties | touchscreen_toolbox/postprocess/statistics.py:22 | a tie at the second decimal goes to the even digit: 0.125 to 0.12, 0.375 to 0.38 |
| Statistics.ColumnStats | touchscreen_toolbox/postprocess/statistics.py:19-28 | one confidence column contributes five entries |
| Statistics.ColumnStatsBounds | touchscreen_toolbox/postprocess/statistics.py:19-28 | the longest run is at most the count, which is at most the frames; both are 0 together; the fraction is NaN only for an empty column and otherwise a proportion |
| Statistics.StatsOf | touchscreen_toolbox/postprocess/statistics.py:18-28 | the statistics of a list of columns are five entries per column |
| Statistics.StatsOfAt | touchscreen_toolbox/postprocess/statistics.py:18-28 | entries 5k to 5k+4 are the statistics of column k |
| Statistics.GetStats | touchscreen_toolbox/postprocess/statistics.py:14-29 | the loop returns the frame count followed by the statistics of every CCOLS column: 71 entries |
| Statistics.Row | touchscreen_toolbox/postprocess/statistics.py:50-56 | a row is the exported information followed by the statistics |
| Statistics.RowMatchesHeaders | touchscreen_toolbox/postprocess/statistics.py:40-56 | a row has 78 entries under HEAD1 and HEAD2: the information under INFO_LS, the frame count under `frame`, and every statistic under its point and its label |
| Feature.Velocity1 | touchscreen_toolbox/postprocess/feature.py:124-126 | `np.diff` with the first value prepended: 0 at the first frame and the change from the previous frame after it |
| Feature.Velocity1Integrates | touchscreen_toolbox/postprocess/feature.py:124-126 | the first value plus the velocities up to frame i gives the value at frame i back |
| Feature.GetAngv | touchscreen_toolbox/postprocess/feature.py:141-151 | the angular velocity has one entry per frame |
| Feature.GetAngvWraps | touchscreen_toolbox/postprocess/feature.py:146-150 | it is 0 at the first frame, differs from the raw change by 0 or ±360, and equals it when the raw change is within ±180 |
| Feature.GetAngvRange | touchscreen_toolbox/postprocess/feature.py:145-150 | for angles in [0, 360) the angular velocity lies in [-180, 180] |
| Feature.GetAngvExample | touchscreen_toolbox/postprocess/feature.py:141-151 | the angles 350, 355, 2, 8 turn at 0, 5, 7, 6 degrees per frame |
| Feature.Velocity1Unwrapped | touchscreen_toolbox/postprocess/feature.py:148-150 | from 350 to 10 degrees the raw change is -340 but the continuous one is 20 |
| Feature.Oriented | touchscreen_toolbox/postprocess/feature.py:98 | the signed angular velocity has one entry per frame |
| Feature.OrientedCases | touchscreen_toolbox/postprocess/feature.py:95-98 | the sign is kept above 180 degrees, reversed below, and the value is 0 at exactly 180; the magnitude never grows |
| Feature.OrientedRange | touchscreen_toolbox/postprocess/feature.py:93-98 | for angles in [0, 360) the signed angular velocity lies in [-180, 180] |
| Feature.Distances | touchscreen_toolbox/postprocess/feature.py:117-121 | the distance between two keypoints is non-negative in every frame |
| Feature.DistancesSymmetric | touchscreen_toolbox/postprocess/feature.py:117-121 | the distance from a to b is the distance from b to a, and it is 0 exactly where the points coincide |
| Feature.Velocity2 | touchscreen_toolbox/postprocess/feature.py:129-133 | the 2D speed has one entry per frame |
| Feature.Velocity2Steps | touchscreen_toolbox/postprocess/feature.py:129-133 | the 2D speed is 0 at the first frame and afterwards the distance moved since the previous frame |
| Feature.Centroid | touchscreen_toolbox/postprocess/feature.py:71 | the neck has one point per frame |
| Feature.CentroidTranslation | touchscreen_toolbox/postprocess/feature.py:71-89 | moving every point by the same offset moves the neck by that offset and leaves the angle to a target unchanged |
| Feature.Bodypart | touchscreen_toolbox/postprocess/feature.py:136-138 | a body part's points, one per frame |
| Feature.Neck | touchscreen_toolbox/postprocess/feature.py:71 | the neck, one point per frame |
| Feature.Block | touchscreen_toolbox/postprocess/feature.py:43-99 | every feature adds two columns of one cell per frame |
| Feature.RateBlock | touchscreen_toolbox/postprocess/feature.py:43-83 | for a distance, angle or speed feature the second column is the first one's `velocity1` |
| Feature.DistanceBlock | touchscreen_toolbox/postprocess/feature.py:43-82 | the first column of a distance or speed feature is non-negative |
| Feature.HeadTurns | touchscreen_toolbox/postprocess/feature.py:71-74 | the head angle lies in [0, 360) and its angular velocity in [-180, 180] |
| Feature.OrientTurns | touchscreen_toolbox/postprocess/feature.py:87-99 | the angle to a target lies in [0, 360) and its signed angular velocity in [-180, 180] |
| Feature.TurnBlock | touchscreen_toolbox/postprocess/feature.py:49-99 | every angle column lies in [0, 360), and every head or target angular velocity in [-180, 180] |
| Feature.Blocks | touchscreen_toolbox/postprocess/feature.py:38-59 | a list of features gives two columns per feature, one cell per frame |
| Feature.BlocksAt | touchscreen_toolbox/postprocess/feature.py:38-59 | columns 2k and 2k+1 are feature k's two columns |
| Feature.BlocksConcat | touchscreen_toolbox/postprocess/feature.py:38-59 | the columns of two lists of features placed one after the other are the two lists' columns one after the other |
| Feature.PairsOf | touchscreen_toolbox/postprocess/feature.py:43 | `combinations(keys, 2)` has n(n-1)/2 entries, each a pair of keys in their order |
| Feature.TriplesOf | touchscreen_toolbox/postprocess/feature.py:49 | `combinations(keys, 3)` has n(n-1)(n-2)/6 entries, each a triple of keys in their order |
| Feature.KeypointCombinations | touchscreen_toolbox/postprocess/feature.py:40-49 | the six pairs and four triples of the four keypoints, in `itertools` order |
| Feature.FeaturesAvailable | touchscreen_toolbox/postprocess/feature.py:43-59 | every pair, triple and single keypoint feature can be computed when each keypoint has its x and y columns |
| Feature.InternalAvailable | touchscreen_toolbox/postprocess/feature.py:40-59 | the 14 internal features can be computed from the four keypoints |
| Feature.AddBlocks | touchscreen_toolbox/postprocess/feature.py:43-59 | the loop appends two columns per feature to `new` |
| Feature.InternalBehaviour | touchscreen_toolbox/postprocess/feature.py:35-61 | the method returns the columns of the 14 internal features: distances, angles and speeds of the keypoints, each followed by its rate |
| Feature.RatesFollow | touchscreen_toolbox/postprocess/feature.py:43-59 | in the internal columns every odd column is the `velocity1` of the column before it |
| Feature.InternalLayout | touchscreen_toolbox/postprocess/feature.py:35-61 | `internal_behaviour` gives 28 columns, and column 2k+1 is the `velocity1` of column 2k |
| Feature.TargetFeatures | touchscreen_toolbox/postprocess/feature.py:77-99 | every target adds an approach feature and an orientation feature |
| Feature.TargetsAvailable | touchscreen_toolbox/postprocess/feature.py:71-99 | the head feature and both features of every target can be computed when their points exist |
| Feature.ExternalAvailable | touchscreen_toolbox/postprocess/feature.py:65-99 | the nine external features can be computed when the head and the four targets exist |
| Feature.TargetBlocks | touchscreen_toolbox/postprocess/feature.py:77-99 | the loop over the targets appends, after the head columns, two columns for the approach and two for the orientation of each target |
| Feature.ExternalBehaviour | touchscreen_toolbox/postprocess/feature.py:65-101 | the method returns the columns of the head feature and of the features of the four targets |
| Feature.TargetKinds | touchscreen_toolbox/postprocess/feature.py:73-99 | the head comes first, then each target's approach and orientation alternate |
| Feature.ExternalLayout | touchscreen_toolbox/postprocess/feature.py:65-101 | `external_behaviour` gives 18 columns: the angle blocks turn within [0, 360) and [-180, 180], the distance blocks are non-negative and followed by their rates |
| Feature.MakeMultiindex | touchscreen_toolbox/postprocess/feature.py:105-111 | one labelled column per column |
| Feature.MultiindexInverse | touchscreen_toolbox/postprocess/feature.py:105-111 | every column gets the top label, and dropping that level gives the table back |
| Feature.DropLevel | touchscreen_toolbox/postprocess/feature.py:105-111 | dropping the top label leaves one column per labelled column, its second-level column |
| Feature.Engineering | touchscreen_toolbox/postprocess/feature.py:21-29 | the result is the coordinates, the internal and the external features, each under its top label: 46 columns more than the input |
| Timestamp.StateMappingCodes | touchscreen_toolbox/postprocess/timestamp.py:8 | the listed codes are re-coded into the phases 0 to 6 without reordering the codes 1 to 9, the trial start stays 1, and any other code passes through |
| Timestamp.StateMapping | touchscreen_toolbox/postprocess/timestamp.py:8 | every listed code maps to a phase from 0 to 6; any other code is left as it is |
| Timestamp.Trunc | touchscreen_toolbox/postprocess/timestamp.py:49 | `astype(int)` truncates toward zero: the integer part below a non-negative value and above a negative one |
| Timestamp.Quantized | touchscreen_toolbox/postprocess/timestamp.py:49 | one frame per event |
| Timestamp.Incremented | touchscreen_toolbox/postprocess/timestamp.py:98-104 | bumping duplicates keeps the number of frames |
| Timestamp.IncrementedAt | touchscreen_toolbox/postprocess/timestamp.py:101-104 | the first frame is kept, and a later frame is bumped to its original value + 1 exactly when that value is at most the already processed previous frame |
| Timestamp.IncrementedPrefix | touchscreen_toolbox/postprocess/timestamp.py:101-104 | the first k results depend only on the first k frames |
| Timestamp.IncrementedBump | touchscreen_toolbox/postprocess/timestamp.py:98-104 | every frame ends equal to its original value or to that value + 1 |
| Timestamp.IncrementedIncreasing | touchscreen_toolbox/postprocess/timestamp.py:98-104 | a strictly increasing frame column is returned unchanged |
| Timestamp.IncrementedNonDecreasing | touchscreen_toolbox/postprocess/timestamp.py:98-104 | a non-decreasing frame column stays non-decreasing |
| Timestamp.IncrementedTriple | touchscreen_toolbox/postprocess/timestamp.py:103-104 | `[5, 5, 5]` becomes `[5, 6, 6]`: three equal frames are not made strictly increasing |
| Timestamp.IncrementDuplicates | touchscreen_toolbox/postprocess/timestamp.py:98-104 | the loop rewrites the frame array in place into the bumped frames |
| Timestamp.MergeInfo | touchscreen_toolbox/postprocess/timestamp.py:38-42 | every frame keeps its label and gets every subject attribute |
| Timestamp.Events | touchscreen_toolbox/postprocess/timestamp.py:49-53 | the events pair each bumped frame with its state, in log order |
| Timestamp.EventState | touchscreen_toolbox/postprocess/timestamp.py:54 | a frame has an event state exactly when some event has that frame, and the state is that event's |
| Timestamp.StatesAtUnique | touchscreen_toolbox/postprocess/timestamp.py:54 | with distinct event frames the left join matches a frame with at most one event |
| Timestamp.StatesAt | touchscreen_toolbox/postprocess/timestamp.py:54 | the states the left join matches to a frame each come from an event on that frame |
| Timestamp.JoinStates | touchscreen_toolbox/postprocess/timestamp.py:54 | the left join keeps every frame |
| Timestamp.JoinStatesUnique | touchscreen_toolbox/postprocess/timestamp.py:54 | with distinct event frames the join has one row per frame, in frame order, carrying that frame's event state |
| Timestamp.RawStates | touchscreen_toolbox/postprocess/timestamp.py:54 | the raw `state` column of the joined rows |
| Timestamp.Coded | touchscreen_toolbox/postprocess/timestamp.py:55-58 | coding keeps every row's frame, attributes and raw state |
| Timestamp.StateCodeLatest | touchscreen_toolbox/postprocess/timestamp.py:55-58 | `state_` is the mapped latest event state at or before the frame |
| Timestamp.Recoded | touchscreen_toolbox/postprocess/timestamp.py:55-58 | a frame before any event gets 0, a listed state a phase from 0 to 6, and any other state itself |
| Timestamp.StateCodeBeforeFirst | touchscreen_toolbox/postprocess/timestamp.py:58 | `state_` is 0 before the first event |
| Timestamp.StartsBefore | touchscreen_toolbox/postprocess/timestamp.py:79 | the number of start frames among the first n rows is at most n |
| Timestamp.StartPositionsCount | touchscreen_toolbox/postprocess/timestamp.py:79 | `idxs` lists as many positions as there are start frames |
| Timestamp.StartPositionsAt | touchscreen_toolbox/postprocess/timestamp.py:79 | entry m of `idxs` is a start frame with m start frames before it |
| Timestamp.StartPositions | touchscreen_toolbox/postprocess/timestamp.py:79 | the start positions are start rows, in strictly increasing order, no more of them than rows |
| Timestamp.StartPositionsOf | touchscreen_toolbox/postprocess/timestamp.py:79 | every start frame is in `idxs`, at the position given by the starts before it |
| Timestamp.Marks | touchscreen_toolbox/postprocess/timestamp.py:78-81 | the `trial` column before the forward fill has one cell per row |
| Timestamp.MarkAt | touchscreen_toolbox/postprocess/timestamp.py:80-81 | after k passes of the loop, a start frame among the first k starts holds its start number and every other row is missing |
| Timestamp.Mark | touchscreen_toolbox/postprocess/timestamp.py:80-81 | after `trial[data.index == at] = k` every row on frame `at` holds k and every other row keeps its value |
| Timestamp.Trials | touchscreen_toolbox/postprocess/timestamp.py:75-83 | numbering the trials keeps every row |
| Timestamp.TrialsDistinct | touchscreen_toolbox/postprocess/timestamp.py:77-83 | with distinct frame labels, frame k-th among the start frames gets trial k, frames before the first start get none, and every other frame gets the latest start number at or before it |
| Timestamp.TrialNumber | touchscreen_toolbox/postprocess/timestamp.py:79-82 | a row has no trial exactly when no start is at or before it, and otherwise a trial from 1 to its position plus one |
| Timestamp.CountTrials | touchscreen_toolbox/postprocess/timestamp.py:75-83 | the loop over the start frames and the forward fill compute the trial numbers |
| Timestamp.StartsMonotone | touchscreen_toolbox/postprocess/timestamp.py:79-82 | the number of starts before a row never decreases along the rows |
| Timestamp.TrialNumbersMonotone | touchscreen_toolbox/postprocess/timestamp.py:79-82 | trial numbers never decrease along the frames, and no row after a numbered one is unnumbered |
| Timestamp.TrialNumbersConsecutive | touchscreen_toolbox/postprocess/timestamp.py:79-82 | the trial numbers used are exactly 1 to the number of starts, start m gets m + 1 counted from 0, and rows before the first start have none |
| Timestamp.OneTo | touchscreen_toolbox/postprocess/timestamp.py:80 | the trial numbers 1 to n, n of them |
| Timestamp.TrialCount | touchscreen_toolbox/postprocess/timestamp.py:79-82 | the number of distinct trial values equals the number of start frames |
| Timestamp.StateLog.constructor | touchscreen_toolbox/postprocess/timestamp.py:45 | the event log holds the given times and states, and no `frame` column yet |
| Timestamp.MergeStates | touchscreen_toolbox/postprocess/timestamp.py:45-72 | the caller's event times are shifted in place by `time[0] - TIME_BUFFER[0]`, its `frame` column is the quantized times before the bump, the states are kept, and the result is the trial-numbered join of the bumped, truncated frames |
| Timestamp.Offset | touchscreen_toolbox/postprocess/timestamp.py:48 | the events are shifted by the video's start time, the leading buffer being 0 seconds |
| Timestamp.StatesMerged | touchscreen_toolbox/postprocess/timestamp.py:45-72 | the merge keeps every frame row of the data |
| Timestamp.MergedStatesRows | touchscreen_toolbox/postprocess/timestamp.py:45-72 | with distinct event frames and frame labels, the merge has one row per frame carrying the frame's event state, and the trial numbers described above |
| Timestamp.ParamsOf | touchscreen_toolbox/postprocess/timestamp.py:89 | the parameter rows matched to a trial come from the parameter table |
| Timestamp.ParamsFor | touchscreen_toolbox/postprocess/timestamp.py:89 | the parameter row of a trial, if the trial has one |
| Timestamp.ParamsOfUnique | touchscreen_toolbox/postprocess/timestamp.py:89 | with distinct trial numbers a trial matches at most one parameter row |
| Timestamp.JoinTrials | touchscreen_toolbox/postprocess/timestamp.py:89 | the left join keeps every row, and every matched row comes from the parameter table |
| Timestamp.JoinTrialsUnique | touchscreen_toolbox/postprocess/timestamp.py:89 | with distinct trial numbers the join has one row per frame, carrying its trial's parameter row |
| Timestamp.ParamColumn | touchscreen_toolbox/postprocess/timestamp.py:90-91 | one parameter column, one cell per joined row |
| Timestamp.MergeTrials | touchscreen_toolbox/postprocess/timestamp.py:86-93 | every joined row keeps its frame data and gets one value per parameter column |
| Timestamp.MergeTrialsFill | touchscreen_toolbox/postprocess/timestamp.py:89-91 | a frame whose trial has a parameter value takes it, and otherwise keeps the previous frame's value |
| VideoInfo.Run | touchscreen_toolbox/config.py:28 | the longest prefix of characters satisfying a class (how `\d+`, `\S+`, `\S*` consume): every character before it satisfies the class and the next one does not |
| VideoInfo.MatchName | touchscreen_toolbox/config.py:28 | a successful match of the name pattern yields exactly five groups |
| VideoInfo.MatchChamber | touchscreen_toolbox/config.py:28 | after the id and its ` - `, a successful match of the rest yields five groups, the first being the id |
| VideoInfo.DateClock | touchscreen_toolbox/config.py:28 | the date, clock and suffix groups read after the chamber: three groups |
| VideoInfo.MatchLayout | touchscreen_toolbox/config.py:28 | completeness of the matcher: every name built as `id - chamber - dd-dd-dd dd-dd[ ]suffix…` from groups of the right shapes is matched, giving those groups back |
| VideoInfo.MatchParts | touchscreen_toolbox/config.py:28 | soundness of the matcher: every name that matches is such a layout of its groups (digits, non-space chamber, `dd-dd-dd`, `dd-dd`, non-space suffix), with at most one space before the suffix |
| VideoInfo.ChamberLayout | touchscreen_toolbox/config.py:28 | the chamber part of the completeness proof: the layout after the id matches with the given groups |
| VideoInfo.ChamberParts | touchscreen_toolbox/config.py:28 | the chamber part of the soundness proof: the groups the matcher returns have the shapes of the pattern and lay out the input |
| VideoInfo.IdParts | touchscreen_toolbox/config.py:28 | a matched name starts with a non-empty run of digits followed by ` - `, and the match is the match of the rest with that id |
| VideoInfo.MatchNameAt | touchscreen_toolbox/config.py:28 | the name fails to match when the digit run is empty or not followed by ` - `, and otherwise matches as its rest does |
| VideoInfo.DateClockMatch | touchscreen_toolbox/config.py:28 | a laid-out date, clock and suffix is read back as exactly those three groups |
| VideoInfo.DateClockShapes | touchscreen_toolbox/config.py:28 | the date group read is `dd-dd-dd` and the clock group `dd-dd` |
| VideoInfo.DateClockParts | touchscreen_toolbox/config.py:28 | what the date, clock and suffix reader consumed lays out its input, with at most one space before the suffix |
| VideoInfo.SuffixParts | touchscreen_toolbox/config.py:28 | `\s?(\S*)`: the suffix is preceded by at most one space and followed by nothing or a space |
| VideoInfo.SuffixLayout | touchscreen_toolbox/config.py:28 | a laid-out suffix is read back as itself |
| VideoInfo.MatchExample | touchscreen_toolbox/config.py:28 | `123 - B1 - 21-03-05 10-30` matches with groups `123`, `B1`, `21-03-05`, `10-30` and an empty suffix |
| VideoInfo.Zip | touchscreen_toolbox/video_info.py:73 | the dictionary built from `zip(ELEMENTS, matched)` has exactly the element names as keys |
| VideoInfo.ZipAt | touchscreen_toolbox/video_info.py:73 | with distinct keys, each key maps to the value at its own position |
| VideoInfo.Dashless | touchscreen_toolbox/video_info.py:69-71 | every group has its dashes removed and nothing else changed, position by position |
| VideoInfo.ElementsDistinct | touchscreen_toolbox/config.py:29 | the five element names are pairwise different, so no decoded field overwrites another |
| VideoInfo.ElementsZip | touchscreen_toolbox/config.py:29 | decoding five groups gives `mouse_id`, `chamber`, `exp_date`, `exp_time` and `suffix` the first to fifth group, and no other key |
| VideoInfo.DecodeFields | touchscreen_toolbox/video_info.py:50-78 | `decode_name` succeeds exactly when the name matches the pattern; on failure the dictionary is empty; on success its keys are the element names and each holds its group with the dashes removed |
| VideoInfo.DecodeName | touchscreen_toolbox/video_info.py:50-78 | the name decodes exactly when it matches; on failure the dictionary is empty, on success its keys are the five element names |
| VideoInfo.DecodedField | touchscreen_toolbox/video_info.py:69-73 | field i of a decoded name is present and holds group i with its dashes removed |
| VideoInfo.DecodeExample | touchscreen_toolbox/video_info.py:50-78 | `123 - B1 - 21-03-05 10-30` decodes to mouse 123, chamber B1, date 210305, time 1030 and an empty suffix |
| VideoInfo.DateWithout | touchscreen_toolbox/video_info.py:69-71 | removing dashes from a `dd-dd-dd` date leaves its six digits in order |
| VideoInfo.ClockWithout | touchscreen_toolbox/video_info.py:69-71 | removing dashes from a `dd-dd` clock leaves its four digits in order |
| VideoInfo.DashlessExample | touchscreen_toolbox/video_info.py:69-71 | the example groups lose their dashes: `210305`, `1030` |
| VideoInfo.ParseText | touchscreen_toolbox/video_info.py:117 | `int()` of a string either reads an integer or raises ValueError |
| VideoInfo.ParseDigits | touchscreen_toolbox/video_info.py:117 | `int()` of a non-empty string of digits is its decimal value |
| VideoInfo.StripPadded | touchscreen_toolbox/video_info.py:117 | the whitespace around ` +1_2 ` is stripped before `int()` reads it |
| VideoInfo.TrimEnd | touchscreen_toolbox/video_info.py:117 | dropping trailing whitespace leaves a prefix that does not end in whitespace, and only whitespace is dropped |
| VideoInfo.Strip | touchscreen_toolbox/video_info.py:117 | `strip()` shortens the string and leaves it without whitespace at either end |
| VideoInfo.ParsePadded | touchscreen_toolbox/video_info.py:117 | `int()` strips surrounding whitespace, takes a sign and drops single underscores between digits: ` +1_2 ` is 12 |
| VideoInfo.ParseNegative | touchscreen_toolbox/video_info.py:117 | `int("-3")` is -3 |
| VideoInfo.ParseRefused | touchscreen_toolbox/video_info.py:117 | `int()` raises ValueError on a bare sign, a doubled underscore and a trailing underscore |
| VideoInfo.ParseInt | touchscreen_toolbox/video_info.py:117 | `int()` of a string is ParseText of it, of a number truncates it toward 0, and of anything else raises TypeError |
| VideoInfo.KeyOf | touchscreen_toolbox/video_info.py:117 | the (id, date) key exists only when both fields are present and `int()` reads them; a missing field is a KeyError, an unreadable one ValueError or TypeError |
| VideoInfo.TimeUpdate | touchscreen_toolbox/video_info.py:114-130 | `get_time` against a table keeps every key of the dictionary, changes none but `time` and `frames`, and sets both when it returns True |
| VideoInfo.RowsAt | touchscreen_toolbox/video_info.py:116-117 | the rows selected by `.loc` are exactly the time-file rows with that id and date |
| VideoInfo.UniqueRowsAt | touchscreen_toolbox/video_info.py:116-117 | when the index of the time file is unique, `.loc` of a key finds at most one row |
| VideoInfo.TimeTable | touchscreen_toolbox/video_info.py:116-117 | each entry of the time table is the window of a row with that key, and with unique keys every row's key is in it |
| VideoInfo.TimeTableAt | touchscreen_toolbox/video_info.py:116-117 | an (id, date) key is in the time table exactly when one row has it, with that row's start and end |
| VideoInfo.TimeLookup | touchscreen_toolbox/video_info.py:114-130 | `get_time` on the time file's rows keeps every key of the dictionary, changes none but `time` and `frames`, sets both when it returns True, and changes nothing when the lookup raises ValueError |
| VideoInfo.TimeLookupRows | touchscreen_toolbox/video_info.py:114-130 | no row for the key gives False with the dictionary unchanged; when the file's keys are all distinct the key has one row and gets its window; when some key of the file repeats, even another one, `.loc` gives a table and `max` raises ValueError with the dictionary unchanged |
| VideoInfo.TimeLookupRepeatElsewhere | touchscreen_toolbox/video_info.py:116-119 | with rows (1, 210305), (2, 210305), (2, 210305), video 1 of 210305 has one row yet its lookup raises ValueError |
| VideoInfo.TimeUpdateKey | touchscreen_toolbox/video_info.py:117-125 | the `get_time` update depends on the time table only through the entry for the video's key |
| VideoInfo.TimeFound | touchscreen_toolbox/video_info.py:98-130 | `get_time` returns True exactly when the (id, date) row exists, length and fps are known and the clamped start is before the clamped end; then `time` is a window inside [0, length] and `frames` the rounded window times fps, nothing else changed |
| VideoInfo.TimeFrames | touchscreen_toolbox/video_info.py:124-125 | with a non-negative frame rate the frame window starts at or after frame 0 and is ordered |
| VideoInfo.FrameWindowOrdered | touchscreen_toolbox/video_info.py:124-125 | rounding half to even keeps an ordered, non-negative window ordered and non-negative |
| VideoInfo.CutStart | touchscreen_toolbox/video_info.py:119 | the start of the cut is `max(0, vid_start + buffer[0])`: at least both, and one of them |
| VideoInfo.CutEnd | touchscreen_toolbox/video_info.py:120 | the end of the cut is `min(length, vid_end + buffer[1])`: at most both, and one of them |
| VideoInfo.FrameWindow | touchscreen_toolbox/video_info.py:124-125 | the frame window is each end of the time window times fps, rounded to within half a frame |
| VideoInfo.TimeNotFound | touchscreen_toolbox/video_info.py:129-130 | an id-date pair missing from the time table gives False with the information unchanged |
| VideoInfo.TimeWithoutFps | touchscreen_toolbox/video_info.py:123-130 | with no frame rate the window is still stored before the KeyError makes `get_time` return False |
| VideoInfo.VidInfo.constructor | touchscreen_toolbox/video_info.py:98 | the video information dictionary holds the given entries |
| VideoInfo.VidInfo.GetTime | touchscreen_toolbox/video_info.py:98-130 | the outcome and the updated dictionary are those of the `get_time` lookup of the old dictionary in the rows of the time file, the index's uniqueness included |
| VideoInfo.Join | touchscreen_toolbox/video_info.py:144 | `os.path.join` ends with its second part, and keeps the first as a prefix unless the second is absolute |
| VideoInfo.InfoPath | touchscreen_toolbox/video_info.py:144 | the saved information of a video is the `.json` file named after the video |
| VideoInfo.LoadOverride | touchscreen_toolbox/video_info.py:140-155 | loading for a dictionary reads the file named by its folder and video name and returns the saved entries updated by the dictionary: every key of either, the dictionary's values winning |
| VideoInfo.LoadPath | touchscreen_toolbox/video_info.py:145-146 | loading from a path returns the saved entries unchanged |
| VideoInfo.LoadInfo | touchscreen_toolbox/video_info.py:140-155 | loading by path always returns the saved entries; loading for a dictionary, when it returns, keeps every entry of the dictionary |
| VideoInfo.ExportInfo | touchscreen_toolbox/video_info.py:158-160 | one value per exported field |
| VideoInfo.ExportFields | touchscreen_toolbox/video_info.py:158-160 | the export depends only on the exported fields, and a missing field is written `NA` |
| VideoInfo.ExportOverride | touchscreen_toolbox/video_info.py:158-160 | an exported field present in an update is written as the update's value |
| VideoInfo.ExportDecoded | touchscreen_toolbox/video_info.py:158-160 | after decoding a name, the exported mouse id, chamber and date are the name's groups with the dashes removed |
| Preprocess.IsPreprocessSuffixes | touchscreen_toolbox/pose_estimation/preprocess.py:173-177 | a name is recognised as preprocessed exactly when it ends in `_b.mp4` or `_c.mp4` |
| Preprocess.IsPreprocess | touchscreen_toolbox/pose_estimation/preprocess.py:176-177 | a name recognised as preprocessed is an `.mp4` name |
| Preprocess.RescaledNotRecognised | touchscreen_toolbox/pose_estimation/preprocess.py:173-177 | a video that was only rescaled (`_r.mp4`) is not recognised as preprocessed |
| Preprocess.AddSuffix | touchscreen_toolbox/pose_estimation/preprocess.py:180-186 | the new path ends with the suffix followed by the format |
| Preprocess.AddSuffixBeforeFormat | touchscreen_toolbox/pose_estimation/preprocess.py:180-186 | for a path ending in its format, the suffix is inserted just before the format, the stem kept and the length grown by the suffix's |
| Preprocess.AddSuffixEmptyFormat | touchscreen_toolbox/pose_estimation/preprocess.py:183 | with an empty format, `[: -0]` is empty and the path becomes the bare suffix |
| Preprocess.AddSuffixUndone | touchscreen_toolbox/pose_estimation/preprocess.py:180-186 | dropping the suffix and format and putting the format back gives the original path |
| Preprocess.AddSuffixTwice | touchscreen_toolbox/pose_estimation/preprocess.py:180-186 | two suffixes in turn stack in order before the format |
| Preprocess.SuffixedRecognised | touchscreen_toolbox/pose_estimation/preprocess.py:173-186 | an `.mp4` path given the `_b` or `_c` suffix is recognised as preprocessed |
| Preprocess.SuffixedTarget | touchscreen_toolbox/pose_estimation/preprocess.py:180-186 | `add_suffix` on the dictionary succeeds exactly when `target_path` and `format` are strings, giving the suffixed path; otherwise KeyError for a missing key, else TypeError |
| Preprocess.Appended | touchscreen_toolbox/pose_estimation/preprocess.py:34 | appending a step succeeds exactly when `prep` is a list, and then only `prep` changes, gaining the step at its end; on the exception nothing changes |
| Preprocess.Caught | touchscreen_toolbox/pose_estimation/preprocess.py:207-208 | the handler changes nothing, and itself raises unless `path` is present |
| Preprocess.Resolution | touchscreen_toolbox/pose_estimation/preprocess.py:24-36 | the outcome and new dictionary are those of the `resolution` update of the old dictionary |
| Preprocess.ResolutionUpdate | touchscreen_toolbox/pose_estimation/preprocess.py:24-36 | `resolution` keeps the dictionary's keys and changes no value but `prep` and `target_path` |
| Preprocess.Brightness | touchscreen_toolbox/pose_estimation/preprocess.py:134-150 | the outcome and new dictionary are those of the `brightness` update of the old dictionary |
| Preprocess.BrightnessUpdate | touchscreen_toolbox/pose_estimation/preprocess.py:134-150 | `brightness` keeps the dictionary's keys and changes no value but `prep` and `target_path` |
| Preprocess.Append | touchscreen_toolbox/pose_estimation/preprocess.py:34 | the outcome and new dictionary are those of appending the step to `prep` |
| Preprocess.PreprocessVideo | touchscreen_toolbox/pose_estimation/preprocess.py:12-19 | the outcome and new dictionary are those of emptying `prep` and then the resolution and brightness steps |
| Preprocess.PreprocessUpdate | touchscreen_toolbox/pose_estimation/preprocess.py:12-19 | `preprocess_video` adds `prep` to the keys and changes no value but `prep` and `target_path` |
| Preprocess.CutVideo | touchscreen_toolbox/pose_estimation/preprocess.py:189-208 | the outcome and new dictionary are those of the `cut_video` update of the old dictionary |
| Preprocess.Unpack | touchscreen_toolbox/pose_estimation/preprocess.py:198 | `start, end = vid_info["time"]` goes on exactly for a value of two items (a window, a frame span, a two-character string or a two-item list); a number raises TypeError and any other length ValueError |
| Preprocess.CutUpdate | touchscreen_toolbox/pose_estimation/preprocess.py:189-208 | `cut_video` keeps the dictionary's keys and changes no value but `prep` and `target_path`; a `time` that does not unpack into two raises its error with the dictionary unchanged |
| Preprocess.KeysDistinct | touchscreen_toolbox/pose_estimation/preprocess.py:17-34 | the dictionary keys the steps touch are different, so updating one leaves the others |
| Preprocess.Applied | touchscreen_toolbox/pose_estimation/preprocess.py:33-34 | a step that applies suffixes the target path, appends its letter to `prep`, keeps the format and changes no other key |
| Preprocess.ResolutionReturned | touchscreen_toolbox/pose_estimation/preprocess.py:24-36 | when `resolution` returns, the video was probed; a video not at 640x480 gets `_r` and `r`, one at the resolution leaves the dictionary as it was |
| Preprocess.BrightnessReturned | touchscreen_toolbox/pose_estimation/preprocess.py:134-150 | when `brightness` returns, a dark video gets `_b` and `b`, a bright one leaves the dictionary as it was |
| Preprocess.PreprocessRecorded | touchscreen_toolbox/pose_estimation/preprocess.py:12-19 | after `preprocess_video` returns, `prep` lists exactly the steps applied, `r` before `b` |
| Preprocess.PreprocessPath | touchscreen_toolbox/pose_estimation/preprocess.py:12-19 | after `preprocess_video` returns on a path ending in its format, the target path is the stem, then `_r` if rescaled, then `_b` if brightened, then the format |
| Preprocess.ChainBeforeFormat | touchscreen_toolbox/pose_estimation/preprocess.py:180-186 | the suffixes of the two steps chain in order before the format |
| Preprocess.Chain | touchscreen_toolbox/pose_estimation/preprocess.py:18-19 | with no step the target is unchanged; otherwise it ends with the last step's suffix and the format |
| Preprocess.PreprocessTarget | touchscreen_toolbox/pose_estimation/preprocess.py:12-19 | after `preprocess_video` returns, the target path is the chained suffixing of the old one when a step applied, and the old one otherwise |
| Preprocess.PreprocessKeeps | touchscreen_toolbox/pose_estimation/preprocess.py:12-19 | `preprocess_video` changes no key but `prep` and `target_path` |
| Preprocess.CutWithoutTime | touchscreen_toolbox/pose_estimation/preprocess.py:197-208 | with no `time`, the KeyError is caught and the dictionary is unchanged |
| Preprocess.CutApplied | touchscreen_toolbox/pose_estimation/preprocess.py:189-205 | with a two-item time, a string target path and format and a list of steps, `cut_video` appends `c`, moves the target to its `_c` name (a recognised preprocessed name for `.mp4`) and changes nothing else |
| Preprocess.CutAtomic | touchscreen_toolbox/pose_estimation/preprocess.py:197-205 | `cut_video` either leaves the dictionary as it was or has appended `c`: it is never left half-updated |
| Augment.XFlip | touchscreen_toolbox/DLC/augment.py:14-28 | every x coordinate mirrored within the frame width, every y kept |
| Augment.YFlip | touchscreen_toolbox/DLC/augment.py:31-35 | every y coordinate mirrored within the frame height, every x kept |
| Augment.XFlipInvolution | touchscreen_toolbox/DLC/augment.py:14-28 | flipping horizontally twice gives the labels back |
| Augment.YFlipInvolution | touchscreen_toolbox/DLC/augment.py:31-35 | flipping vertically twice gives the labels back |
| Augment.FlipsCommute | touchscreen_toolbox/DLC/augment.py:127-130 | the two flips commute, and together mirror every coordinate through the centre of the frame |
| Augment.FlipsInFrame | touchscreen_toolbox/DLC/augment.py:14-35 | labels inside the frame stay inside the frame under both flips |
| Augment.Labelled | touchscreen_toolbox/DLC/augment.py:117-130 | a name and row are produced exactly for flip codes 1, 0 and -1 |
| Augment.LabelledNames | touchscreen_toolbox/DLC/augment.py:117-130 | the three codes give three different names ending in `_h.png`, `_v.png` and `_d.png` |
| Augment.LabelledUndone | touchscreen_toolbox/DLC/augment.py:117-130 | every recorded row gives the original labels back under the same flip |
| Augment.Labels.constructor | touchscreen_toolbox/DLC/augment.py:84 | the caller's list of labelled images starts empty |
| Augment.Labels.Augment | touchscreen_toolbox/DLC/augment.py:84-134 | a valid code appends exactly its name and flipped row to the list; any other code raises ValueError and leaves the list as it was |

## Left out

- DeepLabCut inference and training are foreign calls and are not modelled. This covers `dlc.py` in the package and in its `pose_estimation` and `extract` folders.
- Video and image work is not modelled: reading frames, ffprobe, rescaling, gamma correction, cutting, `cv2.flip`, `cv2.imwrite`, `random_exposure` and `map_video`. What the bookkeeping needs from it comes in as parameters: the probed resolution of `resolution` and the median brightness of `brightness`.
- `get_vid_len` and `get_vid_fps` read the video file. Length and fps are entries of the information dictionary.
- `save_info`, `save_data`, `record_stats`' walk over the result folders and its CSV writing are file I/O. The JSON files `load_info` reads are a parameter `read`. Only the row `record_stats` builds is modelled (`Statistics.Row`).
- `search_timestamps` reads the chamber's log with h5py. Its states, trials and attributes are inputs to `Timestamp`.
- `merge` in touchscreen_toolbox/postprocess/timestamp.py:11-22 only chains `merge_info`, `merge_states`, `merge_trials` and `make_multiindex`, which are each modelled. The final column concatenation is not.
- `savgol_filter` is a library filter and is a function parameter of `Refine.RefineData`.
- The two quantiles of `get_stats` are kept as unevaluated `Quantile` entries. Quantile interpolation is not computed.
- Floating point is not modelled: all arithmetic is exact on reals. The `.round(decimals=DECIMALS)` of the feature tables is not modelled either. `percent` is rounded to hundredths, half to even.
- `sqrt`, `arctan2` and `pi` are uninterpreted. Their only facts are: the root of a non-negative number is non-negative and squares back, `arctan2` lies in (-π, π], and π > 0.
- Feature: the feature arithmetic works on gap-free tables, so NaN propagation through distances and angles is not modelled.
- Standardize.Standardize: requires a non-empty table. On an empty one, `data['lr_corner_x'].iloc[0]` (touchscreen_toolbox/postprocess/standardize.py:106-107) raises IndexError, and that error path is not modelled.
- Standardize.SetOrigin: requires non-empty origin columns. On an empty table, `.iloc[0]` (touchscreen_toolbox/postprocess/standardize.py:20-21) raises IndexError, and that error path is not modelled.
- Tables.Drop: a name that is not a column is skipped, where pandas' `drop(columns=...)` raises KeyError. Every drop in the pipeline names columns the table has.
- Feature.Velocity1: requires a non-empty series. On an empty one, `iloc[0]` raises IndexError, and that error path is not modelled.
- TRAY_LENGTH is commented out in touchscreen_toolbox/config.py:6. The value 26.8 comes from touchscreen_toolbox/utils.py:15, the only definition in the repository.
- Copies of the same algorithms are not modelled separately. These are the package-level `postprocess.py` and `utils.py`, the old `touchscreen-toolbox/` tree, `postprocess/postprocess.py`, the `decode_name` variants in the `utils` folder and `hardcode.py`, and the superseded `feature.py`. `extract.dfy` models only where touchscreen_toolbox/extract/postprocess.py differs, which is its in-place `cutoff` and its `median_filter`. Its other functions are the ones of module Standardize and Statistics.
- `convert_dtypes` and pandas dtypes are not modelled.
- Positional indexing versus index labels: `cutoff`, `fillna` and `count_trials` mix `.loc`/`iloc`. The model takes a table's index labels to be its positions 0, 1, ....
- VideoInfo.LoadInfo: an argument that is neither a dictionary nor a string, which raises TypeError, cannot be written in the model. `Source` has only those two cases.
- Preprocess.CutUpdate: once `time` unpacks into two items the cut goes on whatever they are; what the cutter, a foreign call, does with a frame span or two characters as its start and end is not modelled.
- VideoInfo.TimeUpdate: a dictionary value of the wrong kind is reported as TypeError. Python's exact exception for each wrong type is not modelled. The time file comes in as its rows (`VideoInfo.TimeRow`); reading the CSV is not modelled.
- VideoInfo.Run: the character classes are ASCII `\d` (0-9) and Python's full `\s` set; the other Unicode decimal digits, which Python's `\d` also accepts and whose set depends on the interpreter's Unicode version, are not modelled.
- VideoInfo.MatchLayout: completeness is stated for ASCII-digit groups only, for the reason given at VideoInfo.Run.
- VideoInfo.MatchParts: a matched id, date or clock group is stated to be ASCII digits; a name with other Unicode decimal digits is not modelled, for the reason given at VideoInfo.Run.
- VideoInfo.DecodeFields: decodes names with ASCII-digit groups only, for the reason given at VideoInfo.Run.
- VideoInfo.ParseText: `int()` is modelled for ASCII digits; the other Unicode decimal digits it accepts are refused in the model, for the reason given at VideoInfo.Run.
- Timestamp.IncrementDuplicates follows the code: a frame is bumped to its own value + 1, not to the previous frame + 1. So three equal frames are not made strictly increasing (`Timestamp.IncrementedTriple`), although the docstring says duplicates are removed.
- Fill: as the code does (touchscreen_toolbox/postprocess/standardize.py:72-76), the interpolation step divides by the run's length, so the last filled cell of a run equals the next present value.
- Feature: following the code, the internal `angv-` columns are the raw `velocity1` of the angle (touchscreen_toolbox/postprocess/feature.py:54), not the wrap-corrected `get_angv`.
- The plotting module and the session-level trial classifications are not part of this model.

## Findings

| source | as written | input that shows it | evidently intended | confidence | as-written member | corrected member |
|---|---|---|---|---|---|---|
| touchscreen_toolbox/postprocess/standardize.py:49 | `if idx.any():` tests whether some missing index label is non-zero, so a column whose only gaps are at label 0 is skipped and stays unfilled | the column [NaN, 1.0, 2.0]: its missing index is [0], `idx.any()` is false, and frame 0 stays NaN | fill the column whenever some value is missing (`if len(idx) > 0`); frame 0 then takes the back-filled 1.0 | not executed | Fill.FilledAsWritten (shown by Fill.FirstGapKept) | Fill.Filled (proved complete by Fill.FilledComplete; Fill.FilledAsWrittenCases shows the as-written fill, which Fill.FillColumn and Standardize follow, differs from it only on such a column) |
