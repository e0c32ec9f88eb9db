# gpx2guide core in Dafny

gpx2guide turns a GPS track into a booklet of map pages. This project models the parts of it
that compute geometry. Nothing here draws, reads files or calls a numerical solver.

- **Units** (`units.dfy`, from `units.py`):
  - geographic and planar (Mercator) coordinates, with their componentwise arithmetic;
  - the Mercator projection and its inverse;
  - the haversine and Euclidean distances;
  - slippy-map tile numbering.
- **Data** (`data.dfy`, from `data.py`):
  - `GeoData`, the five parallel arrays of a track: latitude, longitude, planar x, planar y and cumulative distance;
  - how it is built from coordinates;
  - its bounding box and mean;
  - the search for the sample at a given distance;
  - `segment`, which cuts a track into pieces, each fitting a page of `dx` by `dy`.
- **Img** (`img.dfy`, from `img.py`):
  - the affine map from planar coordinates to pixels;
  - the length conversions from font points and centimetres to pixels;
  - the anchor `annotate` picks for a label;
  - the dash pattern `dotted` draws along every run of the track inside the page.
- **Map** (`map.dfy`, from `map.py`):
  - the scale conversions;
  - the page limits centred on the map's coordinate;
  - the split of the scale-bar label;
  - the distance markers that `route` places.

`numerics.dfy`, `arrays.dfy` and `wrappers.dfy` hold shared pieces:
- Python's `int()`;
- numpy's `ceil`, `argmax`, `cumsum`, `min`/`max` and `minimum.accumulate`/`maximum.accumulate`;
- the `Result`/`Option` types that carry the exceptions the source raises.

Floats are modelled as `real`. The transcendental functions are fields of a `Transcendentals` record:
- tan, log, exp, arctan, arctan2, arcsin, arccos, sin, cos, sinh and sqrt.

Each lemma assumes, as a precondition, only the facts about them that it needs. Examples:
- `sqrt >= 0`;
- sin is odd;
- `exp(log v) = v`.

The loops of the source are methods proved against a function that states their result:
- `segment` is `Data.GeoData.Segment`, proved against `Data.Segments`;
- the dash loop of `dotted` is `Img.DashLoop`;
- the loop over runs in `dotted` is `Img.Img.DrawRuns`;
- the marker loop in `route` is `Map.Map.MarkerProbes`;
- the `for`/`break` scan of `annotate` is `Img.Anchor`.

The model follows the code as written, including these behaviours:
- `from_geo` on fewer than two points raises `ValueError` from `np.apply_along_axis` on an empty stack (data.py:24), and the model returns that failure.
- The cursor of `segment` advances by `idx - 1` even on its first cut (data.py:99).
- A first cut at index 1 therefore repeats the same iteration forever. The model reports this as `Diverges`.

## Model

| member | source | states |
|---|---|---|
| Numerics.DegToRad | units.py:10-11 | degrees to radians, undone exactly by `RadToDeg` |
| Numerics.Trunc | img.py:223 | `int()` truncates toward zero: `n <= v < n + 1` for `v >= 0`, `n - 1 < v <= n` below |
| Numerics.Ceil | map.py:43 | `np.ceil`: the least integer `n` with `v <= n` |
| Numerics.Mod360 | img.py:155 | Python's `% 360` on a float: the result is in `[0, 360)` and differs from the argument by a multiple of 360 |
| Numerics.CutFraction | data.py:86 | the interpolation factor `(span2 - bound)/(span2 - span1)` lies in `(0, 1]` and satisfies `t*(span2 - span1) = span2 - bound`: the span taken as linear along the leg equals `bound` there |
| Arrays.Greater | data.py:74 | the mask `s > bound`, element by element |
| Arrays.ArgMax | data.py:74 | `np.argmax` of a mask: the first true index, or 0 when the mask has none |
| Arrays.FirstAbove | data.py:115 | the first index exceeding the bound: every earlier entry is at most the bound, or the result is 0 because none or the first exceeds it |
| Arrays.SeqMin | data.py:43 | `np.min`: an element of the array, at most every element |
| Arrays.SeqMax | data.py:45 | `np.max`: an element of the array, at least every element |
| Arrays.PrefixSpan | data.py:68-73 | entry k is the span (`max - min`) of the first k + 1 entries |
| Arrays.PrefixSpanShape | data.py:68-73 | the prefix span starts at 0 and is non-decreasing |
| Arrays.SnocExtremes | data.py:68-71 | appending a value updates the running max and min by `max` and `min` with it |
| Arrays.CumSum | data.py:25 | `np.cumsum`: the first entry is the first input, and each later entry adds the next input |
| Arrays.CumSumUnique | data.py:25 | any sequence with the cumulative-sum recurrence is the cumulative sum |
| Arrays.CumSumNonDecreasing | data.py:25 | the cumulative sum of non-negative steps is non-decreasing |
| Units.GeoCoord.Add | units.py:16-17 | the componentwise sum, which subtracting the other coordinate undoes |
| Units.GeoCoord.Sub | units.py:19-20 | the componentwise difference: added to the other coordinate it gives this one |
| Units.GeoCoord.ToMercator | units.py:35-36 | the planar x gives the longitude back, and off the poles the planar y gives the latitude back, given exp/log and tan/arctan inverses |
| Units.GeoCoord.RMul | units.py:22-26 | `scalar * coord` scales both components for a number; `NotImplementedError` for anything else |
| Units.GeoCoord.Div | units.py:28-32 | `coord / scalar` divides both components; `NotImplementedError` for a non-number, `ZeroDivisionError` for 0 |
| Units.MercatorCoord.Add | units.py:71-72 | as `GeoCoord.Add`, on planar coordinates |
| Units.MercatorCoord.Sub | units.py:74-75 | as `GeoCoord.Sub`, on planar coordinates |
| Units.MercatorCoord.ToGeo | units.py:90-93 | the longitude of the inverse projection projects back onto x |
| Units.MercatorCoord.RMul | units.py:77-81 | as `GeoCoord.RMul`, on planar coordinates |
| Units.MercatorCoord.Div | units.py:83-87 | as `GeoCoord.Div`, on planar coordinates |
| Units.InterpolateEnds | units.py:16-24 | `a - t*(a - b)` is `a` at `t = 0` and `b` at `t = 1`, for both coordinate types |
| Units.ArithmeticInverses | units.py:16-32 | `+` is undone by `-`, and `*` by a non-zero number is undone by `/` |
| Units.MercatorArithmeticInverses | units.py:71-87 | the same for planar coordinates |
| Units.GeoToMercatorX | units.py:44-47 | planar x is the longitude in radians, and `mercator2geo_lon` gives the longitude back |
| Units.MercatorLonRoundTrip | units.py:109-112 | x to longitude and back is the identity |
| Units.MercatorLatRoundTrip | units.py:104-107 | for `-90 < lat < 90`, the inverse projection of `log(tan(phi/2 + pi/4))` gives the latitude back, given exp/log and tan/arctan inverses |
| Units.GeoMercatorRoundTrip | units.py:90-93 | `to_mercator` then `to_geo` is the identity off the poles |
| Units.HaversineDist | units.py:55-58 | the haversine distance is non-negative, given `sqrt >= 0` and `arcsin >= 0` on non-negatives |
| Units.HaversineSymmetric | units.py:55-58 | the haversine distance is symmetric in its two points, given sin odd |
| Units.HaversineSame | units.py:55-58 | the distance from a point to itself is 0 |
| Units.GeoDistProperties | units.py:38-39 | `GeoCoord.dist` is non-negative, symmetric and zero on the diagonal |
| Units.EuclidianDist | units.py:115-117 | the Euclidean distance is non-negative, and 0 from a point to itself, given `sqrt >= 0` and `sqrt 0 = 0` |
| Units.EuclidianDistSymmetric | units.py:115-117 | the Euclidean distance is symmetric in its two points |
| Units.NewTile | units.py:122-131 | a tile's bounds are `x .. x + 1` and `y .. y + 1`; its west edge is west of its east edge by exactly `360 / 2^zoom` |
| Units.GeoToTileX | units.py:144-146 | the column of a longitude brackets it: `tile2geo_lon(x) <= lon < tile2geo_lon(x + 1)` |
| Units.TileColumnBracket | units.py:144-146 | the bracket of the floored column, in the source's own arithmetic |
| Units.GeoToTileY | units.py:148-150 | the row number fails exactly when zoom is 0 (`ValueError` from the negative power) or the cosine vanishes |
| Units.TileToGeoLon | units.py:157-159 | column 0 is at longitude -180 and column `2^zoom` at 180: the columns cover the globe once |
| Units.TileToGeoLonStep | units.py:157-159 | successive column edges are `360 / 2^zoom` apart, in increasing order |
| Units.TileToGeoLonIncreasing | units.py:157-159 | `tile2geo_lon` is strictly increasing in the column |
| Units.TileFromGeo | units.py:133-137 | the tile of a coordinate contains its longitude between its corners |
| Units.TileColumnRoundTrip | units.py:144-159 | `geo2tile_x` of a column's west edge is that column: the two conversions are inverse on whole columns |
| Data.NewGeoData | data.py:8-15 | construction succeeds exactly when the five arrays have one length, stores them, and otherwise raises `TypeError` |
| Data.GeoData.Drop | data.py:57-61 | `a[p:]` on all five arrays: the samples from p on |
| Data.GeoData.Take | data.py:92-96 | `a[:n]` on all five arrays: the first n samples |
| Data.GeoData.Prepend | data.py:63-67 | `np.insert(a, 0, v)` on all five arrays: the sample first, the old ones shifted by one |
| Data.GeoData.Append | data.py:92-96 | `np.append` on all five arrays: the old samples, then the new one last |
| Data.GeoData.Min | data.py:42-43 | per-axis minimum: an actual latitude and longitude, at most every sample's; `ValueError` on an empty track |
| Data.GeoData.Max | data.py:44-45 | per-axis maximum: an actual latitude and longitude, at least every sample's; `ValueError` on an empty track |
| Data.GeoData.Mean | data.py:46-47 | the componentwise midpoint of `min()` and `max()`, between them on both axes |
| Data.GeoData.FindDist | data.py:114-126 | `ValueError` exactly on an empty track; `None` exactly when the first sample is past the target or no sample is |
| Data.GeoData.FindDistFound | data.py:114-126 | a found point is sample i, the first past the target with all earlier samples at most the target, or, when interpolating, its interpolation towards sample i - 1 by the solver's `abs(t)` |
| Data.FindDistOnMonotoneTrack | data.py:114-116 | on a non-decreasing distance array, `None` exactly when the target is before the start or at or past the end |
| Data.FindDistWithinTrack | data.py:114-116 | on a track built by `from_geo`, every target in `[0, total)` is found |
| Data.LegLengths | data.py:23-24 | entry 0 is 0 and entry k is the haversine distance between points k - 1 and k |
| Data.FromGeo | data.py:18-26 | `ValueError` for fewer than two points; otherwise the coordinates, their projections, and `dist[0] = 0`, with `dist[k] = dist[k-1] + dist(p[k-1], p[k])` |
| Data.FromGeoDistNonDecreasing | data.py:23-25 | the cumulative distance is non-decreasing |
| Data.FromGeoProjectionRoundTrip | data.py:19-22 | the stored x and y project back to the stored coordinate, off the poles |
| Data.Overflow | data.py:74-75 | `argmax(span > bound)`: the first prefix whose span exceeds the bound, with every earlier prefix within it |
| Data.OverflowZero | data.py:74-76 | the overflow index is 0 exactly when the bound is negative or the whole span fits |
| Data.FindCut | data.py:68-78 | no cut exactly when both overflow indexes are 0. Otherwise idx is one of the overflow indexes, in `[1, len)`, and no later than either positive one |
| Data.CutIndex | data.py:77 | `min(i, j)` when both are positive, else `max(i, j)`: at least 1 and no later than either positive index |
| Data.FindCutPoint | data.py:79-89 | the cut satisfies `IsCut`: t in `(0, 1]` is where the span of the axis cut at idx (x on a tie), interpolated linearly along the leg, equals its bound, and the point lies on leg idx - 1 → idx at `c2 - t*(c2 - c1)`, projected back and with its distance added |
| Data.CutPoint | data.py:83-91 | the cut point lies on the planar leg. Its latitude and longitude are the inverse projection, and its distance adds the haversine from sample idx - 1 |
| Data.CutDistance | data.py:91 | `dist0 >= dist[idx-1]` |
| Data.NoCutIffFits | data.py:76 | for non-negative box sizes, the loop exits exactly when both spans of the window fit the box |
| Data.CutFootprint | data.py:77-97 | the emitted piece keeps all but its last sample in the box on both axes and fits on at least one axis; when the axes overflow at different indexes it fits on both |
| Data.PieceFootprint | data.py:79-96 | the same, for any cut satisfying the cut conditions |
| Data.AxisFits | data.py:74-77 | every prefix shorter than the overflow index fits the bound |
| Data.CutSpans | data.py:77-97 | the cut axis fits its bound before and with the cut point; the other axis fits before it, and with it unless it overflows at the same index |
| Data.AxisPieceCut | data.py:86-87 | the prefix up to the cut, plus the cut point, has span at most the bound |
| Data.TieLeavesBox | data.py:77-97 | on a tie (both axes overflow at the same index) the piece can exceed dy: a concrete two-point track |
| Data.Piece | data.py:92-97 | a piece is the window's first idx samples followed by the cut point: idx + 1 samples (at least two) agreeing with the window before the cut, ending at the cut point, with the footprint above |
| Data.GeoData.Rest | data.py:57-67 | the window: the track itself at the start; once the cursor has moved, the carried cut point followed by sample prev + k - 1 at position k, ending at the track's last sample |
| Data.ResumeLast | data.py:57-67 | the window always ends at the track's last sample |
| Data.ResumeAtEnd | data.py:101-109 | with the cursor on the last sample, the window is the leg from the carried point to the last sample |
| Data.ChainedSnoc | data.py:97 | appending a piece that starts where the last one ended keeps the chain |
| Data.RoundKeeps | data.py:55-99 | a round that cuts, and is not the first round cutting at index 1, keeps the loop state: the cursor moves forward by idx - 1 and stays on the track, and the new piece is chained on and ends at the carried cut point |
| Data.FitsFootprint | data.py:76 | a window that fits on both axes has the footprint |
| Data.FinalLegFits | data.py:101 | returning at `prev_idx == len - 1` leaves only a final leg that fits the box |
| Data.FinalPiece | data.py:104-109 | the trailing piece starts at the last cut point, ends at the last sample, and keeps the chain |
| Data.GeoData.Segment | data.py:50-111 | the loop returns exactly `Segments`. That is `ValueError` on an empty track, `[]` on one sample, `UnboundLocalError` when the first window needs no cut, and `Diverges` when the first cut is at index 1. Otherwise the pieces each have ≥ 2 samples and the footprint, each starts where the previous ended, and the first starts at the track's start. The last piece ends at the track's last sample, or else the leg from its end to the last sample fits the box and is dropped |
| Data.SegmentsOutcome | data.py:50-111 | the promises of `Data.GeoData.Segment` above, stated of `Segments` |
| Data.FirstRound | data.py:55-76 | the first round: `[]` on one sample, `UnboundLocalError` when the whole track fits, `Diverges` on a first cut at index 1 |
| Data.SegmentsKept | data.py:55-111 | on a non-empty track the outcome is chained from the first sample, reaches the end as above, has a piece when there are two samples, and never fails with `ValueError` |
| Data.PiecesKeep | data.py:55-111 | from any loop state the rounds still to come keep that promise, after the pieces cut so far |
| Data.PiecesCutKeeps | data.py:77-99 | the same for a state whose round cuts and does not repeat itself |
| Data.PiecesStop | data.py:55-99 | a round that repeats its window (or runs out of fuel) fails with `Diverges` (or `OutOfFuel`) |
| Data.PiecesFinish | data.py:76-111 | a round without a cut ends the loop with the promise kept: on the last sample the remaining leg fits the box, and otherwise the rest of the track, appended, keeps the chain and ends at the last sample |
| Data.PiecesLast | data.py:76-111 | the outcome of a round with no cut: `[]` on the last sample, `UnboundLocalError` before any cut, else the rest of the track as one piece |
| Data.PiecesStep | data.py:77-99 | a cutting round that does not repeat emits its piece, and the loop continues from cursor `prev + idx - 1` with the cut point carried |
| Data.CursorAdvances | data.py:99 | such a round moves the cursor past the first sample and keeps it on the track |
| Data.RoundUnrolls | data.py:77-99 | the loop invariant of `Segment` (what has been emitted, followed by what the remaining rounds emit, is the outcome) survives a cutting round |
| Data.Advance | data.py:92-99 | the state after a cutting round: the piece appended, the cursor moved by idx - 1, the cut point carried, and the loop state kept |
| Data.KeptBack | data.py:92-99 | the promise for the state after a cutting round carries back to the state before it |
| Data.Unroll | data.py:77-99 | the rounds from the cursor are the round's piece followed by the rounds from the moved cursor |
| Img.DataToImgI | img.py:209-211 | xmin maps to column 0 and xmax to column `width` |
| Img.DataToImgJ | img.py:213-215 | ymax maps to row 0 and ymin to row `height` (the vertical flip) |
| Img.DataToImgRoundTrip | img.py:209-215 | on a page of non-zero size, the column maps back to x and the row back to y |
| Img.DataToImgIIncreasing | img.py:209-211 | the column is strictly increasing in x, and inside `(0, width)` for x strictly inside the limits |
| Img.DataToImgJDecreasing | img.py:213-215 | the row is strictly decreasing in y (the vertical flip), and inside `(0, height)` for y strictly inside |
| Img.Img.PaperToImgLen | img.py:222-224 | `int(dpi/2.54*len)`: for a non-negative product, `n <= product < n + 1` |
| Img.Img.FontToImgLen | img.py:219-227 | the same bracket for `0.0353 * font_len` centimetres |
| Img.NewImg | img.py:19-24 | the page keeps the limits and the resolution; its width and height are the truncated paper sizes in pixels |
| Img.Anchor | img.py:152-156 | the index of the first sector k with `(angle - (k - 1/2)*45) % 360 <= 45` |
| Img.AnchorCover | img.py:152-156 | some sector always fits, so the scan never falls through to the last anchor by default |
| Img.OffsetLength | img.py:148-149 | the label offset `(d cos a, -d sin a)` has length d, given `sin^2 + cos^2 = 1` |
| Img.Img.Annotate | img.py:144-158 | the anchor is the first fitting sector's, and the label lies at the given (or default half-font) distance from the point |
| Img.Img.InsideMask | img.py:46 | the mask is true exactly at points strictly inside the open limits box |
| Img.Clumps | img.py:46 | `clump_masked` of the mask of inside points: the runs are ordered and disjoint, hold only inside points, are bounded by outside points or the ends, and cover every inside point |
| Img.ClumpsFrom | img.py:46 | the same from a position that follows an outside point |
| Img.ClumpsCons | img.py:46 | a maximal run followed by the maximal runs after it is maximal |
| Img.RunEnd | img.py:46 | the end of a run: every point up to it is inside and the point at it is not |
| Img.Widen | img.py:50-51 | the slice grows by one at the start when `start > 0` and at the end only when `stop < size - 1` |
| Img.WidenKeepsLastOut | img.py:51 | a run ending at `size - 1` is not widened to include the last point |
| Img.Legs | img.py:56-57 | entry 0 is 0 and entry k is the pixel distance of leg k - 1 → k |
| Img.RunLengthsSteps | img.py:56-58 | the run length starts at 0 and adds each leg's pixel length |
| Img.RunLengthsCumSum | img.py:56-58 | the run length is the cumulative sum of the leg lengths |
| Img.RunLengthNonDecreasing | img.py:56-58 | with `sqrt >= 0` the run length is non-decreasing |
| Img.Img.RunTrace | img.py:53-58 | the trace of a slice has one vertex per point; fewer than two points raise `ValueError` (`column_stack` of empty arrays) |
| Img.Img.RunTracePoints | img.py:53-58 | each vertex is the point's pixel, and the lengths start at 0 and add the legs |
| Img.Trace.Drop | img.py:63-65 | the trace from the cursor on |
| Img.Trace.Prepend | img.py:66-69 | the carried vertex first, the rest shifted by one |
| Img.Trace.Window | img.py:63-69 | the window has the trace's length at the start and `len - prev + 1` once the cursor has moved |
| Img.WindowAt | img.py:63-69 | the window is the trace itself at the start, and otherwise the carried vertex followed by the trace from the cursor |
| Img.Trace.Pixels | img.py:84 | the first n vertices as pixels |
| Img.Reach | img.py:72-82 | a cut's index lies inside the window, after its first point |
| Img.ReachFacts | img.py:71-82 | no cut exactly when the first length exceeds the threshold or none does. Otherwise idx is the first index past the threshold, t is in `(0, 1]`, and the cut vertex lies on the leg at the threshold length |
| Img.ReachOnLeg | img.py:80-82 | the cut vertex lies between the leg's ends on both axes, with a length from the earlier end's up to below the later end's |
| Img.DashRound | img.py:71-107 | a round that breaks draws one or two strokes, the last of them the whole window; a round that goes on resumes at a point inside the window |
| Img.DashRoundShape | img.py:71-90 | a round with no draw threshold ends with the whole window. Otherwise it draws the window up to the cut plus the cut point, and either ends with the window or continues with that dash |
| Img.DashRoundCuts | img.py:88-100 | a round continues exactly when both thresholds are reached. The next window's start length is then the previous start plus `font2img_len(dotted_length)` |
| Img.RoundEnds | img.py:84-107 | what a round draws starts at the window's first point, and the final stroke ends at its last point |
| Img.StallRepeats | img.py:100-103 | with a zero dash length, a round that cuts at index 1 after the first leaves cursor and carry unchanged |
| Img.NextPrev | img.py:102-103 | the cursor never moves back, and it stays put exactly on a later round that cuts at index 1 |
| Img.CursorResumes | img.py:100-103 | after a continuing round, the next window is the old one from the cut index on, with the cut vertex first |
| Img.Strokes | img.py:61-107 | the dash loop of one run fails only with `Diverges` |
| Img.StrokesStep | img.py:61-107 | the dash loop is one round followed by the loop from the moved cursor, or the round's final strokes, or `Diverges` on a stall |
| Img.DrawnStep | img.py:61-107 | a round that draws a dash and does not stall keeps the loop invariant (the run's strokes are those drawn so far followed by the rest's) and lowers the termination measure |
| Img.StrokesStart | img.py:84 | the first stroke starts at the run's first point |
| Img.StrokesEnd | img.py:105-107 | the last stroke ends at the run's last point |
| Img.MeasureDecreases | img.py:61-103 | with a positive dash length, every continuing round strictly lowers the measure; with a negative one the cursor moves forward |
| Img.MeasureStep | img.py:88-100 | one dash length further along the run lowers the measure |
| Img.DashLoop | img.py:60-107 | the while loop of `dotted` returns exactly the strokes of `Strokes` from cursor 0 |
| Img.Img.DrawRun | img.py:48-107 | one run's strokes: its widened slice's trace, then the dash loop |
| Img.Img.RunsStrokesStep | img.py:47-107 | the runs' strokes are the first run's strokes, then the rest's; a failing run fails them all |
| Img.Img.DrawRuns | img.py:47-107 | the loop over the runs returns exactly `RunsStrokes` |
| Img.Img.Dotted | img.py:39-107 | `dotted` returns the strokes of the maximal inside runs for the given or default dash sizes; arrays of unequal length raise `ValueError` |
| Map.Map.PaperToGeoDist | map.py:61-64 | `b/a * p / 100000`, stated as `r * a * 100000 = b * p`; `ZeroDivisionError` when a is 0 |
| Map.PaperToGeoDistLinear | map.py:61-64 | 0 at paper length 0, and additive in the paper length |
| Map.HaversineDeltaLon | map.py:65-71 | fails (a numpy infinity) exactly when `cos^2(lat)` is 0 |
| Map.HaversineDeltaLonZero | map.py:65-71 | a zero distance spans zero longitude, given `sin 0 = 0` and `arccos 1 = 0` |
| Map.Map.GeoToMercatorDist | map.py:72-75 | read back as a longitude, the planar width is `haversine_delta_lon` of the distance at the map's latitude; it fails (`NonFinite`) exactly when that latitude's cosine is 0 |
| Map.Map.PaperToMercatorDist | map.py:76-77 | the same for the ground distance of a paper length; `ZeroDivisionError` when a is 0, else `NonFinite` at a zero cosine |
| Map.MercatorDistZero | map.py:65-77 | a zero distance, and for a non-zero scale a zero paper length, has zero planar width, given `sin 0 = 0` and `arccos 1 = 0` |
| Map.Map.PageLimits | map.py:17-25 | the limits exist exactly when a is non-zero and the centre's cosine is not 0; they are the planar paper width and height apart, with midpoints at the centre's projection |
| Map.Map.Page | map.py:26 | the page image gets exactly the limits and the map's resolution |
| Map.Map.ScaleDist | map.py:30 | the number formatted for the scale bar is the bar's ground length in metres |
| Map.SplitScaleLabel | map.py:31-36 | `IndexError` on an empty string, which is the only failure |
| Map.SplitScaleLabelRoundTrip | map.py:31-36 | the unit ends in `m` and has a prefix exactly when the string ends in a letter; number then prefix rebuild the string |
| Map.Map.MarkerDelta | map.py:43 | the spacing is the ceiling of the ground length of 2 cm; `ZeroDivisionError` when a is 0 |
| Map.Range | map.py:44 | `range` is empty exactly when start is at or past stop in the step's direction, and otherwise starts at start |
| Map.RangeLength | map.py:44 | a positive-step range below stop holds `ceil((stop - start)/step)` values: n with `(n - 1)*step < stop - start <= n*step` |
| Map.RangeElements | map.py:44 | `range` with a positive step holds `start + k*step`, each below stop, and stops before passing stop |
| Map.RangeMembers | map.py:44 | v is probed exactly when `v = start + k*step < stop` for some k ≥ 0 |
| Map.RangeIncreasing | map.py:44 | a positive-step range is strictly increasing |
| Map.MarkerAt | map.py:45-51 | no marker exactly when `find_dist` returns `None`; otherwise the probe's distance at the interpolated point's projection, with the angle `rad2deg(angle from the next sample's projection + pi/2)`, and the non-interpolated lookup also succeeds |
| Map.MarkersAt | map.py:44-51 | at most one marker per probe |
| Map.MarkersAtProbes | map.py:44-46 | every marker's distance is a probe |
| Map.MarkersAtSound | map.py:44-46 | every marker is at a probe that `find_dist` answers |
| Map.MarkersAtComplete | map.py:44-46 | every probe `find_dist` answers has a marker |
| Map.MarkersAtIncreasing | map.py:44-51 | over increasing probes the markers' distances strictly increase |
| Map.Map.MarkerProbes | map.py:43-52 | the loop returns exactly `RouteMarkers`: the markers of the probes, or `ZeroDivisionError` for a zero scale, or `ValueError` for an empty track or a zero step |
| Map.Map.RouteMarkers | map.py:40-51 | `route` fails exactly for a zero scale (`ZeroDivisionError`), an empty track or a zero spacing (`ValueError`) |
| Map.ProbesElements | map.py:44 | for a positive spacing the probes are int(min dist) + k·delta, none past int(max dist), and one more step would pass it |
| Map.ProbesIncreasing | map.py:44 | for a positive spacing the probes strictly increase |
| Map.RouteMarkersAre | map.py:43-51 | a successful `route` has a non-empty track and a non-zero spacing, and its markers are those of the probes of the spacing's range |
| Map.RouteMarkersSound | map.py:43-51 | every marker's distance is a probe of the range that `find_dist` answers |
| Map.RouteMarkersComplete | map.py:43-51 | every probe of the range that `find_dist` answers has a marker |
| Map.RouteMarkersIncreasing | map.py:43-51 | for a positive spacing the markers' distances strictly increase |

## Left out

- Reading GPX files (`from_gpx`, data.py:29-40) is left out: it is file I/O through gpxpy.
- The numerical solver: `scipy.optimize.root` in `find_dist` (data.py:121-124) becomes a function parameter `root`. The model uses only the value the solver returns.
- Floating point is modelled as exact `real` arithmetic. NaN, infinities, rounding and numpy broadcasting are not modelled.
- The few infinities that matter are explicit failures instead:
  - a zero cosine in `haversine_delta_lon` gives `NonFinite`;
  - an arccos argument outside `[-1, 1]` would give NaN in numpy, but the model's `arccos` is total.
- The transcendental functions are uninterpreted. Only the axioms a lemma assumes are known about them.
- PIL is left out:
  - the canvas, fonts, `lines`, `text`, `mark`, `paste`, `scalebar`, `show` and `save` (img.py:29-37, 110-204);
  - drawing calls become returned values: `Img.Img.Dotted` returns the strokes `draw.line` would receive, and `Img.Img.Annotate` returns the label.
  - `Img` is a value, not a mutable canvas. The updates to `self.img` are not modelled.
- `EngNumber` formatting (map.py:30) is an external library. `Map.SplitScaleLabel` takes its output string as input.
- The `float()` parse of the label number is not modelled.
- `str.isalpha` is modelled for ASCII letters only.
- `Map.__init__` ends by calling `self.img.scale`, but `Img` has no method of that name (map.py:37). The constructor therefore always raises `AttributeError`. The model covers its computations up to that call: `Map.Map.PageLimits`, `Map.Map.Page`, `Map.Map.ScaleDist` and `Map.SplitScaleLabel`. The constructor as a whole is not modelled.
- `route` (map.py:40-52) is modelled only in its marker branch:
  - the `lines` call and `if not marker: return` draw or return nothing the model could state;
  - the `mark` and `annotate` calls become the `Marker` values.
- `main.py` is left out: it is the command-line driver and PDF output.
- The `__main__` demonstration blocks and the `__repr__` methods are left out.
- The Mercator latitude formulas, tile row numbering and `haversine_delta_lon` are kept over the uninterpreted functions. Only the round trips and the facts listed above are proved.
- Data.GeoData.Segment: a `fuel` bound limits its loop, and `OutOfFuel` is returned when the bound runs out. The source has no bound, and termination of its loop is not proved.
- Data.GeoData.Segment: the source does not always reach the track's last sample. When the cursor stops on the last sample (data.py:101), the leg from the last cut point to that sample is dropped. For example, x = [0, 1, 5] with y constant, dx = 1.5 and dy = 1 gives three pieces ending at x = 1.5, 15/7 and 51/14, and x = 5 is never emitted. The model states what holds: the last piece ends at the last sample, or the dropped leg fits the box.
- Data.GeoData.Segment: the footprint it promises states one axis fully in the box and all but the cut point in the box on both. When both axes overflow at the same index, the piece can exceed `dy` (`Data.TieLeavesBox` exhibits a track), so the stronger promise does not hold.
- Img.Img.Dotted: a zero dash length in pixels makes the source's loop repeat one state forever after its first round that cuts at index 1. The model returns `Diverges` there (`Img.StallRepeats`).
- Img.Img.Dotted: when a run fails, the model returns only the failure. The strokes the source had already drawn on the canvas before raising are not returned.
- Img.Img.Dotted: arrays of length 1 are not broadcast against the limits; unequal lengths are always `ValueError`.
- Img.Img.RunTrace: a run widened to fewer than two points is `ValueError` (`np.column_stack` of empty slices feeding `apply_along_axis`). The model follows the source, which fails for such runs.
- Img.DataToImgI: the pixel maps require distinct limits. With equal limits the source divides by zero into infinities. `Img.Img.Dotted` and `Img.Img.Annotate` therefore require `Drawable()`, the distinct limits, of the page.
