# Viola-Jones face detector core, in Dafny

This project models the detection pipeline of a small Viola-Jones style face
detector written in Java, and proves properties of that model. The pipeline
has four parts:

- **Summed-area table** (`IntegralImageMJ`). An ARGB picture is converted to
  grey values by luminance. The table `ii` is then filled row by row with the
  recurrence `ii(x,y) = ii(x-1,y) + ii(x,y-1) + g(x,y) - ii(x-1,y-1)`.
  `meanValue` clamps a query rectangle at the right and bottom edges and
  averages it with four corner reads. `toIntARGB` renders the table as grey
  pixels.
- **Weak classifier** (`ClassifierMJ`). It has a bounding area, "plus"
  (light) and "minus" (dark) rectangles, and a weight. Its score at a scan
  position is `|P - M| / 255`. P and M are the plus and minus means,
  accumulated in Java `int`s.
- **Strong classifier** (`StrongClassifierMJ`). Its score is the weighted
  sum of its members' ungated scores. Its area is the union of theirs. Its
  weight is always 1.
- **Detection** (`FaceDetectionController`). A classifier is scanned over
  the picture into a correlation image. The local maxima of that image are
  then extracted into a white-on-black mask.

Modules follow that structure:

- `Numerics`: Java's `(int)` cast of a double, 32-bit wrap-around and
  `normalize`.
- `Pixels`: packed ARGB ints, channel extraction and luminance.
- `Grid`: row-major grids and region sums.
- `IntegralImages`: the summed-area table.
- `Rects`: `java.awt.Rectangle` union, the fit test and scaling.
- `Classifiers`: both classifiers as one datatype,
  `Weak(area, plus, minus, weight) | Strong(members)`.
- `Detection`: the scan and the maxima mask.

Java objects are modelled as immutable values. Each mutating call returns the
updated classifier, and the strong list constructor, which copies its list,
is the `Strong` constructor itself. Doubles are modelled as exact rationals
(`real`). Java's `(int)` cast of a double is modelled as truncation toward
zero that saturates at the bounds of `int` (`ToJavaInt`), both where the scan
writes a score and where `getScaledInstance` and `scaleRec` scale a
classifier. The int accumulator of `matchAt` uses plain truncation, since its
values stay small.

Three behaviours of `meanValue` are worth knowing:

- **Corners.** The query reads corners `(x, y)` and `(x+w', y+h')`, where
  `w'` and `h'` are the clamped extents. It therefore averages columns
  `x+1..x+w'` and rows `y+1..y+h'`: the row and column of the top-left
  corner are left out.
- **A worked case.** On the 4 x 4 picture whose rows are all 10, 20, 30, 40,
  `meanValue(0, 0, 2, 2)` averages columns 1..2 of rows 1..2, so it gives 25,
  not the 15 of the top-left 2 x 2 block (`IntegralImages.StripesExample`).
- **Clamping.** An extent that reaches the border is clamped to `W - x - 1`,
  one short of the border. On the same picture `meanValue(2, 0, 5, 2)`
  averages column 3 of rows 1..2 and gives 40
  (`IntegralImages.ClampedStripesExample`).

## Model

| member | source | states |
|---|---|---|
| IntegralImages.CalculateIntegralImage | src/de/htw/cv/ue03/IntegralImageMJ.java:85-115 | after the three seeding and filling loops, cell (x, y) of the table is the sum of the grey values over columns 0..x and rows 0..y |
| IntegralImages.FirstRow | src/de/htw/cv/ue03/IntegralImageMJ.java:86-95 | after the first loop every cell of row 0 holds the sum of the grey values of row 0 up to its column |
| IntegralImages.FirstColumn | src/de/htw/cv/ue03/IntegralImageMJ.java:97-101 | after the second loop every cell of column 0 holds the sum of the grey values of column 0 up to its row, and row 0 is kept |
| IntegralImages.InnerRow | src/de/htw/cv/ue03/IntegralImageMJ.java:105-113 | one pass of the inner loop makes every cell of row y a full prefix sum, given the rows above and column 0 |
| IntegralImages.NewIntegralImage | src/de/htw/cv/ue03/IntegralImageMJ.java:21-30 | the constructor's table keeps the given width and height and summarises the grayscale of the source picture |
| IntegralImages.Grayscale | src/de/htw/cv/ue03/IntegralImageMJ.java:123-136 | the grey array has the source's length; each entry lies in 0..255 and is the luminance of that pixel's red, green and blue channels |
| Pixels.ChannelsOfPack | src/de/htw/cv/ue03/IntegralImageMJ.java:127-130 | extracting red, green and blue from a packed opaque pixel gives back the channels it was packed from |
| Pixels.Luminance | src/de/htw/cv/ue03/IntegralImageMJ.java:132 | the luminance of three channels lies in 0..255, and a grey pixel (r = g = b) maps to its own level |
| Grid.PrefixStep | src/de/htw/cv/ue03/IntegralImageMJ.java:112 | the inclusive prefix sum satisfies the recurrence left + top + own value - top-left, with sums over empty ranges 0 at the borders |
| IntegralImages.TotalIsLastCell | src/de/htw/cv/ue03/IntegralImageMJ.java:85-115 | the last cell of a summarising table is the sum of all grey values |
| IntegralImages.TableMonotone | src/de/htw/cv/ue03/IntegralImageMJ.java:104-114 | for non-negative grey values the table never decreases along x or along y, and every cell lies between 0 and the last cell |
| IntegralImages.FirstRowAndColumn | src/de/htw/cv/ue03/IntegralImageMJ.java:89-101 | row 0 of the table is the running sum of grey row 0, and column 0 is the running sum of grey column 0 |
| Grid.InclusionExclusion | src/de/htw/cv/ue03/IntegralImageMJ.java:45 | the sum over any rectangle of cells is the four-corner combination of prefix sums |
| IntegralImages.ClampExtent | src/de/htw/cv/ue03/IntegralImageMJ.java:35-36 | a clamped extent is either unchanged or border - pos - 1, never exceeds the request, stays strictly inside the border, and is non-negative for a position inside the picture and a non-negative request |
| IntegralImages.QueryCorners | src/de/htw/cv/ue03/IntegralImageMJ.java:39-42 | the four positions are the flat indices of (x, y), (x+w', y), (x, y+h') and (x+w', y+h'), and all lie inside the table for a position in the picture and non-negative extents |
| IntegralImages.MeanValueIsRegionMean | src/de/htw/cv/ue03/IntegralImageMJ.java:33-48 | `meanValue` is the grey sum over columns x+1..x+w' and rows y+1..y+h' divided by w'h', and is never negative for non-negative grey values |
| IntegralImages.CornerSum | src/de/htw/cv/ue03/IntegralImageMJ.java:33-48 | the four-corner combination bottomRight - topRight - bottomLeft + topLeft equals the grey sum of the clamped rectangle that excludes the corner's own row and column |
| IntegralImages.MeanValueOfClamped | src/de/htw/cv/ue03/IntegralImageMJ.java:35-36 | clamping is idempotent: querying with the already clamped extents gives the same mean |
| IntegralImages.StripesExample | src/de/htw/cv/ue03/IntegralImageMJ.java:33-48 | on the striped 4 x 4 picture the last cell is 400 and `meanValue(0, 0, 2, 2)` is 25 |
| IntegralImages.QueryMean | src/de/htw/cv/ue03/IntegralImageMJ.java:33-48 | a query whose clamped region holds `count` cells with grey values summing to `count` times `mean` returns `mean` |
| IntegralImages.ClampedWidthMean | src/de/htw/cv/ue03/IntegralImageMJ.java:33-48 | a query whose width reaches the right border averages columns x+1 up to the last one, that is over W - x - 1 columns, and rows y+1..y+h |
| IntegralImages.ClampedStripesExample | src/de/htw/cv/ue03/IntegralImageMJ.java:33-48 | on the striped 4 x 4 picture the width 5 at x = 2 is clamped to 1, and `meanValue(2, 0, 5, 2)` is 40 |
| IntegralImages.ToIntARGB | src/de/htw/cv/ue03/IntegralImageMJ.java:51-52 | the destination keeps its length, and is returned untouched when its length differs from the table's |
| IntegralImages.ScaledGrey | src/de/htw/cv/ue03/IntegralImageMJ.java:53-58 | in exact arithmetic, `(int)(255.0 / maxVal * v)` is an int, lies in 0..255 for 0 <= v <= maxVal, is 255 at maxVal and 0 at 0, including the infinite-scale case maxVal = 0 |
| IntegralImages.ToIntARGBIsGrey | src/de/htw/cv/ue03/IntegralImageMJ.java:51-62 | in exact arithmetic, for a table of non-negative grey values every rendered pixel is opaque grey with a level in 0..255, and the last pixel is white when the total is positive |
| Numerics.Normalize | src/de/htw/cv/ue03/FaceDetectionController.java:426-428 | `(num - min) / (max - min)` is 0 at min and 1 at max, lies in 0..1 between them, and is positive exactly when num exceeds min |
| Rects.Add | src/de/htw/cv/ue03/classifier/ClassifierMJ.java:52 | the union of two rectangles with extents contains both; an argument with a negative dimension leaves a receiver with extents unchanged; a receiver with a negative dimension grown by an argument with extents moves to the argument's origin, contains it, and each dimension is the larger of the old one and the argument's; when both lack an extent the result is the argument |
| Rects.AddToNegativeReceiver | src/de/htw/cv/ue03/classifier/ClassifierMJ.java:52 | (0, 0, -1, 10) grown by (0, 0, 2, 3) is (0, 0, 2, 10): the receiver's old height survives its reshaping |
| Rects.UnionAllBounds | src/de/htw/cv/ue03/classifier/StrongClassifierMJ.java:82-88 | growing a start rectangle by a list contains the start and every listed rectangle with an extent, and is contained in any rectangle that contains them |
| Rects.ScaledStillFits | src/de/htw/cv/ue03/classifier/ClassifierMJ.java:62-91 | for a non-negative scale, a non-negative rectangle that fits W x H still fits (int)(W s) x (int)(H s) after scaling when those two casts do not saturate; once one saturates, it fits on that axis exactly when its scaled far edge stays within `Integer.MAX_VALUE` |
| Rects.SaturatedScaleMayNotFit | src/de/htw/cv/ue03/classifier/ClassifierMJ.java:84-91 | scaled by 2^31, the rectangle (1, 0, 1, 1), which fits 2 x 1, saturates to (MAX, 0, MAX, MAX) and no longer fits the saturated MAX x MAX area |
| Rects.NegativeOriginMayNotFit | src/de/htw/cv/ue03/classifier/ClassifierMJ.java:123-127 | the fit test ignores the origin, so a rectangle at x = -1 that fits can stop fitting after scaling |
| Classifiers.AddPlus | src/de/htw/cv/ue03/classifier/ClassifierMJ.java:98-102 | the plus list grows by exactly the new rectangle, at its end, iff the rectangle's right and bottom edges lie within the area's width and height; the area, minus list and weight never change |
| Classifiers.AddMinus | src/de/htw/cv/ue03/classifier/ClassifierMJ.java:109-113 | the same acceptance rule, for the minus list only |
| Classifiers.AddPlusAll | src/de/htw/cv/ue03/classifier/ClassifierMJ.java:67-69 | adding a list of plus patterns appends exactly those that fit, in order |
| Classifiers.AddMinusAll | src/de/htw/cv/ue03/classifier/ClassifierMJ.java:70-72 | adding a list of minus patterns appends exactly those that fit, in order |
| Classifiers.BoxKeepsFitting | src/de/htw/cv/ue03/classifier/ClassifierMJ.java:32-36 | a box classifier has area (0, 0, W, H) and keeps exactly the patterns later added that fit it |
| Classifiers.GrownAreaFits | src/de/htw/cv/ue03/classifier/ClassifierMJ.java:51-54 | once an area reaching the origin has been grown by a rectangle with an extent, the rectangle passes the fit test and the area still reaches the origin |
| Classifiers.FromPatternsKeepsAll | src/de/htw/cv/ue03/classifier/ClassifierMJ.java:45-59 | the list constructor's area is the union of (0, 0, 0, 0) with all patterns and contains each one with an extent; when every pattern has an extent, both lists are kept exactly, in order |
| Classifiers.ScaledWeak | src/de/htw/cv/ue03/classifier/ClassifierMJ.java:62-75 | a scaled weak classifier has area (0, 0, (int)(W s), (int)(H s)), with the saturating cast, and the same weight, and keeps the scaled patterns that fit that area |
| Classifiers.ScaledKeepsPatterns | src/de/htw/cv/ue03/classifier/ClassifierMJ.java:62-91 | for s >= 0 such that (int)(W s) and (int)(H s) do not saturate, a weak classifier whose non-negative patterns all fit its area keeps every scaled pattern, in order |
| Classifiers.SaturatedScaleDropsPattern | src/de/htw/cv/ue03/classifier/ClassifierMJ.java:62-75 | scaled by 2^31, the classifier with area (0, 0, 2, 1) and the fitting plus pattern (1, 0, 1, 1) gets area (0, 0, MAX, MAX) and loses the pattern |
| Classifiers.ScaledStrong | src/de/htw/cv/ue03/classifier/StrongClassifierMJ.java:47-56 | scaling a strong classifier keeps the member count and order, member i becomes member i scaled, and every classifier's weight is unchanged by scaling |
| Classifiers.WeightAfterSet | src/de/htw/cv/ue03/classifier/StrongClassifierMJ.java:91-98 | a weak classifier reports the weight last set and keeps its patterns; a strong one always reports 1 and is unchanged by `setWeight` |
| Classifiers.StrongAreaBounds | src/de/htw/cv/ue03/classifier/StrongClassifierMJ.java:80-89 | a strong classifier's area reaches the origin, contains every member area with an extent, and is the least rectangle that does |
| Classifiers.AccumulateIsSumOfFloors | src/de/htw/cv/ue03/classifier/ClassifierMJ.java:132-141 | on non-negative grey values the int accumulator of means equals the sum of the floors of the means and is non-negative |
| Classifiers.WeakMatchValue | src/de/htw/cv/ue03/classifier/ClassifierMJ.java:129-146 | the weak score is abs(P - M) / 255 with P and M the summed floored plus and minus means at (r.x + posX, r.y + posY), and is never negative |
| Classifiers.MatchAbove | src/de/htw/cv/ue03/classifier/ClassifierMJ.java:148-152 | the gated score is the ungated score when that is strictly above the threshold and 0 otherwise |
| Classifiers.WeakGatedBounds | src/de/htw/cv/ue03/classifier/ClassifierMJ.java:148-152 | a weak classifier's gated score lies between 0 and its ungated score |
| Classifiers.AddWeakClassifier | src/de/htw/cv/ue03/classifier/StrongClassifierMJ.java:43-45 | the member list grows by one, keeps its old members as a prefix, and ends with the new member |
| Classifiers.AddWeakClassifierArea | src/de/htw/cv/ue03/classifier/StrongClassifierMJ.java:80-89 | appending a member grows the strong area by exactly the member's area |
| Classifiers.AddWeakClassifierMatch | src/de/htw/cv/ue03/classifier/StrongClassifierMJ.java:58-67 | appending a member adds its ungated score times its weight to the strong score |
| Classifiers.WeightedSumSnoc | src/de/htw/cv/ue03/classifier/StrongClassifierMJ.java:58-67 | the running sum over the members grows by exactly the last member's score times its weight |
| Classifiers.EmptyStrong | src/de/htw/cv/ue03/classifier/StrongClassifierMJ.java:25-27 | an empty strong classifier scores 0, gated or not, and has area (0, 0, 0, 0) |
| Classifiers.PairScore | src/de/htw/cv/ue03/classifier/StrongClassifierMJ.java:58-67 | a two-member strong classifier scores the sum of the members' weighted ungated scores |
| Classifiers.StrongGatesOnlyTheTotal | src/de/htw/cv/ue03/classifier/StrongClassifierMJ.java:69-78 | members whose own gated scores would be 0 still count, so the strong gated score is their sum once it passes the threshold |
| Detection.IsInImage | src/de/htw/cv/ue03/FaceDetectionController.java:375-380 | a position is in the image iff 0 <= x < width and 0 <= y < height |
| Detection.MinRed | src/de/htw/cv/ue03/FaceDetectionController.java:387-398 | the result is at most 255, at most every cell's red channel, and either 255 or some cell's red channel |
| Detection.CorrelationMin | src/de/htw/cv/ue03/FaceDetectionController.java:387-398 | the loop returns the least red channel: a channel value no larger than any cell's red channel, attained by some cell when the picture is not empty |
| Detection.MaxRed | src/de/htw/cv/ue03/FaceDetectionController.java:405-416 | the result is at least 0, at least every cell's red channel, and either 0 or some cell's red channel |
| Detection.CorrelationMax | src/de/htw/cv/ue03/FaceDetectionController.java:405-416 | the loop returns the greatest red channel, attained by some cell when the picture is not empty |
| Detection.BiggerThanNeighbours | src/de/htw/cv/ue03/FaceDetectionController.java:348-365 | true iff no in-image cell within Chebyshev distance 2 holds a strictly greater packed int; ties do not suppress |
| Detection.CorrelationMaximas | src/de/htw/cv/ue03/FaceDetectionController.java:315-337 | when the least and greatest red channel agree the destination is unchanged; otherwise every cell is white iff its normalised red channel exceeds the threshold and it is a local maximum, and black otherwise |
| Detection.WhiteCellsAreMaxima | src/de/htw/cv/ue03/FaceDetectionController.java:322-336 | for a non-negative threshold a white cell is a local maximum whose red channel lies strictly above the least one |
| Detection.ScanCorrelation | src/de/htw/cv/ue03/FaceDetectionController.java:265-276 | the scan writes the classifier's grey pixel exactly at the positions with 5y < 5H - 4 ah and 5x < 5W - 4 aw, and every other cell keeps its value |
| Detection.ScannedInImage | src/de/htw/cv/ue03/FaceDetectionController.java:265-267 | for an area with extents, every scanned position lies inside the image |
| Detection.ScoreIsGrey | src/de/htw/cv/ue03/FaceDetectionController.java:273-274 | a score in 0..1 is written as the opaque grey pixel whose three channels are `(int)(score * 255)` |
| Detection.WeakScanValueIsGrey | src/de/htw/cv/ue03/FaceDetectionController.java:270-274 | for a weak classifier whose score is at most 1, the red channel of the written pixel is its gated score times 255, truncated |
| Pixels.GreyPixelChannels | src/de/htw/cv/ue03/FaceDetectionController.java:274 | for a level in 0..255 the written int is the pixel with alpha 0xFF and that level in all three channels, which as a signed int is level * 0x10101 - 2^24; its luminance is the level again |

## Left out

- The JavaFX launcher and UI are not modelled: `CV_Ue03_Mandrela_Jaehrling.java`, and `initialize`, `loadImage`, `runMethod` and the pixel and image conversions of the controller. They are user interface and image I/O.
- Drawing is not modelled: both `drawAt` methods, the `Graphics2D` copy and draw loop of the controller, with its "stop after the first maximum" exit, and the `System.out.println` for white cells. They produce no value the pipeline uses.
- The `ImagePatternClassifier`, `IntegralImage` and `TestImage` interfaces and the concrete classifier subclasses are not part of this model. `TestImage.getIntegralImage()` is replaced by passing the integral image itself.
- IEEE doubles are replaced by exact rationals: the luminance weights, `normalize`, `255.0 / maxVal`, the scale factor and the 0.8 scan margin. Rounding differences at exact boundaries are not modelled.
- IntegralImages.ScaledGrey: states its bounds in exact arithmetic. In IEEE doubles `255.0 / maxVal * maxVal` can fall just short of 255, so the cast gives 254: for maxVal = 25, `(int)(255.0 / 25 * 25) == 254`. `IntegralImages.ToIntARGBIsGrey` inherits this, so the last pixel is not always white.
- Pixels.Luminance: uses the exact weights 299/1000, 587/1000 and 114/1000. The double computation may differ from it by one level where the exact value is an integer.
- Java int overflow of sums is not modelled; table cells and accumulated means are unbounded integers. The 32-bit wrap is modelled only where pixels are packed.
- IntegralImages.MeanValue: requires the position inside the picture and both clamped extents positive. For a position outside the picture the Java code either wraps into a neighbouring row and averages the wrong cells, with no exception (on a 4 x 4 table `meanValue(-1, 1, 1, 1)` reads cells 3, 4, 7 and 8), or reads out of bounds. A zero clamped extent makes it compute 0/0 (NaN, then `(int)NaN == 0` in the accumulator), and a negative one divides a sum over wrongly placed corners. None of these paths is modelled.
- Detection.ScanCorrelation: requires every scanned position to keep all queries defined. The 0.8 overhang of the scan does not guarantee this near the right and bottom borders, where the Java code can reach a zero or negative clamped extent, or a corner wrapped into the next row, as described above.
- Rects.ScaledStillFits: promises the fit only while the scaled area does not saturate, because past `Integer.MAX_VALUE` the saturating cast can push a scaled rectangle out (`Rects.SaturatedScaleMayNotFit`).
- Classifiers.ScaledKeepsPatterns: promises that every pattern is kept only while the scaled width and height do not saturate; a saturating scale can drop a pattern (`Classifiers.SaturatedScaleDropsPattern`).
- Rects.Add: follows the JDK's `Rectangle.add` code, except that the JDK clamps a resulting width or height above `Integer.MAX_VALUE` to that value; the model keeps the exact difference, so a union of far-apart or saturated rectangles can be wider here than in Java.
- The disabled `assert` of the `IntegralImageMJ` constructor is a precondition (`width > 0`, `height > 0`), together with `|src| == width * height`.
- Aliasing is not modelled. The Java strong classifier holds references to its members, so a later `setWeight` on a member would change the strong score. Here members are values.
- `toString`, `getWidth` and `getHeight` are not modelled; they only return or format fields.
