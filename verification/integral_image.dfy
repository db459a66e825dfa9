/**
 The summed-area table of `IntegralImageMJ`: built from the grey values of a
 packed ARGB image, queried for the mean grey value of a rectangle by
 four-corner inclusion-exclusion, and rendered as a grey image.
 */
module IntegralImages {
  import opened Numerics
  import opened Pixels
  import opened Grid

  /** Fields of `IntegralImageMJ`: the flat table `ii` and its dimensions. */
  datatype IntegralImage = IntegralImage(width: int, height: int, ii: seq<int>)

  predicate Valid(img: IntegralImage) {
    img.width > 0 && img.height > 0 && Shaped(img.ii, img.width, img.height)
  }

  /** `img` is the summed-area table of the grey image `gray`: each cell
      (x, y) holds the sum of the grey values of all cells (i, j) with
      i <= x and j <= y. */
  ghost predicate Summarizes(img: IntegralImage, gray: seq<int>) {
    && Valid(img)
    && Shaped(gray, img.width, img.height)
    && forall x, y :: InGrid(img.width, img.height, x, y) ==>
         At(img.ii, img.width, img.height, x, y) == InclusivePrefix(gray, img.width, img.height, x, y)
  }

  /** `createGrayscaleArray`: the luminance of every packed pixel. */
  function Grayscale(src: seq<int>): (gray: seq<int>)
    ensures |gray| == |src|
    ensures NonNegative(gray)
    ensures forall i :: 0 <= i < |src| ==> IsChannel(gray[i])
    ensures forall i :: 0 <= i < |src| ==>
      gray[i] == Luminance(Red(src[i]), Green(src[i]), Blue(src[i]))
  {
    seq(|src|, i requires 0 <= i < |src| => GrayOf(src[i]))
  }

  /** `calculateIntegralImage`: fills row 0 and column 0 with running sums,
      then every other cell, row by row, by the recurrence
      ii(x, y) = ii(x-1, y) + ii(x, y-1) + gray(x, y) - ii(x-1, y-1). */
  method CalculateIntegralImage(gray: seq<int>, width: int, height: int) returns (ii: seq<int>)
    requires width > 0 && height > 0 && Shaped(gray, width, height)
    ensures Shaped(ii, width, height)
    ensures forall x, y :: InGrid(width, height, x, y) ==>
      At(ii, width, height, x, y) == InclusivePrefix(gray, width, height, x, y)
  {
    ii := FirstRow(gray, width, height);
    ii := FirstColumn(gray, width, height, ii);
    var y := 1;
    while y < height
      invariant 1 <= y <= height && Shaped(ii, width, height)
      invariant forall i, j :: InGrid(width, height, i, j) && (j < y || i == 0) ==>
        At(ii, width, height, i, j) == InclusivePrefix(gray, width, height, i, j)
    {
      ii := InnerRow(gray, width, height, ii, y);
      y := y + 1;
    }
  }

  /** The first phase of `calculateIntegralImage`: cell (0, 0) and then
      ii(x, 0) = ii(x-1, 0) + gray(x, 0) along the first row. */
  method FirstRow(gray: seq<int>, width: int, height: int) returns (ii: seq<int>)
    requires width > 0 && height > 0 && Shaped(gray, width, height)
    ensures Shaped(ii, width, height)
    ensures forall i, j :: InGrid(width, height, i, j) && j == 0 ==>
      At(ii, width, height, i, j) == InclusivePrefix(gray, width, height, i, j)
  {
    ii := seq(width * height, _ => 0);
    IndexInRange(width, height, 0, 0);
    PrefixStep(gray, width, height, 0, 0);
    EmptyRegion(gray, width, height, 0, 0, 1);
    assert Index(width, 0, 0) == 0;
    UpdateCell(ii, width, height, 0, 0, gray[0]);
    ii := ii[0 := gray[0]];

    var x := 1;
    while x < width
      invariant 1 <= x <= width && Shaped(ii, width, height)
      invariant forall i, j :: InGrid(width, height, i, j) && j == 0 && i < x ==>
        At(ii, width, height, i, j) == InclusivePrefix(gray, width, height, i, j)
    {
      NeighbourIndices(width, x, 0);
      IndexInRange(width, height, x, 0);
      PrefixStep(gray, width, height, x, 0);
      assert Index(width, x, 0) == x && Index(width, x - 1, 0) == x - 1;
      assert ii[x - 1] == At(ii, width, height, x - 1, 0);
      assert gray[x] == At(gray, width, height, x, 0);
      UpdateCell(ii, width, height, x, 0, ii[x - 1] + gray[x]);
      ii := ii[x := ii[x - 1] + gray[x]];
      x := x + 1;
    }
  }

  /** The second phase: ii(0, y) = ii(0, y-1) + gray(0, y) down the first
      column, keeping the first row. */
  method FirstColumn(gray: seq<int>, width: int, height: int, ii0: seq<int>) returns (ii: seq<int>)
    requires width > 0 && height > 0 && Shaped(gray, width, height) && Shaped(ii0, width, height)
    requires forall i, j :: InGrid(width, height, i, j) && j == 0 ==>
      At(ii0, width, height, i, j) == InclusivePrefix(gray, width, height, i, j)
    ensures Shaped(ii, width, height)
    ensures forall i, j :: InGrid(width, height, i, j) && (j == 0 || i == 0) ==>
      At(ii, width, height, i, j) == InclusivePrefix(gray, width, height, i, j)
  {
    ii := ii0;
    var y := 1;
    while y < height
      invariant 1 <= y <= height && Shaped(ii, width, height)
      invariant forall i, j :: InGrid(width, height, i, j) && (j == 0 || (i == 0 && j < y)) ==>
        At(ii, width, height, i, j) == InclusivePrefix(gray, width, height, i, j)
    {
      var pos := y * width;
      NeighbourIndices(width, 0, y);
      IndexInRange(width, height, 0, y);
      PrefixStep(gray, width, height, 0, y);
      EmptyRegion(gray, width, height, 0, 0, y);
      EmptyRegion(gray, width, height, 0, 0, y + 1);
      assert pos == Index(width, 0, y) && pos - width == Index(width, 0, y - 1);
      assert ii[pos - width] == At(ii, width, height, 0, y - 1);
      assert gray[pos] == At(gray, width, height, 0, y);
      UpdateCell(ii, width, height, 0, y, ii[pos - width] + gray[pos]);
      ii := ii[pos := ii[pos - width] + gray[pos]];
      y := y + 1;
    }
  }

  /** The third phase, for one row y >= 1: every cell but the first by
      ii(x, y) = ii(x-1, y) + ii(x, y-1) + gray(x, y) - ii(x-1, y-1). */
  method InnerRow(gray: seq<int>, width: int, height: int, ii0: seq<int>, y: int) returns (ii: seq<int>)
    requires width > 0 && 1 <= y < height && Shaped(gray, width, height) && Shaped(ii0, width, height)
    requires forall i, j :: InGrid(width, height, i, j) && (j < y || i == 0) ==>
      At(ii0, width, height, i, j) == InclusivePrefix(gray, width, height, i, j)
    ensures Shaped(ii, width, height)
    ensures forall i, j :: InGrid(width, height, i, j) && (j <= y || i == 0) ==>
      At(ii, width, height, i, j) == InclusivePrefix(gray, width, height, i, j)
  {
    ii := ii0;
    var x := 1;
    while x < width
      invariant 1 <= x <= width && Shaped(ii, width, height)
      invariant forall i, j :: InGrid(width, height, i, j) && (j < y || i == 0 || (j == y && i < x)) ==>
        At(ii, width, height, i, j) == InclusivePrefix(gray, width, height, i, j)
    {
      var pos := y * width + x;
      var leftPos := pos - 1;
      var topPos := pos - width;
      var topLeftPos := topPos - 1;
      NeighbourIndices(width, x, y);
      NeighbourIndices(width, x, y - 1);
      IndexInRange(width, height, x, y);
      IndexInRange(width, height, x - 1, y - 1);
      PrefixStep(gray, width, height, x, y);
      var v := ii[leftPos] + ii[topPos] + gray[pos] - ii[topLeftPos];
      assert v == At(ii, width, height, x - 1, y) + At(ii, width, height, x, y - 1)
                + At(gray, width, height, x, y) - At(ii, width, height, x - 1, y - 1);
      UpdateCell(ii, width, height, x, y, v);
      ii := ii[pos := v];
      x := x + 1;
    }
  }

  /** The constructor `IntegralImageMJ(srcARGBPixel, width, height)`. */
  method NewIntegralImage(src: seq<int>, width: int, height: int) returns (img: IntegralImage)
    requires width > 0 && height > 0 && |src| == width * height
    ensures img.width == width && img.height == height
    ensures Summarizes(img, Grayscale(src))
  {
    var gray := Grayscale(src);
    var ii := CalculateIntegralImage(gray, width, height);
    img := IntegralImage(width, height, ii);
  }

  /** The last cell of the table is the sum of every grey value. */
  lemma TotalIsLastCell(img: IntegralImage, gray: seq<int>)
    requires Summarizes(img, gray)
    ensures img.ii[|img.ii| - 1] == SeqSum(gray)
  {
    var w, h := img.width, img.height;
    IndexInRange(w, h, w - 1, h - 1);
    assert Index(w, w - 1, h - 1) == |img.ii| - 1 by {
      assert (h - 1) * w + w == h * w;
    }
    assert img.ii[|img.ii| - 1] == At(img.ii, w, h, w - 1, h - 1);
    WholeGrid(gray, w, h);
  }

  /** With non-negative grey values the table never decreases along a row or
      down a column. */
  lemma TableMonotone(img: IntegralImage, gray: seq<int>)
    requires Summarizes(img, gray) && NonNegative(gray)
    ensures forall x, y :: InGrid(img.width, img.height, x, y) && x + 1 < img.width ==>
      At(img.ii, img.width, img.height, x, y) <= At(img.ii, img.width, img.height, x + 1, y)
    ensures forall x, y :: InGrid(img.width, img.height, x, y) && y + 1 < img.height ==>
      At(img.ii, img.width, img.height, x, y) <= At(img.ii, img.width, img.height, x, y + 1)
    ensures forall x, y :: InGrid(img.width, img.height, x, y) ==>
      0 <= At(img.ii, img.width, img.height, x, y) <= img.ii[|img.ii| - 1]
  {
    var w, h := img.width, img.height;
    forall x, y | InGrid(w, h, x, y)
      ensures x + 1 < w ==> At(img.ii, w, h, x, y) <= At(img.ii, w, h, x + 1, y)
      ensures y + 1 < h ==> At(img.ii, w, h, x, y) <= At(img.ii, w, h, x, y + 1)
      ensures 0 <= At(img.ii, w, h, x, y) <= At(img.ii, w, h, w - 1, h - 1)
    {
      if x + 1 < w {
        PrefixMonotone(gray, w, h, x + 1, y + 1, x + 2, y + 1);
      }
      if y + 1 < h {
        PrefixMonotone(gray, w, h, x + 1, y + 1, x + 1, y + 2);
      }
      PrefixMonotone(gray, w, h, x + 1, y + 1, w, h);
      RegionNonNegative(gray, w, h, 0, x + 1, 0, y + 1);
    }
    IndexInRange(w, h, w - 1, h - 1);
    assert Index(w, w - 1, h - 1) == |img.ii| - 1 by {
      assert (h - 1) * w + w == h * w;
    }
  }

  /** The grey values of column x, rows 0..n-1. */
  function Column(gray: seq<int>, w: int, h: int, x: int, n: int): (c: seq<int>)
    requires Shaped(gray, w, h) && 0 <= x < w && 0 <= n <= h
    ensures |c| == n
  {
    seq(n, j requires 0 <= j < n => At(gray, w, h, x, j))
  }

  lemma {:induction false} FirstColumnSums(gray: seq<int>, w: int, h: int, n: int)
    requires Shaped(gray, w, h) && 0 < w && 0 <= n <= h
    ensures Prefix(gray, w, h, 1, n) == SeqSum(Column(gray, w, h, 0, n))
    decreases n
  {
    if n > 0 {
      FirstColumnSums(gray, w, h, n - 1);
      assert Column(gray, w, h, 0, n)[..n - 1] == Column(gray, w, h, 0, n - 1);
    }
  }

  /** Row 0 of the table holds the running sums of grey row 0, and column 0
      the running sums of grey column 0. */
  lemma FirstRowAndColumn(img: IntegralImage, gray: seq<int>)
    requires Summarizes(img, gray)
    ensures forall x :: 0 <= x < img.width ==>
      img.ii[x] == SeqSum(gray[..x + 1])
    ensures forall y :: 0 <= y < img.height ==>
      At(img.ii, img.width, img.height, 0, y) == SeqSum(Column(gray, img.width, img.height, 0, y + 1))
  {
    var w, h := img.width, img.height;
    forall x | 0 <= x < w
      ensures img.ii[x] == SeqSum(gray[..x + 1])
    {
      assert Index(w, x, 0) == x;
      assert img.ii[x] == At(img.ii, w, h, x, 0);
      RowSumIsSlice(gray, w, h, 0, x + 1);
      assert RegionSum(gray, w, h, 0, x + 1, 0, 0) == 0;
      assert RegionSum(gray, w, h, 0, x + 1, 0, 1) == RowSum(gray, w, h, 0, 0, x + 1);
      assert gray[Index(w, 0, 0)..Index(w, 0, 0) + x + 1] == gray[..x + 1];
    }
    forall y | 0 <= y < h
      ensures At(img.ii, w, h, 0, y) == SeqSum(Column(gray, w, h, 0, y + 1))
    {
      FirstColumnSums(gray, w, h, y + 1);
    }
  }

  /** `meanValue`'s clamp: an extent that would reach the last column (row)
      or beyond is cut to stop one short of it. */
  function ClampExtent(pos: int, extent: int, limit: int): (e: int)
    ensures e <= extent && pos + e < limit
    ensures e == extent || e == limit - pos - 1
    ensures 0 <= pos < limit && 0 <= extent ==> 0 <= e
  {
    if pos + extent >= limit then limit - pos - 1 else extent
  }

  /** The four flat positions `meanValue` reads. */
  datatype Corners = Corners(topLeft: int, topRight: int, bottomLeft: int, bottomRight: int)

  /** The clamped extents and the four corner positions of a query. */
  function QueryCorners(img: IntegralImage, x: int, y: int, areaWidth: int, areaHeight: int): (c: Corners)
    ensures var cw, ch := ClampExtent(x, areaWidth, img.width), ClampExtent(y, areaHeight, img.height);
      && c.topLeft == Index(img.width, x, y)
      && c.topRight == Index(img.width, x + cw, y)
      && c.bottomLeft == Index(img.width, x, y + ch)
      && c.bottomRight == Index(img.width, x + cw, y + ch)
    ensures Valid(img) && InGrid(img.width, img.height, x, y) && 0 <= areaWidth && 0 <= areaHeight ==>
      && 0 <= c.topLeft < |img.ii| && 0 <= c.topRight < |img.ii|
      && 0 <= c.bottomLeft < |img.ii| && 0 <= c.bottomRight < |img.ii|
  {
    var cw := ClampExtent(x, areaWidth, img.width);
    var ch := ClampExtent(y, areaHeight, img.height);
    var topLeft := y * img.width + x;
    var topRight := topLeft + cw;
    var bottomLeft := (y + ch) * img.width + x;
    var bottomRight := bottomLeft + cw;
    if Valid(img) && InGrid(img.width, img.height, x, y) && 0 <= areaWidth && 0 <= areaHeight then
      IndexInRange(img.width, img.height, x, y);
      IndexInRange(img.width, img.height, x + cw, y);
      IndexInRange(img.width, img.height, x, y + ch);
      IndexInRange(img.width, img.height, x + cw, y + ch);
      Corners(topLeft, topRight, bottomLeft, bottomRight)
    else
      Corners(topLeft, topRight, bottomLeft, bottomRight)
  }

  /** What a `meanValue` query needs to be defined: an anchor inside the
      image and a non-empty region after clamping (otherwise the Java code
      divides 0 by 0). */
  predicate QueryDefined(img: IntegralImage, x: int, y: int, areaWidth: int, areaHeight: int) {
    && Valid(img)
    && InGrid(img.width, img.height, x, y)
    && ClampExtent(x, areaWidth, img.width) > 0
    && ClampExtent(y, areaHeight, img.height) > 0
  }

  /** `meanValue`: the four-corner sum divided by the clamped pixel count. */
  function MeanValue(img: IntegralImage, x: int, y: int, areaWidth: int, areaHeight: int): real
    requires QueryDefined(img, x, y, areaWidth, areaHeight)
  {
    var cw := ClampExtent(x, areaWidth, img.width);
    var ch := ClampExtent(y, areaHeight, img.height);
    var c := QueryCorners(img, x, y, areaWidth, areaHeight);
    var sum := img.ii[c.bottomRight] - img.ii[c.topRight] - img.ii[c.bottomLeft] + img.ii[c.topLeft];
    sum as real / (cw * ch) as real
  }

  /** `meanValue(x, y, w, h)` is the mean grey value over columns
      x+1..x+w' and rows y+1..y+h', where w' and h' are the clamped
      extents: the cell (x, y) itself lies outside the region. */
  lemma {:induction false} MeanValueIsRegionMean(img: IntegralImage, gray: seq<int>, x: int, y: int, areaWidth: int, areaHeight: int)
    requires Summarizes(img, gray)
    requires QueryDefined(img, x, y, areaWidth, areaHeight)
    ensures var cw, ch := ClampExtent(x, areaWidth, img.width), ClampExtent(y, areaHeight, img.height);
      MeanValue(img, x, y, areaWidth, areaHeight)
        == RegionSum(gray, img.width, img.height, x + 1, x + cw + 1, y + 1, y + ch + 1) as real / (cw * ch) as real
    ensures NonNegative(gray) ==> 0.0 <= MeanValue(img, x, y, areaWidth, areaHeight)
  {
    var w, h := img.width, img.height;
    var cw, ch := ClampExtent(x, areaWidth, w), ClampExtent(y, areaHeight, h);
    CornerSum(img, gray, x, y, areaWidth, areaHeight);
    var sum := RegionSum(gray, w, h, x + 1, x + cw + 1, y + 1, y + ch + 1);
    assert MeanValue(img, x, y, areaWidth, areaHeight) == sum as real / (cw * ch) as real;
    if NonNegative(gray) {
      RegionNonNegative(gray, w, h, x + 1, x + cw + 1, y + 1, y + ch + 1);
      assert 0 < cw * ch;
      QuotientFacts(sum as real, (cw * ch) as real);
    }
  }

  /** The four-corner combination of `meanValue` is the sum of the grey
      values strictly right of and below the top-left corner, up to and
      including the bottom-right corner. */
  lemma CornerSum(img: IntegralImage, gray: seq<int>, x: int, y: int, areaWidth: int, areaHeight: int)
    requires Summarizes(img, gray)
    requires QueryDefined(img, x, y, areaWidth, areaHeight)
    ensures var cw, ch := ClampExtent(x, areaWidth, img.width), ClampExtent(y, areaHeight, img.height);
      var c := QueryCorners(img, x, y, areaWidth, areaHeight);
      img.ii[c.bottomRight] - img.ii[c.topRight] - img.ii[c.bottomLeft] + img.ii[c.topLeft]
        == RegionSum(gray, img.width, img.height, x + 1, x + cw + 1, y + 1, y + ch + 1)
  {
    var w, h := img.width, img.height;
    var cw, ch := ClampExtent(x, areaWidth, w), ClampExtent(y, areaHeight, h);
    var c := QueryCorners(img, x, y, areaWidth, areaHeight);
    assert img.ii[c.topLeft] == At(img.ii, w, h, x, y);
    assert img.ii[c.topRight] == At(img.ii, w, h, x + cw, y);
    assert img.ii[c.bottomLeft] == At(img.ii, w, h, x, y + ch);
    assert img.ii[c.bottomRight] == At(img.ii, w, h, x + cw, y + ch);
    InclusionExclusion(gray, w, h, x + 1, x + cw + 1, y + 1, y + ch + 1);
  }

  /** A query whose width reaches the right border averages the columns
      from x + 1 up to the last one, over W - x - 1 columns. */
  lemma {:induction false} ClampedWidthMean(img: IntegralImage, gray: seq<int>, x: int, y: int, areaWidth: int, areaHeight: int)
    requires Summarizes(img, gray) && QueryDefined(img, x, y, areaWidth, areaHeight)
    requires x + areaWidth >= img.width && y + areaHeight < img.height
    ensures 0 < img.width - x - 1 && 0 < areaHeight
    ensures 0 < (img.width - x - 1) * areaHeight
    ensures MeanValue(img, x, y, areaWidth, areaHeight)
      == RegionSum(gray, img.width, img.height, x + 1, img.width, y + 1, y + areaHeight + 1) as real
         / ((img.width - x - 1) * areaHeight) as real
  {
    MeanValueIsRegionMean(img, gray, x, y, areaWidth, areaHeight);
  }

  /** Clamping is idempotent: querying the already-clamped extents gives the
      same mean. */
  lemma MeanValueOfClamped(img: IntegralImage, x: int, y: int, areaWidth: int, areaHeight: int)
    requires QueryDefined(img, x, y, areaWidth, areaHeight)
    ensures var cw, ch := ClampExtent(x, areaWidth, img.width), ClampExtent(y, areaHeight, img.height);
      && QueryDefined(img, x, y, cw, ch)
      && MeanValue(img, x, y, cw, ch) == MeanValue(img, x, y, areaWidth, areaHeight)
  {
  }

  /** `toIntARGB`'s grey value for one table cell: `(int)(255.0 / maxVal * v)`.
      A zero `maxVal` makes the scale infinite: the product is then NaN for
      `v == 0` (cast to 0) and an infinity otherwise (cast to the int bound). */
  function ScaledGrey(v: int, maxVal: int): (g: int)
    ensures IsJavaInt(g)
    ensures 0 < maxVal && 0 <= v <= maxVal ==> IsChannel(g)
    ensures 0 < maxVal && v == maxVal ==> g == 255
    ensures v == 0 ==> g == 0
  {
    if maxVal == 0 then
      (if v > 0 then IntMax else if v < 0 then IntMin else 0)
    else
      var scaled := (255.0 / maxVal as real) * v as real;
      ScaleBounds(v, maxVal);
      ToJavaInt(scaled)
  }

  lemma ScaleBounds(v: int, maxVal: int)
    requires maxVal != 0
    ensures 0 < maxVal && 0 <= v <= maxVal ==> 0.0 <= (255.0 / maxVal as real) * v as real <= 255.0
    ensures v == maxVal ==> (255.0 / maxVal as real) * v as real == 255.0
  {
    var m := maxVal as real;
    var k := 255.0 / m;
    assert k * m == 255.0;
    if 0 < maxVal && 0 <= v <= maxVal {
      assert 0.0 <= k;
      assert k * v as real <= k * m;
    }
  }

  /** `toIntARGB`: renders the table as opaque grey pixels scaled by the last
      cell; a destination of the wrong length is returned untouched. */
  function ToIntARGB(img: IntegralImage, dst: seq<int>): (r: seq<int>)
    requires |img.ii| > 0
    ensures |r| == |dst|
    ensures |dst| != |img.ii| ==> r == dst
  {
    if |dst| == |img.ii| then
      var maxVal := img.ii[|img.ii| - 1];
      seq(|img.ii|, pos requires 0 <= pos < |img.ii| => GreyPixel(ScaledGrey(img.ii[pos], maxVal)))
    else
      dst
  }

  /** For a table of non-negative grey values every rendered pixel is opaque
      grey with its level in 0..255, and a cell holding the full sum renders
      white. */
  lemma ToIntARGBIsGrey(img: IntegralImage, gray: seq<int>, dst: seq<int>)
    requires Summarizes(img, gray) && NonNegative(gray) && |dst| == |img.ii|
    ensures forall pos :: 0 <= pos < |dst| ==>
      var g := ScaledGrey(img.ii[pos], img.ii[|img.ii| - 1]);
      && IsChannel(g)
      && ToIntARGB(img, dst)[pos] == Pack(0xFF, g, g, g)
    ensures 0 < img.ii[|img.ii| - 1] ==> ToIntARGB(img, dst)[|dst| - 1] == White
  {
    TableMonotone(img, gray);
    forall pos | 0 <= pos < |dst|
      ensures var g := ScaledGrey(img.ii[pos], img.ii[|img.ii| - 1]);
        IsChannel(g) && ToIntARGB(img, dst)[pos] == Pack(0xFF, g, g, g)
    {
      RenderedCell(img, gray, dst, pos);
    }
  }

  lemma RenderedCell(img: IntegralImage, gray: seq<int>, dst: seq<int>, pos: int)
    requires Summarizes(img, gray) && NonNegative(gray) && |dst| == |img.ii|
    requires forall x, y :: InGrid(img.width, img.height, x, y) ==>
      0 <= At(img.ii, img.width, img.height, x, y) <= img.ii[|img.ii| - 1]
    requires 0 <= pos < |dst|
    ensures var g := ScaledGrey(img.ii[pos], img.ii[|img.ii| - 1]);
      IsChannel(g) && ToIntARGB(img, dst)[pos] == Pack(0xFF, g, g, g)
  {
    var w, h := img.width, img.height;
    var maxVal := img.ii[|img.ii| - 1];
    var x, y := CellOf(w, h, pos);
    assert img.ii[pos] == At(img.ii, w, h, x, y);
    assert 0 <= img.ii[pos] <= maxVal;
    var g := ScaledGrey(img.ii[pos], maxVal);
    if maxVal == 0 {
      assert img.ii[pos] == 0;
    }
    assert IsChannel(g);
    assert ToIntARGB(img, dst)[pos] == GreyPixel(g);
  }

  /** Four rows of 10, 20, 30, 40. */
  const Stripes: seq<int> := [10, 20, 30, 40, 10, 20, 30, 40, 10, 20, 30, 40, 10, 20, 30, 40]

  /** On the striped 4 x 4 image the last cell is the total, 400, and
      `meanValue(0, 0, 2, 2)` averages columns 1..2 of rows 1..2 (20, 30,
      20, 30), giving 25 rather than the 15 of the top-left block. */
  lemma {:induction false} StripesExample(img: IntegralImage)
    requires img.width == 4 && img.height == 4 && Summarizes(img, Stripes)
    ensures img.ii[15] == 400
    ensures QueryDefined(img, 0, 0, 2, 2) && MeanValue(img, 0, 0, 2, 2) == 25.0
  {
    TotalIsLastCell(img, Stripes);
    StripesTotal();
    StripesCentre(img, 0, 0, 2, 2);
    QueryMean(img, Stripes, 0, 0, 2, 2, 100, 4, 25.0);
  }

  /** A query that reaches the right border: `meanValue(2, 0, 5, 2)` on the
      striped image clamps the width 5 to 4 - 2 - 1 = 1, so it averages
      column 3 of rows 1..2 (40 and 40), giving 40. */
  lemma {:induction false} ClampedStripesExample(img: IntegralImage)
    requires img.width == 4 && img.height == 4 && Summarizes(img, Stripes)
    ensures ClampExtent(2, 5, 4) == 1 && ClampExtent(0, 2, 4) == 2
    ensures QueryDefined(img, 2, 0, 5, 2) && MeanValue(img, 2, 0, 5, 2) == 40.0
  {
    StripesLastColumn(img, 2, 0, 5, 2);
    QueryMean(img, Stripes, 2, 0, 5, 2, 80, 2, 40.0);
  }

  /** The striped image's grey values sum to 400. */
  lemma StripesTotal()
    ensures SeqSum(Stripes) == 400
  {
    var row := [10, 20, 30, 40];
    assert SeqSum(row) == 100 by {
      assert row[..3] == [10, 20, 30] && [10, 20, 30][..2] == [10, 20] && [10, 20][..1] == [10];
      assert [10][..0] == [];
      assert SeqSum([10]) == 10;
      assert SeqSum([10, 20]) == 30;
      assert SeqSum([10, 20, 30]) == 60;
    }
    assert Stripes == ((row + row) + row) + row;
    SeqSumConcat(row, row);
    SeqSumConcat(row + row, row);
    SeqSumConcat((row + row) + row, row);
  }

  /** Columns 1..2 of rows 1..2 of the striped image sum to 100: the region
      `meanValue(0, 0, 2, 2)` averages. */
  lemma StripesCentre(img: IntegralImage, x: int, y: int, areaWidth: int, areaHeight: int)
    requires img.width == 4 && img.height == 4 && x == 0 && y == 0 && areaWidth == 2 && areaHeight == 2
    ensures Shaped(Stripes, img.width, img.height)
    ensures var cw, ch := ClampExtent(x, areaWidth, img.width), ClampExtent(y, areaHeight, img.height);
      && cw == 2 && ch == 2 && cw * ch == 4
      && RegionSum(Stripes, img.width, img.height, x + 1, x + cw + 1, y + 1, y + ch + 1) == 100
  {
    assert Shaped(Stripes, 4, 4);
    assert At(Stripes, 4, 4, 1, 1) == 20 && At(Stripes, 4, 4, 2, 1) == 30 by {
      assert Index(4, 1, 1) == 5 && Index(4, 2, 1) == 6;
    }
    assert At(Stripes, 4, 4, 1, 2) == 20 && At(Stripes, 4, 4, 2, 2) == 30 by {
      assert Index(4, 1, 2) == 9 && Index(4, 2, 2) == 10;
    }
    assert RowSum(Stripes, 4, 4, 1, 1, 3) == 50;
    assert RowSum(Stripes, 4, 4, 2, 1, 3) == 50;
    assert RegionSum(Stripes, 4, 4, 1, 3, 1, 2) == 50;
    assert RegionSum(Stripes, 4, 4, 1, 3, 1, 3) == 100;
  }

  /** Column 3 of rows 1..2 of the striped image sums to 80: the region
      `meanValue(2, 0, 5, 2)` averages once its width is clamped to 1. */
  lemma StripesLastColumn(img: IntegralImage, x: int, y: int, areaWidth: int, areaHeight: int)
    requires img.width == 4 && img.height == 4 && x == 2 && y == 0 && areaWidth == 5 && areaHeight == 2
    ensures Shaped(Stripes, img.width, img.height)
    ensures var cw, ch := ClampExtent(x, areaWidth, img.width), ClampExtent(y, areaHeight, img.height);
      && cw == 1 && ch == 2 && cw * ch == 2
      && RegionSum(Stripes, img.width, img.height, x + 1, x + cw + 1, y + 1, y + ch + 1) == 80
  {
    assert Shaped(Stripes, 4, 4);
    assert At(Stripes, 4, 4, 3, 1) == 40 by {
      assert Index(4, 3, 1) == 7;
    }
    assert At(Stripes, 4, 4, 3, 2) == 40 by {
      assert Index(4, 3, 2) == 11;
    }
    assert RowSum(Stripes, 4, 4, 1, 3, 4) == 40;
    assert RowSum(Stripes, 4, 4, 2, 3, 4) == 40;
    assert RegionSum(Stripes, 4, 4, 3, 4, 1, 2) == 40;
    assert RegionSum(Stripes, 4, 4, 3, 4, 1, 3) == 80;
  }

  /** A query whose clamped region holds `count` cells with grey values
      summing to `count` times `mean` averages `mean`. */
  lemma {:induction false} QueryMean(img: IntegralImage, gray: seq<int>, x: int, y: int, areaWidth: int, areaHeight: int,
                                     sum: int, count: int, mean: real)
    requires Summarizes(img, gray) && QueryDefined(img, x, y, areaWidth, areaHeight)
    requires var cw, ch := ClampExtent(x, areaWidth, img.width), ClampExtent(y, areaHeight, img.height);
      && cw * ch == count
      && RegionSum(gray, img.width, img.height, x + 1, x + cw + 1, y + 1, y + ch + 1) == sum
    requires sum as real == mean * count as real
    ensures MeanValue(img, x, y, areaWidth, areaHeight) == mean
  {
    MeanValueIsRegionMean(img, gray, x, y, areaWidth, areaHeight);
    QuotientIs(MeanValue(img, x, y, areaWidth, areaHeight), sum, count, mean);
  }

  /** A quotient `sum / count` is `mean` when `count` copies of `mean` make
      up `sum`. */
  lemma QuotientIs(quotient: real, sum: int, count: int, mean: real)
    requires 0 < count && sum as real == mean * count as real
    requires quotient == sum as real / count as real
    ensures quotient == mean
  {
  }
}
