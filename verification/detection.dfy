/**
 The detection steps of `FaceDetectionController`: scanning a classifier
 over the image into a correlation picture, and extracting the local maxima
 of that picture into a white-on-black mask.
 */
module Detection {
  import opened Numerics
  import opened Pixels
  import opened Grid
  import opened IntegralImages
  import opened Rects
  import opened Classifiers

  /** Side of the square neighbourhood of the maxima test (`NEIGHBOUR`). */
  const Neighbourhood: int := 5

  /** `isInImage(x, y, width, height)` */
  function IsInImage(x: int, y: int, width: int, height: int): (b: bool)
    ensures b <==> InGrid(width, height, x, y)
  {
    x < width && x > -1 && y < height && y > -1
  }

  // ---------------------------------------------------------------------
  // Extremes of the red channel
  // ---------------------------------------------------------------------

  /** The smallest red channel, starting from 255. */
  function MinRed(src: seq<int>): (m: int)
    ensures m <= 255
    ensures forall i :: 0 <= i < |src| ==> m <= Red(src[i])
    ensures m == 255 || exists i :: 0 <= i < |src| && m == Red(src[i])
    decreases |src|
  {
    if |src| == 0 then 255
    else
      var m := MinRed(src[..|src| - 1]);
      var r := Red(src[|src| - 1]);
      assert forall i :: 0 <= i < |src| - 1 ==> src[..|src| - 1][i] == src[i];
      if r < m then r else m
  }

  /** The largest red channel, starting from 0. */
  function MaxRed(src: seq<int>): (m: int)
    ensures 0 <= m
    ensures forall i :: 0 <= i < |src| ==> Red(src[i]) <= m
    ensures m == 0 || exists i :: 0 <= i < |src| && m == Red(src[i])
    decreases |src|
  {
    if |src| == 0 then 0
    else
      var m := MaxRed(src[..|src| - 1]);
      var r := Red(src[|src| - 1]);
      assert forall i :: 0 <= i < |src| - 1 ==> src[..|src| - 1][i] == src[i];
      if r > m then r else m
  }

  /** `getCorrelationMin`: the red channels lie in 0..255, so the result is
      the least of them, or 255 for an empty picture. */
  method CorrelationMin(src: seq<int>) returns (min: int)
    ensures min == MinRed(src)
    ensures IsChannel(min)
    ensures forall i :: 0 <= i < |src| ==> min <= Red(src[i])
    ensures |src| > 0 ==> exists i :: 0 <= i < |src| && min == Red(src[i])
  {
    min := 255;
    for i := 0 to |src|
      invariant min == MinRed(src[..i])
    {
      var corr := (src[i] / 0x1_0000) % 0x100;
      assert src[..i + 1][..i] == src[..i];
      if corr < min {
        min := corr;
      }
    }
    assert src[..|src|] == src;
    if |src| > 0 && min == 255 {
      assert Red(src[0]) <= 255;
    }
  }

  /** `getCorrelationMax`: the greatest red channel, or 0 for an empty
      picture. */
  method CorrelationMax(src: seq<int>) returns (max: int)
    ensures max == MaxRed(src)
    ensures IsChannel(max)
    ensures forall i :: 0 <= i < |src| ==> Red(src[i]) <= max
    ensures |src| > 0 ==> exists i :: 0 <= i < |src| && max == Red(src[i])
  {
    max := 0;
    for i := 0 to |src|
      invariant max == MaxRed(src[..i])
    {
      var corr := (src[i] / 0x1_0000) % 0x100;
      assert src[..i + 1][..i] == src[..i];
      if corr > max {
        max := corr;
      }
    }
    assert src[..|src|] == src;
  }

  // ---------------------------------------------------------------------
  // Local maxima
  // ---------------------------------------------------------------------

  /** Cell (i, j) is in the image and within Chebyshev distance 2 of (x, y). */
  predicate Near(width: int, height: int, x: int, y: int, i: int, j: int) {
    InGrid(width, height, i, j) && x - 2 <= i <= x + 2 && y - 2 <= j <= y + 2
  }

  /** No cell of the 5 x 5 neighbourhood holds a strictly greater packed
      int; equal values do not suppress each other. */
  ghost predicate LocalMax(arr: seq<int>, width: int, height: int, x: int, y: int)
    requires Shaped(arr, width, height) && InGrid(width, height, x, y)
  {
    forall i, j :: Near(width, height, x, y, i, j) ==> At(arr, width, height, i, j) <= At(arr, width, height, x, y)
  }

  /** `biggerThanNeighbours(array, x, y, width, height)`: compares the raw
      packed ints, not their red channels. */
  method BiggerThanNeighbours(arr: seq<int>, x: int, y: int, width: int, height: int) returns (b: bool)
    requires Shaped(arr, width, height) && InGrid(width, height, x, y)
    ensures b <==> LocalMax(arr, width, height, x, y)
  {
    var pos := y * width + x;
    assert pos == Index(width, x, y);
    IndexInRange(width, height, x, y);
    var mid := Neighbourhood / 2;
    for j := 0 to Neighbourhood
      invariant forall i', j' :: Near(width, height, x, y, i', j') && j' < y - mid + j ==>
        At(arr, width, height, i', j') <= At(arr, width, height, x, y)
    {
      for i := 0 to Neighbourhood
        invariant forall i', j' :: Near(width, height, x, y, i', j') && (j' < y - mid + j || (j' == y - mid + j && i' < x - mid + i)) ==>
          At(arr, width, height, i', j') <= At(arr, width, height, x, y)
      {
        var neighbourX := i - mid;
        var neighbourY := j - mid;
        var posComp := (y + neighbourY) * width + (x + neighbourX);
        if IsInImage(x + neighbourX, y + neighbourY, width, height) {
          assert posComp == Index(width, x + neighbourX, y + neighbourY);
          IndexInRange(width, height, x + neighbourX, y + neighbourY);
          if arr[posComp] > arr[pos] {
            assert At(arr, width, height, x + neighbourX, y + neighbourY) > At(arr, width, height, x, y);
            assert Near(width, height, x, y, x + neighbourX, y + neighbourY);
            return false;
          }
        }
      }
    }
    return true;
  }

  /** The mask value of one cell: white when the normalised red channel
      passes the threshold and the cell is a local maximum, black otherwise. */
  ghost function MaskCell(src: seq<int>, width: int, height: int, x: int, y: int, threshold: real): int
    requires Shaped(src, width, height) && InGrid(width, height, x, y)
    requires MinRed(src) != MaxRed(src)
  {
    var grey := Red(At(src, width, height, x, y));
    if Normalize(grey as real, MinRed(src) as real, MaxRed(src) as real) > threshold
       && LocalMax(src, width, height, x, y)
    then White else Black
  }

  /** `getCorrelationMaximas(src, dst, width, height, threshold)`: when the
      red channel is constant the destination is left as it was; otherwise
      every cell becomes white or black by `MaskCell`. */
  method CorrelationMaximas(src: seq<int>, dst: seq<int>, width: int, height: int, threshold: real)
    returns (out: seq<int>)
    requires Shaped(src, width, height) && Shaped(dst, width, height)
    ensures MinRed(src) == MaxRed(src) ==> out == dst
    ensures MinRed(src) != MaxRed(src) ==>
      && Shaped(out, width, height)
      && forall x, y :: InGrid(width, height, x, y) ==>
           At(out, width, height, x, y) == MaskCell(src, width, height, x, y, threshold)
  {
    out := dst;
    var min := CorrelationMin(src);
    var max := CorrelationMax(src);
    if max - min == 0 {
      return;
    }
    for y := 0 to height
      invariant Shaped(out, width, height)
      invariant forall i, j :: InGrid(width, height, i, j) ==>
        At(out, width, height, i, j) == if j < y then MaskCell(src, width, height, i, j, threshold) else At(dst, width, height, i, j)
    {
      for x := 0 to width
        invariant Shaped(out, width, height)
        invariant forall i, j :: InGrid(width, height, i, j) ==>
          At(out, width, height, i, j)
            == if j < y || (j == y && i < x) then MaskCell(src, width, height, i, j, threshold) else At(dst, width, height, i, j)
      {
        var pos := y * width + x;
        assert pos == Index(width, x, y);
        IndexInRange(width, height, x, y);
        var grey := (src[pos] / 0x1_0000) % 0x100;
        assert grey == Red(At(src, width, height, x, y));
        var greyNorm := Normalize(grey as real, min as real, max as real);
        var v: int;
        if greyNorm > threshold {
          var bigger := BiggerThanNeighbours(src, x, y, width, height);
          v := if bigger then White else Black;
        } else {
          v := Black;
        }
        assert v == MaskCell(src, width, height, x, y, threshold);
        UpdateCell(out, width, height, x, y, v);
        out := out[pos := v];
      }
    }
  }

  /** A white cell is a local maximum whose red channel lies strictly above
      the picture's least red channel, whenever the threshold is not
      negative. */
  lemma WhiteCellsAreMaxima(src: seq<int>, width: int, height: int, x: int, y: int, threshold: real)
    requires Shaped(src, width, height) && InGrid(width, height, x, y)
    requires MinRed(src) != MaxRed(src) && 0.0 <= threshold
    requires MaskCell(src, width, height, x, y, threshold) == White
    ensures LocalMax(src, width, height, x, y)
    ensures MinRed(src) < Red(At(src, width, height, x, y)) <= MaxRed(src)
  {
    IndexInRange(width, height, x, y);
    assert White != Black by {
      ChannelsOfPack(0xFF, 255, 255, 255);
      ChannelsOfPack(0xFF, 0, 0, 0);
    }
    var grey := Red(At(src, width, height, x, y));
    assert Red(src[Index(width, x, y)]) <= MaxRed(src);
    assert MinRed(src) <= grey;
  }

  // ---------------------------------------------------------------------
  // Scanning
  // ---------------------------------------------------------------------

  /** The positions of the scan `y < H - 0.8 ah`, `x < W - 0.8 aw` in
      integers. */
  predicate Scanned(width: int, height: int, areaWidth: int, areaHeight: int, x: int, y: int) {
    0 <= x && 0 <= y && 5 * y < 5 * height - 4 * areaHeight && 5 * x < 5 * width - 4 * areaWidth
  }

  /** The pixel written at a scanned position: the gated score times 255,
      truncated to an int and copied into the three colour fields. */
  function ScanValue(c: Classifier, img: IntegralImage, x: int, y: int, threshold: real): int
    requires Defined(c, img, x, y)
  {
    GreyPixel(ToJavaInt(MatchAbove(c, img, x, y, threshold) * 255.0))
  }

  /** Every position the scan reaches has its queries defined. */
  ghost predicate ScanDefined(c: Classifier, img: IntegralImage) {
    forall x, y :: Scanned(img.width, img.height, Area(c).width, Area(c).height, x, y) ==> Defined(c, img, x, y)
  }

  /** The cells of the scan that come before row `y`, or before column `x`
      of row `y`. */
  predicate ScannedBefore(c: Classifier, img: IntegralImage, i: int, j: int, x: int, y: int) {
    Scanned(img.width, img.height, Area(c).width, Area(c).height, i, j) && (j < y || (j == y && i < x))
  }

  /** `out` holds the scan's pixel at the cells scanned before (x, y) and
      the original value everywhere else. */
  ghost predicate ScannedUpTo(c: Classifier, img: IntegralImage, threshold: real, dst: seq<int>, out: seq<int>, x: int, y: int)
    requires ScanDefined(c, img)
  {
    && Shaped(dst, img.width, img.height) && Shaped(out, img.width, img.height)
    && forall i, j :: InGrid(img.width, img.height, i, j) ==>
         At(out, img.width, img.height, i, j)
           == if ScannedBefore(c, img, i, j, x, y) then ScanValue(c, img, i, j, threshold)
              else At(dst, img.width, img.height, i, j)
  }

  /** The scan loop of `doVoilaJones`: every scanned position gets the
      classifier's pixel; every other cell keeps its value. */
  method ScanCorrelation(c: Classifier, img: IntegralImage, threshold: real, dst: seq<int>) returns (out: seq<int>)
    requires Valid(img) && Shaped(dst, img.width, img.height)
    requires HasExtent(Area(c)) && ScanDefined(c, img)
    ensures Shaped(out, img.width, img.height)
    ensures forall x, y :: InGrid(img.width, img.height, x, y) ==>
      At(out, img.width, img.height, x, y)
        == if Scanned(img.width, img.height, Area(c).width, Area(c).height, x, y)
           then ScanValue(c, img, x, y, threshold)
           else At(dst, img.width, img.height, x, y)
  {
    var area := Area(c);
    out := dst;
    var y := 0;
    while 5 * y < 5 * img.height - 4 * area.height
      invariant 0 <= y && ScannedUpTo(c, img, threshold, dst, out, 0, y)
      decreases 5 * img.height - 4 * area.height - 5 * y
    {
      out := ScanRow(c, img, threshold, dst, out, y);
      y := y + 1;
    }
  }

  /** One row of the scan loop. */
  method ScanRow(c: Classifier, img: IntegralImage, threshold: real, dst: seq<int>, row: seq<int>, y: int)
    returns (out: seq<int>)
    requires Valid(img) && HasExtent(Area(c)) && ScanDefined(c, img)
    requires 0 <= y && 5 * y < 5 * img.height - 4 * Area(c).height
    requires ScannedUpTo(c, img, threshold, dst, row, 0, y)
    ensures ScannedUpTo(c, img, threshold, dst, out, 0, y + 1)
  {
    var width, height := img.width, img.height;
    var area := Area(c);
    out := row;
    var x := 0;
    while 5 * x < 5 * width - 4 * area.width
      invariant 0 <= x && ScannedUpTo(c, img, threshold, dst, out, x, y)
      decreases 5 * width - 4 * area.width - 5 * x
    {
      var pos := y * width + x;
      ScanPosition(c, img, x, y);
      var v := ScanValue(c, img, x, y, threshold);
      ScanStep(c, img, threshold, dst, out, x, y);
      out := out[pos := v];
      x := x + 1;
    }
    RowDone(c, img, threshold, dst, out, x, y);
  }

  /** A position the loops reach is scanned, so its queries are defined. */
  lemma ScanPosition(c: Classifier, img: IntegralImage, x: int, y: int)
    requires ScanDefined(c, img) && 0 <= x && 0 <= y
    requires 5 * y < 5 * img.height - 4 * Area(c).height && 5 * x < 5 * img.width - 4 * Area(c).width
    ensures Scanned(img.width, img.height, Area(c).width, Area(c).height, x, y)
    ensures Defined(c, img, x, y)
    ensures y * img.width + x == Index(img.width, x, y)
  {
  }

  lemma {:induction false} ScanStep(c: Classifier, img: IntegralImage, threshold: real, dst: seq<int>, out: seq<int>, x: int, y: int)
    requires ScanDefined(c, img) && ScannedUpTo(c, img, threshold, dst, out, x, y)
    requires Scanned(img.width, img.height, Area(c).width, Area(c).height, x, y)
    requires HasExtent(Area(c))
    ensures 0 <= Index(img.width, x, y) < |out|
    ensures ScannedUpTo(c, img, threshold, dst, out[Index(img.width, x, y) := ScanValue(c, img, x, y, threshold)], x + 1, y)
  {
    var v := ScanValue(c, img, x, y, threshold);
    UpdateCell(out, img.width, img.height, x, y, v);
    var out' := out[Index(img.width, x, y) := v];
    forall i, j | InGrid(img.width, img.height, i, j)
      ensures At(out', img.width, img.height, i, j)
        == if ScannedBefore(c, img, i, j, x + 1, y) then ScanValue(c, img, i, j, threshold)
           else At(dst, img.width, img.height, i, j)
    {
      if i != x || j != y {
        assert ScannedBefore(c, img, i, j, x + 1, y) == ScannedBefore(c, img, i, j, x, y);
      }
    }
  }

  lemma {:induction false} RowDone(c: Classifier, img: IntegralImage, threshold: real, dst: seq<int>, out: seq<int>, x: int, y: int)
    requires ScanDefined(c, img) && ScannedUpTo(c, img, threshold, dst, out, x, y)
    requires 5 * x >= 5 * img.width - 4 * Area(c).width
    ensures ScannedUpTo(c, img, threshold, dst, out, 0, y + 1)
  {
    forall i, j | InGrid(img.width, img.height, i, j)
      ensures ScannedBefore(c, img, i, j, 0, y + 1) == ScannedBefore(c, img, i, j, x, y)
    {
    }
  }

  /** A score in 0..1 is written as an opaque grey pixel whose red channel,
      the one the maxima step reads, is the score times 255 truncated. */
  lemma {:induction false} ScoreIsGrey(score: real)
    requires 0.0 <= score <= 1.0
    ensures var grey := Trunc(score * 255.0);
      && IsChannel(grey)
      && GreyPixel(ToJavaInt(score * 255.0)) == Pack(0xFF, grey, grey, grey)
      && Red(GreyPixel(ToJavaInt(score * 255.0))) == grey
  {
    assert 0.0 <= score * 255.0 <= 255.0;
    var grey := Trunc(score * 255.0);
    assert IsChannel(grey);
    GreyPixelChannels(grey);
  }

  /** A weak classifier's scan pixel, where its ungated score is at most 1,
      is grey with red channel `(int)(score * 255)`. */
  lemma {:induction false} WeakScanValueIsGrey(c: Classifier, img: IntegralImage, x: int, y: int, threshold: real)
    requires c.Weak? && Defined(c, img, x, y)
    requires Match(c, img, x, y) <= 1.0
    ensures Red(ScanValue(c, img, x, y, threshold)) == Trunc(MatchAbove(c, img, x, y, threshold) * 255.0)
  {
    WeakGatedBounds(c, img, x, y, threshold);
    ScoreIsGrey(MatchAbove(c, img, x, y, threshold));
  }

  /** Every position the scan reaches is inside the image. */
  lemma ScannedInImage(width: int, height: int, areaWidth: int, areaHeight: int, x: int, y: int)
    requires 0 <= areaWidth && 0 <= areaHeight
    requires Scanned(width, height, areaWidth, areaHeight, x, y)
    ensures IsInImage(x, y, width, height)
  {
  }
}
