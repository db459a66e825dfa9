/**
 Row-major grids of integers stored as flat sequences (the layout of every
 pixel, grey and summed-area buffer in the detector), and sums over
 axis-aligned regions of such a grid.
 */
module Grid {

  /** Flat position of cell (x, y) in a row-major grid of width w. */
  function Index(w: int, x: int, y: int): int {
    y * w + x
  }

  predicate InGrid(w: int, h: int, x: int, y: int) {
    0 <= x < w && 0 <= y < h
  }

  /** `s` holds exactly one value per cell of a w-by-h grid. */
  predicate Shaped(s: seq<int>, w: int, h: int) {
    0 <= w && 0 <= h && |s| == w * h
  }

  predicate NonNegative(s: seq<int>) {
    forall i :: 0 <= i < |s| ==> 0 <= s[i]
  }

  lemma MulMonotone(a: int, b: int, c: int)
    requires 0 <= a <= b && 0 <= c
    ensures a * c <= b * c
  {
  }

  lemma IndexInRange(w: int, h: int, x: int, y: int)
    requires InGrid(w, h, x, y)
    ensures 0 <= Index(w, x, y) < w * h
  {
    assert y * w + x < (y + 1) * w;
    MulMonotone(y + 1, h, w);
  }

  /** Distinct cells have distinct flat positions. */
  lemma IndexInjective(w: int, x: int, y: int, x': int, y': int)
    requires 0 <= x < w && 0 <= x' < w
    requires Index(w, x, y) == Index(w, x', y')
    ensures x == x' && y == y'
  {
    if y < y' {
      MulMonotone(y + 1, y', w);
    } else if y' < y {
      MulMonotone(y' + 1, y, w);
    }
  }

  /** The flat positions the summed-area recurrence reads: one step left is
      one position back, one step up is one row width back. */
  lemma NeighbourIndices(w: int, x: int, y: int)
    ensures Index(w, x, y) - 1 == Index(w, x - 1, y)
    ensures Index(w, x, y) - w == Index(w, x, y - 1)
  {
    assert (y - 1) * w == y * w - w;
  }

  /** Every flat position of a grid is the position of some cell. */
  lemma CellOf(w: int, h: int, pos: int) returns (x: int, y: int)
    requires 0 < w && 0 <= h && 0 <= pos < w * h
    ensures InGrid(w, h, x, y) && Index(w, x, y) == pos
  {
    x, y := pos % w, pos / w;
    if y >= h {
      MulMonotone(h, y, w);
    }
  }

  /** Value of cell (x, y). */
  function At(s: seq<int>, w: int, h: int, x: int, y: int): int
    requires Shaped(s, w, h) && InGrid(w, h, x, y)
  {
    IndexInRange(w, h, x, y);
    s[Index(w, x, y)]
  }

  /** Writing one flat position changes exactly one cell. */
  lemma {:induction false} UpdateCell(s: seq<int>, w: int, h: int, x: int, y: int, v: int)
    requires Shaped(s, w, h) && InGrid(w, h, x, y)
    ensures 0 <= Index(w, x, y) < |s|
    ensures Shaped(s[Index(w, x, y) := v], w, h)
    ensures forall i, j :: InGrid(w, h, i, j) ==>
      At(s[Index(w, x, y) := v], w, h, i, j) == if i == x && j == y then v else At(s, w, h, i, j)
  {
    IndexInRange(w, h, x, y);
    var s' := s[Index(w, x, y) := v];
    forall i, j | InGrid(w, h, i, j)
      ensures At(s', w, h, i, j) == if i == x && j == y then v else At(s, w, h, i, j)
    {
      IndexInRange(w, h, i, j);
      if i != x || j != y {
        if Index(w, i, j) == Index(w, x, y) {
          IndexInjective(w, i, j, x, y);
        }
      }
    }
  }

  /** Sum of the cells (i, y) with a <= i < b. */
  function RowSum(s: seq<int>, w: int, h: int, y: int, a: int, b: int): int
    requires Shaped(s, w, h) && 0 <= y < h && 0 <= a <= b <= w
    decreases b - a
  {
    if a == b then 0 else RowSum(s, w, h, y, a, b - 1) + At(s, w, h, b - 1, y)
  }

  /** Sum of the cells (i, j) with a <= i < b and c <= j < d: columns a..b-1,
      rows c..d-1. */
  function RegionSum(s: seq<int>, w: int, h: int, a: int, b: int, c: int, d: int): int
    requires Shaped(s, w, h) && 0 <= a <= b <= w && 0 <= c <= d <= h
    decreases d - c
  {
    if c == d then 0 else RegionSum(s, w, h, a, b, c, d - 1) + RowSum(s, w, h, d - 1, a, b)
  }

  /** Sum of the x-by-y block at the top-left corner. */
  function Prefix(s: seq<int>, w: int, h: int, x: int, y: int): int
    requires Shaped(s, w, h) && 0 <= x <= w && 0 <= y <= h
  {
    RegionSum(s, w, h, 0, x, 0, y)
  }

  /** Sum of all cells (i, j) with i <= x and j <= y: what the summed-area
      table holds at (x, y). */
  function InclusivePrefix(s: seq<int>, w: int, h: int, x: int, y: int): int
    requires Shaped(s, w, h) && InGrid(w, h, x, y)
  {
    Prefix(s, w, h, x + 1, y + 1)
  }

  lemma {:induction false} RowSumSplit(s: seq<int>, w: int, h: int, y: int, a: int, m: int, b: int)
    requires Shaped(s, w, h) && 0 <= y < h && 0 <= a <= m <= b <= w
    ensures RowSum(s, w, h, y, a, b) == RowSum(s, w, h, y, a, m) + RowSum(s, w, h, y, m, b)
    decreases b - m
  {
    if m < b {
      RowSumSplit(s, w, h, y, a, m, b - 1);
    }
  }

  lemma {:induction false} RegionSplitColumns(s: seq<int>, w: int, h: int, a: int, m: int, b: int, c: int, d: int)
    requires Shaped(s, w, h) && 0 <= a <= m <= b <= w && 0 <= c <= d <= h
    ensures RegionSum(s, w, h, a, b, c, d) == RegionSum(s, w, h, a, m, c, d) + RegionSum(s, w, h, m, b, c, d)
    decreases d - c
  {
    if c < d {
      RegionSplitColumns(s, w, h, a, m, b, c, d - 1);
      RowSumSplit(s, w, h, d - 1, a, m, b);
    }
  }

  lemma {:induction false} RegionSplitRows(s: seq<int>, w: int, h: int, a: int, b: int, c: int, m: int, d: int)
    requires Shaped(s, w, h) && 0 <= a <= b <= w && 0 <= c <= m <= d <= h
    ensures RegionSum(s, w, h, a, b, c, d) == RegionSum(s, w, h, a, b, c, m) + RegionSum(s, w, h, a, b, m, d)
    decreases d - m
  {
    if m < d {
      RegionSplitRows(s, w, h, a, b, c, m, d - 1);
    }
  }

  /** A region with no columns sums to zero. */
  lemma {:induction false} EmptyRegion(s: seq<int>, w: int, h: int, a: int, c: int, d: int)
    requires Shaped(s, w, h) && 0 <= a <= w && 0 <= c <= d <= h
    ensures RegionSum(s, w, h, a, a, c, d) == 0
    decreases d - c
  {
    if c < d {
      EmptyRegion(s, w, h, a, c, d - 1);
    }
  }

  /** Four-corner inclusion-exclusion: any region sum is a signed sum of four
      top-left block sums. */
  lemma {:induction false} InclusionExclusion(s: seq<int>, w: int, h: int, a: int, b: int, c: int, d: int)
    requires Shaped(s, w, h) && 0 <= a <= b <= w && 0 <= c <= d <= h
    ensures RegionSum(s, w, h, a, b, c, d)
         == Prefix(s, w, h, b, d) - Prefix(s, w, h, a, d) - Prefix(s, w, h, b, c) + Prefix(s, w, h, a, c)
  {
    RegionSplitRows(s, w, h, 0, b, 0, c, d);
    RegionSplitRows(s, w, h, 0, a, 0, c, d);
    RegionSplitColumns(s, w, h, 0, a, b, c, d);
  }

  /** The summed-area recurrence, with the empty blocks of row -1 and
      column -1 standing for zero. */
  lemma {:induction false} PrefixStep(s: seq<int>, w: int, h: int, x: int, y: int)
    requires Shaped(s, w, h) && InGrid(w, h, x, y)
    ensures Prefix(s, w, h, x + 1, y + 1)
         == Prefix(s, w, h, x, y + 1) + Prefix(s, w, h, x + 1, y) - Prefix(s, w, h, x, y) + At(s, w, h, x, y)
  {
    InclusionExclusion(s, w, h, x, x + 1, y, y + 1);
    assert RegionSum(s, w, h, x, x + 1, y, y + 1) == At(s, w, h, x, y);
  }

  lemma {:induction false} RowSumNonNegative(s: seq<int>, w: int, h: int, y: int, a: int, b: int)
    requires Shaped(s, w, h) && 0 <= y < h && 0 <= a <= b <= w && NonNegative(s)
    ensures 0 <= RowSum(s, w, h, y, a, b)
    decreases b - a
  {
    if a < b {
      RowSumNonNegative(s, w, h, y, a, b - 1);
      IndexInRange(w, h, b - 1, y);
    }
  }

  /** A region of a non-negative grid has a non-negative sum. */
  lemma {:induction false} RegionNonNegative(s: seq<int>, w: int, h: int, a: int, b: int, c: int, d: int)
    requires Shaped(s, w, h) && 0 <= a <= b <= w && 0 <= c <= d <= h && NonNegative(s)
    ensures 0 <= RegionSum(s, w, h, a, b, c, d)
    decreases d - c
  {
    if c < d {
      RegionNonNegative(s, w, h, a, b, c, d - 1);
      RowSumNonNegative(s, w, h, d - 1, a, b);
    }
  }

  /** On a non-negative grid a larger top-left block never has a smaller sum. */
  lemma {:induction false} PrefixMonotone(s: seq<int>, w: int, h: int, x: int, y: int, x': int, y': int)
    requires Shaped(s, w, h) && NonNegative(s)
    requires 0 <= x <= x' <= w && 0 <= y <= y' <= h
    ensures Prefix(s, w, h, x, y) <= Prefix(s, w, h, x', y')
  {
    RegionSplitRows(s, w, h, 0, x', 0, y, y');
    RegionNonNegative(s, w, h, 0, x', y, y');
    RegionSplitColumns(s, w, h, 0, x, x', 0, y);
    RegionNonNegative(s, w, h, x, x', 0, y);
  }

  /** Sum of a sequence, accumulated left to right. */
  function SeqSum(s: seq<int>): int {
    if |s| == 0 then 0 else SeqSum(s[..|s| - 1]) + s[|s| - 1]
  }

  lemma {:induction false} SeqSumConcat(s: seq<int>, t: seq<int>)
    ensures SeqSum(s + t) == SeqSum(s) + SeqSum(t)
    decreases |t|
  {
    if |t| > 0 {
      assert (s + t)[..|s + t| - 1] == s + t[..|t| - 1];
      SeqSumConcat(s, t[..|t| - 1]);
    } else {
      assert s + t == s;
    }
  }

  /** Row y occupies the flat positions y*w .. y*w + w - 1. */
  lemma RowStart(w: int, h: int, y: int)
    requires 0 <= w && 0 <= y < h
    ensures 0 <= Index(w, 0, y) && Index(w, 0, y) + w <= w * h
  {
    MulMonotone(y + 1, h, w);
    assert Index(w, 0, y) + w == (y + 1) * w;
  }

  lemma {:induction false} RowSumIsSlice(s: seq<int>, w: int, h: int, y: int, b: int)
    requires Shaped(s, w, h) && 0 <= y < h && 0 <= b <= w
    ensures 0 <= Index(w, 0, y) && Index(w, 0, y) + b <= |s|
    ensures RowSum(s, w, h, y, 0, b) == SeqSum(s[Index(w, 0, y)..Index(w, 0, y) + b])
    decreases b
  {
    RowStart(w, h, y);
    var k := Index(w, 0, y);
    if b > 0 {
      RowSumIsSlice(s, w, h, y, b - 1);
      var row := s[k..k + b];
      assert row[..|row| - 1] == s[k..k + b - 1];
      assert Index(w, b - 1, y) == k + b - 1;
      assert row[|row| - 1] == At(s, w, h, b - 1, y);
    }
  }

  lemma {:induction false} RowsAreSlices(s: seq<int>, w: int, h: int, d: int)
    requires Shaped(s, w, h) && 0 <= d <= h
    ensures 0 <= d * w <= |s|
    ensures Prefix(s, w, h, w, d) == SeqSum(s[..d * w])
    decreases d
  {
    MulMonotone(d, h, w);
    if d > 0 {
      RowsAreSlices(s, w, h, d - 1);
      RowSumIsSlice(s, w, h, d - 1, w);
      assert (d - 1) * w + w == d * w;
      assert s[..d * w] == s[..(d - 1) * w] + s[(d - 1) * w..(d - 1) * w + w];
      SeqSumConcat(s[..(d - 1) * w], s[(d - 1) * w..(d - 1) * w + w]);
    }
  }

  /** The block covering the whole grid sums every cell. */
  lemma WholeGrid(s: seq<int>, w: int, h: int)
    requires Shaped(s, w, h)
    ensures Prefix(s, w, h, w, h) == SeqSum(s)
  {
    RowsAreSlices(s, w, h, h);
    assert s[..h * w] == s;
  }
}
