/** Geometry of the square field shared by every buffer (cells are stored row by row,
    cell (x, y) at index y * SIZE + x) and the sums the 3x3 stencils are built from. */
module Grid {

  /** Side length of the field, FIELD_SIZE. */
  const SIZE: int := 256

  /** Number of cells in every flat buffer. */
  const CELLS: int := SIZE * SIZE

  function Abs(v: real): (r: real)
    ensures r >= 0.0
    ensures r == v || r == -v
  {
    if v < 0.0 then -v else v
  }

  function Max(a: real, b: real): (r: real)
    ensures r >= a && r >= b
    ensures r == a || r == b
  {
    if a < b then b else a
  }

  function Min(a: real, b: real): (r: real)
    ensures r <= a && r <= b
    ensures r == a || r == b
  {
    if a < b then a else b
  }

  /** The cell (x, y) lies on the grid. */
  predicate InGrid(x: int, y: int) {
    0 <= x < SIZE && 0 <= y < SIZE
  }

  /** Flat index of cell (x, y); column and row are recovered by % and / . */
  function Index(x: int, y: int): (i: int)
    requires InGrid(x, y)
    ensures 0 <= i < CELLS
    ensures i % SIZE == x && i / SIZE == y
  {
    y * SIZE + x
  }

  /** A cell all of whose eight neighbours are on the grid: 1 <= x, y <= SIZE - 2. */
  predicate Interior(i: int) {
    0 <= i < CELLS && 1 <= i % SIZE <= SIZE - 2 && 1 <= i / SIZE <= SIZE - 2
  }

  lemma InteriorIndex(x: int, y: int)
    requires 1 <= x <= SIZE - 2 && 1 <= y <= SIZE - 2
    ensures Interior(Index(x, y))
  {
  }

  /** The first and the last cell of every row are border cells. */
  lemma RowEnds(y: int)
    requires 0 <= y < SIZE
    ensures !Interior(y * SIZE) && !Interior(y * SIZE + SIZE - 1)
  {
    assert (y * SIZE) % SIZE == 0;
    assert (y * SIZE + SIZE - 1) % SIZE == SIZE - 1;
  }

  /** The 3x3 neighbourhood of an interior cell, in the order the stencil loops visit it:
      rows dy = -1, 0, 1 and, within each row, columns dx = -1, 0, 1. */
  function Window(a: seq<real>, i: int): (w: seq<real>)
    requires |a| == CELLS && Interior(i)
    ensures |w| == 9 && w[4] == a[i]
  {
    [a[i - SIZE - 1], a[i - SIZE], a[i - SIZE + 1],
     a[i - 1],        a[i],        a[i + 1],
     a[i + SIZE - 1], a[i + SIZE], a[i + SIZE + 1]]
  }

  /** Entry (dy, dx) of the window, for offsets dy, dx in -1 .. 1. */
  lemma WindowEntry(a: seq<real>, i: int, dy: int, dx: int)
    requires |a| == CELLS && Interior(i) && -1 <= dy <= 1 && -1 <= dx <= 1
    ensures 0 <= i + dy * SIZE + dx < CELLS
    ensures Window(a, i)[3 * (dy + 1) + (dx + 1)] == a[i + dy * SIZE + dx]
  {
  }

  /** Left-to-right sum, so that extending a prefix by one element adds that element. */
  function Sum(s: seq<real>): real {
    if s == [] then 0.0 else Sum(s[..|s| - 1]) + s[|s| - 1]
  }

  function Sq(d: real): real {
    d * d
  }

  /** Sum of squared differences from a fixed value c. */
  function SumSqDev(s: seq<real>, c: real): real {
    if s == [] then 0.0 else SumSqDev(s[..|s| - 1], c) + Sq(s[|s| - 1] - c)
  }

  /** Extending a prefix by one element adds that element (its squared deviation). */
  lemma PrefixStep(s: seq<real>, n: int, c: real)
    requires 0 <= n < |s|
    ensures Sum(s[..n + 1]) == Sum(s[..n]) + s[n]
    ensures SumSqDev(s[..n + 1], c) == SumSqDev(s[..n], c) + Sq(s[n] - c)
  {
    assert s[..n + 1][..n] == s[..n];
  }

  lemma {:induction false} SumSqDevNonNegative(s: seq<real>, c: real)
    ensures SumSqDev(s, c) >= 0.0
  {
    if s != [] {
      SumSqDevNonNegative(s[..|s| - 1], c);
      var d := s[|s| - 1] - c;
      assert d * d >= 0.0;
    }
  }

  lemma {:induction false} SumSqDevOfConstant(s: seq<real>, c: real)
    requires forall k :: 0 <= k < |s| ==> s[k] == c
    ensures SumSqDev(s, c) == 0.0
  {
    if s != [] {
      SumSqDevOfConstant(s[..|s| - 1], c);
    }
  }

  /** Every squared difference is at most 1 when all values and c lie in [0, 1]. */
  lemma {:induction false} SumSqDevAtMostLength(s: seq<real>, c: real)
    requires 0.0 <= c <= 1.0
    requires forall k :: 0 <= k < |s| ==> 0.0 <= s[k] <= 1.0
    ensures SumSqDev(s, c) <= |s| as real
  {
    if s != [] {
      SumSqDevAtMostLength(s[..|s| - 1], c);
      var d := s[|s| - 1] - c;
      assert -1.0 <= d <= 1.0;
      if d >= 0.0 {
        assert d * d <= d * 1.0;
      } else {
        assert d * d <= (-d) * 1.0;
      }
      assert SumSqDev(s, c) == SumSqDev(s[..|s| - 1], c) + d * d;
      assert |s[..|s| - 1]| as real + 1.0 == |s| as real;
    }
  }

  lemma {:induction false} SumBetween(s: seq<real>, lo: real, hi: real)
    requires forall k :: 0 <= k < |s| ==> lo <= s[k] <= hi
    ensures |s| as real * lo <= Sum(s) <= |s| as real * hi
  {
    if s != [] {
      SumBetween(s[..|s| - 1], lo, hi);
    }
  }

  lemma {:induction false} SumOfConstant(s: seq<real>, c: real)
    requires forall k :: 0 <= k < |s| ==> s[k] == c
    ensures Sum(s) == |s| as real * c
  {
    if s != [] {
      SumOfConstant(s[..|s| - 1], c);
    }
  }
}
