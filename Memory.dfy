/** Row-major index arithmetic and the block copy (std::memcpy / std::copy_n) that
    the buffer and atlas code is built from. */
module Memory {

  /** The linear index of column `x` of row `y` in a row-major grid `w` cells wide. */
  function RowMajorIndex(x: int, y: int, w: int): int {
    y * w + x
  }

  /** A cell of an earlier row comes before every cell of row `row`. */
  lemma RowBefore(x: int, y: int, w: int, row: int)
    requires 0 <= x < w && y < row
    ensures RowMajorIndex(x, y, w) < row * w
  {
    assert (y + 1) * w <= row * w by {
      MulMonotone(y + 1, row, w);
    }
  }

  /** A cell of a later row comes after every cell of row `row`. */
  lemma RowAfter(x: int, y: int, w: int, row: int)
    requires 0 <= x && 0 <= w && row < y
    ensures (row + 1) * w <= RowMajorIndex(x, y, w)
  {
    MulMonotone(row + 1, y, w);
  }

  /** Inside a grid of `w` by `h` cells the linear index is in [0, w*h). */
  lemma IndexInGrid(x: int, y: int, w: int, h: int)
    requires 0 <= x < w && 0 <= y < h
    ensures 0 <= RowMajorIndex(x, y, w) < w * h
  {
    RowBefore(x, y, w, h);
    assert 0 <= y * w by {
      MulMonotone(0, y, w);
    }
    assert h * w == w * h;
  }

  /** Two cells of a grid `w` wide have the same linear index only if they are the same cell. */
  lemma IndexInjective(x1: int, y1: int, x2: int, y2: int, w: int)
    requires 0 <= x1 < w && 0 <= x2 < w
    requires RowMajorIndex(x1, y1, w) == RowMajorIndex(x2, y2, w)
    ensures x1 == x2 && y1 == y2
  {
    if y1 < y2 {
      RowBefore(x1, y1, w, y2);
      RowAfter(x2, y2, w, y2 - 1);
    } else if y2 < y1 {
      RowBefore(x2, y2, w, y1);
      RowAfter(x1, y1, w, y1 - 1);
    }
  }

  lemma MulMonotone(a: int, b: int, w: int)
    requires a <= b && 0 <= w
    ensures a * w <= b * w
  {
    assert b * w - a * w == (b - a) * w;
  }

  /** Copies `n` elements of `src` starting at `srcStart` to `dst` starting at `dstStart`;
      nothing else in `dst` changes. */
  method Copy<T>(src: seq<T>, srcStart: nat, dst: array<T>, dstStart: nat, n: nat)
    requires srcStart + n <= |src| && dstStart + n <= dst.Length
    modifies dst
    ensures forall i :: dstStart <= i < dstStart + n ==> dst[i] == src[srcStart + (i - dstStart)]
    ensures forall i :: 0 <= i < dst.Length && !(dstStart <= i < dstStart + n) ==> dst[i] == old(dst[i])
  {
    var k := 0;
    while k < n
      invariant 0 <= k <= n
      invariant forall i :: dstStart <= i < dstStart + k ==> dst[i] == src[srcStart + (i - dstStart)]
      invariant forall i :: 0 <= i < dst.Length && !(dstStart <= i < dstStart + k) ==> dst[i] == old(dst[i])
    {
      dst[dstStart + k] := src[srcStart + k];
      k := k + 1;
    }
  }
}
