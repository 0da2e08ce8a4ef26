/** A row-major two-dimensional buffer of cells (GameCore/Buffer2D.h): an array of
    `width * height` cells in which cell (x, y) is at linear index `y * width + x`. */
module Buffer2D {
  import opened Memory

  datatype IntegralSize = IntegralSize(width: nat, height: nat) {
    function LinearSize(): nat {
      width * height
    }
  }

  datatype IntegralCoordinates = IntegralCoordinates(x: int, y: int) {

    predicate IsInSize(size: IntegralSize) {
      0 <= x < size.width && 0 <= y < size.height
    }

    function Plus(other: IntegralCoordinates): IntegralCoordinates {
      IntegralCoordinates(x + other.x, y + other.y)
    }

    function Minus(other: IntegralCoordinates): IntegralCoordinates {
      IntegralCoordinates(x - other.x, y - other.y)
    }

    /** The mirror of this column in a row `width` cells wide. */
    function FlipX(width: int): IntegralCoordinates {
      IntegralCoordinates(width - 1 - x, y)
    }

    /** The mirror of this row in a column `height` cells tall. */
    function FlipY(height: int): IntegralCoordinates {
      IntegralCoordinates(x, height - 1 - y)
    }
  }

  datatype IntegralRect = IntegralRect(origin: IntegralCoordinates, size: IntegralSize) {

    predicate Contains(c: IntegralCoordinates) {
      c.Minus(origin).IsInSize(size)
    }

    predicate IsContainedInRect(other: IntegralRect) {
      other.origin.x <= origin.x && origin.x + size.width <= other.origin.x + other.size.width &&
      other.origin.y <= origin.y && origin.y + size.height <= other.origin.y + other.size.height
    }

    /** No cell lies in both rectangles: one ends, in x or in y, before the other begins. */
    predicate IsDisjointFrom(other: IntegralRect) {
      origin.x + size.width <= other.origin.x || other.origin.x + other.size.width <= origin.x ||
      origin.y + size.height <= other.origin.y || other.origin.y + other.size.height <= origin.y
    }
  }

  /** The bit flags of DirectionType; `Flip` acts on exactly these three values. */
  const Horizontal: nat := 1
  const Vertical: nat := 2
  const HorizontalAndVertical: nat := 3

  /** The linear index of a cell: it lies in [0, width*height) for every cell inside the size. */
  function LinearIndex(c: IntegralCoordinates, size: IntegralSize): (i: nat)
    requires c.IsInSize(size)
    ensures i < size.LinearSize()
  {
    IndexInGrid(c.x, c.y, size.width, size.height);
    RowMajorIndex(c.x, c.y, size.width)
  }

  /** Distinct cells have distinct linear indices. */
  lemma LinearIndexInjective(c1: IntegralCoordinates, c2: IntegralCoordinates, size: IntegralSize)
    requires c1.IsInSize(size) && c2.IsInSize(size)
    requires LinearIndex(c1, size) == LinearIndex(c2, size)
    ensures c1 == c2
  {
    IndexInjective(c1.x, c1.y, c2.x, c2.y, size.width);
  }

  /** Every linear index in [0, width*height) is the index of exactly the cell (i % width, i / width). */
  lemma LinearIndexSurjective(i: nat, size: IntegralSize)
    requires i < size.LinearSize()
    ensures size.width > 0
    ensures IntegralCoordinates(i % size.width, i / size.width).IsInSize(size)
    ensures LinearIndex(IntegralCoordinates(i % size.width, i / size.width), size) == i
  {
    var w := size.width;
    assert i == (i / w) * w + i % w;
    if i / w >= size.height {
      MulMonotone(size.height, i / w, w);
    }
  }

  /** The cell whose old content `Flip` (as written) moves to cell `c`. */
  function FlipSource(direction: nat, size: IntegralSize, c: IntegralCoordinates): IntegralCoordinates {
    if direction == Horizontal then
      c.FlipX(size.width)
    else if direction == Vertical then
      c.FlipY(size.height)
    else if direction == HorizontalAndVertical then
      // only rows y < height/2 are visited, so an odd middle row keeps its order
      if size.height % 2 == 1 && c.y == size.height / 2 then c else c.FlipX(size.width).FlipY(size.height)
    else
      c
  }

  /** The cell whose old content moves to cell `c` under the intended flip: for both
      directions, a rotation by half a turn. */
  function RotatedFlipSource(direction: nat, size: IntegralSize, c: IntegralCoordinates): IntegralCoordinates {
    if direction == HorizontalAndVertical then
      c.FlipX(size.width).FlipY(size.height)
    else
      FlipSource(direction, size, c)
  }

  /** The flip source of a cell inside the buffer is inside the buffer, and flipping is an
      involution: the source of the source is the cell itself. */
  lemma FlipSourceInvolution(direction: nat, size: IntegralSize, c: IntegralCoordinates)
    requires c.IsInSize(size)
    ensures FlipSource(direction, size, c).IsInSize(size)
    ensures FlipSource(direction, size, FlipSource(direction, size, c)) == c
    ensures RotatedFlipSource(direction, size, c).IsInSize(size)
    ensures RotatedFlipSource(direction, size, RotatedFlipSource(direction, size, c)) == c
  {
  }

  /** Flipping both ways is flipping horizontally and then vertically. */
  lemma RotatedIsComposition(size: IntegralSize, c: IntegralCoordinates)
    requires c.IsInSize(size)
    ensures RotatedFlipSource(HorizontalAndVertical, size, c)
         == FlipSource(Horizontal, size, FlipSource(Vertical, size, c))
  {
  }

  /** Finding: on a buffer of odd height and width at least 2, `Flip` with both directions
      (as written) leaves the middle row as it was instead of mirroring it. */
  lemma FlipBothMissesMiddleRow(size: IntegralSize)
    requires size.height % 2 == 1 && size.width >= 2
    ensures FlipSource(HorizontalAndVertical, size, IntegralCoordinates(0, size.height / 2)) == IntegralCoordinates(0, size.height / 2)
    ensures RotatedFlipSource(HorizontalAndVertical, size, IntegralCoordinates(0, size.height / 2))
         == IntegralCoordinates(size.width - 1, size.height / 2)
    ensures IntegralCoordinates(size.width - 1, size.height / 2) != IntegralCoordinates(0, size.height / 2)
  {
  }

  /** The cell `c` of a row-major sequence of cells laid out in `size`. */
  function Cell<T>(s: seq<T>, size: IntegralSize, c: IntegralCoordinates): T
    requires |s| == size.LinearSize() && c.IsInSize(size)
  {
    s[LinearIndex(c, size)]
  }

  /** Writing the linear range of `n` cells from column `col` of row `row` leaves every cell
      outside that stretch of the row as it was. */
  lemma RowWriteKeepsOthers<T>(before: seq<T>, after: seq<T>, size: IntegralSize, row: int, col: int, n: nat, start: int, c: IntegralCoordinates)
    requires |before| == size.LinearSize() && |after| == size.LinearSize()
    requires 0 <= col && col + n <= size.width && start == row * size.width + col
    requires forall i :: 0 <= i < |after| && !(start <= i < start + n) ==> after[i] == before[i]
    requires c.IsInSize(size) && !(c.y == row && col <= c.x < col + n)
    ensures Cell(after, size, c) == Cell(before, size, c)
  {
    if c.y < row {
      RowBefore(c.x, c.y, size.width, row);
    } else if c.y > row {
      RowAfter(c.x, c.y, size.width, row);
    }
  }

  // ---- CloneRegion ----

  /** The first `rows` rows of the region copy `dst` hold the cells of region `region` of `src`. */
  ghost predicate RegionRowsCopied<T>(dst: seq<T>, src: seq<T>, size: IntegralSize, region: IntegralRect, rows: int)
    requires |dst| == region.size.LinearSize() && |src| == size.LinearSize()
    requires region.IsContainedInRect(IntegralRect(IntegralCoordinates(0, 0), size))
  {
    forall c: IntegralCoordinates :: c.IsInSize(region.size) && c.y < rows ==>
      Cell(dst, region.size, c) == Cell(src, size, c.Plus(region.origin))
  }

  lemma RegionRowStep<T>(before: seq<T>, after: seq<T>, src: seq<T>, size: IntegralSize, region: IntegralRect, row: nat,
                         srcStart: int, dstStart: int)
    requires |before| == region.size.LinearSize() && |after| == region.size.LinearSize() && |src| == size.LinearSize()
    requires region.IsContainedInRect(IntegralRect(IntegralCoordinates(0, 0), size))
    requires row < region.size.height
    requires srcStart == (row + region.origin.y) * size.width + region.origin.x
    requires dstStart == row * region.size.width
    requires 0 <= dstStart && dstStart + region.size.width <= |after|
    requires 0 <= srcStart && srcStart + region.size.width <= |src|
    requires RegionRowsCopied(before, src, size, region, row)
    requires forall i :: dstStart <= i < dstStart + region.size.width ==> after[i] == src[srcStart + (i - dstStart)]
    requires forall i :: 0 <= i < |after| && !(dstStart <= i < dstStart + region.size.width) ==> after[i] == before[i]
    ensures RegionRowsCopied(after, src, size, region, row + 1)
  {
    var rs := region.size;
    forall c: IntegralCoordinates | c.IsInSize(rs) && c.y < row + 1
      ensures Cell(after, rs, c) == Cell(src, size, c.Plus(region.origin))
    {
      if c.y < row {
        RowWriteKeepsOthers(before, after, rs, row, 0, rs.width, dstStart, c);
      } else {
        RegionCellIndices(size, region, row, srcStart, dstStart, c);
      }
    }
  }

  /** A cell of row `row` of the region copy is at the linear index the row copy wrote, and its
      source cell at the index the row copy read. */
  lemma RegionCellIndices(size: IntegralSize, region: IntegralRect, row: nat, srcStart: int, dstStart: int, c: IntegralCoordinates)
    requires region.IsContainedInRect(IntegralRect(IntegralCoordinates(0, 0), size))
    requires c.IsInSize(region.size) && c.y == row
    requires srcStart == (row + region.origin.y) * size.width + region.origin.x
    requires dstStart == row * region.size.width
    ensures c.Plus(region.origin).IsInSize(size)
    ensures LinearIndex(c, region.size) == dstStart + c.x
    ensures LinearIndex(c.Plus(region.origin), size) == srcStart + c.x
  {
  }

  // ---- BlitFromRegion ----

  /** Rows [0, rows) of the target rectangle of `cur` already hold the source region; every
      other cell of `cur` is the cell of `orig`. */
  ghost predicate BlitRowsDone<T>(cur: seq<T>, orig: seq<T>, size: IntegralSize, src: seq<T>, srcSize: IntegralSize,
                                   region: IntegralRect, targetOrigin: IntegralCoordinates, rows: int)
    requires |cur| == size.LinearSize() && |orig| == size.LinearSize() && |src| == srcSize.LinearSize()
    requires region.IsContainedInRect(IntegralRect(IntegralCoordinates(0, 0), srcSize))
  {
    forall c: IntegralCoordinates :: c.IsInSize(size) ==>
      Cell(cur, size, c) ==
        if IntegralRect(targetOrigin, region.size).Contains(c) && c.y < targetOrigin.y + rows
        then Cell(src, srcSize, c.Minus(targetOrigin).Plus(region.origin))
        else Cell(orig, size, c)
  }

  lemma BlitRowStep<T>(before: seq<T>, after: seq<T>, orig: seq<T>, size: IntegralSize, src: seq<T>, srcSize: IntegralSize,
                       region: IntegralRect, targetOrigin: IntegralCoordinates, row: nat, srcStart: int, dstStart: int)
    requires |before| == size.LinearSize() && |after| == size.LinearSize() && |orig| == size.LinearSize()
    requires |src| == srcSize.LinearSize()
    requires region.IsContainedInRect(IntegralRect(IntegralCoordinates(0, 0), srcSize))
    requires IntegralRect(targetOrigin, region.size).IsContainedInRect(IntegralRect(IntegralCoordinates(0, 0), size))
    requires row < region.size.height
    requires srcStart == (region.origin.y + row) * srcSize.width + region.origin.x
    requires dstStart == (targetOrigin.y + row) * size.width + targetOrigin.x
    requires 0 <= dstStart && dstStart + region.size.width <= |after|
    requires 0 <= srcStart && srcStart + region.size.width <= |src|
    requires BlitRowsDone(before, orig, size, src, srcSize, region, targetOrigin, row)
    requires forall i :: dstStart <= i < dstStart + region.size.width ==> after[i] == src[srcStart + (i - dstStart)]
    requires forall i :: 0 <= i < |after| && !(dstStart <= i < dstStart + region.size.width) ==> after[i] == before[i]
    ensures BlitRowsDone(after, orig, size, src, srcSize, region, targetOrigin, row + 1)
  {
    forall c: IntegralCoordinates | c.IsInSize(size)
      ensures Cell(after, size, c) ==
        if IntegralRect(targetOrigin, region.size).Contains(c) && c.y < targetOrigin.y + row + 1
        then Cell(src, srcSize, c.Minus(targetOrigin).Plus(region.origin))
        else Cell(orig, size, c)
    {
      BlitCellStep(before, after, orig, size, src, srcSize, region, targetOrigin, row, srcStart, dstStart, c);
    }
  }

  /** BlitRowStep at one cell: the cell of row `row` of the target rectangle now holds its source
      cell, and any other cell keeps what it held. */
  lemma BlitCellStep<T>(before: seq<T>, after: seq<T>, orig: seq<T>, size: IntegralSize, src: seq<T>, srcSize: IntegralSize,
                        region: IntegralRect, targetOrigin: IntegralCoordinates, row: nat, srcStart: int, dstStart: int,
                        c: IntegralCoordinates)
    requires |before| == size.LinearSize() && |after| == size.LinearSize() && |orig| == size.LinearSize()
    requires |src| == srcSize.LinearSize()
    requires region.IsContainedInRect(IntegralRect(IntegralCoordinates(0, 0), srcSize))
    requires row < region.size.height
    requires srcStart == (region.origin.y + row) * srcSize.width + region.origin.x
    requires dstStart == (targetOrigin.y + row) * size.width + targetOrigin.x
    requires 0 <= dstStart && dstStart + region.size.width <= |after|
    requires 0 <= srcStart && srcStart + region.size.width <= |src|
    requires c.IsInSize(size)
    requires Cell(before, size, c) ==
        if IntegralRect(targetOrigin, region.size).Contains(c) && c.y < targetOrigin.y + row
        then Cell(src, srcSize, c.Minus(targetOrigin).Plus(region.origin))
        else Cell(orig, size, c)
    requires forall i :: dstStart <= i < dstStart + region.size.width ==> after[i] == src[srcStart + (i - dstStart)]
    requires forall i :: 0 <= i < |after| && !(dstStart <= i < dstStart + region.size.width) ==> after[i] == before[i]
    requires targetOrigin.x >= 0 && targetOrigin.x + region.size.width <= size.width
    ensures Cell(after, size, c) ==
        if IntegralRect(targetOrigin, region.size).Contains(c) && c.y < targetOrigin.y + row + 1
        then Cell(src, srcSize, c.Minus(targetOrigin).Plus(region.origin))
        else Cell(orig, size, c)
  {
    var r := targetOrigin.y + row;
    if c.y == r && targetOrigin.x <= c.x < targetOrigin.x + region.size.width {
      BlitCellIndices(size, srcSize, region, targetOrigin, row, srcStart, dstStart, c);
    } else {
      RowWriteKeepsOthers(before, after, size, r, targetOrigin.x, region.size.width, dstStart, c);
    }
  }

  /** A cell of the written stretch of the target row is at the linear index the row copy
      wrote, and its source cell at the index the row copy read. */
  lemma BlitCellIndices(size: IntegralSize, srcSize: IntegralSize, region: IntegralRect, targetOrigin: IntegralCoordinates,
                        row: nat, srcStart: int, dstStart: int, c: IntegralCoordinates)
    requires region.IsContainedInRect(IntegralRect(IntegralCoordinates(0, 0), srcSize))
    requires c.IsInSize(size) && c.y == targetOrigin.y + row && targetOrigin.x <= c.x < targetOrigin.x + region.size.width
    requires row < region.size.height
    requires srcStart == (region.origin.y + row) * srcSize.width + region.origin.x
    requires dstStart == (targetOrigin.y + row) * size.width + targetOrigin.x
    ensures c.Minus(targetOrigin).Plus(region.origin).IsInSize(srcSize)
    ensures LinearIndex(c, size) == dstStart + (c.x - targetOrigin.x)
    ensures LinearIndex(c.Minus(targetOrigin).Plus(region.origin), srcSize) == srcStart + (c.x - targetOrigin.x)
  {
  }

  /** The stretches of row `row` that a blit reads and writes lie inside the two buffers. */
  lemma BlitRowIndices(srcSize: IntegralSize, size: IntegralSize, region: IntegralRect, targetOrigin: IntegralCoordinates,
                       row: nat)
    requires region.IsContainedInRect(IntegralRect(IntegralCoordinates(0, 0), srcSize))
    requires IntegralRect(targetOrigin, region.size).IsContainedInRect(IntegralRect(IntegralCoordinates(0, 0), size))
    requires row < region.size.height && region.size.width > 0
    ensures var srcStart := (region.origin.y + row) * srcSize.width + region.origin.x;
      0 <= srcStart && srcStart + region.size.width <= srcSize.LinearSize()
    ensures var dstStart := (targetOrigin.y + row) * size.width + targetOrigin.x;
      0 <= dstStart && dstStart + region.size.width <= size.LinearSize()
  {
    var so := region.origin;
    var rs := region.size;
    RowBefore(so.x + rs.width - 1, so.y + row, srcSize.width, srcSize.height);
    RowBefore(targetOrigin.x + rs.width - 1, targetOrigin.y + row, size.width, size.height);
    MulMonotone(0, so.y + row, srcSize.width);
    MulMonotone(0, targetOrigin.y + row, size.width);
  }

  /** One pass of a row-by-row blit: row `row` of the region of `src` is copied into `dst` so
      that the region's corner lands on `targetOrigin`. */
  method BlitRowInto<T>(src: seq<T>, srcSize: IntegralSize, dst: array<T>, size: IntegralSize,
                        region: IntegralRect, targetOrigin: IntegralCoordinates, row: nat, ghost orig: seq<T>)
    requires |src| == srcSize.LinearSize() && dst.Length == size.LinearSize() && |orig| == size.LinearSize()
    requires region.IsContainedInRect(IntegralRect(IntegralCoordinates(0, 0), srcSize))
    requires IntegralRect(targetOrigin, region.size).IsContainedInRect(IntegralRect(IntegralCoordinates(0, 0), size))
    requires row < region.size.height
    requires BlitRowsDone(dst[..], orig, size, src, srcSize, region, targetOrigin, row)
    modifies dst
    ensures BlitRowsDone(dst[..], orig, size, src, srcSize, region, targetOrigin, row + 1)
  {
    var rs := region.size;
    var so := region.origin;
    ghost var before := dst[..];
    if rs.width > 0 {
      var sourceLinearIndex := (so.y + row) * srcSize.width + so.x;
      var targetLinearIndex := (targetOrigin.y + row) * size.width + targetOrigin.x;
      BlitRowIndices(srcSize, size, region, targetOrigin, row);
      Copy(src, sourceLinearIndex, dst, targetLinearIndex, rs.width);
      BlitRowStep(before, dst[..], orig, size, src, srcSize, region, targetOrigin, row, sourceLinearIndex, targetLinearIndex);
    } else {
      BlitRowsNoWidth(before, orig, size, src, srcSize, region, targetOrigin, row);
    }
  }

  /** A region with no columns has nothing to copy in any row. */
  lemma BlitRowsNoWidth<T>(cur: seq<T>, orig: seq<T>, size: IntegralSize, src: seq<T>, srcSize: IntegralSize,
                           region: IntegralRect, targetOrigin: IntegralCoordinates, row: int)
    requires |cur| == size.LinearSize() && |orig| == size.LinearSize() && |src| == srcSize.LinearSize()
    requires region.IsContainedInRect(IntegralRect(IntegralCoordinates(0, 0), srcSize))
    requires region.size.width == 0
    requires BlitRowsDone(cur, orig, size, src, srcSize, region, targetOrigin, row)
    ensures BlitRowsDone(cur, orig, size, src, srcSize, region, targetOrigin, row + 1)
  {
    forall c: IntegralCoordinates | c.IsInSize(size)
      ensures !IntegralRect(targetOrigin, region.size).Contains(c)
    {
    }
  }

  // ---- MakeReframed ----

  /** The value MakeReframed puts at new cell `c`: the old cell at `c - originOffset` when
      there is one, else the filler. */
  function ReframedCell<T>(prev: seq<T>, size: IntegralSize, originOffset: IntegralCoordinates, fillerValue: T, c: IntegralCoordinates): T
    requires |prev| == size.LinearSize()
  {
    if c.Minus(originOffset).IsInSize(size) then Cell(prev, size, c.Minus(originOffset)) else fillerValue
  }

  /** The cells of `dst` before (nx, ny) in row-major order are the reframed cells. */
  ghost predicate ReframedUpTo<T>(dst: seq<T>, newSize: IntegralSize, prev: seq<T>, size: IntegralSize,
                                   originOffset: IntegralCoordinates, fillerValue: T, nx: int, ny: int)
    requires |dst| == newSize.LinearSize() && |prev| == size.LinearSize()
  {
    forall c: IntegralCoordinates :: c.IsInSize(newSize) && (c.y < ny || (c.y == ny && c.x < nx)) ==>
      Cell(dst, newSize, c) == ReframedCell(prev, size, originOffset, fillerValue, c)
  }

  lemma ReframedStep<T>(before: seq<T>, after: seq<T>, newSize: IntegralSize, prev: seq<T>, size: IntegralSize,
                        originOffset: IntegralCoordinates, fillerValue: T, nx: nat, ny: nat)
    requires |before| == newSize.LinearSize() && |prev| == size.LinearSize()
    requires nx < newSize.width && ny < newSize.height
    requires ReframedUpTo(before, newSize, prev, size, originOffset, fillerValue, nx, ny)
    requires after == before[LinearIndex(IntegralCoordinates(nx, ny), newSize) :=
                               ReframedCell(prev, size, originOffset, fillerValue, IntegralCoordinates(nx, ny))]
    ensures ReframedUpTo(after, newSize, prev, size, originOffset, fillerValue, nx + 1, ny)
  {
    var cell := IntegralCoordinates(nx, ny);
    forall c: IntegralCoordinates | c.IsInSize(newSize) && (c.y < ny || (c.y == ny && c.x < nx + 1))
      ensures Cell(after, newSize, c) == ReframedCell(prev, size, originOffset, fillerValue, c)
    {
      if c != cell && LinearIndex(c, newSize) == LinearIndex(cell, newSize) {
        LinearIndexInjective(c, cell, newSize);
      }
    }
  }

  lemma ReframedNextRow<T>(dst: seq<T>, newSize: IntegralSize, prev: seq<T>, size: IntegralSize,
                           originOffset: IntegralCoordinates, fillerValue: T, ny: int)
    requires |dst| == newSize.LinearSize() && |prev| == size.LinearSize()
    requires ReframedUpTo(dst, newSize, prev, size, originOffset, fillerValue, newSize.width, ny)
    ensures ReframedUpTo(dst, newSize, prev, size, originOffset, fillerValue, 0, ny + 1)
  {
  }

  // ---- Flip ----

  /** The cell that the flip loop Flip<H, V> swaps cell `c` with. */
  function Partner(size: IntegralSize, H: bool, V: bool, c: IntegralCoordinates): IntegralCoordinates {
    var cx := if H then c.FlipX(size.width) else c;
    if V then cx.FlipY(size.height) else cx
  }

  /** The loop bounds of Flip<H, V>: columns [0, xMax) of rows [0, yMax) are visited. */
  function XMax(size: IntegralSize, H: bool, V: bool): nat {
    if H && !V then size.width / 2 else size.width
  }

  function YMax(size: IntegralSize, V: bool): nat {
    if V then size.height / 2 else size.height
  }

  predicate Visited(size: IntegralSize, H: bool, V: bool, c: IntegralCoordinates) {
    0 <= c.x < XMax(size, H, V) && 0 <= c.y < YMax(size, V)
  }

  /** Whether the loop has visited cell `c` by the time it is about to visit (x, y). */
  predicate Done(size: IntegralSize, H: bool, V: bool, x: int, y: int, c: IntegralCoordinates) {
    Visited(size, H, V, c) && (c.y < y || (c.y == y && c.x < x))
  }

  /** The cell whose original content is at `c` when the loop is about to visit (x, y). */
  function FlipTarget(size: IntegralSize, H: bool, V: bool, x: int, y: int, c: IntegralCoordinates): IntegralCoordinates {
    if Done(size, H, V, x, y, c) || Done(size, H, V, x, y, Partner(size, H, V, c)) then Partner(size, H, V, c) else c
  }

  /** Partners lie in the buffer, partnering is an involution, and the partner of a visited
      cell is never visited itself: no pair is swapped twice. */
  lemma PartnerFacts(size: IntegralSize, H: bool, V: bool, c: IntegralCoordinates)
    requires H || V
    requires c.IsInSize(size)
    ensures Partner(size, H, V, c).IsInSize(size)
    ensures Partner(size, H, V, Partner(size, H, V, c)) == c
    ensures Visited(size, H, V, c) ==> !Visited(size, H, V, Partner(size, H, V, c))
    ensures !Visited(size, H, V, c) && !Visited(size, H, V, Partner(size, H, V, c)) ==>
              (Partner(size, H, V, c) == c || (H && V && size.height % 2 == 1 && c.y == size.height / 2))
  {
  }

  ghost predicate FlipInvariant<T>(cur: seq<T>, orig: seq<T>, size: IntegralSize, H: bool, V: bool, x: int, y: int)
    requires H || V
    requires |cur| == size.LinearSize() && |orig| == size.LinearSize()
  {
    forall c: IntegralCoordinates :: c.IsInSize(size) ==>
      Partner(size, H, V, c).IsInSize(size) && Cell(cur, size, c) == Cell(orig, size, FlipTarget(size, H, V, x, y, c))
  }

  lemma FlipStep<T>(cur: seq<T>, next: seq<T>, orig: seq<T>, size: IntegralSize, H: bool, V: bool, x: nat, y: nat)
    requires H || V
    requires |cur| == size.LinearSize() && |next| == size.LinearSize() && |orig| == size.LinearSize()
    requires x < XMax(size, H, V) && y < YMax(size, V)
    requires FlipInvariant(cur, orig, size, H, V, x, y)
    requires IntegralCoordinates(x, y).IsInSize(size) && Partner(size, H, V, IntegralCoordinates(x, y)).IsInSize(size)
    requires Cell(next, size, IntegralCoordinates(x, y)) == Cell(cur, size, Partner(size, H, V, IntegralCoordinates(x, y)))
    requires Cell(next, size, Partner(size, H, V, IntegralCoordinates(x, y))) == Cell(cur, size, IntegralCoordinates(x, y))
    requires forall c: IntegralCoordinates :: c.IsInSize(size) && c != IntegralCoordinates(x, y) && c != Partner(size, H, V, IntegralCoordinates(x, y)) ==>
               Cell(next, size, c) == Cell(cur, size, c)
    ensures FlipInvariant(next, orig, size, H, V, x + 1, y)
  {
    var a := IntegralCoordinates(x, y);
    forall c: IntegralCoordinates | c.IsInSize(size)
      ensures Partner(size, H, V, c).IsInSize(size) && Cell(next, size, c) == Cell(orig, size, FlipTarget(size, H, V, x + 1, y, c))
    {
      PartnerFacts(size, H, V, c);
      FlipTargetStep(size, H, V, x, y, c);
      if c == a {
        assert Cell(next, size, c) == Cell(cur, size, Partner(size, H, V, a));
      } else if c == Partner(size, H, V, a) {
        assert Cell(next, size, c) == Cell(cur, size, a);
      } else {
        assert Cell(next, size, c) == Cell(cur, size, c);
      }
    }
  }

  /** How one swap of the flip loop at (x, y) moves the targets: only the visited cell and
      its partner change. */
  lemma FlipTargetStep(size: IntegralSize, H: bool, V: bool, x: nat, y: nat, c: IntegralCoordinates)
    requires H || V
    requires x < XMax(size, H, V) && y < YMax(size, V) && c.IsInSize(size)
    ensures var a := IntegralCoordinates(x, y);
      && (c == a ==> FlipTarget(size, H, V, x + 1, y, c) == Partner(size, H, V, a)
                     && FlipTarget(size, H, V, x, y, Partner(size, H, V, a)) == Partner(size, H, V, a))
      && (c == Partner(size, H, V, a) ==> FlipTarget(size, H, V, x + 1, y, c) == a && FlipTarget(size, H, V, x, y, a) == a)
      && (c != a && c != Partner(size, H, V, a) ==> FlipTarget(size, H, V, x + 1, y, c) == FlipTarget(size, H, V, x, y, c))
  {
    var a := IntegralCoordinates(x, y);
    PartnerFacts(size, H, V, a);
    PartnerFacts(size, H, V, c);
  }

  lemma FlipInit<T>(s: seq<T>, size: IntegralSize, H: bool, V: bool)
    requires H || V
    requires |s| == size.LinearSize()
    ensures FlipInvariant(s, s, size, H, V, 0, 0)
  {
    forall c: IntegralCoordinates | c.IsInSize(size)
      ensures Partner(size, H, V, c).IsInSize(size)
    {
      PartnerFacts(size, H, V, c);
    }
  }

  lemma FlipNextRow<T>(cur: seq<T>, orig: seq<T>, size: IntegralSize, H: bool, V: bool, y: int)
    requires H || V
    requires |cur| == size.LinearSize() && |orig| == size.LinearSize()
    requires FlipInvariant(cur, orig, size, H, V, XMax(size, H, V), y)
    ensures FlipInvariant(cur, orig, size, H, V, 0, y + 1)
  {
    forall c: IntegralCoordinates | c.IsInSize(size)
      ensures FlipTarget(size, H, V, XMax(size, H, V), y, c) == FlipTarget(size, H, V, 0, y + 1, c)
    {
      PartnerFacts(size, H, V, c);
    }
  }

  /** Cells (x', y) with x' < x or x' > width - 1 - x of row `y` of `cur` are mirrored from
      `orig`; every other cell is as in `orig`. */
  ghost predicate MirroredUpTo<T>(cur: seq<T>, orig: seq<T>, size: IntegralSize, y: int, x: int)
    requires |cur| == size.LinearSize() && |orig| == size.LinearSize()
  {
    forall c: IntegralCoordinates :: c.IsInSize(size) ==> MirroredAt(cur, orig, size, y, x, c)
  }

  /** Cell `c` holds its mirror's original value when it is among the first or last `x` cells
      of row `y`, and its own original value otherwise. */
  ghost predicate MirroredAt<T>(cur: seq<T>, orig: seq<T>, size: IntegralSize, y: int, x: int, c: IntegralCoordinates)
    requires |cur| == size.LinearSize() && |orig| == size.LinearSize() && c.IsInSize(size)
  {
    Cell(cur, size, c) == if c.y == y && (c.x < x || size.width - 1 - c.x < x)
                          then Cell(orig, size, c.FlipX(size.width)) else Cell(orig, size, c)
  }

  lemma MirrorStep<T>(cur: seq<T>, next: seq<T>, orig: seq<T>, size: IntegralSize, y: nat, x: nat)
    requires |cur| == size.LinearSize() && |next| == size.LinearSize() && |orig| == size.LinearSize()
    requires x < size.width / 2 && y < size.height
    requires MirroredUpTo(cur, orig, size, y, x)
    requires Cell(next, size, IntegralCoordinates(x, y)) == Cell(cur, size, IntegralCoordinates(size.width - 1 - x, y))
    requires Cell(next, size, IntegralCoordinates(size.width - 1 - x, y)) == Cell(cur, size, IntegralCoordinates(x, y))
    requires forall c: IntegralCoordinates :: c.IsInSize(size) && c != IntegralCoordinates(x, y) && c != IntegralCoordinates(size.width - 1 - x, y) ==>
               Cell(next, size, c) == Cell(cur, size, c)
    ensures MirroredUpTo(next, orig, size, y, x + 1)
  {
    forall c: IntegralCoordinates | c.IsInSize(size)
      ensures MirroredAt(next, orig, size, y, x + 1, c)
    {
      var m := c.FlipX(size.width);
      assert MirroredAt(cur, orig, size, y, x, c) && MirroredAt(cur, orig, size, y, x, m);
      MirrorCellStep(cur, next, orig, size, y, x, c);
    }
  }

  /** MirrorStep at one cell. */
  lemma MirrorCellStep<T>(cur: seq<T>, next: seq<T>, orig: seq<T>, size: IntegralSize, y: nat, x: nat, c: IntegralCoordinates)
    requires |cur| == size.LinearSize() && |next| == size.LinearSize() && |orig| == size.LinearSize()
    requires x < size.width / 2 && y < size.height && c.IsInSize(size)
    requires MirroredAt(cur, orig, size, y, x, c) && MirroredAt(cur, orig, size, y, x, c.FlipX(size.width))
    requires c == IntegralCoordinates(x, y) ==> Cell(next, size, c) == Cell(cur, size, IntegralCoordinates(size.width - 1 - x, y))
    requires c == IntegralCoordinates(size.width - 1 - x, y) ==> Cell(next, size, c) == Cell(cur, size, IntegralCoordinates(x, y))
    requires c != IntegralCoordinates(x, y) && c != IntegralCoordinates(size.width - 1 - x, y) ==> Cell(next, size, c) == Cell(cur, size, c)
    ensures MirroredAt(next, orig, size, y, x + 1, c)
  {
    assert c.FlipX(size.width).FlipX(size.width) == c;
  }


  /** Once the loop has passed half the row, the whole row is mirrored: an odd middle cell
      is its own mirror. */
  lemma MirrorFinal<T>(cur: seq<T>, orig: seq<T>, size: IntegralSize, y: nat)
    requires |cur| == size.LinearSize() && |orig| == size.LinearSize()
    requires MirroredUpTo(cur, orig, size, y, size.width / 2)
    ensures forall c: IntegralCoordinates :: c.IsInSize(size) ==>
              Cell(cur, size, c) == if c.y == y then Cell(orig, size, c.FlipX(size.width)) else Cell(orig, size, c)
  {
    forall c: IntegralCoordinates | c.IsInSize(size)
      ensures Cell(cur, size, c) == if c.y == y then Cell(orig, size, c.FlipX(size.width)) else Cell(orig, size, c)
    {
      if c.y == y && !(c.x < size.width / 2 || size.width - 1 - c.x < size.width / 2) {
        assert c.FlipX(size.width) == c;
      }
    }
  }

  /** The direction value that selects Flip<H, V>. */
  function DirectionOf(H: bool, V: bool): nat {
    if H && V then HorizontalAndVertical else if H then Horizontal else Vertical
  }

  lemma FlipFinal<T>(cur: seq<T>, orig: seq<T>, size: IntegralSize, H: bool, V: bool)
    requires H || V
    requires |cur| == size.LinearSize() && |orig| == size.LinearSize()
    requires FlipInvariant(cur, orig, size, H, V, 0, YMax(size, V))
    ensures forall c: IntegralCoordinates :: c.IsInSize(size) ==>
              FlipSource(DirectionOf(H, V), size, c).IsInSize(size) &&
              Cell(cur, size, c) == Cell(orig, size, FlipSource(DirectionOf(H, V), size, c))
  {
    forall c: IntegralCoordinates | c.IsInSize(size)
      ensures FlipSource(DirectionOf(H, V), size, c).IsInSize(size) &&
              Cell(cur, size, c) == Cell(orig, size, FlipSource(DirectionOf(H, V), size, c))
    {
      PartnerFacts(size, H, V, c);
      FlipSourceInvolution(DirectionOf(H, V), size, c);
    }
  }

  class Buffer2D<T(0)> {
    const Size: IntegralSize
    const Data: array<T>

    ghost predicate Valid()
      reads this
    {
      Data.Length == Size.LinearSize()
    }

    /** Buffer2D(width, height): storage for width*height (value-initialised) cells. */
    constructor (width: nat, height: nat)
      ensures Valid() && fresh(Data)
      ensures Size == IntegralSize(width, height)
    {
      Size := IntegralSize(width, height);
      Data := new T[width * height];
    }

    /** Buffer2D(width, height, defaultValue): every cell holds `defaultValue`. */
    constructor Filled(width: nat, height: nat, defaultValue: T)
      ensures Valid() && fresh(Data)
      ensures Size == IntegralSize(width, height)
      ensures forall c: IntegralCoordinates :: c.IsInSize(Size) ==> At(c) == defaultValue
    {
      Size := IntegralSize(width, height);
      Data := new T[width * height];
      new;
      var i := 0;
      while i < Data.Length
        invariant 0 <= i <= Data.Length
        invariant forall j :: 0 <= j < i ==> Data[j] == defaultValue
      {
        Data[i] := defaultValue;
        i := i + 1;
      }
    }

    /** Buffer2D(size, data): adopts `data`, which holds width*height cells. */
    constructor FromData(size: IntegralSize, data: array<T>)
      requires data.Length == size.LinearSize()
      ensures Valid()
      ensures Size == size && Data == data
    {
      Size := size;
      Data := data;
    }

    /** operator[]: the cell at `c`, which must lie inside the buffer. */
    function At(c: IntegralCoordinates): T
      requires Valid() && c.IsInSize(Size)
      reads this, Data
    {
      Cell(Data[..], Size, c)
    }

    /** A copy of the buffer: same size, same cells. */
    method Clone() returns (r: Buffer2D<T>)
      requires Valid()
      ensures fresh(r) && fresh(r.Data) && r.Valid()
      ensures r.Size == Size
      ensures forall c: IntegralCoordinates :: c.IsInSize(Size) ==> r.At(c) == At(c)
    {
      var newData := new T[Data.Length];
      Copy(Data[..], 0, newData, 0, Data.Length);
      assert newData[..] == Data[..];
      r := new Buffer2D.FromData(Size, newData);
    }

    /** A copy of the region `regionRect` of this buffer: its size is the region's and its
        cell (x, y) is this buffer's cell (x + origin.x, y + origin.y). */
    method CloneRegion(regionRect: IntegralRect) returns (r: Buffer2D<T>)
      requires Valid()
      requires regionRect.IsContainedInRect(IntegralRect(IntegralCoordinates(0, 0), Size))
      ensures fresh(r) && fresh(r.Data) && r.Valid()
      ensures r.Size == regionRect.size
      ensures forall c: IntegralCoordinates :: c.IsInSize(regionRect.size) ==>
                c.Plus(regionRect.origin).IsInSize(Size) && r.At(c) == At(c.Plus(regionRect.origin))
    {
      var rs := regionRect.size;
      var o := regionRect.origin;
      var newData := new T[rs.width * rs.height];
      var targetY := 0;
      while targetY < rs.height
        invariant 0 <= targetY <= rs.height
        invariant RegionRowsCopied(newData[..], Data[..], Size, regionRect, targetY)
      {
        CopyRegionRow(regionRect, newData, targetY);
        targetY := targetY + 1;
      }
      r := new Buffer2D.FromData(rs, newData);
    }

    /** One pass of the CloneRegion loop: row `targetY` of the region goes to row `targetY`
        of `newData`. */
    method CopyRegionRow(regionRect: IntegralRect, newData: array<T>, targetY: nat)
      requires Valid() && newData != Data
      requires regionRect.IsContainedInRect(IntegralRect(IntegralCoordinates(0, 0), Size))
      requires newData.Length == regionRect.size.LinearSize() && targetY < regionRect.size.height
      requires RegionRowsCopied(newData[..], Data[..], Size, regionRect, targetY)
      modifies newData
      ensures RegionRowsCopied(newData[..], Data[..], Size, regionRect, targetY + 1)
    {
      var rs := regionRect.size;
      var o := regionRect.origin;
      ghost var before := newData[..];
      if rs.width > 0 {
        var sourceLinearIndex := (targetY + o.y) * Size.width + o.x;
        var targetLinearIndex := targetY * rs.width;
        RowBefore(rs.width - 1, targetY, rs.width, rs.height);
        RowBefore(o.x + rs.width - 1, targetY + o.y, Size.width, Size.height);
        MulMonotone(0, targetY + o.y, Size.width);
        MulMonotone(0, targetY, rs.width);
        Copy(Data[..], sourceLinearIndex, newData, targetLinearIndex, rs.width);
        RegionRowStep(before, newData[..], Data[..], Size, regionRect, targetY, sourceLinearIndex, targetLinearIndex);
      }
    }

    /** Copies the region `sourceRegion` of `source` so that its corner lands on `targetOrigin`;
        every cell outside the target rectangle keeps its value. */
    method BlitFromRegion(source: Buffer2D<T>, sourceRegion: IntegralRect, targetOrigin: IntegralCoordinates)
      requires Valid() && source.Valid()
      requires sourceRegion.IsContainedInRect(IntegralRect(IntegralCoordinates(0, 0), source.Size))
      requires IntegralRect(targetOrigin, sourceRegion.size).IsContainedInRect(IntegralRect(IntegralCoordinates(0, 0), Size))
      // A blit of a buffer into itself: the rows memcpy reads are never the rows it writes.
      requires source.Data == Data ==>
                 source.Size == Size && sourceRegion.IsDisjointFrom(IntegralRect(targetOrigin, sourceRegion.size))
      modifies Data
      ensures forall c: IntegralCoordinates :: c.IsInSize(Size) ==>
                if IntegralRect(targetOrigin, sourceRegion.size).Contains(c)
                then c.Minus(targetOrigin).Plus(sourceRegion.origin).IsInSize(source.Size)
                     && At(c) == old(source.At(c.Minus(targetOrigin).Plus(sourceRegion.origin)))
                else At(c) == old(At(c))
    {
      // Under the requires no source cell is overwritten before it is read, so reading the
      // source as it was on entry is reading it as it is.
      var sourceCells := source.Data[..];
      var rs := sourceRegion.size;
      var sourceRegionY := 0;
      while sourceRegionY < rs.height
        invariant 0 <= sourceRegionY <= rs.height
        invariant BlitRowsDone(Data[..], old(Data[..]), Size, sourceCells, source.Size, sourceRegion, targetOrigin, sourceRegionY)
      {
        BlitRowInto(sourceCells, source.Size, Data, Size, sourceRegion, targetOrigin, sourceRegionY, old(Data[..]));
        sourceRegionY := sourceRegionY + 1;
      }
    }

    /** A buffer of `newSize` in which this buffer's cell (0, 0) sits at `originOffset`: new cell
        (nx, ny) holds old cell (nx - ox, ny - oy) where that cell exists and `fillerValue`
        elsewhere. Negative offsets crop. */
    method MakeReframed(newSize: IntegralSize, originOffset: IntegralCoordinates, fillerValue: T) returns (r: Buffer2D<T>)
      requires Valid()
      ensures fresh(r) && fresh(r.Data) && r.Valid()
      ensures r.Size == newSize
      ensures forall c: IntegralCoordinates :: c.IsInSize(newSize) ==>
                r.At(c) == if c.Minus(originOffset).IsInSize(Size) then At(c.Minus(originOffset)) else fillerValue
    {
      var newData := new T[newSize.width * newSize.height];
      var ny := 0;
      while ny < newSize.height
        invariant 0 <= ny <= newSize.height
        invariant ReframedUpTo(newData[..], newSize, Data[..], Size, originOffset, fillerValue, 0, ny)
      {
        ReframeRow(newSize, originOffset, fillerValue, newData, ny);
        ReframedNextRow(newData[..], newSize, Data[..], Size, originOffset, fillerValue, ny);
        ny := ny + 1;
      }
      r := new Buffer2D.FromData(newSize, newData);
    }

    /** The inner loop of MakeReframed: fills row `ny` of `newData`. */
    method ReframeRow(newSize: IntegralSize, originOffset: IntegralCoordinates, fillerValue: T, newData: array<T>, ny: nat)
      requires Valid() && newData != Data
      requires newData.Length == newSize.LinearSize() && ny < newSize.height
      requires ReframedUpTo(newData[..], newSize, Data[..], Size, originOffset, fillerValue, 0, ny)
      modifies newData
      ensures ReframedUpTo(newData[..], newSize, Data[..], Size, originOffset, fillerValue, newSize.width, ny)
    {
      var leftFillerWRange := originOffset.x;
      var rightFillerWRange := Min(originOffset.x + Size.width, newSize.width);
      var leftFillerHRange := originOffset.y;
      var rightFillerHRange := Min(originOffset.y + Size.height, newSize.height);
      var oldYOffset := (ny - leftFillerHRange) * Size.width;
      var newYOffset := ny * newSize.width;
      var nx := 0;
      while nx < newSize.width
        invariant 0 <= nx <= newSize.width
        invariant ReframedUpTo(newData[..], newSize, Data[..], Size, originOffset, fillerValue, nx, ny)
      {
        var cell := IntegralCoordinates(nx, ny);
        assert LinearIndex(cell, newSize) == newYOffset + nx;
        ghost var before := newData[..];
        if nx < leftFillerWRange || nx >= rightFillerWRange || ny < leftFillerHRange || ny >= rightFillerHRange {
          newData[newYOffset + nx] := fillerValue;
        } else {
          assert LinearIndex(cell.Minus(originOffset), Size) == oldYOffset + nx - leftFillerWRange;
          newData[newYOffset + nx] := Data[oldYOffset + nx - leftFillerWRange];
        }
        assert newData[..] == before[newYOffset + nx := ReframedCell(Data[..], Size, originOffset, fillerValue, cell)];
        ReframedStep(before, newData[..], newSize, Data[..], Size, originOffset, fillerValue, nx, ny);
        nx := nx + 1;
      }
    }

    /** Flips the buffer in place (as written): horizontally, vertically, or both; any other
        direction value leaves the buffer unchanged. */
    method Flip(direction: nat)
      requires Valid()
      modifies Data
      ensures forall c: IntegralCoordinates :: c.IsInSize(Size) ==>
                FlipSource(direction, Size, c).IsInSize(Size) && At(c) == old(At(FlipSource(direction, Size, c)))
    {
      if direction == Horizontal {
        FlipCells(true, false);
      } else if direction == Vertical {
        FlipCells(false, true);
      } else if direction == HorizontalAndVertical {
        FlipCells(true, true);
      }
    }

    /** Flips the buffer in place as intended: for both directions, every row is mirrored
        too, so that the result is the buffer turned by half a turn. */
    method FlipRotated(direction: nat)
      requires Valid()
      modifies Data
      ensures forall c: IntegralCoordinates :: c.IsInSize(Size) ==>
                RotatedFlipSource(direction, Size, c).IsInSize(Size)
                && At(c) == old(At(RotatedFlipSource(direction, Size, c)))
    {
      Flip(direction);
      if direction == HorizontalAndVertical && Size.height % 2 == 1 {
        ghost var mid := Data[..];
        MirrorRow(Size.height / 2);
        forall c: IntegralCoordinates | c.IsInSize(Size)
          ensures RotatedFlipSource(direction, Size, c).IsInSize(Size)
                  && At(c) == old(At(RotatedFlipSource(direction, Size, c)))
        {
          if c.y == Size.height / 2 {
            assert At(c) == Cell(mid, Size, c.FlipX(Size.width));
          } else {
            assert At(c) == Cell(mid, Size, c);
          }
        }
      }
    }

    /** Mirrors row `y` horizontally in place; no other row changes. */
    method MirrorRow(y: nat)
      requires Valid() && y < Size.height
      modifies Data
      ensures forall c: IntegralCoordinates :: c.IsInSize(Size) ==>
                At(c) == if c.y == y then old(At(c.FlipX(Size.width))) else old(At(c))
    {
      var x := 0;
      while x < Size.width / 2
        invariant 0 <= x <= Size.width / 2
        invariant MirroredUpTo(Data[..], old(Data[..]), Size, y, x)
      {
        ghost var cur := Data[..];
        Swap(IntegralCoordinates(x, y), IntegralCoordinates(Size.width - 1 - x, y));
        MirrorStep(cur, Data[..], old(Data[..]), Size, y, x);
        x := x + 1;
      }
      MirrorFinal(Data[..], old(Data[..]), Size, y);
    }

    /** The loop of Flip<H, V>: visit every cell (x, y) with x < xMax and y < yMax and swap it
        with its partner. */
    method FlipCells(H: bool, V: bool)
      requires Valid() && (H || V)
      modifies Data
      ensures forall c: IntegralCoordinates :: c.IsInSize(Size) ==>
                FlipSource(DirectionOf(H, V), Size, c).IsInSize(Size)
                && At(c) == old(At(FlipSource(DirectionOf(H, V), Size, c)))
    {
      var xMax := if H && !V then Size.width / 2 else Size.width;
      var yMax := if V then Size.height / 2 else Size.height;
      ghost var orig := Data[..];
      FlipInit(orig, Size, H, V);
      var y := 0;
      while y < yMax
        invariant 0 <= y <= yMax
        invariant FlipInvariant(Data[..], orig, Size, H, V, 0, y)
      {
        FlipRow(H, V, y, orig);
        FlipNextRow(Data[..], orig, Size, H, V, y);
        y := y + 1;
      }
      FlipFinal(Data[..], orig, Size, H, V);
    }

    /** The inner loop of Flip<H, V>: swaps every visited cell of row `y` with its partner. */
    method FlipRow(H: bool, V: bool, y: nat, ghost orig: seq<T>)
      requires Valid() && (H || V) && y < YMax(Size, V) && |orig| == Size.LinearSize()
      requires FlipInvariant(Data[..], orig, Size, H, V, 0, y)
      modifies Data
      ensures FlipInvariant(Data[..], orig, Size, H, V, XMax(Size, H, V), y)
    {
      var xMax := if H && !V then Size.width / 2 else Size.width;
      var x := 0;
      while x < xMax
        invariant 0 <= x <= xMax
        invariant FlipInvariant(Data[..], orig, Size, H, V, x, y)
      {
        var src := IntegralCoordinates(x, y);
        var dst := Partner(Size, H, V, src);
        PartnerFacts(Size, H, V, src);
        ghost var cur := Data[..];
        Swap(src, dst);
        FlipStep(cur, Data[..], orig, Size, H, V, x, y);
        x := x + 1;
      }
    }

    /** std::swap of two cells of the buffer. */
    method Swap(a: IntegralCoordinates, b: IntegralCoordinates)
      requires Valid() && a.IsInSize(Size) && b.IsInSize(Size)
      modifies Data
      ensures At(a) == old(At(b)) && At(b) == old(At(a))
      ensures forall c: IntegralCoordinates :: c.IsInSize(Size) && c != a && c != b ==> At(c) == old(At(c))
    {
      var ia := LinearIndex(a, Size);
      var ib := LinearIndex(b, Size);
      Data[ia], Data[ib] := Data[ib], Data[ia];
      forall c: IntegralCoordinates | c.IsInSize(Size) && c != a && c != b
        ensures At(c) == old(At(c))
      {
        if LinearIndex(c, Size) == ia {
          LinearIndexInjective(c, a, Size);
        }
        if LinearIndex(c, Size) == ib {
          LinearIndexInjective(c, b, Size);
        }
      }
    }
  }

  function Min(a: int, b: int): int {
    if a <= b then a else b
  }

  /** Flipping twice in the same direction restores the buffer. */
  method FlipTwice<T(0)>(b: Buffer2D<T>, direction: nat)
    requires b.Valid()
    modifies b.Data
    ensures forall c: IntegralCoordinates :: c.IsInSize(b.Size) ==> b.At(c) == old(b.At(c))
  {
    b.Flip(direction);
    ghost var middle := b.Data[..];
    b.Flip(direction);
    forall c: IntegralCoordinates | c.IsInSize(b.Size)
      ensures b.At(c) == old(b.At(c))
    {
      FlipSourceInvolution(direction, b.Size, c);
      assert b.At(c) == Cell(middle, b.Size, FlipSource(direction, b.Size, c));
    }
  }
}
