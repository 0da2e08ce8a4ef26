/** Texture atlas building (Game/TextureAtlas-inl.h): the placement of texture frames in an
    atlas image, either packed by height in stacks of columns (BuildAtlasSpecification) or in
    a regular grid of equal frames (BuildRegularAtlasSpecification), and the copy of the
    frames' pixels into the atlas image (CopyImage, BuildAtlas). */
module TextureAtlas {
  import opened Wrappers
  import opened Memory
  import opened Buffer2D
  import opened Colors

  // ---- Powers of two ----

  predicate IsPowerOfTwo(n: int)
    decreases if n > 0 then n else 0
  {
    n == 1 || (n >= 2 && n % 2 == 0 && IsPowerOfTwo(n / 2))
  }

  /** ceil_power_of_two: the smallest power of two that is at least `n` (1 for n <= 1). */
  function CeilPowerOfTwo(n: int): (p: int)
    ensures IsPowerOfTwo(p) && p >= 1 && p >= n
    ensures n >= 1 ==> p < 2 * n
    decreases if n > 1 then n else 0
  {
    if n <= 1 then 1 else 2 * CeilPowerOfTwo((n + 1) / 2)
  }

  /** The source's test `n == ceil_power_of_two(n)` holds exactly for the powers of two. */
  lemma {:induction false} PowerOfTwoIffFixed(n: int)
    ensures IsPowerOfTwo(n) <==> CeilPowerOfTwo(n) == n
    decreases if n > 0 then n else 0
  {
    if IsPowerOfTwo(n) && n >= 2 {
      PowerOfTwoIffFixed(n / 2);
      assert (n + 1) / 2 == n / 2;
    }
  }

  /** Euclidean division is unique. */
  lemma DivModUnique(x: int, a: int, q: int, r: int)
    requires a > 0 && 0 <= r < a && x == a * q + r
    ensures x / a == q && x % a == r
  {
    var q', r' := x / a, x % a;
    assert a * q' + r' == a * q + r;
    if q' > q {
      assert a * (q' - q) == r - r';
      MulMonotone(1, q' - q, a);
    } else if q' < q {
      assert a * (q - q') == r' - r;
      MulMonotone(1, q - q', a);
    }
  }

  /** A smaller power of two divides a larger one. */
  lemma {:induction false} PowerOfTwoDivides(a: int, b: int)
    requires IsPowerOfTwo(a) && IsPowerOfTwo(b) && b <= a
    ensures a % b == 0
    decreases a
  {
    if b == 1 {
      DivModUnique(a, 1, a, 0);
    } else {
      PowerOfTwoDivides(a / 2, b / 2);
      var k := (a / 2) / (b / 2);
      assert a / 2 == (b / 2) * k;
      assert a == b * k;
      DivModUnique(a, b, k, 0);
    }
  }

  /** Multiples of a multiple of `d` are multiples of `d`. */
  lemma DividesTrans(x: int, h: int, d: int)
    requires h > 0 && d > 0 && x % h == 0 && h % d == 0
    ensures x % d == 0
  {
    var k := x / h;
    var m := h / d;
    assert x == h * k;
    assert h == d * m;
    assert x == d * (m * k);
    DivModUnique(x, d, m * k, 0);
  }

  /** A positive multiple of `h` is at least `h`, and taking `h` away leaves a multiple. */
  lemma MultipleFacts(g: int, h: int)
    requires h > 0 && g % h == 0
    ensures g > 0 ==> g >= h
    ensures (g - h) % h == 0 && (g + h) % h == 0
  {
    var k := g / h;
    assert g == h * k;
    if g > 0 && k <= 0 {
      MulMonotone(k, 0, h);
    }
    if g > 0 {
      MulMonotone(1, k, h);
    }
    assert g - h == h * (k - 1);
    assert g + h == h * (k + 1);
    DivModUnique(g - h, h, k - 1, 0);
    DivModUnique(g + h, h, k + 1, 0);
  }

  /** floor(sqrt(n)), and 0 for n <= 0. */
  function IntSqrt(n: int): (r: nat)
    ensures n >= 0 ==> r * r <= n < (r + 1) * (r + 1)
    decreases if n > 0 then n else 0
  {
    if n <= 0 then 0
    else
      var r := IntSqrt(n - 1);
      if (r + 1) * (r + 1) <= n then r + 1 else r
  }

  function Max(a: int, b: int): int {
    if a >= b then a else b
  }

  // ---- Frames and their order ----

  /** A frame to place: its identifier and its size. */
  datatype TextureInfo = TextureInfo(frameId: string, width: int, height: int)

  predicate IsPowerOfTwoFrame(t: TextureInfo) {
    IsPowerOfTwo(t.width) && IsPowerOfTwo(t.height)
  }

  /** The order of the placement: taller first, and of equal height, wider first. */
  predicate SortsBefore(a: TextureInfo, b: TextureInfo) {
    a.height > b.height || (a.height == b.height && a.width > b.width)
  }

  predicate SortedForPlacement(s: seq<TextureInfo>) {
    forall i, j :: 0 <= i < j < |s| ==> !SortsBefore(s[j], s[i])
  }

  /** Putting an element in front of a sorted sequence keeps it sorted when nothing in the
      sequence comes before it. */
  lemma SortedCons(h: TextureInfo, rest: seq<TextureInfo>)
    requires SortedForPlacement(rest)
    requires forall x :: x in rest ==> !SortsBefore(x, h)
    ensures SortedForPlacement([h] + rest)
  {
    var r := [h] + rest;
    forall i, j | 0 <= i < j < |r|
      ensures !SortsBefore(r[j], r[i])
    {
      if i == 0 {
        assert r[j] == rest[j - 1];
        assert r[j] in rest;
      } else {
        assert r[i] == rest[i - 1] && r[j] == rest[j - 1];
      }
    }
  }

  /** Inserts `t` after every element that does not come after it. */
  function Insert(t: TextureInfo, s: seq<TextureInfo>): (r: seq<TextureInfo>)
    requires SortedForPlacement(s)
    ensures SortedForPlacement(r)
    ensures multiset(r) == multiset(s) + multiset{t}
  {
    if s == [] then [t]
    else if SortsBefore(t, s[0]) then
      assert forall x :: x in s ==> !SortsBefore(x, t) by {
        forall x | x in s
          ensures !SortsBefore(x, t)
        {
          var k :| 0 <= k < |s| && s[k] == x;
          assert k == 0 || !SortsBefore(s[k], s[0]);
        }
      }
      SortedCons(t, s);
      [t] + s
    else
      var rest := Insert(t, s[1..]);
      assert s == [s[0]] + s[1..];
      assert forall x :: x in rest ==> !SortsBefore(x, s[0]) by {
        forall x | x in rest
          ensures !SortsBefore(x, s[0])
        {
          assert x in multiset(rest);
          if x != t {
            assert x in multiset(s[1..]);
            var k :| 0 <= k < |s[1..]| && s[1..][k] == x;
            assert s[k + 1] == x;
          }
        }
      }
      SortedCons(s[0], rest);
      [s[0]] + rest
  }

  /** The std::sort of the frames: a stable insertion sort into placement order. */
  function SortTextureInfos(s: seq<TextureInfo>): (r: seq<TextureInfo>)
    ensures SortedForPlacement(r)
    ensures multiset(r) == multiset(s) && |r| == |s|
  {
    if s == [] then []
    else
      assert s == [s[0]] + s[1..];
      Insert(s[0], SortTextureInfos(s[1..]))
  }

  // ---- BuildAtlasSpecification ----

  /** Where a frame goes in the atlas: its bottom-left corner. */
  datatype TexturePosition = TexturePosition(frameId: string, frameLeftX: int, frameBottomY: int)

  /** The placement of the frames and the size of the atlas image. */
  datatype AtlasSpecification = AtlasSpecification(texturePositions: seq<TexturePosition>, atlasWidth: int, atlasHeight: int)

  /** A free spot of the packing: a column's next free cell. */
  datatype Position = Position(x: int, y: int)

  function NotPowerOfTwoMessage(frameId: string): string {
    "Dimensions of texture frame \"" + frameId + "\" are not a power of two"
  }

  /** The position `p` holds frame `t` wholly inside a `width` by `height` atlas. */
  predicate Placed(p: TexturePosition, t: TextureInfo, width: int, height: int) {
    p.frameId == t.frameId && 0 <= p.frameLeftX && 0 <= p.frameBottomY
    && p.frameLeftX + t.width <= width && p.frameBottomY + t.height <= height
  }

  /** The summed area of the frames, added up front to back. */
  function TotalArea(s: seq<TextureInfo>): int {
    if s == [] then 0 else TotalArea(s[..|s| - 1]) + s[|s| - 1].width * s[|s| - 1].height
  }

  /** The shape of the position stack while frames of height `h` are placed: every spot lies in
      the first quadrant, and going up the stack the spots step strictly down by whole
      multiples of `h`. */
  predicate StackShape(stack: seq<Position>, h: int) {
    h >= 1 && |stack| >= 1
    && (forall i :: 0 <= i < |stack| ==> stack[i].x >= 0 && stack[i].y >= 0)
    && (forall i :: 0 <= i < |stack| - 1 ==> stack[i].y > stack[i + 1].y && (stack[i].y - stack[i + 1].y) % h == 0)
  }

  /** The stack shape carries over to a shorter frame: the heights are powers of two, so a
      multiple of the taller height is a multiple of the shorter one. */
  lemma StackShapeRescale(stack: seq<Position>, h: int, h': int)
    requires StackShape(stack, h) && IsPowerOfTwo(h) && IsPowerOfTwo(h') && h' <= h
    ensures StackShape(stack, h')
  {
    PowerOfTwoDivides(h, h');
    forall i | 0 <= i < |stack| - 1
      ensures (stack[i].y - stack[i + 1].y) % h' == 0
    {
      DividesTrans(stack[i].y - stack[i + 1].y, h, h');
    }
  }

  /** Raising the top spot by `h` and opening a spot to the right of the frame keeps the shape. */
  lemma RaiseKeepsShape(stack: seq<Position>, w: int, h: int, r: seq<Position>)
    requires StackShape(stack, h) && w >= 1
    requires |stack| == 1 || stack[|stack| - 1].y + h < stack[|stack| - 2].y
    requires var cur := stack[|stack| - 1];
      r == stack[..|stack| - 1] + [Position(cur.x, cur.y + h)] + [Position(cur.x + w, cur.y)]
    ensures StackShape(r, h)
  {
    var n := |stack|;
    var cur := stack[n - 1];
    assert |r| == n + 1 && r[n - 1] == Position(cur.x, cur.y + h) && r[n] == Position(cur.x + w, cur.y);
    DivModUnique(h, h, 1, 0);
    if n >= 2 {
      GapAfterRaise(stack[n - 2].y, cur.y, h);
    }
    forall i | 0 <= i < |r|
      ensures r[i].x >= 0 && r[i].y >= 0
    {
      if i < n - 1 {
        assert r[i] == stack[i];
      }
    }
    forall i | 0 <= i < |r| - 1
      ensures r[i].y > r[i + 1].y && (r[i].y - r[i + 1].y) % h == 0
    {
      if i < n - 1 {
        assert r[i] == stack[i];
      }
      if i < n - 2 {
        assert r[i + 1] == stack[i + 1];
      }
    }
  }

  /** A spot a multiple of `h` above `y`, and more than `h` above it, is still a multiple of
      `h` above `y + h`. */
  lemma GapAfterRaise(above: int, y: int, h: int)
    requires h > 0 && (above - y) % h == 0 && y + h < above
    ensures (above - (y + h)) % h == 0
  {
    MultipleFacts(above - y, h);
  }

  /** Closing a completed top spot and opening one to the right of the frame keeps the shape;
      the completed spot is exactly one frame below the spot under it. */
  lemma PopKeepsShape(stack: seq<Position>, w: int, h: int)
    requires StackShape(stack, h) && w >= 1 && |stack| >= 2
    requires !(stack[|stack| - 1].y + h < stack[|stack| - 2].y)
    ensures stack[|stack| - 1].y + h == stack[|stack| - 2].y
    ensures var cur := stack[|stack| - 1];
      StackShape(stack[..|stack| - 1] + [Position(cur.x + w, cur.y)], h)
  {
    var n := |stack|;
    var cur := stack[n - 1];
    MultipleFacts(stack[n - 2].y - cur.y, h);
    var r := stack[..n - 1] + [Position(cur.x + w, cur.y)];
    DivModUnique(h, h, 1, 0);
    forall i | 0 <= i < |r| - 1
      ensures r[i].y > r[i + 1].y && (r[i].y - r[i + 1].y) % h == 0
    {
      assert r[i] == stack[i];
      if i < n - 2 {
        assert r[i + 1] == stack[i + 1];
      }
    }
  }

  /** Backtracking (dropping the top spot) keeps the shape. */
  lemma DropKeepsShape(stack: seq<Position>, h: int)
    requires StackShape(stack, h) && |stack| >= 2
    ensures StackShape(stack[..|stack| - 1], h)
  {
    var r := stack[..|stack| - 1];
    forall i | 0 <= i < |r| - 1
      ensures r[i].y > r[i + 1].y && (r[i].y - r[i + 1].y) % h == 0
    {
      assert r[i] == stack[i] && r[i + 1] == stack[i + 1];
    }
  }

  /** The stack update after a frame `w` wide and `h` high is put at the top spot: when the
      frame does not reach the spot below, the top spot moves up by the frame's height, else
      the top spot is complete and is dropped; then a spot opens to the right of the frame.
      The stack keeps its shape and its top is the new spot. */
  function PutOnTop(stack: seq<Position>, w: int, h: int): (r: seq<Position>)
    requires StackShape(stack, h) && w >= 1
    ensures StackShape(r, h)
    ensures r[|r| - 1] == Position(stack[|stack| - 1].x + w, stack[|stack| - 1].y)
  {
    if |stack| == 1 || stack[|stack| - 1].y + h < stack[|stack| - 2].y then RaiseTop(stack, w, h)
    else PopTop(stack, w, h)
  }

  /** The top spot moved up by `h`, and a spot to the right of the frame. */
  function RaiseTop(stack: seq<Position>, w: int, h: int): (r: seq<Position>)
    requires StackShape(stack, h) && w >= 1
    requires |stack| == 1 || stack[|stack| - 1].y + h < stack[|stack| - 2].y
    ensures StackShape(r, h)
    ensures r[|r| - 1] == Position(stack[|stack| - 1].x + w, stack[|stack| - 1].y)
  {
    var cur := stack[|stack| - 1];
    var r := stack[..|stack| - 1] + [Position(cur.x, cur.y + h)] + [Position(cur.x + w, cur.y)];
    RaiseKeepsShape(stack, w, h, r);
    r
  }

  /** The completed top spot replaced by a spot to the right of the frame; the source asserts
      that the completed spot lies exactly one frame below the spot under it. */
  function PopTop(stack: seq<Position>, w: int, h: int): (r: seq<Position>)
    requires StackShape(stack, h) && w >= 1 && |stack| >= 2
    requires !(stack[|stack| - 1].y + h < stack[|stack| - 2].y)
    ensures stack[|stack| - 1].y + h == stack[|stack| - 2].y
    ensures StackShape(r, h)
    ensures r[|r| - 1] == Position(stack[|stack| - 1].x + w, stack[|stack| - 1].y)
  {
    PopKeepsShape(stack, w, h);
    var cur := stack[|stack| - 1];
    stack[..|stack| - 1] + [Position(cur.x + w, cur.y)]
  }

  /** One pass of the placement loop: backtracks down the stack until the frame `t` fits at
      the top spot (or the spot is the last one, or widening costs no more than heightening),
      puts it there, updates the stack and grows the atlas to hold it. */
  method PlaceFrame(t: TextureInfo, stack: seq<Position>, atlasWidth: int, atlasHeight: int)
    returns (p: Position, newStack: seq<Position>, newWidth: int, newHeight: int)
    requires IsPowerOfTwoFrame(t) && StackShape(stack, t.height)
    ensures StackShape(newStack, t.height)
    ensures 0 <= p.x && 0 <= p.y && p.x + t.width <= newWidth && p.y + t.height <= newHeight
    ensures atlasWidth <= newWidth && atlasHeight <= newHeight
    ensures IsPowerOfTwo(newWidth) && IsPowerOfTwo(newHeight)
  {
    var positionStack := stack;
    while true
      invariant StackShape(positionStack, t.height)
      decreases |positionStack|
    {
      var currentPosition := positionStack[|positionStack| - 1];
      assert currentPosition.x >= 0 && currentPosition.y >= 0;
      if currentPosition.x + t.width < atlasWidth
         || |positionStack| == 1
         || CeilPowerOfTwo(currentPosition.x + t.width) - atlasWidth <= CeilPowerOfTwo(positionStack[0].y + t.height) - atlasHeight
      {
        // Put the frame at the current spot
        p := currentPosition;
        newStack := PutOnTop(positionStack, t.width, t.height);
        newWidth := CeilPowerOfTwo(Max(atlasWidth, currentPosition.x + t.width));
        newHeight := CeilPowerOfTwo(Max(atlasHeight, currentPosition.y + t.height));
        return;
      } else {
        // Backtrack
        DropKeepsShape(positionStack, t.height);
        positionStack := positionStack[..|positionStack| - 1];
      }
    }
  }

  /** The index of the first frame that is not a power of two in both dimensions, or the
      number of frames when there is none. */
  function FirstNotPowerOfTwo(s: seq<TextureInfo>): (j: nat)
    ensures j <= |s|
    ensures forall k :: 0 <= k < j ==> IsPowerOfTwoFrame(s[k])
    ensures j < |s| ==> !IsPowerOfTwoFrame(s[j])
  {
    if s == [] then 0
    else if !IsPowerOfTwoFrame(s[0]) then 0
    else 1 + FirstNotPowerOfTwo(s[1..])
  }

  /** The first loop of BuildAtlasSpecification: checks that every frame is a power of two in
      both dimensions, naming the first one that is not, and adds up the frames' areas. */
  method MeasureFrames(sortedTextureInfos: seq<TextureInfo>) returns (error: Option<string>, totalArea: int)
    ensures var j := FirstNotPowerOfTwo(sortedTextureInfos);
      error == if j < |sortedTextureInfos| then Some(NotPowerOfTwoMessage(sortedTextureInfos[j].frameId)) else None
    ensures error.None? ==> totalArea == TotalArea(sortedTextureInfos) && totalArea >= 0
  {
    totalArea := 0;
    for i := 0 to |sortedTextureInfos|
      invariant totalArea == TotalArea(sortedTextureInfos[..i]) && totalArea >= 0
      invariant forall j :: 0 <= j < i ==> IsPowerOfTwoFrame(sortedTextureInfos[j])
    {
      var ti := sortedTextureInfos[i];
      PowerOfTwoIffFixed(ti.width);
      PowerOfTwoIffFixed(ti.height);
      if ti.width != CeilPowerOfTwo(ti.width) || ti.height != CeilPowerOfTwo(ti.height) {
        assert FirstNotPowerOfTwo(sortedTextureInfos) == i;
        return Some(NotPowerOfTwoMessage(ti.frameId)), totalArea;
      }
      assert sortedTextureInfos[..i + 1][..i] == sortedTextureInfos[..i];
      MulMonotone(0, ti.height, ti.width);
      totalArea := totalArea + ti.width * ti.height;
    }
    assert sortedTextureInfos[..|sortedTextureInfos|] == sortedTextureInfos;
    error := None;
  }

  /** The placement loop of BuildAtlasSpecification: puts the frames one after the other,
      each wholly inside the atlas as it has grown so far; the atlas never shrinks. */
  method PlaceFrames(sortedTextureInfos: seq<TextureInfo>, atlasSide: int)
    returns (texturePositions: seq<TexturePosition>, atlasWidth: int, atlasHeight: int)
    requires SortedForPlacement(sortedTextureInfos)
    requires forall j :: 0 <= j < |sortedTextureInfos| ==> IsPowerOfTwoFrame(sortedTextureInfos[j])
    ensures |texturePositions| == |sortedTextureInfos|
    ensures forall i :: 0 <= i < |sortedTextureInfos| ==> Placed(texturePositions[i], sortedTextureInfos[i], atlasWidth, atlasHeight)
    ensures atlasSide <= atlasWidth && atlasSide <= atlasHeight
  {
    atlasWidth, atlasHeight := atlasSide, atlasSide;
    texturePositions := [];
    var positionStack := [Position(0, 0)];
    for k := 0 to |sortedTextureInfos|
      invariant |texturePositions| == k
      invariant forall i :: 0 <= i < k ==> Placed(texturePositions[i], sortedTextureInfos[i], atlasWidth, atlasHeight)
      invariant atlasSide <= atlasWidth && atlasSide <= atlasHeight
      invariant k < |sortedTextureInfos| ==> StackShape(positionStack, sortedTextureInfos[k].height)
    {
      var t := sortedTextureInfos[k];
      var p;
      p, positionStack, atlasWidth, atlasHeight := PlaceFrame(t, positionStack, atlasWidth, atlasHeight);
      texturePositions := texturePositions + [TexturePosition(t.frameId, p.x, p.y)];
      if k + 1 < |sortedTextureInfos| {
        assert !SortsBefore(sortedTextureInfos[k + 1], sortedTextureInfos[k]);
        StackShapeRescale(positionStack, t.height, sortedTextureInfos[k + 1].height);
      }
    }
  }

  /** Sorting keeps exactly the frames it was given. */
  lemma SortKeepsMembers(s: seq<TextureInfo>)
    ensures forall t :: t in s <==> t in SortTextureInfos(s)
  {
    var sorted := SortTextureInfos(s);
    forall t
      ensures t in s <==> t in sorted
    {
      assert t in s <==> t in multiset(s);
      assert t in sorted <==> t in multiset(sorted);
    }
  }

  /** A placement of the sorted frames places every input frame. */
  lemma EveryFramePlaced(inputTextureInfos: seq<TextureInfo>, spec: AtlasSpecification)
    requires |spec.texturePositions| == |inputTextureInfos|
    requires var sorted := SortTextureInfos(inputTextureInfos);
      forall i :: 0 <= i < |sorted| ==> Placed(spec.texturePositions[i], sorted[i], spec.atlasWidth, spec.atlasHeight)
    ensures forall t :: t in inputTextureInfos ==>
      exists i :: 0 <= i < |spec.texturePositions| && Placed(spec.texturePositions[i], t, spec.atlasWidth, spec.atlasHeight)
  {
    var sorted := SortTextureInfos(inputTextureInfos);
    SortKeepsMembers(inputTextureInfos);
    forall t | t in inputTextureInfos
      ensures exists i :: 0 <= i < |spec.texturePositions| && Placed(spec.texturePositions[i], t, spec.atlasWidth, spec.atlasHeight)
    {
      var i :| 0 <= i < |sorted| && sorted[i] == t;
      assert Placed(spec.texturePositions[i], t, spec.atlasWidth, spec.atlasHeight);
    }
  }

  /** The frames are powers of two in both dimensions, or the first frame in placement
      order that is not is named in the error. On success every frame has one position, in
      placement order (taller first, then wider first), wholly inside the atlas, whose sides
      are powers of two no smaller than the side estimated from the total area. */
  method BuildAtlasSpecification(inputTextureInfos: seq<TextureInfo>) returns (r: Result<AtlasSpecification, string>)
    ensures r.Failure? <==> exists t :: t in inputTextureInfos && !IsPowerOfTwoFrame(t)
    ensures r.Failure? ==>
      var sorted := SortTextureInfos(inputTextureInfos);
      var j := FirstNotPowerOfTwo(sorted);
      j < |sorted| && r.error == NotPowerOfTwoMessage(sorted[j].frameId)
    ensures r.Success? ==>
      var sorted := SortTextureInfos(inputTextureInfos);
      var spec := r.value;
      |spec.texturePositions| == |inputTextureInfos|
      && (forall i :: 0 <= i < |sorted| ==> Placed(spec.texturePositions[i], sorted[i], spec.atlasWidth, spec.atlasHeight))
      && IsPowerOfTwo(spec.atlasWidth) && IsPowerOfTwo(spec.atlasHeight)
      && CeilPowerOfTwo(IntSqrt(TotalArea(sorted))) / 2 <= spec.atlasWidth
      && CeilPowerOfTwo(IntSqrt(TotalArea(sorted))) / 2 <= spec.atlasHeight
  {
    // Sort by height, tallest first, then by width, widest first
    var sortedTextureInfos := SortTextureInfos(inputTextureInfos);
    SortKeepsMembers(inputTextureInfos);

    // Verify the frames and sum their areas
    var error, totalArea := MeasureFrames(sortedTextureInfos);
    ghost var j := FirstNotPowerOfTwo(sortedTextureInfos);
    if error.Some? {
      assert sortedTextureInfos[j] in inputTextureInfos;
      return Failure(error.value);
    }
    assert j == |sortedTextureInfos|;
    assert forall t :: t in sortedTextureInfos ==> IsPowerOfTwoFrame(t);

    // Square root of the area, to the next power of two, halved
    var atlasSide := CeilPowerOfTwo(IntSqrt(totalArea)) / 2;

    // Place the frames
    var texturePositions, atlasWidth, atlasHeight := PlaceFrames(sortedTextureInfos, atlasSide);

    // Round the final size
    atlasWidth := CeilPowerOfTwo(atlasWidth);
    atlasHeight := CeilPowerOfTwo(atlasHeight);

    return Success(AtlasSpecification(texturePositions, atlasWidth, atlasHeight));
  }

  // ---- BuildRegularAtlasSpecification ----

  /** The side of ceil_square_power_of_two: the smallest power of two whose square is at
      least `n` (1 for n <= 1). */
  function SquareSide(n: int): (p: int)
    ensures IsPowerOfTwo(p) && p >= 1 && p * p >= n
    ensures p >= 2 ==> (p / 2) * (p / 2) < n
    decreases if n > 1 then n else 0
  {
    if n <= 1 then 1
    else
      var q := SquareSide((n + 3) / 4);
      SquareSideStep(n, q);
      2 * q
  }

  /** Doubling the side for a quarter of the count (rounded up) gives the side for the count. */
  lemma SquareSideStep(n: int, q: int)
    requires n >= 2 && IsPowerOfTwo(q) && q >= 1 && q * q >= (n + 3) / 4
    requires q >= 2 ==> (q / 2) * (q / 2) < (n + 3) / 4
    ensures (2 * q) * (2 * q) >= n && q * q < n && (2 * q) / 2 == q
  {
    var m := (n + 3) / 4;
    assert 4 * m >= n && 4 * m <= n + 3;
    DoubleSquare(q);
    if q >= 2 {
      var h := q / 2;
      assert q == 2 * h;
      DoubleSquare(h);
    }
  }

  lemma DoubleSquare(q: int)
    ensures (2 * q) * (2 * q) == 4 * (q * q)
  {
  }

  /** ceil_square_power_of_two: the number of frames rounded up to the square of a power of two. */
  function CeilSquarePowerOfTwo(n: int): (v: int)
    ensures v >= n && v >= 1
  {
    SquareSide(n) * SquareSide(n)
  }

  /** The square root of the square of a number is that number. */
  lemma IntSqrtOfSquare(p: nat)
    ensures IntSqrt(p * p) == p
  {
    var n := p * p;
    var r := IntSqrt(n);
    assert r * r <= n < (r + 1) * (r + 1);
    if r < p {
      SquareMonotone(r + 1, p);
      assert false;
    } else if r > p {
      SquareMonotone(p + 1, r);
      assert false;
    }
  }

  lemma SquareMonotone(a: nat, b: nat)
    requires a <= b
    ensures a * a <= b * b
  {
    MulMonotone(a, b, a);
    MulMonotone(a, b, b);
  }

  const EmptyRegularMessage: string := "Regular texture atlas cannot consist of an empty set of texture frames"

  function DifferentSizeMessage(frameId: string): string {
    "Dimensions of texture frame \"" + frameId + "\" differ from the dimensions of the other frames"
  }

  predicate SameSize(a: TextureInfo, b: TextureInfo) {
    a.width == b.width && a.height == b.height
  }

  /** Cell `i` of a grid `n` cells wide is column i mod n and row i div n; for i below n * n
      in a grid of `fw` by `fh` cells it lies wholly inside the `n fw` by `n fh` rectangle. */
  lemma GridCellInside(i: int, n: int, fw: int, fh: int)
    requires 0 <= i < n * n && n >= 1 && fw >= 1 && fh >= 1
    ensures 0 <= (i % n) * fw && (i % n) * fw + fw <= n * fw
    ensures 0 <= (i / n) * fh && (i / n) * fh + fh <= n * fh
  {
    MulMonotone(0, i % n, fw);
    MulMonotone(i % n + 1, n, fw);
    MulMonotone(0, i / n, fh);
    if i / n >= n {
      MulMonotone(n, i / n, n);
      assert false;
    }
    MulMonotone(i / n + 1, n, fh);
  }

  /** Distinct cells of the grid have distinct corners. */
  lemma GridCellsDistinct(i: int, j: int, n: int, fw: int, fh: int)
    requires 0 <= i && 0 <= j && i != j && n >= 1 && fw >= 1 && fh >= 1
    ensures (i % n) * fw != (j % n) * fw || (i / n) * fh != (j / n) * fh
  {
    if (i % n) * fw == (j % n) * fw && (i / n) * fh == (j / n) * fh {
      MulCancel(i % n, j % n, fw);
      MulCancel(i / n, j / n, fh);
      assert false;
    }
  }

  lemma MulCancel(a: int, b: int, w: int)
    requires w >= 1 && a * w == b * w
    ensures a == b
  {
    if a < b {
      MulMonotone(a + 1, b, w);
    } else if b < a {
      MulMonotone(b + 1, a, w);
    }
  }

  /** The index of the first frame whose size differs from that of frame 0, or the number of
      frames when all have the same size. */
  function FirstDifferentSize(s: seq<TextureInfo>): (j: nat)
    requires s != []
    ensures j <= |s|
    ensures forall k :: 0 <= k < j ==> SameSize(s[k], s[0])
    ensures j < |s| ==> !SameSize(s[j], s[0])
  {
    FirstDifferentSizeFrom(s, 0)
  }

  /** The index of the first frame at or after `i` whose size differs from that of frame 0. */
  function FirstDifferentSizeFrom(s: seq<TextureInfo>, i: nat): (j: nat)
    requires s != [] && i <= |s|
    requires forall k :: 0 <= k < i ==> SameSize(s[k], s[0])
    ensures i <= j <= |s|
    ensures forall k :: 0 <= k < j ==> SameSize(s[k], s[0])
    ensures j < |s| ==> !SameSize(s[j], s[0])
    decreases |s| - i
  {
    if i == |s| then i
    else if !SameSize(s[i], s[0]) then i
    else FirstDifferentSizeFrom(s, i + 1)
  }

  /** All frames must have the size of the first, a power of two in both dimensions, and there
      must be at least one. Frame i goes to column i mod n and row i div n of a square grid n
      frames on a side, n the smallest power of two with n * n at least the frame count; every
      frame then lies wholly inside the atlas and no two frames share a corner. */
  method BuildRegularAtlasSpecification(inputTextureInfos: seq<TextureInfo>) returns (r: Result<AtlasSpecification, string>)
    ensures inputTextureInfos == [] ==> r == Failure(EmptyRegularMessage)
    ensures inputTextureInfos != [] && !IsPowerOfTwoFrame(inputTextureInfos[0]) ==>
      r == Failure(NotPowerOfTwoMessage(inputTextureInfos[0].frameId))
    ensures inputTextureInfos != [] && IsPowerOfTwoFrame(inputTextureInfos[0]) ==>
      var j := FirstDifferentSize(inputTextureInfos);
      (r.Failure? <==> j < |inputTextureInfos|)
      && (r.Failure? ==> r.error == DifferentSizeMessage(inputTextureInfos[j].frameId))
    ensures r.Success? ==>
      var n := SquareSide(|inputTextureInfos|);
      var fw := inputTextureInfos[0].width;
      var fh := inputTextureInfos[0].height;
      var spec := r.value;
      |spec.texturePositions| == |inputTextureInfos|
      && spec.atlasWidth == n * fw && spec.atlasHeight == n * fh
      && (forall i :: 0 <= i < |inputTextureInfos| ==>
            spec.texturePositions[i] == TexturePosition(inputTextureInfos[i].frameId, (i % n) * fw, (i / n) * fh))
    ensures r.Success? ==>
      var spec := r.value;
      |spec.texturePositions| == |inputTextureInfos|
      && (forall i :: 0 <= i < |inputTextureInfos| ==>
            Placed(spec.texturePositions[i], inputTextureInfos[i], spec.atlasWidth, spec.atlasHeight))
      && (forall i, j :: 0 <= i < j < |inputTextureInfos| ==>
            (spec.texturePositions[i].frameLeftX, spec.texturePositions[i].frameBottomY)
            != (spec.texturePositions[j].frameLeftX, spec.texturePositions[j].frameBottomY))
  {
    // Verify the frames
    if |inputTextureInfos| == 0 {
      return Failure(EmptyRegularMessage);
    }
    var frameWidth := inputTextureInfos[0].width;
    var frameHeight := inputTextureInfos[0].height;
    PowerOfTwoIffFixed(frameWidth);
    PowerOfTwoIffFixed(frameHeight);
    if frameWidth != CeilPowerOfTwo(frameWidth) || frameHeight != CeilPowerOfTwo(frameHeight) {
      return Failure(NotPowerOfTwoMessage(inputTextureInfos[0].frameId));
    }
    for i := 0 to |inputTextureInfos|
      invariant forall k :: 0 <= k < i ==> SameSize(inputTextureInfos[k], inputTextureInfos[0])
    {
      var ti := inputTextureInfos[i];
      if ti.width != frameWidth || ti.height != frameHeight {
        assert FirstDifferentSize(inputTextureInfos) == i;
        return Failure(DifferentSizeMessage(ti.frameId));
      }
    }

    assert FirstDifferentSize(inputTextureInfos) == |inputTextureInfos|;

    // Number of frames, rounded up to the next square of a power of two
    var virtualNumberOfFrames := CeilSquarePowerOfTwo(|inputTextureInfos|);
    var numberOfFramesPerSide := IntSqrt(virtualNumberOfFrames);
    IntSqrtOfSquare(SquareSide(|inputTextureInfos|));
    assert numberOfFramesPerSide == SquareSide(|inputTextureInfos|);
    var atlasWidth := numberOfFramesPerSide * frameWidth;
    var atlasHeight := numberOfFramesPerSide * frameHeight;

    // Place the frames
    var texturePositions: seq<TexturePosition> := [];
    for i := 0 to |inputTextureInfos|
      invariant |texturePositions| == i
      invariant forall k :: 0 <= k < i ==>
        texturePositions[k] == TexturePosition(inputTextureInfos[k].frameId, (k % numberOfFramesPerSide) * frameWidth, (k / numberOfFramesPerSide) * frameHeight)
    {
      var c := i % numberOfFramesPerSide;
      var r := i / numberOfFramesPerSide;
      texturePositions := texturePositions + [TexturePosition(inputTextureInfos[i].frameId, c * frameWidth, r * frameHeight)];
    }

    forall i | 0 <= i < |inputTextureInfos|
      ensures Placed(texturePositions[i], inputTextureInfos[i], atlasWidth, atlasHeight)
    {
      GridCellInside(i, numberOfFramesPerSide, frameWidth, frameHeight);
    }
    forall i, j | 0 <= i < j < |inputTextureInfos|
      ensures (texturePositions[i].frameLeftX, texturePositions[i].frameBottomY)
              != (texturePositions[j].frameLeftX, texturePositions[j].frameBottomY)
    {
      GridCellsDistinct(i, j, numberOfFramesPerSide, frameWidth, frameHeight);
    }
    return Success(AtlasSpecification(texturePositions, atlasWidth, atlasHeight));
  }

  // ---- CopyImage and BuildAtlas ----

  /** The cells of the destination that a source of `sourceSize` covers with its bottom-left
      corner at (leftX, bottomY). */
  function CopyTarget(sourceSize: IntegralSize, leftX: int, bottomY: int): IntegralRect {
    IntegralRect(IntegralCoordinates(leftX, bottomY), sourceSize)
  }

  /** Copies the source image row by row, bottom to top, into the destination with its
      bottom-left corner at (destinationLeftX, destinationBottomY): destination cell
      (leftX + x, bottomY + y) gets source cell (x, y), and every other destination cell keeps
      its value. */
  method CopyImage<T>(sourceImage: seq<T>, sourceImageSize: IntegralSize, destImage: array<T>, destImageSize: IntegralSize,
                      destinationLeftX: nat, destinationBottomY: nat)
    requires |sourceImage| == sourceImageSize.LinearSize() && destImage.Length == destImageSize.LinearSize()
    requires CopyTarget(sourceImageSize, destinationLeftX, destinationBottomY)
               .IsContainedInRect(IntegralRect(IntegralCoordinates(0, 0), destImageSize))
    modifies destImage
    ensures forall c: IntegralCoordinates :: c.IsInSize(destImageSize) ==>
      Cell(destImage[..], destImageSize, c) ==
        if CopyTarget(sourceImageSize, destinationLeftX, destinationBottomY).Contains(c)
        then Cell(sourceImage, sourceImageSize, c.Minus(IntegralCoordinates(destinationLeftX, destinationBottomY)))
        else Cell(old(destImage[..]), destImageSize, c)
  {
    ghost var orig := destImage[..];
    var region := IntegralRect(IntegralCoordinates(0, 0), sourceImageSize);
    var target := IntegralCoordinates(destinationLeftX, destinationBottomY);
    // From bottom to top
    for y := 0 to sourceImageSize.height
      invariant BlitRowsDone(destImage[..], orig, destImageSize, sourceImage, sourceImageSize, region, target, y)
    {
      // From left to right: source cells y * width onward go to (bottomY + y) * destWidth + leftX onward
      BlitRowInto(sourceImage, sourceImageSize, destImage, destImageSize, region, target, y, orig);
    }
    AllRowsCopied(destImage[..], orig, sourceImage, sourceImageSize, destImageSize, destinationLeftX, destinationBottomY);
  }

  /** Once every source row is copied, each cell of the target rectangle holds its source
      cell and every other cell its original value. */
  lemma AllRowsCopied<T>(cur: seq<T>, orig: seq<T>, sourceImage: seq<T>, sourceImageSize: IntegralSize, destImageSize: IntegralSize,
                         destinationLeftX: nat, destinationBottomY: nat)
    requires |sourceImage| == sourceImageSize.LinearSize()
    requires |cur| == destImageSize.LinearSize() && |orig| == destImageSize.LinearSize()
    requires BlitRowsDone(cur, orig, destImageSize, sourceImage, sourceImageSize, IntegralRect(IntegralCoordinates(0, 0), sourceImageSize),
                          IntegralCoordinates(destinationLeftX, destinationBottomY), sourceImageSize.height)
    ensures forall c: IntegralCoordinates :: c.IsInSize(destImageSize) ==>
      Cell(cur, destImageSize, c) ==
        if CopyTarget(sourceImageSize, destinationLeftX, destinationBottomY).Contains(c)
        then Cell(sourceImage, sourceImageSize, c.Minus(IntegralCoordinates(destinationLeftX, destinationBottomY)))
        else Cell(orig, destImageSize, c)
  {
    var target := IntegralCoordinates(destinationLeftX, destinationBottomY);
    forall c: IntegralCoordinates | c.IsInSize(destImageSize)
      ensures Cell(cur, destImageSize, c) ==
        if CopyTarget(sourceImageSize, destinationLeftX, destinationBottomY).Contains(c)
        then Cell(sourceImage, sourceImageSize, c.Minus(target))
        else Cell(orig, destImageSize, c)
    {
      assert c.Minus(target).Plus(IntegralCoordinates(0, 0)) == c.Minus(target);
      var inTarget := IntegralRect(target, sourceImageSize).Contains(c);
      assert inTarget ==> c.y < target.y + sourceImageSize.height;
      assert Cell(cur, destImageSize, c) ==
        if inTarget && c.y < target.y + sourceImageSize.height
        then Cell(sourceImage, sourceImageSize, c.Minus(target).Plus(IntegralCoordinates(0, 0)))
        else Cell(orig, destImageSize, c);
    }
  }

  /** A loaded texture frame: its metadata and its pixels, row by row from the bottom. */
  datatype TextureFrame<M> = TextureFrame(metadata: M, size: IntegralSize, data: seq<Rgba>)

  /** What the atlas records of each frame: where it was put and the frame's own metadata. */
  datatype AtlasFrameMetadata<M> = AtlasFrameMetadata(frameLeftX: int, frameBottomY: int, frameMetadata: M)

  /** A frame whose pixels match its size and that fits in the atlas at its position. */
  predicate FrameFits<M>(p: TexturePosition, f: TextureFrame<M>, atlasSize: IntegralSize) {
    |f.data| == f.size.LinearSize() && p.frameLeftX >= 0 && p.frameBottomY >= 0
    && CopyTarget(f.size, p.frameLeftX, p.frameBottomY).IsContainedInRect(IntegralRect(IntegralCoordinates(0, 0), atlasSize))
  }

  predicate AllFramesFit<M>(positions: seq<TexturePosition>, frameLoader: string -> TextureFrame<M>, atlasSize: IntegralSize) {
    forall i :: 0 <= i < |positions| ==> FrameFits(positions[i], frameLoader(positions[i].frameId), atlasSize)
  }

  /** A frame placed by the specification fits in the atlas when the loader hands back a
      frame of the size that was placed. */
  lemma PlacedFrameFits<M>(p: TexturePosition, t: TextureInfo, f: TextureFrame<M>, width: nat, height: nat)
    requires Placed(p, t, width, height)
    requires f.size.width == t.width && f.size.height == t.height && |f.data| == f.size.LinearSize()
    ensures FrameFits(p, f, IntegralSize(width, height))
  {
  }

  /** Whether the frame at position `p` covers atlas cell `c`. */
  predicate Covers<M>(p: TexturePosition, f: TextureFrame<M>, c: IntegralCoordinates) {
    CopyTarget(f.size, p.frameLeftX, p.frameBottomY).Contains(c)
  }

  /** Atlas cell `c` after the first `k` frames are copied: the pixel of the last of them that
      covers `c`, or transparent black when none does. */
  ghost function AtlasCell<M>(positions: seq<TexturePosition>, frameLoader: string -> TextureFrame<M>,
                              atlasSize: IntegralSize, k: nat, c: IntegralCoordinates): Rgba
    requires k <= |positions| && AllFramesFit(positions, frameLoader, atlasSize)
  {
    if k == 0 then TransparentBlack
    else
      var p := positions[k - 1];
      var f := frameLoader(p.frameId);
      if Covers(p, f, c) then Cell(f.data, f.size, c.Minus(IntegralCoordinates(p.frameLeftX, p.frameBottomY)))
      else AtlasCell(positions, frameLoader, atlasSize, k - 1, c)
  }

  /** A cell that none of the first `k` frames covers is still transparent black. */
  lemma {:induction false} AtlasCellUncovered<M>(positions: seq<TexturePosition>, frameLoader: string -> TextureFrame<M>,
                                                 atlasSize: IntegralSize, k: nat, c: IntegralCoordinates)
    requires k <= |positions| && AllFramesFit(positions, frameLoader, atlasSize)
    requires forall i :: 0 <= i < k ==> !Covers(positions[i], frameLoader(positions[i].frameId), c)
    ensures AtlasCell(positions, frameLoader, atlasSize, k, c) == TransparentBlack
  {
    if k > 0 {
      AtlasCellUncovered(positions, frameLoader, atlasSize, k - 1, c);
    }
  }

  /** A cell covered by frame `i` and by none of the frames after it, up to `k`, holds frame
      `i`'s pixel; in particular, when the frames do not overlap, every covered cell holds
      the pixel of the one frame that covers it. */
  lemma {:induction false} AtlasCellLastCover<M>(positions: seq<TexturePosition>, frameLoader: string -> TextureFrame<M>,
                                                 atlasSize: IntegralSize, k: nat, i: nat, c: IntegralCoordinates)
    requires k <= |positions| && AllFramesFit(positions, frameLoader, atlasSize)
    requires i < k && Covers(positions[i], frameLoader(positions[i].frameId), c)
    requires forall j :: i < j < k ==> !Covers(positions[j], frameLoader(positions[j].frameId), c)
    ensures var p := positions[i];
      var f := frameLoader(p.frameId);
      AtlasCell(positions, frameLoader, atlasSize, k, c) == Cell(f.data, f.size, c.Minus(IntegralCoordinates(p.frameLeftX, p.frameBottomY)))
  {
    if k - 1 > i {
      AtlasCellLastCover(positions, frameLoader, atlasSize, k - 1, i, c);
    }
  }

  /** The metadata BuildAtlas records for a position. */
  function FrameMetadataOf<M>(p: TexturePosition, frameLoader: string -> TextureFrame<M>): AtlasFrameMetadata<M> {
    AtlasFrameMetadata(p.frameLeftX, p.frameBottomY, frameLoader(p.frameId).metadata)
  }

  /** Builds the atlas image of a specification: starts from an all transparent black image of
      the atlas size and copies every frame, as loaded by `frameLoader`, to its position, in
      the order of the positions; records one metadata entry per position, in the same order,
      with that position's corner and that frame's metadata. */
  method BuildAtlas<M>(specification: AtlasSpecification, frameLoader: string -> TextureFrame<M>)
    returns (frameMetadata: seq<AtlasFrameMetadata<M>>, atlasImage: array<Rgba>)
    requires specification.atlasWidth >= 0 && specification.atlasHeight >= 0
    requires AllFramesFit(specification.texturePositions, frameLoader,
                          IntegralSize(specification.atlasWidth, specification.atlasHeight))
    ensures var atlasSize := IntegralSize(specification.atlasWidth, specification.atlasHeight);
      fresh(atlasImage) && atlasImage.Length == atlasSize.LinearSize()
      && (forall c: IntegralCoordinates :: c.IsInSize(atlasSize) ==>
            Cell(atlasImage[..], atlasSize, c)
            == AtlasCell(specification.texturePositions, frameLoader, atlasSize, |specification.texturePositions|, c))
    ensures |frameMetadata| == |specification.texturePositions|
    ensures forall i :: 0 <= i < |frameMetadata| ==>
      frameMetadata[i] == FrameMetadataOf(specification.texturePositions[i], frameLoader)
  {
    var atlasSize := IntegralSize(specification.atlasWidth, specification.atlasHeight);
    var positions := specification.texturePositions;

    // Allocate the image, filled with transparent black
    MulMonotone(0, atlasSize.height, atlasSize.width);
    atlasImage := new Rgba[atlasSize.LinearSize()](_ => TransparentBlack);

    // Copy all frames into the image, building the metadata at the same time
    frameMetadata := [];
    for k := 0 to |positions|
      invariant |frameMetadata| == k
      invariant forall i :: 0 <= i < k ==> frameMetadata[i] == FrameMetadataOf(positions[i], frameLoader)
      invariant forall c: IntegralCoordinates :: c.IsInSize(atlasSize) ==>
        Cell(atlasImage[..], atlasSize, c) == AtlasCell(positions, frameLoader, atlasSize, k, c)
    {
      var texturePosition := positions[k];
      var textureFrame := frameLoader(texturePosition.frameId);
      assert FrameFits(texturePosition, textureFrame, atlasSize);
      CopyImage(textureFrame.data, textureFrame.size, atlasImage, atlasSize,
                texturePosition.frameLeftX, texturePosition.frameBottomY);
      frameMetadata := frameMetadata + [AtlasFrameMetadata(texturePosition.frameLeftX, texturePosition.frameBottomY, textureFrame.metadata)];
    }
  }
}
