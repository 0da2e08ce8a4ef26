/** The CPU-side buffers of the ship render context (Game/ShipRenderContext.cpp): the point
    attribute arrays the simulation interleaves its data into, the per-plane vertex buffers
    cleared at the start of each upload, the element buffers and the byte layout they get in
    the element buffer object, the flame buffer's allocation rule and the vector arrows. The
    OpenGL calls themselves are not part of this model. */
module ShipRenderBuffers {
  import opened Vectors

  /** size_t is 64 bits wide. */
  const TwoToThe64: nat := 0x1_0000_0000_0000_0000

  /** PlaneId is a 32-bit unsigned integer. */
  const TwoToThe32: nat := 0x1_0000_0000

  /** A vertex of a per-plane or highlight buffer; its float layout belongs to the shaders and is
      not part of this model. */
  datatype Vertex = Vertex(attributes: seq<real>)

  /** A vertex of the vector arrows: a position and the plane it is drawn on. */
  datatype VectorArrowVertex = VectorArrowVertex(position: Vec2, planeId: real)

  /** An element: the indices of the points it joins (three for a triangle, two for a spring or
      a rope, one for a point). */
  datatype Element = Element(pointIndices: seq<nat>)

  /** std::vector::resize value-initializes the triangles it adds. */
  const EmptyTriangle: Element := Element([0, 0, 0])

  /** std::vector::resize: the first `n` entries, padded with `filler`. */
  function Resized<T>(s: seq<T>, n: nat, filler: T): (r: seq<T>)
    ensures |r| == n
    ensures forall i :: 0 <= i < n && i < |s| ==> r[i] == s[i]
    ensures forall i :: |s| <= i < n ==> r[i] == filler
  {
    if n <= |s| then s[..n] else s + seq(n - |s|, _ => filler)
  }

  // ---- Element buffer layout ----

  /** The byte offsets the element types get in the element buffer object. */
  datatype ElementLayout = ElementLayout(
    triangleStart: nat, ropeStart: nat, springStart: nat, pointStart: nat, ephemeralPointStart: nat, requiredSize: nat)

  /** The byte sizes of the element structures, which ShipRenderContext.h (not part of this
      model) fixes. */
  datatype ElementSizes = ElementSizes(triangle: nat, line: nat, point: nat)

  /** The layout Draw computes: triangles, ropes, springs, points and ephemeral points one
      after the other from offset zero, each taking its count times its element size; the
      required size is the sum of all of them. */
  function ElementLayoutOf(sizes: ElementSizes, triangles: nat, ropes: nat, springs: nat, points: nat, ephemeralPoints: nat)
    : (l: ElementLayout)
    ensures l.triangleStart == 0
    ensures l.triangleStart + triangles * sizes.triangle == l.ropeStart
    ensures l.ropeStart + ropes * sizes.line == l.springStart
    ensures l.springStart + springs * sizes.line == l.pointStart
    ensures l.pointStart + points * sizes.point == l.ephemeralPointStart
    ensures l.ephemeralPointStart + ephemeralPoints * sizes.point == l.requiredSize
    ensures l.requiredSize == triangles * sizes.triangle + (ropes + springs) * sizes.line
                              + (points + ephemeralPoints) * sizes.point
  {
    var ropeStart := triangles * sizes.triangle;
    var springStart := ropeStart + ropes * sizes.line;
    var pointStart := springStart + springs * sizes.line;
    var ephemeralPointStart := pointStart + points * sizes.point;
    ElementLayout(0, ropeStart, springStart, pointStart, ephemeralPointStart, ephemeralPointStart + ephemeralPoints * sizes.point)
  }

  /** The byte ranges of the five element types do not overlap and all lie within the
      required size: each upload writes only its own part of the buffer. */
  lemma ElementRangesDisjoint(
    sizes: ElementSizes, triangles: nat, ropes: nat, springs: nat, points: nat, ephemeralPoints: nat, offset: nat)
    requires offset < ElementLayoutOf(sizes, triangles, ropes, springs, points, ephemeralPoints).requiredSize
    ensures var l := ElementLayoutOf(sizes, triangles, ropes, springs, points, ephemeralPoints);
      var inTriangles := offset < l.ropeStart;
      var inRopes := l.ropeStart <= offset < l.springStart;
      var inSprings := l.springStart <= offset < l.pointStart;
      var inPoints := l.pointStart <= offset < l.ephemeralPointStart;
      var inEphemeral := l.ephemeralPointStart <= offset;
      (inTriangles ==> !inRopes && !inSprings && !inPoints && !inEphemeral && offset < triangles * sizes.triangle)
      && (inRopes ==> !inSprings && !inPoints && !inEphemeral && offset - l.ropeStart < ropes * sizes.line)
      && (inSprings ==> !inPoints && !inEphemeral && offset - l.springStart < springs * sizes.line)
      && (inPoints ==> !inEphemeral && offset - l.pointStart < points * sizes.point)
      && (inEphemeral ==> offset - l.ephemeralPointStart < ephemeralPoints * sizes.point)
  {
  }

  // ---- Flame buffer allocation ----

  /** The reallocation test of UploadFlamesStart, in size_t arithmetic: the subtraction
      wraps around below 100. */
  predicate FlameNeedsReallocation(count: nat, allocatedSize: nat)
    requires count < TwoToThe64 && allocatedSize < TwoToThe64
  {
    count > allocatedSize || count < (allocatedSize - 100) % TwoToThe64
  }

  /** The new allocatedSize size: the next multiple of 100 strictly above the count, in size_t
      arithmetic. Away from the top of the size_t range it exceeds the count by at most 100. */
  function FlameAllocationFor(count: nat): (allocatedSize: nat)
    requires count < TwoToThe64
    ensures allocatedSize < TwoToThe64
    ensures count < TwoToThe64 - 100 ==>
      count < allocatedSize <= count + 100 && allocatedSize % 100 == 0
  {
    ((count / 100 + 1) * 100) % TwoToThe64
  }

  /** With at least 100 allocatedSize, the buffer is reallocated exactly when the count lies outside
      [allocatedSize - 100, allocatedSize]; below 100 the wrapped subtraction makes every count short of
      the top of the size_t range reallocate. */
  lemma FlameReallocationRule(count: nat, allocatedSize: nat)
    requires count < TwoToThe64 && allocatedSize < TwoToThe64
    ensures allocatedSize >= 100 ==>
      (FlameNeedsReallocation(count, allocatedSize) <==> count > allocatedSize || count < allocatedSize - 100)
    ensures allocatedSize < 100 && count < TwoToThe64 - 100 ==> FlameNeedsReallocation(count, allocatedSize)
  {
  }

  /** After a reallocation for a count, uploading the same count again keeps the allocation. */
  lemma FlameAllocationIsStable(count: nat)
    requires count < TwoToThe64 - 100
    ensures !FlameNeedsReallocation(count, FlameAllocationFor(count))
  {
    var allocatedSize := FlameAllocationFor(count);
    assert 100 <= allocatedSize;
    assert (allocatedSize - 100) % TwoToThe64 == allocatedSize - 100;
  }

  // ---- Vector arrows ----

  /** The six vertices of one arrow: the stem from the position to its end, and the two barbs
      from the stem's end along `leftDir` and `rightDir`, a fifth of a unit long. */
  function ArrowVertices(position: Vec2, planeId: real, vector: Vec2, lengthAdjustment: real, leftDir: Vec2, rightDir: Vec2)
    : seq<VectorArrowVertex>
  {
    var stemEndpoint := Add(position, Scale(vector, lengthAdjustment));
    [ VectorArrowVertex(position, planeId), VectorArrowVertex(stemEndpoint, planeId),
      VectorArrowVertex(stemEndpoint, planeId), VectorArrowVertex(Add(stemEndpoint, Scale(leftDir, 0.2)), planeId),
      VectorArrowVertex(stemEndpoint, planeId), VectorArrowVertex(Add(stemEndpoint, Scale(rightDir, 0.2)), planeId) ]
  }

  /** The vertices of the first `count` arrows, in order. The barb directions come from
      normalising rotated copies of each vector, which `leftDirOf` and `rightDirOf` stand for. */
  function ArrowsVertices(
    count: nat, position: seq<Vec2>, planeId: seq<real>, vector: seq<Vec2>, lengthAdjustment: real,
    leftDirOf: Vec2 -> Vec2, rightDirOf: Vec2 -> Vec2)
    : seq<VectorArrowVertex>
    requires count <= |position| && count <= |planeId| && count <= |vector|
  {
    if count == 0 then []
    else
      ArrowsVertices(count - 1, position, planeId, vector, lengthAdjustment, leftDirOf, rightDirOf)
      + ArrowVertices(position[count - 1], planeId[count - 1], vector[count - 1], lengthAdjustment,
                      leftDirOf(vector[count - 1]), rightDirOf(vector[count - 1]))
  }

  /** One arrow's six vertices: the stem starts at the position and ends at the position plus
      the adjusted vector, and all six are on the arrow's plane. */
  lemma ArrowVerticesShape(position: Vec2, planeId: real, vector: Vec2, lengthAdjustment: real, leftDir: Vec2, rightDir: Vec2)
    ensures var a := ArrowVertices(position, planeId, vector, lengthAdjustment, leftDir, rightDir);
      |a| == 6 && a[0].position == position && a[1].position == Add(position, Scale(vector, lengthAdjustment))
      && a[2].position == a[1].position && a[4].position == a[1].position
      && forall k :: 0 <= k < 6 ==> a[k].planeId == planeId
  {
  }

  /** Each arrow takes six vertices: the i-th starts at vertex 6i, at the i-th position, its
      stem ends at the position plus the adjusted vector, and all six are on the i-th plane. */
  lemma {:induction false} ArrowsVerticesLayout(
    count: nat, position: seq<Vec2>, planeId: seq<real>, vector: seq<Vec2>, lengthAdjustment: real,
    leftDirOf: Vec2 -> Vec2, rightDirOf: Vec2 -> Vec2)
    requires count <= |position| && count <= |planeId| && count <= |vector|
    ensures var v := ArrowsVertices(count, position, planeId, vector, lengthAdjustment, leftDirOf, rightDirOf);
      |v| == 6 * count
      && (forall i :: 0 <= i < count ==>
            v[6 * i].position == position[i]
            && v[6 * i + 1].position == Add(position[i], Scale(vector[i], lengthAdjustment)))
      && (forall k :: 0 <= k < |v| ==> v[k].planeId == planeId[k / 6])
  {
    if count > 0 {
      var n := count - 1;
      ArrowsVerticesLayout(n, position, planeId, vector, lengthAdjustment, leftDirOf, rightDirOf);
      var prefix := ArrowsVertices(n, position, planeId, vector, lengthAdjustment, leftDirOf, rightDirOf);
      var last := ArrowVertices(position[n], planeId[n], vector[n], lengthAdjustment, leftDirOf(vector[n]), rightDirOf(vector[n]));
      ArrowVerticesShape(position[n], planeId[n], vector[n], lengthAdjustment, leftDirOf(vector[n]), rightDirOf(vector[n]));
      var v := ArrowsVertices(count, position, planeId, vector, lengthAdjustment, leftDirOf, rightDirOf);
      assert v == prefix + last;
      assert |prefix| == 6 * n;
      forall k | 0 <= k < |v|
        ensures v[k].planeId == planeId[k / 6]
      {
        if k >= |prefix| {
          assert v[k] == last[k - 6 * n];
          assert k / 6 == n;
        } else {
          assert v[k] == prefix[k];
        }
      }
      forall i | 0 <= i < count
        ensures v[6 * i].position == position[i]
        ensures v[6 * i + 1].position == Add(position[i], Scale(vector[i], lengthAdjustment))
      {
        if i == n {
          assert v[6 * i] == last[0] && v[6 * i + 1] == last[1];
        } else {
          assert v[6 * i] == prefix[6 * i] && v[6 * i + 1] == prefix[6 * i + 1];
        }
      }
    }
  }

  // ---- The render context ----

  /** The buffers UploadStart resets, with the plane id state. */
  datatype PlaneBuffers = PlaneBuffers(
    explosionPlaneVertexBuffers: seq<seq<Vertex>>,
    genericMipMappedTexturePlaneVertexBuffers: seq<seq<Vertex>>,
    sparkleVertexBuffer: seq<Vertex>,
    genericMipMappedTextureAirBubbleVertexBuffer: seq<Vertex>,
    /** One buffer per highlight mode. */
    highlightVertexBuffers: seq<seq<Vertex>>,
    maxMaxPlaneId: nat,
    isViewModelDirty: bool)

  /** The element buffers, with the byte layout and allocated size of their last upload. */
  datatype ElementBuffers = ElementBuffers(
    pointElementBuffer: seq<Element>,
    springElementBuffer: seq<Element>,
    ropeElementBuffer: seq<Element>,
    triangleElementBuffer: seq<Element>,
    stressedSpringElementBuffer: seq<Element>,
    ephemeralPointElementBuffer: seq<Element>,
    areElementBuffersDirty: bool,
    layout: ElementLayout,
    elementVBOAllocatedIndexSize: nat)

  /** The vector arrows and their colour. */
  datatype VectorArrows = VectorArrows(vectorArrowVertexBuffer: seq<VectorArrowVertex>, vectorArrowColor: Vec4, isVectorArrowColorDirty: bool)

  /** The element step of UploadElementsStart: the point, spring, rope and stressed spring
      buffers are emptied, the triangles kept (a client that uploads none reuses the last
      ones), and the buffers marked dirty. */
  function ElementsStarted(e: ElementBuffers): (r: ElementBuffers)
    ensures r.pointElementBuffer == [] && r.springElementBuffer == [] && r.ropeElementBuffer == []
    ensures r.stressedSpringElementBuffer == [] && r.areElementBuffersDirty
    ensures r.triangleElementBuffer == e.triangleElementBuffer && r.ephemeralPointElementBuffer == e.ephemeralPointElementBuffer
    ensures r.layout == e.layout && r.elementVBOAllocatedIndexSize == e.elementVBOAllocatedIndexSize
  {
    e.(pointElementBuffer := [], springElementBuffer := [], ropeElementBuffer := [], stressedSpringElementBuffer := [],
       areElementBuffersDirty := true)
  }

  /** The element step of Draw: dirty buffers are laid out one after the other, the buffer
      object is sized to the required size, and the dirty flag is cleared; clean buffers are
      left as they are. */
  function ElementsUploaded(sizes: ElementSizes, e: ElementBuffers): (r: ElementBuffers)
    ensures e.areElementBuffersDirty ==>
      r.layout == ElementLayoutOf(sizes, |e.triangleElementBuffer|, |e.ropeElementBuffer|, |e.springElementBuffer|,
                                  |e.pointElementBuffer|, |e.ephemeralPointElementBuffer|)
      && r.elementVBOAllocatedIndexSize == r.layout.requiredSize
    ensures !e.areElementBuffersDirty ==> r == e
    ensures !r.areElementBuffersDirty
    ensures r.(layout := e.layout, elementVBOAllocatedIndexSize := e.elementVBOAllocatedIndexSize, areElementBuffersDirty := e.areElementBuffersDirty) == e
  {
    if !e.areElementBuffersDirty then e
    else
      var triangleStart := 0;
      var ropeStart := triangleStart + |e.triangleElementBuffer| * sizes.triangle;
      var springStart := ropeStart + |e.ropeElementBuffer| * sizes.line;
      var pointStart := springStart + |e.springElementBuffer| * sizes.line;
      var ephemeralPointStart := pointStart + |e.pointElementBuffer| * sizes.point;
      var requiredIndexSize := ephemeralPointStart + |e.ephemeralPointElementBuffer| * sizes.point;
      var allocatedIndexSize := if e.elementVBOAllocatedIndexSize != requiredIndexSize then requiredIndexSize else e.elementVBOAllocatedIndexSize;
      e.(layout := ElementLayout(triangleStart, ropeStart, springStart, pointStart, ephemeralPointStart, requiredIndexSize),
         elementVBOAllocatedIndexSize := allocatedIndexSize, areElementBuffersDirty := false)
  }

  /** Uploading clean element buffers again changes nothing. */
  lemma ElementsUploadedIdempotent(sizes: ElementSizes, e: ElementBuffers)
    ensures ElementsUploaded(sizes, ElementsUploaded(sizes, e)) == ElementsUploaded(sizes, e)
  {
  }

  /** The colour step of UploadVectors: the new colour is stored, and the dirty flag is raised
      when it differs from the stored one and otherwise kept. */
  function ArrowColorUpdated(a: VectorArrows, color: Vec4): (r: VectorArrows)
    ensures r.vectorArrowColor == color && r.vectorArrowVertexBuffer == a.vectorArrowVertexBuffer
    ensures r.isVectorArrowColorDirty == (a.isVectorArrowColorDirty || color != a.vectorArrowColor)
  {
    if color != a.vectorArrowColor then a.(vectorArrowColor := color, isVectorArrowColorDirty := true) else a
  }

  class ShipRenderContext {
    /** The number of points of the ship. */
    const pointCount: nat
    /** Per point: position in .x/.y, texture coordinates in .z/.w. */
    const pointAttributeGroup1Buffer: array<Vec4>
    /** Per point: light in .x, water in .y, plane id in .z, decay in .w. */
    const pointAttributeGroup2Buffer: array<Vec4>
    /** The byte sizes of the element structures. */
    const elementSizes: ElementSizes

    var planes: PlaneBuffers
    var elements: ElementBuffers
    var flameVertexBufferAllocatedSize: nat
    var arrows: VectorArrows

    ghost predicate Valid()
      reads this
    {
      pointAttributeGroup1Buffer.Length == pointCount && pointAttributeGroup2Buffer.Length == pointCount
      && pointAttributeGroup1Buffer != pointAttributeGroup2Buffer
      && planes.maxMaxPlaneId < TwoToThe32
      && |planes.explosionPlaneVertexBuffers| <= planes.maxMaxPlaneId + 1
      && |planes.genericMipMappedTexturePlaneVertexBuffers| <= planes.maxMaxPlaneId + 1
      && flameVertexBufferAllocatedSize < TwoToThe64
    }

    /** A context for `pointCount` points, with nothing uploaded yet: the point attributes
        are zeroed, and the view model, the element buffers and the opaque black arrow colour
        start out dirty so that the first Draw uploads them. */
    constructor (pointCount: nat, elementSizes: ElementSizes, highlightModeCount: nat)
      ensures Valid() && fresh(pointAttributeGroup1Buffer) && fresh(pointAttributeGroup2Buffer)
      ensures this.pointCount == pointCount && this.elementSizes == elementSizes
      ensures forall i :: 0 <= i < pointCount ==>
        pointAttributeGroup1Buffer[i] == Vec4Zero && pointAttributeGroup2Buffer[i] == Vec4Zero
      ensures planes == PlaneBuffers([], [], [], [], seq(highlightModeCount, _ => []), 0, true)
      ensures elements == ElementBuffers([], [], [], [], [], [], true, ElementLayout(0, 0, 0, 0, 0, 0), 0)
      ensures flameVertexBufferAllocatedSize == 0
      ensures arrows == VectorArrows([], Vec4(0.0, 0.0, 0.0, 1.0), true)
    {
      this.pointCount := pointCount;
      this.elementSizes := elementSizes;
      pointAttributeGroup1Buffer := new Vec4[pointCount](_ => Vec4Zero);
      pointAttributeGroup2Buffer := new Vec4[pointCount](_ => Vec4Zero);
      planes := PlaneBuffers([], [], [], [], seq(highlightModeCount, _ => []), 0, true);
      elements := ElementBuffers([], [], [], [], [], [], true, ElementLayout(0, 0, 0, 0, 0, 0), 0);
      flameVertexBufferAllocatedSize := 0;
      arrows := VectorArrows([], Vec4(0.0, 0.0, 0.0, 1.0), true);
    }

    /** UploadStart: empties every per-plane, sparkle, air bubble, highlight and vector arrow
        buffer, grows the per-plane buffers to one per plane up to `newMaxMaxPlaneId` (they
        never shrink), and marks the view model dirty when the largest plane id changed. */
    method UploadStart(newMaxMaxPlaneId: nat)
      requires Valid() && newMaxMaxPlaneId < TwoToThe32
      requires |planes.explosionPlaneVertexBuffers| <= newMaxMaxPlaneId + 1
      requires |planes.genericMipMappedTexturePlaneVertexBuffers| <= newMaxMaxPlaneId + 1
      modifies this
      ensures Valid()
      ensures planes.explosionPlaneVertexBuffers == seq(newMaxMaxPlaneId + 1, _ => [])
      ensures planes.genericMipMappedTexturePlaneVertexBuffers == seq(newMaxMaxPlaneId + 1, _ => [])
      ensures planes.sparkleVertexBuffer == [] && planes.genericMipMappedTextureAirBubbleVertexBuffer == []
      ensures |planes.highlightVertexBuffers| == |old(planes.highlightVertexBuffers)|
      ensures forall i :: 0 <= i < |planes.highlightVertexBuffers| ==> planes.highlightVertexBuffers[i] == []
      ensures planes.maxMaxPlaneId == newMaxMaxPlaneId
      ensures planes.isViewModelDirty == (old(planes.isViewModelDirty) || newMaxMaxPlaneId != old(planes.maxMaxPlaneId))
      ensures arrows == old(arrows).(vectorArrowVertexBuffer := [])
      ensures elements == old(elements) && flameVertexBufferAllocatedSize == old(flameVertexBufferAllocatedSize)
    {
      var newSize := newMaxMaxPlaneId + 1;
      var explosion := ClearedAndResized(planes.explosionPlaneVertexBuffers, newSize);
      var generic := ClearedAndResized(planes.genericMipMappedTexturePlaneVertexBuffers, newSize);
      var highlight := Cleared(planes.highlightVertexBuffers);
      var isViewModelDirty := planes.isViewModelDirty;
      if newMaxMaxPlaneId != planes.maxMaxPlaneId {
        isViewModelDirty := true;
      }
      planes := PlaneBuffers(explosion, generic, [], [], highlight, newMaxMaxPlaneId, isViewModelDirty);
      arrows := arrows.(vectorArrowVertexBuffer := []);
    }

    /** UploadPointImmutableAttributes: every point's texture coordinates go into .z/.w of
        attribute group 1; its position in .x/.y stays. */
    method UploadPointImmutableAttributes(textureCoordinates: seq<Vec2>)
      requires Valid() && |textureCoordinates| >= pointCount
      modifies pointAttributeGroup1Buffer
      ensures forall i :: 0 <= i < pointCount ==>
        pointAttributeGroup1Buffer[i] ==
          old(pointAttributeGroup1Buffer[i]).(z := textureCoordinates[i].x, w := textureCoordinates[i].y)
    {
      var i := 0;
      while i < pointCount
        invariant 0 <= i <= pointCount
        invariant forall j :: 0 <= j < i ==>
          pointAttributeGroup1Buffer[j] ==
            old(pointAttributeGroup1Buffer[j]).(z := textureCoordinates[j].x, w := textureCoordinates[j].y)
        invariant forall j :: i <= j < pointCount ==> pointAttributeGroup1Buffer[j] == old(pointAttributeGroup1Buffer[j])
      {
        pointAttributeGroup1Buffer[i] := pointAttributeGroup1Buffer[i].(z := textureCoordinates[i].x, w := textureCoordinates[i].y);
        i := i + 1;
      }
    }

    /** UploadPointMutableAttributes: every point's position goes into .x/.y of group 1, and
        the light and water of the first `lightAndWaterCount` points into .x/.y of group 2;
        the texture coordinates, plane ids, decay and the other points' light and water stay. */
    method UploadPointMutableAttributes(position: seq<Vec2>, light: seq<real>, water: seq<real>, lightAndWaterCount: nat)
      requires Valid() && |position| >= pointCount
      requires lightAndWaterCount <= pointCount && |light| >= lightAndWaterCount && |water| >= lightAndWaterCount
      modifies pointAttributeGroup1Buffer, pointAttributeGroup2Buffer
      ensures forall i :: 0 <= i < pointCount ==>
        pointAttributeGroup1Buffer[i] == old(pointAttributeGroup1Buffer[i]).(x := position[i].x, y := position[i].y)
      ensures forall i :: 0 <= i < lightAndWaterCount ==>
        pointAttributeGroup2Buffer[i] == old(pointAttributeGroup2Buffer[i]).(x := light[i], y := water[i])
      ensures forall i :: lightAndWaterCount <= i < pointCount ==>
        pointAttributeGroup2Buffer[i] == old(pointAttributeGroup2Buffer[i])
    {
      var i := 0;
      while i < pointCount
        invariant 0 <= i <= pointCount
        invariant forall j :: 0 <= j < i ==>
          pointAttributeGroup1Buffer[j] == old(pointAttributeGroup1Buffer[j]).(x := position[j].x, y := position[j].y)
        invariant forall j :: i <= j < pointCount ==> pointAttributeGroup1Buffer[j] == old(pointAttributeGroup1Buffer[j])
        modifies pointAttributeGroup1Buffer
      {
        pointAttributeGroup1Buffer[i] := pointAttributeGroup1Buffer[i].(x := position[i].x, y := position[i].y);
        i := i + 1;
      }
      i := 0;
      while i < lightAndWaterCount
        invariant 0 <= i <= lightAndWaterCount
        invariant forall j :: 0 <= j < i ==>
          pointAttributeGroup2Buffer[j] == old(pointAttributeGroup2Buffer[j]).(x := light[j], y := water[j])
        invariant forall j :: i <= j < pointCount ==> pointAttributeGroup2Buffer[j] == old(pointAttributeGroup2Buffer[j])
        modifies pointAttributeGroup2Buffer
      {
        pointAttributeGroup2Buffer[i] := pointAttributeGroup2Buffer[i].(x := light[i], y := water[i]);
        i := i + 1;
      }
    }

    /** UploadPointMutableAttributesPlaneId: the plane ids of points [startDst, startDst + count)
        go into .z of group 2; everything else stays. */
    method UploadPointMutableAttributesPlaneId(planeId: seq<real>, startDst: nat, count: nat)
      requires Valid() && startDst + count <= pointCount && |planeId| >= count
      modifies pointAttributeGroup2Buffer
      ensures forall i :: 0 <= i < pointCount ==>
        pointAttributeGroup2Buffer[i] ==
          if startDst <= i < startDst + count then old(pointAttributeGroup2Buffer[i]).(z := planeId[i - startDst])
          else old(pointAttributeGroup2Buffer[i])
    {
      var i := 0;
      while i < count
        invariant 0 <= i <= count
        invariant forall j :: 0 <= j < pointCount ==>
          pointAttributeGroup2Buffer[j] ==
            if startDst <= j < startDst + i then old(pointAttributeGroup2Buffer[j]).(z := planeId[j - startDst])
            else old(pointAttributeGroup2Buffer[j])
      {
        pointAttributeGroup2Buffer[startDst + i] := pointAttributeGroup2Buffer[startDst + i].(z := planeId[i]);
        i := i + 1;
      }
    }

    /** UploadPointMutableAttributesDecay: the decay of points [startDst, startDst + count) goes
        into .w of group 2; everything else stays. */
    method UploadPointMutableAttributesDecay(decay: seq<real>, startDst: nat, count: nat)
      requires Valid() && startDst + count <= pointCount && |decay| >= count
      modifies pointAttributeGroup2Buffer
      ensures forall i :: 0 <= i < pointCount ==>
        pointAttributeGroup2Buffer[i] ==
          if startDst <= i < startDst + count then old(pointAttributeGroup2Buffer[i]).(w := decay[i - startDst])
          else old(pointAttributeGroup2Buffer[i])
    {
      var i := 0;
      while i < count
        invariant 0 <= i <= count
        invariant forall j :: 0 <= j < pointCount ==>
          pointAttributeGroup2Buffer[j] ==
            if startDst <= j < startDst + i then old(pointAttributeGroup2Buffer[j]).(w := decay[j - startDst])
            else old(pointAttributeGroup2Buffer[j])
      {
        pointAttributeGroup2Buffer[startDst + i] := pointAttributeGroup2Buffer[startDst + i].(w := decay[i]);
        i := i + 1;
      }
    }

    /** UploadElementsStart. */
    method UploadElementsStart()
      modifies this
      ensures elements == ElementsStarted(old(elements))
      ensures planes == old(planes) && arrows == old(arrows) && flameVertexBufferAllocatedSize == old(flameVertexBufferAllocatedSize)
    {
      elements := ElementsStarted(elements);
    }

    /** UploadElementTrianglesStart: the triangle buffer is resized to the new count, keeping
        the triangles it already has up to that count; nothing else changes. */
    method UploadElementTrianglesStart(trianglesCount: nat)
      modifies this
      ensures elements == old(elements).(triangleElementBuffer := Resized(old(elements.triangleElementBuffer), trianglesCount, EmptyTriangle))
      ensures planes == old(planes) && arrows == old(arrows) && flameVertexBufferAllocatedSize == old(flameVertexBufferAllocatedSize)
    {
      elements := elements.(triangleElementBuffer := Resized(elements.triangleElementBuffer, trianglesCount, EmptyTriangle));
    }

    /** UploadFlamesStart's allocation step: reallocates for `count` flames when the rule asks
        for it; the mapping of the buffer itself is an OpenGL call and not part of this model. */
    method UploadFlamesStart(count: nat)
      requires Valid() && count < TwoToThe64
      modifies this
      ensures Valid()
      ensures flameVertexBufferAllocatedSize ==
        if FlameNeedsReallocation(count, old(flameVertexBufferAllocatedSize)) then FlameAllocationFor(count)
        else old(flameVertexBufferAllocatedSize)
      ensures planes == old(planes) && elements == old(elements) && arrows == old(arrows)
    {
      if count > flameVertexBufferAllocatedSize || count < (flameVertexBufferAllocatedSize - 100) % TwoToThe64 {
        flameVertexBufferAllocatedSize := ((count / 100 + 1) * 100) % TwoToThe64;
      }
    }

    /** UploadVectors: appends the six vertices of each of the `count` arrows, then updates the
        arrow colour. */
    method UploadVectors(
      count: nat, position: seq<Vec2>, planeId: seq<real>, vector: seq<Vec2>, lengthAdjustment: real, color: Vec4,
      leftDirOf: Vec2 -> Vec2, rightDirOf: Vec2 -> Vec2)
      requires count <= |position| && count <= |planeId| && count <= |vector|
      modifies this
      ensures arrows == ArrowColorUpdated(
        old(arrows).(vectorArrowVertexBuffer := old(arrows.vectorArrowVertexBuffer)
          + ArrowsVertices(count, position, planeId, vector, lengthAdjustment, leftDirOf, rightDirOf)),
        color)
      ensures planes == old(planes) && elements == old(elements) && flameVertexBufferAllocatedSize == old(flameVertexBufferAllocatedSize)
    {
      var buffer := arrows.vectorArrowVertexBuffer;
      var i := 0;
      while i < count
        invariant 0 <= i <= count
        invariant buffer ==
          old(arrows.vectorArrowVertexBuffer) + ArrowsVertices(i, position, planeId, vector, lengthAdjustment, leftDirOf, rightDirOf)
        modifies {}
      {
        ghost var before := buffer;
        var stemEndpoint := Add(position[i], Scale(vector[i], lengthAdjustment));
        buffer := buffer + [VectorArrowVertex(position[i], planeId[i]), VectorArrowVertex(stemEndpoint, planeId[i])];
        var leftDir := leftDirOf(vector[i]);
        buffer := buffer
          + [VectorArrowVertex(stemEndpoint, planeId[i]), VectorArrowVertex(Add(stemEndpoint, Scale(leftDir, 0.2)), planeId[i])];
        var rightDir := rightDirOf(vector[i]);
        buffer := buffer
          + [VectorArrowVertex(stemEndpoint, planeId[i]), VectorArrowVertex(Add(stemEndpoint, Scale(rightDir, 0.2)), planeId[i])];
        ghost var arrow := ArrowVertices(position[i], planeId[i], vector[i], lengthAdjustment, leftDir, rightDir);
        assert buffer == before + arrow;
        AppendAssociates(old(arrows.vectorArrowVertexBuffer),
          ArrowsVertices(i, position, planeId, vector, lengthAdjustment, leftDirOf, rightDirOf), arrow);
        i := i + 1;
      }
      arrows := ArrowColorUpdated(arrows.(vectorArrowVertexBuffer := buffer), color);
    }

    /** The element step of Draw. */
    method UploadElementBuffers()
      modifies this
      ensures elements == ElementsUploaded(elementSizes, old(elements))
      ensures planes == old(planes) && arrows == old(arrows) && flameVertexBufferAllocatedSize == old(flameVertexBufferAllocatedSize)
    {
      elements := ElementsUploaded(elementSizes, elements);
    }
  }

  /** Empties every buffer of a list, one at a time. */
  method Cleared(buffers: seq<seq<Vertex>>) returns (r: seq<seq<Vertex>>)
    ensures |r| == |buffers|
    ensures forall j :: 0 <= j < |r| ==> r[j] == []
  {
    r := buffers;
    var i := 0;
    while i < |buffers|
      invariant 0 <= i <= |buffers| == |r|
      invariant forall j :: 0 <= j < i ==> r[j] == []
    {
      r := r[i := []];
      i := i + 1;
    }
  }

  /** The per-plane step of UploadStart: every existing buffer is emptied, then the list is
      grown to `newSize` with empty buffers. */
  method ClearedAndResized(buffers: seq<seq<Vertex>>, newSize: nat) returns (r: seq<seq<Vertex>>)
    requires |buffers| <= newSize
    ensures r == seq(newSize, _ => [])
  {
    r := Cleared(buffers);
    if newSize != |r| {
      r := Resized(r, newSize, []);
    }
  }

  lemma AppendAssociates<T>(a: seq<T>, b: seq<T>, c: seq<T>)
    ensures a + b + c == a + (b + c)
  {
  }
}
