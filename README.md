# Floating Sandbox core, modelled in Dafny

This project models the data-handling core of Floating Sandbox, a 2D ship physics game, and
proves properties of the model. It covers:

- **Buffer2D** (`Buffer2D.dfy`): the generic two-dimensional buffer, with its constructors,
  cell access, clone, region clone, blit, reframe and in-place flip. It is a class over an
  `array`.
- **UndoStack** (`UndoStack.dfy`): the ship builder's undo stack, capped by entry count and by
  total cost. It is a class with the running total as a field.
- **TextureAtlas** (`TextureAtlas.dfy`): the construction of texture atlases:
  - the packing of power-of-two frames (BuildAtlasSpecification);
  - the grid of equally sized frames (BuildRegularAtlasSpecification);
  - CopyImage;
  - the image and metadata that BuildAtlas assembles.
- **Materials** (`MaterialEnums.dfy`, `Materials.dfy`): the parsing and validation of
  structural and electrical material definitions. This includes:
  - the `StrTo*` name parsers;
  - the defaults and range checks of both `Create` functions;
  - the palette coordinate shift;
  - the test constructors;
  - the derived quantities;
  - the labels of instanced electrical elements.
- **OceanFloor** (`OceanFloor.dfy`): the wrapping of a position onto the periodic floor samples,
  and the interpolated height.
- **ShipBuilderTypes** (`ShipBuilderTypes.dfy`): the layer and visualization enumerations and
  the `ModelDirtyState` flags.
- **ShipRenderContext** (`ShipRenderContext.dfy`, module `ShipRenderBuffers`): the CPU-side
  buffers of a ship's render context:
  - the point attribute arrays;
  - the per-plane, element, flame and vector arrow buffers;
  - their dirty flags;
  - the byte layout of the element buffer.
- **LocalizationManager** (`LocalizationManager.dfy`, module `Localization`):
  - language identifiers;
  - the two lookups;
  - storing the desired language;
  - building the sorted, duplicate-free list of available languages.
- **GameEventDispatcher** (`GameEventDispatcher.dfy`, module `GameEvents`): stress events are
  aggregated per key until a flush, and sinking events pass straight through.

Shared support:

- `Wrappers.dfy`: Option and Result types.
- `Vectors.dfy`: 2D and 4D vectors over reals.
- `Colors.dfy`: RGB and RGBA colours.
- `Text.dfy`: ASCII case folding and decimal rendering.
- `Json.dfy`: JSON objects and their member accessors.
- `Memory.dfy`: row-major indexing and a range copy.

Floating-point values are modelled as reals. Sizes and indices are unbounded naturals.
Where the source's fixed-width arithmetic matters, it is written out:

- the `unsigned int` palette ordinal, modulo 2^32;
- the `size_t` flame allocation test, modulo 2^64;
- C++'s truncating `%` in OceanFloor.

## Model

| member | source | states |
|---|---|---|
| Buffer2D.LinearIndex | GameCore/Buffer2D.h:113-121 | a cell inside the size has a linear index below width*height |
| Buffer2D.LinearIndexInjective | GameCore/Buffer2D.h:113-121 | distinct cells inside the size have distinct linear indices |
| Buffer2D.LinearIndexSurjective | GameCore/Buffer2D.h:113-121 | every index below width*height is the linear index of the cell (i mod width, i div width) |
| Buffer2D.Buffer2D.constructor | GameCore/Buffer2D.h:34-41 | a fresh buffer of the given width and height |
| Buffer2D.Buffer2D.Filled | GameCore/Buffer2D.h:53-65 | every cell of the new buffer holds the default value |
| Buffer2D.Buffer2D.FromData | GameCore/Buffer2D.h:77-85 | the buffer adopts the given data, which has width*height cells |
| Buffer2D.Buffer2D.Clone | GameCore/Buffer2D.h:123-132 | a fresh buffer of the same size whose every cell equals this buffer's cell |
| Buffer2D.Buffer2D.CloneRegion | GameCore/Buffer2D.h:134-152 | a fresh buffer of the region's size whose cell (x, y) is this buffer's cell (x + origin.x, y + origin.y) |
| Buffer2D.Buffer2D.BlitFromRegion | GameCore/Buffer2D.h:154-175 | each cell of the target rectangle receives the matching cell of the source region as it was before the blit; every other cell keeps its old value; a buffer may be blitted into itself when the two rectangles are disjoint |
| Buffer2D.Buffer2D.MakeReframed | GameCore/Buffer2D.h:177-213 | new cell c is old cell c - offset when that lies inside the old buffer, and the filler otherwise, which covers cropping by negative offsets |
| Buffer2D.Buffer2D.Flip | GameCore/Buffer2D.h:215-254 | as written: each cell receives the old value of its flip source; a direction other than horizontal, vertical or both changes nothing |
| Buffer2D.Buffer2D.FlipRotated | GameCore/Buffer2D.h:215-254 | corrected: flipping both ways turns the whole buffer by half a turn, middle row included |
| Buffer2D.Buffer2D.MirrorRow | GameCore/Buffer2D.h:233-254 | row y is mirrored horizontally in place and no other row changes |
| Buffer2D.Buffer2D.FlipCells | GameCore/Buffer2D.h:233-254 | the nested swap loop of Flip<H, V>: every cell ends up with the old value of its flip source |
| Buffer2D.Buffer2D.Swap | GameCore/Buffer2D.h:251 | the two cells exchange values and every other cell keeps its value |
| Buffer2D.FlipSourceInvolution | GameCore/Buffer2D.h:215-254 | the flip source of a cell lies inside the buffer, and the source of the source is the cell itself, for both flips |
| Buffer2D.RotatedIsComposition | GameCore/Buffer2D.h:215-229 | flipping both ways is the horizontal flip composed with the vertical flip |
| Buffer2D.FlipBothMissesMiddleRow | GameCore/Buffer2D.h:233-254 | finding: with odd height and width at least 2, Flip<true, true> leaves the first cell of the middle row in place, although the half turn moves it to the end of its row |
| Buffer2D.FlipTwice | GameCore/Buffer2D.h:215-229 | flipping twice in the same direction restores every cell |
| UndoStack.SumCostsAppend | ShipBuilderLib/UndoStack.cpp:39-43 | appending an action adds its cost to the total |
| UndoStack.SumCostsBoundsEach | ShipBuilderLib/UndoStack.cpp:48 | each action costs at most the total, so subtracting it cannot underflow |
| UndoStack.SumCostsSuffix | ShipBuilderLib/UndoStack.cpp:46-51 | dropping the oldest actions never raises the total |
| UndoStack.TrimCount | ShipBuilderLib/UndoStack.cpp:46-51 | the trimming loop removes at most every action |
| UndoStack.TrimIsShortestCut | ShipBuilderLib/UndoStack.cpp:46-51 | after trimming, both caps hold, and every longer suffix breaks a cap: only the oldest actions needed are removed |
| UndoStack.TrimFitting | ShipBuilderLib/UndoStack.cpp:46-51 | a stack within both caps is left alone |
| UndoStack.PushOverCostEmpties | ShipBuilderLib/UndoStack.cpp:46-51 | an action that alone costs more than the cost cap is trimmed with everything before it, so the stack ends empty |
| UndoStack.UndoStack.constructor | ShipBuilderLib/UndoStack.cpp:37-52 | an empty stack with zero total cost and the given caps |
| UndoStack.UndoStack.Push | ShipBuilderLib/UndoStack.cpp:37-52 | the stack becomes the trim of the old stack plus the action, and the total stays the sum of the stored costs (the cost invariant is kept) |
| UndoStack.UndoStack.Pop | ShipBuilderLib/UndoStack.cpp:54-67 | on a non-empty stack, returns the newest action, removes it and subtracts its cost, keeping the cost invariant |
| UndoStack.PushThenPop | ShipBuilderLib/UndoStack.cpp:37-67 | a Push that needs no trimming, then a Pop, returns the pushed action and restores stack and total |
| UndoStack.PushPopRoundTrip | ShipBuilderLib/UndoStack.cpp:37-67 | without trimming, the pushed stack ends with the action and its prefix is the old stack |
| UndoStack.TrimKeepsNewest | ShipBuilderLib/UndoStack.cpp:37-52 | the pushed stack is a suffix of the old stack plus the action, and the action is last whenever anything survives |
| TextureAtlas.CeilPowerOfTwo | Game/TextureAtlas-inl.h:247-261 | the smallest power of two no smaller than n: a power of two, at least n, and below 2n |
| TextureAtlas.PowerOfTwoIffFixed | Game/TextureAtlas-inl.h:247-258 | the test n == ceil_power_of_two(n) holds exactly for the powers of two |
| TextureAtlas.IntSqrt | Game/TextureAtlas-inl.h:261 | the integer square root: r*r <= n < (r+1)*(r+1) |
| TextureAtlas.Insert | Game/TextureAtlas-inl.h:232-240 | inserting into a sorted list keeps it in placement order and adds exactly the frame |
| TextureAtlas.SortTextureInfos | Game/TextureAtlas-inl.h:232-240 | the frames in placement order (taller first, then wider first), as a permutation of the input |
| TextureAtlas.SortKeepsMembers | Game/TextureAtlas-inl.h:232-240 | sorting keeps exactly the frames it was given |
| TextureAtlas.PutOnTop | Game/TextureAtlas-inl.h:321 | the new spot to the right of a placed frame keeps the stack's shape and becomes its top |
| TextureAtlas.RaiseTop | Game/TextureAtlas-inl.h:305-318 | raising the top spot by the frame's height keeps the stack's shape |
| TextureAtlas.PopTop | Game/TextureAtlas-inl.h:305-318 | a completed spot lies exactly one frame below the spot under it, as the source asserts, and closing it keeps the shape |
| TextureAtlas.PlaceFrame | Game/TextureAtlas-inl.h:289-337 | one pass of the placement loop: the frame lands wholly inside the grown atlas, which never shrinks and stays a power of two on each side |
| TextureAtlas.FirstNotPowerOfTwo | Game/TextureAtlas-inl.h:247-258 | the first frame that is not a power of two in both dimensions, with every earlier frame a power of two |
| TextureAtlas.MeasureFrames | Game/TextureAtlas-inl.h:247-258 | names the first frame that is not a power of two, and otherwise returns the total area |
| TextureAtlas.PlaceFrames | Game/TextureAtlas-inl.h:270-337 | one position per sorted frame, each frame wholly inside the final atlas, which is no smaller than the starting side |
| TextureAtlas.EveryFramePlaced | Game/TextureAtlas-inl.h:226-355 | a placement of the sorted frames places every input frame |
| TextureAtlas.BuildAtlasSpecification | Game/TextureAtlas-inl.h:226-355 | fails exactly when some frame is not a power of two, naming the first in sorted order; otherwise emits one position per frame, each frame inside the atlas, with power-of-two sides no smaller than the side estimated from the area |
| TextureAtlas.SquareSide | Game/TextureAtlas-inl.h:393-398 | the smallest power of two whose square covers the frame count |
| TextureAtlas.CeilSquarePowerOfTwo | Game/TextureAtlas-inl.h:393-398 | the count rounded up to the square of a power of two is at least the count |
| TextureAtlas.IntSqrtOfSquare | Game/TextureAtlas-inl.h:393-398 | the square root of a perfect square is exact |
| TextureAtlas.GridCellInside | Game/TextureAtlas-inl.h:403-412 | grid cell i (column i mod n, row i div n) lies wholly inside the n*fw by n*fh atlas |
| TextureAtlas.GridCellsDistinct | Game/TextureAtlas-inl.h:403-412 | distinct grid cells have distinct corners |
| TextureAtlas.FirstDifferentSize | Game/TextureAtlas-inl.h:377-385 | the first frame of a size different from frame 0's, with every earlier frame the same size |
| TextureAtlas.BuildRegularAtlasSpecification | Game/TextureAtlas-inl.h:358-421 | fails on empty input, on a first frame that is not a power of two, and exactly when some frame differs in size from the first, naming it; otherwise frame i sits at column i mod n, row i div n of an n*fw by n*fh atlas, inside it, and no two frames share a corner |
| TextureAtlas.CopyImage | Game/TextureAtlas-inl.h:499-518 | each destination cell under the source receives its source pixel, and every other cell keeps its value |
| TextureAtlas.AllRowsCopied | Game/TextureAtlas-inl.h:499-518 | once every source row is copied, the target rectangle holds the source and the rest its old content |
| TextureAtlas.PlacedFrameFits | Game/TextureAtlas-inl.h:442-473 | a frame placed by a specification fits in the atlas when the loader returns a frame of the placed size |
| TextureAtlas.AtlasCellUncovered | Game/TextureAtlas-inl.h:433-438 | a cell that no copied frame covers keeps the initial transparent black |
| TextureAtlas.AtlasCellLastCover | Game/TextureAtlas-inl.h:442-473 | a cell covered by frame i and by no later frame holds frame i's pixel, so without overlaps each covered cell holds the pixel of its one frame |
| TextureAtlas.BuildAtlas | Game/TextureAtlas-inl.h:424-496 | the image has the atlas's size and each cell holds the pixel of the last frame covering it (transparent black if none); one metadata entry per position, in order, with that position's corner |
| Materials.WrappingAdd | Game/Materials.cpp:102-103 | the unsigned int `+=` of the palette ordinal, wrapping at 2^32 |
| Materials.DeserializePaletteCoordinates | Game/Materials.cpp:14-22 | succeeds exactly when the three mandatory members are present with the right types; the ordinal is the integer cast to unsigned int |
| Materials.ShiftedPaletteCoordinates | Game/Materials.cpp:100-104 | the deserialized coordinates with the material's ordinal added to the sub-category ordinal, or the deserializer's error |
| Materials.IsUniqueTypeExclusive | Game/Materials.h:119-122 | IsUniqueType(t) holds exactly when the unique type is present and is t, so a material has at most one |
| Materials.HeatCapacityIsProduct | Game/Materials.h:129-140 | heat capacity is specific heat times nominal mass times density, and positive when all three are |
| Materials.StructuralMaterialForTests | Game/Materials.h:210-244 | test defaults: unit strength, mass and heat capacity, strain threshold 0.5, no unique type, water reactivity 0, not legacy electrical, no palette coordinates |
| Materials.OpacityToAlpha | Game/Materials.cpp:109 | the truncation of 255*opacity for an opacity in [0, 1], giving 255 at full opacity |
| Materials.StructuralPalette | Game/Materials.cpp:93-104 | legacy electrical: no coordinates; otherwise missing coordinates are an error naming the material, and present ones are shifted by the ordinal |
| Materials.StructuralUniqueType | Game/Materials.cpp:45-52 | a unique type is set exactly when the member is present, the ordinal is 0 and the name parses; an unparsable name fails only at ordinal 0 |
| Materials.StructuralSound | Game/Materials.cpp:54-61 | an absent sound type gives none; a present one is parsed and its error propagated |
| Materials.StructuralMechanics | Game/Materials.cpp:36-43 | strength, and mass and density from the mass object; stiffness defaults to 1 and strain threshold to 0.5 |
| Materials.StructuralKind | Game/Materials.cpp:45-64 | unique type only at ordinal 0, sound type when present (each naming the member case-insensitively), texture when present, opacity defaulting to 1 |
| Materials.StructuralWater | Game/Materials.cpp:68-72 | water intake and rust receptivity default to 1, and the hull flag is the member's value |
| Materials.StructuralHeat | Game/Materials.cpp:76-83 | thermal expansion 0, explosive radius 0 and strength 1 by default; the combustion type matches its member case-insensitively |
| Materials.StructuralMisc | Game/Materials.cpp:87-89 | water reactivity defaults to 0 and legacy electrical to false |
| Materials.ParseStructuralParts | Game/Materials.cpp:26-145 | a successful parse is the assembly of the successful member groups |
| Materials.CreateStructuralErrors | Game/Materials.cpp:26-145 | a missing name is reported as is; any later error is rethrown with the material's name as the prefix |
| Materials.StructuralDefaults | Game/Materials.cpp:36-91 | the created material carries its key, name and render colour (with alpha from the opacity), and every optional member takes its value or its default |
| Materials.StructuralUniqueTypeOnlyFirst | Game/Materials.cpp:45-52 | only the first material of a series (ordinal 0) with a unique_type member gets a unique type, and it is the one named there |
| Materials.StructuralPaletteRule | Game/Materials.cpp:93-104 | palette coordinates are present exactly when the material is not legacy electrical, and they are the definition's coordinates shifted by the ordinal |
| Materials.StructuralMissingPalette | Game/Materials.cpp:93-99 | a non-legacy-electrical material without palette_coordinates is rejected with a message naming it |
| Materials.ElectricalMaterialForTests | Game/Materials.h:418-448 | test defaults: a conducting, not self-powered cable with the given instancing and no palette coordinates |
| Materials.LampRangeError | Game/Materials.cpp:231-238 | no error exactly when luminiscence is in [0, 1] and spread and wet failure rate are non-negative; otherwise the first violated check, in source order |
| Materials.LampBlock | Game/Materials.cpp:215-239 | a lamp reads its light members and passes the range checks, or fails with the first range error; non-lamps get zero light |
| Materials.ElectricalHeat | Game/Materials.cpp:242-244 | the three heat ratings, all mandatory |
| Materials.SmokeBlock | Game/Materials.cpp:247-254 | a smoke emitter needs a non-negative emission rate; others get 0 |
| Materials.EngineBlock | Game/Materials.cpp:259-277 | an engine succeeds exactly when its responsiveness is in (0, 1], and the failure names the material; non-engines get the default engine |
| Materials.TypedMember | Game/Materials.cpp:279-293 | a kind-specific typed member is parsed only for its kind; other kinds get the default |
| Materials.ElectricalPalette | Game/Materials.cpp:302-309 | palette coordinates when present, shifted by the ordinal; none when absent |
| Materials.ElectricalIdentityOf | Game/Materials.cpp:209-213 | the type matches its member case-insensitively; self-powered defaults to false |
| Materials.ElectricalKindMembers | Game/Materials.cpp:279-300 | switch type, ship sound and pump force are read only for their own kind, and default otherwise |
| Materials.ParseElectricalParts | Game/Materials.cpp:199-340 | a successful parse is the assembly of the successful member groups |
| Materials.CreateElectricalErrors | Game/Materials.cpp:199-340 | a missing name is reported as is; any later error is rethrown with the material's name as the prefix |
| Materials.ElectricalTypeInvariants | Game/Materials.cpp:209-300 | the per-kind ranges hold (lamp light, smoke rate, engine responsiveness) and every other kind has the zero or default values |
| Materials.ElectricalDefaultsAndPalette | Game/Materials.cpp:212-309 | optional flags default to false; palette coordinates are present exactly when defined, shifted by the ordinal |
| Materials.MakeInstancedElementLabel | Game/Materials.cpp:434-553 | the label is the kind's prefix ending in '#', followed by the decimal digits of the instance index |
| Materials.InstancedLabelsDistinct | Game/Materials.cpp:434-553 | two instances of one material get the same label exactly when their indices are equal |
| Materials.InstancedLabelKinds | Game/Materials.cpp:440-520 | engines are "JetEngine #i" exactly when jets and "Engine #i" otherwise; ship sounds are "Bell #i" and "Alarm #i" exactly for their kinds |
| MaterialEnums.UniqueTypeOrdinals | Game/Materials.h:37-44 | the unique type ordinals are distinct and at most that of _Last, which is Water with ordinal 2 |
| MaterialEnums.ParseMaterialCombustionType | Game/Materials.cpp:147-155 | a lower-case name parses to the type with that name, and nothing else parses |
| MaterialEnums.ParseMaterialCombustionTypeLowerName | Game/Materials.cpp:147-155 | no earlier name in the if-chain shadows a later one |
| MaterialEnums.StrToMaterialCombustionType | Game/Materials.cpp:147-155 | a success names its type case-insensitively; a failure carries the source's message and happens only when no name matches |
| MaterialEnums.StrToMaterialCombustionTypeRoundTrip | Game/Materials.cpp:147-155 | every type's name parses back to it |
| MaterialEnums.StrToMaterialCombustionTypeExact | Game/Materials.cpp:147-155 | a string parses to t exactly when it equals t's name up to letter case |
| MaterialEnums.ParseMaterialUniqueType | Game/Materials.cpp:157-167 | a lower-case name parses to the type with that name, and nothing else parses |
| MaterialEnums.ParseMaterialUniqueTypeLowerName | Game/Materials.cpp:157-167 | no earlier name in the if-chain shadows a later one |
| MaterialEnums.StrToMaterialUniqueType | Game/Materials.cpp:157-167 | a success names its type case-insensitively; a failure carries the source's message and happens only when no name matches |
| MaterialEnums.StrToMaterialUniqueTypeRoundTrip | Game/Materials.cpp:157-167 | every type's name parses back to it |
| MaterialEnums.StrToMaterialUniqueTypeExact | Game/Materials.cpp:157-167 | a string parses to t exactly when it equals t's name up to letter case |
| MaterialEnums.ParseMaterialSoundType | Game/Materials.cpp:169-197 | a lower-case name parses to the type with that name, and nothing else parses |
| MaterialEnums.ParseMaterialSoundTypeLowerName | Game/Materials.cpp:169-197 | no earlier name in the if-chain shadows a later one ("Rubber" does not capture "RubberBand") |
| MaterialEnums.StrToMaterialSoundType | Game/Materials.cpp:169-197 | a success names its type case-insensitively; a failure carries the source's message and happens only when no name matches |
| MaterialEnums.StrToMaterialSoundTypeRoundTrip | Game/Materials.cpp:169-197 | every type's name parses back to it |
| MaterialEnums.StrToMaterialSoundTypeExact | Game/Materials.cpp:169-197 | a string parses to t exactly when it equals t's name up to letter case |
| MaterialEnums.ParseElectricalElementType | Game/Materials.cpp:342-374 | a lower-case name parses to the type with that name, and nothing else parses |
| MaterialEnums.ParseElectricalElementTypeLowerName | Game/Materials.cpp:342-374 | no earlier name in the if-chain shadows a later one (e.g. "Engine" versus "EngineController") |
| MaterialEnums.StrToElectricalElementType | Game/Materials.cpp:342-374 | a success names its type case-insensitively; a failure carries the source's message and happens only when no name matches |
| MaterialEnums.StrToElectricalElementTypeRoundTrip | Game/Materials.cpp:342-374 | every type's name parses back to it |
| MaterialEnums.StrToElectricalElementTypeExact | Game/Materials.cpp:342-374 | a string parses to t exactly when it equals t's name up to letter case |
| MaterialEnums.ParseInteractiveSwitchElementType | Game/Materials.cpp:376-384 | a lower-case name parses to the type with that name, and nothing else parses |
| MaterialEnums.ParseInteractiveSwitchElementTypeLowerName | Game/Materials.cpp:376-384 | no earlier name in the if-chain shadows a later one |
| MaterialEnums.StrToInteractiveSwitchElementType | Game/Materials.cpp:376-384 | a success names its type case-insensitively; a failure carries the source's message and happens only when no name matches |
| MaterialEnums.StrToInteractiveSwitchElementTypeRoundTrip | Game/Materials.cpp:376-384 | every type's name parses back to it |
| MaterialEnums.StrToInteractiveSwitchElementTypeExact | Game/Materials.cpp:376-384 | a string parses to t exactly when it equals t's name up to letter case |
| MaterialEnums.ParseEngineElementType | Game/Materials.cpp:386-398 | a lower-case name parses to the type with that name, and nothing else parses |
| MaterialEnums.ParseEngineElementTypeLowerName | Game/Materials.cpp:386-398 | no earlier name in the if-chain shadows a later one |
| MaterialEnums.StrToEngineElementType | Game/Materials.cpp:386-398 | a success names its type case-insensitively; a failure carries the source's message and happens only when no name matches |
| MaterialEnums.StrToEngineElementTypeRoundTrip | Game/Materials.cpp:386-398 | every type's name parses back to it |
| MaterialEnums.StrToEngineElementTypeExact | Game/Materials.cpp:386-398 | a string parses to t exactly when it equals t's name up to letter case |
| MaterialEnums.ParseShipSoundElementType | Game/Materials.cpp:400-432 | a lower-case name parses to the type with that name, and nothing else parses |
| MaterialEnums.ParseShipSoundElementTypeLowerName | Game/Materials.cpp:400-432 | no earlier name in the if-chain shadows a later one |
| MaterialEnums.StrToShipSoundElementType | Game/Materials.cpp:400-432 | a success names its type case-insensitively; a failure carries the source's message and happens only when no name matches |
| MaterialEnums.StrToShipSoundElementTypeRoundTrip | Game/Materials.cpp:400-432 | every type's name parses back to it |
| MaterialEnums.StrToShipSoundElementTypeExact | Game/Materials.cpp:400-432 | a string parses to t exactly when it equals t's name up to letter case |
| Json.GetMandatoryString | Game/Materials.cpp:32 | succeeds exactly when the member is a string; otherwise "not found" or "wrong type" |
| Json.GetMandatoryNumber | Game/Materials.cpp:36 | succeeds exactly when the member is a number; otherwise "not found" or "wrong type" |
| Json.GetMandatoryInteger | Game/Materials.cpp:19 | succeeds exactly when the member is a whole number |
| Json.GetMandatoryBool | Game/Materials.cpp:68 | succeeds exactly when the member is a boolean |
| Json.GetMandatoryObject | Game/Materials.cpp:38 | succeeds exactly when the member is an object, and returns its members |
| Json.GetOptionalNumber | Game/Materials.cpp:42 | an absent member gives the default and a present one must be a number |
| Json.GetOptionalBool | Game/Materials.cpp:89 | an absent member gives the default and a present one must be a boolean |
| Json.GetOptionalString | Game/Materials.cpp:47 | an absent member gives none; a present one must be a string |
| Json.GetOptionalObject | Game/Materials.cpp:94 | an absent member gives none; a present one must be an object |
| Text.CaseInsensitiveEqualsCharwise | Game/Materials.cpp:147-155 | case-insensitive equality means equal lengths and equal folded characters at every position |
| Text.CaseInsensitiveEquivalence | Game/Materials.cpp:147-155 | case-insensitive equality is reflexive, symmetric and transitive |
| Text.NotCaseEqualAt | Game/Materials.cpp:147-155 | strings that differ after folding at some position are not equal |
| Text.LowerCharFolds | Game/Materials.cpp:147-155 | an upper-case letter and its lower-case form compare equal |
| Text.NatToDecimal | Game/Materials.cpp:448 | the rendering of a number is non-empty, all digits, and has no leading zero |
| Text.DecimalRoundTrip | Game/Materials.cpp:448 | reading the rendered digits back gives the number |
| Text.DecimalInjective | Game/Materials.cpp:448 | distinct numbers have distinct renderings |
| Colors.ToVec4 | Game/Materials.cpp:224-226 | the colour's components scaled into [0, 1], with the given alpha |
| Memory.Copy | GameCore/Buffer2D.h:166-173 | the n elements land at the destination range and nothing else in the destination changes |
| OceanFloor.Dx | GameLib/OceanFloor.h:71-74 | the sample step is positive and SamplesCount steps make one period |
| OceanFloor.CppRem | GameLib/OceanFloor.h:48 | C++ `%`: the remainder has the sign of the dividend, magnitude below the divisor, and completes the truncated division |
| OceanFloor.SamplePositionAsWritten | GameLib/OceanFloor.h:41-52 | as written: the sample index always lies in [0, SamplesCount), as the source asserts |
| OceanFloor.SamplePositionCorrected | GameLib/OceanFloor.h:41-52 | corrected: the floored index modulo SamplesCount, also in [0, SamplesCount) |
| OceanFloor.AsWrittenWraps | GameLib/OceanFloor.h:29-50 | in both branches, index plus fraction equals the absolute index plus a whole number of periods |
| OceanFloor.CorrectedWraps | GameLib/OceanFloor.h:29-50 | the corrected position equals the absolute index modulo the period, and its fraction is in [0, 1) for a floored integral part |
| OceanFloor.AsWrittenAgreesWhenNonNegative | GameLib/OceanFloor.h:41-45 | for a non-negative integral part, the source computes the intended index and fraction |
| OceanFloor.AsWrittenNegativeIsOneSampleBack | GameLib/OceanFloor.h:46-50 | finding: for a negative floored integral part, the fraction is in [1, 2) and the index is one sample before the intended one |
| OceanFloor.AsWrittenRightUnderTruncation | GameLib/OceanFloor.h:46-50 | if the integral part were truncated toward zero, the negative branch would give the intended position for the floor, one below the truncation |
| OceanFloor.AsWrittenTruncationBand | GameLib/OceanFloor.h:41-45 | under truncation, an absolute index in (-1, 0) truncates to 0 and gets a negative fraction |
| OceanFloor.AsWrittenNegativeExample | GameLib/OceanFloor.h:46-50 | finding: at absolute index -0.5, sample 510 with fraction 1.5 instead of sample 511 with fraction 0.5 |
| OceanFloor.GetFloorHeightAt | GameLib/OceanFloor.h:27-56 | the interpolated height; for a non-negative integral part it is the intended height |
| OceanFloor.CorrectedHeightInterpolates | GameLib/OceanFloor.h:54-55 | with the corrected position, the height lies between the sample's value and the next sample's value |
| OceanFloor.HeightInterpolates | GameLib/OceanFloor.h:54-55 | a fraction in [0, 1] gives a height between the two samples' values |
| OceanFloor.InterpolationBetween | GameLib/OceanFloor.h:54-55 | a + (b - a) * f lies between a and b for f in [0, 1] |
| OceanFloor.AsWrittenHeightError | GameLib/OceanFloor.h:46-55 | finding: left of the origin, the height error equals the slope difference of the two segments times the fraction |
| OceanFloor.CorrectedHeightPeriodic | GameLib/OceanFloor.h:41-55 | moving a whole period along gives the same height |
| ShipBuilderTypes.LayerOrdinalsAreDense | ShipBuilderLib/ShipBuilderTypes.h:39 | the layer ordinals are distinct and below LayerCount = Texture + 1 |
| ShipBuilderTypes.VisualizationCountIsFive | ShipBuilderLib/ShipBuilderTypes.h:51-60 | VisualizationCount is TextureLayer + 1 = 5, and every visualization's ordinal is below it |
| ShipBuilderTypes.VisualizationToLayerCovers | ShipBuilderLib/ShipBuilderTypes.h:62-90 | each layer's own visualization maps to it, and the only two visualizations sharing a layer are Game and StructuralLayer |
| ShipBuilderTypes.FindTrue | ShipBuilderLib/ShipBuilderTypes.h:161-164 | std::find for true: the first dirty index, or the length when no entry is dirty |
| ShipBuilderTypes.ModelDirtyState.constructor | ShipBuilderLib/ShipBuilderTypes.h:147-155 | every layer entry and every flag, GlobalIsDirty included, starts false |
| ShipBuilderTypes.ModelDirtyState.RecalculateGlobalIsDirty | ShipBuilderLib/ShipBuilderTypes.h:159-172 | GlobalIsDirty becomes (some layer dirty) or metadata or physics or auto-texturization dirty, and no other flag changes |
| ShipBuilderTypes.RecalculateIsIdempotent | ShipBuilderLib/ShipBuilderTypes.h:159-172 | two recalculations in a row give the same GlobalIsDirty, namely whether the model was dirty before the first, and leave the layer flags and the other three flags as they were |
| ShipRenderBuffers.Resized | Game/ShipRenderContext.cpp:700-707 | std::vector::resize: the old entries up to the new length, padded with the filler |
| ShipRenderBuffers.ElementLayoutOf | Game/ShipRenderContext.cpp:951-1016 | the offsets are contiguous in the order triangles, ropes, springs, points, ephemeral points, and the required size is their sum |
| ShipRenderBuffers.ElementRangesDisjoint | Game/ShipRenderContext.cpp:951-1016 | the five byte ranges do not overlap and all lie within the required size |
| ShipRenderBuffers.FlameAllocationFor | Game/ShipRenderContext.cpp:753-758 | the new allocation (count/100 + 1)*100 in size_t is a multiple of 100 above the count by at most 100, away from the top of the range |
| ShipRenderBuffers.FlameReallocationRule | Game/ShipRenderContext.cpp:753-758 | from 100 on, reallocation happens exactly when the count is above the allocation or more than 100 below it; below 100 the unsigned subtraction wraps and it always happens |
| ShipRenderBuffers.FlameAllocationIsStable | Game/ShipRenderContext.cpp:753-758 | after a reallocation, the same count does not reallocate again |
| ShipRenderBuffers.ArrowVerticesShape | Game/ShipRenderContext.cpp:884-897 | six vertices per arrow: the stem from the position to the position plus the adjusted vector, with both barbs starting at its end, all on the arrow's plane |
| ShipRenderBuffers.ArrowsVerticesLayout | Game/ShipRenderContext.cpp:880-898 | arrow i occupies vertices 6i to 6i+5 and starts at position i, on plane i |
| ShipRenderBuffers.ElementsStarted | Game/ShipRenderContext.cpp:684-698 | the point, spring, rope and stressed-spring buffers are emptied, the triangles and ephemeral points kept, and the element buffers marked dirty |
| ShipRenderBuffers.ElementsUploaded | Game/ShipRenderContext.cpp:951-1016 | dirty buffers get the contiguous layout of their counts and allocate its total; afterwards the flag is clear and nothing else changes |
| ShipRenderBuffers.ElementsUploadedIdempotent | Game/ShipRenderContext.cpp:951-1016 | uploading clean element buffers again changes nothing |
| ShipRenderBuffers.ArrowColorUpdated | Game/ShipRenderContext.cpp:900-905 | the new colour is stored; the colour-dirty flag is raised exactly when the colour changed, and otherwise kept |
| ShipRenderBuffers.ShipRenderContext.constructor | Game/ShipRenderContext.cpp:24-157 | zeroed point attributes, empty buffers, and the view model, element buffers and opaque black arrow colour dirty |
| ShipRenderBuffers.ShipRenderContext.UploadStart | Game/ShipRenderContext.cpp:487-551 | every per-plane, sparkle, air bubble, highlight and arrow buffer is empty; one per-plane buffer per plane id up to the maximum; the view model becomes dirty exactly when the maximum changed |
| ShipRenderBuffers.ShipRenderContext.UploadPointImmutableAttributes | Game/ShipRenderContext.cpp:553-566 | group 1 .z/.w of every point become its texture coordinates, and .x/.y stay |
| ShipRenderBuffers.ShipRenderContext.UploadPointMutableAttributes | Game/ShipRenderContext.cpp:573-599 | group 1 .x/.y become the positions for all points; group 2 .x/.y become light and water below lightAndWaterCount; everything else stays |
| ShipRenderBuffers.ShipRenderContext.UploadPointMutableAttributesPlaneId | Game/ShipRenderContext.cpp:601-615 | only group 2 .z of the points in [startDst, startDst + count) changes, to their plane ids |
| ShipRenderBuffers.ShipRenderContext.UploadPointMutableAttributesDecay | Game/ShipRenderContext.cpp:617-631 | only group 2 .w of the points in [startDst, startDst + count) changes, to their decay |
| ShipRenderBuffers.ShipRenderContext.UploadElementsStart | Game/ShipRenderContext.cpp:684-698 | the element buffers become ElementsStarted of the old ones, and nothing else changes |
| ShipRenderBuffers.ShipRenderContext.UploadElementTrianglesStart | Game/ShipRenderContext.cpp:700-707 | the triangle buffer is resized to the new count, and nothing else changes |
| ShipRenderBuffers.ShipRenderContext.UploadFlamesStart | Game/ShipRenderContext.cpp:743-758 | the flame allocation is redone exactly when the reallocation rule asks, and nothing else changes |
| ShipRenderBuffers.ShipRenderContext.UploadVectors | Game/ShipRenderContext.cpp:859-905 | appends six vertices per arrow to the arrow buffer, then updates the colour and its dirty flag |
| ShipRenderBuffers.ShipRenderContext.UploadElementBuffers | Game/ShipRenderContext.cpp:951-1016 | the element buffers become ElementsUploaded of the old ones, and nothing else changes |
| ShipRenderBuffers.Cleared | Game/ShipRenderContext.cpp:505-509 | every buffer of the list is emptied and the list keeps its length |
| ShipRenderBuffers.ClearedAndResized | Game/ShipRenderContext.cpp:501-532 | the per-plane list becomes newSize empty buffers |
| Localization.FirstUnderscore | FloatingSandbox/LocalizationManager.cpp:184-187 | the first '_' of the string, or its length when there is none |
| Localization.MakeLanguageIdentifier | FloatingSandbox/LocalizationManager.cpp:184-187 | the identifier is a prefix of the canonical name with no '_', ending at the first '_' or at the end |
| Localization.MakeLanguageIdentifierFixesPlainNames | FloatingSandbox/LocalizationManager.cpp:184-187 | a name without '_' is its own identifier, and making an identifier is idempotent |
| Localization.FindFrom | FloatingSandbox/LocalizationManager.cpp:261-295 | the first index at or after `from` whose language matches the id or identifier searched for, or none when no later language matches |
| Localization.FindLanguageInfoByLanguageId | FloatingSandbox/LocalizationManager.cpp:261-277 | the first available language with that id, or none exactly when no language has it |
| Localization.FindLanguageInfoByIdentifier | FloatingSandbox/LocalizationManager.cpp:279-295 | the first available language with that identifier, or none exactly when no language has it |
| Localization.FindByIdentifierInDistinctList | FloatingSandbox/LocalizationManager.cpp:279-295 | in a list with distinct identifiers, the lookup finds exactly the language with that identifier |
| Localization.LocalizationManager.constructor | FloatingSandbox/LocalizationManager.cpp:88-92 | the manager holds the given desired and available languages |
| Localization.LocalizationManager.StoreDesiredLanguage | FloatingSandbox/LocalizationManager.cpp:163-182 | none resets the desired language; a known identifier selects that language; an unknown one raises the logic_error and leaves the desired language unchanged |
| Localization.StringLessIrreflexive | FloatingSandbox/LocalizationManager.cpp:232-235 | no name sorts before itself |
| Localization.StringLessTransitive | FloatingSandbox/LocalizationManager.cpp:232-235 | the name order is transitive |
| Localization.StringLessTotal | FloatingSandbox/LocalizationManager.cpp:232-235 | distinct names are ordered one way and never both ways |
| Localization.InsertByName | FloatingSandbox/LocalizationManager.cpp:229-235 | insertion adds exactly the one language |
| Localization.InsertByNameSorted | FloatingSandbox/LocalizationManager.cpp:229-235 | inserting into a list sorted by name keeps it sorted |
| Localization.SortByName | FloatingSandbox/LocalizationManager.cpp:229-235 | the languages sorted by name, as a permutation of the input |
| Localization.UniqueByName | FloatingSandbox/LocalizationManager.cpp:237-245 | keeps the first language, keeps only input languages, and keeps every name |
| Localization.UniqueOfSortedIsStrictlyAscending | FloatingSandbox/LocalizationManager.cpp:229-245 | on a sorted list, keeping the first of each run leaves the names strictly ascending |
| Localization.SortAndDistinct | FloatingSandbox/LocalizationManager.cpp:229-245 | the names are strictly ascending, so no name repeats; every input name is present and every entry comes from the input |
| Localization.MakeDefaultLanguage | FloatingSandbox/LocalizationManager.cpp:250-259 | the message-id language, with its description as name and its full canonical name as identifier |
| Localization.DetectedLanguagesFromEntries | FloatingSandbox/LocalizationManager.cpp:197-217 | every detected language comes from a recognized directory, and every recognized directory contributes its language |
| Localization.MakeAvailableLanguages | FloatingSandbox/LocalizationManager.cpp:189-247 | the sort and distinct of the detected languages plus the default; names strictly ascending, with the default language's name present |
| GameEvents.Aggregate | UnitTests/GameEventDispatcherTests.cpp:35-42 | the aggregate has an entry exactly for each key called, holding that key's total size |
| GameEvents.AggregateAppend | UnitTests/GameEventDispatcherTests.cpp:60-66 | one more call adds its size to its key's entry |
| GameEvents.AggregateIsPerKeySum | UnitTests/GameEventDispatcherTests.cpp:58-76 | each key's entry is the total size of its calls, and zero for an uncalled key |
| GameEvents.SwapCallsKeepsAggregate | UnitTests/GameEventDispatcherTests.cpp:58-76 | the aggregate does not depend on the order of the calls |
| GameEvents.DrainAll | UnitTests/GameEventDispatcherTests.cpp:40-44 | the flushed events are exactly one stress event per aggregated key, with its summed size |
| GameEvents.GameEventDispatcher.constructor | UnitTests/GameEventDispatcherTests.cpp:28 | nothing aggregated and nothing delivered |
| GameEvents.GameEventDispatcher.OnStress | UnitTests/GameEventDispatcherTests.cpp:33-38 | the size is added to the key's entry, and nothing reaches the handler |
| GameEvents.GameEventDispatcher.OnSinkingBegin | UnitTests/GameEventDispatcherTests.cpp:79-91 | the event reaches the handler at once, and the aggregate is untouched |
| GameEvents.GameEventDispatcher.Flush | UnitTests/GameEventDispatcherTests.cpp:40-44 | earlier deliveries are kept; the new ones are exactly the aggregate's events; the aggregate is emptied |
| GameEvents.ReplayStresses | UnitTests/GameEventDispatcherTests.cpp:60-66 | replaying calls on an empty aggregate leaves their aggregate, and delivers nothing |
| GameEvents.AggregatesOnStress | UnitTests/GameEventDispatcherTests.cpp:24-45 | nothing is delivered before the flush, and then a single event with size 5 |
| GameEvents.StressThreeKeys | UnitTests/GameEventDispatcherTests.cpp:60-66 | seven stresses give three keys: one material under water and above water counts twice |
| GameEvents.AggregatesMultipleKeys | UnitTests/GameEventDispatcherTests.cpp:47-77 | nothing before the flush, then exactly three events carrying the per-key sums 13, 3 and 4 |
| GameEvents.SinkingBeginPassesThrough | UnitTests/GameEventDispatcherTests.cpp:93-107 | each sinking reaches the handler at once, once per call, in call order |
| GameEvents.SecondFlushDeliversNothing | UnitTests/GameEventDispatcherTests.cpp:109-136 | the first flush delivers the summed event and a second flush delivers nothing |

## Left out

- Floating point is modelled by reals. Rounding, NaN and infinities are not modelled.
- Integer types are unbounded except where the model writes out the wrap-around (the palette
  ordinal, the flame reallocation test, the C++ remainder). Other int and size_t overflow is not
  modelled.
- OpenGL is not modelled: VBO uploads, shader parameters, draw calls and the highlight and other
  VBO size bookkeeping. Only the CPU-side buffers of ShipRenderContext are modelled.
- The float layout of the per-plane and highlight vertices belongs to the shaders and is not
  modelled; those vertices are opaque values.
- The barb directions of the vector arrows come from cos/sin rotations and normalisation of each
  vector; the model takes them as the parameters `leftDirOf` and `rightDirOf`.
- ShipRenderBuffers.ShipRenderContext.UploadFlamesStart: only the reallocation of the flame
  buffer is modelled. The map-and-fill of the flame vertices goes through OpenGL.
- The byte sizes of the element structures come from ShipRenderContext.h, which is not part of this
  model; they are the parameter `elementSizes`.
- TextureAtlas.SortTextureInfos: is a stable insertion sort. std::sort leaves the order of
  frames of equal size unspecified, so only the order and the permutation are stated.
- TextureAtlas.BuildAtlasSpecification: does not state that the placed frames do not overlap one
  another. It states that each frame lies inside the atlas, that the sides are powers of two
  and that the atlas never shrinks.
- TextureAtlas.CeilPowerOfTwo: ceil_power_of_two and ceil_square_power_of_two come from
  GameMath, which is not part of this model. The model takes the smallest power of two at least
  n, and 1 for n <= 1. A frame side of 0 is then not a power of two, and both builders report it;
  a helper that returns 0 for 0 would accept such a frame.
- TextureAtlas.CeilSquarePowerOfTwo: rests on the same reading of ceil_power_of_two.
- TextureAtlas.IntSqrt: the source takes a float sqrt of the total area. The model uses the
  exact integer square root, so results can differ on rounding.
- TextureAtlas serialization, the float texture coordinates of BuildAtlas, the alpha
  pre-multiplication and the progress callback are not modelled. The frame loader is a pure
  function parameter `frameLoader`.
- Utils (the JSON accessors, CaseInsensitiveEquals and Hex2RgbColor) is not part of this model:
  - JSON is an abstract map of members;
  - case-insensitive equality is ASCII folding;
  - the accessors' exceptions are structured `Error` values, not message strings;
  - Hex2RgbColor is the parameter `hex2Rgb`.
- Materials.OpacityToAlpha: the cast of 255*opacity to uint8_t is undefined outside [0, 1]. There
  the model clamps.
- Materials.MakeInstancedElementLabel: the instance index is an unbounded natural. The source's
  static_cast<int> of an index above 2^31 - 1 is not modelled.
- Materials: the material members that only carry a value through (water diffusion, ignition
  and melting temperatures, thermal conductivity, wind receptivity, buoyancy) are read and
  stored. Beyond their presence and type, no property is stated about them.
- OceanFloor: FastFloorInt32 is not part of this model. The integral part `absI` is an input,
  and the findings assume it is the floor of the fractional index. The sample update and the
  bump map are not modelled.
- ShipBuilderTypes: the LayerType enumeration is not part of this model. Its four layers are
  taken in the order that LayerCount and VisualizationToLayer imply.
- Localization: CreateInstance (wxLocale, wxTranslations) and the directory scan of
  MakeAvailableLanguages are not modelled. The directories are the parameter `entries` and
  wxLocale::FindLanguageInfo is the parameter `findLanguageInfo`. Logging is not modelled.
- Localization.SortByName: is an insertion sort. std::sort does not fix the order of two
  languages with the same name, so only sortedness and the permutation are stated. UniqueByName
  keeps the first of a run, whichever that is.
- GameEvents: GameEventDispatcher.h and its implementation are not part of this model. The model
  follows the contract that GameEventDispatcherTests.cpp asserts:
  - materials are identified by name;
  - one handler is registered, and handler registration is not modelled;
  - events other than stress and sinking are not modelled;
  - sizes are unbounded.
- GameEvents.GameEventDispatcher.Flush: states the delivered events as a set with one event per
  key. The order of delivery is unspecified, as in the tests.
- UndoStack: the undo actions' ApplyAndConsume delegates to a Controller that is not part of this
  model. An action is its cost and an opaque payload.
- Buffer2D: the move constructor and move assignment are not modelled.
- Buffer2D.Buffer2D.BlitFromRegion: a blit of a buffer into itself is modelled only when the
  source and target rectangles are disjoint. With overlapping rectangles, memcpy is undefined
  where a row overlaps itself, and later rows would read cells already written.

## Findings

| source | as written | input that shows it | evidently intended | confidence | as-written member | corrected member |
|---|---|---|---|---|---|---|
| GameCore/Buffer2D.h:233-254 | Flip<true, true> visits only the rows y < height/2 and swaps each cell with its point mirror, so the middle row of an odd-height buffer is never mirrored | a 2x1 buffer [a, b]: flipping both ways leaves [a, b], although the half turn gives [b, a] | flipping both ways turns the buffer by half a turn, middle row included | not executed | Buffer2D.FlipBothMissesMiddleRow | Buffer2D.Buffer2D.FlipRotated |
| GameLib/OceanFloor.h:46-50 | for a negative integral part, the index is (SamplesCount - 1) + (I % SamplesCount) and the fraction is 1 + F - I, which lies in [1, 2) | F = -0.5, I = -1: sample 510 with fraction 1.5, extrapolating segment 510 instead of interpolating segment 511 with fraction 0.5. This assumes FastFloorInt32, which is not part of this model, floors. If it truncates toward zero, the negative branch is right (AsWrittenRightUnderTruncation), and the wrong inputs are F in (-1, 0) instead, with I = 0 and a negative fraction (AsWrittenTruncationBand) | index I mod SamplesCount (floored) with fraction F - I in [0, 1) | not executed | OceanFloor.AsWrittenNegativeIsOneSampleBack | OceanFloor.SamplePositionCorrected |
