/** Ship builder type helpers (ShipBuilderLib/ShipBuilderTypes.h): which model layer a
    visualization shows, and the aggregation of the model's dirty flags. */
module ShipBuilderTypes {

  /** The model layers, in the order of their ordinals (LayerType). */
  datatype LayerType = Structural | Electrical | Ropes | Texture

  function LayerOrdinal(l: LayerType): nat {
    match l
    case Structural => 0
    case Electrical => 1
    case Ropes => 2
    case Texture => 3
  }

  /** LayerCount: one more than the ordinal of the last layer. */
  const LayerCount: nat := LayerOrdinal(Texture) + 1

  /** The ordinals number the layers 0, 1, ..., LayerCount - 1 without gaps or repeats. */
  lemma LayerOrdinalsAreDense(l: LayerType)
    ensures LayerOrdinal(l) < LayerCount
    ensures forall m: LayerType :: LayerOrdinal(m) == LayerOrdinal(l) ==> m == l
  {
  }

  datatype VisualizationType = Game | StructuralLayer | ElectricalLayer | RopesLayer | TextureLayer

  function VisualizationOrdinal(v: VisualizationType): nat {
    match v
    case Game => 0
    case StructuralLayer => 1
    case ElectricalLayer => 2
    case RopesLayer => 3
    case TextureLayer => 4
  }

  /** VisualizationCount: one more than the ordinal of the last visualization. */
  const VisualizationCount: nat := VisualizationOrdinal(TextureLayer) + 1

  lemma VisualizationCountIsFive()
    ensures VisualizationCount == 5
    ensures forall v: VisualizationType :: VisualizationOrdinal(v) < VisualizationCount
  {
  }

  /** The layer a visualization works on: the game view shows the structural layer. */
  function VisualizationToLayer(visualization: VisualizationType): LayerType {
    match visualization
    case Game => Structural
    case StructuralLayer => Structural
    case ElectricalLayer => Electrical
    case RopesLayer => Ropes
    case TextureLayer => Texture
  }

  /** The visualization dedicated to each layer. */
  function LayerVisualization(layer: LayerType): VisualizationType {
    match layer
    case Structural => StructuralLayer
    case Electrical => ElectricalLayer
    case Ropes => RopesLayer
    case Texture => TextureLayer
  }

  /** Every layer is shown by its own visualization, and the game view is the only other
      visualization: it shares the structural layer. */
  lemma VisualizationToLayerCovers(v: VisualizationType, w: VisualizationType, l: LayerType)
    ensures VisualizationToLayer(LayerVisualization(l)) == l
    ensures v != w && VisualizationToLayer(v) == VisualizationToLayer(w) ==>
              {v, w} == {Game, StructuralLayer}
    ensures VisualizationToLayer(v) == Structural <==> v == Game || v == StructuralLayer
  {
  }

  /** std::find(first, last, true): the index of the first dirty entry, or the length when
      there is none. */
  method FindTrue(a: array<bool>) returns (i: nat)
    ensures i <= a.Length
    ensures forall j :: 0 <= j < i ==> !a[j]
    ensures i < a.Length ==> a[i]
  {
    i := 0;
    while i < a.Length && !a[i]
      invariant i <= a.Length
      invariant forall j :: 0 <= j < i ==> !a[j]
    {
      i := i + 1;
    }
  }

  /** The dirty flags of the model being edited. */
  class ModelDirtyState {
    /** One flag per layer, indexed by LayerOrdinal. */
    const IsLayerDirtyMap: array<bool>
    var IsMetadataDirty: bool
    var IsPhysicsDataDirty: bool
    var IsAutoTexturizationSettingsDirty: bool
    var GlobalIsDirty: bool

    ghost predicate Valid()
      reads this
    {
      IsLayerDirtyMap.Length == LayerCount
    }

    /** Whether any part of the model is dirty. */
    ghost function AnyDirty(): bool
      reads this, IsLayerDirtyMap
    {
      (exists i :: 0 <= i < IsLayerDirtyMap.Length && IsLayerDirtyMap[i])
      || IsMetadataDirty || IsPhysicsDataDirty || IsAutoTexturizationSettingsDirty
    }

    /** A fresh state: nothing is dirty. */
    constructor ()
      ensures Valid() && fresh(IsLayerDirtyMap)
      ensures forall i :: 0 <= i < LayerCount ==> !IsLayerDirtyMap[i]
      ensures !IsMetadataDirty && !IsPhysicsDataDirty && !IsAutoTexturizationSettingsDirty && !GlobalIsDirty
      ensures !AnyDirty()
    {
      IsLayerDirtyMap := new bool[LayerCount](_ => false);
      IsMetadataDirty := false;
      IsPhysicsDataDirty := false;
      IsAutoTexturizationSettingsDirty := false;
      GlobalIsDirty := false;
    }

    /** Sets GlobalIsDirty to whether some layer, the metadata, the physics data or the
        auto-texturization settings are dirty; every other flag is left as it is. */
    method RecalculateGlobalIsDirty()
      requires Valid()
      modifies this
      ensures GlobalIsDirty == AnyDirty()
      ensures IsMetadataDirty == old(IsMetadataDirty) && IsPhysicsDataDirty == old(IsPhysicsDataDirty)
      ensures IsAutoTexturizationSettingsDirty == old(IsAutoTexturizationSettingsDirty)
    {
      var found := FindTrue(IsLayerDirtyMap);
      GlobalIsDirty := found != IsLayerDirtyMap.Length;
      GlobalIsDirty := GlobalIsDirty || IsMetadataDirty || IsPhysicsDataDirty || IsAutoTexturizationSettingsDirty;
    }
  }

  /** Recalculating twice gives what recalculating once gives: both passes yield whether the
      model was dirty on entry, and neither touches a layer flag or the other three flags. */
  method RecalculateIsIdempotent(s: ModelDirtyState) returns (once: bool, twice: bool)
    requires s.Valid()
    modifies s
    ensures once == twice
    ensures twice == s.GlobalIsDirty && s.GlobalIsDirty == old(s.AnyDirty())
    ensures s.IsLayerDirtyMap[..] == old(s.IsLayerDirtyMap[..])
    ensures s.IsMetadataDirty == old(s.IsMetadataDirty) && s.IsPhysicsDataDirty == old(s.IsPhysicsDataDirty)
    ensures s.IsAutoTexturizationSettingsDirty == old(s.IsAutoTexturizationSettingsDirty)
  {
    s.RecalculateGlobalIsDirty();
    once := s.GlobalIsDirty;
    s.RecalculateGlobalIsDirty();
    twice := s.GlobalIsDirty;
  }
}
