/** The enumerations of the structural and electrical materials (Game/Materials.h) and the
    StrTo* functions of Game/Materials.cpp that parse their names: each tries the names in
    turn with Utils::CaseInsensitiveEquals and throws a GameException on any other string. */
module MaterialEnums {
  import opened Wrappers
  import opened Json
  import opened Text

  /** The message of the GameException a StrTo* function throws. */
  function UnrecognizedMessage(typeName: string, str: string): string {
    "Unrecognized " + typeName + " \"" + str + "\""
  }

  // ---- Structural material enumerations ----

  /** How a combustible material burns. */
  datatype MaterialCombustionType = Combustion | Explosion

  /** The name of each MaterialCombustionType as the parser spells it. */
  function MaterialCombustionTypeName(t: MaterialCombustionType): string {
    match t
    case Combustion => "Combustion"
    case Explosion => "Explosion"
  }

  /** MaterialCombustionTypeName folded to lower case. */
  function MaterialCombustionTypeLowerName(t: MaterialCombustionType): string {
    match t
    case Combustion => "combustion"
    case Explosion => "explosion"
  }

  lemma MaterialCombustionTypeLowerNameIsLower(t: MaterialCombustionType)
    ensures Lower(MaterialCombustionTypeName(t)) == MaterialCombustionTypeLowerName(t)
  {
  }

  /** The type whose lower-case name is `l`, trying the names in the source's order. */
  function ParseMaterialCombustionType(l: string): (o: Option<MaterialCombustionType>)
    ensures o.Some? ==> l == MaterialCombustionTypeLowerName(o.value)
    ensures o.None? ==> forall t :: l != MaterialCombustionTypeLowerName(t)
  {
    if l == "combustion" then Some(MaterialCombustionType.Combustion)
    else if l == "explosion" then Some(MaterialCombustionType.Explosion)
    else None
  }

  /** Every lower-case name parses to its own type: no earlier name in the chain shadows it. */
  lemma ParseMaterialCombustionTypeLowerName(t: MaterialCombustionType)
    ensures ParseMaterialCombustionType(MaterialCombustionTypeLowerName(t)) == Some(t)
  {
  }

  /** StrToMaterialCombustionType: the type whose name equals `str` case-insensitively; any other string
      is rejected. */
  function StrToMaterialCombustionType(str: string): (r: Result<MaterialCombustionType, Error>)
    ensures r.Success? ==> CaseInsensitiveEquals(str, MaterialCombustionTypeName(r.value))
    ensures r.Failure? ==> r == Failure(GameException(UnrecognizedMessage("MaterialCombustionType", str)))
    ensures r.Failure? ==> forall t :: !CaseInsensitiveEquals(str, MaterialCombustionTypeName(t))
  {
    match ParseMaterialCombustionType(Lower(str))
    case Some(t) =>
      MaterialCombustionTypeLowerNameIsLower(t);
      Success(t)
    case None =>
      assert forall t :: Lower(MaterialCombustionTypeName(t)) == MaterialCombustionTypeLowerName(t) by {
        forall t { MaterialCombustionTypeLowerNameIsLower(t); }
      }
      Failure(GameException(UnrecognizedMessage("MaterialCombustionType", str)))
  }

  /** Each name parses back to its own type. */
  lemma StrToMaterialCombustionTypeRoundTrip(t: MaterialCombustionType)
    ensures StrToMaterialCombustionType(MaterialCombustionTypeName(t)) == Success(t)
  {
    MaterialCombustionTypeLowerNameIsLower(t);
    ParseMaterialCombustionTypeLowerName(t);
  }

  /** `str` parses to `t` exactly when it is `t`'s name up to the case of its letters. */
  lemma StrToMaterialCombustionTypeExact(str: string, t: MaterialCombustionType)
    ensures StrToMaterialCombustionType(str) == Success(t) <==> CaseInsensitiveEquals(str, MaterialCombustionTypeName(t))
  {
    StrToMaterialCombustionTypeRoundTrip(t);
  }

  /** The materials the game looks up by role. */
  datatype MaterialUniqueType = Air | Rope | Water

  /** The name of each MaterialUniqueType as the parser spells it. */
  function MaterialUniqueTypeName(t: MaterialUniqueType): string {
    match t
    case Air => "Air"
    case Rope => "Rope"
    case Water => "Water"
  }

  /** MaterialUniqueTypeName folded to lower case. */
  function MaterialUniqueTypeLowerName(t: MaterialUniqueType): string {
    match t
    case Air => "air"
    case Rope => "rope"
    case Water => "water"
  }

  lemma MaterialUniqueTypeLowerNameIsLower(t: MaterialUniqueType)
    ensures Lower(MaterialUniqueTypeName(t)) == MaterialUniqueTypeLowerName(t)
  {
  }

  /** The type whose lower-case name is `l`, trying the names in the source's order. */
  function ParseMaterialUniqueType(l: string): (o: Option<MaterialUniqueType>)
    ensures o.Some? ==> l == MaterialUniqueTypeLowerName(o.value)
    ensures o.None? ==> forall t :: l != MaterialUniqueTypeLowerName(t)
  {
    if l == "air" then Some(MaterialUniqueType.Air)
    else if l == "rope" then Some(MaterialUniqueType.Rope)
    else if l == "water" then Some(MaterialUniqueType.Water)
    else None
  }

  /** Every lower-case name parses to its own type: no earlier name in the chain shadows it. */
  lemma ParseMaterialUniqueTypeLowerName(t: MaterialUniqueType)
    ensures ParseMaterialUniqueType(MaterialUniqueTypeLowerName(t)) == Some(t)
  {
  }

  /** StrToMaterialUniqueType: the type whose name equals `str` case-insensitively; any other string
      is rejected. */
  function StrToMaterialUniqueType(str: string): (r: Result<MaterialUniqueType, Error>)
    ensures r.Success? ==> CaseInsensitiveEquals(str, MaterialUniqueTypeName(r.value))
    ensures r.Failure? ==> r == Failure(GameException(UnrecognizedMessage("MaterialUniqueType", str)))
    ensures r.Failure? ==> forall t :: !CaseInsensitiveEquals(str, MaterialUniqueTypeName(t))
  {
    match ParseMaterialUniqueType(Lower(str))
    case Some(t) =>
      MaterialUniqueTypeLowerNameIsLower(t);
      Success(t)
    case None =>
      assert forall t :: Lower(MaterialUniqueTypeName(t)) == MaterialUniqueTypeLowerName(t) by {
        forall t { MaterialUniqueTypeLowerNameIsLower(t); }
      }
      Failure(GameException(UnrecognizedMessage("MaterialUniqueType", str)))
  }

  /** Each name parses back to its own type. */
  lemma StrToMaterialUniqueTypeRoundTrip(t: MaterialUniqueType)
    ensures StrToMaterialUniqueType(MaterialUniqueTypeName(t)) == Success(t)
  {
    MaterialUniqueTypeLowerNameIsLower(t);
    ParseMaterialUniqueTypeLowerName(t);
  }

  /** `str` parses to `t` exactly when it is `t`'s name up to the case of its letters. */
  lemma StrToMaterialUniqueTypeExact(str: string, t: MaterialUniqueType)
    ensures StrToMaterialUniqueType(str) == Success(t) <==> CaseInsensitiveEquals(str, MaterialUniqueTypeName(t))
  {
    StrToMaterialUniqueTypeRoundTrip(t);
  }

  /** The sound a structural material makes when it breaks or is stressed. */
  datatype MaterialSoundType =
    AirBubble | Cable | Chain | Cloth | Gas | Glass | Lego | Metal | Plastic | Rubber | RubberBand
    | Wood

  /** The name of each MaterialSoundType as the parser spells it. */
  function MaterialSoundTypeName(t: MaterialSoundType): string {
    match t
    case AirBubble => "AirBubble"
    case Cable => "Cable"
    case Chain => "Chain"
    case Cloth => "Cloth"
    case Gas => "Gas"
    case Glass => "Glass"
    case Lego => "Lego"
    case Metal => "Metal"
    case Plastic => "Plastic"
    case Rubber => "Rubber"
    case RubberBand => "RubberBand"
    case Wood => "Wood"
  }

  /** MaterialSoundTypeName folded to lower case. */
  function MaterialSoundTypeLowerName(t: MaterialSoundType): string {
    match t
    case AirBubble => "airbubble"
    case Cable => "cable"
    case Chain => "chain"
    case Cloth => "cloth"
    case Gas => "gas"
    case Glass => "glass"
    case Lego => "lego"
    case Metal => "metal"
    case Plastic => "plastic"
    case Rubber => "rubber"
    case RubberBand => "rubberband"
    case Wood => "wood"
  }

  lemma MaterialSoundTypeLowerNameIsLower(t: MaterialSoundType)
    ensures Lower(MaterialSoundTypeName(t)) == MaterialSoundTypeLowerName(t)
  {
    match t
    case AirBubble => MaterialSoundTypeAirBubbleLowerName();
    case Cable => MaterialSoundTypeCableLowerName();
    case Chain => MaterialSoundTypeChainLowerName();
    case Cloth => MaterialSoundTypeClothLowerName();
    case Gas => MaterialSoundTypeGasLowerName();
    case Glass => MaterialSoundTypeGlassLowerName();
    case Lego => MaterialSoundTypeLegoLowerName();
    case Metal => MaterialSoundTypeMetalLowerName();
    case Plastic => MaterialSoundTypePlasticLowerName();
    case Rubber => MaterialSoundTypeRubberLowerName();
    case RubberBand => MaterialSoundTypeRubberBandLowerName();
    case Wood => MaterialSoundTypeWoodLowerName();
  }

  lemma MaterialSoundTypeAirBubbleLowerName()
    ensures Lower("AirBubble") == "airbubble"
  {
  }

  lemma MaterialSoundTypeCableLowerName()
    ensures Lower("Cable") == "cable"
  {
  }

  lemma MaterialSoundTypeChainLowerName()
    ensures Lower("Chain") == "chain"
  {
  }

  lemma MaterialSoundTypeClothLowerName()
    ensures Lower("Cloth") == "cloth"
  {
  }

  lemma MaterialSoundTypeGasLowerName()
    ensures Lower("Gas") == "gas"
  {
  }

  lemma MaterialSoundTypeGlassLowerName()
    ensures Lower("Glass") == "glass"
  {
  }

  lemma MaterialSoundTypeLegoLowerName()
    ensures Lower("Lego") == "lego"
  {
  }

  lemma MaterialSoundTypeMetalLowerName()
    ensures Lower("Metal") == "metal"
  {
  }

  lemma MaterialSoundTypePlasticLowerName()
    ensures Lower("Plastic") == "plastic"
  {
  }

  lemma MaterialSoundTypeRubberLowerName()
    ensures Lower("Rubber") == "rubber"
  {
  }

  lemma MaterialSoundTypeRubberBandLowerName()
    ensures Lower("RubberBand") == "rubberband"
  {
  }

  lemma MaterialSoundTypeWoodLowerName()
    ensures Lower("Wood") == "wood"
  {
  }

  /** The type whose lower-case name is `l`, trying the names in the source's order. */
  function ParseMaterialSoundType(l: string): (o: Option<MaterialSoundType>)
    ensures o.Some? ==> l == MaterialSoundTypeLowerName(o.value)
    ensures o.None? ==> forall t :: l != MaterialSoundTypeLowerName(t)
  {
    if l == "airbubble" then Some(MaterialSoundType.AirBubble)
    else if l == "cable" then Some(MaterialSoundType.Cable)
    else if l == "chain" then Some(MaterialSoundType.Chain)
    else if l == "cloth" then Some(MaterialSoundType.Cloth)
    else if l == "gas" then Some(MaterialSoundType.Gas)
    else if l == "glass" then Some(MaterialSoundType.Glass)
    else if l == "lego" then Some(MaterialSoundType.Lego)
    else if l == "metal" then Some(MaterialSoundType.Metal)
    else if l == "plastic" then Some(MaterialSoundType.Plastic)
    else if l == "rubber" then Some(MaterialSoundType.Rubber)
    else if l == "rubberband" then Some(MaterialSoundType.RubberBand)
    else if l == "wood" then Some(MaterialSoundType.Wood)
    else None
  }

  /** Every lower-case name parses to its own type: no earlier name in the chain shadows it. */
  lemma ParseMaterialSoundTypeLowerName(t: MaterialSoundType)
    ensures ParseMaterialSoundType(MaterialSoundTypeLowerName(t)) == Some(t)
  {
    match t
    case AirBubble => MaterialSoundTypeAirBubbleParses();
    case Cable => MaterialSoundTypeCableParses();
    case Chain => MaterialSoundTypeChainParses();
    case Cloth => MaterialSoundTypeClothParses();
    case Gas => MaterialSoundTypeGasParses();
    case Glass => MaterialSoundTypeGlassParses();
    case Lego => MaterialSoundTypeLegoParses();
    case Metal => MaterialSoundTypeMetalParses();
    case Plastic => MaterialSoundTypePlasticParses();
    case Rubber => MaterialSoundTypeRubberParses();
    case RubberBand => MaterialSoundTypeRubberBandParses();
    case Wood => MaterialSoundTypeWoodParses();
  }

  lemma MaterialSoundTypeAirBubbleParses()
    ensures ParseMaterialSoundType("airbubble") == Some(MaterialSoundType.AirBubble)
  {
  }

  lemma MaterialSoundTypeCableParses()
    ensures ParseMaterialSoundType("cable") == Some(MaterialSoundType.Cable)
  {
  }

  lemma MaterialSoundTypeChainParses()
    ensures ParseMaterialSoundType("chain") == Some(MaterialSoundType.Chain)
  {
    assert "chain"[1] != "cable"[1];
  }

  lemma MaterialSoundTypeClothParses()
    ensures ParseMaterialSoundType("cloth") == Some(MaterialSoundType.Cloth)
  {
    assert "cloth"[1] != "cable"[1];
    assert "cloth"[1] != "chain"[1];
  }

  lemma MaterialSoundTypeGasParses()
    ensures ParseMaterialSoundType("gas") == Some(MaterialSoundType.Gas)
  {
  }

  lemma MaterialSoundTypeGlassParses()
    ensures ParseMaterialSoundType("glass") == Some(MaterialSoundType.Glass)
  {
    assert "glass"[0] != "cable"[0];
    assert "glass"[0] != "chain"[0];
    assert "glass"[0] != "cloth"[0];
  }

  lemma MaterialSoundTypeLegoParses()
    ensures ParseMaterialSoundType("lego") == Some(MaterialSoundType.Lego)
  {
  }

  lemma MaterialSoundTypeMetalParses()
    ensures ParseMaterialSoundType("metal") == Some(MaterialSoundType.Metal)
  {
    assert "metal"[0] != "cable"[0];
    assert "metal"[0] != "chain"[0];
    assert "metal"[0] != "cloth"[0];
    assert "metal"[0] != "glass"[0];
  }

  lemma MaterialSoundTypePlasticParses()
    ensures ParseMaterialSoundType("plastic") == Some(MaterialSoundType.Plastic)
  {
  }

  lemma MaterialSoundTypeRubberParses()
    ensures ParseMaterialSoundType("rubber") == Some(MaterialSoundType.Rubber)
  {
  }

  lemma MaterialSoundTypeRubberBandParses()
    ensures ParseMaterialSoundType("rubberband") == Some(MaterialSoundType.RubberBand)
  {
  }

  lemma MaterialSoundTypeWoodParses()
    ensures ParseMaterialSoundType("wood") == Some(MaterialSoundType.Wood)
  {
    assert "wood"[0] != "lego"[0];
  }

  /** StrToMaterialSoundType: the type whose name equals `str` case-insensitively; any other string
      is rejected. */
  function StrToMaterialSoundType(str: string): (r: Result<MaterialSoundType, Error>)
    ensures r.Success? ==> CaseInsensitiveEquals(str, MaterialSoundTypeName(r.value))
    ensures r.Failure? ==> r == Failure(GameException(UnrecognizedMessage("MaterialSoundType", str)))
    ensures r.Failure? ==> forall t :: !CaseInsensitiveEquals(str, MaterialSoundTypeName(t))
  {
    match ParseMaterialSoundType(Lower(str))
    case Some(t) =>
      MaterialSoundTypeLowerNameIsLower(t);
      Success(t)
    case None =>
      assert forall t :: Lower(MaterialSoundTypeName(t)) == MaterialSoundTypeLowerName(t) by {
        forall t { MaterialSoundTypeLowerNameIsLower(t); }
      }
      Failure(GameException(UnrecognizedMessage("MaterialSoundType", str)))
  }

  /** Each name parses back to its own type. */
  lemma StrToMaterialSoundTypeRoundTrip(t: MaterialSoundType)
    ensures StrToMaterialSoundType(MaterialSoundTypeName(t)) == Success(t)
  {
    MaterialSoundTypeLowerNameIsLower(t);
    ParseMaterialSoundTypeLowerName(t);
  }

  /** `str` parses to `t` exactly when it is `t`'s name up to the case of its letters. */
  lemma StrToMaterialSoundTypeExact(str: string, t: MaterialSoundType)
    ensures StrToMaterialSoundType(str) == Success(t) <==> CaseInsensitiveEquals(str, MaterialSoundTypeName(t))
  {
    StrToMaterialSoundTypeRoundTrip(t);
  }


  /** The fixed ordinals of the unique types. */
  function UniqueTypeOrdinal(t: MaterialUniqueType): nat {
    match t
    case Air => 0
    case Rope => 1
    case Water => 2
  }

  /** _Last: the unique type with the largest ordinal. */
  const LastUniqueType: MaterialUniqueType := Water

  /** The ordinals are 0, 1, 2 without repeats, and _Last has the largest. */
  lemma UniqueTypeOrdinals(t: MaterialUniqueType, u: MaterialUniqueType)
    ensures UniqueTypeOrdinal(t) <= UniqueTypeOrdinal(LastUniqueType) == 2
    ensures UniqueTypeOrdinal(t) == UniqueTypeOrdinal(u) ==> t == u
  {
  }

  // ---- Electrical material enumerations ----

  /** The kind of electrical element a material makes. */
  datatype ElectricalElementType =
    Cable | Engine | EngineController | EngineTransmission | Generator | InteractiveSwitch | Lamp
    | OtherSink | PowerMonitor | ShipSound | SmokeEmitter | WaterPump | WaterSensingSwitch
    | WatertightDoor

  /** The name of each ElectricalElementType as the parser spells it. */
  function ElectricalElementTypeName(t: ElectricalElementType): string {
    match t
    case Cable => "Cable"
    case Engine => "Engine"
    case EngineController => "EngineController"
    case EngineTransmission => "EngineTransmission"
    case Generator => "Generator"
    case InteractiveSwitch => "InteractiveSwitch"
    case Lamp => "Lamp"
    case OtherSink => "OtherSink"
    case PowerMonitor => "PowerMonitor"
    case ShipSound => "ShipSound"
    case SmokeEmitter => "SmokeEmitter"
    case WaterPump => "WaterPump"
    case WaterSensingSwitch => "WaterSensingSwitch"
    case WatertightDoor => "WatertightDoor"
  }

  /** ElectricalElementTypeName folded to lower case. */
  function ElectricalElementTypeLowerName(t: ElectricalElementType): string {
    match t
    case Cable => "cable"
    case Engine => "engine"
    case EngineController => "enginecontroller"
    case EngineTransmission => "enginetransmission"
    case Generator => "generator"
    case InteractiveSwitch => "interactiveswitch"
    case Lamp => "lamp"
    case OtherSink => "othersink"
    case PowerMonitor => "powermonitor"
    case ShipSound => "shipsound"
    case SmokeEmitter => "smokeemitter"
    case WaterPump => "waterpump"
    case WaterSensingSwitch => "watersensingswitch"
    case WatertightDoor => "watertightdoor"
  }

  lemma ElectricalElementTypeLowerNameIsLower(t: ElectricalElementType)
    ensures Lower(ElectricalElementTypeName(t)) == ElectricalElementTypeLowerName(t)
  {
    match t
    case Cable => ElectricalElementTypeCableLowerName();
    case Engine => ElectricalElementTypeEngineLowerName();
    case EngineController => ElectricalElementTypeEngineControllerLowerName();
    case EngineTransmission => ElectricalElementTypeEngineTransmissionLowerName();
    case Generator => ElectricalElementTypeGeneratorLowerName();
    case InteractiveSwitch => ElectricalElementTypeInteractiveSwitchLowerName();
    case Lamp => ElectricalElementTypeLampLowerName();
    case OtherSink => ElectricalElementTypeOtherSinkLowerName();
    case PowerMonitor => ElectricalElementTypePowerMonitorLowerName();
    case ShipSound => ElectricalElementTypeShipSoundLowerName();
    case SmokeEmitter => ElectricalElementTypeSmokeEmitterLowerName();
    case WaterPump => ElectricalElementTypeWaterPumpLowerName();
    case WaterSensingSwitch => ElectricalElementTypeWaterSensingSwitchLowerName();
    case WatertightDoor => ElectricalElementTypeWatertightDoorLowerName();
  }

  lemma ElectricalElementTypeCableLowerName()
    ensures Lower("Cable") == "cable"
  {
  }

  lemma ElectricalElementTypeEngineLowerName()
    ensures Lower("Engine") == "engine"
  {
  }

  lemma ElectricalElementTypeEngineControllerLowerName()
    ensures Lower("EngineController") == "enginecontroller"
  {
  }

  lemma ElectricalElementTypeEngineTransmissionLowerName()
    ensures Lower("EngineTransmission") == "enginetransmission"
  {
  }

  lemma ElectricalElementTypeGeneratorLowerName()
    ensures Lower("Generator") == "generator"
  {
  }

  lemma ElectricalElementTypeInteractiveSwitchLowerName()
    ensures Lower("InteractiveSwitch") == "interactiveswitch"
  {
  }

  lemma ElectricalElementTypeLampLowerName()
    ensures Lower("Lamp") == "lamp"
  {
  }

  lemma ElectricalElementTypeOtherSinkLowerName()
    ensures Lower("OtherSink") == "othersink"
  {
  }

  lemma ElectricalElementTypePowerMonitorLowerName()
    ensures Lower("PowerMonitor") == "powermonitor"
  {
  }

  lemma ElectricalElementTypeShipSoundLowerName()
    ensures Lower("ShipSound") == "shipsound"
  {
  }

  lemma ElectricalElementTypeSmokeEmitterLowerName()
    ensures Lower("SmokeEmitter") == "smokeemitter"
  {
  }

  lemma ElectricalElementTypeWaterPumpLowerName()
    ensures Lower("WaterPump") == "waterpump"
  {
  }

  lemma ElectricalElementTypeWaterSensingSwitchLowerName()
    ensures Lower("WaterSensingSwitch") == "watersensingswitch"
  {
  }

  lemma ElectricalElementTypeWatertightDoorLowerName()
    ensures Lower("WatertightDoor") == "watertightdoor"
  {
  }

  /** The type whose lower-case name is `l`, trying the names in the source's order. */
  function ParseElectricalElementType(l: string): (o: Option<ElectricalElementType>)
    ensures o.Some? ==> l == ElectricalElementTypeLowerName(o.value)
    ensures o.None? ==> forall t :: l != ElectricalElementTypeLowerName(t)
  {
    if l == "cable" then Some(ElectricalElementType.Cable)
    else if l == "engine" then Some(ElectricalElementType.Engine)
    else if l == "enginecontroller" then Some(ElectricalElementType.EngineController)
    else if l == "enginetransmission" then Some(ElectricalElementType.EngineTransmission)
    else if l == "generator" then Some(ElectricalElementType.Generator)
    else if l == "interactiveswitch" then Some(ElectricalElementType.InteractiveSwitch)
    else if l == "lamp" then Some(ElectricalElementType.Lamp)
    else if l == "othersink" then Some(ElectricalElementType.OtherSink)
    else if l == "powermonitor" then Some(ElectricalElementType.PowerMonitor)
    else if l == "shipsound" then Some(ElectricalElementType.ShipSound)
    else if l == "smokeemitter" then Some(ElectricalElementType.SmokeEmitter)
    else if l == "waterpump" then Some(ElectricalElementType.WaterPump)
    else if l == "watersensingswitch" then Some(ElectricalElementType.WaterSensingSwitch)
    else if l == "watertightdoor" then Some(ElectricalElementType.WatertightDoor)
    else None
  }

  /** Every lower-case name parses to its own type: no earlier name in the chain shadows it. */
  lemma ParseElectricalElementTypeLowerName(t: ElectricalElementType)
    ensures ParseElectricalElementType(ElectricalElementTypeLowerName(t)) == Some(t)
  {
    match t
    case Cable => ElectricalElementTypeCableParses();
    case Engine => ElectricalElementTypeEngineParses();
    case EngineController => ElectricalElementTypeEngineControllerParses();
    case EngineTransmission => ElectricalElementTypeEngineTransmissionParses();
    case Generator => ElectricalElementTypeGeneratorParses();
    case InteractiveSwitch => ElectricalElementTypeInteractiveSwitchParses();
    case Lamp => ElectricalElementTypeLampParses();
    case OtherSink => ElectricalElementTypeOtherSinkParses();
    case PowerMonitor => ElectricalElementTypePowerMonitorParses();
    case ShipSound => ElectricalElementTypeShipSoundParses();
    case SmokeEmitter => ElectricalElementTypeSmokeEmitterParses();
    case WaterPump => ElectricalElementTypeWaterPumpParses();
    case WaterSensingSwitch => ElectricalElementTypeWaterSensingSwitchParses();
    case WatertightDoor => ElectricalElementTypeWatertightDoorParses();
  }

  lemma ElectricalElementTypeCableParses()
    ensures ParseElectricalElementType("cable") == Some(ElectricalElementType.Cable)
  {
  }

  lemma ElectricalElementTypeEngineParses()
    ensures ParseElectricalElementType("engine") == Some(ElectricalElementType.Engine)
  {
  }

  lemma ElectricalElementTypeEngineControllerParses()
    ensures ParseElectricalElementType("enginecontroller") == Some(ElectricalElementType.EngineController)
  {
  }

  lemma ElectricalElementTypeEngineTransmissionParses()
    ensures ParseElectricalElementType("enginetransmission") == Some(ElectricalElementType.EngineTransmission)
  {
  }

  lemma ElectricalElementTypeGeneratorParses()
    ensures ParseElectricalElementType("generator") == Some(ElectricalElementType.Generator)
  {
  }

  lemma ElectricalElementTypeInteractiveSwitchParses()
    ensures ParseElectricalElementType("interactiveswitch") == Some(ElectricalElementType.InteractiveSwitch)
  {
  }

  lemma ElectricalElementTypeLampParses()
    ensures ParseElectricalElementType("lamp") == Some(ElectricalElementType.Lamp)
  {
  }

  lemma ElectricalElementTypeOtherSinkParses()
    ensures ParseElectricalElementType("othersink") == Some(ElectricalElementType.OtherSink)
  {
    assert "othersink"[0] != "generator"[0];
  }

  lemma ElectricalElementTypePowerMonitorParses()
    ensures ParseElectricalElementType("powermonitor") == Some(ElectricalElementType.PowerMonitor)
  {
  }

  lemma ElectricalElementTypeShipSoundParses()
    ensures ParseElectricalElementType("shipsound") == Some(ElectricalElementType.ShipSound)
  {
    assert "shipsound"[0] != "generator"[0];
    assert "shipsound"[0] != "othersink"[0];
  }

  lemma ElectricalElementTypeSmokeEmitterParses()
    ensures ParseElectricalElementType("smokeemitter") == Some(ElectricalElementType.SmokeEmitter)
  {
    assert "smokeemitter"[0] != "powermonitor"[0];
  }

  lemma ElectricalElementTypeWaterPumpParses()
    ensures ParseElectricalElementType("waterpump") == Some(ElectricalElementType.WaterPump)
  {
    assert "waterpump"[0] != "generator"[0];
    assert "waterpump"[0] != "othersink"[0];
    assert "waterpump"[0] != "shipsound"[0];
  }

  lemma ElectricalElementTypeWaterSensingSwitchParses()
    ensures ParseElectricalElementType("watersensingswitch") == Some(ElectricalElementType.WaterSensingSwitch)
  {
    assert "watersensingswitch"[0] != "enginetransmission"[0];
  }

  lemma ElectricalElementTypeWatertightDoorParses()
    ensures ParseElectricalElementType("watertightdoor") == Some(ElectricalElementType.WatertightDoor)
  {
  }

  /** StrToElectricalElementType: the type whose name equals `str` case-insensitively; any other string
      is rejected. */
  function StrToElectricalElementType(str: string): (r: Result<ElectricalElementType, Error>)
    ensures r.Success? ==> CaseInsensitiveEquals(str, ElectricalElementTypeName(r.value))
    ensures r.Failure? ==> r == Failure(GameException(UnrecognizedMessage("ElectricalElementType", str)))
    ensures r.Failure? ==> forall t :: !CaseInsensitiveEquals(str, ElectricalElementTypeName(t))
  {
    match ParseElectricalElementType(Lower(str))
    case Some(t) =>
      ElectricalElementTypeLowerNameIsLower(t);
      Success(t)
    case None =>
      assert forall t :: Lower(ElectricalElementTypeName(t)) == ElectricalElementTypeLowerName(t) by {
        forall t { ElectricalElementTypeLowerNameIsLower(t); }
      }
      Failure(GameException(UnrecognizedMessage("ElectricalElementType", str)))
  }

  /** Each name parses back to its own type. */
  lemma StrToElectricalElementTypeRoundTrip(t: ElectricalElementType)
    ensures StrToElectricalElementType(ElectricalElementTypeName(t)) == Success(t)
  {
    ElectricalElementTypeLowerNameIsLower(t);
    ParseElectricalElementTypeLowerName(t);
  }

  /** `str` parses to `t` exactly when it is `t`'s name up to the case of its letters. */
  lemma StrToElectricalElementTypeExact(str: string, t: ElectricalElementType)
    ensures StrToElectricalElementType(str) == Success(t) <==> CaseInsensitiveEquals(str, ElectricalElementTypeName(t))
  {
    StrToElectricalElementTypeRoundTrip(t);
  }

  /** The kind of engine. */
  datatype EngineElementType = Diesel | Jet | Outboard | Steam

  /** The name of each EngineElementType as the parser spells it. */
  function EngineElementTypeName(t: EngineElementType): string {
    match t
    case Diesel => "Diesel"
    case Jet => "Jet"
    case Outboard => "Outboard"
    case Steam => "Steam"
  }

  /** EngineElementTypeName folded to lower case. */
  function EngineElementTypeLowerName(t: EngineElementType): string {
    match t
    case Diesel => "diesel"
    case Jet => "jet"
    case Outboard => "outboard"
    case Steam => "steam"
  }

  lemma EngineElementTypeLowerNameIsLower(t: EngineElementType)
    ensures Lower(EngineElementTypeName(t)) == EngineElementTypeLowerName(t)
  {
  }

  /** The type whose lower-case name is `l`, trying the names in the source's order. */
  function ParseEngineElementType(l: string): (o: Option<EngineElementType>)
    ensures o.Some? ==> l == EngineElementTypeLowerName(o.value)
    ensures o.None? ==> forall t :: l != EngineElementTypeLowerName(t)
  {
    if l == "diesel" then Some(EngineElementType.Diesel)
    else if l == "jet" then Some(EngineElementType.Jet)
    else if l == "outboard" then Some(EngineElementType.Outboard)
    else if l == "steam" then Some(EngineElementType.Steam)
    else None
  }

  /** Every lower-case name parses to its own type: no earlier name in the chain shadows it. */
  lemma ParseEngineElementTypeLowerName(t: EngineElementType)
    ensures ParseEngineElementType(EngineElementTypeLowerName(t)) == Some(t)
  {
  }

  /** StrToEngineElementType: the type whose name equals `str` case-insensitively; any other string
      is rejected. */
  function StrToEngineElementType(str: string): (r: Result<EngineElementType, Error>)
    ensures r.Success? ==> CaseInsensitiveEquals(str, EngineElementTypeName(r.value))
    ensures r.Failure? ==> r == Failure(GameException(UnrecognizedMessage("EngineElementType", str)))
    ensures r.Failure? ==> forall t :: !CaseInsensitiveEquals(str, EngineElementTypeName(t))
  {
    match ParseEngineElementType(Lower(str))
    case Some(t) =>
      EngineElementTypeLowerNameIsLower(t);
      Success(t)
    case None =>
      assert forall t :: Lower(EngineElementTypeName(t)) == EngineElementTypeLowerName(t) by {
        forall t { EngineElementTypeLowerNameIsLower(t); }
      }
      Failure(GameException(UnrecognizedMessage("EngineElementType", str)))
  }

  /** Each name parses back to its own type. */
  lemma StrToEngineElementTypeRoundTrip(t: EngineElementType)
    ensures StrToEngineElementType(EngineElementTypeName(t)) == Success(t)
  {
    EngineElementTypeLowerNameIsLower(t);
    ParseEngineElementTypeLowerName(t);
  }

  /** `str` parses to `t` exactly when it is `t`'s name up to the case of its letters. */
  lemma StrToEngineElementTypeExact(str: string, t: EngineElementType)
    ensures StrToEngineElementType(str) == Success(t) <==> CaseInsensitiveEquals(str, EngineElementTypeName(t))
  {
    StrToEngineElementTypeRoundTrip(t);
  }

  /** How an interactive switch reacts to the player. */
  datatype InteractiveSwitchElementType = Push | Toggle

  /** The name of each InteractiveSwitchElementType as the parser spells it. */
  function InteractiveSwitchElementTypeName(t: InteractiveSwitchElementType): string {
    match t
    case Push => "Push"
    case Toggle => "Toggle"
  }

  /** InteractiveSwitchElementTypeName folded to lower case. */
  function InteractiveSwitchElementTypeLowerName(t: InteractiveSwitchElementType): string {
    match t
    case Push => "push"
    case Toggle => "toggle"
  }

  lemma InteractiveSwitchElementTypeLowerNameIsLower(t: InteractiveSwitchElementType)
    ensures Lower(InteractiveSwitchElementTypeName(t)) == InteractiveSwitchElementTypeLowerName(t)
  {
  }

  /** The type whose lower-case name is `l`, trying the names in the source's order. */
  function ParseInteractiveSwitchElementType(l: string): (o: Option<InteractiveSwitchElementType>)
    ensures o.Some? ==> l == InteractiveSwitchElementTypeLowerName(o.value)
    ensures o.None? ==> forall t :: l != InteractiveSwitchElementTypeLowerName(t)
  {
    if l == "push" then Some(InteractiveSwitchElementType.Push)
    else if l == "toggle" then Some(InteractiveSwitchElementType.Toggle)
    else None
  }

  /** Every lower-case name parses to its own type: no earlier name in the chain shadows it. */
  lemma ParseInteractiveSwitchElementTypeLowerName(t: InteractiveSwitchElementType)
    ensures ParseInteractiveSwitchElementType(InteractiveSwitchElementTypeLowerName(t)) == Some(t)
  {
  }

  /** StrToInteractiveSwitchElementType: the type whose name equals `str` case-insensitively; any other string
      is rejected. */
  function StrToInteractiveSwitchElementType(str: string): (r: Result<InteractiveSwitchElementType, Error>)
    ensures r.Success? ==> CaseInsensitiveEquals(str, InteractiveSwitchElementTypeName(r.value))
    ensures r.Failure? ==> r == Failure(GameException(UnrecognizedMessage("InteractiveSwitchElementType", str)))
    ensures r.Failure? ==> forall t :: !CaseInsensitiveEquals(str, InteractiveSwitchElementTypeName(t))
  {
    match ParseInteractiveSwitchElementType(Lower(str))
    case Some(t) =>
      InteractiveSwitchElementTypeLowerNameIsLower(t);
      Success(t)
    case None =>
      assert forall t :: Lower(InteractiveSwitchElementTypeName(t)) == InteractiveSwitchElementTypeLowerName(t) by {
        forall t { InteractiveSwitchElementTypeLowerNameIsLower(t); }
      }
      Failure(GameException(UnrecognizedMessage("InteractiveSwitchElementType", str)))
  }

  /** Each name parses back to its own type. */
  lemma StrToInteractiveSwitchElementTypeRoundTrip(t: InteractiveSwitchElementType)
    ensures StrToInteractiveSwitchElementType(InteractiveSwitchElementTypeName(t)) == Success(t)
  {
    InteractiveSwitchElementTypeLowerNameIsLower(t);
    ParseInteractiveSwitchElementTypeLowerName(t);
  }

  /** `str` parses to `t` exactly when it is `t`'s name up to the case of its letters. */
  lemma StrToInteractiveSwitchElementTypeExact(str: string, t: InteractiveSwitchElementType)
    ensures StrToInteractiveSwitchElementType(str) == Success(t) <==> CaseInsensitiveEquals(str, InteractiveSwitchElementTypeName(t))
  {
    StrToInteractiveSwitchElementTypeRoundTrip(t);
  }

  /** The sound of a ship bell, horn, whistle or alarm. */
  datatype ShipSoundElementType =
    Bell1 | Bell2 | QueenMaryHorn | FourFunnelLinerWhistle | TripodHorn | PipeWhistle
    | LakeFreighterHorn | ShieldhallSteamSiren | QueenElizabeth2Horn | SSRexWhistle | Klaxon1
    | NuclearAlarm1 | EvacuationAlarm1 | EvacuationAlarm2

  /** The name of each ShipSoundElementType as the parser spells it. */
  function ShipSoundElementTypeName(t: ShipSoundElementType): string {
    match t
    case Bell1 => "Bell1"
    case Bell2 => "Bell2"
    case QueenMaryHorn => "QueenMaryHorn"
    case FourFunnelLinerWhistle => "FourFunnelLinerWhistle"
    case TripodHorn => "TripodHorn"
    case PipeWhistle => "PipeWhistle"
    case LakeFreighterHorn => "LakeFreighterHorn"
    case ShieldhallSteamSiren => "ShieldhallSteamSiren"
    case QueenElizabeth2Horn => "QueenElizabeth2Horn"
    case SSRexWhistle => "SSRexWhistle"
    case Klaxon1 => "Klaxon1"
    case NuclearAlarm1 => "NuclearAlarm1"
    case EvacuationAlarm1 => "EvacuationAlarm1"
    case EvacuationAlarm2 => "EvacuationAlarm2"
  }

  /** ShipSoundElementTypeName folded to lower case. */
  function ShipSoundElementTypeLowerName(t: ShipSoundElementType): string {
    match t
    case Bell1 => "bell1"
    case Bell2 => "bell2"
    case QueenMaryHorn => "queenmaryhorn"
    case FourFunnelLinerWhistle => "fourfunnellinerwhistle"
    case TripodHorn => "tripodhorn"
    case PipeWhistle => "pipewhistle"
    case LakeFreighterHorn => "lakefreighterhorn"
    case ShieldhallSteamSiren => "shieldhallsteamsiren"
    case QueenElizabeth2Horn => "queenelizabeth2horn"
    case SSRexWhistle => "ssrexwhistle"
    case Klaxon1 => "klaxon1"
    case NuclearAlarm1 => "nuclearalarm1"
    case EvacuationAlarm1 => "evacuationalarm1"
    case EvacuationAlarm2 => "evacuationalarm2"
  }

  lemma ShipSoundElementTypeLowerNameIsLower(t: ShipSoundElementType)
    ensures Lower(ShipSoundElementTypeName(t)) == ShipSoundElementTypeLowerName(t)
  {
    match t
    case Bell1 => ShipSoundElementTypeBell1LowerName();
    case Bell2 => ShipSoundElementTypeBell2LowerName();
    case QueenMaryHorn => ShipSoundElementTypeQueenMaryHornLowerName();
    case FourFunnelLinerWhistle => ShipSoundElementTypeFourFunnelLinerWhistleLowerName();
    case TripodHorn => ShipSoundElementTypeTripodHornLowerName();
    case PipeWhistle => ShipSoundElementTypePipeWhistleLowerName();
    case LakeFreighterHorn => ShipSoundElementTypeLakeFreighterHornLowerName();
    case ShieldhallSteamSiren => ShipSoundElementTypeShieldhallSteamSirenLowerName();
    case QueenElizabeth2Horn => ShipSoundElementTypeQueenElizabeth2HornLowerName();
    case SSRexWhistle => ShipSoundElementTypeSSRexWhistleLowerName();
    case Klaxon1 => ShipSoundElementTypeKlaxon1LowerName();
    case NuclearAlarm1 => ShipSoundElementTypeNuclearAlarm1LowerName();
    case EvacuationAlarm1 => ShipSoundElementTypeEvacuationAlarm1LowerName();
    case EvacuationAlarm2 => ShipSoundElementTypeEvacuationAlarm2LowerName();
  }

  lemma ShipSoundElementTypeBell1LowerName()
    ensures Lower("Bell1") == "bell1"
  {
  }

  lemma ShipSoundElementTypeBell2LowerName()
    ensures Lower("Bell2") == "bell2"
  {
  }

  lemma ShipSoundElementTypeQueenMaryHornLowerName()
    ensures Lower("QueenMaryHorn") == "queenmaryhorn"
  {
  }

  lemma ShipSoundElementTypeFourFunnelLinerWhistleLowerName()
    ensures Lower("FourFunnelLinerWhistle") == "fourfunnellinerwhistle"
  {
  }

  lemma ShipSoundElementTypeTripodHornLowerName()
    ensures Lower("TripodHorn") == "tripodhorn"
  {
  }

  lemma ShipSoundElementTypePipeWhistleLowerName()
    ensures Lower("PipeWhistle") == "pipewhistle"
  {
  }

  lemma ShipSoundElementTypeLakeFreighterHornLowerName()
    ensures Lower("LakeFreighterHorn") == "lakefreighterhorn"
  {
  }

  lemma ShipSoundElementTypeShieldhallSteamSirenLowerName()
    ensures Lower("ShieldhallSteamSiren") == "shieldhallsteamsiren"
  {
  }

  lemma ShipSoundElementTypeQueenElizabeth2HornLowerName()
    ensures Lower("QueenElizabeth2Horn") == "queenelizabeth2horn"
  {
  }

  lemma ShipSoundElementTypeSSRexWhistleLowerName()
    ensures Lower("SSRexWhistle") == "ssrexwhistle"
  {
  }

  lemma ShipSoundElementTypeKlaxon1LowerName()
    ensures Lower("Klaxon1") == "klaxon1"
  {
  }

  lemma ShipSoundElementTypeNuclearAlarm1LowerName()
    ensures Lower("NuclearAlarm1") == "nuclearalarm1"
  {
  }

  lemma ShipSoundElementTypeEvacuationAlarm1LowerName()
    ensures Lower("EvacuationAlarm1") == "evacuationalarm1"
  {
  }

  lemma ShipSoundElementTypeEvacuationAlarm2LowerName()
    ensures Lower("EvacuationAlarm2") == "evacuationalarm2"
  {
  }

  /** The type whose lower-case name is `l`, trying the names in the source's order. */
  function ParseShipSoundElementType(l: string): (o: Option<ShipSoundElementType>)
    ensures o.Some? ==> l == ShipSoundElementTypeLowerName(o.value)
    ensures o.None? ==> forall t :: l != ShipSoundElementTypeLowerName(t)
  {
    if l == "bell1" then Some(ShipSoundElementType.Bell1)
    else if l == "bell2" then Some(ShipSoundElementType.Bell2)
    else if l == "queenmaryhorn" then Some(ShipSoundElementType.QueenMaryHorn)
    else if l == "fourfunnellinerwhistle" then Some(ShipSoundElementType.FourFunnelLinerWhistle)
    else if l == "tripodhorn" then Some(ShipSoundElementType.TripodHorn)
    else if l == "pipewhistle" then Some(ShipSoundElementType.PipeWhistle)
    else if l == "lakefreighterhorn" then Some(ShipSoundElementType.LakeFreighterHorn)
    else if l == "shieldhallsteamsiren" then Some(ShipSoundElementType.ShieldhallSteamSiren)
    else if l == "queenelizabeth2horn" then Some(ShipSoundElementType.QueenElizabeth2Horn)
    else if l == "ssrexwhistle" then Some(ShipSoundElementType.SSRexWhistle)
    else if l == "klaxon1" then Some(ShipSoundElementType.Klaxon1)
    else if l == "nuclearalarm1" then Some(ShipSoundElementType.NuclearAlarm1)
    else if l == "evacuationalarm1" then Some(ShipSoundElementType.EvacuationAlarm1)
    else if l == "evacuationalarm2" then Some(ShipSoundElementType.EvacuationAlarm2)
    else None
  }

  /** Every lower-case name parses to its own type: no earlier name in the chain shadows it. */
  lemma ParseShipSoundElementTypeLowerName(t: ShipSoundElementType)
    ensures ParseShipSoundElementType(ShipSoundElementTypeLowerName(t)) == Some(t)
  {
    match t
    case Bell1 => ShipSoundElementTypeBell1Parses();
    case Bell2 => ShipSoundElementTypeBell2Parses();
    case QueenMaryHorn => ShipSoundElementTypeQueenMaryHornParses();
    case FourFunnelLinerWhistle => ShipSoundElementTypeFourFunnelLinerWhistleParses();
    case TripodHorn => ShipSoundElementTypeTripodHornParses();
    case PipeWhistle => ShipSoundElementTypePipeWhistleParses();
    case LakeFreighterHorn => ShipSoundElementTypeLakeFreighterHornParses();
    case ShieldhallSteamSiren => ShipSoundElementTypeShieldhallSteamSirenParses();
    case QueenElizabeth2Horn => ShipSoundElementTypeQueenElizabeth2HornParses();
    case SSRexWhistle => ShipSoundElementTypeSSRexWhistleParses();
    case Klaxon1 => ShipSoundElementTypeKlaxon1Parses();
    case NuclearAlarm1 => ShipSoundElementTypeNuclearAlarm1Parses();
    case EvacuationAlarm1 => ShipSoundElementTypeEvacuationAlarm1Parses();
    case EvacuationAlarm2 => ShipSoundElementTypeEvacuationAlarm2Parses();
  }

  lemma ShipSoundElementTypeBell1Parses()
    ensures ParseShipSoundElementType("bell1") == Some(ShipSoundElementType.Bell1)
  {
  }

  lemma ShipSoundElementTypeBell2Parses()
    ensures ParseShipSoundElementType("bell2") == Some(ShipSoundElementType.Bell2)
  {
    assert "bell2"[4] != "bell1"[4];
  }

  lemma ShipSoundElementTypeQueenMaryHornParses()
    ensures ParseShipSoundElementType("queenmaryhorn") == Some(ShipSoundElementType.QueenMaryHorn)
  {
  }

  lemma ShipSoundElementTypeFourFunnelLinerWhistleParses()
    ensures ParseShipSoundElementType("fourfunnellinerwhistle") == Some(ShipSoundElementType.FourFunnelLinerWhistle)
  {
  }

  lemma ShipSoundElementTypeTripodHornParses()
    ensures ParseShipSoundElementType("tripodhorn") == Some(ShipSoundElementType.TripodHorn)
  {
  }

  lemma ShipSoundElementTypePipeWhistleParses()
    ensures ParseShipSoundElementType("pipewhistle") == Some(ShipSoundElementType.PipeWhistle)
  {
  }

  lemma ShipSoundElementTypeLakeFreighterHornParses()
    ensures ParseShipSoundElementType("lakefreighterhorn") == Some(ShipSoundElementType.LakeFreighterHorn)
  {
  }

  lemma ShipSoundElementTypeShieldhallSteamSirenParses()
    ensures ParseShipSoundElementType("shieldhallsteamsiren") == Some(ShipSoundElementType.ShieldhallSteamSiren)
  {
  }

  lemma ShipSoundElementTypeQueenElizabeth2HornParses()
    ensures ParseShipSoundElementType("queenelizabeth2horn") == Some(ShipSoundElementType.QueenElizabeth2Horn)
  {
  }

  lemma ShipSoundElementTypeSSRexWhistleParses()
    ensures ParseShipSoundElementType("ssrexwhistle") == Some(ShipSoundElementType.SSRexWhistle)
  {
  }

  lemma ShipSoundElementTypeKlaxon1Parses()
    ensures ParseShipSoundElementType("klaxon1") == Some(ShipSoundElementType.Klaxon1)
  {
  }

  lemma ShipSoundElementTypeNuclearAlarm1Parses()
    ensures ParseShipSoundElementType("nuclearalarm1") == Some(ShipSoundElementType.NuclearAlarm1)
  {
    assert "nuclearalarm1"[0] != "queenmaryhorn"[0];
  }

  lemma ShipSoundElementTypeEvacuationAlarm1Parses()
    ensures ParseShipSoundElementType("evacuationalarm1") == Some(ShipSoundElementType.EvacuationAlarm1)
  {
  }

  lemma ShipSoundElementTypeEvacuationAlarm2Parses()
    ensures ParseShipSoundElementType("evacuationalarm2") == Some(ShipSoundElementType.EvacuationAlarm2)
  {
    assert "evacuationalarm2"[15] != "evacuationalarm1"[15];
  }

  /** StrToShipSoundElementType: the type whose name equals `str` case-insensitively; any other string
      is rejected. */
  function StrToShipSoundElementType(str: string): (r: Result<ShipSoundElementType, Error>)
    ensures r.Success? ==> CaseInsensitiveEquals(str, ShipSoundElementTypeName(r.value))
    ensures r.Failure? ==> r == Failure(GameException(UnrecognizedMessage("ShipSoundElementType", str)))
    ensures r.Failure? ==> forall t :: !CaseInsensitiveEquals(str, ShipSoundElementTypeName(t))
  {
    match ParseShipSoundElementType(Lower(str))
    case Some(t) =>
      ShipSoundElementTypeLowerNameIsLower(t);
      Success(t)
    case None =>
      assert forall t :: Lower(ShipSoundElementTypeName(t)) == ShipSoundElementTypeLowerName(t) by {
        forall t { ShipSoundElementTypeLowerNameIsLower(t); }
      }
      Failure(GameException(UnrecognizedMessage("ShipSoundElementType", str)))
  }

  /** Each name parses back to its own type. */
  lemma StrToShipSoundElementTypeRoundTrip(t: ShipSoundElementType)
    ensures StrToShipSoundElementType(ShipSoundElementTypeName(t)) == Success(t)
  {
    ShipSoundElementTypeLowerNameIsLower(t);
    ParseShipSoundElementTypeLowerName(t);
  }

  /** `str` parses to `t` exactly when it is `t`'s name up to the case of its letters. */
  lemma StrToShipSoundElementTypeExact(str: string, t: ShipSoundElementType)
    ensures StrToShipSoundElementType(str) == Success(t) <==> CaseInsensitiveEquals(str, ShipSoundElementTypeName(t))
  {
    StrToShipSoundElementTypeRoundTrip(t);
  }

}
