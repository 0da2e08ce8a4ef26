/** Structural and electrical materials (Game/Materials.h, Game/Materials.cpp): the creation of
    a material from its JSON definition, with its defaults and validations, the label of an
    instanced electrical element, and the material helpers. Floating-point values are real
    numbers; a material colour key is an rgbColor. */
module Materials {
  import opened Wrappers
  import opened Vectors
  import opened Colors
  import opened Json
  import opened Text
  import opened MaterialEnums

  /** C++ `unsigned int`: arithmetic on it wraps around modulo 2^32. */
  newtype uint32 = x: int | 0 <= x < 0x1_0000_0000

  const TwoToThe32: int := 0x1_0000_0000

  /** static_cast<unsigned int> of a 64-bit integer: its value modulo 2^32. */
  function ToUInt32(x: int): uint32 {
    (x % TwoToThe32) as uint32
  }

  /** The unsigned `a += b`. */
  function WrappingAdd(a: uint32, b: uint32): (s: uint32)
    ensures a as int + b as int < TwoToThe32 ==> s as int == a as int + b as int
    ensures a as int + b as int >= TwoToThe32 ==> s as int == a as int + b as int - TwoToThe32
  {
    ToUInt32(a as int + b as int)
  }

  // ---- Palette coordinates ----

  /** MaterialPaletteCoordinatesType: where a material sits in the material palette. */
  datatype PaletteCoordinates = PaletteCoordinates(category: string, subCategory: string, subCategoryOrdinal: uint32)

  /** DeserializePaletteCoordinates: the three mandatory members; the ordinal is read as a
      64-bit integer and cast to unsigned int. */
  function DeserializePaletteCoordinates(j: JsonObject): (r: Result<PaletteCoordinates, Error>)
    ensures r.Success? <==>
      GetMandatoryString(j, "category").Success? && GetMandatoryString(j, "sub_category").Success?
      && GetMandatoryInteger(j, "sub_category_ordinal").Success?
    ensures r.Success? ==>
      r.value.category == StringOr(j, "category", "") && r.value.subCategory == StringOr(j, "sub_category", "")
      && r.value.subCategoryOrdinal as int == NumberOr(j, "sub_category_ordinal", 0.0).Floor % TwoToThe32
  {
    var category :- GetMandatoryString(j, "category");
    var subCategory :- GetMandatoryString(j, "sub_category");
    var ordinal :- GetMandatoryInteger(j, "sub_category_ordinal");
    Success(PaletteCoordinates(category, subCategory, ToUInt32(ordinal)))
  }

  /** The deserialized coordinates with `ordinal` added to the sub-category ordinal: the
      materials of a series of colours take consecutive places in their sub-category. */
  function ShiftedPaletteCoordinates(j: JsonObject, ordinal: uint32): (r: Result<PaletteCoordinates, Error>)
    ensures r.Success? <==> DeserializePaletteCoordinates(j).Success?
    ensures r.Success? ==>
      var p := DeserializePaletteCoordinates(j).value;
      r.value.category == p.category && r.value.subCategory == p.subCategory
      && r.value.subCategoryOrdinal as int == (p.subCategoryOrdinal as int + ordinal as int) % TwoToThe32
    ensures r.Failure? ==> r == Failure(DeserializePaletteCoordinates(j).error)
  {
    var p :- DeserializePaletteCoordinates(j);
    Success(p.(subCategoryOrdinal := WrappingAdd(p.subCategoryOrdinal, ordinal)))
  }

  // ---- Structural materials ----

  datatype StructuralMaterial = StructuralMaterial(
    colorKey: RgbColor,
    name: string,
    renderColor: Rgba,
    strength: real,
    nominalMass: real,
    density: real,
    buoyancyVolumeFill: real,
    stiffness: real,
    strainThresholdFraction: real,
    uniqueType: Option<MaterialUniqueType>,
    materialSound: Option<MaterialSoundType>,
    materialTextureName: Option<string>,
    opacity: real,
    isHull: bool,
    waterIntake: real,
    waterDiffusionSpeed: real,
    waterRetention: real,
    rustReceptivity: real,
    ignitionTemperature: real,
    meltingTemperature: real,
    thermalConductivity: real,
    thermalExpansionCoefficient: real,
    specificHeat: real,
    combustionType: MaterialCombustionType,
    explosiveCombustionRadius: real,
    explosiveCombustionStrength: real,
    windReceptivity: real,
    waterReactivity: real,
    isLegacyElectrical: bool,
    paletteCoordinates: Option<PaletteCoordinates>)
  {
    /** Whether the material plays the given unique role. */
    predicate IsUniqueType(t: MaterialUniqueType) {
      uniqueType.Some? && uniqueType.value == t
    }

    /** The mass of a cubic metre of the material. */
    function GetMass(): real {
      nominalMass * density
    }

    /** The heat capacity, in J/K. */
    function GetHeatCapacity(): real {
      specificHeat * GetMass()
    }
  }

  /** A material plays at most one unique role, and exactly the one it was given. */
  lemma IsUniqueTypeExclusive(m: StructuralMaterial, t: MaterialUniqueType, u: MaterialUniqueType)
    ensures m.IsUniqueType(t) <==> m.uniqueType == Some(t)
    ensures m.IsUniqueType(t) && m.IsUniqueType(u) ==> t == u
  {
  }

  /** The heat capacity is specific heat times nominal mass times density, positive when all
      three are. */
  lemma HeatCapacityIsProduct(m: StructuralMaterial)
    ensures m.GetHeatCapacity() == m.specificHeat * m.nominalMass * m.density
    ensures m.specificHeat > 0.0 && m.nominalMass > 0.0 && m.density > 0.0 ==> m.GetHeatCapacity() > 0.0
  {
    if m.specificHeat > 0.0 && m.nominalMass > 0.0 && m.density > 0.0 {
      assert m.GetMass() > 0.0;
    }
  }

  /** The test constructor: unit strength, mass and density, a strain threshold of one half,
      no unique type, sound or texture, not legacy electrical, no palette coordinates. */
  function StructuralMaterialForTests(colorKey: RgbColor, name: string, renderColor: Rgba): (m: StructuralMaterial)
    ensures m.colorKey == colorKey && m.name == name && m.renderColor == renderColor
    ensures m.strength == 1.0 && m.GetMass() == 1.0 && m.GetHeatCapacity() == 1.0
    ensures m.strainThresholdFraction == 0.5 && m.waterReactivity == 0.0
    ensures forall t :: !m.IsUniqueType(t)
    ensures !m.isLegacyElectrical && m.paletteCoordinates.None?
  {
    StructuralMaterial(
      colorKey, name, renderColor,
      1.0, 1.0, 1.0, 1.0, 1.0, 0.5,
      None, None, None, 1.0,
      false, 1.0, 1.0, 1.0, 1.0,
      200.0, 200.0, 1.0, 1.0, 1.0, MaterialCombustionType.Combustion, 1.0, 1.0,
      1.0, 0.0, false,
      None)
  }

  /** static_cast<uint8_t>(255.0f * opacity): truncation, for an opacity in [0, 1]. An opacity
      outside that range has no defined conversion; it is clamped here. */
  function OpacityToAlpha(opacity: real): (a: byte)
    ensures 0.0 <= opacity <= 1.0 ==> a as real <= 255.0 * opacity < a as real + 1.0
    ensures opacity == 1.0 ==> a == 255
  {
    if opacity <= 0.0 then 0
    else if opacity >= 1.0 then 255
    else (255.0 * opacity).Floor as byte
  }

  /** The message of a non-legacy-electrical material without palette coordinates. */
  function MissingPaletteMessage(name: string): string {
    "Non-legacy-electrical material \"" + name + "\" doesn't have palette_coordinates member"
  }

  /** The palette step of StructuralMaterial::Create: a legacy-electrical material has no palette
      coordinates; any other must have them, shifted by the material's ordinal. */
  function StructuralPalette(name: string, ordinal: uint32, isLegacyElectrical: bool, paletteJson: Option<JsonObject>)
    : (r: Result<Option<PaletteCoordinates>, Error>)
    ensures isLegacyElectrical ==> r == Success(None)
    ensures !isLegacyElectrical && paletteJson.None? ==> r == Failure(GameException(MissingPaletteMessage(name)))
    ensures !isLegacyElectrical && paletteJson.Some? ==>
      match ShiftedPaletteCoordinates(paletteJson.value, ordinal)
      case Success(p) => r == Success(Some(p))
      case Failure(e) => r == Failure(e)
  {
    if isLegacyElectrical then Success(None)
    else if paletteJson.None? then Failure(GameException(MissingPaletteMessage(name)))
    else
      var p :- ShiftedPaletteCoordinates(paletteJson.value, ordinal);
      Success(Some(p))
  }

  /** The unique type, which only the first material of a series of colours (ordinal 0) gets. */
  function StructuralUniqueType(uniqueTypeStr: Option<string>, ordinal: uint32): (r: Result<Option<MaterialUniqueType>, Error>)
    ensures r.Success? && r.value.Some? <==> uniqueTypeStr.Some? && ordinal == 0 && StrToMaterialUniqueType(uniqueTypeStr.value).Success?
    ensures r.Success? && r.value.Some? ==> CaseInsensitiveEquals(uniqueTypeStr.value, MaterialUniqueTypeName(r.value.value))
    ensures r.Failure? <==> uniqueTypeStr.Some? && ordinal == 0 && StrToMaterialUniqueType(uniqueTypeStr.value).Failure?
  {
    if uniqueTypeStr.Some? && ordinal == 0 then
      var t :- StrToMaterialUniqueType(uniqueTypeStr.value);
      Success(Some(t))
    else
      Success(None)
  }

  /** An optional sound type, parsed when present. */
  function StructuralSound(soundStr: Option<string>): (r: Result<Option<MaterialSoundType>, Error>)
    ensures soundStr.None? ==> r == Success(None)
    ensures soundStr.Some? ==>
      match StrToMaterialSoundType(soundStr.value)
      case Success(t) => r == Success(Some(t))
      case Failure(e) => r == Failure(e)
  {
    if soundStr.None? then Success(None)
    else
      var t :- StrToMaterialSoundType(soundStr.value);
      Success(Some(t))
  }

  /** The members the source reads first: strength, mass and stiffness. */
  datatype MechanicalProperties = MechanicalProperties(
    strength: real, nominalMass: real, density: real, buoyancyVolumeFill: real,
    stiffness: real, strainThresholdFraction: real)

  function StructuralMechanics(json: JsonObject): (r: Result<MechanicalProperties, Error>)
    ensures r.Success? ==>
      r.value.stiffness == NumberOr(json, "stiffness", 1.0)
      && r.value.strainThresholdFraction == NumberOr(json, "strain_threshold_fraction", 0.5)
      && r.value.strength == NumberOr(json, "strength", 0.0)
      && "mass" in json && json["mass"].JObject?
      && r.value.nominalMass == NumberOr(json["mass"].members, "nominal_mass", 0.0)
      && r.value.density == NumberOr(json["mass"].members, "density", 0.0)
  {
    var strength :- GetMandatoryNumber(json, "strength");
    var massJson :- GetMandatoryObject(json, "mass");
    var nominalMass :- GetMandatoryNumber(massJson, "nominal_mass");
    var density :- GetMandatoryNumber(massJson, "density");
    var buoyancyVolumeFill :- GetMandatoryNumber(json, "buoyancy_volume_fill");
    var stiffness :- GetOptionalNumber(json, "stiffness", 1.0);
    var strainThresholdFraction :- GetOptionalNumber(json, "strain_threshold_fraction", 0.5);
    Success(MechanicalProperties(strength, nominalMass, density, buoyancyVolumeFill, stiffness, strainThresholdFraction))
  }

  /** The unique type, the sound, the texture and the opacity. */
  datatype KindProperties = KindProperties(
    uniqueType: Option<MaterialUniqueType>, materialSound: Option<MaterialSoundType>,
    materialTextureName: Option<string>, opacity: real)

  function StructuralKind(json: JsonObject, ordinal: uint32): (r: Result<KindProperties, Error>)
    ensures r.Success? ==>
      (r.value.uniqueType.Some? <==> ordinal == 0 && "unique_type" in json)
      && (r.value.uniqueType.Some? ==>
            CaseInsensitiveEquals(StringOr(json, "unique_type", ""), MaterialUniqueTypeName(r.value.uniqueType.value)))
      && (r.value.materialSound.Some? <==> "sound_type" in json)
      && (r.value.materialSound.Some? ==>
            CaseInsensitiveEquals(StringOr(json, "sound_type", ""), MaterialSoundTypeName(r.value.materialSound.value)))
      && (r.value.materialTextureName.Some? <==> "texture_name" in json)
      && r.value.opacity == NumberOr(json, "opacity", 1.0)
  {
    var uniqueTypeStr :- GetOptionalString(json, "unique_type");
    var uniqueType :- StructuralUniqueType(uniqueTypeStr, ordinal);
    var soundStr :- GetOptionalString(json, "sound_type");
    var materialSound :- StructuralSound(soundStr);
    var materialTextureName :- GetOptionalString(json, "texture_name");
    var opacity :- GetOptionalNumber(json, "opacity", 1.0);
    Success(KindProperties(uniqueType, materialSound, materialTextureName, opacity))
  }

  datatype WaterProperties = WaterProperties(
    isHull: bool, waterIntake: real, waterDiffusionSpeed: real, waterRetention: real, rustReceptivity: real)

  function StructuralWater(json: JsonObject): (r: Result<WaterProperties, Error>)
    ensures r.Success? ==>
      r.value.waterIntake == NumberOr(json, "water_intake", 1.0)
      && r.value.rustReceptivity == NumberOr(json, "rust_receptivity", 1.0)
      && r.value.isHull == BoolOr(json, "is_hull", false)
  {
    var isHull :- GetMandatoryBool(json, "is_hull");
    var waterIntake :- GetOptionalNumber(json, "water_intake", 1.0);
    var waterDiffusionSpeed :- GetMandatoryNumber(json, "water_diffusion_speed");
    var waterRetention :- GetMandatoryNumber(json, "water_retention");
    var rustReceptivity :- GetOptionalNumber(json, "rust_receptivity", 1.0);
    Success(WaterProperties(isHull, waterIntake, waterDiffusionSpeed, waterRetention, rustReceptivity))
  }

  datatype HeatProperties = HeatProperties(
    ignitionTemperature: real, meltingTemperature: real, thermalConductivity: real,
    thermalExpansionCoefficient: real, specificHeat: real, combustionType: MaterialCombustionType,
    explosiveCombustionRadius: real, explosiveCombustionStrength: real)

  function StructuralHeat(json: JsonObject): (r: Result<HeatProperties, Error>)
    ensures r.Success? ==>
      r.value.thermalExpansionCoefficient == NumberOr(json, "thermal_expansion_coefficient", 0.0)
      && r.value.explosiveCombustionRadius == NumberOr(json, "explosive_combustion_radius", 0.0)
      && r.value.explosiveCombustionStrength == NumberOr(json, "explosive_combustion_strength", 1.0)
      && r.value.specificHeat == NumberOr(json, "specific_heat", 0.0)
      && CaseInsensitiveEquals(StringOr(json, "combustion_type", ""), MaterialCombustionTypeName(r.value.combustionType))
  {
    var ignitionTemperature :- GetMandatoryNumber(json, "ignition_temperature");
    var meltingTemperature :- GetMandatoryNumber(json, "melting_temperature");
    var thermalConductivity :- GetMandatoryNumber(json, "thermal_conductivity");
    var thermalExpansionCoefficient :- GetOptionalNumber(json, "thermal_expansion_coefficient", 0.0);
    var specificHeat :- GetMandatoryNumber(json, "specific_heat");
    var combustionTypeStr :- GetMandatoryString(json, "combustion_type");
    var combustionType :- StrToMaterialCombustionType(combustionTypeStr);
    var explosiveCombustionRadius :- GetOptionalNumber(json, "explosive_combustion_radius", 0.0);
    var explosiveCombustionStrength :- GetOptionalNumber(json, "explosive_combustion_strength", 1.0);
    Success(HeatProperties(
      ignitionTemperature, meltingTemperature, thermalConductivity, thermalExpansionCoefficient,
      specificHeat, combustionType, explosiveCombustionRadius, explosiveCombustionStrength))
  }

  datatype MiscProperties = MiscProperties(windReceptivity: real, waterReactivity: real, isLegacyElectrical: bool)

  function StructuralMisc(json: JsonObject): (r: Result<MiscProperties, Error>)
    ensures r.Success? ==>
      r.value.waterReactivity == NumberOr(json, "water_reactivity", 0.0)
      && r.value.isLegacyElectrical == BoolOr(json, "is_legacy_electrical", false)
  {
    var windReceptivity :- GetMandatoryNumber(json, "wind_receptivity");
    var waterReactivity :- GetOptionalNumber(json, "water_reactivity", 0.0);
    var isLegacyElectrical :- GetOptionalBool(json, "is_legacy_electrical", false);
    Success(MiscProperties(windReceptivity, waterReactivity, isLegacyElectrical))
  }

  /** The body of the try block of StructuralMaterial::Create: the members in the source's
      order, then the palette coordinates. */
  function ParseStructuralMaterial(colorKey: RgbColor, ordinal: uint32, baseRenderColor: RgbColor, json: JsonObject, name: string)
    : Result<StructuralMaterial, Error>
  {
    var mech :- StructuralMechanics(json);
    var kind :- StructuralKind(json, ordinal);
    var water :- StructuralWater(json);
    var heat :- StructuralHeat(json);
    var misc :- StructuralMisc(json);
    var paletteJson :- GetOptionalObject(json, "palette_coordinates");
    var paletteCoordinates :- StructuralPalette(name, ordinal, misc.isLegacyElectrical, paletteJson);
    Success(AssembleStructural(colorKey, name, baseRenderColor, mech, kind, water, heat, misc, paletteCoordinates))
  }

  /** The material the constructor call at the end of the try block builds from the members. */
  function AssembleStructural(
    colorKey: RgbColor, name: string, baseRenderColor: RgbColor, mech: MechanicalProperties, kind: KindProperties,
    water: WaterProperties, heat: HeatProperties, misc: MiscProperties, paletteCoordinates: Option<PaletteCoordinates>)
    : StructuralMaterial
  {
    StructuralMaterial(
      colorKey, name, WithAlpha(baseRenderColor, OpacityToAlpha(kind.opacity)),
      mech.strength, mech.nominalMass, mech.density, mech.buoyancyVolumeFill, mech.stiffness,
      mech.strainThresholdFraction,
      kind.uniqueType, kind.materialSound, kind.materialTextureName, kind.opacity,
      water.isHull, water.waterIntake, water.waterDiffusionSpeed, water.waterRetention, water.rustReceptivity,
      heat.ignitionTemperature, heat.meltingTemperature, heat.thermalConductivity,
      heat.thermalExpansionCoefficient, heat.specificHeat, heat.combustionType,
      heat.explosiveCombustionRadius, heat.explosiveCombustionStrength,
      misc.windReceptivity, misc.waterReactivity, misc.isLegacyElectrical,
      paletteCoordinates)
  }

  /** A successful parse is the assembly of the successful groups. */
  lemma ParseStructuralParts(colorKey: RgbColor, ordinal: uint32, baseRenderColor: RgbColor, json: JsonObject, name: string)
    requires ParseStructuralMaterial(colorKey, ordinal, baseRenderColor, json, name).Success?
    ensures StructuralMechanics(json).Success? && StructuralKind(json, ordinal).Success?
    ensures StructuralWater(json).Success? && StructuralHeat(json).Success? && StructuralMisc(json).Success?
    ensures GetOptionalObject(json, "palette_coordinates").Success?
    ensures var pal := StructuralPalette(name, ordinal, StructuralMisc(json).value.isLegacyElectrical,
                                          GetOptionalObject(json, "palette_coordinates").value);
      pal.Success?
      && ParseStructuralMaterial(colorKey, ordinal, baseRenderColor, json, name).value ==
           AssembleStructural(colorKey, name, baseRenderColor, StructuralMechanics(json).value,
             StructuralKind(json, ordinal).value, StructuralWater(json).value, StructuralHeat(json).value,
             StructuralMisc(json).value, pal.value)
  {
  }

  /** The context the catch block of StructuralMaterial::Create puts before the inner message. */
  function StructuralErrorContext(name: string): string {
    "Error parsing structural material \"" + name + "\": "
  }

  /** StructuralMaterial::Create: the name is read first, outside the try block; every later
      error is rethrown with the material's name. */
  function CreateStructuralMaterial(colorKey: RgbColor, ordinal: uint32, baseRenderColor: RgbColor, json: JsonObject)
    : Result<StructuralMaterial, Error>
  {
    var name :- GetMandatoryString(json, "name");
    match ParseStructuralMaterial(colorKey, ordinal, baseRenderColor, json, name)
    case Success(m) => Success(m)
    case Failure(e) => Failure(Rethrown(StructuralErrorContext(name), e))
  }

  /** A missing or mistyped name is reported as it is; any other error carries the name. */
  lemma CreateStructuralErrors(colorKey: RgbColor, ordinal: uint32, baseRenderColor: RgbColor, json: JsonObject)
    ensures var r := CreateStructuralMaterial(colorKey, ordinal, baseRenderColor, json);
      var n := GetMandatoryString(json, "name");
      (n.Failure? ==> r == Failure(n.error))
      && (n.Success? ==> match ParseStructuralMaterial(colorKey, ordinal, baseRenderColor, json, n.value)
            case Success(m) => r == Success(m)
            case Failure(e) => r == Failure(Rethrown(StructuralErrorContext(n.value), e)))
  {
  }

  /** A created material keeps its key and name, takes its render colour from the base colour
      with the opacity as alpha, and the optional members take their defaults when absent:
      stiffness 1, strain threshold 0.5, opacity 1, water intake 1, rust receptivity 1, thermal
      expansion 0, explosive radius 0 and strength 1, water reactivity 0, not legacy electrical. */
  lemma StructuralDefaults(colorKey: RgbColor, ordinal: uint32, baseRenderColor: RgbColor, json: JsonObject, name: string)
    requires ParseStructuralMaterial(colorKey, ordinal, baseRenderColor, json, name).Success?
    ensures var m := ParseStructuralMaterial(colorKey, ordinal, baseRenderColor, json, name).value;
      m.colorKey == colorKey && m.name == name
      && m.renderColor == WithAlpha(baseRenderColor, OpacityToAlpha(m.opacity))
      && m.stiffness == NumberOr(json, "stiffness", 1.0)
      && m.strainThresholdFraction == NumberOr(json, "strain_threshold_fraction", 0.5)
      && m.opacity == NumberOr(json, "opacity", 1.0)
      && m.waterIntake == NumberOr(json, "water_intake", 1.0)
      && m.rustReceptivity == NumberOr(json, "rust_receptivity", 1.0)
      && m.thermalExpansionCoefficient == NumberOr(json, "thermal_expansion_coefficient", 0.0)
      && m.explosiveCombustionRadius == NumberOr(json, "explosive_combustion_radius", 0.0)
      && m.explosiveCombustionStrength == NumberOr(json, "explosive_combustion_strength", 1.0)
      && m.waterReactivity == NumberOr(json, "water_reactivity", 0.0)
      && m.isLegacyElectrical == BoolOr(json, "is_legacy_electrical", false)
  {
    ParseStructuralParts(colorKey, ordinal, baseRenderColor, json, name);
  }

  /** Only the first material of a series (ordinal 0) with a unique_type member gets a unique
      type, and it is the one named there. */
  lemma StructuralUniqueTypeOnlyFirst(colorKey: RgbColor, ordinal: uint32, baseRenderColor: RgbColor, json: JsonObject, name: string)
    requires ParseStructuralMaterial(colorKey, ordinal, baseRenderColor, json, name).Success?
    ensures var m := ParseStructuralMaterial(colorKey, ordinal, baseRenderColor, json, name).value;
      (m.uniqueType.Some? <==> ordinal == 0 && "unique_type" in json)
      && (m.uniqueType.Some? ==> CaseInsensitiveEquals(StringOr(json, "unique_type", ""), MaterialUniqueTypeName(m.uniqueType.value)))
      && (ordinal != 0 ==> forall t :: !m.IsUniqueType(t))
  {
    ParseStructuralParts(colorKey, ordinal, baseRenderColor, json, name);
  }

  /** A created material has palette coordinates exactly when it is not legacy electrical,
      and then they are the ones of its definition shifted by its ordinal. */
  lemma StructuralPaletteRule(colorKey: RgbColor, ordinal: uint32, baseRenderColor: RgbColor, json: JsonObject, name: string)
    requires ParseStructuralMaterial(colorKey, ordinal, baseRenderColor, json, name).Success?
    ensures var m := ParseStructuralMaterial(colorKey, ordinal, baseRenderColor, json, name).value;
      (m.paletteCoordinates.Some? <==> !m.isLegacyElectrical)
      && (m.paletteCoordinates.Some? ==>
            "palette_coordinates" in json && json["palette_coordinates"].JObject?
            && ShiftedPaletteCoordinates(json["palette_coordinates"].members, ordinal) == Success(m.paletteCoordinates.value))
  {
    ParseStructuralParts(colorKey, ordinal, baseRenderColor, json, name);
  }

  /** A non-legacy-electrical material whose other members are all valid but which has no
      palette_coordinates member is rejected, with the material's name in the message. */
  lemma StructuralMissingPalette(colorKey: RgbColor, ordinal: uint32, baseRenderColor: RgbColor, json: JsonObject, name: string)
    requires StructuralMechanics(json).Success? && StructuralKind(json, ordinal).Success?
    requires StructuralWater(json).Success? && StructuralHeat(json).Success? && StructuralMisc(json).Success?
    requires !StructuralMisc(json).value.isLegacyElectrical && "palette_coordinates" !in json
    ensures ParseStructuralMaterial(colorKey, ordinal, baseRenderColor, json, name) ==
      Failure(GameException(MissingPaletteMessage(name)))
  {
  }

  // ---- Electrical materials ----

  datatype ElectricalMaterial = ElectricalMaterial(
    colorKey: RgbColor,
    name: string,
    renderColor: RgbColor,
    electricalType: ElectricalElementType,
    isSelfPowered: bool,
    conductsElectricity: bool,
    luminiscence: real,
    lightColor: Vec4,
    lightSpread: real,
    wetFailureRate: real,
    heatGenerated: real,
    minimumOperatingTemperature: real,
    maximumOperatingTemperature: real,
    particleEmissionRate: real,
    isInstanced: bool,
    engineType: EngineElementType,
    engineCCWDirection: real,
    enginePower: real,
    engineResponsiveness: real,
    interactiveSwitchType: InteractiveSwitchElementType,
    shipSoundType: ShipSoundElementType,
    waterPumpNominalForce: real,
    paletteCoordinates: Option<PaletteCoordinates>)

  /** The test constructor: a conducting cable, instanced as asked, without palette
      coordinates. */
  function ElectricalMaterialForTests(colorKey: RgbColor, name: string, renderColor: RgbColor, isInstanced: bool)
    : (m: ElectricalMaterial)
    ensures m.colorKey == colorKey && m.name == name && m.renderColor == renderColor
    ensures m.electricalType == ElectricalElementType.Cable && m.conductsElectricity && !m.isSelfPowered
    ensures m.isInstanced == isInstanced && m.paletteCoordinates.None?
  {
    ElectricalMaterial(
      colorKey, name, renderColor,
      ElectricalElementType.Cable, false, true,
      1.0, Vec4Zero, 1.0, 0.0,
      0.0, 0.0, 1000.0,
      1.0,
      isInstanced,
      EngineElementType.Diesel, 1.0, 1.0, 1.0,
      InteractiveSwitchElementType.Push,
      ShipSoundElementType.Bell1,
      0.0,
      None)
  }

  /** The message of an electrical parameter out of its range. */
  function ParameterErrorMessage(name: string, parameter: string, requirement: string): string {
    "Error loading electrical material \"" + name + "\": the value of the \"" + parameter + "\" parameter " + requirement
  }

  const GreaterOrEqualZero: string := "must be greater than or equal 0.0"

  /** The light of a lamp. */
  datatype LampProperties = LampProperties(luminiscence: real, lightColor: Vec4, lightSpread: real, wetFailureRate: real)

  /** The range checks of a lamp, in the source's order. */
  function LampRangeError(name: string, luminiscence: real, lightSpread: real, wetFailureRate: real): (e: Option<Error>)
    ensures e.None? <==> 0.0 <= luminiscence <= 1.0 && lightSpread >= 0.0 && wetFailureRate >= 0.0
    ensures luminiscence < 0.0 ==> e == Some(GameException(ParameterErrorMessage(name, "luminiscence", GreaterOrEqualZero)))
    ensures 0.0 <= luminiscence && 1.0 < luminiscence ==>
      e == Some(GameException(ParameterErrorMessage(name, "luminiscence", "must be less than or equal 1.0")))
    ensures 0.0 <= luminiscence <= 1.0 && lightSpread < 0.0 ==>
      e == Some(GameException(ParameterErrorMessage(name, "light_spread", GreaterOrEqualZero)))
    ensures 0.0 <= luminiscence <= 1.0 && lightSpread >= 0.0 && wetFailureRate < 0.0 ==>
      e == Some(GameException(ParameterErrorMessage(name, "wet_failure_rate", GreaterOrEqualZero)))
  {
    if luminiscence < 0.0 then Some(GameException(ParameterErrorMessage(name, "luminiscence", GreaterOrEqualZero)))
    else if luminiscence > 1.0 then Some(GameException(ParameterErrorMessage(name, "luminiscence", "must be less than or equal 1.0")))
    else if lightSpread < 0.0 then Some(GameException(ParameterErrorMessage(name, "light_spread", GreaterOrEqualZero)))
    else if wetFailureRate < 0.0 then Some(GameException(ParameterErrorMessage(name, "wet_failure_rate", GreaterOrEqualZero)))
    else None
  }

  /** Whether a lamp's members are all there with the right types and its colour parses. */
  predicate LampMembersValid(json: JsonObject, hex2Rgb: string -> Result<RgbColor, Error>) {
    GetMandatoryNumber(json, "luminiscence").Success? && GetMandatoryString(json, "light_color").Success?
    && hex2Rgb(StringOr(json, "light_color", "")).Success?
    && GetMandatoryNumber(json, "light_spread").Success? && GetMandatoryNumber(json, "wet_failure_rate").Success?
  }

  /** The lamp block: a lamp reads and validates its light, every other element gets no
      light. Utils::Hex2RgbColor is not part of this model and is the parameter `hex2Rgb`. */
  function LampBlock(name: string, json: JsonObject, isLamp: bool, hex2Rgb: string -> Result<RgbColor, Error>)
    : (r: Result<LampProperties, Error>)
    ensures !isLamp ==> r == Success(LampProperties(0.0, Vec4Zero, 0.0, 0.0))
    ensures isLamp && r.Success? ==>
      LampMembersValid(json, hex2Rgb)
      && 0.0 <= r.value.luminiscence <= 1.0 && r.value.lightSpread >= 0.0 && r.value.wetFailureRate >= 0.0
      && r.value.luminiscence == NumberOr(json, "luminiscence", 0.0)
      && r.value.lightSpread == NumberOr(json, "light_spread", 0.0)
      && r.value.wetFailureRate == NumberOr(json, "wet_failure_rate", 0.0)
      && r.value.lightColor == ToVec4(hex2Rgb(StringOr(json, "light_color", "")).value, 1.0)
    ensures isLamp && LampMembersValid(json, hex2Rgb) && r.Failure? ==>
      Some(r.error) == LampRangeError(name, NumberOr(json, "luminiscence", 0.0),
        NumberOr(json, "light_spread", 0.0), NumberOr(json, "wet_failure_rate", 0.0))
  {
    if !isLamp then Success(LampProperties(0.0, Vec4Zero, 0.0, 0.0))
    else
      var luminiscence :- GetMandatoryNumber(json, "luminiscence");
      var lightColorStr :- GetMandatoryString(json, "light_color");
      var lightColor :- hex2Rgb(lightColorStr);
      var lightSpread :- GetMandatoryNumber(json, "light_spread");
      var wetFailureRate :- GetMandatoryNumber(json, "wet_failure_rate");
      match LampRangeError(name, luminiscence, lightSpread, wetFailureRate)
      case Some(e) => Failure(e)
      case None => Success(LampProperties(luminiscence, ToVec4(lightColor, 1.0), lightSpread, wetFailureRate))
  }

  /** The heat ratings every electrical element has. */
  datatype HeatRatings = HeatRatings(heatGenerated: real, minimumOperatingTemperature: real, maximumOperatingTemperature: real)

  function ElectricalHeat(json: JsonObject): (r: Result<HeatRatings, Error>)
    ensures r.Success? <==>
      GetMandatoryNumber(json, "heat_generated").Success?
      && GetMandatoryNumber(json, "minimum_operating_temperature").Success?
      && GetMandatoryNumber(json, "maximum_operating_temperature").Success?
    ensures r.Success? ==>
      r.value.heatGenerated == NumberOr(json, "heat_generated", 0.0)
      && r.value.minimumOperatingTemperature == NumberOr(json, "minimum_operating_temperature", 0.0)
      && r.value.maximumOperatingTemperature == NumberOr(json, "maximum_operating_temperature", 0.0)
  {
    var heatGenerated :- GetMandatoryNumber(json, "heat_generated");
    var minimumOperatingTemperature :- GetMandatoryNumber(json, "minimum_operating_temperature");
    var maximumOperatingTemperature :- GetMandatoryNumber(json, "maximum_operating_temperature");
    Success(HeatRatings(heatGenerated, minimumOperatingTemperature, maximumOperatingTemperature))
  }

  /** The particle block: a smoke emitter reads a non-negative emission rate, every other
      element gets zero. */
  function SmokeBlock(name: string, json: JsonObject, isSmokeEmitter: bool): (r: Result<real, Error>)
    ensures !isSmokeEmitter ==> r == Success(0.0)
    ensures isSmokeEmitter ==> match GetMandatoryNumber(json, "particle_emission_rate")
      case Failure(e) => r == Failure(e)
      case Success(rate) =>
        (rate >= 0.0 ==> r == Success(rate))
        && (rate < 0.0 ==> r == Failure(GameException(ParameterErrorMessage(name, "particle_emission_rate", GreaterOrEqualZero))))
  {
    if !isSmokeEmitter then Success(0.0)
    else
      var rate :- GetMandatoryNumber(json, "particle_emission_rate");
      if rate < 0.0 then Failure(GameException(ParameterErrorMessage(name, "particle_emission_rate", GreaterOrEqualZero)))
      else Success(rate)
  }

  /** The properties of an engine. */
  datatype EngineProperties = EngineProperties(engineType: EngineElementType, direction: real, power: real, responsiveness: real)

  /** The message of an engine responsiveness out of (0, 1]. */
  function ResponsivenessMessage(name: string): string {
    ParameterErrorMessage(name, "engine_responsiveness", "must be greater than 0.0 and lower than or equal 1.0")
  }

  /** Whether an engine's members are all there with the right types and its type parses. */
  predicate EngineMembersValid(json: JsonObject) {
    GetMandatoryString(json, "engine_type").Success?
    && StrToEngineElementType(StringOr(json, "engine_type", "")).Success?
    && GetMandatoryNumber(json, "engine_direction").Success? && GetMandatoryNumber(json, "engine_power").Success?
    && GetMandatoryNumber(json, "engine_responsiveness").Success?
  }

  /** The engine block: an engine reads its type, direction, power and a responsiveness in
      (0, 1]; every other element gets a steam engine with no direction or power and a
      responsiveness of 1. */
  function EngineBlock(name: string, json: JsonObject, isEngine: bool): (r: Result<EngineProperties, Error>)
    ensures !isEngine ==> r == Success(EngineProperties(EngineElementType.Steam, 0.0, 0.0, 1.0))
    ensures isEngine && r.Success? ==>
      EngineMembersValid(json)
      && CaseInsensitiveEquals(StringOr(json, "engine_type", ""), EngineElementTypeName(r.value.engineType))
      && r.value.direction == NumberOr(json, "engine_direction", 0.0)
      && r.value.power == NumberOr(json, "engine_power", 0.0)
      && r.value.responsiveness == NumberOr(json, "engine_responsiveness", 0.0)
      && 0.0 < r.value.responsiveness <= 1.0
    ensures isEngine && EngineMembersValid(json) ==>
      var resp := NumberOr(json, "engine_responsiveness", 0.0);
      (r.Success? <==> 0.0 < resp <= 1.0)
      && (r.Failure? ==> r.error == GameException(ResponsivenessMessage(name)))
  {
    if !isEngine then Success(EngineProperties(EngineElementType.Steam, 0.0, 0.0, 1.0))
    else
      var engineTypeStr :- GetMandatoryString(json, "engine_type");
      var engineType :- StrToEngineElementType(engineTypeStr);
      var direction :- GetMandatoryNumber(json, "engine_direction");
      var power :- GetMandatoryNumber(json, "engine_power");
      var responsiveness :- GetMandatoryNumber(json, "engine_responsiveness");
      if responsiveness <= 0.0 || responsiveness > 1.0 then Failure(GameException(ResponsivenessMessage(name)))
      else Success(EngineProperties(engineType, direction, power, responsiveness))
  }

  /** A typed member that only one kind of element reads, parsed with `parse`; the other kinds
      get `default`. */
  function TypedMember<T>(json: JsonObject, member: string, applies: bool, parse: string -> Result<T, Error>, default: T)
    : (r: Result<T, Error>)
    ensures !applies ==> r == Success(default)
    ensures applies && GetMandatoryString(json, member).Success? ==> r == parse(StringOr(json, member, ""))
    ensures applies && GetMandatoryString(json, member).Failure? ==> r == Failure(GetMandatoryString(json, member).error)
  {
    if !applies then Success(default)
    else
      var str :- GetMandatoryString(json, member);
      parse(str)
  }

  /** The palette step of ElectricalMaterial::Create: coordinates when present, shifted by the
      material's ordinal. */
  function ElectricalPalette(ordinal: uint32, paletteJson: Option<JsonObject>): (r: Result<Option<PaletteCoordinates>, Error>)
    ensures paletteJson.None? ==> r == Success(None)
    ensures paletteJson.Some? ==>
      match ShiftedPaletteCoordinates(paletteJson.value, ordinal)
      case Success(p) => r == Success(Some(p))
      case Failure(e) => r == Failure(e)
  {
    if paletteJson.None? then Success(None)
    else
      var p :- ShiftedPaletteCoordinates(paletteJson.value, ordinal);
      Success(Some(p))
  }

  /** The members every electrical element has first: its type and two flags. */
  datatype ElectricalIdentity = ElectricalIdentity(electricalType: ElectricalElementType, isSelfPowered: bool, conductsElectricity: bool)

  function ElectricalIdentityOf(json: JsonObject): (r: Result<ElectricalIdentity, Error>)
    ensures r.Success? ==>
      CaseInsensitiveEquals(StringOr(json, "electrical_type", ""), ElectricalElementTypeName(r.value.electricalType))
      && r.value.isSelfPowered == BoolOr(json, "is_self_powered", false)
      && r.value.conductsElectricity == BoolOr(json, "conducts_electricity", false)
  {
    var electricalTypeStr :- GetMandatoryString(json, "electrical_type");
    var electricalType :- StrToElectricalElementType(electricalTypeStr);
    var isSelfPowered :- GetOptionalBool(json, "is_self_powered", false);
    var conductsElectricity :- GetMandatoryBool(json, "conducts_electricity");
    Success(ElectricalIdentity(electricalType, isSelfPowered, conductsElectricity))
  }

  /** The members of switches, ship sounds and water pumps. */
  datatype KindMembers = KindMembers(
    interactiveSwitchType: InteractiveSwitchElementType, shipSoundType: ShipSoundElementType, waterPumpNominalForce: real)

  function ElectricalKindMembers(json: JsonObject, electricalType: ElectricalElementType): (r: Result<KindMembers, Error>)
    ensures r.Success? && electricalType != ElectricalElementType.InteractiveSwitch ==>
      r.value.interactiveSwitchType == InteractiveSwitchElementType.Push
    ensures r.Success? && electricalType == ElectricalElementType.InteractiveSwitch ==>
      CaseInsensitiveEquals(StringOr(json, "interactive_switch_type", ""), InteractiveSwitchElementTypeName(r.value.interactiveSwitchType))
    ensures r.Success? && electricalType != ElectricalElementType.ShipSound ==> r.value.shipSoundType == ShipSoundElementType.Bell1
    ensures r.Success? && electricalType == ElectricalElementType.ShipSound ==>
      CaseInsensitiveEquals(StringOr(json, "ship_sound_type", ""), ShipSoundElementTypeName(r.value.shipSoundType))
    ensures r.Success? ==>
      r.value.waterPumpNominalForce ==
        if electricalType == ElectricalElementType.WaterPump then NumberOr(json, "water_pump_nominal_force", 0.0) else 0.0
  {
    var interactiveSwitchType :- TypedMember(json, "interactive_switch_type",
      electricalType == ElectricalElementType.InteractiveSwitch, StrToInteractiveSwitchElementType,
      InteractiveSwitchElementType.Push);
    var shipSoundType :- TypedMember(json, "ship_sound_type",
      electricalType == ElectricalElementType.ShipSound, StrToShipSoundElementType, ShipSoundElementType.Bell1);
    var waterPumpNominalForce :-
      if electricalType == ElectricalElementType.WaterPump then GetMandatoryNumber(json, "water_pump_nominal_force")
      else Success(0.0);
    Success(KindMembers(interactiveSwitchType, shipSoundType, waterPumpNominalForce))
  }

  /** The body of the try block of ElectricalMaterial::Create, in the source's order. */
  function ParseElectricalMaterial(
    colorKey: RgbColor, ordinal: uint32, renderColor: RgbColor, json: JsonObject, name: string,
    hex2Rgb: string -> Result<RgbColor, Error>)
    : Result<ElectricalMaterial, Error>
  {
    var id :- ElectricalIdentityOf(json);
    var lamp :- LampBlock(name, json, id.electricalType == ElectricalElementType.Lamp, hex2Rgb);
    var heat :- ElectricalHeat(json);
    var particleEmissionRate :- SmokeBlock(name, json, id.electricalType == ElectricalElementType.SmokeEmitter);
    var isInstanced :- GetOptionalBool(json, "is_instanced", false);
    var engine :- EngineBlock(name, json, id.electricalType == ElectricalElementType.Engine);
    var kinds :- ElectricalKindMembers(json, id.electricalType);
    var paletteJson :- GetOptionalObject(json, "palette_coordinates");
    var paletteCoordinates :- ElectricalPalette(ordinal, paletteJson);
    Success(AssembleElectrical(colorKey, name, renderColor, id, lamp, heat, particleEmissionRate, isInstanced,
      engine, kinds, paletteCoordinates))
  }

  /** The material the constructor call at the end of the try block builds from the members. */
  function AssembleElectrical(
    colorKey: RgbColor, name: string, renderColor: RgbColor, id: ElectricalIdentity, lamp: LampProperties,
    heat: HeatRatings, particleEmissionRate: real, isInstanced: bool, engine: EngineProperties, kinds: KindMembers,
    paletteCoordinates: Option<PaletteCoordinates>)
    : ElectricalMaterial
  {
    ElectricalMaterial(
      colorKey, name, renderColor, id.electricalType, id.isSelfPowered, id.conductsElectricity,
      lamp.luminiscence, lamp.lightColor, lamp.lightSpread, lamp.wetFailureRate,
      heat.heatGenerated, heat.minimumOperatingTemperature, heat.maximumOperatingTemperature,
      particleEmissionRate, isInstanced,
      engine.engineType, engine.direction, engine.power, engine.responsiveness,
      kinds.interactiveSwitchType, kinds.shipSoundType, kinds.waterPumpNominalForce,
      paletteCoordinates)
  }

  /** A successful parse is the assembly of the successful groups. */
  lemma ParseElectricalParts(
    colorKey: RgbColor, ordinal: uint32, renderColor: RgbColor, json: JsonObject, name: string,
    hex2Rgb: string -> Result<RgbColor, Error>)
    requires ParseElectricalMaterial(colorKey, ordinal, renderColor, json, name, hex2Rgb).Success?
    ensures ElectricalIdentityOf(json).Success?
    ensures var t := ElectricalIdentityOf(json).value.electricalType;
      LampBlock(name, json, t == ElectricalElementType.Lamp, hex2Rgb).Success?
      && ElectricalHeat(json).Success?
      && SmokeBlock(name, json, t == ElectricalElementType.SmokeEmitter).Success?
      && GetOptionalBool(json, "is_instanced", false).Success?
      && EngineBlock(name, json, t == ElectricalElementType.Engine).Success?
      && ElectricalKindMembers(json, t).Success?
      && GetOptionalObject(json, "palette_coordinates").Success?
      && ElectricalPalette(ordinal, GetOptionalObject(json, "palette_coordinates").value).Success?
      && ParseElectricalMaterial(colorKey, ordinal, renderColor, json, name, hex2Rgb).value ==
           AssembleElectrical(colorKey, name, renderColor, ElectricalIdentityOf(json).value,
             LampBlock(name, json, t == ElectricalElementType.Lamp, hex2Rgb).value, ElectricalHeat(json).value,
             SmokeBlock(name, json, t == ElectricalElementType.SmokeEmitter).value,
             GetOptionalBool(json, "is_instanced", false).value,
             EngineBlock(name, json, t == ElectricalElementType.Engine).value, ElectricalKindMembers(json, t).value,
             ElectricalPalette(ordinal, GetOptionalObject(json, "palette_coordinates").value).value)
  {
  }

  /** The context the catch block of ElectricalMaterial::Create puts before the inner message. */
  function ElectricalErrorContext(name: string): string {
    "Error parsing electrical material \"" + name + "\": "
  }

  /** ElectricalMaterial::Create: the name is read first, outside the try block; every later
      error is rethrown with the material's name. */
  function CreateElectricalMaterial(
    colorKey: RgbColor, ordinal: uint32, renderColor: RgbColor, json: JsonObject,
    hex2Rgb: string -> Result<RgbColor, Error>)
    : Result<ElectricalMaterial, Error>
  {
    var name :- GetMandatoryString(json, "name");
    match ParseElectricalMaterial(colorKey, ordinal, renderColor, json, name, hex2Rgb)
    case Success(m) => Success(m)
    case Failure(e) => Failure(Rethrown(ElectricalErrorContext(name), e))
  }

  /** A missing or mistyped name is reported as it is; any other error carries the name. */
  lemma CreateElectricalErrors(
    colorKey: RgbColor, ordinal: uint32, renderColor: RgbColor, json: JsonObject,
    hex2Rgb: string -> Result<RgbColor, Error>)
    ensures var r := CreateElectricalMaterial(colorKey, ordinal, renderColor, json, hex2Rgb);
      var n := GetMandatoryString(json, "name");
      (n.Failure? ==> r == Failure(n.error))
      && (n.Success? ==> match ParseElectricalMaterial(colorKey, ordinal, renderColor, json, n.value, hex2Rgb)
            case Success(m) => r == Success(m)
            case Failure(e) => r == Failure(Rethrown(ElectricalErrorContext(n.value), e)))
  {
  }

  /** A created electrical material keeps its key, name and render colour, and satisfies for
      each kind of element: lamps have a luminiscence in [0, 1] and non-negative spread and
      failure rate, smoke emitters a non-negative emission rate, engines a responsiveness in
      (0, 1]; the other kinds get no light, no particles and the default engine, switch,
      sound and pump force. */
  lemma ElectricalTypeInvariants(
    colorKey: RgbColor, ordinal: uint32, renderColor: RgbColor, json: JsonObject, name: string,
    hex2Rgb: string -> Result<RgbColor, Error>)
    requires ParseElectricalMaterial(colorKey, ordinal, renderColor, json, name, hex2Rgb).Success?
    ensures var m := ParseElectricalMaterial(colorKey, ordinal, renderColor, json, name, hex2Rgb).value;
      m.colorKey == colorKey && m.name == name && m.renderColor == renderColor
      && CaseInsensitiveEquals(StringOr(json, "electrical_type", ""), ElectricalElementTypeName(m.electricalType))
      && (m.electricalType == ElectricalElementType.Lamp ==>
            0.0 <= m.luminiscence <= 1.0 && m.lightSpread >= 0.0 && m.wetFailureRate >= 0.0)
      && (m.electricalType != ElectricalElementType.Lamp ==>
            m.luminiscence == 0.0 && m.lightColor == Vec4Zero && m.lightSpread == 0.0 && m.wetFailureRate == 0.0)
      && (m.electricalType == ElectricalElementType.SmokeEmitter ==> m.particleEmissionRate >= 0.0)
      && (m.electricalType != ElectricalElementType.SmokeEmitter ==> m.particleEmissionRate == 0.0)
      && (m.electricalType == ElectricalElementType.Engine ==> 0.0 < m.engineResponsiveness <= 1.0)
      && (m.electricalType != ElectricalElementType.Engine ==>
            m.engineType == EngineElementType.Steam && m.engineCCWDirection == 0.0 && m.enginePower == 0.0
            && m.engineResponsiveness == 1.0)
      && (m.electricalType != ElectricalElementType.InteractiveSwitch ==> m.interactiveSwitchType == InteractiveSwitchElementType.Push)
      && (m.electricalType != ElectricalElementType.ShipSound ==> m.shipSoundType == ShipSoundElementType.Bell1)
      && (m.electricalType != ElectricalElementType.WaterPump ==> m.waterPumpNominalForce == 0.0)
  {
    ParseElectricalParts(colorKey, ordinal, renderColor, json, name, hex2Rgb);
  }

  /** Optional flags default to false; palette coordinates are there exactly when the
      definition has them, shifted by the ordinal. */
  lemma ElectricalDefaultsAndPalette(
    colorKey: RgbColor, ordinal: uint32, renderColor: RgbColor, json: JsonObject, name: string,
    hex2Rgb: string -> Result<RgbColor, Error>)
    requires ParseElectricalMaterial(colorKey, ordinal, renderColor, json, name, hex2Rgb).Success?
    ensures var m := ParseElectricalMaterial(colorKey, ordinal, renderColor, json, name, hex2Rgb).value;
      m.isSelfPowered == BoolOr(json, "is_self_powered", false)
      && m.isInstanced == BoolOr(json, "is_instanced", false)
      && (m.paletteCoordinates.Some? <==> "palette_coordinates" in json)
      && (m.paletteCoordinates.Some? ==>
            json["palette_coordinates"].JObject?
            && ShiftedPaletteCoordinates(json["palette_coordinates"].members, ordinal) == Success(m.paletteCoordinates.value))
  {
    ParseElectricalParts(colorKey, ordinal, renderColor, json, name, hex2Rgb);
  }

  // ---- Instanced element labels ----

  /** The element kinds that can be instanced: every kind but cables, engine transmissions,
      lamps, other sinks and smoke emitters. */
  predicate IsInstanceableType(t: ElectricalElementType) {
    !(t.Cable? || t.EngineTransmission? || t.Lamp? || t.OtherSink? || t.SmokeEmitter?)
  }

  /** What the label of a ship sound says it is. */
  function ShipSoundLabel(t: ShipSoundElementType): string {
    match t
    case Bell1 | Bell2 => "Bell #"
    case QueenMaryHorn | FourFunnelLinerWhistle | TripodHorn | PipeWhistle | LakeFreighterHorn
      | ShieldhallSteamSiren | QueenElizabeth2Horn | SSRexWhistle => "Horn #"
    case Klaxon1 | NuclearAlarm1 | EvacuationAlarm1 | EvacuationAlarm2 => "Alarm #"
  }

  /** The text a label starts with, before the instance index. */
  function InstancedLabelPrefix(m: ElectricalMaterial): string
    requires IsInstanceableType(m.electricalType)
  {
    match m.electricalType
    case Engine => if m.engineType == EngineElementType.Jet then "JetEngine #" else "Engine #"
    case EngineController => "EngineControl #"
    case Generator => "Generator #"
    case InteractiveSwitch => "Switch  #"
    case PowerMonitor => "Monitor #"
    case ShipSound => ShipSoundLabel(m.shipSoundType)
    case WaterPump => "Pump #"
    case WaterSensingSwitch => "WaterSwitch  #"
    case WatertightDoor => "WaterDoor  #"
  }

  /** MakeInstancedElementLabel: the prefix of the element's kind followed by the decimal
      instance index. The source asserts that the material is instanced and of a kind that
      can be. */
  function MakeInstancedElementLabel(m: ElectricalMaterial, instanceIndex: nat): (text: string)
    requires m.isInstanced && IsInstanceableType(m.electricalType)
    ensures var p := InstancedLabelPrefix(m);
      |p| < |text| && text[..|p|] == p && text[|p| - 1] == '#'
      && (forall i :: |p| <= i < |text| ==> IsDigit(text[i]))
      && DecimalValue(text[|p|..]) == instanceIndex
  {
    var p := InstancedLabelPrefix(m);
    var text := p + NatToDecimal(instanceIndex);
    assert text[|p|..] == NatToDecimal(instanceIndex);
    DecimalRoundTrip(instanceIndex);
    text
  }

  /** Different instances of a material get different labels. */
  lemma InstancedLabelsDistinct(m: ElectricalMaterial, i: nat, j: nat)
    requires m.isInstanced && IsInstanceableType(m.electricalType)
    ensures MakeInstancedElementLabel(m, i) == MakeInstancedElementLabel(m, j) <==> i == j
  {
    if MakeInstancedElementLabel(m, i) == MakeInstancedElementLabel(m, j) {
      var p := InstancedLabelPrefix(m);
      SamePrefixCancels(p, NatToDecimal(i), NatToDecimal(j));
      DecimalInjective(i, j);
    }
  }

  /** Engines are labelled jet engines exactly when they are jets; ship sounds are labelled
      bells, horns or alarms by their kind. */
  lemma InstancedLabelKinds(m: ElectricalMaterial, i: nat)
    requires m.isInstanced && IsInstanceableType(m.electricalType)
    ensures var text := MakeInstancedElementLabel(m, i);
      (m.electricalType.Engine? ==>
         (text == "JetEngine #" + NatToDecimal(i) <==> m.engineType.Jet?)
         && (text == "Engine #" + NatToDecimal(i) <==> !m.engineType.Jet?))
      && (m.electricalType.ShipSound? ==>
         (text == "Bell #" + NatToDecimal(i) <==> m.shipSoundType.Bell1? || m.shipSoundType.Bell2?)
         && (text == "Alarm #" + NatToDecimal(i) <==>
              m.shipSoundType.Klaxon1? || m.shipSoundType.NuclearAlarm1? || m.shipSoundType.EvacuationAlarm1?
              || m.shipSoundType.EvacuationAlarm2?))
  {
  }
}
