/** The material registry of lib/cross_sections.py: the `MP` record, the eight
    material constants and the selector accessors `get_z`, `get_a`, `get_rho`,
    `get_radlength`, plus the curve selection that opens the two cross-section
    lookups. Every accessor dispatches on an integer selector: 0 to 6 name
    carbon, aluminum, iron, copper, tantalum, tungsten and platinum, and every
    other integer falls through to lead. */
module Materials {
  import opened CrossSectionTables

  /** The eight materials, in selector order. */
  datatype Material = Carbon | Aluminum | Iron | Copper | Tantalum | Tungsten | Platinum | Lead

  /** The nuclear-radius field R. The source computes `0.94 * pow(radicand, 1/3)`
      in floating point; the model keeps the two operands and no cube root. */
  datatype NuclearRadius = ScaledCubeRoot(scale: real, radicand: real)

  /** One `MP` record: atomic number, atomic weight (amu), density (kg/m^3),
      radiation length (m), nuclear radius, and the elastic and inelastic
      cross-section curves (barn) sampled on the shared energy grid. */
  datatype MaterialProperties = MaterialProperties(
    z: real,
    a: real,
    rho: real,
    radLength: real,
    radius: NuclearRadius,
    eCross: seq<real>,
    iCross: seq<real>)

  /** The materials in selector order: selector k names Registry[k]. */
  const Registry: seq<Material> := [Carbon, Aluminum, Iron, Copper, Tantalum, Tungsten, Platinum, Lead]

  /** The record behind each material constant. The fields are never reassigned. */
  function Properties(m: Material): (p: MaterialProperties)
    ensures p.z > 0.0 && p.a > 0.0 && p.rho > 0.0 && p.radLength > 0.0
    ensures p.radius.scale == 0.94
    // R is computed from the atomic weight, except for copper, whose radius
    // uses 63.55 while its atomic weight is 63.546.
    ensures m != Copper ==> p.radius.radicand == p.a
    ensures m == Copper ==> p.radius.radicand == 63.55 != p.a
    // Every curve has one sample per energy point, except copper's elastic
    // curve, which is one sample short.
    ensures |p.iCross| == 59
    ensures |p.eCross| == if m == Copper then 58 else 59
  {
    match m
    case Carbon =>
      MaterialProperties(6.0, 12.01, 2270.0, 18.8 / 100.0, ScaledCubeRoot(0.94, 12.01), Z6Elastic, Z6Inelastic)
    case Aluminum =>
      MaterialProperties(13.0, 26.92, 2700.0, 8.9 / 100.0, ScaledCubeRoot(0.94, 26.92), Z13Elastic, Z13Inelastic)
    case Iron =>
      MaterialProperties(26.0, 55.85, 7870.0, 1.76 / 100.0, ScaledCubeRoot(0.94, 55.85), Z26Elastic, Z26Inelastic)
    case Copper =>
      MaterialProperties(29.0, 63.546, 8960.0, 1.43 / 100.0, ScaledCubeRoot(0.94, 63.55), Z29Elastic, Z29Inelastic)
    case Tantalum =>
      MaterialProperties(73.0, 180.95, 16600.0, 0.411 / 100.0, ScaledCubeRoot(0.94, 180.95), Z73Elastic, Z73Inelastic)
    case Tungsten =>
      MaterialProperties(74.0, 183.84, 19300.0, 0.35 / 100.0, ScaledCubeRoot(0.94, 183.84), Z74Elastic, Z74Inelastic)
    case Platinum =>
      MaterialProperties(78.0, 195.08, 21450.0, 0.305 / 100.0, ScaledCubeRoot(0.94, 195.08), Z78Elastic, Z78Inelastic)
    case Lead =>
      MaterialProperties(82.0, 207.2, 11350.0, 0.56 / 100.0, ScaledCubeRoot(0.94, 207.2), Z82Elastic, Z82Inelastic)
  }

  /** The material a selector names: the registry entry for 0..7, lead otherwise. */
  function Selected(maIndex: int): (m: Material)
    ensures maIndex == 0 ==> m == Carbon
    ensures maIndex == 1 ==> m == Aluminum
    ensures maIndex == 2 ==> m == Iron
    ensures maIndex == 3 ==> m == Copper
    ensures maIndex == 4 ==> m == Tantalum
    ensures maIndex == 5 ==> m == Tungsten
    ensures maIndex == 6 ==> m == Platinum
    // Lead is reached exactly through the fall-through branch.
    ensures m == Lead <==> !(0 <= maIndex < 7)
  {
    if 0 <= maIndex < |Registry| then Registry[maIndex] else Lead
  }

  /** `get_z`: the atomic number of the selected material. */
  function GetZ(maIndex: int): (z: real)
    ensures z == Properties(Selected(maIndex)).z
  {
    if maIndex == 0 then Properties(Carbon).z
    else if maIndex == 1 then Properties(Aluminum).z
    else if maIndex == 2 then Properties(Iron).z
    else if maIndex == 3 then Properties(Copper).z
    else if maIndex == 4 then Properties(Tantalum).z
    else if maIndex == 5 then Properties(Tungsten).z
    else if maIndex == 6 then Properties(Platinum).z
    else Properties(Lead).z
  }

  /** `get_a`: written with literals in the source rather than with the records'
      fields; each literal is the atomic weight of the material selected. */
  function GetA(maIndex: int): (a: real)
    ensures a == Properties(Selected(maIndex)).a
  {
    if maIndex == 0 then 12.01
    else if maIndex == 1 then 26.92
    else if maIndex == 2 then 55.85
    else if maIndex == 3 then 63.546
    else if maIndex == 4 then 180.95
    else if maIndex == 5 then 183.84
    else if maIndex == 6 then 195.08
    else 207.2
  }

  /** `get_rho`: the density of the selected material. */
  function GetRho(maIndex: int): (rho: real)
    ensures rho == Properties(Selected(maIndex)).rho
  {
    if maIndex == 0 then Properties(Carbon).rho
    else if maIndex == 1 then Properties(Aluminum).rho
    else if maIndex == 2 then Properties(Iron).rho
    else if maIndex == 3 then Properties(Copper).rho
    else if maIndex == 4 then Properties(Tantalum).rho
    else if maIndex == 5 then Properties(Tungsten).rho
    else if maIndex == 6 then Properties(Platinum).rho
    else Properties(Lead).rho
  }

  /** `get_radlength`: the radiation length of the selected material. */
  function GetRadLength(maIndex: int): (radLength: real)
    ensures radLength == Properties(Selected(maIndex)).radLength
  {
    if maIndex == 0 then Properties(Carbon).radLength
    else if maIndex == 1 then Properties(Aluminum).radLength
    else if maIndex == 2 then Properties(Iron).radLength
    else if maIndex == 3 then Properties(Copper).radLength
    else if maIndex == 4 then Properties(Tantalum).radLength
    else if maIndex == 5 then Properties(Tungsten).radLength
    else if maIndex == 6 then Properties(Platinum).radLength
    else Properties(Lead).radLength
  }

  /** The curve `get_elastic_crosssection` picks before its bin search. */
  function ElasticCurve(maIndex: int): (ec: seq<real>)
    ensures ec == Properties(Selected(maIndex)).eCross
  {
    if maIndex == 0 then Properties(Carbon).eCross
    else if maIndex == 1 then Properties(Aluminum).eCross
    else if maIndex == 2 then Properties(Iron).eCross
    else if maIndex == 3 then Properties(Copper).eCross
    else if maIndex == 4 then Properties(Tantalum).eCross
    else if maIndex == 5 then Properties(Tungsten).eCross
    else if maIndex == 6 then Properties(Platinum).eCross
    else Properties(Lead).eCross
  }

  /** The curve `get_inelastic_crosssection` picks before its bin search. */
  function InelasticCurve(maIndex: int): (ic: seq<real>)
    ensures ic == Properties(Selected(maIndex)).iCross
  {
    if maIndex == 0 then Properties(Carbon).iCross
    else if maIndex == 1 then Properties(Aluminum).iCross
    else if maIndex == 2 then Properties(Iron).iCross
    else if maIndex == 3 then Properties(Copper).iCross
    else if maIndex == 4 then Properties(Tantalum).iCross
    else if maIndex == 5 then Properties(Tungsten).iCross
    else if maIndex == 6 then Properties(Platinum).iCross
    else Properties(Lead).iCross
  }
}
