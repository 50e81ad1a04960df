/** `get_elastic_crosssection` and `get_inelastic_crosssection` of
    lib/cross_sections.py: select the material's curve, then run the shared
    bin search and interpolation, by default over the embedded energy table.
    The lemmas below state what the lookup does on the embedded tables. */
module CrossSections {
  import opened CrossSectionTables
  import opened Materials
  import opened Interpolation

  /** `get_elastic_crosssection(energyrequest, ma_index, energy=energy)`. */
  method GetElasticCrossSection(energyRequest: real, maIndex: int, energy: seq<real> := Energy)
    returns (r: Result<real>)
    ensures r == CrossSection(energy, Properties(Selected(maIndex)).eCross, energyRequest)
  {
    var ec := ElasticCurve(maIndex);
    r := Lookup(energy, ec, energyRequest);
  }

  /** `get_inelastic_crosssection(energyrequest, ma_index, energy=energy)`. */
  method GetInelasticCrossSection(energyRequest: real, maIndex: int, energy: seq<real> := Energy)
    returns (r: Result<real>)
    ensures r == CrossSection(energy, Properties(Selected(maIndex)).iCross, energyRequest)
  {
    var ic := InelasticCurve(maIndex);
    r := Lookup(energy, ic, energyRequest);
  }

  /** The embedded energy grid: 59 strictly increasing points from 0.5 MeV to 2.5 GeV. */
  lemma EmbeddedEnergyTable()
    ensures |Energy| == 59 && WellFormedTable(Energy)
    ensures Energy[0] == 0.0005 && Energy[57] == 2.0 && Energy[58] == 2.5
  {
  }

  /** Every inelastic lookup on the embedded grid yields a value, for every
      selector and every energy. */
  lemma InelasticAlwaysDefined(maIndex: int, e: real)
    ensures CrossSection(Energy, Properties(Selected(maIndex)).iCross, e).Ok?
  {
    EmbeddedEnergyTable();
    DefinedOnIncreasingTable(Energy, Properties(Selected(maIndex)).iCross, e);
  }

  /** Every elastic lookup on the embedded grid yields a value, except copper
      above 2.0 GeV: there the scan selects bin 57 and the interpolation reads
      sample 58 of a curve that has only 58 samples. */
  lemma ElasticDefinedUnlessCopperAbove2GeV(maIndex: int, e: real)
    ensures CrossSection(Energy, Properties(Selected(maIndex)).eCross, e).Ok?
      <==> !(Selected(maIndex) == Copper && 2.0 < e)
    ensures Selected(maIndex) == Copper && 2.0 < e ==>
      CrossSection(Energy, Properties(Selected(maIndex)).eCross, e) == Err(CurveIndexOutOfRange(58))
  {
    EmbeddedEnergyTable();
    DefinedOnIncreasingTable(Energy, Properties(Selected(maIndex)).eCross, e);
    LowIndexDefined(Energy, e);
    if 2.0 < e {
      LowIndexInBin(Energy, e, DefaultLow);
    }
  }

  /** Carbon elastic at 0.006 GeV, a tabulated energy (point 11), gives the
      tabulated 0.395 barn. */
  lemma CarbonElasticAt6MeV()
    ensures CrossSection(Energy, Properties(Selected(0)).eCross, 0.006) == Ok(0.395)
  {
    EmbeddedEnergyTable();
    AtSample(Energy, Properties(Carbon).eCross, 11);
  }

  /** Tantalum inelastic at 0.0525 GeV lies in bin 32 (0.051 .. 0.055 GeV):
      fraction 0.375 between 1.824 and 1.823 barn. */
  lemma TantalumInelasticAt52MeV()
    ensures LowIndex(Energy, 0.0525) == Ok(32)
    ensures CrossSection(Energy, Properties(Selected(4)).iCross, 0.0525) == Ok(1.823625)
  {
    EmbeddedEnergyTable();
    LowIndexInBin(Energy, 0.0525, 32);
  }

  /** Copper elastic at exactly 2.0 GeV still reads inside the short curve
      and gives its last sample, 0.504 barn. */
  lemma CopperElasticAt2GeV()
    ensures CrossSection(Energy, Properties(Selected(3)).eCross, 2.0) == Ok(0.504)
  {
    EmbeddedEnergyTable();
    AtSample(Energy, Properties(Copper).eCross, 57);
  }

  /** Selector 99 is not validated: it falls through to lead, and 3.0 GeV,
      above the grid, is extrapolated from points 57 and 58 (1.840 and 1.845
      barn) to 1.850 barn instead of being clamped. */
  lemma UnknownSelectorExtrapolatesLead()
    ensures Selected(99) == Lead
    ensures CrossSection(Energy, Properties(Selected(99)).iCross, 3.0) == Ok(1.85)
  {
    EmbeddedEnergyTable();
    LowIndexInBin(Energy, 3.0, DefaultLow);
  }

  /** Carbon's elastic curve rises over points 0 .. 29 (up to 0.04 GeV), and
      so does the lookup over those energies. */
  lemma CarbonElasticRisesBelow40MeV(e1: real, e2: real)
    requires 0.0005 <= e1 <= e2 <= 0.04
    ensures CrossSection(Energy, Properties(Selected(0)).eCross, e1).Ok?
    ensures CrossSection(Energy, Properties(Selected(0)).eCross, e2).Ok?
    ensures CrossSection(Energy, Properties(Selected(0)).eCross, e1).value
         <= CrossSection(Energy, Properties(Selected(0)).eCross, e2).value
  {
    EmbeddedEnergyTable();
    assert forall i :: 0 <= i < 29 ==> Z6Elastic[i] <= Z6Elastic[i + 1];
    MonotoneOnRisingSegment(Energy, Z6Elastic, 0, 29, e1, e2);
  }
}
