/** The bin search and linear interpolation shared by `get_elastic_crosssection`
    and `get_inelastic_crosssection` in lib/cross_sections.py, over any energy
    table and any curve. The scan `for i in range(58)` picks `ilow`, the first
    `i` with `e <= energy[i + 1]`, or 57 when there is none; the result is the
    curve interpolated linearly between `ilow` and `ilow + 1`, without clamping.
    Every index the Python code reads past the end of a table (an IndexError)
    is an explicit error here. */
module Interpolation {

  datatype LookupError =
    | EnergyIndexOutOfRange(index: nat)  // the scan or the fraction read energy[index] past the end
    | ZeroWidthBin(low: nat)             // energy[low + 1] == energy[low]: the fraction divides by zero
    | CurveIndexOutOfRange(index: nat)   // the interpolation read curve[index] past the end

  datatype Result<T> = Ok(value: T) | Err(error: LookupError)

  /** The scan tries the lower indices 0 .. ScanCount - 1 (`range(58)`). */
  const ScanCount: nat := 58
  /** The lower index kept when the scan finds no match. */
  const DefaultLow: nat := 57

  predicate StrictlyIncreasing(s: seq<real>) {
    forall i :: 0 <= i < |s| - 1 ==> s[i] < s[i + 1]
  }

  /** k is what the scan picks: no earlier candidate matched, and k matched or
      is the default. */
  predicate IsLowIndex(energy: seq<real>, e: real, k: nat) {
    && k <= DefaultLow
    && k + 1 < |energy|
    && (forall j :: 0 < j <= k ==> energy[j] < e)
    && (e <= energy[k + 1] || k == DefaultLow)
  }

  /** The scan from candidate i on; the candidates before i have been read and
      did not match. */
  function ScanFrom(energy: seq<real>, e: real, i: nat): (r: Result<nat>)
    requires i <= ScanCount && (i == 0 || i < |energy|)
    ensures r.Ok? ==> r.value <= DefaultLow && r.value + 1 < |energy|
    decreases ScanCount - i
  {
    if i == ScanCount then Ok(DefaultLow)
    else if |energy| <= i + 1 then Err(EnergyIndexOutOfRange(i + 1))
    else if e <= energy[i + 1] then Ok(i)
    else ScanFrom(energy, e, i + 1)
  }

  /** The lower bin index `ilow` the scan selects for the requested energy e. */
  function LowIndex(energy: seq<real>, e: real): (r: Result<nat>)
    ensures r.Ok? ==> r.value <= DefaultLow && r.value + 1 < |energy|
  {
    ScanFrom(energy, e, 0)
  }

  /** The scan loop, run exactly as the source runs it. */
  method FindLow(energy: seq<real>, e: real) returns (r: Result<nat>)
    ensures r == LowIndex(energy, e)
    ensures r.Ok? ==> IsLowIndex(energy, e, r.value)
  {
    var ilow: nat := DefaultLow;
    for i := 0 to ScanCount
      invariant i == 0 || i < |energy|
      invariant forall j :: 0 < j <= i ==> energy[j] < e
      invariant ilow == DefaultLow
    {
      if |energy| <= i + 1 {
        // every sample the scan could read was below e: the read of
        // energy[i + 1] is the IndexError
        ScanFromErr(energy, e, 0);
        return Err(EnergyIndexOutOfRange(i + 1));
      }
      if e <= energy[i + 1] {
        ilow := i;
        break;
      }
    }
    assert IsLowIndex(energy, e, ilow);
    LowIndexIsLeast(energy, e, ilow);
    r := Ok(ilow);
  }

  /** First lemma about the scan: it returns exactly the least matching index,
      or the default. */
  lemma {:induction false} ScanFromIsLeast(energy: seq<real>, e: real, i: nat, k: nat)
    requires i <= ScanCount && (i == 0 || i < |energy|)
    requires forall j :: 0 < j <= i ==> energy[j] < e
    ensures ScanFrom(energy, e, i) == Ok(k) <==> IsLowIndex(energy, e, k)
    decreases ScanCount - i
  {
    if i < ScanCount && i + 1 < |energy| && energy[i + 1] < e {
      ScanFromIsLeast(energy, e, i + 1, k);
    }
  }

  /** The scan succeeds unless all the candidates it can read fail to match
      in a table shorter than 59 points; it then fails at the first index past
      the end. */
  lemma {:induction false} ScanFromErr(energy: seq<real>, e: real, i: nat)
    requires i <= ScanCount && (i == 0 || i < |energy|)
    ensures ScanFrom(energy, e, i).Ok? <==>
      (|energy| > ScanCount || exists j :: i < j < |energy| && e <= energy[j])
    ensures ScanFrom(energy, e, i).Err? ==>
      ScanFrom(energy, e, i).error == EnergyIndexOutOfRange(if |energy| == 0 then 1 else |energy|)
    decreases ScanCount - i
  {
    if i < ScanCount && i + 1 < |energy| && energy[i + 1] < e {
      ScanFromErr(energy, e, i + 1);
    }
  }

  lemma LowIndexIsLeast(energy: seq<real>, e: real, k: nat)
    ensures LowIndex(energy, e) == Ok(k) <==> IsLowIndex(energy, e, k)
  {
    ScanFromIsLeast(energy, e, 0, k);
  }

  /** On a table of at least 59 points the scan always selects some ilow in 0..57. */
  lemma LowIndexDefined(energy: seq<real>, e: real)
    requires |energy| > ScanCount
    ensures LowIndex(energy, e).Ok?
    ensures IsLowIndex(energy, e, LowIndex(energy, e).value)
  {
    ScanFromErr(energy, e, 0);
    LowIndexIsLeast(energy, e, LowIndex(energy, e).value);
  }

  /** The interpolation fraction `efrac`. */
  function Fraction(e0: real, e1: real, e: real): real
    requires e0 != e1
  {
    (e - e0) / (e1 - e0)
  }

  /** The value a fraction t of the way from c0 to c1. */
  function Line(c0: real, c1: real, t: real): real
  {
    c0 + t * (c1 - c0)
  }

  /** The value on the straight line through (e0, c0) and (e1, c1) at e. */
  function Lerp(e0: real, e1: real, c0: real, c1: real, e: real): real
    requires e0 != e1
  {
    Line(c0, c1, Fraction(e0, e1, e))
  }

  /** Lines 189 and 191: the fraction within bin ilow and the interpolated
      value; reading the curve past its end is an error. */
  function Interpolate(energy: seq<real>, curve: seq<real>, e: real, ilow: nat): (r: Result<real>)
    requires ilow + 1 < |energy|
    ensures r.Ok? <==> energy[ilow] != energy[ilow + 1] && ilow + 1 < |curve|
    ensures r.Ok? ==>
      (r.value - curve[ilow]) * (energy[ilow + 1] - energy[ilow]) == (e - energy[ilow]) * (curve[ilow + 1] - curve[ilow])
    ensures r.Err? && energy[ilow] == energy[ilow + 1] ==> r.error == ZeroWidthBin(ilow)
  {
    if energy[ilow + 1] - energy[ilow] == 0.0 then Err(ZeroWidthBin(ilow))
    else if |curve| <= ilow then Err(CurveIndexOutOfRange(ilow))
    else if |curve| <= ilow + 1 then Err(CurveIndexOutOfRange(ilow + 1))
    else
      LerpCollinear(energy[ilow], energy[ilow + 1], curve[ilow], curve[ilow + 1], e);
      Ok(Lerp(energy[ilow], energy[ilow + 1], curve[ilow], curve[ilow + 1], e))
  }

  /** The cross section the two lookups return for curve and energy e. */
  function CrossSection(energy: seq<real>, curve: seq<real>, e: real): Result<real> {
    match LowIndex(energy, e)
    case Err(err) => Err(err)
    case Ok(ilow) => Interpolate(energy, curve, e, ilow)
  }

  /** The search and interpolation, as one method over a given curve. */
  method Lookup(energy: seq<real>, curve: seq<real>, e: real) returns (r: Result<real>)
    ensures r == CrossSection(energy, curve, e)
  {
    var low := FindLow(energy, e);
    match low
    case Err(err) =>
      r := Err(err);
    case Ok(ilow) =>
      r := Interpolate(energy, curve, e, ilow);
  }

  // ---------------------------------------------------------------------
  // The lookup on a table of at least 59 strictly increasing energies

  /** The tables the lookup is meant for: the 59 points the scan reads (or
      more), strictly increasing. */
  predicate WellFormedTable(energy: seq<real>) {
    |energy| > ScanCount && StrictlyIncreasing(energy)
  }

  lemma {:induction false} IncreasingPairwise(s: seq<real>, i: nat, j: nat)
    requires StrictlyIncreasing(s) && i < j < |s|
    ensures s[i] < s[j]
    decreases j - i
  {
    if i + 1 < j {
      IncreasingPairwise(s, i + 1, j);
    }
  }

  /** For an energy inside the first and last points, the bin the scan
      selects holds it. This needs no ordering of the table. */
  lemma Bracketing(energy: seq<real>, e: real)
    requires |energy| > ScanCount
    requires energy[0] <= e <= energy[ScanCount]
    ensures LowIndex(energy, e).Ok?
    ensures energy[LowIndex(energy, e).value] <= e <= energy[LowIndex(energy, e).value + 1]
  {
    LowIndexDefined(energy, e);
    var k := LowIndex(energy, e).value;
    assert k > 0 ==> energy[k] < e;
  }

  /** On an increasing table the scan selects bin k for every e in
      (energy[k], energy[k + 1]]; bin 0 also takes everything below, and
      bin 57 everything above. */
  lemma LowIndexInBin(energy: seq<real>, e: real, k: nat)
    requires WellFormedTable(energy)
    requires k <= DefaultLow
    requires k == 0 || energy[k] < e
    requires e <= energy[k + 1] || k == DefaultLow
    ensures LowIndex(energy, e) == Ok(k)
  {
    forall j | 0 < j <= k
      ensures energy[j] < e
    {
      if j < k {
        IncreasingPairwise(energy, j, k);
      }
    }
    LowIndexIsLeast(energy, e, k);
  }

  /** A higher energy never selects a lower bin. */
  lemma LowIndexMonotone(energy: seq<real>, e1: real, e2: real)
    requires |energy| > ScanCount && e1 <= e2
    ensures LowIndex(energy, e1).Ok? && LowIndex(energy, e2).Ok?
    ensures LowIndex(energy, e1).value <= LowIndex(energy, e2).value
  {
    LowIndexDefined(energy, e1);
    LowIndexDefined(energy, e2);
  }

  /** On an increasing table the division never fails: the lookup fails only
      when the curve has no sample at ilow + 1. */
  lemma DefinedOnIncreasingTable(energy: seq<real>, curve: seq<real>, e: real)
    requires WellFormedTable(energy)
    ensures LowIndex(energy, e).Ok?
    ensures CrossSection(energy, curve, e).Ok? <==> LowIndex(energy, e).value + 1 < |curve|
    ensures CrossSection(energy, curve, e).Err? ==>
      CrossSection(energy, curve, e).error.CurveIndexOutOfRange?
  {
    LowIndexDefined(energy, e);
  }

  /** Inside the table the fraction lies in [0, 1] and the result between the
      two samples of the selected bin. */
  lemma WithinTable(energy: seq<real>, curve: seq<real>, e: real)
    requires WellFormedTable(energy)
    requires energy[0] <= e <= energy[ScanCount]
    // the curve has a sample after the selected bin (a short curve may suffice)
    requires LowIndex(energy, e).Ok? ==> LowIndex(energy, e).value + 1 < |curve|
    ensures LowIndex(energy, e).Ok? && CrossSection(energy, curve, e).Ok?
    ensures var k, r := LowIndex(energy, e).value, CrossSection(energy, curve, e).value;
      && 0.0 <= Fraction(energy[k], energy[k + 1], e) <= 1.0
      && (curve[k] <= r <= curve[k + 1] || curve[k + 1] <= r <= curve[k])
  {
    Bracketing(energy, e);
    var k := LowIndex(energy, e).value;
    LerpBetween(energy[k], energy[k + 1], curve[k], curve[k + 1], e);
  }

  /** Requesting a tabulated energy returns the tabulated value: through
      bin k - 1 with fraction 1, or for the first point through bin 0 with
      fraction 0. */
  lemma AtSample(energy: seq<real>, curve: seq<real>, k: nat)
    requires WellFormedTable(energy) && k <= ScanCount
    requires k < |curve| && 1 < |curve|
    ensures LowIndex(energy, energy[k]) == Ok(if k == 0 then 0 else k - 1)
    ensures k == 0 ==> Fraction(energy[0], energy[1], energy[k]) == 0.0
    ensures 0 < k ==> Fraction(energy[k - 1], energy[k], energy[k]) == 1.0
    ensures CrossSection(energy, curve, energy[k]) == Ok(curve[k])
  {
    if k == 0 {
      LowIndexInBin(energy, energy[0], 0);
      LerpEnds(energy[0], energy[1], curve[0], curve[1]);
    } else {
      LowIndexInBin(energy, energy[k], k - 1);
      LerpEnds(energy[k - 1], energy[k], curve[k - 1], curve[k]);
    }
  }

  /** No clamping above: past the last point the result continues the line
      through points 57 and 58 beyond curve[58]. */
  lemma ExtrapolatesAbove(energy: seq<real>, curve: seq<real>, e: real)
    requires WellFormedTable(energy) && |curve| > ScanCount
    requires energy[ScanCount] < e
    ensures LowIndex(energy, e) == Ok(DefaultLow)
    ensures CrossSection(energy, curve, e).Ok?
    ensures var r := CrossSection(energy, curve, e).value;
      && (r - curve[57]) * (energy[58] - energy[57]) == (e - energy[57]) * (curve[58] - curve[57])
      && 1.0 < Fraction(energy[57], energy[58], e)
      && (curve[57] < curve[58] ==> curve[58] < r)
      && (curve[58] < curve[57] ==> r < curve[58])
  {
    LowIndexInBin(energy, e, DefaultLow);
    LerpBeyond(energy[57], energy[58], curve[57], curve[58], e);
  }

  /** No clamping below: under the first point the result continues the line
      through points 0 and 1 beyond curve[0]. */
  lemma ExtrapolatesBelow(energy: seq<real>, curve: seq<real>, e: real)
    requires WellFormedTable(energy) && 1 < |curve|
    requires e < energy[0]
    ensures LowIndex(energy, e) == Ok(0)
    ensures CrossSection(energy, curve, e).Ok?
    ensures var r := CrossSection(energy, curve, e).value;
      && (r - curve[0]) * (energy[1] - energy[0]) == (e - energy[0]) * (curve[1] - curve[0])
      && Fraction(energy[0], energy[1], e) < 0.0
      && (curve[0] < curve[1] ==> r < curve[0])
      && (curve[1] < curve[0] ==> curve[0] < r)
  {
    LowIndexInBin(energy, e, 0);
    LerpBeyond(energy[0], energy[1], curve[0], curve[1], e);
  }

  /** Within bin k the result is the line through samples k and k + 1, also
      at energy[k] where the scan picks bin k - 1. */
  lemma ValueInBin(energy: seq<real>, curve: seq<real>, e: real, k: nat)
    requires WellFormedTable(energy) && k <= DefaultLow && k + 1 < |curve|
    requires energy[k] <= e <= energy[k + 1]
    ensures CrossSection(energy, curve, e) == Ok(Lerp(energy[k], energy[k + 1], curve[k], curve[k + 1], e))
  {
    if k == 0 || energy[k] < e {
      LowIndexInBin(energy, e, k);
    } else {
      AtSample(energy, curve, k);
      LerpEnds(energy[k], energy[k + 1], curve[k], curve[k + 1]);
    }
  }

  /** The bin of the segment lo..hi that holds e: the selected bin, or lo when
      e is energy[lo] and the scan selected bin lo - 1. */
  lemma SegmentBin(energy: seq<real>, lo: nat, hi: nat, e: real) returns (k: nat)
    requires WellFormedTable(energy) && lo < hi <= ScanCount
    requires energy[lo] <= e <= energy[hi]
    ensures LowIndex(energy, e).Ok?
    ensures k == if LowIndex(energy, e).value < lo then lo else LowIndex(energy, e).value
    ensures lo <= k < hi && energy[k] <= e <= energy[k + 1]
  {
    if 0 < lo {
      IncreasingPairwise(energy, 0, lo);
    }
    if hi < ScanCount {
      IncreasingPairwise(energy, hi, ScanCount);
    }
    Bracketing(energy, e);
    LowIndexDefined(energy, e);
    var ilow := LowIndex(energy, e).value;
    if ilow < lo {
      if ilow + 1 < lo {
        IncreasingPairwise(energy, ilow + 1, lo);
      }
      k := lo;
    } else {
      k := ilow;
    }
  }

  lemma {:induction false} RisingChain(curve: seq<real>, lo: nat, hi: nat, a: nat, b: nat)
    requires hi < |curve| && lo <= a <= b <= hi
    requires forall i :: lo <= i < hi ==> curve[i] <= curve[i + 1]
    ensures curve[a] <= curve[b]
    decreases b - a
  {
    if a < b {
      RisingChain(curve, lo, hi, a + 1, b);
    }
  }

  /** Where the curve rises over the points lo..hi, so does the lookup between
      energy[lo] and energy[hi]. */
  lemma MonotoneOnRisingSegment(energy: seq<real>, curve: seq<real>, lo: nat, hi: nat, e1: real, e2: real)
    requires WellFormedTable(energy)
    requires lo < hi <= ScanCount && hi < |curve|
    requires forall i :: lo <= i < hi ==> curve[i] <= curve[i + 1]
    requires energy[lo] <= e1 <= e2 <= energy[hi]
    ensures CrossSection(energy, curve, e1).Ok? && CrossSection(energy, curve, e2).Ok?
    ensures CrossSection(energy, curve, e1).value <= CrossSection(energy, curve, e2).value
  {
    LowIndexMonotone(energy, e1, e2);
    var k1 := SegmentBin(energy, lo, hi, e1);
    var k2 := SegmentBin(energy, lo, hi, e2);
    ValueInBin(energy, curve, e1, k1);
    ValueInBin(energy, curve, e2, k2);
    if k1 == k2 {
      LerpMonotone(energy[k1], energy[k1 + 1], curve[k1], curve[k1 + 1], e1, e2);
    } else {
      LerpBetween(energy[k1], energy[k1 + 1], curve[k1], curve[k1 + 1], e1);
      RisingChain(curve, lo, hi, k1 + 1, k2);
      LerpBetween(energy[k2], energy[k2 + 1], curve[k2], curve[k2 + 1], e2);
    }
  }

  // ---------------------------------------------------------------------
  // The straight line through two samples

  lemma LerpCollinear(e0: real, e1: real, c0: real, c1: real, e: real)
    requires e0 != e1
    ensures (Lerp(e0, e1, c0, c1, e) - c0) * (e1 - e0) == (e - e0) * (c1 - c0)
  {
    var t := Fraction(e0, e1, e);
    DivCancel(e - e0, e1 - e0);
    assert t * (e1 - e0) == e - e0;
    assert (t * (c1 - c0)) * (e1 - e0) == (t * (e1 - e0)) * (c1 - c0);
  }

  lemma LerpEnds(e0: real, e1: real, c0: real, c1: real)
    requires e0 != e1
    ensures Fraction(e0, e1, e0) == 0.0 && Fraction(e0, e1, e1) == 1.0
    ensures Lerp(e0, e1, c0, c1, e0) == c0
    ensures Lerp(e0, e1, c0, c1, e1) == c1
  {
    DivSelf(e1 - e0);
  }

  /** Inside the bin the fraction lies in [0, 1] and the value between the two samples. */
  lemma LerpBetween(e0: real, e1: real, c0: real, c1: real, e: real)
    requires e0 < e1 && e0 <= e <= e1
    ensures 0.0 <= Fraction(e0, e1, e) <= 1.0
    ensures c0 <= c1 ==> c0 <= Lerp(e0, e1, c0, c1, e) <= c1
    ensures c1 <= c0 ==> c1 <= Lerp(e0, e1, c0, c1, e) <= c0
  {
    DivBounds(e - e0, e1 - e0);
    LineBetween(c0, c1, Fraction(e0, e1, e));
  }

  /** Beyond the right end of the bin the fraction exceeds 1 and the value
      passes the right sample; before the left end the fraction is negative
      and the value passes the left sample. */
  lemma LerpBeyond(e0: real, e1: real, c0: real, c1: real, e: real)
    requires e0 < e1
    ensures e1 < e ==> 1.0 < Fraction(e0, e1, e)
    ensures e1 < e && c0 < c1 ==> c1 < Lerp(e0, e1, c0, c1, e)
    ensures e1 < e && c1 < c0 ==> Lerp(e0, e1, c0, c1, e) < c1
    ensures e < e0 ==> Fraction(e0, e1, e) < 0.0
    ensures e < e0 && c0 < c1 ==> Lerp(e0, e1, c0, c1, e) < c0
    ensures e < e0 && c1 < c0 ==> c0 < Lerp(e0, e1, c0, c1, e)
  {
    var t := Fraction(e0, e1, e);
    DivBounds(e - e0, e1 - e0);
    if e1 < e {
      MulStrict(1.0, t, c1 - c0);
    }
    if e < e0 {
      MulStrict(t, 0.0, c1 - c0);
    }
  }

  /** With a rising pair of samples, the line is non-decreasing in e. */
  lemma LerpMonotone(e0: real, e1: real, c0: real, c1: real, ea: real, eb: real)
    requires e0 < e1 && c0 <= c1 && ea <= eb
    ensures Lerp(e0, e1, c0, c1, ea) <= Lerp(e0, e1, c0, c1, eb)
  {
    DivMonotone(ea - e0, eb - e0, e1 - e0);
    MulMonotone(Fraction(e0, e1, ea), Fraction(e0, e1, eb), c1 - c0);
  }

  // ---------------------------------------------------------------------
  // Real arithmetic used above, one fact per lemma

  lemma DivSelf(w: real)
    requires w != 0.0
    ensures w / w == 1.0
  {
  }

  lemma DivCancel(a: real, w: real)
    requires w != 0.0
    ensures (a / w) * w == a
  {
  }

  lemma DivBounds(a: real, w: real)
    requires 0.0 < w
    ensures 0.0 <= a ==> 0.0 <= a / w
    ensures a <= w ==> a / w <= 1.0
    ensures w < a ==> 1.0 < a / w
    ensures a < 0.0 ==> a / w < 0.0
  {
  }

  lemma DivMonotone(a: real, b: real, w: real)
    requires a <= b && 0.0 < w
    ensures a / w <= b / w
  {
    assert b / w - a / w == (b - a) / w;
  }

  lemma LineBetween(c0: real, c1: real, t: real)
    requires 0.0 <= t <= 1.0
    ensures c0 <= c1 ==> c0 <= Line(c0, c1, t) <= c1
    ensures c1 <= c0 ==> c1 <= Line(c0, c1, t) <= c0
  {
    if c0 <= c1 {
      NonnegProduct(t, c1 - c0);
      NonnegProduct(1.0 - t, c1 - c0);
    } else {
      NonnegProduct(t, c0 - c1);
      NonnegProduct(1.0 - t, c0 - c1);
    }
  }

  lemma NonnegProduct(x: real, y: real)
    requires 0.0 <= x && 0.0 <= y
    ensures 0.0 <= x * y
  {
  }

  lemma MulMonotone(s: real, t: real, d: real)
    requires s <= t
    ensures 0.0 <= d ==> s * d <= t * d
    ensures d <= 0.0 ==> t * d <= s * d
  {
    assert t * d - s * d == (t - s) * d;
  }

  lemma MulStrict(s: real, t: real, d: real)
    requires s < t
    ensures 0.0 < d ==> s * d < t * d
    ensures d < 0.0 ==> t * d < s * d
  {
    assert t * d - s * d == (t - s) * d;
  }
}
