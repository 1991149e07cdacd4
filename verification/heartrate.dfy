/**
 * Heart-rate-based load of one workout (`get_hr_tss`): each sample is put
 * in one of ten zones bounded by fractions of the lactate threshold heart
 * rate (LTHR), the way `pd.cut` bins with right-closed intervals
 * `(lo, hi]`, and contributes its zone's hourly rate for one second.
 */
module HeartRateLoad {
  import opened Series
  import opened Workouts

  /** Zone edges as fractions of LTHR. Zone 4 ends at 99% of LTHR. */
  const ZoneEdges: seq<real> := [0.0, 0.73, 0.77, 0.81, 0.85, 0.89, 0.93, 0.99, 1.03, 1.06, 2.0]

  /** TSS per hour of each zone, Z1 low to Z5c. */
  const ZoneRates: seq<int> := [20, 30, 40, 50, 60, 70, 80, 100, 120, 140]

  const SecondsPerHour: int := 3600

  lemma {:induction false} RatesIncrease(a: nat, b: nat)
    requires a <= b < |ZoneRates|
    ensures ZoneRates[a] <= ZoneRates[b]
    decreases b - a
  {
    if a < b {
      RatesIncrease(a + 1, b);
    }
  }

  /**
   * The first edge index at or after `j` whose edge (scaled by LTHR) is at
   * least `h`, or the number of edges when there is none; this is numpy's
   * `searchsorted(h, side='left')`, which `pd.cut` uses for right-closed bins.
   */
  function SearchEdges(h: real, lthr: real, j: nat): (r: nat)
    requires j <= |ZoneEdges|
    ensures j <= r <= |ZoneEdges|
    ensures r < |ZoneEdges| ==> h <= ZoneEdges[r] * lthr
    ensures forall k :: j <= k < r ==> ZoneEdges[k] * lthr < h
    decreases |ZoneEdges| - j
  {
    if j == |ZoneEdges| || h <= ZoneEdges[j] * lthr then j else SearchEdges(h, lthr, j + 1)
  }

  /**
   * The zone `pd.cut` puts a heart rate in: none (NaN) at or below the first
   * edge and above the last one.
   */
  function Zone(h: real, lthr: real): (z: Option<nat>)
    ensures z.Some? ==> z.value < |ZoneRates|
  {
    var j := SearchEdges(h, lthr, 0);
    if j == 0 || j == |ZoneEdges| then None else Some(j - 1)
  }

  /**
   * A heart rate is in zone k exactly when it lies in the right-closed
   * interval (edge k, edge k+1] scaled by LTHR; a value on an edge therefore
   * belongs to the lower zone.
   */
  lemma ZoneMembership(h: real, lthr: real, k: nat)
    requires 0.0 < lthr && k < |ZoneRates|
    ensures Zone(h, lthr) == Some(k) <==>
      ZoneEdges[k] * lthr < h <= ZoneEdges[k + 1] * lthr
  {
    var j := SearchEdges(h, lthr, 0);
    if ZoneEdges[k] * lthr < h <= ZoneEdges[k + 1] * lthr {
      assert k < j;
      assert j <= k + 1;
    }
  }

  /** A heart rate gets no zone exactly when it is at most 0 or above 2 x LTHR. */
  lemma Unzoned(h: real, lthr: real)
    requires 0.0 < lthr
    ensures Zone(h, lthr) == None <==> h <= 0.0 || 2.0 * lthr < h
  {
    var j := SearchEdges(h, lthr, 0);
    if 0.0 < h <= 2.0 * lthr {
      assert j != 0;
      assert j != |ZoneEdges|;
    }
  }

  /** Zones never decrease as the heart rate rises. */
  lemma ZoneMonotone(h1: real, h2: real, lthr: real)
    requires 0.0 < lthr && h1 <= h2
    requires Zone(h1, lthr).Some? && Zone(h2, lthr).Some?
    ensures Zone(h1, lthr).value <= Zone(h2, lthr).value
  {
    var z1, z2 := Zone(h1, lthr).value, Zone(h2, lthr).value;
    ZoneMembership(h1, lthr, z1);
    ZoneMembership(h2, lthr, z2);
  }

  /**
   * The hourly rate a sample earns: NaN exactly when it has no zone, and
   * otherwise one of the ten zone rates, between 20 and 140.
   */
  function Rate(h: real, lthr: real): (rate: Option<int>)
    ensures rate.Some? <==> Zone(h, lthr).Some?
    ensures rate.Some? ==> rate.value in ZoneRates && 20 <= rate.value <= 140
  {
    if Zone(h, lthr).Some? then
      RatesIncrease(0, Zone(h, lthr).value);
      RatesIncrease(Zone(h, lthr).value, |ZoneRates| - 1);
      Some(ZoneRates[Zone(h, lthr).value])
    else None
  }

  /** Rates never decrease as the heart rate rises, and lie between 20 and 140. */
  lemma RateMonotone(h1: real, h2: real, lthr: real)
    requires 0.0 < lthr && h1 <= h2
    requires Rate(h1, lthr).Some? && Rate(h2, lthr).Some?
    ensures 20 <= Rate(h1, lthr).value <= Rate(h2, lthr).value <= 140
  {
    ZoneMonotone(h1, h2, lthr);
    RatesIncrease(Zone(h1, lthr).value, Zone(h2, lthr).value);
  }

  /**
   * The `hrTSS` column: the rate of every sample, or none when some sample
   * (a missing one included) has no zone, where `astype(int)` raises.
   */
  function RateColumn(hr: seq<Option<real>>, lthr: real): (rates: Option<seq<int>>)
    ensures rates.Some? ==> |rates.value| == |hr|
  {
    if hr == [] then Some([])
    else if hr[0].None? || Rate(hr[0].value, lthr).None? then None
    else match RateColumn(hr[1..], lthr)
      case None => None
      case Some(rest) => Some([Rate(hr[0].value, lthr).value] + rest)
  }

  function IntSum(xs: seq<int>): (total: int)
  {
    if xs == [] then 0 else xs[0] + IntSum(xs[1..])
  }

  /**
   * `get_hr_tss`: the sum of the per-sample hourly rates over 3600. Bin edges
   * that do not increase (LTHR at most 0) and samples without a zone fail.
   */
  function HrTss(hr: seq<Option<real>>, lthr: real): (r: Result<real, Error>)
    ensures r.Err? && lthr <= 0.0 ==> r.error == InvalidZoneBins
    ensures r.Err? && 0.0 < lthr ==> r.error == UnzonedHeartRate
  {
    if lthr <= 0.0 then Err(InvalidZoneBins)
    else match RateColumn(hr, lthr)
      case None => Err(UnzonedHeartRate)
      case Some(rates) => Ok(IntSum(rates) as real / SecondsPerHour as real)
  }

  /** `hrTSS` holds, for every sample, the rate of that sample's zone. */
  lemma {:induction false} RateColumnAt(hr: seq<Option<real>>, lthr: real)
    ensures RateColumn(hr, lthr).Some? <==>
      forall i :: 0 <= i < |hr| ==> hr[i].Some? && Zone(hr[i].value, lthr).Some?
    ensures RateColumn(hr, lthr).Some? ==>
      forall i :: 0 <= i < |hr| ==> RateColumn(hr, lthr).value[i] == ZoneRates[Zone(hr[i].value, lthr).value]
  {
    if hr != [] {
      RateColumnAt(hr[1..], lthr);
      assert forall i :: 1 <= i < |hr| ==> hr[i] == hr[1..][i - 1];
      if hr[0].Some? && Zone(hr[0].value, lthr).Some? {
        assert Rate(hr[0].value, lthr) == Some(ZoneRates[Zone(hr[0].value, lthr).value]);
      }
    }
  }

  /**
   * HR TSS can be computed exactly when LTHR is positive and every sample is
   * present and lies in (0, 2 x LTHR].
   */
  lemma HrTssDefined(hr: seq<Option<real>>, lthr: real)
    ensures HrTss(hr, lthr).Ok? <==>
      0.0 < lthr && forall i :: 0 <= i < |hr| ==> hr[i].Some? && 0.0 < hr[i].value <= 2.0 * lthr
  {
    RateColumnAt(hr, lthr);
    if 0.0 < lthr {
      forall i | 0 <= i < |hr| && hr[i].Some? {
        Unzoned(hr[i].value, lthr);
      }
    }
  }

  lemma {:induction false} IntSumBounds(xs: seq<int>, lo: int, hi: int)
    requires forall k :: 0 <= k < |xs| ==> lo <= xs[k] <= hi
    ensures |xs| * lo <= IntSum(xs) <= |xs| * hi
  {
    if xs != [] {
      IntSumBounds(xs[1..], lo, hi);
    }
  }

  /** n samples score between 20n/3600 and 140n/3600. */
  lemma HrTssBounds(hr: seq<Option<real>>, lthr: real)
    requires HrTss(hr, lthr).Ok?
    ensures 20.0 * |hr| as real / 3600.0 <= HrTss(hr, lthr).value <= 140.0 * |hr| as real / 3600.0
  {
    RateColumnAt(hr, lthr);
    var rates := RateColumn(hr, lthr).value;
    forall k | 0 <= k < |rates| ensures 20 <= rates[k] <= 140 {
      var z := Zone(hr[k].value, lthr).value;
      RatesIncrease(0, z);
      RatesIncrease(z, |ZoneRates| - 1);
    }
    IntSumBounds(rates, 20, 140);
  }

  /**
   * A heart rate exactly on an inner edge falls in the zone below that edge,
   * as `pd.cut` closes intervals on the right: with LTHR = 171 a heart rate
   * of 169.29 bpm (99%) is in zone 6 (Z4), not zone 7 (Z5a).
   */
  lemma EdgeInLowerZone(lthr: real, k: nat)
    requires 0.0 < lthr && k < |ZoneRates|
    ensures Zone(ZoneEdges[k + 1] * lthr, lthr) == Some(k)
  {
    assert ZoneEdges[k] < ZoneEdges[k + 1];
    ZoneMembership(ZoneEdges[k + 1] * lthr, lthr, k);
  }
}
