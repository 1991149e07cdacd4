/**
 * The Performance Management Chart columns computed over the daily load
 * table: chronic training load (CTL, 42-day trailing mean), acute training
 * load (ATL, 7-day trailing mean), both with a minimum of one observation,
 * and the training stress balance TSB = CTL - ATL.
 */
module Pmc {
  import opened Series
  import opened Workouts
  import opened DailyLoad

  const CtlDays: nat := 42
  const AtlDays: nat := 7

  /** `df['TSS'].rolling(42, min_periods=1).mean()` */
  function Ctl(tss: seq<Option<real>>): (ctl: seq<Option<real>>)
    ensures |ctl| == |tss|
  {
    seq(|tss|, i requires 0 <= i < |tss| => RollingMean(tss, CtlDays, 1, i))
  }

  /** `df['TSS'].rolling(7, min_periods=1).mean()` */
  function Atl(tss: seq<Option<real>>): (atl: seq<Option<real>>)
    ensures |atl| == |tss|
  {
    seq(|tss|, i requires 0 <= i < |tss| => RollingMean(tss, AtlDays, 1, i))
  }

  /** `df['CTL'] - df['ATL']` */
  function Tsb(tss: seq<Option<real>>): (tsb: seq<Option<real>>)
    ensures |tsb| == |tss|
  {
    seq(|tss|, i requires 0 <= i < |tss| => Sub(Ctl(tss)[i], Atl(tss)[i]))
  }

  /**
   * On a table without NaN, a rolling mean with a minimum of one observation
   * is the plain average of the last `window` days, or of all days so far
   * when fewer have elapsed.
   */
  lemma TrailingAverage(xs: seq<real>, window: nat, i: nat)
    requires 0 < window && i < |xs|
    ensures var lo := if i + 1 >= window then i + 1 - window else 0;
      RollingMean(Lift(xs), window, 1, i) == Some(Sum(xs[lo..i + 1]) / (i + 1 - lo) as real)
  {
    var lo := WindowStart(window, i);
    assert Lift(xs)[lo..i + 1] == Lift(xs[lo..i + 1]);
    PresentLift(xs[lo..i + 1]);
  }

  /**
   * On a table without NaN, CTL on day i is the mean of the loads of days
   * max(0, i-41) to i, ATL the mean over days max(0, i-6) to i, and TSB
   * their difference.
   */
  lemma PmcOfCompleteTable(xs: seq<real>, i: nat)
    requires i < |xs|
    ensures var c := if i >= 41 then i - 41 else 0;
      Ctl(Lift(xs))[i] == Some(Sum(xs[c..i + 1]) / (i + 1 - c) as real)
    ensures var a := if i >= 6 then i - 6 else 0;
      Atl(Lift(xs))[i] == Some(Sum(xs[a..i + 1]) / (i + 1 - a) as real)
    ensures Tsb(Lift(xs))[i] == Some(Ctl(Lift(xs))[i].value - Atl(Lift(xs))[i].value)
  {
    TrailingAverage(xs, CtlDays, i);
    TrailingAverage(xs, AtlDays, i);
  }

  /**
   * CTL on day i is NaN only when every day of its 42-day window is NaN, and
   * likewise ATL over its 7-day window; so on a table without NaN all three
   * columns are defined on every day.
   */
  lemma PmcDefined(tss: seq<Option<real>>, i: nat)
    requires i < |tss|
    ensures Ctl(tss)[i].Some? <==> exists k :: i + 1 - CtlDays <= k <= i && 0 <= k && tss[k].Some?
    ensures Atl(tss)[i].Some? <==> exists k :: i + 1 - AtlDays <= k <= i && 0 <= k && tss[k].Some?
    ensures (forall k :: 0 <= k < |tss| ==> tss[k].Some?) ==>
      Ctl(tss)[i].Some? && Atl(tss)[i].Some? && Tsb(tss)[i].Some?
  {
    WindowDefined(tss, CtlDays, i);
    WindowDefined(tss, AtlDays, i);
  }

  lemma WindowDefined(tss: seq<Option<real>>, window: nat, i: nat)
    requires 0 < window && i < |tss|
    ensures RollingMean(tss, window, 1, i).Some? <==>
      exists k :: i + 1 - window <= k <= i && 0 <= k && tss[k].Some?
  {
    var lo := WindowStart(window, i);
    var w := tss[lo..i + 1];
    MeanDefined(w);
    PresentAll(w);
    if exists j :: 0 <= j < |w| && w[j].Some? {
      var j :| 0 <= j < |w| && w[j].Some?;
      assert tss[lo + j].Some?;
    }
    if exists k :: i + 1 - window <= k <= i && 0 <= k && tss[k].Some? {
      var k :| i + 1 - window <= k <= i && 0 <= k && tss[k].Some?;
      assert w[k - lo].Some?;
    }
  }

  /** The largest value of a non-empty sequence. */
  function Max(xs: seq<real>): (m: real)
    requires xs != []
    ensures m in xs
    ensures forall k :: 0 <= k < |xs| ==> xs[k] <= m
  {
    if |xs| == 1 then xs[0]
    else
      var rest := Max(xs[1..]);
      assert forall k :: 1 <= k < |xs| ==> xs[k] == xs[1..][k - 1];
      if xs[0] < rest then rest else xs[0]
  }

  lemma WindowBounds(tss: seq<Option<real>>, window: nat, i: nat)
    requires 0 < window && i < |tss|
    requires forall k :: 0 <= k < |tss| && tss[k].Some? ==> 0.0 <= tss[k].value
    requires RollingMean(tss, window, 1, i).Some?
    ensures var m := RollingMean(tss, window, 1, i).value;
      && 0.0 <= m
      && exists k :: i + 1 - window <= k <= i && 0 <= k && tss[k].Some? && m <= tss[k].value
  {
    var lo := WindowStart(window, i);
    var w := tss[lo..i + 1];
    var vs := Present(w);
    var top := Max(vs);
    PresentMembers(w);
    forall k | 0 <= k < |w| && w[k].Some? ensures 0.0 <= w[k].value <= top {
      assert tss[lo + k] == w[k];
      assert Some(w[k].value) in w;
      assert w[k].value in vs;
    }
    MeanBounds(w, 0.0, top);
    assert Some(top) in w;
    var j :| 0 <= j < |w| && w[j] == Some(top);
    assert tss[lo + j] == Some(top);
  }

  /**
   * With non-negative loads, CTL and ATL on every day lie between 0 and the
   * largest load of their window.
   */
  lemma PmcBounds(tss: seq<Option<real>>, i: nat)
    requires i < |tss|
    requires forall k :: 0 <= k < |tss| && tss[k].Some? ==> 0.0 <= tss[k].value
    ensures Ctl(tss)[i].Some? ==>
      && 0.0 <= Ctl(tss)[i].value
      && exists k :: i + 1 - CtlDays <= k <= i && 0 <= k && tss[k].Some? && Ctl(tss)[i].value <= tss[k].value
    ensures Atl(tss)[i].Some? ==>
      && 0.0 <= Atl(tss)[i].value
      && exists k :: i + 1 - AtlDays <= k <= i && 0 <= k && tss[k].Some? && Atl(tss)[i].value <= tss[k].value
  {
    if Ctl(tss)[i].Some? {
      WindowBounds(tss, CtlDays, i);
    }
    if Atl(tss)[i].Some? {
      WindowBounds(tss, AtlDays, i);
    }
  }

  /** During the first seven days both windows reach back to day 0: CTL = ATL and TSB = 0. */
  lemma FirstWeekBalanced(tss: seq<Option<real>>, i: nat)
    requires i < |tss| && i < AtlDays
    ensures Ctl(tss)[i] == Atl(tss)[i]
    ensures Ctl(tss)[i].Some? ==> Tsb(tss)[i] == Some(0.0)
  {
  }

  /** A table of one day with load T has CTL = ATL = T and TSB = 0. */
  lemma SingleDay(t: real)
    ensures Ctl([Some(t)]) == [Some(t)]
    ensures Atl([Some(t)]) == [Some(t)]
    ensures Tsb([Some(t)]) == [Some(0.0)]
  {
    var tss := [Some(t)];
    assert tss[0..1] == tss;
    assert Present(tss) == [t];
    assert Sum([t]) == t;
  }

  /** Loads [100, 0, 0, 0, 0, 0, 0]: on day 7, CTL = ATL = 100/7 and TSB = 0. */
  lemma OneHardDayThenRest()
    ensures var tss := Lift([100.0, 0.0, 0.0, 0.0, 0.0, 0.0, 0.0]);
      && Ctl(tss)[6] == Some(100.0 / 7.0)
      && Atl(tss)[6] == Some(100.0 / 7.0)
      && Tsb(tss)[6] == Some(0.0)
  {
    var xs := [100.0, 0.0, 0.0, 0.0, 0.0, 0.0, 0.0];
    var rest := xs[1..];
    assert Sum(xs) == 100.0 by {
      SumConstant(rest, 0.0);
    }
    assert xs[0..7] == xs;
    PmcOfCompleteTable(xs, 6);
  }

  /**
   * One workout with load T on a one-day range: the table is [T], and CTL,
   * ATL and TSB on that day are T, T and 0.
   */
  lemma SingleWorkoutSingleDay(w: Workout, cfg: Config, sqrt: real -> real, t: real)
    requires WellFormed(w) && Calibrated(cfg, sqrt)
    requires cfg.startDay == cfg.endDay
    requires Contribution(w, cfg, sqrt) == Ok(Some(Entry(0, Some(t))))
    ensures AllWellFormed([w])
    ensures DailyLoads([w], cfg, sqrt) == Ok([Some(t)])
    ensures Ctl([Some(t)]) == [Some(t)] && Atl([Some(t)]) == [Some(t)] && Tsb([Some(t)]) == [Some(0.0)]
  {
    DailyLoadsAppend([], w, cfg, sqrt);
    assert [] + [w] == [w];
    var table := DailyLoads([w], cfg, sqrt).value;
    assert table == [table[0]];
    SingleDay(t);
  }
}
