/**
 * Power-based load of one workout (`get_tss`): Normalized Power from a
 * 30-sample rolling mean, the Intensity Factor against FTP, and the
 * Training Stress Score.
 */
module PowerLoad {
  import opened Series
  import opened Workouts

  /** Samples in the rolling power window (30 s at 1 Hz). */
  const NpWindow: nat := 30

  /** `power.rolling(30).mean()`: defined only where all 30 samples are present. */
  function RollingPower(p: seq<Option<real>>): (r: seq<Option<real>>)
    ensures |r| == |p|
  {
    seq(|p|, i requires 0 <= i < |p| => RollingMean(p, NpWindow, NpWindow, i))
  }

  /** `x ** 4`, never negative. */
  function Fourth(x: real): (f: real)
    ensures 0.0 <= f
  {
    assert x * x * x * x == (x * x) * (x * x);
    x * x * x * x
  }

  /** `** 4` on a column: NaN stays NaN, and a present value becomes its non-negative fourth power. */
  function FourthPowers(s: seq<Option<real>>): (r: seq<Option<real>>)
    ensures |r| == |s|
    ensures forall i :: 0 <= i < |s| ==> (r[i].Some? <==> s[i].Some?)
    ensures forall i :: 0 <= i < |s| && s[i].Some? ==> r[i] == Some(Fourth(s[i].value))
  {
    seq(|s|, i requires 0 <= i < |s| => if s[i].Some? then Some(Fourth(s[i].value)) else None)
  }

  /**
   * `np.mean(rolling ** 4)`: NaN positions are skipped, so it is NaN exactly
   * when no rolling value is defined; otherwise it is non-negative.
   */
  function MeanFourthPower(p: seq<Option<real>>): (m: Option<real>)
    ensures m.Some? <==> exists i :: 0 <= i < |p| && RollingPower(p)[i].Some?
    ensures m.Some? ==> 0.0 <= m.value
  {
    var f := FourthPowers(RollingPower(p));
    MeanDefined(f);
    MeanNonNegative(f);
    Mean(f)
  }

  /** `sqrt` returns the non-negative square root of every non-negative real. */
  ghost predicate IsSqrt(sqrt: real -> real)
  {
    forall x :: 0.0 <= x ==> 0.0 <= sqrt(x) && sqrt(x) * sqrt(x) == x
  }

  /**
   * Normalized Power, `sqrt(sqrt(mean))` of the mean fourth power: it is
   * defined exactly when that mean is, and it is the non-negative real whose
   * fourth power is that mean.
   */
  function NormalizedPower(p: seq<Option<real>>, sqrt: real -> real): (np: Option<real>)
    requires IsSqrt(sqrt)
    ensures np.Some? <==> MeanFourthPower(p).Some?
    ensures np.Some? ==> 0.0 <= np.value && Fourth(np.value) == MeanFourthPower(p).value
  {
    match MeanFourthPower(p)
    case None => None
    case Some(m) =>
      var root := sqrt(sqrt(m));
      assert Fourth(root) == (root * root) * (root * root);
      Some(root)
  }

  /** Intensity Factor: Normalized Power as a fraction of FTP. */
  function IntensityFactor(np: real, ftp: real): (intensity: real)
    requires 0.0 < ftp
    ensures intensity * ftp == np
  {
    np / ftp
  }

  /**
   * Training Stress Score from Normalized Power, moving time (seconds) and
   * FTP; NaN when NP is NaN. It equals moving time times the squared
   * Intensity Factor over 36, so it is non-negative for a non-negative
   * moving time.
   */
  function PowerTss(np: Option<real>, movingTime: int, ftp: real): (tss: Option<real>)
    requires 0.0 < ftp
    ensures tss.Some? <==> np.Some?
    ensures tss.Some? ==> var intensity := IntensityFactor(np.value, ftp);
      tss.value == movingTime as real * intensity * intensity / 36.0
    ensures tss.Some? && 0 <= movingTime ==> 0.0 <= tss.value
  {
    match np
    case None => None
    case Some(n) =>
      var intensity := IntensityFactor(n, ftp);
      var t := movingTime as real * n * intensity / (ftp * 3600.0) * 100.0;
      assert t == movingTime as real * intensity * intensity / 36.0 by {
        assert n == intensity * ftp;
        assert movingTime as real * n * intensity / (ftp * 3600.0) * 100.0
            == movingTime as real * intensity * (intensity * ftp) / (ftp * 36.0);
      }
      assert 0 <= movingTime ==> 0.0 <= movingTime as real * (intensity * intensity);
      Some(t)
  }

  /** `get_tss` on a loaded workout that has a power column. */
  function WorkoutPowerTss(w: Workout, ftp: real, sqrt: real -> real): (tss: Option<real>)
    requires WellFormed(w) && w.power.Some? && |w.timestamp| > 0
    requires 0.0 < ftp && IsSqrt(sqrt)
    ensures tss.Some? <==> MeanFourthPower(w.power.value).Some?
  {
    PowerTss(NormalizedPower(w.power.value, sqrt), MovingTime(w.timestamp), ftp)
  }

  /**
   * A rolling-window value is defined exactly when the window is full and
   * every one of its 30 samples is present; so the first 29 are undefined.
   */
  lemma RollingPowerDefined(p: seq<Option<real>>, i: nat)
    requires i < |p|
    ensures RollingPower(p)[i].Some? <==>
      NpWindow - 1 <= i && forall k :: i + 1 - NpWindow <= k <= i ==> p[k].Some?
  {
    var lo := WindowStart(NpWindow, i);
    var w := p[lo..i + 1];
    PresentAll(w);
    MeanDefined(w);
    assert forall k :: lo <= k <= i ==> w[k - lo] == p[k];
  }

  /** A workout of fewer than 30 samples has no Normalized Power (NaN). */
  lemma ShortWorkoutHasNoNp(p: seq<Option<real>>)
    requires |p| < NpWindow
    ensures MeanFourthPower(p) == None
  {
    var f := FourthPowers(RollingPower(p));
    forall i | 0 <= i < |p| ensures f[i] == None {
      RollingPowerDefined(p, i);
    }
    MeanDefined(f);
  }

  lemma RootUnique(x: real, r: real)
    requires 0.0 <= x && 0.0 <= r && r * r == x * x
    ensures r == x
  {
    assert (r - x) * (r + x) == r * r - x * x;
    if r + x > 0.0 {
      assert r - x == (r * r - x * x) / (r + x);
    }
  }

  /** A constant power c held for at least 30 samples has Normalized Power c. */
  lemma ConstantPowerNp(p: seq<Option<real>>, c: real, sqrt: real -> real)
    requires IsSqrt(sqrt) && 0.0 <= c
    requires NpWindow <= |p| && forall k :: 0 <= k < |p| ==> p[k] == Some(c)
    ensures NormalizedPower(p, sqrt) == Some(c)
  {
    var r := RollingPower(p);
    forall i | 0 <= i < |p| ensures r[i] == None || r[i] == Some(c) {
      var lo := WindowStart(NpWindow, i);
      var w := p[lo..i + 1];
      if r[i].Some? {
        MeanConstant(w, c);
      }
    }
    RollingPowerDefined(p, NpWindow - 1);
    var f := FourthPowers(r);
    assert f[NpWindow - 1] == Some(Fourth(c));
    MeanConstant(f, Fourth(c));
    var s := sqrt(Fourth(c));
    assert Fourth(c) == (c * c) * (c * c);
    RootUnique(c * c, s);
    RootUnique(c, sqrt(s));
  }

  /** One hour at a Normalized Power equal to FTP scores 100. */
  lemma ThresholdHour(ftp: real)
    requires 0.0 < ftp
    ensures PowerTss(Some(ftp), 3600, ftp) == Some(100.0)
  {
  }
}
