/**
 * The daily load table: one row per calendar day of an inclusive date range,
 * created at zero, into which every workout's load is added on the day of
 * its first sample (the top-level loop of the script).
 */
module DailyLoad {
  import opened Series
  import opened Workouts
  import PowerLoad
  import HeartRateLoad

  /**
   * The athlete's calibration and the date range, in days since the Unix
   * epoch, both ends included.
   */
  datatype Config = Config(ftp: real, lthr: real, startDay: int, endDay: int)

  /**
   * Number of days in the range: `pd.date_range(start, end)` is empty when
   * end < start, and otherwise runs from the start day to the end day.
   */
  function Days(cfg: Config): (n: nat)
    ensures n == 0 <==> cfg.endDay < cfg.startDay
    ensures 0 < n ==> cfg.startDay + n - 1 == cfg.endDay
  {
    if cfg.startDay <= cfg.endDay then cfg.endDay - cfg.startDay + 1 else 0
  }

  /**
   * What every table operation assumes: a positive FTP (the athlete's
   * calibration) and an exact square root standing in for `np.sqrt`. Only
   * the power path uses either, but the table functions take both, since
   * any workout may carry a power column.
   */
  ghost predicate Calibrated(cfg: Config, sqrt: real -> real)
  {
    0.0 < cfg.ftp && PowerLoad.IsSqrt(sqrt)
  }

  predicate AllWellFormed(ws: seq<Workout>)
  {
    forall w :: w in ws ==> WellFormed(w)
  }

  /** A load to add to row `index` of the table. */
  datatype Entry = Entry(index: nat, load: Option<real>)

  /**
   * What one workout does to the table: fail, leave it alone (`None`), or add
   * a load to the row of its first sample's day. The power load is used when
   * the frame has a power column, else the heart-rate load when it has a
   * heart-rate column.
   */
  function Contribution(w: Workout, cfg: Config, sqrt: real -> real): (r: Result<Option<Entry>, Error>)
    requires WellFormed(w) && Calibrated(cfg, sqrt)
    ensures r.Ok? && r.value.Some? ==>
      r.value.value.index < Days(cfg) && DateOf(w) == Ok(cfg.startDay + r.value.value.index)
  {
    match DateOf(w)
    case Err(e) => Err(e)
    case Ok(day) =>
      if day < cfg.startDay || cfg.endDay < day then Ok(None)
      else
        var loaded := Loaded(w);
        if loaded.power.Some? then
          Ok(Some(Entry(day - cfg.startDay, PowerLoad.WorkoutPowerTss(loaded, cfg.ftp, sqrt))))
        else if loaded.heartRate.Some? then
          match HeartRateLoad.HrTss(loaded.heartRate.value, cfg.lthr)
          case Err(e) => Err(e)
          case Ok(t) => Ok(Some(Entry(day - cfg.startDay, Some(t))))
        else Ok(None)
  }

  /** The table before any workout: one zero per day of the range. */
  function ZeroTable(cfg: Config): (t: seq<Option<real>>)
    ensures |t| == Days(cfg)
    ensures forall i :: 0 <= i < |t| ==> t[i] == Some(0.0)
  {
    seq(Days(cfg), _ => Some(0.0))
  }

  /** `df.loc[date, 'TSS'] += load`: only the entry's row changes. */
  function AddLoad(t: seq<Option<real>>, e: Option<Entry>): (r: seq<Option<real>>)
    requires e.Some? ==> e.value.index < |t|
    ensures |r| == |t|
    ensures forall i :: 0 <= i < |t| ==>
      r[i] == if e.Some? && i == e.value.index then Add(t[i], e.value.load) else t[i]
  {
    match e
    case None => t
    case Some(Entry(i, load)) => t[i := Add(t[i], load)]
  }

  /** One turn of the loop; a failure ends the run. */
  function Step(r: Result<seq<Option<real>>, Error>, w: Workout, cfg: Config, sqrt: real -> real)
    : (r': Result<seq<Option<real>>, Error>)
    requires WellFormed(w) && Calibrated(cfg, sqrt)
    requires r.Ok? ==> |r.value| == Days(cfg)
    ensures r'.Ok? ==> |r'.value| == Days(cfg)
    ensures r'.Ok? <==> r.Ok? && Contribution(w, cfg, sqrt).Ok?
  {
    match r
    case Err(e) => Err(e)
    case Ok(t) =>
      match Contribution(w, cfg, sqrt)
      case Err(e) => Err(e)
      case Ok(c) => Ok(AddLoad(t, c))
  }

  /** The table after processing the workouts in order, or the first failure. */
  function DailyLoads(ws: seq<Workout>, cfg: Config, sqrt: real -> real): (r: Result<seq<Option<real>>, Error>)
    requires AllWellFormed(ws) && Calibrated(cfg, sqrt)
    ensures r.Ok? ==> |r.value| == Days(cfg)
    decreases |ws|
  {
    if ws == [] then Ok(ZeroTable(cfg))
    else Step(DailyLoads(ws[..|ws| - 1], cfg, sqrt), ws[|ws| - 1], cfg, sqrt)
  }

  /**
   * The loop over the workouts: create the zero table, then add each
   * workout's load in place; stop at the first failure.
   */
  method DailyLoadTable(ws: seq<Workout>, cfg: Config, sqrt: real -> real)
    returns (table: array<Option<real>>, failure: Option<Error>)
    requires AllWellFormed(ws) && Calibrated(cfg, sqrt)
    ensures failure.None? <==> DailyLoads(ws, cfg, sqrt).Ok?
    ensures failure.None? ==> table[..] == DailyLoads(ws, cfg, sqrt).value
    ensures failure.Some? ==> DailyLoads(ws, cfg, sqrt).error == failure.value
  {
    table := new Option<real>[Days(cfg)](_ => Some(0.0));
    failure := None;
    assert table[..] == ZeroTable(cfg);
    for n := 0 to |ws|
      invariant DailyLoads(ws[..n], cfg, sqrt) == Ok(table[..])
    {
      assert ws[..n + 1][..n] == ws[..n];
      match Contribution(ws[n], cfg, sqrt)
      case Err(e) =>
        failure := Some(e);
        FailureIsFinal(ws, n + 1, cfg, sqrt);
        return;
      case Ok(None) =>
      case Ok(Some(Entry(i, load))) =>
        table[i] := Add(table[i], load);
    }
    assert ws[..|ws|] == ws;
  }

  /** Once the loop has failed, later workouts change nothing. */
  lemma {:induction false} FailureIsFinal(ws: seq<Workout>, n: nat, cfg: Config, sqrt: real -> real)
    requires AllWellFormed(ws) && Calibrated(cfg, sqrt)
    requires n <= |ws| && DailyLoads(ws[..n], cfg, sqrt).Err?
    ensures DailyLoads(ws, cfg, sqrt) == DailyLoads(ws[..n], cfg, sqrt)
    decreases |ws| - n
  {
    if n < |ws| {
      assert ws[..n + 1][..n] == ws[..n];
      FailureIsFinal(ws, n + 1, cfg, sqrt);
    } else {
      assert ws[..n] == ws;
    }
  }

  lemma DailyLoadsAppend(ws: seq<Workout>, w: Workout, cfg: Config, sqrt: real -> real)
    requires AllWellFormed(ws + [w]) && Calibrated(cfg, sqrt)
    ensures AllWellFormed(ws)
    ensures DailyLoads(ws + [w], cfg, sqrt) == Step(DailyLoads(ws, cfg, sqrt), w, cfg, sqrt)
  {
    assert (ws + [w])[..|ws|] == ws;
  }

  /**
   * Processing a workout that contributes a load adds it to the row of its
   * day and leaves every other row unchanged; one that contributes nothing
   * leaves the table unchanged.
   */
  lemma ProcessWorkout(ws: seq<Workout>, w: Workout, cfg: Config, sqrt: real -> real)
    requires AllWellFormed(ws + [w]) && Calibrated(cfg, sqrt)
    requires DailyLoads(ws, cfg, sqrt).Ok? && Contribution(w, cfg, sqrt).Ok?
    ensures AllWellFormed(ws)
    ensures var before, after := DailyLoads(ws, cfg, sqrt).value, DailyLoads(ws + [w], cfg, sqrt);
      && after.Ok?
      && forall i :: 0 <= i < |before| ==>
           after.value[i] == match Contribution(w, cfg, sqrt).value
             case Some(e) => if i == e.index then Add(before[i], e.load) else before[i]
             case None => before[i]
  {
    DailyLoadsAppend(ws, w, cfg, sqrt);
  }

  /**
   * A workout whose first sample falls outside the date range is skipped
   * before its load is looked at, so it cannot fail the run.
   */
  lemma OutOfRangeSkipped(ws: seq<Workout>, w: Workout, cfg: Config, sqrt: real -> real)
    requires AllWellFormed(ws + [w]) && Calibrated(cfg, sqrt)
    requires |w.timestamp| > 0
    requires DateOf(w).value < cfg.startDay || cfg.endDay < DateOf(w).value
    ensures AllWellFormed(ws)
    ensures DailyLoads(ws + [w], cfg, sqrt) == DailyLoads(ws, cfg, sqrt)
  {
    DailyLoadsAppend(ws, w, cfg, sqrt);
  }

  /** A workout with neither a power nor a heart-rate column leaves the table unchanged. */
  lemma NoLoadColumnsSkipped(ws: seq<Workout>, w: Workout, cfg: Config, sqrt: real -> real)
    requires AllWellFormed(ws + [w]) && Calibrated(cfg, sqrt)
    requires |w.timestamp| > 0 && w.power.None? && w.heartRate.None?
    ensures AllWellFormed(ws)
    ensures DailyLoads(ws + [w], cfg, sqrt) == DailyLoads(ws, cfg, sqrt)
  {
    DailyLoadsAppend(ws, w, cfg, sqrt);
  }

  /** A frame without rows fails the run (there is no first timestamp). */
  lemma EmptyWorkoutFails(ws: seq<Workout>, w: Workout, cfg: Config, sqrt: real -> real)
    requires AllWellFormed(ws + [w]) && Calibrated(cfg, sqrt)
    requires |w.timestamp| == 0
    ensures DailyLoads(ws + [w], cfg, sqrt).Err?
  {
    DailyLoadsAppend(ws, w, cfg, sqrt);
  }

  /**
   * Power takes precedence: a workout with a power column dated inside the
   * range adds its power TSS to the row of its day, and its heart-rate
   * column, whatever it holds, does not affect what it contributes.
   */
  lemma PowerTakesPrecedence(w: Workout, hr: Option<seq<Option<real>>>, cfg: Config, sqrt: real -> real)
    requires WellFormed(w) && WellFormed(w.(heartRate := hr)) && Calibrated(cfg, sqrt)
    requires w.power.Some?
    ensures Contribution(w, cfg, sqrt) == Contribution(w.(heartRate := hr), cfg, sqrt)
    ensures |w.timestamp| > 0 && cfg.startDay <= DateOf(w).value <= cfg.endDay ==>
      Contribution(w, cfg, sqrt) ==
        Ok(Some(Entry(DateOf(w).value - cfg.startDay, PowerLoad.WorkoutPowerTss(Loaded(w), cfg.ftp, sqrt))))
  {
  }

  /**
   * A workout with a heart-rate column and no power column dated inside the
   * range adds its heart-rate TSS to the row of its day, or fails the run
   * with the error the heart-rate TSS raises.
   */
  lemma HeartRateWhenNoPower(w: Workout, cfg: Config, sqrt: real -> real)
    requires WellFormed(w) && Calibrated(cfg, sqrt)
    requires w.power.None? && w.heartRate.Some?
    requires |w.timestamp| > 0 && cfg.startDay <= DateOf(w).value <= cfg.endDay
    ensures var t := HeartRateLoad.HrTss(Loaded(w).heartRate.value, cfg.lthr);
      && (t.Ok? ==> Contribution(w, cfg, sqrt) == Ok(Some(Entry(DateOf(w).value - cfg.startDay, Some(t.value)))))
      && (t.Err? ==> Contribution(w, cfg, sqrt) == Err(t.error))
  {
  }

  /**
   * A power workout of fewer than 30 samples has a NaN load, and the row
   * of its day becomes NaN.
   */
  lemma ShortPowerWorkoutIsNaN(ws: seq<Workout>, w: Workout, cfg: Config, sqrt: real -> real)
    requires AllWellFormed(ws + [w]) && Calibrated(cfg, sqrt)
    requires DailyLoads(ws, cfg, sqrt).Ok?
    requires 0 < |w.timestamp| < PowerLoad.NpWindow && w.power.Some?
    requires cfg.startDay <= DateOf(w).value <= cfg.endDay
    ensures AllWellFormed(ws)
    ensures DailyLoads(ws + [w], cfg, sqrt).Ok?
    ensures DailyLoads(ws + [w], cfg, sqrt).value[DateOf(w).value - cfg.startDay] == None
  {
    DailyLoadsAppend(ws, w, cfg, sqrt);
    PowerLoad.ShortWorkoutHasNoNp(Loaded(w).power.value);
  }

  /**
   * Two workouts on the same day sum: starting from the zero table, the row
   * of their day holds the sum of their loads and every other row stays 0.
   */
  lemma SameDaySums(a: Workout, b: Workout, cfg: Config, sqrt: real -> real, i: nat, x: real, y: real)
    requires WellFormed(a) && WellFormed(b) && Calibrated(cfg, sqrt)
    requires Contribution(a, cfg, sqrt) == Ok(Some(Entry(i, Some(x))))
    requires Contribution(b, cfg, sqrt) == Ok(Some(Entry(i, Some(y))))
    ensures AllWellFormed([a, b])
    ensures DailyLoads([a, b], cfg, sqrt).Ok?
    ensures forall k :: 0 <= k < Days(cfg) ==>
      DailyLoads([a, b], cfg, sqrt).value[k] == if k == i then Some(x + y) else Some(0.0)
  {
    var ea, eb := Some(Entry(i, Some(x))), Some(Entry(i, Some(y)));
    var first := AddLoad(ZeroTable(cfg), ea);
    AppendAdds([], a, cfg, sqrt, ZeroTable(cfg), ea);
    assert [] + [a] == [a];
    AppendAdds([a], b, cfg, sqrt, first, eb);
    assert [a] + [b] == [a, b];
    TwoLoadsOnOneDay(cfg, i, x, y);
  }

  /** Adding x and then y to row i of the zero table leaves x + y there and 0 elsewhere. */
  lemma TwoLoadsOnOneDay(cfg: Config, i: nat, x: real, y: real)
    requires i < Days(cfg)
    ensures var t := AddLoad(AddLoad(ZeroTable(cfg), Some(Entry(i, Some(x)))), Some(Entry(i, Some(y))));
      forall k :: 0 <= k < Days(cfg) ==> t[k] == if k == i then Some(x + y) else Some(0.0)
  {
  }

  /** A workout that contributes `e` to the table `t` of the workouts before it adds `e` to `t`. */
  lemma AppendAdds(ws: seq<Workout>, w: Workout, cfg: Config, sqrt: real -> real, t: seq<Option<real>>, e: Option<Entry>)
    requires AllWellFormed(ws) && WellFormed(w) && Calibrated(cfg, sqrt)
    requires DailyLoads(ws, cfg, sqrt) == Ok(t)
    requires Contribution(w, cfg, sqrt) == Ok(e)
    ensures AllWellFormed(ws + [w])
    ensures e.Some? ==> e.value.index < |t|
    ensures DailyLoads(ws + [w], cfg, sqrt) == Ok(AddLoad(t, e))
  {
    DailyLoadsAppend(ws, w, cfg, sqrt);
  }


  /**
   * Two workouts dated the first day of a three-day range, with loads 40 and
   * 60, give the table [100, 0, 0].
   */
  lemma TwoWorkoutsExample(a: Workout, b: Workout, cfg: Config, sqrt: real -> real)
    requires WellFormed(a) && WellFormed(b) && Calibrated(cfg, sqrt)
    requires cfg.endDay == cfg.startDay + 2
    requires Contribution(a, cfg, sqrt) == Ok(Some(Entry(0, Some(40.0))))
    requires Contribution(b, cfg, sqrt) == Ok(Some(Entry(0, Some(60.0))))
    ensures AllWellFormed([a, b])
    ensures DailyLoads([a, b], cfg, sqrt) == Ok([Some(100.0), Some(0.0), Some(0.0)])
  {
    SameDaySums(a, b, cfg, sqrt, 0, 40.0, 60.0);
    var t := DailyLoads([a, b], cfg, sqrt).value;
    assert t == [t[0], t[1], t[2]];
  }

  /** Two tables that agree on success and, when both succeed, on contents. */
  predicate SameOutcome(r1: Result<seq<Option<real>>, Error>, r2: Result<seq<Option<real>>, Error>)
  {
    (r1.Ok? <==> r2.Ok?) && (r1.Ok? ==> r1.value == r2.value)
  }

  lemma StepSame(r1: Result<seq<Option<real>>, Error>, r2: Result<seq<Option<real>>, Error>,
                 w: Workout, cfg: Config, sqrt: real -> real)
    requires WellFormed(w) && Calibrated(cfg, sqrt)
    requires r1.Ok? ==> |r1.value| == Days(cfg)
    requires r2.Ok? ==> |r2.value| == Days(cfg)
    requires SameOutcome(r1, r2)
    ensures SameOutcome(Step(r1, w, cfg, sqrt), Step(r2, w, cfg, sqrt))
  {
  }

  /** Adding two loads in either order gives the same table. */
  lemma AddLoadCommutes(t: seq<Option<real>>, ca: Option<Entry>, cb: Option<Entry>)
    requires ca.Some? ==> ca.value.index < |t|
    requires cb.Some? ==> cb.value.index < |t|
    ensures AddLoad(AddLoad(t, ca), cb) == AddLoad(AddLoad(t, cb), ca)
  {
    var ab, ba := AddLoad(AddLoad(t, ca), cb), AddLoad(AddLoad(t, cb), ca);
    forall i | 0 <= i < |t| ensures ab[i] == ba[i] {
    }
  }

  /** Processing two workouts in either order gives the same outcome. */
  lemma StepCommutes(r: Result<seq<Option<real>>, Error>, a: Workout, b: Workout, cfg: Config, sqrt: real -> real)
    requires WellFormed(a) && WellFormed(b) && Calibrated(cfg, sqrt)
    requires r.Ok? ==> |r.value| == Days(cfg)
    ensures SameOutcome(Step(Step(r, a, cfg, sqrt), b, cfg, sqrt), Step(Step(r, b, cfg, sqrt), a, cfg, sqrt))
  {
    var ca, cb := Contribution(a, cfg, sqrt), Contribution(b, cfg, sqrt);
    if r.Ok? && ca.Ok? && cb.Ok? {
      AddLoadCommutes(r.value, ca.value, cb.value);
    }
  }

  /** Moving one workout to the end of the sequence does not change the outcome. */
  lemma {:induction false} MoveToEnd(front: seq<Workout>, x: Workout, back: seq<Workout>, cfg: Config, sqrt: real -> real)
    requires AllWellFormed(front + [x] + back) && Calibrated(cfg, sqrt)
    ensures AllWellFormed(front + back)
    ensures SameOutcome(DailyLoads(front + [x] + back, cfg, sqrt),
                        Step(DailyLoads(front + back, cfg, sqrt), x, cfg, sqrt))
    decreases |back|
  {
    var all := front + [x] + back;
    if back == [] {
      assert all == front + [x];
      assert front + back == front;
      DailyLoadsAppend(front, x, cfg, sqrt);
    } else {
      var y := back[|back| - 1];
      var back' := back[..|back| - 1];
      assert all == (front + [x] + back') + [y];
      assert front + back == (front + back') + [y];
      MoveToEnd(front, x, back', cfg, sqrt);
      DailyLoadsAppend(front + [x] + back', y, cfg, sqrt);
      DailyLoadsAppend(front + back', y, cfg, sqrt);
      var r := DailyLoads(front + back', cfg, sqrt);
      StepSame(DailyLoads(front + [x] + back', cfg, sqrt), Step(r, x, cfg, sqrt), y, cfg, sqrt);
      StepCommutes(r, x, y, cfg, sqrt);
    }
  }

  /** Taking the same element out of two equal multisets leaves equal multisets. */
  lemma MultisetRemove(rest: seq<Workout>, x: Workout, front: seq<Workout>, back: seq<Workout>)
    requires multiset(rest + [x]) == multiset(front + [x] + back)
    ensures multiset(rest) == multiset(front + back)
  {
    assert multiset(rest + [x]) == multiset(rest) + multiset([x]);
    assert multiset(front + [x] + back) == multiset(front + [x]) + multiset(back);
    assert multiset(front + [x]) == multiset(front) + multiset([x]);
    assert multiset(front + back) == multiset(front) + multiset(back);
    forall y ensures multiset(rest)[y] == multiset(front + back)[y] {
      assert (multiset(rest) + multiset([x]))[y] == (multiset(front + back) + multiset([x]))[y];
    }
  }

  /**
   * The final table does not depend on the order of the workouts: any
   * reordering fails exactly when the original does and otherwise yields the
   * same table.
   */
  lemma {:induction false} OrderIndependent(ws: seq<Workout>, ws': seq<Workout>, cfg: Config, sqrt: real -> real)
    requires AllWellFormed(ws) && AllWellFormed(ws') && Calibrated(cfg, sqrt)
    requires multiset(ws) == multiset(ws')
    ensures SameOutcome(DailyLoads(ws, cfg, sqrt), DailyLoads(ws', cfg, sqrt))
    decreases |ws|
  {
    if ws == [] {
      assert |ws'| == |multiset(ws')| == 0;
    } else {
      var x := ws[|ws| - 1];
      var rest := ws[..|ws| - 1];
      assert ws == rest + [x];
      assert x in multiset(ws');
      var k :| 0 <= k < |ws'| && ws'[k] == x;
      var front, back := ws'[..k], ws'[k + 1..];
      assert ws' == front + [x] + back;
      MultisetRemove(rest, x, front, back);
      MoveToEnd(front, x, back, cfg, sqrt);
      OrderIndependent(rest, front + back, cfg, sqrt);
      DailyLoadsAppend(rest, x, cfg, sqrt);
      StepSame(DailyLoads(rest, cfg, sqrt), DailyLoads(front + back, cfg, sqrt), x, cfg, sqrt);
    }
  }
}
