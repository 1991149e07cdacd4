/**
 * One workout as the decoded frame the load computation starts from:
 * the timestamp column and the optional `power` and `heart_rate` columns,
 * plus what `load_workout` and `get_date` derive from it.
 */
module Workouts {
  import opened Series
  import Repair

  /** Nanoseconds per second and per calendar day (pandas timestamps are in ns). */
  const NsPerSecond: int := 1_000_000_000
  const NsPerDay: int := 86_400 * NsPerSecond

  /** The exceptions that end a run of the script. */
  datatype Error =
    | NoSamples          // `workout_df['timestamp'][0]` on a frame without rows
    | InvalidZoneBins    // `pd.cut` refuses heart-rate bin edges that do not increase
    | UnzonedHeartRate   // `astype(int)` on a heart rate that fell in no bin

  /**
   * A workout frame. `timestamp` holds nanoseconds since the Unix epoch, one
   * per record; a column that no record carried is `None`, and inside a
   * column a missing sample is `None`.
   */
  datatype Workout = Workout(
    timestamp: seq<int>,
    power: Option<seq<Option<real>>>,
    heartRate: Option<seq<Option<real>>>)

  /** Every column of a frame has one entry per record. */
  predicate WellFormed(w: Workout)
  {
    && (w.power.Some? ==> |w.power.value| == |w.timestamp|)
    && (w.heartRate.Some? ==> |w.heartRate.value| == |w.timestamp|)
  }

  /** A column without gaps, or one without any value at all. */
  predicate Uniform(col: seq<Option<real>>)
  {
    || (forall k :: 0 <= k < |col| ==> col[k].Some?)
    || (forall k :: 0 <= k < |col| ==> col[k].None?)
  }

  function RepairedColumn(c: Option<seq<Option<real>>>): (r: Option<seq<Option<real>>>)
    ensures r.Some? <==> c.Some?
    ensures r.Some? ==> |r.value| == |c.value| && Uniform(r.value)
  {
    match c
    case None => None
    case Some(col) =>
      Repair.RepairComplete(col);
      Some(Repair.Repaired(col))
  }

  /**
   * The frame `load_workout` returns: every column forward- then back-filled.
   * The columns present stay present, keep their length, and come out either
   * complete or entirely missing.
   */
  function Loaded(w: Workout): (r: Workout)
    ensures r.timestamp == w.timestamp
    ensures r.power.Some? <==> w.power.Some?
    ensures r.heartRate.Some? <==> w.heartRate.Some?
    ensures WellFormed(w) ==> WellFormed(r)
    ensures r.power.Some? ==> Uniform(r.power.value)
    ensures r.heartRate.Some? ==> Uniform(r.heartRate.value)
  {
    Workout(w.timestamp, RepairedColumn(w.power), RepairedColumn(w.heartRate))
  }

  /**
   * `get_date`: the calendar day (days since the Unix epoch) of the first
   * sample; a frame without rows has no timestamp column and fails.
   */
  function DateOf(w: Workout): (r: Result<int, Error>)
    ensures r.Err? <==> |w.timestamp| == 0
    ensures r.Err? ==> r.error == NoSamples
    ensures r.Ok? ==> r.value * NsPerDay <= w.timestamp[0] < (r.value + 1) * NsPerDay
  {
    if |w.timestamp| == 0 then Err(NoSamples) else Ok(w.timestamp[0] / NsPerDay)
  }

  /**
   * Moving time: the span from the first to the last timestamp in whole
   * seconds, truncated toward zero as Python's `int` truncates.
   */
  function MovingTime(timestamp: seq<int>): (r: int)
    requires |timestamp| > 0
    ensures var span := timestamp[|timestamp| - 1] - timestamp[0];
      && (span >= 0 ==> 0 <= r && r * NsPerSecond <= span < (r + 1) * NsPerSecond)
      && (span < 0 ==> r <= 0 && (r - 1) * NsPerSecond < span <= r * NsPerSecond)
  {
    var span := timestamp[|timestamp| - 1] - timestamp[0];
    if span >= 0 then span / NsPerSecond else -((-span) / NsPerSecond)
  }
}
