# Cycling training load and Performance Management Chart

This project models the training-load pipeline of `pmc.py`, a script that reads
a directory of cycling workouts and draws a Performance Management Chart. The
model follows the same steps as the script:

1. **Sample repair** (`load_workout`). Every column of a decoded workout is
   forward-filled and then back-filled in place. The model does this with
   two loops over an `array<Option<real>>`, where `None` is a missing sample
   (NaN).
2. **Per-workout load.**
   - The power-based Training Stress Score (`get_tss`) uses Normalized Power:
     a 30-sample rolling mean, raised to the fourth power, averaged over the
     defined positions and fourth-rooted. It then applies the Intensity
     Factor NP / FTP and the TSS formula.
   - The heart-rate-based score (`get_hr_tss`) puts each sample in one of ten
     zones bounded by fractions of the lactate threshold heart rate (LTHR).
     Zones are right-closed intervals `(lo, hi]`, as `pd.cut` makes them.
     The zones' hourly rates are summed and the sum is divided by 3600.
3. **Daily load table.** The table starts with one zero per day of an
   inclusive date range. Each workout is dated by its first sample
   (`get_date`) and skipped when that day is outside the range. Its load is
   then added to that day's row: the power load if the workout has a power
   column, else the heart-rate load if it has a heart-rate column, else
   nothing. The model is a method that fills an `array` in a loop. It is
   proved against a fold over the workouts.
4. **PMC columns.**
   - Chronic training load (CTL) is the 42-day trailing mean of the daily
     load.
   - Acute training load (ATL) is the 7-day trailing mean.
   - Both use a minimum of one observation.
   - Training stress balance (TSB) is CTL − ATL.

How the model represents the script's inputs and failures:

- **Missing values.** NaN is `None`. As in pandas, NaN + x is NaN, and a
  mean skips NaN and is NaN only when nothing is left.
- **Timestamps** are integer nanoseconds since the Unix epoch. Days are
  counted from the epoch.
- **Script constants as parameters.** FTP, LTHR and the date range are
  fields of `DailyLoad.Config` rather than constants: the script has 311 W,
  171 bpm, and 2019-01-01 to today.
- **Square root.** `np.sqrt` is a parameter `sqrt`, required to return the
  exact non-negative square root (`PowerLoad.IsSqrt`). Normalized Power is
  characterised as the non-negative real whose fourth power is the mean of
  the fourth powers.
- **Failures.** The exceptions the script raises become
  `Workouts.Error`, and the table loop stops at the first one:
  - a frame without rows has no first timestamp;
  - `pd.cut` rejects bin edges that do not increase (LTHR ≤ 0);
  - `astype(int)` rejects a heart rate that fell in no zone.

The code and its docstring disagree at three points, and the model follows
the code at each:

- **The Z4/Z5a edge.** The docstring puts it at 100% of LTHR (pmc.py:12-13),
  while the code uses 99% (pmc.py:102). The model uses 0.99.
- **The lower end.** The docstring's "Zone 1 low" is any heart rate below
  73% of LTHR (pmc.py:6). The code's first bin is (0, 0.73 × LTHR]
  (pmc.py:102-107), so a heart rate of 0 bpm or less falls in no zone and
  the run fails at `astype(int)` (pmc.py:108). `HeartRateLoad.Unzoned`
  states this.
- **The upper end.** The docstring's "Zone 5c" is any heart rate above 106%
  of LTHR (pmc.py:15). The code's last edge is 2 × LTHR, so a heart rate
  above it also falls in no zone and fails the run, again as
  `HeartRateLoad.Unzoned` states.

Two further consequences of the code are worth stating:

- **Values on an edge.** `pd.cut`'s bins are right-closed (pmc.py:103, 106),
  so a heart rate exactly on an edge falls in the lower zone
  (`HeartRateLoad.EdgeInLowerZone`). With LTHR = 171, the edges are 124.83,
  131.67, 138.51, 145.35, 152.19, 159.03, 169.29, 176.13 and 181.26 bpm.
- **Unzoned samples.** A heart rate in no zone gets a NaN zone, and
  `astype(int)` raises on it (pmc.py:108). The model fails with
  `UnzonedHeartRate`.

## Model

| member | source | states |
|---|---|---|
| Repair.ForwardFilled | pmc.py:64 | forward fill keeps every present entry and leaves a missing first entry missing |
| Repair.BackFilled | pmc.py:65 | back fill keeps every present entry and leaves a missing last entry missing |
| Repair.Repaired | pmc.py:64-65 | forward fill then back fill never changes a present entry |
| Repair.ForwardFill | pmc.py:64 | the array becomes the forward-filled column: every entry holds the last present value at or before it |
| Repair.BackFill | pmc.py:65 | the array becomes the back-filled column: every entry holds the first present value at or after it |
| Repair.RepairColumn | pmc.py:64-65 | the array becomes the column forward-filled and then back-filled |
| Repair.ForwardFillNearest | pmc.py:64 | forward fill sets each missing entry to the nearest present value before it |
| Repair.ForwardFillStep | pmc.py:64 | forward fill gives a missing entry the filled value of the entry before it |
| Repair.BackFillStep | pmc.py:65 | back fill gives a missing entry the filled value of the entry after it |
| Repair.ForwardFillLeadingGap | pmc.py:64 | forward fill leaves the leading run of missing entries missing |
| Repair.RepairLeadingRun | pmc.py:64-65 | back fill changes only the leading missing run, each entry of it to the first present value; every later entry is as forward fill left it |
| Repair.RepairComplete | pmc.py:64-65 | a column with at least one present value has no missing entry after repair; an all-missing column stays all-missing |
| Repair.RepairCompleteUnchanged | pmc.py:64-65 | a column without gaps is left unchanged |
| Repair.RepairIdempotent | pmc.py:64-65 | repairing twice is the same as repairing once |
| Workouts.Loaded | pmc.py:63-66 | the frame keeps its timestamps and which columns it has; each column keeps its length and comes out without gaps or entirely missing |
| Workouts.DateOf | pmc.py:75 | fails exactly on a frame without rows; otherwise the day returned contains the first timestamp |
| Workouts.MovingTime | pmc.py:90 | the span from the first to the last timestamp in whole seconds, truncated toward zero for either sign |
| Series.Mean | pmc.py:86 | the skipna mean is NaN exactly when no entry is present, and otherwise times the number of present entries gives their sum |
| Series.RollingMean | pmc.py:86 | a rolling mean is NaN exactly when its window holds fewer present entries than `min_periods` (or none), and otherwise times their number gives their sum |
| Series.Add | pmc.py:130-132 | the sum is NaN exactly when either operand is NaN, and otherwise the real sum |
| Series.Sub | pmc.py:141 | the difference is NaN exactly when either operand is NaN, and otherwise the real difference |
| PowerLoad.RollingPower | pmc.py:86 | one rolling-mean value per sample |
| PowerLoad.FourthPowers | pmc.py:86 | raising a column to the fourth power keeps NaN as NaN and gives each present value its fourth power, which is never negative |
| PowerLoad.MeanFourthPower | pmc.py:86 | the mean fourth power is NaN exactly when no 30-sample window value is defined, and is otherwise non-negative |
| PowerLoad.RollingPowerDefined | pmc.py:86 | a 30-sample window mean is defined exactly when the window is full and all its samples are present, so the first 29 positions are undefined |
| PowerLoad.ShortWorkoutHasNoNp | pmc.py:86 | fewer than 30 samples leave no defined window, so the mean fourth power is NaN |
| PowerLoad.NormalizedPower | pmc.py:86 | NP is defined exactly when the mean of the fourth powers of the defined window means is; then NP ≥ 0 and NP⁴ equals that mean |
| PowerLoad.ConstantPowerNp | pmc.py:86 | a constant power c held for at least 30 samples has NP = c |
| PowerLoad.IntensityFactor | pmc.py:88 | IF × FTP = NP |
| PowerLoad.PowerTss | pmc.py:88-92 | TSS is NaN exactly when NP is; otherwise it equals moving time × IF² / 36 and is non-negative for a non-negative moving time |
| PowerLoad.ThresholdHour | pmc.py:88-92 | one hour at NP = FTP scores 100 |
| PowerLoad.WorkoutPowerTss | pmc.py:79-93 | a workout's power TSS is defined exactly when its mean fourth power is |
| HeartRateLoad.RatesIncrease | pmc.py:106-107 | the zone rates do not decrease from Z1 low to Z5c |
| HeartRateLoad.SearchEdges | pmc.py:102-103 | the first scaled edge at or above the heart rate, as `searchsorted` finds it for right-closed bins |
| HeartRateLoad.Zone | pmc.py:102-105 | a zone, when there is one, is one of the ten |
| HeartRateLoad.ZoneMembership | pmc.py:102-107 | a heart rate h is in zone k exactly when edge k × LTHR < h ≤ edge k+1 × LTHR |
| HeartRateLoad.EdgeInLowerZone | pmc.py:102-107 | a heart rate exactly on an inner edge is in the zone below it |
| HeartRateLoad.Unzoned | pmc.py:102-107 | a heart rate gets no zone exactly when it is ≤ 0 or > 2 × LTHR |
| HeartRateLoad.ZoneMonotone | pmc.py:102-107 | the zone does not decrease as the heart rate rises |
| HeartRateLoad.Rate | pmc.py:106-107 | a sample has a rate exactly when it has a zone, and the rate is one of the ten zone rates, between 20 and 140 |
| HeartRateLoad.RateMonotone | pmc.py:106-107 | the rate lies in 20..140 and does not decrease as the heart rate rises |
| HeartRateLoad.RateColumn | pmc.py:106-108 | the rate column, when it converts to int, has one rate per sample |
| HeartRateLoad.RateColumnAt | pmc.py:106-108 | the rate column converts exactly when every sample is present and zoned, and then holds each sample's zone rate |
| HeartRateLoad.HrTss | pmc.py:96-110 | fails with InvalidZoneBins when LTHR ≤ 0, and otherwise only with UnzonedHeartRate |
| HeartRateLoad.HrTssDefined | pmc.py:102-109 | HR TSS is computed exactly when LTHR > 0 and every sample is present and in (0, 2 × LTHR] |
| HeartRateLoad.HrTssBounds | pmc.py:108-109 | n samples score between 20n/3600 and 140n/3600 |
| DailyLoad.Days | pmc.py:114 | the date range is empty exactly when end < start, and otherwise runs from the start day to the end day |
| DailyLoad.Contribution | pmc.py:124-135 | a load goes only to a row inside the table, the row of the day of the workout's first sample |
| DailyLoad.ZeroTable | pmc.py:114-118 | one entry per day of the inclusive range, each 0 |
| DailyLoad.AddLoad | pmc.py:130-132 | adds the load to the entry's row and leaves every other row unchanged |
| DailyLoad.Step | pmc.py:122-135 | one turn of the loop succeeds exactly when the run has not failed and the workout's load can be computed; the table keeps one row per day |
| DailyLoad.DailyLoads | pmc.py:114-135 | a successful run yields one row per day of the range |
| DailyLoad.DailyLoadTable | pmc.py:114-135 | the loop fails exactly when the fold fails, with the same error; otherwise the array holds the fold's table |
| DailyLoad.FailureIsFinal | pmc.py:122-135 | after the first failure, later workouts change nothing |
| DailyLoad.DailyLoadsAppend | pmc.py:122-135 | processing one more workout is one more loop step |
| DailyLoad.ProcessWorkout | pmc.py:125-132 | a workout adds its load to the row of its date only, and every other row is unchanged |
| DailyLoad.OutOfRangeSkipped | pmc.py:126-128 | a workout dated outside the range leaves the table unchanged and cannot fail the run |
| DailyLoad.NoLoadColumnsSkipped | pmc.py:133-135 | a workout with neither a power nor a heart-rate column leaves the table unchanged |
| DailyLoad.EmptyWorkoutFails | pmc.py:75 | a workout without rows fails the run |
| DailyLoad.PowerTakesPrecedence | pmc.py:129-132 | a workout with a power column dated in the range adds its power TSS to its day's row, and its heart-rate column does not affect what it contributes |
| DailyLoad.HeartRateWhenNoPower | pmc.py:129-132 | a workout with heart rate but no power, dated in the range, adds its heart-rate TSS to its day's row, or fails with that TSS's error |
| DailyLoad.ShortPowerWorkoutIsNaN | pmc.py:129-130 | a power workout of fewer than 30 samples turns its day's row into NaN |
| DailyLoad.SameDaySums | pmc.py:130-132 | two workouts on one day sum in that day's row; the other rows stay 0 |
| DailyLoad.TwoWorkoutsExample | pmc.py:114-132 | loads 40 and 60 on the first day of a three-day range give [100, 0, 0] |
| DailyLoad.StepCommutes | pmc.py:122-135 | two workouts processed in either order give the same outcome |
| DailyLoad.OrderIndependent | pmc.py:122-135 | any reordering of the workouts fails exactly when the original order does and otherwise gives the same table |
| Pmc.Ctl | pmc.py:139 | one CTL value per day |
| Pmc.Atl | pmc.py:140 | one ATL value per day |
| Pmc.Tsb | pmc.py:141 | one TSB value per day |
| Pmc.TrailingAverage | pmc.py:139-140 | with no NaN, a rolling mean with min_periods=1 is the plain average of the last `window` days, or of all days so far |
| Pmc.PmcOfCompleteTable | pmc.py:139-141 | CTL[i] is the mean of TSS[max(0,i−41)..i], ATL[i] the mean of TSS[max(0,i−6)..i], and TSB[i] = CTL[i] − ATL[i] |
| Pmc.PmcDefined | pmc.py:139-141 | CTL and ATL are NaN exactly when their whole window is NaN, so with no NaN all three columns are defined on every day |
| Pmc.PmcBounds | pmc.py:139-140 | with non-negative loads, CTL and ATL lie between 0 and the largest load of their window |
| Pmc.FirstWeekBalanced | pmc.py:139-141 | on the first 7 days CTL = ATL, so TSB = 0 |
| Pmc.SingleDay | pmc.py:139-141 | a one-day table with load T gives CTL = ATL = T and TSB = 0 |
| Pmc.OneHardDayThenRest | pmc.py:139-141 | loads [100, 0, 0, 0, 0, 0, 0] give CTL = ATL = 100/7 and TSB = 0 on day 7 |
| Pmc.SingleWorkoutSingleDay | pmc.py:114-141 | one workout with load T on a one-day range gives the table [T], CTL = ATL = T and TSB = 0 |

## Left out

- FIT decoding with `fitparse` and the `KeyError` retry loop (pmc.py:43-62) are left out. They are a foreign library and a busy wait. The model starts from the decoded columns.
- Directory listing, the `.fit` filter and the progress bar (pmc.py:122-124) are file-system I/O and are left out. The model takes the workouts as a sequence in listing order.
- `datetime.date.today()` (pmc.py:30) is a clock, so the end day is a parameter.
- Plotting and axis limits (pmc.py:138-156) are UI and are left out.
- The descriptive `hrZone` label column (pmc.py:103-105) is left out. Only the rate column feeds the load.
- `get_hr_tss` adds `hrZone` and `hrTSS` columns to the caller's frame in place. The model computes them as values, so it does not capture that side effect.
- Columns other than timestamp, power and heart rate are not modelled, because nothing reads them. The timestamp column is taken as present whenever the frame has rows, and every one of its entries as present, so the fill pass of `load_workout` (pmc.py:64-65) leaves it unchanged.
- `analyze.py` is left out. Its arithmetic repeats `get_tss` with the sample count as moving time, which `PowerLoad.PowerTss` covers by taking moving time as a parameter.
- Floating-point rounding is not modelled. Arithmetic is on exact reals, so the table's order independence holds exactly here, whereas float addition can differ in the last bits. The nanosecond-to-second division at pmc.py:90 is modelled as exact integer truncation.
- The actual square root is not computed: `sqrt` is a parameter assumed exact.
- Only a positive FTP is modelled (a precondition). The script's FTP is the constant 311.
- Pmc.Ctl: its own contract states only the length; the 42-day mean it computes is stated by Pmc.TrailingAverage, Pmc.PmcOfCompleteTable, Pmc.PmcDefined and Pmc.PmcBounds.
- Pmc.Atl: its own contract states only the length; the 7-day mean is stated by the same lemmas.
- Pmc.Tsb: its own contract states only the length; TSB = CTL − ATL is stated by Pmc.PmcOfCompleteTable and Pmc.FirstWeekBalanced.
- PowerLoad.RollingPower: its own contract states only the length; when a window value is defined is stated by PowerLoad.RollingPowerDefined.
- HeartRateLoad.RateColumn: its own contract states only the length; the per-sample rates are stated by HeartRateLoad.RateColumnAt.
- DailyLoad.DailyLoads: its own contract states only the length; what each workout does to the table is stated by the lemmas that follow it.
