/**
 * Column values as pandas sees them. A column entry is either a number or
 * NaN; `None` plays the part of NaN throughout the model (a missing sensor
 * sample, an undefined rolling-window value, a NaN training load).
 * Reductions skip NaN as pandas' `mean` and `rolling(...).mean()` do.
 */
module Series {

  datatype Option<+T> = None | Some(value: T)

  datatype Result<+T, +E> = Ok(value: T) | Err(error: E)

  /** Sum of a sequence of reals, left to right. */
  function Sum(xs: seq<real>): (total: real)
  {
    if xs == [] then 0.0 else xs[0] + Sum(xs[1..])
  }

  /** The non-NaN entries of a column, in order: what a skipna reduction sees. */
  function Present(s: seq<Option<real>>): (vs: seq<real>)
    ensures |vs| <= |s|
  {
    if s == [] then []
    else (if s[0].Some? then [s[0].value] else []) + Present(s[1..])
  }

  /** A column with every entry present. */
  function Lift(xs: seq<real>): (s: seq<Option<real>>)
    ensures |s| == |xs|
    ensures forall i :: 0 <= i < |xs| ==> s[i] == Some(xs[i])
  {
    seq(|xs|, i requires 0 <= i < |xs| => Some(xs[i]))
  }

  /**
   * `Series.mean()` with pandas' default skipna: NaN when nothing is present,
   * otherwise the value that, taken once per present entry, gives their sum.
   */
  function Mean(s: seq<Option<real>>): (m: Option<real>)
    ensures m.Some? <==> Present(s) != []
    ensures m.Some? ==> m.value * |Present(s)| as real == Sum(Present(s))
  {
    var vs := Present(s);
    if |vs| == 0 then None else Some(Sum(vs) / |vs| as real)
  }

  /** Start of the trailing window of `window` entries that ends at `i`. */
  function WindowStart(window: nat, i: nat): (lo: nat)
    requires 0 < window
    ensures lo <= i && i + 1 - lo <= window
    ensures i + 1 >= window ==> i + 1 - lo == window
  {
    if i + 1 >= window then i + 1 - window else 0
  }

  /**
   * `s.rolling(window, min_periods=minPeriods).mean()` at position `i`: the
   * mean of the present values among the last `window` entries up to and
   * including `i`, or NaN when fewer than `minPeriods` of them are present.
   */
  function RollingMean(s: seq<Option<real>>, window: nat, minPeriods: nat, i: nat): (r: Option<real>)
    requires 0 < window && i < |s|
    ensures var vs := Present(s[WindowStart(window, i)..i + 1]);
      && (r.Some? <==> minPeriods <= |vs| && 0 < |vs|)
      && (r.Some? ==> r.value * |vs| as real == Sum(vs))
  {
    var w := s[WindowStart(window, i)..i + 1];
    if |Present(w)| < minPeriods then None else Mean(w)
  }

  /** Addition of two column entries: NaN absorbs. */
  function Add(a: Option<real>, b: Option<real>): (r: Option<real>)
    ensures r.Some? <==> a.Some? && b.Some?
    ensures r.Some? ==> r.value == a.value + b.value
  {
    if a.Some? && b.Some? then Some(a.value + b.value) else None
  }

  /** Subtraction of two column entries: NaN absorbs. */
  function Sub(a: Option<real>, b: Option<real>): (r: Option<real>)
    ensures r.Some? <==> a.Some? && b.Some?
    ensures r.Some? ==> r.value == a.value - b.value
  {
    if a.Some? && b.Some? then Some(a.value - b.value) else None
  }

  /** Each value lies in [lo, hi], so the sum lies in [n*lo, n*hi]. */
  lemma {:induction false} SumBounds(xs: seq<real>, lo: real, hi: real)
    requires forall k :: 0 <= k < |xs| ==> lo <= xs[k] <= hi
    ensures |xs| as real * lo <= Sum(xs) <= |xs| as real * hi
  {
    if xs != [] {
      SumBounds(xs[1..], lo, hi);
    }
  }

  lemma {:induction false} SumNonNegative(xs: seq<real>)
    requires forall k :: 0 <= k < |xs| ==> 0.0 <= xs[k]
    ensures 0.0 <= Sum(xs)
  {
    if xs != [] {
      SumNonNegative(xs[1..]);
    }
  }

  /** The sum of n copies of c is n*c. */
  lemma {:induction false} SumConstant(xs: seq<real>, c: real)
    requires forall k :: 0 <= k < |xs| ==> xs[k] == c
    ensures Sum(xs) == |xs| as real * c
  {
    if xs != [] {
      SumConstant(xs[1..], c);
    }
  }

  /** Every present value of a column is one of its entries, and vice versa. */
  lemma {:induction false} PresentMembers(s: seq<Option<real>>)
    ensures forall x :: x in Present(s) <==> Some(x) in s
  {
    if s != [] {
      PresentMembers(s[1..]);
      assert s == [s[0]] + s[1..];
    }
  }

  /** Each present value comes from some entry of the column. */
  lemma {:induction false} PresentFrom(s: seq<Option<real>>, k: nat)
    requires k < |Present(s)|
    ensures exists j :: 0 <= j < |s| && s[j] == Some(Present(s)[k])
  {
    if s[0].Some? && k == 0 {
      assert s[0] == Some(Present(s)[0]);
    } else {
      var k' := if s[0].Some? then k - 1 else k;
      PresentFrom(s[1..], k');
      var j :| 0 <= j < |s[1..]| && s[1..][j] == Some(Present(s[1..])[k']);
      assert s[j + 1] == Some(Present(s)[k]);
    }
  }

  /** Skipping NaN removes nothing exactly when nothing is NaN. */
  lemma {:induction false} PresentAll(s: seq<Option<real>>)
    ensures |Present(s)| == |s| <==> forall k :: 0 <= k < |s| ==> s[k].Some?
  {
    if s != [] {
      PresentAll(s[1..]);
      assert forall k :: 1 <= k < |s| ==> s[k] == s[1..][k - 1];
    }
  }

  /** A complete column loses nothing to skipna. */
  lemma {:induction false} PresentLift(xs: seq<real>)
    ensures Present(Lift(xs)) == xs
  {
    if xs != [] {
      assert Lift(xs)[1..] == Lift(xs[1..]);
      PresentLift(xs[1..]);
    }
  }

  /** The mean is NaN exactly when every entry is NaN. */
  lemma MeanDefined(s: seq<Option<real>>)
    ensures Mean(s).Some? <==> exists k :: 0 <= k < |s| && s[k].Some?
  {
    PresentMembers(s);
    if Mean(s).Some? {
      var x := Present(s)[0];
      assert x in Present(s);
      var k :| 0 <= k < |s| && s[k] == Some(x);
    }
    if exists k :: 0 <= k < |s| && s[k].Some? {
      var k :| 0 <= k < |s| && s[k].Some?;
      var x := s[k].value;
      assert Some(x) in s;
      assert x in Present(s);
    }
  }

  /** The skipna mean lies between any bounds of the present values. */
  lemma MeanBounds(s: seq<Option<real>>, lo: real, hi: real)
    requires forall k :: 0 <= k < |s| && s[k].Some? ==> lo <= s[k].value <= hi
    ensures Mean(s).Some? ==> lo <= Mean(s).value <= hi
  {
    var vs := Present(s);
    forall k | 0 <= k < |vs| ensures lo <= vs[k] <= hi {
      PresentFrom(s, k);
    }
    SumBounds(vs, lo, hi);
    if |vs| > 0 {
      QuotientBounds(Sum(vs), |vs| as real, lo, hi);
    }
  }

  lemma QuotientBounds(a: real, n: real, lo: real, hi: real)
    requires 0.0 < n && n * lo <= a <= n * hi
    ensures lo <= a / n <= hi
  {
    assert a / n * n == a;
  }

  /** The skipna mean of non-negative values is non-negative. */
  lemma MeanNonNegative(s: seq<Option<real>>)
    requires forall k :: 0 <= k < |s| && s[k].Some? ==> 0.0 <= s[k].value
    ensures Mean(s).Some? ==> 0.0 <= Mean(s).value
  {
    var vs := Present(s);
    forall k | 0 <= k < |vs| ensures 0.0 <= vs[k] {
      PresentFrom(s, k);
    }
    SumNonNegative(vs);
  }

  /** The mean of a column of one repeated present value is that value. */
  lemma MeanConstant(s: seq<Option<real>>, c: real)
    requires forall k :: 0 <= k < |s| ==> s[k] == None || s[k] == Some(c)
    requires exists k :: 0 <= k < |s| && s[k] == Some(c)
    ensures Mean(s) == Some(c)
  {
    MeanDefined(s);
    MeanBounds(s, c, c);
  }
}
