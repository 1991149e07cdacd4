/**
 * Sample repair of one workout column (`load_workout`): the column is
 * forward-filled and then back-filled, in place, as pandas'
 * `fillna(method='ffill')` and `fillna(method='backfill')` do.
 */
module Repair {
  import opened Series

  /** The most recent present entry of `s`, or NaN when there is none. */
  function LastPresent(s: seq<Option<real>>): (last: Option<real>)
  {
    if s == [] then None
    else if s[|s| - 1].Some? then s[|s| - 1]
    else LastPresent(s[..|s| - 1])
  }

  /** The earliest present entry of `s`, or NaN when there is none. */
  function FirstPresent(s: seq<Option<real>>): (first: Option<real>)
  {
    if s == [] then None
    else if s[0].Some? then s[0]
    else FirstPresent(s[1..])
  }

  /**
   * `ffill`: each entry holds the last present value at or before it; a
   * present entry stays as it is and a missing first entry stays missing.
   */
  function ForwardFilled(col: seq<Option<real>>): (r: seq<Option<real>>)
    ensures |r| == |col|
    ensures forall i :: 0 <= i < |col| && col[i].Some? ==> r[i] == col[i]
    ensures |col| > 0 && col[0].None? ==> r[0] == None
  {
    LastPresentSteps(col);
    seq(|col|, i requires 0 <= i < |col| => LastPresent(col[..i + 1]))
  }

  /**
   * `backfill`: each entry holds the first present value at or after it; a
   * present entry stays as it is and a missing last entry stays missing.
   */
  function BackFilled(col: seq<Option<real>>): (r: seq<Option<real>>)
    ensures |r| == |col|
    ensures forall i :: 0 <= i < |col| && col[i].Some? ==> r[i] == col[i]
    ensures |col| > 0 && col[|col| - 1].None? ==> r[|col| - 1] == None
  {
    FirstPresentSteps(col);
    seq(|col|, i requires 0 <= i < |col| => FirstPresent(col[i..]))
  }

  /** The repair `load_workout` applies to every column; it never changes a present value. */
  function Repaired(col: seq<Option<real>>): (r: seq<Option<real>>)
    ensures |r| == |col|
    ensures forall i :: 0 <= i < |col| && col[i].Some? ==> r[i] == col[i]
  {
    BackFilled(ForwardFilled(col))
  }

  /** Forward fill gives a missing entry the filled value of the entry before it. */
  lemma ForwardFillStep(col: seq<Option<real>>, i: nat)
    requires 0 < i < |col| && col[i].None?
    ensures ForwardFilled(col)[i] == ForwardFilled(col)[i - 1]
  {
    LastPresentSteps(col);
  }

  /** Back fill gives a missing entry the filled value of the entry after it. */
  lemma BackFillStep(col: seq<Option<real>>, i: nat)
    requires i + 1 < |col| && col[i].None?
    ensures BackFilled(col)[i] == BackFilled(col)[i + 1]
  {
    FirstPresentSteps(col);
  }

  lemma LastPresentSteps(col: seq<Option<real>>)
    ensures forall i :: 0 <= i < |col| && col[i].Some? ==> LastPresent(col[..i + 1]) == col[i]
    ensures forall i :: 0 < i < |col| && col[i].None? ==> LastPresent(col[..i + 1]) == LastPresent(col[..i])
    ensures |col| > 0 && col[0].None? ==> LastPresent(col[..1]) == None
  {
    if |col| > 0 {
      assert col[..1][..0] == [];
    }
    forall i | 0 <= i < |col|
      ensures col[..i + 1][..i] == col[..i] && col[..i + 1][i] == col[i]
    {
    }
  }

  lemma FirstPresentSteps(col: seq<Option<real>>)
    ensures forall i :: 0 <= i < |col| && col[i].Some? ==> FirstPresent(col[i..]) == col[i]
    ensures forall i :: 0 <= i < |col| && col[i].None? ==> FirstPresent(col[i..]) == FirstPresent(col[i + 1..])
  {
    forall i | 0 <= i < |col|
      ensures col[i..][1..] == col[i + 1..] && col[i..][0] == col[i]
    {
    }
  }

  /** `fillna(method='ffill', inplace=True)` on one column. */
  method ForwardFill(a: array<Option<real>>)
    modifies a
    ensures a[..] == ForwardFilled(old(a[..]))
  {
    ghost var col := a[..];
    var last: Option<real> := None;
    for i := 0 to a.Length
      invariant a[i..] == col[i..]
      invariant a[..i] == ForwardFilled(col)[..i]
      invariant last == LastPresent(col[..i])
    {
      assert col[..i + 1][..i] == col[..i];
      if a[i].Some? {
        last := a[i];
      } else {
        a[i] := last;
      }
      assert a[..i + 1] == a[..i] + [a[i]];
    }
  }

  /** `fillna(method='backfill', inplace=True)` on one column. */
  method BackFill(a: array<Option<real>>)
    modifies a
    ensures a[..] == BackFilled(old(a[..]))
  {
    ghost var col := a[..];
    var next: Option<real> := None;
    var i := a.Length;
    while i > 0
      invariant 0 <= i <= a.Length
      invariant a[..i] == col[..i]
      invariant a[i..] == BackFilled(col)[i..]
      invariant next == FirstPresent(col[i..])
    {
      i := i - 1;
      assert col[i..][1..] == col[i + 1..];
      if a[i].Some? {
        next := a[i];
      } else {
        a[i] := next;
      }
      assert a[i..] == [a[i]] + a[i + 1..];
    }
  }

  /** The fill pass of `load_workout` on one column. */
  method RepairColumn(a: array<Option<real>>)
    modifies a
    ensures a[..] == Repaired(old(a[..]))
  {
    ForwardFill(a);
    BackFill(a);
  }

  lemma {:induction false} LastPresentIsPresent(s: seq<Option<real>>)
    ensures LastPresent(s).Some? <==> exists k :: 0 <= k < |s| && s[k].Some?
  {
    if s != [] && s[|s| - 1].None? {
      var t := s[..|s| - 1];
      LastPresentIsPresent(t);
      assert forall k :: 0 <= k < |t| ==> t[k] == s[k];
    }
  }

  lemma {:induction false} FirstPresentIsPresent(s: seq<Option<real>>)
    ensures FirstPresent(s).Some? <==> exists k :: 0 <= k < |s| && s[k].Some?
  {
    if s != [] && s[0].None? {
      FirstPresentIsPresent(s[1..]);
      assert forall k :: 1 <= k < |s| ==> s[k] == s[1..][k - 1];
    }
  }

  /** The last present entry is the one after which only NaN follows. */
  lemma {:induction false} LastPresentAt(s: seq<Option<real>>, j: nat)
    requires j < |s| && s[j].Some?
    requires forall k :: j < k < |s| ==> s[k].None?
    ensures LastPresent(s) == s[j]
  {
    if j < |s| - 1 {
      LastPresentAt(s[..|s| - 1], j);
    }
  }

  /** The first present entry is the one before which only NaN comes. */
  lemma {:induction false} FirstPresentAt(s: seq<Option<real>>, j: nat)
    requires j < |s| && s[j].Some?
    requires forall k :: 0 <= k < j ==> s[k].None?
    ensures FirstPresent(s) == s[j]
  {
    if 0 < j {
      FirstPresentAt(s[1..], j - 1);
    }
  }

  /**
   * Forward fill sets an entry to the nearest present value at or before it:
   * when `col[j]` is present and every entry after it up to `i` is missing,
   * entry `i` becomes `col[j]`.
   */
  lemma ForwardFillNearest(col: seq<Option<real>>, j: nat, i: nat)
    requires j <= i < |col| && col[j].Some?
    requires forall k :: j < k <= i ==> col[k].None?
    ensures ForwardFilled(col)[i] == col[j]
  {
    LastPresentAt(col[..i + 1], j);
  }

  /** Forward fill leaves an entry missing when nothing before it is present. */
  lemma ForwardFillLeadingGap(col: seq<Option<real>>, i: nat)
    requires i < |col|
    requires forall k :: 0 <= k <= i ==> col[k].None?
    ensures ForwardFilled(col)[i] == None
  {
    LastPresentIsPresent(col[..i + 1]);
  }

  /**
   * After the forward fill, the back fill changes only the leading run of
   * missing entries, each to the first present value of the column; from the
   * first present entry on, the column is what the forward fill made it.
   */
  lemma RepairLeadingRun(col: seq<Option<real>>, p: nat)
    requires p < |col| && col[p].Some?
    requires forall k :: 0 <= k < p ==> col[k].None?
    ensures forall i :: 0 <= i < p ==> Repaired(col)[i] == col[p]
    ensures forall i :: p <= i < |col| ==> Repaired(col)[i] == ForwardFilled(col)[i]
  {
    var ff := ForwardFilled(col);
    forall i | 0 <= i < |col|
      ensures ff[i].Some? <==> p <= i
    {
      LastPresentIsPresent(col[..i + 1]);
      assert i >= p ==> col[..i + 1][p].Some?;
    }
    ForwardFillNearest(col, p, p);
    forall i | 0 <= i < p
      ensures Repaired(col)[i] == col[p]
    {
      FirstPresentAt(ff[i..], p - i);
    }
  }

  /**
   * After repair, a column with at least one present entry has no missing
   * entry left, and an entirely missing column stays entirely missing.
   */
  lemma RepairComplete(col: seq<Option<real>>)
    ensures (exists k :: 0 <= k < |col| && col[k].Some?) ==>
              forall i :: 0 <= i < |col| ==> Repaired(col)[i].Some?
    ensures (forall k :: 0 <= k < |col| ==> col[k].None?) ==>
              forall i :: 0 <= i < |col| ==> Repaired(col)[i].None?
  {
    var ff := ForwardFilled(col);
    forall i | 0 <= i < |col|
      ensures ff[i].Some? <==> exists k :: 0 <= k <= i && col[k].Some?
    {
      LastPresentIsPresent(col[..i + 1]);
      assert forall k :: 0 <= k <= i ==> col[..i + 1][k] == col[k];
    }
    forall i | 0 <= i < |col|
      ensures Repaired(col)[i].Some? <==> exists k :: i <= k < |col| && ff[k].Some?
    {
      FirstPresentIsPresent(ff[i..]);
      assert forall k :: i <= k < |col| ==> ff[i..][k - i] == ff[k];
    }
    if exists k :: 0 <= k < |col| && col[k].Some? {
      var k :| 0 <= k < |col| && col[k].Some?;
      assert ff[|col| - 1].Some?;
    }
  }

  /** Repairing an already complete column returns it unchanged. */
  lemma RepairCompleteUnchanged(col: seq<Option<real>>)
    requires forall k :: 0 <= k < |col| ==> col[k].Some?
    ensures Repaired(col) == col
  {
  }

  /** Repair is idempotent. */
  lemma RepairIdempotent(col: seq<Option<real>>)
    ensures Repaired(Repaired(col)) == Repaired(col)
  {
    RepairComplete(col);
    var r := Repaired(col);
    if exists k :: 0 <= k < |col| && col[k].Some? {
      RepairCompleteUnchanged(r);
    } else {
      RepairComplete(r);
      assert Repaired(r) == r;
    }
  }
}
