/** The break-even locator `find_break_even_points` (app.py:22-25): take the
    sign of revenue minus cost at every grid point, and report the grid
    quantity at every index i whose sign differs from the sign at i + 1 (the
    left end of each change). `np.sign(0)` is 0, a sign of its own. */
module BreakEven {

  /** `np.sign` on one value. */
  function Sign(x: real): (s: int)
    ensures -1 <= s <= 1
    ensures s > 0 <==> x > 0.0
    ensures s < 0 <==> x < 0.0
  {
    if x > 0.0 then 1 else if x < 0.0 then -1 else 0
  }

  /** `TR - TC`, element-wise. */
  function Difference(tr: seq<real>, tc: seq<real>): (d: seq<real>)
    requires |tr| == |tc|
    ensures |d| == |tr|
    ensures forall i :: 0 <= i < |d| ==> d[i] == tr[i] - tc[i]
  {
    seq(|tr|, i requires 0 <= i < |tr| => tr[i] - tc[i])
  }

  /** A sign change between sample i and sample i + 1. */
  predicate ChangesAt(d: seq<real>, i: int) {
    0 <= i < |d| - 1 && Sign(d[i]) != Sign(d[i + 1])
  }

  /** `np.where(np.diff(np.sign(d)))[0]`: the indices of the sign changes,
      collected left to right. Every index reported is the left end of a
      change. */
  function SignChanges(d: seq<real>): (idx: seq<nat>)
    ensures forall k :: 0 <= k < |idx| ==> ChangesAt(d, idx[k])
  {
    if |d| < 2 then []
    else
      var prefix := d[..|d| - 1];
      var earlier := SignChanges(prefix);
      assert forall k :: 0 <= k < |earlier| ==> ChangesAt(d, earlier[k]) by {
        forall k | 0 <= k < |earlier| ensures ChangesAt(d, earlier[k]) {
          assert ChangesAt(prefix, earlier[k]);
        }
      }
      earlier + (if Sign(d[|d| - 2]) != Sign(d[|d| - 1]) then [|d| - 2] else [])
  }

  /** `Q_range[idx]`: numpy indexing by an index array. */
  function Gather(qRange: seq<real>, idx: seq<nat>): (qs: seq<real>)
    requires forall k :: 0 <= k < |idx| ==> idx[k] < |qRange|
    ensures |qs| == |idx|
    ensures forall k :: 0 <= k < |idx| ==> qs[k] == qRange[idx[k]]
  {
    seq(|idx|, k requires 0 <= k < |idx| => qRange[idx[k]])
  }

  /** `find_break_even_points(Q_range, TR, TC)`. */
  function FindBreakEvenPoints(qRange: seq<real>, tr: seq<real>, tc: seq<real>): (points: seq<real>)
    requires |tr| == |tc| == |qRange|
    ensures |points| <= if |qRange| == 0 then 0 else |qRange| - 1
    ensures forall k :: 0 <= k < |points| ==> points[k] in qRange[..|qRange| - 1]
  {
    SignChangesCount(Difference(tr, tc));
    Gather(qRange, SignChanges(Difference(tr, tc)))
  }

  /** Exactly the sign changes are reported: an index is in the result if and
      only if the sign differs between it and its right neighbour. */
  lemma {:induction false} SignChangesExact(d: seq<real>, i: int)
    ensures i in SignChanges(d) <==> ChangesAt(d, i)
  {
    if |d| >= 2 {
      var prefix := d[..|d| - 1];
      SignChangesExact(prefix, i);
      if 0 <= i < |d| - 2 {
        assert ChangesAt(prefix, i) <==> ChangesAt(d, i);
      }
    }
  }

  /** The indices are strictly increasing, so the result follows the grid. */
  lemma {:induction false} SignChangesIncreasing(d: seq<real>)
    ensures forall a, b :: 0 <= a < b < |SignChanges(d)| ==> SignChanges(d)[a] < SignChanges(d)[b]
  {
    if |d| >= 2 {
      var prefix := d[..|d| - 1];
      SignChangesIncreasing(prefix);
      var earlier := SignChanges(prefix);
      forall k | 0 <= k < |earlier| ensures earlier[k] < |d| - 2 {
        assert ChangesAt(prefix, earlier[k]);
      }
    }
  }

  /** There are at most n - 1 changes on n samples. */
  lemma {:induction false} SignChangesCount(d: seq<real>)
    ensures |SignChanges(d)| <= if |d| == 0 then 0 else |d| - 1
  {
    if |d| >= 2 {
      SignChangesCount(d[..|d| - 1]);
    }
  }

  /** No change is reported if and only if every sample has the sign of the
      first one (all positive, all negative, or all exactly zero). */
  lemma {:induction false} NoChangeIffConstantSign(d: seq<real>)
    requires |d| > 0
    ensures SignChanges(d) == [] <==> forall i :: 0 <= i < |d| ==> Sign(d[i]) == Sign(d[0])
  {
    if SignChanges(d) == [] {
      var i := 0;
      while i < |d| - 1
        invariant 0 <= i <= |d| - 1
        invariant forall j :: 0 <= j <= i ==> Sign(d[j]) == Sign(d[0])
      {
        SignChangesExact(d, i);
        i := i + 1;
      }
    } else {
      var i := SignChanges(d)[0];
      assert ChangesAt(d, i);
    }
  }

  /** A revenue curve that equals the cost curve everywhere has no break-even point. */
  lemma IdenticallyZeroHasNone(d: seq<real>)
    requires forall i :: 0 <= i < |d| ==> d[i] == 0.0
    ensures SignChanges(d) == []
  {
    if |d| > 0 {
      NoChangeIffConstantSign(d);
    }
  }

  /** Between any two samples of different sign there is a reported change. */
  lemma {:induction false} ChangeBetween(d: seq<real>, i: nat, j: nat)
    requires i < j < |d| && Sign(d[i]) != Sign(d[j])
    ensures exists k :: i <= k < j && k in SignChanges(d)
  {
    SignChangesExact(d, j - 1);
    if Sign(d[j - 1]) == Sign(d[j]) {
      ChangeBetween(d, i, j - 1);
    }
  }

  /** The sign(0) = 0 edge: a sample that is exactly zero between a positive
      and a negative sample (in either order) is reported twice, once at its
      left neighbour and once at itself, as consecutive results. */
  lemma ZeroSampleReportedTwice(d: seq<real>, i: nat)
    requires 0 < i < |d| - 1 && d[i] == 0.0
    requires (d[i - 1] > 0.0 && d[i + 1] < 0.0) || (d[i - 1] < 0.0 && d[i + 1] > 0.0)
    ensures exists k :: 0 <= k < |SignChanges(d)| - 1
                        && SignChanges(d)[k] == i - 1 && SignChanges(d)[k + 1] == i
  {
    var idx := SignChanges(d);
    SignChangesExact(d, i - 1);
    SignChangesExact(d, i);
    SignChangesIncreasing(d);
    var k :| 0 <= k < |idx| && idx[k] == i - 1;
    var m :| 0 <= m < |idx| && idx[m] == i;
    OrderOfIndices(idx, k, m);
    OrderOfIndices(idx, k, k + 1);
    MonotoneIndices(idx, k + 1, m);
  }

  /** In a strictly increasing sequence, a smaller value sits further left. */
  lemma OrderOfIndices(idx: seq<nat>, a: nat, b: nat)
    requires forall x, y :: 0 <= x < y < |idx| ==> idx[x] < idx[y]
    requires a < |idx| && b < |idx|
    ensures idx[a] < idx[b] <==> a < b
  {
  }

  lemma MonotoneIndices(idx: seq<nat>, a: nat, b: nat)
    requires forall x, y :: 0 <= x < y < |idx| ==> idx[x] < idx[y]
    requires a <= b < |idx|
    ensures idx[a] <= idx[b]
  {
  }

  /** A single crossing: when the difference keeps one sign on the samples
      before m and another sign from m on, the only change is at m - 1. */
  lemma SingleCrossing(d: seq<real>, m: nat)
    requires 0 < m < |d|
    requires forall i :: 0 <= i < m ==> Sign(d[i]) == Sign(d[0])
    requires forall i :: m <= i < |d| ==> Sign(d[i]) == Sign(d[m])
    requires Sign(d[0]) != Sign(d[m])
    ensures SignChanges(d) == [m - 1]
  {
    var idx := SignChanges(d);
    SignChangesExact(d, m - 1);
    SignChangesIncreasing(d);
    forall k | 0 <= k < |idx| ensures idx[k] == m - 1 {
      assert ChangesAt(d, idx[k]);
    }
    if |idx| > 1 {
      assert false;
    }
  }

  /** The reported quantities are Q_range at exactly the indices where the
      sign of revenue minus cost changes between neighbours, in grid order,
      and there are fewer of them than grid points. */
  lemma FindBreakEvenPointsSpec(qRange: seq<real>, tr: seq<real>, tc: seq<real>)
    requires |tr| == |tc| == |qRange|
    ensures var idx := SignChanges(Difference(tr, tc));
            var points := FindBreakEvenPoints(qRange, tr, tc);
            && |points| == |idx|
            && |points| <= (if |qRange| == 0 then 0 else |qRange| - 1)
            && (forall k :: 0 <= k < |idx| ==> points[k] == qRange[idx[k]])
            && (forall a, b :: 0 <= a < b < |idx| ==> idx[a] < idx[b])
            && (forall i :: i in idx <==> 0 <= i < |tr| - 1 && Sign(tr[i] - tc[i]) != Sign(tr[i + 1] - tc[i + 1]))
  {
    var d := Difference(tr, tc);
    SignChangesIncreasing(d);
    SignChangesCount(d);
    forall i ensures i in SignChanges(d) <==> 0 <= i < |tr| - 1 && Sign(tr[i] - tc[i]) != Sign(tr[i + 1] - tc[i + 1]) {
      SignChangesExact(d, i);
    }
  }

  /** The locator as a loop over neighbouring samples: it appends the left
      grid quantity of each sign change as it meets it. */
  method LocateBreakEven(qRange: seq<real>, tr: seq<real>, tc: seq<real>) returns (points: seq<real>)
    requires |tr| == |tc| == |qRange|
    ensures points == FindBreakEvenPoints(qRange, tr, tc)
  {
    ghost var d := Difference(tr, tc);
    points := [];
    if |tr| < 2 {
      return;
    }
    var j := 1;
    while j < |tr|
      invariant 1 <= j <= |tr|
      invariant points == Gather(qRange, SignChanges(d[..j]))
    {
      ghost var before := SignChanges(d[..j]);
      assert d[..j + 1][..j] == d[..j];
      if Sign(tr[j - 1] - tc[j - 1]) != Sign(tr[j] - tc[j]) {
        assert SignChanges(d[..j + 1]) == before + [j - 1];
        points := points + [qRange[j - 1]];
      } else {
        assert SignChanges(d[..j + 1]) == before;
      }
      j := j + 1;
    }
    assert d[..j] == d;
  }
}
