/** Order-preserving selection from a sequence, stated through the positions
    of the selected elements. */
module Sequences {

  /** Every index moved one place right. */
  function Shift(xs: seq<nat>): (r: seq<nat>)
    ensures |r| == |xs|
    ensures forall k :: 0 <= k < |xs| ==> r[k] == xs[k] + 1
  {
    seq(|xs|, k requires 0 <= k < |xs| => xs[k] + 1)
  }

  /** The positions of `t` seen from one element further left are the
      positions of a sequence `s` with `s[1..] == t`. */
  lemma ShiftPositions<T>(s: seq<T>, p: T -> bool, rest: seq<nat>)
    requires |s| > 0
    requires forall k :: 0 <= k < |rest| ==> rest[k] < |s| - 1 && p(s[1..][rest[k]])
    requires forall k, l :: 0 <= k < l < |rest| ==> rest[k] < rest[l]
    requires forall i :: 0 <= i < |s| - 1 && p(s[1..][i]) ==> i in rest
    ensures forall k :: 0 <= k < |Shift(rest)| ==> 0 < Shift(rest)[k] < |s| && p(s[Shift(rest)[k]])
    ensures forall k, l :: 0 <= k < l < |Shift(rest)| ==> Shift(rest)[k] < Shift(rest)[l]
    ensures forall i :: 1 <= i < |s| && p(s[i]) ==> i in Shift(rest)
  {
    var shifted := Shift(rest);
    forall k | 0 <= k < |shifted|
      ensures 0 < shifted[k] < |s| && p(s[shifted[k]])
    {
      assert s[shifted[k]] == s[1..][rest[k]];
    }
    forall i | 1 <= i < |s| && p(s[i])
      ensures i in shifted
    {
      assert s[i] == s[1..][i - 1];
      assert i - 1 in rest;
      var k :| 0 <= k < |rest| && rest[k] == i - 1;
      assert shifted[k] == i;
    }
  }

  /** The indices `i` of `s` with `p(s[i])`, in increasing order. */
  function Positions<T>(s: seq<T>, p: T -> bool): (r: seq<nat>)
    ensures forall k :: 0 <= k < |r| ==> r[k] < |s| && p(s[r[k]])
    ensures forall k, l :: 0 <= k < l < |r| ==> r[k] < r[l]
    ensures forall i :: 0 <= i < |s| && p(s[i]) ==> i in r
    decreases |s|
  {
    if |s| == 0 then []
    else
      var rest := Positions(s[1..], p);
      ShiftPositions(s, p, rest);
      var shifted := Shift(rest);
      if p(s[0]) then
        PrependFirst(s, p, shifted);
        [0] + shifted
      else
        shifted
  }

  /** Adding the first index in front of the positions found in the rest. */
  lemma PrependFirst<T>(s: seq<T>, p: T -> bool, shifted: seq<nat>)
    requires |s| > 0 && p(s[0])
    requires forall k :: 0 <= k < |shifted| ==> 0 < shifted[k] < |s| && p(s[shifted[k]])
    requires forall k, l :: 0 <= k < l < |shifted| ==> shifted[k] < shifted[l]
    requires forall i :: 1 <= i < |s| && p(s[i]) ==> i in shifted
    ensures var r := [0] + shifted;
            && (forall k :: 0 <= k < |r| ==> r[k] < |s| && p(s[r[k]]))
            && (forall k, l :: 0 <= k < l < |r| ==> r[k] < r[l])
            && (forall i :: 0 <= i < |s| && p(s[i]) ==> i in r)
  {
    var r := [0] + shifted;
    assert forall k :: 1 <= k < |r| ==> r[k] == shifted[k - 1];
  }

  /** One step of `Positions`: the first index if selected, then the
      positions of the rest moved one place right. */
  lemma PositionsCons<T>(s: seq<T>, p: T -> bool)
    requires |s| > 0
    ensures Positions(s, p) == (if p(s[0]) then [0] else []) + Shift(Positions(s[1..], p))
  {
  }

  /** The elements `x` of `s` with `p(x)`, in order. */
  function Filter<T>(s: seq<T>, p: T -> bool): (r: seq<T>)
    ensures |r| <= |s|
    ensures forall x :: x in r ==> x in s && p(x)
  {
    if |s| == 0 then []
    else
      assert forall x :: x in s[1..] ==> x in s;
      (if p(s[0]) then [s[0]] else []) + Filter(s[1..], p)
  }

  /** `Filter` keeps exactly the elements at `Positions`, in order. */
  lemma {:induction false} FilterAtPositions<T>(s: seq<T>, p: T -> bool)
    ensures |Filter(s, p)| == |Positions(s, p)|
    ensures forall k :: 0 <= k < |Filter(s, p)| ==> Filter(s, p)[k] == s[Positions(s, p)[k]]
  {
    if |s| > 0 {
      FilterAtPositions(s[1..], p);
      PositionsCons(s, p);
      var rest := Filter(s[1..], p);
      var tailIdx := Positions(s[1..], p);
      var n := if p(s[0]) then 1 else 0;
      forall k | 0 <= k < |Filter(s, p)|
        ensures Filter(s, p)[k] == s[Positions(s, p)[k]]
      {
        if k >= n {
          assert Filter(s, p)[k] == rest[k - n] == s[1..][tailIdx[k - n]];
          assert Positions(s, p)[k] == tailIdx[k - n] + 1;
        }
      }
    }
  }
}
