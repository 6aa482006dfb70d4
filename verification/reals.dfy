/** Sums, maxima and first-index arg-maxima over sequences of rewards. */
module Reals {

  /** Sum of a sequence, accumulated from the left. */
  function Sum(s: seq<real>): real
  {
    if |s| == 0 then 0.0 else Sum(s[..|s| - 1]) + s[|s| - 1]
  }

  /** Sum of a sequence of naturals. */
  function SumNat(s: seq<nat>): nat
  {
    if |s| == 0 then 0 else SumNat(s[..|s| - 1]) + s[|s| - 1]
  }

  /** The largest element of a non-empty sequence (Python's `max`). */
  function Max(s: seq<real>): (m: real)
    requires |s| > 0
    ensures forall i :: 0 <= i < |s| ==> s[i] <= m
    ensures m in s
  {
    if |s| == 1 then s[0]
    else
      var front := s[..|s| - 1];
      var m := Max(front);
      assert forall i :: 0 <= i < |s| - 1 ==> s[i] == front[i];
      if m < s[|s| - 1] then s[|s| - 1] else m
  }

  /** The first position of `v` in `s` (Python's `list.index`). */
  function IndexOf(s: seq<real>, v: real): (i: nat)
    requires v in s
    ensures i < |s| && s[i] == v
    ensures forall j :: 0 <= j < i ==> s[j] != v
  {
    if s[0] == v then 0 else 1 + IndexOf(s[1..], v)
  }

  /** `s.index(max(s))`: the lowest position holding a maximal element. */
  function FirstArgMax(s: seq<real>): (i: nat)
    requires |s| > 0
    ensures i < |s| && s[i] == Max(s)
    ensures forall j :: 0 <= j < |s| ==> s[j] <= s[i]
    ensures forall j :: 0 <= j < i ==> s[j] < s[i]
  {
    IndexOf(s, Max(s))
  }

  /** The maximum and the first arg-maximum are pinned down by their
      properties: any index with them is `FirstArgMax`. */
  lemma FirstArgMaxUnique(s: seq<real>, k: nat)
    requires k < |s|
    requires forall j :: 0 <= j < |s| ==> s[j] <= s[k]
    requires forall j :: 0 <= j < k ==> s[j] < s[k]
    ensures FirstArgMax(s) == k
    ensures Max(s) == s[k]
  {
  }

  /** A sequence of zeros sums to zero. */
  lemma {:induction false} SumNatZeros(n: nat)
    ensures SumNat(seq(n, _ => 0)) == 0
  {
    if n > 0 {
      assert seq(n, _ => 0)[..n - 1] == seq(n - 1, _ => 0);
      SumNatZeros(n - 1);
    }
  }

  /** Adding one to a single entry adds one to the sum. */
  lemma {:induction false} SumNatIncrement(s: seq<nat>, i: nat)
    requires i < |s|
    ensures SumNat(s[i := s[i] + 1]) == SumNat(s) + 1
  {
    var t := s[i := s[i] + 1];
    if i == |s| - 1 {
      assert t[..|t| - 1] == s[..|s| - 1];
    } else {
      assert t[..|t| - 1] == s[..|s| - 1][i := s[i] + 1];
      SumNatIncrement(s[..|s| - 1], i);
    }
  }
}
