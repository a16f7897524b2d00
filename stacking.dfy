/** The stacking-value allocator shared by both desktops: the next z is one
    more than the largest z in use, or 1 on an empty desktop. */
module Stacking {

  /** `Math.max(...zs)` on a non-empty list. */
  function Max(zs: seq<int>): (m: int)
    requires |zs| > 0
    ensures forall i :: 0 <= i < |zs| ==> zs[i] <= m
    ensures exists i :: 0 <= i < |zs| && zs[i] == m
  {
    if |zs| == 1 then zs[0]
    else
      var rest := Max(zs[1..]);
      assert forall i :: 1 <= i < |zs| ==> zs[i] == zs[1..][i - 1];
      if zs[0] < rest then rest else zs[0]
  }

  /** `wins.length ? Math.max(...zs) + 1 : 1`: strictly above every z in use,
      and exactly one above the highest of them. */
  function TopZ(zs: seq<int>): (t: int)
    ensures |zs| == 0 ==> t == 1
    ensures forall i :: 0 <= i < |zs| ==> zs[i] < t
    ensures |zs| > 0 ==> exists i :: 0 <= i < |zs| && zs[i] == t - 1
  {
    if |zs| > 0 then Max(zs) + 1 else 1
  }

  /** On positive stacking values the allocator's answer is positive too. */
  lemma TopZPositive(zs: seq<int>)
    requires forall i :: 0 <= i < |zs| ==> zs[i] >= 1
    ensures TopZ(zs) >= 1
  {
  }

  /** Three windows stacked at 1, 2 and 3, in any order: the next value is 4. */
  lemma TopZAfterThree(zs: seq<int>)
    requires |zs| == 3 && multiset(zs) == multiset{1, 2, 3}
    ensures TopZ(zs) == 4
  {
    assert forall i :: 0 <= i < 3 ==> zs[i] in multiset(zs);
    assert 3 in multiset(zs);
    var k :| 0 <= k < 3 && zs[k] == 3;
  }
}
