/** `Array.prototype.filter` on sequences, with the facts that say it keeps
    order and drops exactly the rejected elements. */
module Seqs {

  /** The elements of `s` that `keep` accepts, in their original order. */
  function Filter<T>(s: seq<T>, keep: T -> bool): (r: seq<T>)
    ensures |r| <= |s|
    ensures forall i :: 0 <= i < |r| ==> r[i] in s && keep(r[i])
    ensures forall i :: 0 <= i < |s| && keep(s[i]) ==> s[i] in r
  {
    if s == [] then [] else (if keep(s[0]) then [s[0]] else []) + Filter(s[1..], keep)
  }

  /** Filtering distributes over concatenation, so the relative order of the
      kept elements is the order they had in the input. */
  lemma {:induction false} FilterAppend<T>(a: seq<T>, b: seq<T>, keep: T -> bool)
    ensures Filter(a + b, keep) == Filter(a, keep) + Filter(b, keep)
  {
    if a == [] {
      assert a + b == b;
    } else {
      var head := if keep(a[0]) then [a[0]] else [];
      assert (a + b)[0] == a[0];
      assert (a + b)[1..] == a[1..] + b;
      FilterAppend(a[1..], b, keep);
      calc {
        Filter(a + b, keep);
        head + Filter(a[1..] + b, keep);
        head + (Filter(a[1..], keep) + Filter(b, keep));
        (head + Filter(a[1..], keep)) + Filter(b, keep);
        Filter(a, keep) + Filter(b, keep);
      }
    }
  }

  /** When every element is accepted, filtering changes nothing. */
  lemma {:induction false} FilterKeepsAll<T>(s: seq<T>, keep: T -> bool)
    requires forall i :: 0 <= i < |s| ==> keep(s[i])
    ensures Filter(s, keep) == s
  {
    if s != [] {
      assert keep(s[0]);
      FilterKeepsAll(s[1..], keep);
    }
  }

  /** When exactly the element at `k` is rejected, filtering removes that one
      element and keeps the others in place. */
  lemma {:induction false} FilterDropsOne<T>(s: seq<T>, k: nat, keep: T -> bool)
    requires k < |s|
    requires !keep(s[k])
    requires forall i :: 0 <= i < |s| && i != k ==> keep(s[i])
    ensures Filter(s, keep) == s[..k] + s[k + 1..]
  {
    var tail := s[1..];
    assert forall i :: 0 <= i < |tail| ==> tail[i] == s[i + 1];
    if k == 0 {
      FilterKeepsAll(tail, keep);
      assert Filter(s, keep) == [] + tail;
    } else {
      FilterDropsOne(tail, k - 1, keep);
      assert tail[..k - 1] + tail[k..] == s[1..k] + s[k + 1..];
      assert Filter(s, keep) == [s[0]] + (s[1..k] + s[k + 1..]);
      assert [s[0]] + s[1..k] == s[..k];
    }
  }

  /** When every element is rejected, nothing is left. */
  lemma {:induction false} FilterDropsAll<T>(s: seq<T>, keep: T -> bool)
    requires forall i :: 0 <= i < |s| ==> !keep(s[i])
    ensures Filter(s, keep) == []
  {
    if s != [] {
      assert !keep(s[0]);
      FilterDropsAll(s[1..], keep);
    }
  }

  /** When exactly the element at `k` is accepted, it alone is left. */
  lemma {:induction false} FilterKeepsOne<T>(s: seq<T>, k: nat, keep: T -> bool)
    requires k < |s|
    requires keep(s[k])
    requires forall i :: 0 <= i < |s| && i != k ==> !keep(s[i])
    ensures Filter(s, keep) == [s[k]]
  {
    var tail := s[1..];
    assert forall i :: 0 <= i < |tail| ==> tail[i] == s[i + 1];
    if k == 0 {
      FilterDropsAll(tail, keep);
      assert Filter(s, keep) == [s[0]] + [];
    } else {
      FilterKeepsOne(tail, k - 1, keep);
      assert Filter(s, keep) == [] + [tail[k - 1]];
    }
  }
}
