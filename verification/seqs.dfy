/** Sequence helpers that stand in for the array operations the game uses (`splice`, reverse scans). */
module Seqs {

  datatype Option<+T> = None | Some(value: T)

  /** `s` with the element at index `i` taken out, as `Array.prototype.splice(i, 1)` leaves it. */
  function RemoveAt<T>(s: seq<T>, i: nat): (r: seq<T>)
    requires i < |s|
    ensures |r| == |s| - 1
    ensures forall k :: 0 <= k < i ==> r[k] == s[k]
    ensures forall k :: i <= k < |r| ==> r[k] == s[k + 1]
    ensures multiset(r) + multiset{s[i]} == multiset(s)
  {
    assert s == s[..i] + [s[i]] + s[i + 1..];
    s[..i] + s[i + 1..]
  }

  /**
   * A scan from the last index down to the first that stops at the first element satisfying `p`:
   * the highest index whose element satisfies `p`, or None when no element does.
   */
  function LastWhere<T>(s: seq<T>, p: T -> bool): (r: Option<nat>)
    ensures r.Some? ==> r.value < |s| && p(s[r.value])
    ensures r.Some? ==> forall k :: r.value < k < |s| ==> !p(s[k])
    ensures r.None? ==> forall k :: 0 <= k < |s| ==> !p(s[k])
  {
    if |s| == 0 then None
    else if p(s[|s| - 1]) then Some(|s| - 1)
    else LastWhere(s[..|s| - 1], p)
  }

  /** The elements of `s` whose mask bit is set, in their order in `s`. */
  function Keep<T>(s: seq<T>, mask: seq<bool>): (r: seq<T>)
    requires |mask| == |s|
    ensures |r| <= |s|
  {
    if |s| == 0 then [] else (if mask[0] then [s[0]] else []) + Keep(s[1..], mask[1..])
  }

  /** `a` is `b` with some elements left out and the others in their order. */
  ghost predicate IsSubsequence<T>(a: seq<T>, b: seq<T>)
  {
    exists mask: seq<bool> :: |mask| == |b| && Keep(b, mask) == a
  }

  lemma {:induction false} KeepAppend<T>(s1: seq<T>, m1: seq<bool>, s2: seq<T>, m2: seq<bool>)
    requires |m1| == |s1| && |m2| == |s2|
    ensures Keep(s1 + s2, m1 + m2) == Keep(s1, m1) + Keep(s2, m2)
    decreases |s1|
  {
    if |s1| > 0 {
      assert (s1 + s2)[1..] == s1[1..] + s2 && (m1 + m2)[1..] == m1[1..] + m2;
      KeepAppend(s1[1..], m1[1..], s2, m2);
    } else {
      assert s1 + s2 == s2 && m1 + m2 == m2;
    }
  }

  /** Every sequence is a subsequence of itself. */
  lemma SubsequenceOfSelf<T>(s: seq<T>)
    ensures IsSubsequence(s, s)
  {
    var all := seq(|s|, _ => true);
    KeepAll(s, all);
  }

  lemma {:induction false} KeepAll<T>(s: seq<T>, all: seq<bool>)
    requires |all| == |s| && forall k :: 0 <= k < |all| ==> all[k]
    ensures Keep(s, all) == s
    decreases |s|
  {
    if |s| > 0 {
      KeepAll(s[1..], all[1..]);
    }
  }

  /** Appending the same element to both sides, and keeping it or not, keeps a subsequence one. */
  lemma SubsequenceSnoc<T>(a: seq<T>, b: seq<T>, x: T, kept: bool)
    requires IsSubsequence(a, b)
    ensures IsSubsequence(a + (if kept then [x] else []), b + [x])
  {
    var mask :| |mask| == |b| && Keep(b, mask) == a;
    KeepAppend(b, mask, [x], [kept]);
    assert Keep([x], [kept]) == (if kept then [x] else []);
  }

  /** A subsequence of `s` with one element spliced out is a subsequence of `s`. */
  lemma SubsequenceOfRemoveAt<T>(a: seq<T>, s: seq<T>, i: nat)
    requires i < |s| && IsSubsequence(a, RemoveAt(s, i))
    ensures IsSubsequence(a, s)
  {
    var mask :| |mask| == |s| - 1 && Keep(RemoveAt(s, i), mask) == a;
    var lo, hi := s[..i], s[i + 1..];
    assert RemoveAt(s, i) == lo + hi && mask == mask[..i] + mask[i..];
    KeepAppend(lo, mask[..i], hi, mask[i..]);
    KeepAppend(lo, mask[..i], [s[i]], [false]);
    KeepAppend(lo + [s[i]], mask[..i] + [false], hi, mask[i..]);
    assert lo + [s[i]] + hi == s;
    assert Keep(s, mask[..i] + [false] + mask[i..]) == a;
  }
}
