/**
 * The tracked-element list and `destroy(elem)`'s
 * `this.elements.splice(this.elements.indexOf(elem), 1)` (index.js:184),
 * with JavaScript's `indexOf` and `splice` semantics.
 */
module Tracked {

  /** `Array.prototype.indexOf`: the first index holding x, or -1. */
  function IndexOf<T(==)>(s: seq<T>, x: T): (r: int)
    ensures -1 <= r < |s|
    ensures r == -1 <==> x !in s
    ensures r >= 0 ==> s[r] == x && x !in s[..r]
    decreases |s|
  {
    if |s| == 0 then -1
    else if s[0] == x then 0
    else
      var k := IndexOf(s[1..], x);
      assert k >= 0 ==> s[..k + 1] == [s[0]] + s[1..][..k];
      if k == -1 then -1 else k + 1
  }

  /**
   * `Array.prototype.splice(start, 1)` as a value: a negative start counts from
   * the end, a start past the end is clamped; one element goes, if there is one.
   */
  function SpliceOne<T>(s: seq<T>, start: int): seq<T>
  {
    var k := if start < 0 then (if |s| + start < 0 then 0 else |s| + start)
             else (if start > |s| then |s| else start);
    if k < |s| then s[..k] + s[k + 1..] else s
  }

  /** `destroy(elem)` on the list. */
  function RemoveTracked<T(==)>(s: seq<T>, x: T): seq<T>
  {
    SpliceOne(s, IndexOf(s, x))
  }

  /** A tracked element: its first occurrence goes, and nothing else. */
  lemma RemovePresent<T>(s: seq<T>, x: T)
    requires x in s
    ensures var i := IndexOf(s, x);
            RemoveTracked(s, x) == s[..i] + s[i + 1..]
    ensures |RemoveTracked(s, x)| == |s| - 1
    ensures multiset(RemoveTracked(s, x)) == multiset(s) - multiset{x}
  {
    var i := IndexOf(s, x);
    var front, back := s[..i], s[i + 1..];
    assert 0 <= i < |s|;
    assert RemoveTracked(s, x) == SpliceOne(s, i) == front + back;
    assert s == front + [x] + back;
    assert multiset(s) == multiset(front + [x] + back);
    assert multiset(front + [x] + back) == multiset(front) + multiset{x} + multiset(back);
    assert multiset(front + back) == multiset(front) + multiset(back);
  }

  /** An element that is not tracked: `indexOf` is -1, so the last element goes. */
  lemma RemoveAbsent<T>(s: seq<T>, x: T)
    requires x !in s
    ensures RemoveTracked(s, x) == if |s| == 0 then s else s[..|s| - 1]
  {
  }

  /** Concretely: destroying an untracked element drops the last tracked one. */
  lemma RemoveAbsentDropsLast()
    ensures RemoveTracked([1, 2, 3], 7) == [1, 2]
  {
    RemoveAbsent([1, 2, 3], 7);
  }

  predicate Distinct<T(==)>(s: seq<T>)
  {
    forall i, j :: 0 <= i < j < |s| ==> s[i] != s[j]
  }

  /** Removing one element keeps a list free of repetitions. */
  lemma SpliceKeepsDistinct<T>(s: seq<T>, start: int)
    requires Distinct(s)
    ensures Distinct(SpliceOne(s, start))
    ensures multiset(SpliceOne(s, start)) <= multiset(s)
  {
    var k := if start < 0 then (if |s| + start < 0 then 0 else |s| + start)
             else (if start > |s| then |s| else start);
    if k < |s| {
      var r := s[..k] + s[k + 1..];
      forall i, j | 0 <= i < j < |r|
        ensures r[i] != r[j]
      {
        var i' := if i < k then i else i + 1;
        var j' := if j < k then j else j + 1;
        assert r[i] == s[i'] && r[j] == s[j'];
      }
      assert s == s[..k] + [s[k]] + s[k + 1..];
      assert multiset(s) == multiset(s[..k]) + multiset{s[k]} + multiset(s[k + 1..]);
    }
  }
}
