/**
 * Element positions: the 0-based indices that an `enumerate` loop pushes,
 * or that `Itertools::positions` yields, for the elements satisfying a
 * predicate.
 */
module ElementPositions {

  /** `s` lists its elements in strictly increasing order. */
  predicate StrictlyIncreasing(s: seq<nat>)
  {
    forall i, j :: 0 <= i < j < |s| ==> s[i] < s[j]
  }

  /** No element of `s` occurs twice. */
  predicate NoDuplicates(s: seq<nat>)
  {
    forall i, j :: 0 <= i < j < |s| ==> s[i] != s[j]
  }

  /**
   * The positions `i` of `s` with `p(s[i])`, in increasing order. Defined
   * from the back, the way a loop over `s.iter().enumerate()` pushes them.
   */
  function Positions<T>(s: seq<T>, p: T -> bool): (r: seq<nat>)
    ensures forall i :: i in r <==> 0 <= i < |s| && p(s[i])
    ensures StrictlyIncreasing(r)
    ensures forall k :: 0 <= k < |r| ==> r[k] < |s|
    decreases |s|
  {
    if |s| == 0 then []
    else
      var last := |s| - 1;
      Positions(s[..last], p) + (if p(s[last]) then [last] else [])
  }

  lemma IncreasingHasNoDuplicates(s: seq<nat>)
    requires StrictlyIncreasing(s)
    ensures NoDuplicates(s)
  {
  }

  /** A strictly increasing list is determined by the set of its elements. */
  lemma {:induction false} IncreasingUnique(s: seq<nat>, t: seq<nat>)
    requires StrictlyIncreasing(s) && StrictlyIncreasing(t)
    requires forall x :: x in s <==> x in t
    ensures s == t
    decreases |s|
  {
    if s != [] && t != [] {
      // the last elements are both the maximum of the common set
      var a, b := s[|s| - 1], t[|t| - 1];
      assert a in t;
      assert b in s;
      assert a == b by {
        assert forall k :: 0 <= k < |t| ==> t[k] <= b;
        assert forall k :: 0 <= k < |s| ==> s[k] <= a;
      }
      var s', t' := s[..|s| - 1], t[..|t| - 1];
      forall x ensures x in s' <==> x in t' {
        if x in s' {
          var k :| 0 <= k < |s'| && s'[k] == x;
          assert x < a by { assert s[k] < s[|s| - 1]; }
          assert x in t;
        }
        if x in t' {
          var k :| 0 <= k < |t'| && t'[k] == x;
          assert x < b by { assert t[k] < t[|t| - 1]; }
          assert x in s;
        }
      }
      IncreasingUnique(s', t');
      assert s == s' + [a];
      assert t == t' + [b];
    } else {
      FirstIsMember(s);
      FirstIsMember(t);
    }
  }

  /** A non-empty list holds its first element. */
  lemma FirstIsMember(s: seq<nat>)
    ensures s != [] ==> s[0] in s
  {
  }

  /**
   * Two sequences of the same length whose elements satisfy their
   * predicates at exactly the same places have the same positions.
   */
  lemma PositionsAgree<T, U>(s: seq<T>, p: T -> bool, t: seq<U>, q: U -> bool)
    requires |s| == |t|
    requires forall i :: 0 <= i < |s| ==> p(s[i]) == q(t[i])
    ensures Positions(s, p) == Positions(t, q)
  {
    IncreasingUnique(Positions(s, p), Positions(t, q));
  }

  /** There are no positions exactly when no element satisfies the predicate. */
  lemma PositionsEmptyIff<T>(s: seq<T>, p: T -> bool)
    ensures Positions(s, p) == [] <==> forall i :: 0 <= i < |s| ==> !p(s[i])
  {
    var r := Positions(s, p);
    if r != [] {
      assert r[0] in r;
    }
  }
}
