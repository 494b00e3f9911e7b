/**
 * The positional AND-merge shared by `check_all_nested_conditions` and
 * `merge_nested_condition_checkers`: every position reported by some
 * condition is tallied, and the point matches iff some position's tally
 * equals the number of conditions.
 */
module PositionalMerge {
  import opened ElementPositions

  /** All reported positions, one list after the other (`flat_map`). */
  function Flatten(lists: seq<seq<nat>>): seq<nat>
  {
    if |lists| == 0 then [] else Flatten(lists[..|lists| - 1]) + lists[|lists| - 1]
  }

  /** The tally map as a multiset: how often each position was reported. */
  function Tally(lists: seq<seq<nat>>): multiset<nat>
  {
    if |lists| == 0 then multiset{} else Tally(lists[..|lists| - 1]) + multiset(lists[|lists| - 1])
  }

  /**
   * The merge's verdict: some tallied position was counted once per
   * condition. With no conditions the tally is empty, so this is false.
   */
  predicate PositionalAnd(lists: seq<seq<nat>>)
  {
    exists p :: p in Tally(lists) && Tally(lists)[p] == |lists|
  }

  /** `p` is reported by every list. */
  predicate InAll(lists: seq<seq<nat>>, p: nat)
  {
    forall i :: 0 <= i < |lists| ==> p in lists[i]
  }

  /** The number of lists that report `p`. */
  function Containing(lists: seq<seq<nat>>, p: nat): nat
  {
    if |lists| == 0 then 0
    else Containing(lists[..|lists| - 1], p) + (if p in lists[|lists| - 1] then 1 else 0)
  }

  /** The counting map `counts` holds exactly the multiplicities of `tally`. */
  ghost predicate Counts(counts: map<nat, nat>, tally: multiset<nat>)
  {
    forall p :: (p in counts <==> p in tally) && (p in counts ==> counts[p] == tally[p])
  }

  /** `*matches.entry(m).or_insert(0) += 1` records one more occurrence of `m`. */
  lemma CountsInsert(counts: map<nat, nat>, tally: multiset<nat>, m: nat)
    requires Counts(counts, tally)
    ensures Counts(counts[m := if m in counts then counts[m] + 1 else 1], tally + multiset{m})
  {
  }

  /** Extending a prefix by one element adds that element to its multiset. */
  lemma MultisetOfLongerPrefix(s: seq<nat>, k: nat)
    requires k < |s|
    ensures multiset(s[..k + 1]) == multiset(s[..k]) + multiset{s[k]}
  {
    assert s[..k + 1] == s[..k] + [s[k]];
  }

  /** The counting loop: every one of `paths` is recorded once more in the map. */
  method CountPaths(counts: map<nat, nat>, paths: seq<nat>, ghost tally: multiset<nat>) returns (updated: map<nat, nat>)
    requires Counts(counts, tally)
    ensures Counts(updated, tally + multiset(paths))
  {
    updated := counts;
    for k := 0 to |paths|
      invariant Counts(updated, tally + multiset(paths[..k]))
    {
      var m := paths[k];
      MultisetOfLongerPrefix(paths, k);
      CountsInsert(updated, tally + multiset(paths[..k]), m);
      updated := updated[m := if m in updated then updated[m] + 1 else 1];
    }
    assert paths[..|paths|] == paths;
  }

  /** Searching the counting map is searching the tally. */
  lemma CountsVerdict(counts: map<nat, nat>, tally: multiset<nat>, n: nat)
    requires Counts(counts, tally)
    ensures (exists p :: p in counts && counts[p] == n) <==> (exists p :: p in tally && tally[p] == n)
  {
  }

  /** Tallying one more list adds its positions. */
  lemma TallyPrefix(lists: seq<seq<nat>>, j: nat)
    requires j < |lists|
    ensures Tally(lists[..j + 1]) == Tally(lists[..j]) + multiset(lists[j])
  {
    assert lists[..j + 1][..j] == lists[..j];
  }

  lemma {:induction false} FlattenTally(lists: seq<seq<nat>>)
    ensures multiset(Flatten(lists)) == Tally(lists)
    decreases |lists|
  {
    if |lists| > 0 {
      FlattenTally(lists[..|lists| - 1]);
    }
  }

  lemma {:induction false} NoDuplicatesCount(l: seq<nat>, p: nat)
    requires NoDuplicates(l)
    ensures multiset(l)[p] == if p in l then 1 else 0
    decreases |l|
  {
    if |l| > 0 {
      var init := l[..|l| - 1];
      assert l == init + [l[|l| - 1]];
      assert NoDuplicates(init);
      NoDuplicatesCount(init, p);
      if p == l[|l| - 1] {
        assert p !in init;
      }
    }
  }

  /** Without duplicates inside a list, a tally counts the lists reporting `p`. */
  lemma {:induction false} TallyCountsLists(lists: seq<seq<nat>>, p: nat)
    requires forall i :: 0 <= i < |lists| ==> NoDuplicates(lists[i])
    ensures Tally(lists)[p] == Containing(lists, p)
    decreases |lists|
  {
    if |lists| > 0 {
      TallyCountsLists(lists[..|lists| - 1], p);
      NoDuplicatesCount(lists[|lists| - 1], p);
    }
  }

  lemma {:induction false} ContainingAll(lists: seq<seq<nat>>, p: nat)
    ensures Containing(lists, p) <= |lists|
    ensures Containing(lists, p) == |lists| <==> InAll(lists, p)
    decreases |lists|
  {
    if |lists| > 0 {
      var init := lists[..|lists| - 1];
      ContainingAll(init, p);
      if InAll(lists, p) {
        assert InAll(init, p);
      }
      if InAll(init, p) && p in lists[|lists| - 1] {
        assert forall i :: 0 <= i < |lists| - 1 ==> lists[i] == init[i];
      }
    }
  }

  /**
   * When no list repeats a position, the merge is set intersection: it
   * accepts iff there is at least one list and some position is in all.
   */
  lemma PositionalAndIsIntersection(lists: seq<seq<nat>>)
    requires forall i :: 0 <= i < |lists| ==> NoDuplicates(lists[i])
    ensures PositionalAnd(lists) <==> |lists| > 0 && exists p :: InAll(lists, p)
  {
    if PositionalAnd(lists) {
      var p :| p in Tally(lists) && Tally(lists)[p] == |lists|;
      TallyCountsLists(lists, p);
      ContainingAll(lists, p);
    }
    if |lists| > 0 && exists p :: InAll(lists, p) {
      var p :| InAll(lists, p);
      TallyCountsLists(lists, p);
      ContainingAll(lists, p);
      assert Tally(lists)[p] == |lists|;
    }
  }

  /** A condition that reports nothing defeats the whole merge. */
  lemma EmptyListDefeats(lists: seq<seq<nat>>, k: nat)
    requires forall i :: 0 <= i < |lists| ==> NoDuplicates(lists[i])
    requires k < |lists| && lists[k] == []
    ensures !PositionalAnd(lists)
  {
    PositionalAndIsIntersection(lists);
  }

  /**
   * The intersection reading needs duplicate-free lists: a condition that
   * reported the same position twice would stand in for a missing one.
   */
  lemma DuplicatesMimicIntersection()
    ensures PositionalAnd([[0, 0], []])
  {
    var lists: seq<seq<nat>> := [[0, 0], []];
    assert lists[..1][..0] == [];
    assert Tally(lists) == multiset{0, 0};
  }
}
