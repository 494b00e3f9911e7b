/**
 * The document-scan side of nested matching: the fallback position
 * finders for `IsEmpty`, `IsNull` and field conditions, and the positional
 * AND over the `must` conditions of a nested filter.
 */
module NestedQueryChecker {
  import opened Wrappers
  import opened ElementPositions
  import opened Types
  import opened PositionalMerge

  // ---------------------------------------------------------------------
  // Element predicates and the position lists they induce
  // ---------------------------------------------------------------------

  /** `IsEmpty` holds of an element that is null or an empty array. */
  predicate IsEmptyElement(v: Value)
  {
    v.Null? || (v.Array? && v.items == [])
  }

  /** `IsNull` holds of an array element that is null or an array holding a null. */
  predicate IsNullElement(v: Value)
  {
    v.Null? || (v.Array? && exists x :: x in v.items && x.Null?)
  }

  /** A sub-predicate that is not set contributes `false` (`map_or(false, ...)`). */
  predicate SubPredicateHolds<C>(sub: Option<C>, check: (C, Value) -> bool, v: Value)
  {
    sub.Some? && check(sub.value, v)
  }

  /** A field condition holds of an element iff ANY of its sub-predicates does. */
  predicate FieldConditionHolds(leaves: LeafPredicates, fc: FieldCondition, v: Value)
  {
    || SubPredicateHolds(fc.matchCondition, leaves.matchCheck, v)
    || SubPredicateHolds(fc.range, leaves.rangeCheck, v)
    || SubPredicateHolds(fc.geoRadius, leaves.geoRadiusCheck, v)
    || SubPredicateHolds(fc.geoBoundingBox, leaves.geoBoundingBoxCheck, v)
    || SubPredicateHolds(fc.valuesCount, leaves.valuesCountCheck, v)
  }

  function IsEmptyIndices(values: seq<Value>): seq<nat>
  {
    Positions(values, IsEmptyElement)
  }

  function IsNullIndices(fieldValues: MultiValue): seq<nat>
  {
    match fieldValues
    case Single(None) => [0]
    case Single(Some(v)) => if v.Null? then [0] else []
    case Multiple(vs) => Positions(vs, IsNullElement)
  }

  function FieldIndices(leaves: LeafPredicates, fc: FieldCondition, values: seq<Value>): seq<nat>
  {
    Positions(values, v => FieldConditionHolds(leaves, fc, v))
  }

  /** The values a condition on `key` enumerates inside the nested path. */
  function FieldValues(payload: Payload, nestedPath: string, key: string): MultiValue
  {
    payload.getValue(AddSegment(nestedPath, key))
  }

  /** The positions one nested-scope condition reports (the `nested_checker` closure). */
  function NestedConditionIndices(nestedPath: string, payload: Payload, leaves: LeafPredicates, c: Condition): seq<nat>
    requires ValidInNestedScope(c)
  {
    match c
    case Field(fc) => FieldIndices(leaves, fc, FieldValues(payload, nestedPath, fc.key).Values())
    case IsEmpty(e) => IsEmptyIndices(FieldValues(payload, nestedPath, e.isEmpty.key).Values())
    case IsNull(n) => IsNullIndices(FieldValues(payload, nestedPath, n.isNull.key))
  }

  /** The closure `check_nested_filter` hands to the merge; other conditions are unreachable. */
  function NestedChecker(nestedPath: string, payload: Payload, leaves: LeafPredicates): Condition --> seq<nat>
  {
    c requires ValidInNestedScope(c) => NestedConditionIndices(nestedPath, payload, leaves, c)
  }

  /** The position lists of `conditions`, one per condition, in order. */
  function ConditionLists(checker: Condition --> seq<nat>, conditions: seq<Condition>): (lists: seq<seq<nat>>)
    requires forall c :: c in conditions ==> checker.requires(c)
    ensures |lists| == |conditions|
    ensures forall i :: 0 <= i < |conditions| ==> lists[i] == checker(conditions[i])
  {
    seq(|conditions|, i requires 0 <= i < |conditions| => checker(conditions[i]))
  }

  /** What `check_all_nested_conditions` decides for a `must` list. */
  predicate AllNestedConditionsHold(checker: Condition --> seq<nat>, must: Option<seq<Condition>>)
    requires must.Some? ==> forall c :: c in must.value ==> checker.requires(c)
  {
    match must
    case None => true
    case Some(conditions) => PositionalAnd(ConditionLists(checker, conditions))
  }

  /** Every position list a nested-scope condition reports is strictly increasing. */
  lemma NestedConditionIndicesIncreasing(nestedPath: string, payload: Payload, leaves: LeafPredicates, c: Condition)
    requires ValidInNestedScope(c)
    ensures StrictlyIncreasing(NestedConditionIndices(nestedPath, payload, leaves, c))
  {
  }

  /**
   * An absent `must` list matches unconditionally, while a present but empty
   * one never does: its tally is empty.
   */
  lemma AbsentAndEmptyMust(checker: Condition --> seq<nat>)
    ensures AllNestedConditionsHold(checker, None)
    ensures !AllNestedConditionsHold(checker, Some([]))
  {
    assert ConditionLists(checker, []) == [];
  }

  // ---------------------------------------------------------------------
  // The merge over the `must` conditions
  // ---------------------------------------------------------------------

  /** Tallies every reported position and looks for one reported by all conditions. */
  method CheckAllNestedConditions(checker: Condition --> seq<nat>, must: Option<seq<Condition>>) returns (r: bool)
    requires must.Some? ==> forall c :: c in must.value ==> checker.requires(c)
    ensures r == AllNestedConditionsHold(checker, must)
  {
    match must {
      case None =>
        r := true;
      case Some(conditions) =>
        var conditionCount := |conditions|;
        var lists := ConditionLists(checker, conditions);
        var matchingPaths := Flatten(lists);
        var matches := CountPaths(map[], matchingPaths, multiset{});
        assert multiset{} + multiset(matchingPaths) == multiset(matchingPaths);
        FlattenTally(lists);
        CountsVerdict(matches, Tally(lists), conditionCount);
        r := exists p :: p in matches && matches[p] == conditionCount;
    }
  }

  /** Only the `must` part of a nested filter is consulted. */
  method NestedFilterChecker(matchingPaths: Condition --> seq<nat>, nestedFilter: Filter) returns (r: bool)
    requires nestedFilter.must.Some? ==> forall c :: c in nestedFilter.must.value ==> matchingPaths.requires(c)
    ensures r == AllNestedConditionsHold(matchingPaths, nestedFilter.must)
  {
    r := CheckAllNestedConditions(matchingPaths, nestedFilter.must);
  }

  /** What `check_nested_filter` decides for one payload. */
  predicate NestedFilterMatches(nestedPath: string, nestedFilter: Filter, payload: Payload, leaves: LeafPredicates)
    requires nestedFilter.must.Some? ==> forall c :: c in nestedFilter.must.value ==> ValidInNestedScope(c)
  {
    AllNestedConditionsHold(NestedChecker(nestedPath, payload, leaves), nestedFilter.must)
  }

  /**
   * A nested filter matches iff it has no `must` list, or some element
   * position satisfies every one of its (at least one) `must` conditions.
   */
  lemma NestedFilterMatchesIsIntersection(nestedPath: string, nestedFilter: Filter, payload: Payload, leaves: LeafPredicates)
    requires nestedFilter.must.Some? ==> forall c :: c in nestedFilter.must.value ==> ValidInNestedScope(c)
    ensures NestedFilterMatches(nestedPath, nestedFilter, payload, leaves) <==>
      || nestedFilter.must.None?
      || (&& |nestedFilter.must.value| > 0
          && exists p :: InAll(ConditionLists(NestedChecker(nestedPath, payload, leaves), nestedFilter.must.value), p))
  {
    if nestedFilter.must.Some? {
      var cs := nestedFilter.must.value;
      var lists := ConditionLists(NestedChecker(nestedPath, payload, leaves), cs);
      forall i | 0 <= i < |lists| ensures NoDuplicates(lists[i]) {
        assert cs[i] in cs;
        NestedConditionIndicesIncreasing(nestedPath, payload, leaves, cs[i]);
        IncreasingHasNoDuplicates(lists[i]);
      }
      PositionalAndIsIntersection(lists);
    }
  }

  /** `should` and `must_not` do not affect the result. */
  lemma OnlyMustIsConsulted(nestedPath: string, nestedFilter: Filter, payload: Payload, leaves: LeafPredicates,
                            should: Option<seq<Condition>>, mustNot: Option<seq<Condition>>)
    requires nestedFilter.must.Some? ==> forall c :: c in nestedFilter.must.value ==> ValidInNestedScope(c)
    ensures NestedFilterMatches(nestedPath, nestedFilter.(should := should, mustNot := mustNot), payload, leaves)
         == NestedFilterMatches(nestedPath, nestedFilter, payload, leaves)
  {
  }

  /**
   * Evaluates a nested filter against one payload. HasId, Nested and Filter
   * conditions in the `must` list are unreachable in the source, so they are
   * excluded here.
   */
  method CheckNestedFilter(nestedPath: string, nestedFilter: Filter, payload: Payload, leaves: LeafPredicates) returns (r: bool)
    requires nestedFilter.must.Some? ==> forall c :: c in nestedFilter.must.value ==> ValidInNestedScope(c)
    ensures r == NestedFilterMatches(nestedPath, nestedFilter, payload, leaves)
    ensures r <==>
      || nestedFilter.must.None?
      || (&& |nestedFilter.must.value| > 0
          && exists p :: InAll(ConditionLists(NestedChecker(nestedPath, payload, leaves), nestedFilter.must.value), p))
  {
    var nestedChecker := NestedChecker(nestedPath, payload, leaves);
    r := NestedFilterChecker(nestedChecker, nestedFilter);
    NestedFilterMatchesIsIntersection(nestedPath, nestedFilter, payload, leaves);
  }

  // ---------------------------------------------------------------------
  // Fallback position finders
  // ---------------------------------------------------------------------

  /** Positions of the values at `nested_path.key` that are null or an empty array. */
  method CheckNestedIsEmptyCondition(nestedPath: string, isEmpty: IsEmptyCondition, payload: Payload)
    returns (matchingIndices: seq<nat>)
    ensures var vs := FieldValues(payload, nestedPath, isEmpty.isEmpty.key).Values();
      && matchingIndices == IsEmptyIndices(vs)
      && (forall i :: i in matchingIndices <==> 0 <= i < |vs| && IsEmptyElement(vs[i]))
      && StrictlyIncreasing(matchingIndices)
  {
    var fieldValues := FieldValues(payload, nestedPath, isEmpty.isEmpty.key);
    var values := fieldValues.Values();
    matchingIndices := [];
    for index := 0 to |values|
      invariant matchingIndices == IsEmptyIndices(values[..index])
    {
      assert values[..index + 1][..index] == values[..index];
      var p := values[index];
      match p {
        case Null => matchingIndices := matchingIndices + [index];
        case Array(vec) =>
          if vec == [] {
            matchingIndices := matchingIndices + [index];
          }
        case _ =>
      }
    }
    assert values[..|values|] == values;
  }

  /** Positions at `nested_path.key` that count as null; an absent single value counts. */
  method CheckNestedIsNullCondition(nestedPath: string, isNull: IsNullCondition, payload: Payload)
    returns (matchingIndices: seq<nat>)
    ensures var fieldValues := FieldValues(payload, nestedPath, isNull.isNull.key);
      && matchingIndices == IsNullIndices(fieldValues)
      && (fieldValues == Single(None) ==> matchingIndices == [0])
      && (fieldValues.Single? && fieldValues.single.Some? ==>
            matchingIndices == if fieldValues.single.value.Null? then [0] else [])
      && (fieldValues.Multiple? ==>
            forall i :: i in matchingIndices <==> 0 <= i < |fieldValues.multiple| && IsNullElement(fieldValues.multiple[i]))
      && StrictlyIncreasing(matchingIndices)
  {
    var fieldValues := FieldValues(payload, nestedPath, isNull.isNull.key);
    match fieldValues {
      case Single(None) =>
        matchingIndices := [0];
      case Single(Some(v)) =>
        if v.Null? {
          matchingIndices := [0];
        } else {
          matchingIndices := [];
        }
      case Multiple(multipleValues) =>
        var paths := [];
        for index := 0 to |multipleValues|
          invariant paths == Positions(multipleValues[..index], IsNullElement)
        {
          assert multipleValues[..index + 1][..index] == multipleValues[..index];
          var p := multipleValues[index];
          match p {
            case Null => paths := paths + [index];
            case Array(vec) =>
              if exists val :: val in vec && val.Null? {
                paths := paths + [index];
              }
            case _ =>
          }
        }
        assert multipleValues[..|multipleValues|] == multipleValues;
        matchingIndices := paths;
    }
  }

  /** Positions at `nested_path.key` where at least one set sub-predicate holds. */
  method NestedCheckFieldCondition(fieldCondition: FieldCondition, payload: Payload, nestedPath: string, leaves: LeafPredicates)
    returns (matchingIndices: seq<nat>)
    ensures var vs := FieldValues(payload, nestedPath, fieldCondition.key).Values();
      && matchingIndices == FieldIndices(leaves, fieldCondition, vs)
      && (forall i :: i in matchingIndices <==> 0 <= i < |vs| && FieldConditionHolds(leaves, fieldCondition, vs[i]))
      && StrictlyIncreasing(matchingIndices)
  {
    var fieldValues := FieldValues(payload, nestedPath, fieldCondition.key);
    var values := fieldValues.Values();
    matchingIndices := [];
    for index := 0 to |values|
      invariant matchingIndices == FieldIndices(leaves, fieldCondition, values[..index])
    {
      assert values[..index + 1][..index] == values[..index];
      var p := values[index];
      var res := false;
      res := res || (fieldCondition.matchCondition.Some? && leaves.matchCheck(fieldCondition.matchCondition.value, p));
      res := res || (fieldCondition.range.Some? && leaves.rangeCheck(fieldCondition.range.value, p));
      res := res || (fieldCondition.geoRadius.Some? && leaves.geoRadiusCheck(fieldCondition.geoRadius.value, p));
      res := res || (fieldCondition.geoBoundingBox.Some? && leaves.geoBoundingBoxCheck(fieldCondition.geoBoundingBox.value, p));
      res := res || (fieldCondition.valuesCount.Some? && leaves.valuesCountCheck(fieldCondition.valuesCount.value, p));
      if res {
        matchingIndices := matchingIndices + [index];
      }
    }
    assert values[..|values|] == values;
  }

  // ---------------------------------------------------------------------
  // Properties of the fallback finders
  // ---------------------------------------------------------------------

  /** A field condition with no sub-predicate set matches no element. */
  lemma NoSubPredicateMatchesNothing(leaves: LeafPredicates, fc: FieldCondition, values: seq<Value>)
    requires fc.matchCondition.None? && fc.range.None? && fc.geoRadius.None?
    requires fc.geoBoundingBox.None? && fc.valuesCount.None?
    ensures FieldIndices(leaves, fc, values) == []
  {
    PositionsEmptyIff(values, v => FieldConditionHolds(leaves, fc, v));
  }

  /** Each set sub-predicate alone is enough for an element to be reported. */
  lemma FieldConditionIsDisjunction(leaves: LeafPredicates, fc: FieldCondition, values: seq<Value>, i: nat)
    requires i < |values|
    ensures i in FieldIndices(leaves, fc, values) <==>
      || SubPredicateHolds(fc.matchCondition, leaves.matchCheck, values[i])
      || SubPredicateHolds(fc.range, leaves.rangeCheck, values[i])
      || SubPredicateHolds(fc.geoRadius, leaves.geoRadiusCheck, values[i])
      || SubPredicateHolds(fc.geoBoundingBox, leaves.geoBoundingBoxCheck, values[i])
      || SubPredicateHolds(fc.valuesCount, leaves.valuesCountCheck, values[i])
  {
  }

  /**
   * For a value outside any array, an absent field and an explicit null
   * both count as null, while an absent field does not count as empty.
   * An element that is an array holding a null counts as null and not as
   * empty.
   */
  lemma AbsenceAndNull(items: seq<Value>)
    requires Null in items
    ensures IsNullIndices(Single(None)) == IsNullIndices(Single(Some(Null))) == [0]
    ensures IsEmptyIndices(Single(None).Values()) == []
    ensures IsEmptyIndices(Multiple([Array(items)]).Values()) == []
    ensures IsNullIndices(Multiple([Array(items)])) == [0]
  {
    var element := Array(items);
    assert IsNullElement(element);
    assert !IsEmptyElement(element);
    PositionsEmptyIff([element], IsEmptyElement);
    IncreasingUnique(IsNullIndices(Multiple([element])), [0]);
  }
}
