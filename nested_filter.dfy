/**
 * The index side of nested matching: per-point checker results, the
 * index-accelerated position finders, the dispatcher that picks an index
 * checker or the document-scan fallback, and the positional merge of the
 * checkers of one nested filter.
 */
module NestedFilter {
  import opened Wrappers
  import opened ElementPositions
  import opened Types
  import opened PositionalMerge
  import opened NestedQueryChecker

  /** The element positions one checker reports for one point. */
  datatype NestedConditionCheckerResult = NoMatch | Matches(paths: seq<nat>)
  {
    function Paths(): seq<nat>
    {
      match this
      case NoMatch => []
      case Matches(ps) => ps
    }
  }

  /** Given a point offset, the positions matching one condition. */
  type NestedConditionCheckerFn = nat -> NestedConditionCheckerResult

  /**
   * What every checker result satisfies: `Matches` never carries an empty
   * list, and positions are listed once each, in increasing order.
   */
  predicate WellFormed(r: NestedConditionCheckerResult)
  {
    r.Matches? ==> r.paths != [] && StrictlyIncreasing(r.paths)
  }

  function FromMatches(matches: seq<nat>): (r: NestedConditionCheckerResult)
    ensures r.NoMatch? <==> matches == []
    ensures r.Paths() == matches
  {
    if |matches| == 0 then NoMatch else Matches(matches)
  }

  /** `from_indexes`; positions are kept as numbers instead of their decimal strings. */
  function FromIndexes(indexes: seq<nat>): (r: NestedConditionCheckerResult)
    ensures r.NoMatch? <==> indexes == []
    ensures r.Paths() == indexes
  {
    FromMatches(indexes)
  }

  // ---------------------------------------------------------------------
  // Field indexes and their checkers
  // ---------------------------------------------------------------------

  /** The document a full-text index keeps for a point. */
  datatype TextDocument = TextDocument(tokens: seq<string>)

  /** A secondary index on one full path; `get_values(point)` of each kind. */
  datatype FieldIndex =
    | IntIndex(intValues: nat -> Option<seq<int>>)
    | IntMapIndex(intMapValues: nat -> Option<seq<int>>)
    | KeywordIndex(keywordValues: nat -> Option<seq<string>>)
    | FloatIndex(floatValues: nat -> Option<seq<real>>)
    | GeoIndex(geoValues: nat -> Option<seq<GeoPoint>>)
    | FullTextIndex(getDoc: nat -> Option<TextDocument>)

  /** The indexes available for each full path. */
  type IndexesMap = map<string, seq<FieldIndex>>

  /** Access to each point's payload document (`with_payload`). */
  type PayloadProvider = nat -> Payload

  /**
   * `c` reports, for every point, no match when the index has no values
   * for it, and otherwise exactly the positions of the indexed values that
   * satisfy `p`.
   */
  ghost predicate ReportsPositions<V>(c: NestedConditionCheckerFn, getValues: nat -> Option<seq<V>>, p: V -> bool)
  {
    forall pt :: match getValues(pt)
      case None => c(pt) == NoMatch
      case Some(vs) => WellFormed(c(pt)) && forall i :: i in c(pt).Paths() <==> 0 <= i < |vs| && p(vs[i])
  }

  /** The checker that filters a point's indexed values by position (`positions`). */
  function PositionsChecker<V>(getValues: nat -> Option<seq<V>>, p: V -> bool): (c: NestedConditionCheckerFn)
    ensures ReportsPositions(c, getValues, p)
  {
    (pt: nat) => match getValues(pt)
      case None => NoMatch
      case Some(vs) => FromIndexes(Positions(vs, p))
  }

  // The per-value predicates of the index checkers.

  function EqualTo<T(==)>(target: T): T -> bool
  {
    x => x == target
  }

  function ContainedIn<T(==)>(list: seq<T>): T -> bool
  {
    x => x in list
  }

  /** Ints are compared as floats; the cast is exact in this model. */
  function IntInRange(leaves: LeafPredicates, range: Range): int -> bool
  {
    x => leaves.checkRange(range, x as real)
  }

  function FloatInRange(leaves: LeafPredicates, range: Range): real -> bool
  {
    x => leaves.checkRange(range, x)
  }

  function InGeoRadius(leaves: LeafPredicates, geoRadius: GeoRadius): GeoPoint -> bool
  {
    (g: GeoPoint) => leaves.radiusCheckPoint(geoRadius, g.lon, g.lat)
  }

  function InGeoBoundingBox(leaves: LeafPredicates, box: GeoBoundingBox): GeoPoint -> bool
  {
    (g: GeoPoint) => leaves.boundingBoxCheckPoint(box, g.lon, g.lat)
  }

  // Which index kinds accept which predicates.

  predicate RangeAccepts(index: FieldIndex)
  {
    index.IntIndex? || index.FloatIndex?
  }

  predicate GeoAccepts(index: FieldIndex)
  {
    index.GeoIndex?
  }

  predicate MatchAccepts(index: FieldIndex, condMatch: Match)
  {
    match condMatch
    case MatchValue(Keyword(_)) => index.KeywordIndex?
    case MatchValue(Integer(_)) => index.IntMapIndex?
    case MatchText(_) => index.FullTextIndex?
    case MatchAny(Keywords(_)) => index.KeywordIndex?
    case MatchAny(Integers(_)) => index.IntMapIndex?
  }

  function GetNestedGeoRadiusCheckers(index: FieldIndex, geoRadius: GeoRadius, leaves: LeafPredicates)
    : (r: Option<NestedConditionCheckerFn>)
    ensures r.Some? <==> GeoAccepts(index)
    ensures index.GeoIndex? ==> ReportsPositions(r.value, index.geoValues, InGeoRadius(leaves, geoRadius))
  {
    match index
    case GeoIndex(geoValues) => Some(PositionsChecker(geoValues, InGeoRadius(leaves, geoRadius)))
    case _ => None
  }

  function GetNestedGeoBoundingBoxCheckers(index: FieldIndex, box: GeoBoundingBox, leaves: LeafPredicates)
    : (r: Option<NestedConditionCheckerFn>)
    ensures r.Some? <==> GeoAccepts(index)
    ensures index.GeoIndex? ==> ReportsPositions(r.value, index.geoValues, InGeoBoundingBox(leaves, box))
  {
    match index
    case GeoIndex(geoValues) => Some(PositionsChecker(geoValues, InGeoBoundingBox(leaves, box)))
    case _ => None
  }

  function GetNestedRangeCheckers(index: FieldIndex, range: Range, leaves: LeafPredicates)
    : (r: Option<NestedConditionCheckerFn>)
    ensures r.Some? <==> RangeAccepts(index)
    ensures index.IntIndex? ==> ReportsPositions(r.value, index.intValues, IntInRange(leaves, range))
    ensures index.FloatIndex? ==> ReportsPositions(r.value, index.floatValues, FloatInRange(leaves, range))
  {
    match index
    case IntIndex(intValues) => Some(PositionsChecker(intValues, IntInRange(leaves, range)))
    case FloatIndex(floatValues) => Some(PositionsChecker(floatValues, FloatInRange(leaves, range)))
    case _ => None
  }

  /**
   * The full-text checker parses the query once and, for a point with a
   * document, runs the parsed query against it; that outcome cannot be
   * attributed to an array element and is dropped, so every point reports
   * no match.
   */
  function FullTextChecker(getDoc: nat -> Option<TextDocument>, text: string): (c: NestedConditionCheckerFn)
    ensures forall pt :: c(pt) == NoMatch
  {
    (pt: nat) => match getDoc(pt)
      case None => NoMatch
      case Some(_) => NoMatch
  }

  function GetNestedMatchCheckers(index: FieldIndex, condMatch: Match): (r: Option<NestedConditionCheckerFn>)
    ensures r.Some? <==> MatchAccepts(index, condMatch)
    ensures condMatch.MatchValue? && condMatch.value.Keyword? && index.KeywordIndex? ==>
      ReportsPositions(r.value, index.keywordValues, EqualTo(condMatch.value.keyword))
    ensures condMatch.MatchValue? && condMatch.value.Integer? && index.IntMapIndex? ==>
      ReportsPositions(r.value, index.intMapValues, EqualTo(condMatch.value.integer))
    ensures condMatch.MatchAny? && condMatch.any.Keywords? && index.KeywordIndex? ==>
      ReportsPositions(r.value, index.keywordValues, ContainedIn(condMatch.any.keywords))
    ensures condMatch.MatchAny? && condMatch.any.Integers? && index.IntMapIndex? ==>
      ReportsPositions(r.value, index.intMapValues, ContainedIn(condMatch.any.integers))
    ensures condMatch.MatchText? && index.FullTextIndex? ==> forall pt :: r.value(pt) == NoMatch
  {
    match condMatch
    case MatchValue(valueVariant) =>
      (match (valueVariant, index)
       case (Keyword(keyword), KeywordIndex(values)) => Some(PositionsChecker(values, EqualTo(keyword)))
       case (Integer(value), IntMapIndex(values)) => Some(PositionsChecker(values, EqualTo(value)))
       case _ => None)
    case MatchText(text) =>
      (match index
       case FullTextIndex(getDoc) => Some(FullTextChecker(getDoc, text))
       case _ => None)
    case MatchAny(any) =>
      (match (any, index)
       case (Keywords(list), KeywordIndex(values)) => Some(PositionsChecker(values, ContainedIn(list)))
       case (Integers(list), IntMapIndex(values)) => Some(PositionsChecker(values, ContainedIn(list)))
       case _ => None)
  }

  /** Every checker an index yields reports well-formed results. */
  lemma IndexCheckersWellFormed(index: FieldIndex, fc: FieldCondition, leaves: LeafPredicates, pt: nat)
    ensures IndexCheckersWellFormedAt(index, fc, leaves, pt)
  {
  }

  // ---------------------------------------------------------------------
  // Dispatch
  // ---------------------------------------------------------------------

  /** Some set sub-predicate of `fc`, other than values_count, is accepted by `index`. */
  predicate IndexAccepts(index: FieldIndex, fc: FieldCondition)
  {
    || (fc.matchCondition.Some? && MatchAccepts(index, fc.matchCondition.value))
    || (fc.range.Some? && RangeAccepts(index))
    || (fc.geoRadius.Some? && GeoAccepts(index))
    || (fc.geoBoundingBox.Some? && GeoAccepts(index))
  }

  /**
   * The checker one index yields for a field condition: match, then range,
   * then geo radius, then geo bounding box; the first one the index
   * accepts decides, and the other sub-predicates are not consulted.
   */
  function NestedFieldConditionIndex(index: FieldIndex, fc: FieldCondition, leaves: LeafPredicates)
    : (r: Option<NestedConditionCheckerFn>)
    ensures r.Some? <==> IndexAccepts(index, fc)
    ensures fc.matchCondition.Some? && MatchAccepts(index, fc.matchCondition.value) ==>
      r == GetNestedMatchCheckers(index, fc.matchCondition.value)
    ensures (&& !(fc.matchCondition.Some? && MatchAccepts(index, fc.matchCondition.value))
             && fc.range.Some? && RangeAccepts(index)) ==>
      r == GetNestedRangeCheckers(index, fc.range.value, leaves)
    ensures (&& !(fc.matchCondition.Some? && MatchAccepts(index, fc.matchCondition.value))
             && !(fc.range.Some? && RangeAccepts(index))
             && fc.geoRadius.Some? && GeoAccepts(index)) ==>
      r == GetNestedGeoRadiusCheckers(index, fc.geoRadius.value, leaves)
    ensures (&& !(fc.matchCondition.Some? && MatchAccepts(index, fc.matchCondition.value))
             && !(fc.range.Some? && RangeAccepts(index))
             && !(fc.geoRadius.Some? && GeoAccepts(index))) ==>
      r == (if fc.geoBoundingBox.Some? then GetNestedGeoBoundingBoxCheckers(index, fc.geoBoundingBox.value, leaves) else None)
    ensures r.Some? ==> forall pt :: WellFormed(r.value(pt))
  {
    var byMatch := if fc.matchCondition.Some? then GetNestedMatchCheckers(index, fc.matchCondition.value) else None;
    var byRange := if fc.range.Some? then GetNestedRangeCheckers(index, fc.range.value, leaves) else None;
    var byRadius := if fc.geoRadius.Some? then GetNestedGeoRadiusCheckers(index, fc.geoRadius.value, leaves) else None;
    var byBox := if fc.geoBoundingBox.Some? then GetNestedGeoBoundingBoxCheckers(index, fc.geoBoundingBox.value, leaves) else None;
    assert forall pt :: IndexCheckersWellFormedAt(index, fc, leaves, pt) by {
      forall pt ensures IndexCheckersWellFormedAt(index, fc, leaves, pt) {
        IndexCheckersWellFormed(index, fc, leaves, pt);
      }
    }
    if byMatch.Some? then byMatch
    else if byRange.Some? then byRange
    else if byRadius.Some? then byRadius
    else byBox
  }

  ghost predicate IndexCheckersWellFormedAt(index: FieldIndex, fc: FieldCondition, leaves: LeafPredicates, pt: nat)
  {
    && (fc.matchCondition.Some? && GetNestedMatchCheckers(index, fc.matchCondition.value).Some? ==>
          WellFormed(GetNestedMatchCheckers(index, fc.matchCondition.value).value(pt)))
    && (fc.range.Some? && RangeAccepts(index) ==>
          WellFormed(GetNestedRangeCheckers(index, fc.range.value, leaves).value(pt)))
    && (fc.geoRadius.Some? && GeoAccepts(index) ==>
          WellFormed(GetNestedGeoRadiusCheckers(index, fc.geoRadius.value, leaves).value(pt)))
    && (fc.geoBoundingBox.Some? && GeoAccepts(index) ==>
          WellFormed(GetNestedGeoBoundingBoxCheckers(index, fc.geoBoundingBox.value, leaves).value(pt)))
  }

  /** The `values_count` sub-predicate never selects an index checker. */
  lemma ValuesCountNeverAccelerated(index: FieldIndex, fc: FieldCondition, leaves: LeafPredicates, valuesCount: Option<ValuesCount>)
    ensures NestedFieldConditionIndex(index, fc.(valuesCount := valuesCount), leaves) == NestedFieldConditionIndex(index, fc, leaves)
  {
  }

  /** `indexes[i]` is the first index that yields a checker for `fc`. */
  predicate FirstAccepting(indexes: seq<FieldIndex>, fc: FieldCondition, i: nat)
  {
    && i < |indexes|
    && IndexAccepts(indexes[i], fc)
    && forall j :: 0 <= j < i ==> !IndexAccepts(indexes[j], fc)
  }

  /** The checker of the first index that yields one (`filter_map(...).next()`). */
  function FirstIndexChecker(indexes: seq<FieldIndex>, fc: FieldCondition, leaves: LeafPredicates)
    : (r: Option<NestedConditionCheckerFn>)
    ensures r.None? <==> forall i :: 0 <= i < |indexes| ==> !IndexAccepts(indexes[i], fc)
    ensures r.Some? ==> exists i: nat :: FirstAccepting(indexes, fc, i) && r == NestedFieldConditionIndex(indexes[i], fc, leaves)
    decreases |indexes|
  {
    if |indexes| == 0 then None
    else
      var first := NestedFieldConditionIndex(indexes[0], fc, leaves);
      if first.Some? then
        assert FirstAccepting(indexes, fc, 0);
        first
      else
        var rest := FirstIndexChecker(indexes[1..], fc, leaves);
        assert forall i :: 1 <= i < |indexes| ==> indexes[i] == indexes[1..][i - 1];
        assert forall k: nat :: FirstAccepting(indexes[1..], fc, k) ==> FirstAccepting(indexes, fc, k + 1);
        rest
  }

  /** The document-scan checker of a field condition. */
  function FallbackFieldChecker(fc: FieldCondition, provider: PayloadProvider, nestedPath: string, leaves: LeafPredicates)
    : (c: NestedConditionCheckerFn)
    ensures forall pt :: var vs := FieldValues(provider(pt), nestedPath, fc.key).Values();
      && WellFormed(c(pt))
      && forall i :: i in c(pt).Paths() <==> 0 <= i < |vs| && FieldConditionHolds(leaves, fc, vs[i])
  {
    (pt: nat) => FromMatches(FieldIndices(leaves, fc, FieldValues(provider(pt), nestedPath, fc.key).Values()))
  }

  /** The document-scan checker of an `IsEmpty` or `IsNull` condition. */
  function FallbackChecker(c: Condition, provider: PayloadProvider, nestedPath: string, leaves: LeafPredicates)
    : (checker: NestedConditionCheckerFn)
    requires ValidInNestedScope(c)
    ensures forall pt :: WellFormed(checker(pt))
    ensures forall pt :: checker(pt).Paths() == NestedConditionIndices(nestedPath, provider(pt), leaves, c)
  {
    assert forall pt :: StrictlyIncreasing(NestedConditionIndices(nestedPath, provider(pt), leaves, c)) by {
      forall pt ensures StrictlyIncreasing(NestedConditionIndices(nestedPath, provider(pt), leaves, c)) {
        NestedConditionIndicesIncreasing(nestedPath, provider(pt), leaves, c);
      }
    }
    (pt: nat) => FromMatches(NestedConditionIndices(nestedPath, provider(pt), leaves, c))
  }

  /**
   * The checker of one condition of a nested filter. A field condition uses
   * the first index on `nested_path.key` that yields a checker, or falls
   * back to scanning the document; `IsEmpty` and `IsNull` always scan.
   */
  function NestedConditionConverter(condition: Condition, fieldIndexes: IndexesMap, provider: PayloadProvider,
                                    nestedPath: string, leaves: LeafPredicates)
    : (checker: NestedConditionCheckerFn)
    requires ValidInNestedScope(condition)
    ensures forall pt :: WellFormed(checker(pt))
    ensures !condition.Field? ==>
      forall pt :: checker(pt).Paths() == NestedConditionIndices(nestedPath, provider(pt), leaves, condition)
    ensures condition.Field? ==>
      var fullPath := AddSegment(nestedPath, condition.field.key);
      if fullPath in fieldIndexes && exists i :: 0 <= i < |fieldIndexes[fullPath]| && IndexAccepts(fieldIndexes[fullPath][i], condition.field)
      then exists i: nat :: (&& FirstAccepting(fieldIndexes[fullPath], condition.field, i)
                        && Some(checker) == NestedFieldConditionIndex(fieldIndexes[fullPath][i], condition.field, leaves))
      else forall pt :: checker(pt).Paths() == NestedConditionIndices(nestedPath, provider(pt), leaves, condition)
  {
    match condition
    case Field(fc) =>
      var fullPath := AddSegment(nestedPath, fc.key);
      var indexed := if fullPath in fieldIndexes then FirstIndexChecker(fieldIndexes[fullPath], fc, leaves) else None;
      if indexed.Some? then indexed.value else FallbackFieldChecker(fc, provider, nestedPath, leaves)
    case IsEmpty(_) => FallbackChecker(condition, provider, nestedPath, leaves)
    case IsNull(_) => FallbackChecker(condition, provider, nestedPath, leaves)
  }

  // ---------------------------------------------------------------------
  // The merge of the checkers of one nested filter
  // ---------------------------------------------------------------------

  /** The positions each checker reports for `pointId`. */
  function CheckerLists(nestedCheckers: seq<NestedConditionCheckerFn>, pointId: nat): (lists: seq<seq<nat>>)
    ensures |lists| == |nestedCheckers|
    ensures forall i :: 0 <= i < |nestedCheckers| ==> lists[i] == nestedCheckers[i](pointId).Paths()
  {
    seq(|nestedCheckers|, i requires 0 <= i < |nestedCheckers| => nestedCheckers[i](pointId).Paths())
  }

  /** The merged condition checker, evaluated at one point. */
  method MergeNestedConditionCheckers(nestedCheckers: seq<NestedConditionCheckerFn>, pointId: nat) returns (r: bool)
    ensures r == PositionalAnd(CheckerLists(nestedCheckers, pointId))
  {
    var conditionCount := |nestedCheckers|;
    ghost var lists := CheckerLists(nestedCheckers, pointId);
    var matches: map<nat, nat> := map[];
    for j := 0 to |nestedCheckers|
      invariant Counts(matches, Tally(lists[..j]))
    {
      var result := nestedCheckers[j](pointId);
      TallyPrefix(lists, j);
      ghost var before := Tally(lists[..j]);
      match result {
        case NoMatch =>
        case Matches(nestedMatchPaths) =>
          matches := CountPaths(matches, nestedMatchPaths, before);
      }
    }
    assert lists[..|nestedCheckers|] == lists;
    CountsVerdict(matches, Tally(lists), conditionCount);
    r := exists p :: p in matches && matches[p] == conditionCount;
  }

  /**
   * When every checker reports well-formed results, the merged checker
   * accepts a point iff there is at least one checker and some position is
   * reported by all of them.
   */
  lemma MergeIsIntersection(nestedCheckers: seq<NestedConditionCheckerFn>, pointId: nat)
    requires forall i :: 0 <= i < |nestedCheckers| ==> WellFormed(nestedCheckers[i](pointId))
    ensures PositionalAnd(CheckerLists(nestedCheckers, pointId)) <==>
      |nestedCheckers| > 0 && exists p :: InAll(CheckerLists(nestedCheckers, pointId), p)
  {
    var lists := CheckerLists(nestedCheckers, pointId);
    forall i | 0 <= i < |lists| ensures NoDuplicates(lists[i]) {
      IncreasingHasNoDuplicates(lists[i]);
    }
    PositionalAndIsIntersection(lists);
  }

  /** The checkers the dispatcher builds for a list of nested-scope conditions, in order. */
  function ConvertedCheckers(conditions: seq<Condition>, fieldIndexes: IndexesMap, provider: PayloadProvider,
                             nestedPath: string, leaves: LeafPredicates): (checkers: seq<NestedConditionCheckerFn>)
    requires forall c :: c in conditions ==> ValidInNestedScope(c)
    ensures |checkers| == |conditions|
    ensures forall i :: 0 <= i < |conditions| ==>
      checkers[i] == NestedConditionConverter(conditions[i], fieldIndexes, provider, nestedPath, leaves)
    ensures forall i, pt :: 0 <= i < |conditions| ==> WellFormed(checkers[i](pt))
  {
    seq(|conditions|, i requires 0 <= i < |conditions| =>
          NestedConditionConverter(conditions[i], fieldIndexes, provider, nestedPath, leaves))
  }

  /**
   * The checkers the dispatcher builds for the `must` conditions of a
   * nested filter merge into position intersection.
   */
  lemma ConvertedMergeIsIntersection(must: seq<Condition>, fieldIndexes: IndexesMap, provider: PayloadProvider,
                                     nestedPath: string, leaves: LeafPredicates, pointId: nat)
    requires forall c :: c in must ==> ValidInNestedScope(c)
    ensures var checkers := ConvertedCheckers(must, fieldIndexes, provider, nestedPath, leaves);
      PositionalAnd(CheckerLists(checkers, pointId)) <==>
        |must| > 0 && exists p :: InAll(CheckerLists(checkers, pointId), p)
  {
    MergeIsIntersection(ConvertedCheckers(must, fieldIndexes, provider, nestedPath, leaves), pointId);
  }

  // ---------------------------------------------------------------------
  // Index and fallback agreement
  // ---------------------------------------------------------------------

  /**
   * An index checker and the fallback report the same result for a point
   * when the index holds, per position, values on which its predicate
   * agrees with the field condition on the payload values, and holds
   * nothing only when no payload value matches.
   */
  lemma IndexAgreesWithFallback<V>(getValues: nat -> Option<seq<V>>, p: V -> bool, fc: FieldCondition,
                                   provider: PayloadProvider, nestedPath: string, leaves: LeafPredicates, pt: nat)
    requires var vals := FieldValues(provider(pt), nestedPath, fc.key).Values();
      match getValues(pt)
      case None => forall i :: 0 <= i < |vals| ==> !FieldConditionHolds(leaves, fc, vals[i])
      case Some(vs) => |vs| == |vals| && forall i :: 0 <= i < |vs| ==> p(vs[i]) == FieldConditionHolds(leaves, fc, vals[i])
    ensures PositionsChecker(getValues, p)(pt) == FallbackFieldChecker(fc, provider, nestedPath, leaves)(pt)
  {
    var vals := FieldValues(provider(pt), nestedPath, fc.key).Values();
    var fallback := v => FieldConditionHolds(leaves, fc, v);
    match getValues(pt) {
      case None =>
        PositionsEmptyIff(vals, fallback);
      case Some(vs) =>
        PositionsAgree(vs, p, vals, fallback);
    }
  }

  /** A checker that reports positions is, point by point, the positions checker. */
  lemma ReportsPositionsDetermines<V>(c: NestedConditionCheckerFn, getValues: nat -> Option<seq<V>>, p: V -> bool, pt: nat)
    requires ReportsPositions(c, getValues, p)
    ensures c(pt) == PositionsChecker(getValues, p)(pt)
  {
    match getValues(pt) {
      case None =>
      case Some(vs) =>
        IncreasingUnique(c(pt).Paths(), Positions(vs, p));
    }
  }

  // How a value a field index holds appears in the payload it was built from.

  function FloatValue(x: real): Value
  {
    Number(x)
  }

  function IntValue(x: int): Value
  {
    FloatValue(x as real)
  }

  function KeywordValue(s: string): Value
  {
    String(s)
  }

  function GeoValue(g: GeoPoint): Value
  {
    Object([("lon", Number(g.lon)), ("lat", Number(g.lat))])
  }

  /**
   * At `pt` the index holds one value per payload value, in the same order,
   * each encoding that payload value, and holds nothing only when the
   * payload has no value.
   */
  ghost predicate Mirrors<V>(getValues: nat -> Option<seq<V>>, encode: V -> Value, vals: seq<Value>, pt: nat)
  {
    match getValues(pt)
    case None => vals == []
    case Some(vs) => |vs| == |vals| && forall i :: 0 <= i < |vs| ==> vals[i] == encode(vs[i])
  }

  /**
   * `index` is built, at `pt`, over the payload values `vals`. A full-text
   * index keeps documents, not values, and is not constrained.
   */
  ghost predicate IndexMirrorsPayload(index: FieldIndex, vals: seq<Value>, pt: nat)
  {
    match index
    case IntIndex(values) => Mirrors(values, IntValue, vals, pt)
    case IntMapIndex(values) => Mirrors(values, IntValue, vals, pt)
    case KeywordIndex(values) => Mirrors(values, KeywordValue, vals, pt)
    case FloatIndex(values) => Mirrors(values, FloatValue, vals, pt)
    case GeoIndex(values) => Mirrors(values, GeoValue, vals, pt)
    case FullTextIndex(_) => true
  }

  /** Every index on `fullPath` is built, at `pt`, over the payload values `vals`. */
  ghost predicate IndexesMirrorPayload(fieldIndexes: IndexesMap, fullPath: string, vals: seq<Value>, pt: nat)
  {
    fullPath in fieldIndexes ==>
      forall i :: 0 <= i < |fieldIndexes[fullPath]| ==> IndexMirrorsPayload(fieldIndexes[fullPath][i], vals, pt)
  }

  /**
   * The leaf predicates on payload values agree with the index-side
   * predicates on the values the payload encodes.
   */
  ghost predicate LeavesMatchIndexes(leaves: LeafPredicates)
  {
    && (forall r, x :: leaves.rangeCheck(r, FloatValue(x)) == leaves.checkRange(r, x))
    && (forall gr, g :: leaves.geoRadiusCheck(gr, GeoValue(g)) == leaves.radiusCheckPoint(gr, g.lon, g.lat))
    && (forall box, g :: leaves.geoBoundingBoxCheck(box, GeoValue(g)) == leaves.boundingBoxCheckPoint(box, g.lon, g.lat))
    && (forall k, s :: leaves.matchCheck(MatchValue(Keyword(k)), KeywordValue(s)) == (s == k))
    && (forall n, x :: leaves.matchCheck(MatchValue(Integer(n)), IntValue(x)) == (x == n))
    && (forall list, s :: leaves.matchCheck(MatchAny(Keywords(list)), KeywordValue(s)) == (s in list))
    && (forall list, x :: leaves.matchCheck(MatchAny(Integers(list)), IntValue(x)) == (x in list))
  }

  /**
   * `fc` sets exactly one of match (other than full text), range, geo
   * radius and geo bounding box, and no values_count.
   */
  predicate SingleIndexableSubPredicate(fc: FieldCondition)
  {
    && fc.valuesCount.None?
    && (fc.matchCondition.Some? ==> !fc.matchCondition.value.MatchText?)
    && (if fc.matchCondition.Some? then 1 else 0) + (if fc.range.Some? then 1 else 0)
       + (if fc.geoRadius.Some? then 1 else 0) + (if fc.geoBoundingBox.Some? then 1 else 0) == 1
  }

  /**
   * A positions checker over an index built from the payload agrees with
   * the scan when its predicate agrees with the field condition on every
   * encoded value.
   */
  lemma MirroredCheckerAgrees<V>(c: NestedConditionCheckerFn, getValues: nat -> Option<seq<V>>, p: V -> bool,
                                 encode: V -> Value, fc: FieldCondition, provider: PayloadProvider,
                                 nestedPath: string, leaves: LeafPredicates, pt: nat)
    requires ReportsPositions(c, getValues, p)
    requires Mirrors(getValues, encode, FieldValues(provider(pt), nestedPath, fc.key).Values(), pt)
    requires forall v :: p(v) == FieldConditionHolds(leaves, fc, encode(v))
    ensures c(pt) == FallbackFieldChecker(fc, provider, nestedPath, leaves)(pt)
  {
    ReportsPositionsDetermines(c, getValues, p, pt);
    var vals := FieldValues(provider(pt), nestedPath, fc.key).Values();
    match getValues(pt) {
      case None =>
      case Some(vs) =>
        assert forall i :: 0 <= i < |vs| ==> p(vs[i]) == FieldConditionHolds(leaves, fc, vals[i]) by {
          forall i | 0 <= i < |vs| ensures p(vs[i]) == FieldConditionHolds(leaves, fc, vals[i]) {
            assert vals[i] == encode(vs[i]);
          }
        }
    }
    IndexAgreesWithFallback(getValues, p, fc, provider, nestedPath, leaves, pt);
  }

  /** The match route of `IndexCheckerAgreesWithScan`. */
  lemma MatchCheckerAgreesWithScan(index: FieldIndex, fc: FieldCondition, provider: PayloadProvider,
                                   nestedPath: string, leaves: LeafPredicates, pt: nat)
    requires SingleIndexableSubPredicate(fc) && fc.matchCondition.Some?
    requires LeavesMatchIndexes(leaves)
    requires IndexMirrorsPayload(index, FieldValues(provider(pt), nestedPath, fc.key).Values(), pt)
    requires MatchAccepts(index, fc.matchCondition.value)
    ensures GetNestedMatchCheckers(index, fc.matchCondition.value).value(pt) == FallbackFieldChecker(fc, provider, nestedPath, leaves)(pt)
  {
    var c := GetNestedMatchCheckers(index, fc.matchCondition.value).value;
    match (fc.matchCondition.value, index) {
      case (MatchValue(Keyword(k)), KeywordIndex(values)) =>
        MirroredCheckerAgrees(c, values, EqualTo(k), KeywordValue, fc, provider, nestedPath, leaves, pt);
      case (MatchValue(Integer(n)), IntMapIndex(values)) =>
        MirroredCheckerAgrees(c, values, EqualTo(n), IntValue, fc, provider, nestedPath, leaves, pt);
      case (MatchAny(Keywords(list)), KeywordIndex(values)) =>
        MirroredCheckerAgrees(c, values, ContainedIn(list), KeywordValue, fc, provider, nestedPath, leaves, pt);
      case (MatchAny(Integers(list)), IntMapIndex(values)) =>
        MirroredCheckerAgrees(c, values, ContainedIn(list), IntValue, fc, provider, nestedPath, leaves, pt);
    }
  }

  /** The range route of `IndexCheckerAgreesWithScan`. */
  lemma RangeCheckerAgreesWithScan(index: FieldIndex, fc: FieldCondition, provider: PayloadProvider,
                                   nestedPath: string, leaves: LeafPredicates, pt: nat)
    requires SingleIndexableSubPredicate(fc) && fc.range.Some?
    requires LeavesMatchIndexes(leaves)
    requires IndexMirrorsPayload(index, FieldValues(provider(pt), nestedPath, fc.key).Values(), pt)
    requires RangeAccepts(index)
    ensures GetNestedRangeCheckers(index, fc.range.value, leaves).value(pt) == FallbackFieldChecker(fc, provider, nestedPath, leaves)(pt)
  {
    var c := GetNestedRangeCheckers(index, fc.range.value, leaves).value;
    match index {
      case IntIndex(values) =>
        MirroredCheckerAgrees(c, values, IntInRange(leaves, fc.range.value), IntValue, fc, provider, nestedPath, leaves, pt);
      case FloatIndex(values) =>
        MirroredCheckerAgrees(c, values, FloatInRange(leaves, fc.range.value), FloatValue, fc, provider, nestedPath, leaves, pt);
    }
  }

  /** The geo routes of `IndexCheckerAgreesWithScan`. */
  lemma GeoCheckerAgreesWithScan(index: FieldIndex, fc: FieldCondition, provider: PayloadProvider,
                                 nestedPath: string, leaves: LeafPredicates, pt: nat)
    requires SingleIndexableSubPredicate(fc)
    requires LeavesMatchIndexes(leaves)
    requires IndexMirrorsPayload(index, FieldValues(provider(pt), nestedPath, fc.key).Values(), pt)
    requires GeoAccepts(index)
    ensures fc.geoRadius.Some? ==>
      GetNestedGeoRadiusCheckers(index, fc.geoRadius.value, leaves).value(pt) == FallbackFieldChecker(fc, provider, nestedPath, leaves)(pt)
    ensures fc.geoBoundingBox.Some? ==>
      GetNestedGeoBoundingBoxCheckers(index, fc.geoBoundingBox.value, leaves).value(pt) == FallbackFieldChecker(fc, provider, nestedPath, leaves)(pt)
  {
    var values := index.geoValues;
    if fc.geoRadius.Some? {
      var c := GetNestedGeoRadiusCheckers(index, fc.geoRadius.value, leaves).value;
      MirroredCheckerAgrees(c, values, InGeoRadius(leaves, fc.geoRadius.value), GeoValue, fc, provider, nestedPath, leaves, pt);
    }
    if fc.geoBoundingBox.Some? {
      var c := GetNestedGeoBoundingBoxCheckers(index, fc.geoBoundingBox.value, leaves).value;
      MirroredCheckerAgrees(c, values, InGeoBoundingBox(leaves, fc.geoBoundingBox.value), GeoValue, fc, provider, nestedPath, leaves, pt);
    }
  }

  /**
   * For a field condition with a single indexable sub-predicate, the
   * checker an index built from the payload yields reports, at every point,
   * what the document scan reports.
   */
  lemma IndexCheckerAgreesWithScan(index: FieldIndex, fc: FieldCondition, provider: PayloadProvider,
                                   nestedPath: string, leaves: LeafPredicates, pt: nat)
    requires SingleIndexableSubPredicate(fc)
    requires LeavesMatchIndexes(leaves)
    requires IndexMirrorsPayload(index, FieldValues(provider(pt), nestedPath, fc.key).Values(), pt)
    requires IndexAccepts(index, fc)
    ensures NestedFieldConditionIndex(index, fc, leaves).Some?
    ensures NestedFieldConditionIndex(index, fc, leaves).value(pt) == FallbackFieldChecker(fc, provider, nestedPath, leaves)(pt)
  {
    if fc.matchCondition.Some? {
      MatchCheckerAgreesWithScan(index, fc, provider, nestedPath, leaves, pt);
    } else if fc.range.Some? {
      RangeCheckerAgreesWithScan(index, fc, provider, nestedPath, leaves, pt);
    } else {
      GeoCheckerAgreesWithScan(index, fc, provider, nestedPath, leaves, pt);
    }
  }

  /**
   * For a field condition with a single indexable sub-predicate, when
   * every index on `nested_path.key` is built from the payload, the
   * dispatcher's checker reports what the document scan reports, whichever
   * route it takes.
   */
  lemma DispatcherAgreesWithScan(fc: FieldCondition, fieldIndexes: IndexesMap, provider: PayloadProvider,
                                 nestedPath: string, leaves: LeafPredicates, pt: nat)
    requires SingleIndexableSubPredicate(fc)
    requires LeavesMatchIndexes(leaves)
    requires IndexesMirrorPayload(fieldIndexes, AddSegment(nestedPath, fc.key), FieldValues(provider(pt), nestedPath, fc.key).Values(), pt)
    ensures NestedConditionConverter(Field(fc), fieldIndexes, provider, nestedPath, leaves)(pt)
         == FallbackFieldChecker(fc, provider, nestedPath, leaves)(pt)
  {
    var fullPath := AddSegment(nestedPath, fc.key);
    var checker := NestedConditionConverter(Field(fc), fieldIndexes, provider, nestedPath, leaves);
    if fullPath in fieldIndexes && exists i :: 0 <= i < |fieldIndexes[fullPath]| && IndexAccepts(fieldIndexes[fullPath][i], fc) {
      var i: nat :| FirstAccepting(fieldIndexes[fullPath], fc, i)
                 && Some(checker) == NestedFieldConditionIndex(fieldIndexes[fullPath][i], fc, leaves);
      IndexCheckerAgreesWithScan(fieldIndexes[fullPath][i], fc, provider, nestedPath, leaves, pt);
    }
  }

  /** The merged checkers decide as the scan does when each reports the scan's positions. */
  lemma MergeMatchesScanWhenListsAgree(must: seq<Condition>, fieldIndexes: IndexesMap, provider: PayloadProvider,
                                       nestedPath: string, leaves: LeafPredicates, pt: nat)
    requires forall c :: c in must ==> ValidInNestedScope(c)
    requires forall i :: 0 <= i < |must| ==>
      NestedConditionConverter(must[i], fieldIndexes, provider, nestedPath, leaves)(pt).Paths()
        == NestedConditionIndices(nestedPath, provider(pt), leaves, must[i])
    ensures PositionalAnd(CheckerLists(ConvertedCheckers(must, fieldIndexes, provider, nestedPath, leaves), pt))
         == NestedFilterMatches(nestedPath, Filter(None, Some(must), None), provider(pt), leaves)
  {
    assert CheckerLists(ConvertedCheckers(must, fieldIndexes, provider, nestedPath, leaves), pt)
        == ConditionLists(NestedChecker(nestedPath, provider(pt), leaves), must);
  }

  /**
   * With no index at all, merging the dispatcher's checkers decides a
   * nested filter exactly as the document scan does.
   */
  lemma FallbackMergeMatchesScan(must: seq<Condition>, provider: PayloadProvider, nestedPath: string,
                                 leaves: LeafPredicates, pt: nat)
    requires forall c :: c in must ==> ValidInNestedScope(c)
    ensures PositionalAnd(CheckerLists(ConvertedCheckers(must, map[], provider, nestedPath, leaves), pt))
         == NestedFilterMatches(nestedPath, Filter(None, Some(must), None), provider(pt), leaves)
  {
    forall i | 0 <= i < |must|
      ensures NestedConditionConverter(must[i], map[], provider, nestedPath, leaves)(pt).Paths()
           == NestedConditionIndices(nestedPath, provider(pt), leaves, must[i])
    {
      assert must[i] in must;
    }
    MergeMatchesScanWhenListsAgree(must, map[], provider, nestedPath, leaves, pt);
  }

  /**
   * When every field condition of `must` has a single indexable
   * sub-predicate and every index on its path is built from the payload,
   * merging the dispatcher's checkers decides a nested filter exactly as
   * the document scan does.
   */
  lemma IndexedMergeMatchesScan(must: seq<Condition>, fieldIndexes: IndexesMap, provider: PayloadProvider,
                                nestedPath: string, leaves: LeafPredicates, pt: nat)
    requires forall c :: c in must ==> ValidInNestedScope(c)
    requires LeavesMatchIndexes(leaves)
    requires forall c :: c in must && c.Field? ==>
      && SingleIndexableSubPredicate(c.field)
      && IndexesMirrorPayload(fieldIndexes, AddSegment(nestedPath, c.field.key),
                              FieldValues(provider(pt), nestedPath, c.field.key).Values(), pt)
    ensures PositionalAnd(CheckerLists(ConvertedCheckers(must, fieldIndexes, provider, nestedPath, leaves), pt))
         == NestedFilterMatches(nestedPath, Filter(None, Some(must), None), provider(pt), leaves)
  {
    forall i | 0 <= i < |must|
      ensures NestedConditionConverter(must[i], fieldIndexes, provider, nestedPath, leaves)(pt).Paths()
           == NestedConditionIndices(nestedPath, provider(pt), leaves, must[i])
    {
      assert must[i] in must;
      if must[i].Field? {
        DispatcherAgreesWithScan(must[i].field, fieldIndexes, provider, nestedPath, leaves, pt);
      }
    }
    MergeMatchesScanWhenListsAgree(must, fieldIndexes, provider, nestedPath, leaves, pt);
  }
}
