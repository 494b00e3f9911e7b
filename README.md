# Nested filter matching in qdrant, modelled in Dafny

qdrant can filter points by conditions on the elements of an array inside a
payload, such as `country.cities[]`. A nested filter matches a point when
one element satisfies every `must` condition of the filter. Two conditions
satisfied by two different elements are not enough.

The engine does this in two steps:

- Each condition reports the positions of the array elements it accepts.
- A tally counts how many conditions reported each position. The point
  matches when some position was reported by all N conditions.

The positions come from one of two places:

- **Document scan.** The fallback checkers read the point's payload and
  enumerate the values at `nested_path.key`. Each checker handles one kind
  of condition: `IsEmpty`, `IsNull`, or a field condition. A field
  condition is the OR of its sub-predicates: match, range, geo radius, geo
  bounding box and values count.
- **Field index.** When an index exists for the full path, the dispatcher
  asks it for a checker. The sub-predicates are tried in a fixed order:
  match, range, geo radius, then geo bounding box. The first one the index
  supports answers.

The model has seven modules:

- `Wrappers` (`wrappers.dfy`): the `Option` datatype, which stands for Rust's
  `Option`.
- `ElementPositions` (`positions.dfy`): `Positions(s, p)`, the ascending
  list of indices of `s` whose element satisfies `p`. It stands for both
  `enumerate` + `push` and itertools' `positions`.
- `PositionalMerge` (`positional_merge.dfy`): the tally as a multiset.
  - The merge verdict `PositionalAnd`.
  - The counting loop `CountPaths`, over a map kept equal to that multiset.
  - The theorem that the merge is set intersection when no list repeats a
    position.
- `Types` (`types.dfy`): payload values, resolved values (`MultiValue`),
  conditions and filters. It also holds the leaf predicates the engine calls
  but does not define.
- `NestedQueryChecker` (`nested_query_checker.dfy`): the document-scan side.
  The loops of the source are methods, each proved against a specification
  function.
- `NestedFilter` (`nested_filter.dfy`): the index side.
  - checker results;
  - the index checkers of each index kind;
  - the dispatcher `NestedConditionConverter`;
  - the merge method `MergeNestedConditionCheckers`.
  - when the index route and the scan agree: for a field condition with a
    single indexable sub-predicate over indexes built from the payload, the
    dispatcher's checker and the merged verdict equal the scan's.
- `Scenarios` (`scenarios.dfy`):
  - the outcomes the repository's tests assert on the countries dataset;
  - the four merge tests;
  - one divergence between the index path and the scan.

All file paths below are relative to the repository root.

## Model

| member | source | states |
|---|---|---|
| ElementPositions.Positions | lib/segment/src/index/query_optimization/nested_filter.rs:175-181 | The positions of a sequence under a predicate are exactly the indices whose element satisfies it. They are in strictly increasing order and all in bounds. |
| ElementPositions.PositionsEmptyIff | lib/segment/src/payload_storage/nested_query_checker.rs:133-167 | No position is reported exactly when no element satisfies the predicate. |
| ElementPositions.PositionsAgree | lib/segment/src/index/query_optimization/nested_filter.rs:89-109 | Two equally long sequences whose predicates agree index by index have the same positions. |
| PositionalMerge.CountPaths | lib/segment/src/index/query_optimization/nested_filter.rs:66-72 | Counting a list of paths into the entry map leaves it holding the old tally plus every path of the list. |
| PositionalMerge.PositionalAndIsIntersection | lib/segment/src/payload_storage/nested_query_checker.rs:19-26 | A tally of duplicate-free lists has some count equal to the number of lists iff there is at least one list and some position is in all of them. |
| PositionalMerge.EmptyListDefeats | lib/segment/src/payload_storage/nested_query_checker.rs:19-26 | One condition that reports no position makes the merge reject. |
| PositionalMerge.DuplicatesMimicIntersection | lib/segment/src/index/query_optimization/nested_filter.rs:61-77 | The merge counts occurrences, not lists: `[[0, 0], []]` is accepted although no position is in both lists. |
| NestedQueryChecker.CheckAllNestedConditions | lib/segment/src/payload_storage/nested_query_checker.rs:12-29 | The flattened tally loop returns true for an absent `must`. Otherwise it returns true iff some position's count equals the number of conditions. |
| NestedQueryChecker.AbsentAndEmptyMust | lib/segment/src/payload_storage/nested_query_checker.rs:16-27 | An absent `must` list matches; a present but empty one does not. |
| NestedQueryChecker.NestedFilterChecker | lib/segment/src/payload_storage/nested_query_checker.rs:57-64 | A nested filter is decided by its `must` list alone. |
| NestedQueryChecker.OnlyMustIsConsulted | lib/segment/src/payload_storage/nested_query_checker.rs:57-64 | Replacing `should` and `must_not` does not change the verdict. |
| NestedQueryChecker.CheckNestedFilter | lib/segment/src/payload_storage/nested_query_checker.rs:31-55 | A nested filter matches a payload iff `must` is absent, or it is non-empty and some element position is reported by every condition. |
| NestedQueryChecker.NestedFilterMatchesIsIntersection | lib/segment/src/payload_storage/nested_query_checker.rs:31-64 | The scan's verdict for a nested filter is the intersection of its conditions' position lists. |
| NestedQueryChecker.NestedConditionIndicesIncreasing | lib/segment/src/payload_storage/nested_query_checker.rs:39-52 | Every condition allowed in a nested scope reports strictly increasing positions, hence no duplicates. |
| NestedQueryChecker.CheckNestedIsEmptyCondition | lib/segment/src/payload_storage/nested_query_checker.rs:66-85 | The result lists, in increasing order, exactly the positions of values that are null or an empty array. |
| NestedQueryChecker.CheckNestedIsNullCondition | lib/segment/src/payload_storage/nested_query_checker.rs:87-122 | `Single(None)` gives `[0]`; a single value gives `[0]` iff it is null. For many values, the result lists exactly the positions of nulls and of arrays containing a null, in increasing order. |
| NestedQueryChecker.NestedCheckFieldCondition | lib/segment/src/payload_storage/nested_query_checker.rs:124-168 | The result lists, in increasing order, exactly the positions of values on which at least one set sub-predicate holds. |
| NestedQueryChecker.NoSubPredicateMatchesNothing | lib/segment/src/payload_storage/nested_query_checker.rs:136-165 | A field condition with no sub-predicate set reports no position (`map_or(false, …)`). |
| NestedQueryChecker.FieldConditionIsDisjunction | lib/segment/src/payload_storage/nested_query_checker.rs:136-165 | A position is reported iff one of the five sub-predicates is set and holds on that element. |
| NestedQueryChecker.AbsenceAndNull | lib/segment/src/payload_storage/nested_query_checker.rs:97-121 | An absent single value and a single null both count as null, but the absent value does not count as empty. Any array holding a null is null and not empty. |
| NestedFilter.FromMatches | lib/segment/src/index/query_optimization/nested_filter.rs:33-39 | `NoMatch` iff the list is empty; the paths are the list itself. |
| NestedFilter.FromIndexes | lib/segment/src/index/query_optimization/nested_filter.rs:41-48 | `NoMatch` iff the index list is empty; the paths are the list itself. |
| NestedFilter.PositionsChecker | lib/segment/src/index/query_optimization/nested_filter.rs:174-182 | For a point without indexed values the checker reports no match. Otherwise it reports a well-formed result with exactly the positions of the indexed values satisfying the predicate. |
| NestedFilter.GetNestedGeoRadiusCheckers | lib/segment/src/index/query_optimization/nested_filter.rs:169-186 | A checker exists iff the index is a geo index. It reports the positions of the indexed points inside the radius. |
| NestedFilter.GetNestedGeoBoundingBoxCheckers | lib/segment/src/index/query_optimization/nested_filter.rs:188-205 | A checker exists iff the index is a geo index. It reports the positions of the indexed points inside the box. |
| NestedFilter.GetNestedRangeCheckers | lib/segment/src/index/query_optimization/nested_filter.rs:207-233 | A checker exists iff the index is an integer or float index. It reports the positions of the indexed numbers in range. |
| NestedFilter.FullTextChecker | lib/segment/src/index/query_optimization/nested_filter.rs:265-280 | The full-text checker reports no match for every point. |
| NestedFilter.GetNestedMatchCheckers | lib/segment/src/index/query_optimization/nested_filter.rs:235-305 | A checker exists exactly for the compatible pairs: keyword value or any-keywords with a keyword index, integer value or any-integers with an integer map index, and text with a full-text index. It reports the positions of equal or contained values; full-text reports nothing. |
| NestedFilter.NestedFieldConditionIndex | lib/segment/src/index/query_optimization/nested_filter.rs:130-167 | A checker exists iff some set sub-predicate other than values count suits the index. The first suitable one in the order match, range, geo radius, bounding box is used. Its results are well-formed. |
| NestedFilter.ValuesCountNeverAccelerated | lib/segment/src/index/query_optimization/nested_filter.rs:130-167 | The `values_count` sub-predicate never influences which index checker is chosen. |
| NestedFilter.FirstIndexChecker | lib/segment/src/index/query_optimization/nested_filter.rs:91-98 | No checker iff no index on the path accepts the condition. Otherwise the checker is that of the first accepting index. |
| NestedFilter.FallbackFieldChecker | lib/segment/src/index/query_optimization/nested_filter.rs:99-109 | For every point, the scan checker reports exactly the positions of the payload values the field condition holds on, well-formed. |
| NestedFilter.FallbackChecker | lib/segment/src/index/query_optimization/nested_filter.rs:111-122 | `IsEmpty` and `IsNull` checkers report the scan's positions for every point, well-formed. |
| NestedFilter.NestedConditionConverter | lib/segment/src/index/query_optimization/nested_filter.rs:81-128 | Results are always well-formed. `IsEmpty` and `IsNull` always scan. A field condition uses the first accepting index on `nested_path.key`, or scans when none accepts or no index exists. |
| NestedFilter.MergeNestedConditionCheckers | lib/segment/src/index/query_optimization/nested_filter.rs:51-79 | The nested counting loops accept a point iff some path's count equals the number of checkers. |
| NestedFilter.MergeIsIntersection | lib/segment/src/index/query_optimization/nested_filter.rs:51-79 | With well-formed checkers, the merge accepts iff there is a checker and some path is reported by all of them. |
| NestedFilter.ConvertedCheckers | lib/segment/src/index/query_optimization/nested_filter.rs:81-128 | Converting a list of nested-scope conditions yields one well-formed checker per condition, in order. |
| NestedFilter.ConvertedMergeIsIntersection | lib/segment/src/index/query_optimization/nested_filter.rs:51-128 | Merging the dispatcher's checkers for a `must` list is position intersection. |
| NestedFilter.IndexAgreesWithFallback | lib/segment/src/index/query_optimization/nested_filter.rs:89-109 | A generic positions checker agrees with the scan at a point when its predicate does. Position by position, the predicate on the indexed values must agree with the field condition on the payload values. The index may hold nothing only when no payload value matches. |
| NestedFilter.ReportsPositionsDetermines | lib/segment/src/index/query_optimization/nested_filter.rs:174-182 | Any checker that reports, well-formed, exactly the positions of the indexed values satisfying a predicate equals the positions checker at every point. |
| NestedFilter.MirroredCheckerAgrees | lib/segment/src/index/query_optimization/nested_filter.rs:89-109 | A positions checker over an index built from the payload reports what the scan reports, when its predicate agrees with the field condition on every encoded value. |
| NestedFilter.MatchCheckerAgreesWithScan | lib/segment/src/index/query_optimization/nested_filter.rs:235-305 | A field condition whose only sub-predicate is a keyword or integer match (one value or any of a list) gets, from a matching index built from the payload, the scan's result. This assumes the match leaf predicate compares the encoded values. |
| NestedFilter.RangeCheckerAgreesWithScan | lib/segment/src/index/query_optimization/nested_filter.rs:207-233 | A field condition whose only sub-predicate is a range gets, from an integer or float index built from the payload, the scan's result. This assumes the payload range check and the index range check agree on numbers. |
| NestedFilter.GeoCheckerAgreesWithScan | lib/segment/src/index/query_optimization/nested_filter.rs:169-205 | A field condition whose only sub-predicate is a geo radius or a bounding box gets, from a geo index built from the payload, the scan's result. This assumes the payload and index geo checks agree on points. |
| NestedFilter.IndexCheckerAgreesWithScan | lib/segment/src/index/query_optimization/nested_filter.rs:130-167 | For a field condition with exactly one sub-predicate, which is not full text, and no values count, any accepting index built from the payload yields a checker that reports the scan's result at every point. |
| NestedFilter.DispatcherAgreesWithScan | lib/segment/src/index/query_optimization/nested_filter.rs:89-109 | For such a field condition, when every index on `nested_path.key` is built from the payload, the dispatcher's checker equals the scan checker, whether it takes an index or scans. |
| NestedFilter.MergeMatchesScanWhenListsAgree | lib/segment/src/index/query_optimization/nested_filter.rs:51-128 | When each converted checker reports the scan's positions, the merged verdict equals the document scan's verdict on the `must` list. |
| NestedFilter.FallbackMergeMatchesScan | lib/segment/src/index/query_optimization/nested_filter.rs:51-128 | With no index at all, merging the dispatcher's checkers gives the document scan's verdict, for every `must` list. |
| NestedFilter.IndexedMergeMatchesScan | lib/segment/src/index/query_optimization/nested_filter.rs:51-128 | When every field condition of `must` has one indexable sub-predicate and every index on its path is built from the payload, merging the dispatcher's checkers gives the document scan's verdict. |
| Scenarios.MergeAllEmpty | lib/segment/src/index/query_optimization/nested_filter.rs:311-328 | Three checkers matching nothing do not merge into a match. |
| Scenarios.MergeSingleMatching | lib/segment/src/index/query_optimization/nested_filter.rs:330-346 | Three checkers that all report path 0 merge into a match. |
| Scenarios.MergeSingleNonMatching | lib/segment/src/index/query_optimization/nested_filter.rs:348-365 | Paths 0, 0 and 1 do not merge into a match. |
| Scenarios.MergeManyMatching | lib/segment/src/index/query_optimization/nested_filter.rs:367-384 | Paths {0, 1}, {0, 1} and {0} merge into a match. |
| Scenarios.NameMatchGermany | lib/segment/src/payload_storage/nested_query_checker.rs:307-316 | Matching `country.name` against "Germany" accepts Germany. |
| Scenarios.NameMatchJapan | lib/segment/src/payload_storage/nested_query_checker.rs:307-317 | The name match rejects Japan. |
| Scenarios.NameMatchBoring | lib/segment/src/payload_storage/nested_query_checker.rs:307-318 | The name match rejects Boring. |
| Scenarios.PopulationRangeGermany | lib/segment/src/payload_storage/nested_query_checker.rs:320-334 | No German city has a population above 8. |
| Scenarios.PopulationRangeJapan | lib/segment/src/payload_storage/nested_query_checker.rs:320-335 | Japan has a city (Tokyo) above 8. |
| Scenarios.PopulationRangeBoring | lib/segment/src/payload_storage/nested_query_checker.rs:320-336 | Boring's only city is not above 8. |
| Scenarios.SightseeingCountGermany | lib/segment/src/payload_storage/nested_query_checker.rs:338-352 | No German city lists at least 3 sights. |
| Scenarios.SightseeingCountJapan | lib/segment/src/payload_storage/nested_query_checker.rs:338-353 | Tokyo lists 3 sights. |
| Scenarios.SightseeingCountBoring | lib/segment/src/payload_storage/nested_query_checker.rs:338-354 | Boring's city lists none. |
| Scenarios.SightseeingIsEmptyGermany | lib/segment/src/payload_storage/nested_query_checker.rs:356-366 | No German city has an empty sightseeing list. |
| Scenarios.SightseeingIsEmptyJapan | lib/segment/src/payload_storage/nested_query_checker.rs:356-367 | No Japanese city has an empty sightseeing list. |
| Scenarios.SightseeingIsEmptyBoring | lib/segment/src/payload_storage/nested_query_checker.rs:356-368 | Boring's city has an empty sightseeing list. |
| Scenarios.LocationIsNullGermany | lib/segment/src/payload_storage/nested_query_checker.rs:370-380 | No German city has a null location. |
| Scenarios.LocationIsNullJapan | lib/segment/src/payload_storage/nested_query_checker.rs:370-381 | No Japanese city has a null location. |
| Scenarios.LocationIsNullBoring | lib/segment/src/payload_storage/nested_query_checker.rs:370-382 | Boring's city, which has no location, counts as null. |
| Scenarios.BerlinBoxGermany | lib/segment/src/payload_storage/nested_query_checker.rs:384-403 | Berlin lies in the bounding box, so Germany matches. |
| Scenarios.BerlinBoxJapan | lib/segment/src/payload_storage/nested_query_checker.rs:384-404 | No Japanese city lies in the box. |
| Scenarios.BerlinBoxBoring | lib/segment/src/payload_storage/nested_query_checker.rs:384-405 | Boring's city has no location, so it is not in the box. |
| Scenarios.PartialAccelerationDiverges | lib/segment/src/index/query_optimization/nested_filter.rs:89-98 | A field condition that combines a keyword match with a values count can get different answers. Through a keyword index it reports no match; by scanning the same document it reports position 0. |

Two behaviours of the code may not be what a reader expects. The model
follows the code in both:

- **A present but empty `must` list.** One might expect it to match every
  point, as an absent `must` does. The doc comment at `nested_filter.rs:53`
  says the merged checker returns true "if all nested condition checkers"
  do. But the code's tally is then empty, so `any` returns false.
  `AbsentAndEmptyMust` states the code's behaviour.
- **Field conditions with several sub-predicates.** Answering such a
  condition through an index is not the same as the scan's OR of its
  sub-predicates. The code uses the first sub-predicate the index supports
  and ignores the rest. `PartialAccelerationDiverges` shows the effect.

## Left out

- The leaf predicates are parameters of the model (the `LeafPredicates` datatype). These are each sub-predicate's `ValueChecker::check`, `Range::check_range` and the geo `check_point` functions, which are defined outside these files. The scenarios supply simple stand-ins for them.
- `Payload::get_value` is defined outside these files. The model is a function from a full path to a `MultiValue`. The scenario payloads list only the paths the tests read, with the values the test JSON implies. In the Boring fixture the whole path `country.cities[].location` resolves to `Single(None)`, because Boring's only city has no location. The Germany and Japan fixtures resolve their paths to `Multiple`. This is a choice of fixture: the value `get_value` really returns for this path is outside these files.
- `JsonPathPayload::add_segment` is not part of this model. It is taken to build `nested_path + "." + key`, as the `format!` in `nested_filter.rs` does.
- Payload access is not modelled: `with_payload`, the value returned by `get_payload()`, lifetimes and boxing of closures. A point's payload is a plain parameter (`PayloadProvider`).
- `IdTrackerSS` is accepted but never used by the converter, so it is not modelled.
- Positions are natural numbers. `from_indexes` turns them into decimal strings and the merge keys its map by those strings. Decimal printing is injective, so the counts are the same either way.
- NestedFilter.GetNestedRangeCheckers: the cast of an indexed integer to a float is exact here. Large integers that round in a 64-bit float are not modelled.
- NestedFilter.FullTextChecker: `parse_query` and `check_match` are not modelled. The parsed query is kept and passed to `check_match` (`nested_filter.rs:267`, `272`). Only `check_match`'s result is discarded, and every point reports no match in any case.
- How a field index is filled is not part of this model. The agreement lemmas assume that each index on the path holds, per point, one encoded value per payload value, in order (`IndexMirrorsPayload`), and that the leaf predicates on payload values agree with the index-side predicates on those encodings (`LeavesMatchIndexes`).
- `nested_condition_converter` takes `nested_path` as a `&str` (`nested_filter.rs:86`). It passes it at `nested_filter.rs:105`, `114` and `120` to functions declared to take a `&JsonPathPayload` (`nested_query_checker.rs:68`, `89`, `128`). As written this does not type-check either. The model uses one string path on both sides and treats `add_segment` and the `format!` at `nested_filter.rs:90` as the same `nested_path + "." + key`.
- The scan fallbacks pass lists of positions (`Vec<usize>`) to `from_matches`, which is declared to take `Vec<String>` (`nested_filter.rs:33`, `102-107`, `114-115`, `120-121`). As written this does not type-check. The model treats both `from_matches` and `from_indexes` as taking positions.
- Concrete index structures (`get_values`, `get_doc`) are functions from a point to its values.
- The geo radius test (`nested_query_checker.rs:407-425`) is not reproduced. Distance on the sphere is not part of this model, and the scenarios' radius stand-in is always false.
- `HasId`, `Nested` and `Filter` conditions inside a nested scope reach `unreachable!()` in the source. The model excludes them through the precondition `ValidInNestedScope`.
- `should` and `must_not` of a nested filter are ignored by the source, and `OnlyMustIsConsulted` states this. They are not evaluated.
- `scalar_quantized_mmap_storage.rs` is unrelated to nested filtering and is not part of this model.
