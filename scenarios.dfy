/**
 * The outcomes the repository's tests assert, stated as lemmas about the
 * model. The leaf predicates of the tests (value match, numeric range,
 * values count, bounding box) are given concrete stand-ins here; the geo
 * radius test is not reproduced, since distance on the sphere is not part
 * of this model.
 */
module Scenarios {
  import opened Wrappers
  import opened ElementPositions
  import opened Types
  import opened PositionalMerge
  import opened NestedQueryChecker
  import opened NestedFilter

  // ---------------------------------------------------------------------
  // Merging fixed checker results
  // ---------------------------------------------------------------------

  function Constant(result: NestedConditionCheckerResult): NestedConditionCheckerFn
  {
    (pt: nat) => result
  }

  function Checkers(a: seq<nat>, b: seq<nat>, c: seq<nat>): seq<NestedConditionCheckerFn>
  {
    [Constant(FromMatches(a)), Constant(FromMatches(b)), Constant(FromMatches(c))]
  }

  lemma MergeAllEmpty()
    ensures !PositionalAnd(CheckerLists(Checkers([], [], []), 0))
  {
    MergeIsIntersection(Checkers([], [], []), 0);
    assert CheckerLists(Checkers([], [], []), 0)[0] == [];
  }

  lemma MergeSingleMatching()
    ensures PositionalAnd(CheckerLists(Checkers([0], [0], [0]), 0))
  {
    var lists := CheckerLists(Checkers([0], [0], [0]), 0);
    MergeIsIntersection(Checkers([0], [0], [0]), 0);
    assert lists == [[0], [0], [0]];
    assert InAll(lists, 0);
  }

  lemma MergeSingleNonMatching()
    ensures !PositionalAnd(CheckerLists(Checkers([0], [0], [1]), 0))
  {
    var lists := CheckerLists(Checkers([0], [0], [1]), 0);
    MergeIsIntersection(Checkers([0], [0], [1]), 0);
    assert lists == [[0], [0], [1]];
    forall p ensures !InAll(lists, p) {
      assert p in lists[0] ==> p == 0;
      assert p in lists[2] ==> p == 1;
    }
  }

  lemma MergeManyMatching()
    ensures PositionalAnd(CheckerLists(Checkers([0, 1], [0, 1], [0]), 0))
  {
    var lists := CheckerLists(Checkers([0, 1], [0, 1], [0]), 0);
    MergeIsIntersection(Checkers([0, 1], [0, 1], [0]), 0);
    assert lists == [[0, 1], [0, 1], [0]];
    assert InAll(lists, 0);
  }

  // ---------------------------------------------------------------------
  // Stand-ins for the leaf predicates
  // ---------------------------------------------------------------------

  predicate InBounds(x: real, lt: Option<real>, gt: Option<real>, gte: Option<real>, lte: Option<real>)
  {
    && (lt.Some? ==> x < lt.value)
    && (gt.Some? ==> x > gt.value)
    && (gte.Some? ==> x >= gte.value)
    && (lte.Some? ==> x <= lte.value)
  }

  function Member(members: seq<(string, Value)>, key: string): Option<Value>
  {
    if |members| == 0 then None
    else if members[0].0 == key then Some(members[0].1)
    else Member(members[1..], key)
  }

  function Coordinate(v: Value, key: string): Option<real>
  {
    if v.Object? && Member(v.members, key).Some? && Member(v.members, key).value.Number?
    then Some(Member(v.members, key).value.n)
    else None
  }

  predicate InBox(box: GeoBoundingBox, lon: real, lat: real)
  {
    box.topLeft.lon <= lon <= box.bottomRight.lon && box.bottomRight.lat <= lat <= box.topLeft.lat
  }

  function ValueCount(v: Value): nat
  {
    if v.Array? then |v.items| else 1
  }

  function TestLeaves(): LeafPredicates
  {
    LeafPredicates(
      (m: Match, v: Value) => m.MatchValue? && m.value.Keyword? && v.String? && v.s == m.value.keyword,
      (r: Range, v: Value) => v.Number? && InBounds(v.n, r.lt, r.gt, r.gte, r.lte),
      (g: GeoRadius, v: Value) => false,
      (b: GeoBoundingBox, v: Value) =>
        Coordinate(v, "lon").Some? && Coordinate(v, "lat").Some? &&
        InBox(b, Coordinate(v, "lon").value, Coordinate(v, "lat").value),
      (c: ValuesCount, v: Value) =>
        var n := ValueCount(v) as real;
        InBounds(n, OptionReal(c.lt), OptionReal(c.gt), OptionReal(c.gte), OptionReal(c.lte)),
      (r: Range, x: real) => InBounds(x, r.lt, r.gt, r.gte, r.lte),
      (g: GeoRadius, lon: real, lat: real) => false,
      (b: GeoBoundingBox, lon: real, lat: real) => InBox(b, lon, lat))
  }

  function OptionReal(o: Option<nat>): Option<real>
  {
    if o.Some? then Some(o.value as real) else None
  }

  // ---------------------------------------------------------------------
  // The countries dataset, as resolved by path
  // ---------------------------------------------------------------------

  const Cities := "country.cities[]"

  function Location(lon: real, lat: real): Value
  {
    Object([("lon", Number(lon)), ("lat", Number(lat))])
  }

  function Sights(names: seq<string>): Value
  {
    Array(seq(|names|, i requires 0 <= i < |names| => String(names[i])))
  }

  function GermanyPopulation(): seq<Value> { [Number(3.7), Number(1.5), Number(1.8)] }

  function GermanyLocations(): seq<Value>
  {
    [Location(13.76116, 52.33826), Location(11.57549, 48.13743), Location(9.99368, 53.55108)]
  }

  function GermanySights(): seq<Value>
  {
    [Sights(["Brandenburg Gate", "Reichstag"]), Sights(["Marienplatz", "Olympiapark"]),
     Sights(["Reeperbahn", "Elbphilharmonie"])]
  }

  function JapanPopulation(): seq<Value> { [Number(13.5), Number(2.7), Number(1.5)] }

  function JapanLocations(): seq<Value>
  {
    [Location(139.69171, 35.6895), Location(135.50217, 34.69374), Location(135.76803, 35.01163)]
  }

  function JapanSights(): seq<Value>
  {
    [Sights(["Tokyo Tower", "Tokyo Skytree", "Tokyo Disneyland"]),
     Sights(["Osaka Castle", "Universal Studios Japan"]),
     Sights(["Kiyomizu-dera", "Fushimi Inari-taisha"])]
  }

  function Germany(): Payload
  {
    Payload((path: string) =>
      if path == AddSegment("country", "name") then Single(Some(String("Germany")))
      else if path == AddSegment(Cities, "population") then Multiple(GermanyPopulation())
      else if path == AddSegment(Cities, "location") then Multiple(GermanyLocations())
      else if path == AddSegment(Cities, "sightseeing") then Multiple(GermanySights())
      else Single(None))
  }

  function Japan(): Payload
  {
    Payload((path: string) =>
      if path == AddSegment("country", "name") then Single(Some(String("Japan")))
      else if path == AddSegment(Cities, "population") then Multiple(JapanPopulation())
      else if path == AddSegment(Cities, "location") then Multiple(JapanLocations())
      else if path == AddSegment(Cities, "sightseeing") then Multiple(JapanSights())
      else Single(None))
  }

  /** The one city has no location, which the resolver reports as absent. */
  function Boring(): Payload
  {
    Payload((path: string) =>
      if path == AddSegment("country", "name") then Single(Some(String("Boring")))
      else if path == AddSegment(Cities, "population") then Multiple([Number(0.0)])
      else if path == AddSegment(Cities, "sightseeing") then Multiple([Sights([])])
      else Single(None))
  }

  function MustOnly(c: Condition): Filter
  {
    Filter(None, Some([c]), None)
  }

  function NoSubPredicates(key: string): FieldCondition
  {
    FieldCondition(key, None, None, None, None, None)
  }

  /** A nested filter with a single `must` condition matches iff that condition reports a position. */
  lemma SingleConditionFilter(nestedPath: string, c: Condition, payload: Payload, leaves: LeafPredicates)
    requires ValidInNestedScope(c)
    ensures NestedFilterMatches(nestedPath, MustOnly(c), payload, leaves) <==>
      NestedConditionIndices(nestedPath, payload, leaves, c) != []
  {
    NestedFilterMatchesIsIntersection(nestedPath, MustOnly(c), payload, leaves);
    var lists := ConditionLists(NestedChecker(nestedPath, payload, leaves), [c]);
    var indices := NestedConditionIndices(nestedPath, payload, leaves, c);
    assert |lists| == 1 && lists[0] == indices;
    if indices != [] {
      assert InAll(lists, indices[0]);
    }
  }

  /** A single field condition matches iff some resolved value satisfies it. */
  lemma FieldOutcome(nestedPath: string, fc: FieldCondition, payload: Payload, vs: seq<Value>)
    requires FieldValues(payload, nestedPath, fc.key).Values() == vs
    ensures NestedFilterMatches(nestedPath, MustOnly(Field(fc)), payload, TestLeaves()) <==>
      exists i :: 0 <= i < |vs| && FieldConditionHolds(TestLeaves(), fc, vs[i])
  {
    SingleConditionFilter(nestedPath, Field(fc), payload, TestLeaves());
    PositionsEmptyIff(vs, v => FieldConditionHolds(TestLeaves(), fc, v));
  }

  /** What resolving the test's paths yields for each country. */
  lemma GermanyResolves()
    ensures Germany().getValue(AddSegment("country", "name")) == Single(Some(String("Germany")))
    ensures Germany().getValue(AddSegment(Cities, "population")) == Multiple(GermanyPopulation())
    ensures Germany().getValue(AddSegment(Cities, "location")) == Multiple(GermanyLocations())
    ensures Germany().getValue(AddSegment(Cities, "sightseeing")) == Multiple(GermanySights())
  {
  }

  lemma JapanResolves()
    ensures Japan().getValue(AddSegment("country", "name")) == Single(Some(String("Japan")))
    ensures Japan().getValue(AddSegment(Cities, "population")) == Multiple(JapanPopulation())
    ensures Japan().getValue(AddSegment(Cities, "location")) == Multiple(JapanLocations())
    ensures Japan().getValue(AddSegment(Cities, "sightseeing")) == Multiple(JapanSights())
  {
  }

  lemma BoringResolves()
    ensures Boring().getValue(AddSegment("country", "name")) == Single(Some(String("Boring")))
    ensures Boring().getValue(AddSegment(Cities, "population")) == Multiple([Number(0.0)])
    ensures Boring().getValue(AddSegment(Cities, "location")) == Single(None)
    ensures Boring().getValue(AddSegment(Cities, "sightseeing")) == Multiple([Sights([])])
  {
  }

  function NameIsGermany(): FieldCondition
  {
    NoSubPredicates("name").(matchCondition := Some(MatchValue(Keyword("Germany"))))
  }

  /** The nested name match accepts Germany. */
  lemma NameMatchGermany()
    ensures NestedFilterMatches("country", MustOnly(Field(NameIsGermany())), Germany(), TestLeaves())
  {
    GermanyResolves();
    var vs := [String("Germany")];
    FieldOutcome("country", NameIsGermany(), Germany(), vs);
    assert FieldConditionHolds(TestLeaves(), NameIsGermany(), vs[0]);
  }

  /** The nested name match rejects Japan. */
  lemma NameMatchJapan()
    ensures !NestedFilterMatches("country", MustOnly(Field(NameIsGermany())), Japan(), TestLeaves())
  {
    JapanResolves();
    FieldOutcome("country", NameIsGermany(), Japan(), [String("Japan")]);
  }

  /** The nested name match rejects Boring. */
  lemma NameMatchBoring()
    ensures !NestedFilterMatches("country", MustOnly(Field(NameIsGermany())), Boring(), TestLeaves())
  {
    BoringResolves();
    FieldOutcome("country", NameIsGermany(), Boring(), [String("Boring")]);
  }

  function PopulationAbove8(): FieldCondition
  {
    NoSubPredicates("population").(range := Some(Range(None, Some(8.0), None, None)))
  }

  /** No German city has a population above 8. */
  lemma PopulationRangeGermany()
    ensures !NestedFilterMatches(Cities, MustOnly(Field(PopulationAbove8())), Germany(), TestLeaves())
  {
    GermanyResolves();
    assert forall i | 0 <= i < |GermanyPopulation()| :: !FieldConditionHolds(TestLeaves(), PopulationAbove8(), GermanyPopulation()[i]);
    FieldOutcome(Cities, PopulationAbove8(), Germany(), GermanyPopulation());
  }

  /** Tokyo has a population above 8. */
  lemma PopulationRangeJapan()
    ensures NestedFilterMatches(Cities, MustOnly(Field(PopulationAbove8())), Japan(), TestLeaves())
  {
    JapanResolves();
    var vs := JapanPopulation();
    FieldOutcome(Cities, PopulationAbove8(), Japan(), vs);
    assert FieldConditionHolds(TestLeaves(), PopulationAbove8(), vs[0]);
  }

  /** Boring's one city has no population above 8. */
  lemma PopulationRangeBoring()
    ensures !NestedFilterMatches(Cities, MustOnly(Field(PopulationAbove8())), Boring(), TestLeaves())
  {
    BoringResolves();
    FieldOutcome(Cities, PopulationAbove8(), Boring(), [Number(0.0)]);
  }

  function AtLeast3Sights(): FieldCondition
  {
    NoSubPredicates("sightseeing").(valuesCount := Some(ValuesCount(None, None, Some(3), None)))
  }

  /** Every German city lists two sights, too few for a count of at least 3. */
  lemma SightseeingCountGermany()
    ensures !NestedFilterMatches(Cities, MustOnly(Field(AtLeast3Sights())), Germany(), TestLeaves())
  {
    GermanyResolves();
    assert forall i | 0 <= i < |GermanySights()| :: ValueCount(GermanySights()[i]) == 2;
    assert forall i | 0 <= i < |GermanySights()| :: !FieldConditionHolds(TestLeaves(), AtLeast3Sights(), GermanySights()[i]);
    FieldOutcome(Cities, AtLeast3Sights(), Germany(), GermanySights());
  }

  /** Tokyo lists three sights. */
  lemma SightseeingCountJapan()
    ensures NestedFilterMatches(Cities, MustOnly(Field(AtLeast3Sights())), Japan(), TestLeaves())
  {
    JapanResolves();
    var vs := JapanSights();
    FieldOutcome(Cities, AtLeast3Sights(), Japan(), vs);
    assert ValueCount(vs[0]) == 3;
    assert FieldConditionHolds(TestLeaves(), AtLeast3Sights(), vs[0]);
  }

  /** Boring's city lists no sights. */
  lemma SightseeingCountBoring()
    ensures !NestedFilterMatches(Cities, MustOnly(Field(AtLeast3Sights())), Boring(), TestLeaves())
  {
    BoringResolves();
    var vs := [Sights([])];
    assert ValueCount(vs[0]) == 0;
    FieldOutcome(Cities, AtLeast3Sights(), Boring(), vs);
  }

  function BerlinBox(): FieldCondition
  {
    NoSubPredicates("location").(geoBoundingBox := Some(GeoBoundingBox(GeoPoint(13.08835, 52.67551), GeoPoint(13.76117, 52.33825))))
  }

  lemma BerlinInBox()
    ensures FieldConditionHolds(TestLeaves(), BerlinBox(), GermanyLocations()[0])
  {
    var berlin := GermanyLocations()[0];
    assert Coordinate(berlin, "lon") == Some(13.76116);
    assert Coordinate(berlin, "lat") == Some(52.33826);
  }

  /** Berlin lies in the bounding box. */
  lemma BerlinBoxGermany()
    ensures NestedFilterMatches(Cities, MustOnly(Field(BerlinBox())), Germany(), TestLeaves())
  {
    GermanyResolves();
    BerlinInBox();
    FieldOutcome(Cities, BerlinBox(), Germany(), GermanyLocations());
  }

  /** No Japanese city lies in the bounding box. */
  lemma BerlinBoxJapan()
    ensures !NestedFilterMatches(Cities, MustOnly(Field(BerlinBox())), Japan(), TestLeaves())
  {
    JapanResolves();
    assert forall i | 0 <= i < |JapanLocations()| :: !FieldConditionHolds(TestLeaves(), BerlinBox(), JapanLocations()[i]);
    FieldOutcome(Cities, BerlinBox(), Japan(), JapanLocations());
  }

  /** Boring's city has no location to lie in the bounding box. */
  lemma BerlinBoxBoring()
    ensures !NestedFilterMatches(Cities, MustOnly(Field(BerlinBox())), Boring(), TestLeaves())
  {
    BoringResolves();
    FieldOutcome(Cities, BerlinBox(), Boring(), []);
  }

  function SightseeingIsEmpty(): Condition
  {
    IsEmpty(IsEmptyCondition(PayloadField("sightseeing")))
  }

  /** Every German city lists sights, so none is empty. */
  lemma SightseeingIsEmptyGermany()
    ensures !NestedFilterMatches(Cities, MustOnly(SightseeingIsEmpty()), Germany(), TestLeaves())
  {
    GermanyResolves();
    assert forall i | 0 <= i < |GermanySights()| :: !IsEmptyElement(GermanySights()[i]);
    PositionsEmptyIff(GermanySights(), IsEmptyElement);
    SingleConditionFilter(Cities, SightseeingIsEmpty(), Germany(), TestLeaves());
  }

  /** Every Japanese city lists sights, so none is empty. */
  lemma SightseeingIsEmptyJapan()
    ensures !NestedFilterMatches(Cities, MustOnly(SightseeingIsEmpty()), Japan(), TestLeaves())
  {
    JapanResolves();
    assert forall i | 0 <= i < |JapanSights()| :: !IsEmptyElement(JapanSights()[i]);
    PositionsEmptyIff(JapanSights(), IsEmptyElement);
    SingleConditionFilter(Cities, SightseeingIsEmpty(), Japan(), TestLeaves());
  }

  /** Boring's city lists no sights, which counts as empty. */
  lemma SightseeingIsEmptyBoring()
    ensures NestedFilterMatches(Cities, MustOnly(SightseeingIsEmpty()), Boring(), TestLeaves())
  {
    BoringResolves();
    assert IsEmptyElement(Sights([]));
    PositionsEmptyIff([Sights([])], IsEmptyElement);
    SingleConditionFilter(Cities, SightseeingIsEmpty(), Boring(), TestLeaves());
  }

  function LocationIsNull(): Condition
  {
    IsNull(IsNullCondition(PayloadField("location")))
  }

  /** Every German city has a location, so none is null. */
  lemma LocationIsNullGermany()
    ensures !NestedFilterMatches(Cities, MustOnly(LocationIsNull()), Germany(), TestLeaves())
  {
    GermanyResolves();
    assert forall i | 0 <= i < |GermanyLocations()| :: !IsNullElement(GermanyLocations()[i]);
    PositionsEmptyIff(GermanyLocations(), IsNullElement);
    SingleConditionFilter(Cities, LocationIsNull(), Germany(), TestLeaves());
  }

  /** Every Japanese city has a location, so none is null. */
  lemma LocationIsNullJapan()
    ensures !NestedFilterMatches(Cities, MustOnly(LocationIsNull()), Japan(), TestLeaves())
  {
    JapanResolves();
    assert forall i | 0 <= i < |JapanLocations()| :: !IsNullElement(JapanLocations()[i]);
    PositionsEmptyIff(JapanLocations(), IsNullElement);
    SingleConditionFilter(Cities, LocationIsNull(), Japan(), TestLeaves());
  }

  /** A location the resolver reports as absent counts as null. */
  lemma LocationIsNullBoring()
    ensures NestedFilterMatches(Cities, MustOnly(LocationIsNull()), Boring(), TestLeaves())
  {
    BoringResolves();
    SingleConditionFilter(Cities, LocationIsNull(), Boring(), TestLeaves());
  }

  /** A keyword match on `tag` together with a values count of at least 1. */
  function TagCondition(): FieldCondition
  {
    FieldCondition("tag", Some(MatchValue(Keyword("a"))), None, None, None, Some(ValuesCount(None, None, Some(1), None)))
  }

  /** A keyword index on `items[].tag` that holds `b` for every point. */
  function TagIndexes(): IndexesMap
  {
    map[AddSegment("items[]", "tag") := [KeywordIndex((pt: nat) => Some(["b"]))]]
  }

  /** Every point's `items[].tag` resolves to the single element `b`. */
  function TagDocuments(): PayloadProvider
  {
    (pt: nat) => Payload((path: string) => Multiple([String("b")]))
  }

  lemma TagIndexed()
    ensures NestedConditionConverter(Field(TagCondition()), TagIndexes(), TagDocuments(), "items[]", TestLeaves())(0) == NoMatch
  {
    var index := KeywordIndex((pt: nat) => Some(["b"]));
    assert TagIndexes()[AddSegment("items[]", "tag")] == [index];
    assert IndexAccepts(index, TagCondition());
    assert FirstAccepting([index], TagCondition(), 0);
    assert !EqualTo("a")("b");
  }

  lemma TagScanned()
    ensures NestedConditionConverter(Field(TagCondition()), map[], TagDocuments(), "items[]", TestLeaves())(0) == Matches([0])
  {
    var scanned := NestedConditionConverter(Field(TagCondition()), map[], TagDocuments(), "items[]", TestLeaves());
    assert FieldConditionHolds(TestLeaves(), TagCondition(), String("b"));
    IncreasingUnique(scanned(0).Paths(), [0]);
  }

  /**
   * The index path and the document scan disagree on a field condition
   * with two sub-predicates: a keyword index answers only its `match`,
   * while the scan also accepts the element by its `values_count`. The
   * index holds the same keyword as the document.
   */
  lemma PartialAccelerationDiverges()
    ensures NestedConditionConverter(Field(TagCondition()), TagIndexes(), TagDocuments(), "items[]", TestLeaves())(0) == NoMatch
    ensures NestedConditionConverter(Field(TagCondition()), map[], TagDocuments(), "items[]", TestLeaves())(0) == Matches([0])
  {
    TagIndexed();
    TagScanned();
  }
}
