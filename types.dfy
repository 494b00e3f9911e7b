/**
 * Payload values, resolved field values, conditions and filters: the data
 * the nested matching engine reads. Nothing here is mutated by the engine.
 */
module Types {
  import opened Wrappers

  /** A JSON payload value (serde_json's `Value`); numbers are kept as reals. */
  datatype Value =
    | Null
    | Bool(b: bool)
    | Number(n: real)
    | String(s: string)
    | Array(items: seq<Value>)
    | Object(members: seq<(string, Value)>)

  /**
   * What resolving a path yields: one optional value outside any array, or
   * one value per array element when the path descends into an array.
   */
  datatype MultiValue = Single(single: Option<Value>) | Multiple(multiple: seq<Value>)
  {
    /** The values to enumerate: an absent single value contributes none. */
    function Values(): seq<Value>
    {
      match this
      case Single(None) => []
      case Single(Some(v)) => [v]
      case Multiple(vs) => vs
    }
  }

  /**
   * A payload document, seen only through path resolution: `getValue`
   * stands for `payload.get_value(path)`, whose definition is not part of
   * this model.
   */
  datatype Payload = Payload(getValue: string -> MultiValue)

  /** The full path of `key` inside the nested path (`nested_path.key`). */
  function AddSegment(nestedPath: string, key: string): (full: string)
    ensures |full| == |nestedPath| + 1 + |key|
    ensures full[..|nestedPath|] == nestedPath && full[|nestedPath|] == '.'
    ensures full[|nestedPath| + 1..] == key
  {
    nestedPath + "." + key
  }

  datatype GeoPoint = GeoPoint(lon: real, lat: real)

  datatype ValueVariants = Keyword(keyword: string) | Integer(integer: int)

  datatype AnyVariants = Keywords(keywords: seq<string>) | Integers(integers: seq<int>)

  datatype Match =
    | MatchValue(value: ValueVariants)
    | MatchText(text: string)
    | MatchAny(any: AnyVariants)

  datatype Range = Range(lt: Option<real>, gt: Option<real>, gte: Option<real>, lte: Option<real>)

  datatype GeoRadius = GeoRadius(center: GeoPoint, radius: real)

  datatype GeoBoundingBox = GeoBoundingBox(topLeft: GeoPoint, bottomRight: GeoPoint)

  datatype ValuesCount = ValuesCount(lt: Option<nat>, gt: Option<nat>, gte: Option<nat>, lte: Option<nat>)

  /** A condition on one field; each sub-predicate is optional. */
  datatype FieldCondition = FieldCondition(
    key: string,
    matchCondition: Option<Match>,
    range: Option<Range>,
    geoRadius: Option<GeoRadius>,
    geoBoundingBox: Option<GeoBoundingBox>,
    valuesCount: Option<ValuesCount>)

  datatype PayloadField = PayloadField(key: string)

  datatype IsEmptyCondition = IsEmptyCondition(isEmpty: PayloadField)

  datatype IsNullCondition = IsNullCondition(isNull: PayloadField)

  datatype Condition =
    | Field(field: FieldCondition)
    | IsEmpty(emptyCondition: IsEmptyCondition)
    | IsNull(nullCondition: IsNullCondition)
    | HasId(hasId: set<nat>)
    | Nested(nestedKey: string, nestedFilter: Filter)
    | FilterCondition(filter: Filter)

  datatype Filter = Filter(
    should: Option<seq<Condition>>,
    must: Option<seq<Condition>>,
    mustNot: Option<seq<Condition>>)

  /** The conditions that may appear inside a nested filter. */
  predicate ValidInNestedScope(c: Condition)
  {
    c.Field? || c.IsEmpty? || c.IsNull?
  }

  /**
   * The leaf predicates the engine calls but does not define: the
   * `ValueChecker::check` of each sub-predicate on one payload value,
   * `Range::check_range` on an indexed number, and `check_point` of a geo
   * radius or bounding box on an indexed coordinate pair (lon, lat).
   */
  datatype LeafPredicates = LeafPredicates(
    matchCheck: (Match, Value) -> bool,
    rangeCheck: (Range, Value) -> bool,
    geoRadiusCheck: (GeoRadius, Value) -> bool,
    geoBoundingBoxCheck: (GeoBoundingBox, Value) -> bool,
    valuesCountCheck: (ValuesCount, Value) -> bool,
    checkRange: (Range, real) -> bool,
    radiusCheckPoint: (GeoRadius, real, real) -> bool,
    boundingBoxCheckPoint: (GeoBoundingBox, real, real) -> bool)
}
