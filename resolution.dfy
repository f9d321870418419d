/**
 * The resolver `ParseParams` / `unmarshalNextLevel` (parser.go:27-126) as
 * functions on values. Engine holds the same algorithm with the loops of the
 * Go code and is proved to compute exactly these functions.
 *
 * Termination: every recursive resolution is on a strictly smaller JSON
 * value; the path alone need not shrink (`SplitPath("")` is `("", "")`).
 */
module Resolution {

  import opened Wrappers
  import opened JsonValue
  import opened Descriptors
  import opened Grouper
  import opened Classifier
  import opened Combiner

  /** `*UnmarshalError`: the decode failure and the ParamID of the group's first descriptor. */
  datatype UnmarshalError = UnmarshalError(err: DecodeError, paramID: string)

  /** `([]RawMessageSet, error)`: a record list with a nil error, or a nil list with an error. */
  datatype Outcome = Ok(records: seq<Record>) | Err(error: UnmarshalError)

  /** `resAll` before the count is combined in (parser.go:65-69). */
  function AllSeed(metaAll: Option<MetaData>, data: Json): seq<Record>
  {
    if metaAll.None? then Unit else [map[metaAll.value.paramID := data]]
  }

  /** The one-record set carrying the element count (parser.go:78). */
  function CountSeed(metaCount: MetaData, n: nat): seq<Record>
  {
    [map[metaCount.paramID := JNumber(n as real)]]
  }

  /** `ixRes` of parser.go:92-97: the element index, or one empty record. */
  function IndexSeed(metaIndex: Option<MetaData>, i: nat): seq<Record>
  {
    if metaIndex.None? then Unit else [map[metaIndex.value.paramID := JNumber(i as real)]]
  }

  /** `ParseParams(data, meta)`. */
  function Parse(data: RawMessage, meta: seq<MetaData>): (r: Outcome)
    ensures r.Ok? ==> |r.records| > 0
    decreases Payload(data), 4, 0
  {
    if data.Blank? || |meta| == 0 then Ok(Unit)
    else if |meta| == 1 && meta[0].path == "" then Ok([map[meta[0].paramID := data.value]])
    else
      GroupingWellFormed(meta);
      Fold(data.value, Group(meta), GroupOrder(meta), Unit)
  }

  /** The loop at parser.go:45-53: resolve each group in turn and combine into `acc`. */
  function Fold(data: Json, groups: map<string, seq<MetaData>>, order: seq<string>, acc: seq<Record>): (r: Outcome)
    requires WellGrouped(groups, order)
    ensures r.Ok? && |acc| > 0 ==> |r.records| > 0
    decreases data, 3, |order|
  {
    if order == [] then Ok(acc)
    else
      match NextLevel(data, groups[order[0]], order[0])
      case Err(e) => Err(e)
      case Ok(currentRes) =>
        NonEmptyProduct(acc, currentRes);
        Fold(data, groups, order[1..], ProductAsWritten(acc, currentRes))
  }

  /** `unmarshalNextLevel(data, meta, currentPath)`. */
  function NextLevel(data: Json, meta: seq<MetaData>, currentPath: string): (r: Outcome)
    requires |meta| > 0
    ensures r.Ok? ==> |r.records| > 0
    decreases data, 2, 0
  {
    if currentPath == ArrayMarker then ExpandArray(data, meta)
    else if !DecodesAsObject(data) then
      Err(UnmarshalError(UnmarshalTypeError(KindOf(data), RawMessageMap), meta[0].paramID))
    else if data.JNull? then Ok(Unit)
    else
      match FindKey(data.members, currentPath)
      case None => Ok(Unit)
      case Some(k) => Parse(Text(data.members[k].value), meta)
  }

  /** The array branch of `unmarshalNextLevel` (parser.go:60-107). */
  function ExpandArray(data: Json, meta: seq<MetaData>): (r: Outcome)
    requires |meta| > 0
    ensures r.Ok? ==> |r.records| > 0
    decreases data, 1, 0
  {
    var metaBase, metaAll := MetaBase(meta), LastWithPath(meta, WholeArray);
    var metaIndex, metaCount := LastWithPath(meta, IndexField), LastWithPath(meta, CountField);
    if !DecodesAsArray(data) then
      Err(UnmarshalError(UnmarshalTypeError(KindOf(data), RawMessageSlice), meta[0].paramID))
    else
      var n := |Elements(data)|;
      var resAll := if metaCount.Some? then ProductAsWritten(AllSeed(metaAll, data), CountSeed(metaCount.value, n))
                    else AllSeed(metaAll, data);
      var resList := if metaIndex.Some? || |metaBase| > 0
                     then ElementsFrom(data, metaBase, metaIndex, 0, if n == 0 then Unit else [])
                     else Ok(Unit);
      match resList
      case Err(e) => Err(e)
      case Ok(list) =>
        NonEmptyProduct(list, resAll);
        Ok(ProductAsWritten(list, resAll))
  }

  /**
   * The loop at parser.go:86-102 from element `i` on, `acc` holding what
   * earlier elements appended: each element contributes its own records.
   */
  function ElementsFrom(data: Json, metaBase: seq<MetaData>, metaIndex: Option<MetaData>, i: nat, acc: seq<Record>): (r: Outcome)
    requires DecodesAsArray(data) && i <= |Elements(data)|
    ensures r.Ok? ==> |r.records| >= |acc| + (|Elements(data)| - i)
    decreases data, 0, |Elements(data)| - i
  {
    if i == |Elements(data)| then Ok(acc)
    else
      match Parse(Text(data.elems[i]), metaBase)
      case Err(e) => Err(e)
      case Ok(currentRes) =>
        NonEmptyProduct(currentRes, IndexSeed(metaIndex, i));
        ElementsFrom(data, metaBase, metaIndex, i + 1, acc + ProductAsWritten(currentRes, IndexSeed(metaIndex, i)))
  }
}
