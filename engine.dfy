/**
 * `ParseParams` and `unmarshalNextLevel` with the loops of parser.go: the
 * grouping map filled by appending, the fold of group results through
 * `cartesianProduct`, and the per-element append in the array branch.
 * Each method is proved to return exactly what Resolution specifies.
 */
module Engine {

  import opened Wrappers
  import opened JsonValue
  import opened Descriptors
  import opened Grouper
  import opened Classifier
  import opened Combiner
  import opened Resolution

  method ParseParams(data: RawMessage, meta: seq<MetaData>) returns (r: Outcome)
    ensures r == Parse(data, meta)
    decreases Payload(data), 1
  {
    if data.Blank? || |meta| == 0 {
      return Ok(Unit);
    }
    if |meta| == 1 && meta[0].path == "" {
      return Ok([map[meta[0].paramID := data.value]]);
    }

    var currentPathToNewMeta, order := GroupDescriptors(meta);
    GroupingWellFormed(meta);
    ghost var expected := Parse(data, meta);
    assert order[0..] == order;

    var res := Unit;
    for g := 0 to |order|
      invariant WellGrouped(currentPathToNewMeta, order[g..])
      invariant Fold(data.value, currentPathToNewMeta, order[g..], res) == expected
    {
      WellGroupedSuffix(currentPathToNewMeta, order, g + 1);
      var currentPath := order[g];
      var currentRes := UnmarshalNextLevel(data.value, currentPathToNewMeta[currentPath], currentPath);
      if currentRes.Err? {
        return Err(currentRes.error);
      }
      assert order[g..][1..] == order[g + 1..];
      res := CartesianProduct(res, currentRes.records);
    }
    return Ok(res);
  }

  /**
   * The grouping loop of `ParseParams`: each descriptor appended, stripped of
   * its first segment, to that segment's group; `order` remembers the
   * segments in order of first occurrence.
   */
  method GroupDescriptors(meta: seq<MetaData>) returns (currentPathToNewMeta: map<string, seq<MetaData>>, order: seq<string>)
    ensures currentPathToNewMeta == Group(meta)
    ensures order == GroupOrder(meta)
  {
    currentPathToNewMeta, order := map[], [];
    for i := 0 to |meta|
      invariant currentPathToNewMeta == Group(meta[..i])
      invariant order == GroupOrder(meta[..i])
    {
      ghost var prefix := meta[..i + 1];
      assert prefix[..i] == meta[..i] && prefix[i] == meta[i];
      GroupOrderListsGroups(meta[..i]);
      var (currentPath, restOfPath) := SplitPath(meta[i].path);
      assert currentPath == Head(meta[i]) && MetaData(restOfPath, meta[i].paramID) == Strip(meta[i]);
      assert currentPath in order <==> currentPath in currentPathToNewMeta;
      var newMeta := if currentPath in currentPathToNewMeta then currentPathToNewMeta[currentPath] else [];
      if currentPath !in currentPathToNewMeta {
        order := order + [currentPath];
      }
      currentPathToNewMeta := currentPathToNewMeta[currentPath := newMeta + [MetaData(restOfPath, meta[i].paramID)]];
    }
    assert meta[..|meta|] == meta;
  }

  method UnmarshalNextLevel(data: Json, meta: seq<MetaData>, currentPath: string) returns (r: Outcome)
    requires |meta| > 0
    ensures r == NextLevel(data, meta, currentPath)
    decreases data, 0
  {
    if currentPath == ArrayMarker {
      var metaBase, metaAll, metaIndex, metaCount := SplitMeta(meta);

      var resAll := AllSeed(metaAll, data);
      if !DecodesAsArray(data) {
        return Err(UnmarshalError(UnmarshalTypeError(KindOf(data), RawMessageSlice), meta[0].paramID));
      }
      var sliceJSON := Elements(data);

      if metaCount.Some? {
        resAll := CartesianProduct(resAll, CountSeed(metaCount.value, |sliceJSON|));
      }

      var resList: seq<Record> := [];
      if |sliceJSON| == 0 {
        resList := Unit;
      }

      if metaIndex.Some? || |metaBase| > 0 {
        ghost var seed := resList;
        for i := 0 to |sliceJSON|
          invariant ElementsFrom(data, metaBase, metaIndex, i, resList) == ElementsFrom(data, metaBase, metaIndex, 0, seed)
        {
          var currentRes := ParseParams(Text(data.elems[i]), metaBase);
          if currentRes.Err? {
            return Err(currentRes.error);
          }
          var ixRes := IndexSeed(metaIndex, i);
          var combined := CartesianProduct(currentRes.records, ixRes);
          resList := resList + combined;
        }
      } else {
        resList := Unit;
      }

      var out := CartesianProduct(resList, resAll);
      return Ok(out);
    }

    if !DecodesAsObject(data) {
      return Err(UnmarshalError(UnmarshalTypeError(KindOf(data), RawMessageMap), meta[0].paramID));
    }
    var rawMessage := Members(data);
    var found := FindKey(rawMessage, currentPath);
    if found.None? {
      return Ok(Unit);
    }
    r := ParseParams(Text(rawMessage[found.value].value), meta);
  }
}
