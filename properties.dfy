/**
 * What the resolver promises, proved about the value functions of
 * Resolution (and so, through the Engine's postconditions, about the methods).
 */
module Properties {

  import opened Wrappers
  import opened JsonValue
  import opened Descriptors
  import opened Grouper
  import opened Classifier
  import opened Combiner
  import opened Resolution

  // ---------------------------------------------------------------- base cases

  /** No bytes, or no descriptors: exactly one empty record and no error. */
  lemma EmptyInputGivesOneEmptyRecord(data: RawMessage, meta: seq<MetaData>)
    requires data.Blank? || meta == []
    ensures Parse(data, meta) == Ok([map[]])
  {
  }

  /** A single descriptor with the empty path captures the whole value. */
  lemma EmptyPathCapturesValue(v: Json, paramID: string)
    ensures Parse(Text(v), [MetaData("", paramID)]) == Ok([map[paramID := v]])
  {
  }

  /** Looking up a key that the object lacks (or in `null`) contributes one empty record. */
  lemma AbsentKeyGivesEmptyRecord(data: Json, meta: seq<MetaData>, key: string)
    requires |meta| > 0 && key != ArrayMarker
    requires data.JNull? || (data.JObject? && forall k :: 0 <= k < |data.members| ==> data.members[k].key != key)
    ensures NextLevel(data, meta, key) == Ok([map[]])
  {
  }

  /** The product with one empty record on the left gives back the right-hand list. */
  lemma UnitProduct(b: seq<Record>)
    ensures ProductAsWritten(Unit, b) == b
  {
    forall j | 0 <= j < |b|
      ensures ProductAsWritten(Unit, b)[j] == b[j]
    {
      ProductLayoutOneSide(Unit, b, 0, j);
      assert map[] + b[j] == b[j];
    }
  }

  /** The product with one empty record on the right gives back the left-hand list. */
  lemma ProductUnit(a: seq<Record>)
    ensures ProductAsWritten(a, Unit) == a
  {
    forall i | 0 <= i < |a|
      ensures ProductAsWritten(a, Unit)[i] == a[i]
    {
      ProductLayoutOneSide(a, Unit, i, 0);
      assert a[i] + map[] == a[i];
    }
  }

  /** A descriptor list with a single group resolves as that group does. */
  lemma SingleDescriptor(v: Json, d: MetaData)
    requires d.path != ""
    ensures Parse(Text(v), [d]) == NextLevel(v, [Strip(d)], Head(d))
  {
    assert [d][..0] == [];
    assert Group([d][..0]) == map[];
    assert [] + [Strip(d)] == [Strip(d)];
    assert Group([d]) == map[Head(d) := [Strip(d)]];
    assert GroupOrder([d][..0]) == [];
    assert GroupOrder([d]) == [Head(d)];
    var groups, order := Group([d]), GroupOrder([d]);
    GroupingWellFormed([d]);
    var res := NextLevel(v, [Strip(d)], Head(d));
    assert order[1..] == [];
    if res.Ok? {
      UnitProduct(res.records);
      assert Fold(v, groups, order, Unit) == Fold(v, groups, [], res.records);
    }
  }

  /**
   * A one-descriptor request whose first segment names a key the object
   * lacks: one empty record, not an error (the `"missing.path"` case).
   */
  lemma AbsentPathGivesEmptyRecord(v: Json, d: MetaData)
    requires d.path != "" && Head(d) != ArrayMarker
    requires v.JNull? || (v.JObject? && forall k :: 0 <= k < |v.members| ==> v.members[k].key != Head(d))
    ensures Parse(Text(v), [d]) == Ok([map[]])
  {
    SingleDescriptor(v, d);
    AbsentKeyGivesEmptyRecord(v, [Strip(d)], Head(d));
  }

  // ------------------------------------------------------------- array branch

  /** The record that `resAll` holds: whole array and count, when requested. */
  function AllRecord(meta: seq<MetaData>, data: Json, n: nat): Record
  {
    var all := LastWithPath(meta, WholeArray);
    var count := LastWithPath(meta, CountField);
    (if all.Some? then map[all.value.paramID := data] else map[])
      + (if count.Some? then map[count.value.paramID := JNumber(n as real)] else map[])
  }

  /** `resAll` is always the single record AllRecord. */
  lemma ResAllIsOneRecord(meta: seq<MetaData>, data: Json, n: nat)
    ensures var metaCount := LastWithPath(meta, CountField);
            var resAll := if metaCount.Some? then ProductAsWritten(AllSeed(LastWithPath(meta, WholeArray), data), CountSeed(metaCount.value, n))
                          else AllSeed(LastWithPath(meta, WholeArray), data);
            resAll == [AllRecord(meta, data, n)]
  {
    var metaAll, metaCount := LastWithPath(meta, WholeArray), LastWithPath(meta, CountField);
    if metaCount.Some? {
      ProductLayoutOneSide(AllSeed(metaAll, data), CountSeed(metaCount.value, n), 0, 0);
    } else {
      var a := AllSeed(metaAll, data);
      assert a[0] + map[] == a[0];
    }
  }

  /**
   * An empty array (or `null`) yields exactly one record, whatever the
   * descriptors under the marker: the whole array and the count 0 if
   * requested, and nothing else (deeper paths and `@` contribute nothing).
   */
  lemma EmptyArrayGivesOneRecord(data: Json, meta: seq<MetaData>)
    requires |meta| > 0
    requires data == JArray([]) || data.JNull?
    ensures NextLevel(data, meta, ArrayMarker) == Ok([AllRecord(meta, data, 0)])
  {
    ResAllIsOneRecord(meta, data, 0);
    UnitProduct([AllRecord(meta, data, 0)]);
  }

  /**
   * Only the whole array and the count requested under the marker (no `@`,
   * no deeper path): `resList` stays `[{}]`, so the result is the one record
   * AllRecord, for an array of any length.
   */
  lemma WholeArrayOnly(data: Json, meta: seq<MetaData>)
    requires |meta| > 0 && DecodesAsArray(data)
    requires MetaBase(meta) == [] && LastWithPath(meta, IndexField).None?
    ensures NextLevel(data, meta, ArrayMarker) == Ok([AllRecord(meta, data, |Elements(data)|)])
  {
    ResAllIsOneRecord(meta, data, |Elements(data)|);
    UnitProduct([AllRecord(meta, data, |Elements(data)|)]);
  }

  /** The records the `@` descriptor yields for elements `i ..` of an `n`-element array. */
  function IndexRecords(metaIndex: MetaData, i: nat, n: nat): seq<Record>
    requires i <= n
  {
    seq(n - i, k requires 0 <= k < n - i => map[metaIndex.paramID := JNumber((i + k) as real)])
  }

  /** With no deeper paths, each element contributes exactly its index record. */
  lemma {:induction false} IndexOnlyElements(data: Json, metaIndex: MetaData, i: nat, acc: seq<Record>)
    requires data.JArray? && i <= |data.elems|
    ensures ElementsFrom(data, [], Some(metaIndex), i, acc) == Ok(acc + IndexRecords(metaIndex, i, |data.elems|))
    decreases |data.elems| - i
  {
    var n := |data.elems|;
    if i < n {
      var ix := IndexSeed(Some(metaIndex), i);
      UnitProduct(ix);
      assert Parse(Text(data.elems[i]), []) == Ok(Unit);
      IndexOnlyElements(data, metaIndex, i + 1, acc + ix);
      assert ix + IndexRecords(metaIndex, i + 1, n) == IndexRecords(metaIndex, i, n);
    } else {
      assert IndexRecords(metaIndex, i, n) == [];
    }
  }

  /**
   * An array of N > 0 elements with only `@` and `#` descriptors: exactly N
   * records, record i holding index i and count N (the count written last,
   * so it wins if both share an output identifier).
   */
  lemma IndexAndCountRecords(data: Json, meta: seq<MetaData>)
    requires data.JArray? && |data.elems| > 0
    requires forall k :: 0 <= k < |meta| ==> meta[k].path == IndexField || meta[k].path == CountField
    requires LastWithPath(meta, IndexField).Some? && LastWithPath(meta, CountField).Some?
    ensures var r := NextLevel(data, meta, ArrayMarker);
            && r.Ok? && |r.records| == |data.elems|
            && forall i :: 0 <= i < |data.elems| ==>
                 r.records[i] == map[LastWithPath(meta, IndexField).value.paramID := JNumber(i as real)]
                                 [LastWithPath(meta, CountField).value.paramID := JNumber(|data.elems| as real)]
  {
    var n := |data.elems|;
    ExpandIndexAndCount(data, meta);
    IndexCountLayout(LastWithPath(meta, IndexField).value, LastWithPath(meta, CountField).value, n);
  }

  /** Index records combined with the one count record: record i holds index i and the count. */
  lemma IndexCountLayout(ix: MetaData, cnt: MetaData, n: nat)
    ensures var r := ProductAsWritten(IndexRecords(ix, 0, n), [map[cnt.paramID := JNumber(n as real)]]);
            && |r| == n
            && forall i :: 0 <= i < n ==> r[i] == map[ix.paramID := JNumber(i as real)][cnt.paramID := JNumber(n as real)]
  {
    var all := map[cnt.paramID := JNumber(n as real)];
    var list := IndexRecords(ix, 0, n);
    forall i | 0 <= i < n
      ensures ProductAsWritten(list, [all])[i] == map[ix.paramID := JNumber(i as real)][cnt.paramID := JNumber(n as real)]
    {
      ProductLayoutOneSide(list, [all], i, 0);
      assert list[i] == map[ix.paramID := JNumber(i as real)];
      assert list[i] + all == list[i][cnt.paramID := JNumber(n as real)];
    }
  }

  /** The two halves of the array branch when only `@` and `#` are requested. */
  lemma ExpandIndexAndCount(data: Json, meta: seq<MetaData>)
    requires data.JArray? && |data.elems| > 0
    requires forall k :: 0 <= k < |meta| ==> meta[k].path == IndexField || meta[k].path == CountField
    requires LastWithPath(meta, IndexField).Some? && LastWithPath(meta, CountField).Some?
    ensures NextLevel(data, meta, ArrayMarker)
            == Ok(ProductAsWritten(IndexRecords(LastWithPath(meta, IndexField).value, 0, |data.elems|),
                                   [map[LastWithPath(meta, CountField).value.paramID := JNumber(|data.elems| as real)]]))
  {
    var n := |data.elems|;
    var cnt := LastWithPath(meta, CountField).value;
    var all := map[cnt.paramID := JNumber(n as real)];
    MetaBaseEmpty(meta);
    assert LastWithPath(meta, WholeArray).None?;
    assert AllRecord(meta, data, n) == all by {
      assert map[] + all == all;
    }
    IndexWithoutDeeperPaths(data, meta);
  }

  /** Under the marker with `@` and no deeper path: the index records, each combined with AllRecord. */
  lemma IndexWithoutDeeperPaths(data: Json, meta: seq<MetaData>)
    requires data.JArray? && |data.elems| > 0 && |meta| > 0
    requires MetaBase(meta) == [] && LastWithPath(meta, IndexField).Some?
    ensures NextLevel(data, meta, ArrayMarker)
            == Ok(ProductAsWritten(IndexRecords(LastWithPath(meta, IndexField).value, 0, |data.elems|),
                                   [AllRecord(meta, data, |data.elems|)]))
  {
    var n := |data.elems|;
    var ix := LastWithPath(meta, IndexField).value;
    ResAllIsOneRecord(meta, data, n);
    IndexOnlyElements(data, ix, 0, []);
    assert [] + IndexRecords(ix, 0, n) == IndexRecords(ix, 0, n);
  }

  // ------------------------------------------------------------------- errors

  /** A value that is neither an array nor `null` under `[]`: error naming the group's first descriptor. */
  lemma ArrayDecodeFailure(data: Json, meta: seq<MetaData>)
    requires |meta| > 0 && !DecodesAsArray(data)
    ensures NextLevel(data, meta, ArrayMarker)
            == Err(UnmarshalError(UnmarshalTypeError(KindOf(data), RawMessageSlice), meta[0].paramID))
  {
  }

  /** A value that is neither an object nor `null` under a key: error naming the group's first descriptor. */
  lemma ObjectDecodeFailure(data: Json, meta: seq<MetaData>, key: string)
    requires |meta| > 0 && key != ArrayMarker && !DecodesAsObject(data)
    ensures NextLevel(data, meta, key)
            == Err(UnmarshalError(UnmarshalTypeError(KindOf(data), RawMessageMap), meta[0].paramID))
  {
  }

  /** The first group that fails aborts the whole fold with its error. */
  lemma {:induction false} FailingGroupAborts(data: Json, groups: map<string, seq<MetaData>>, order: seq<string>, acc: seq<Record>, g: nat)
    requires WellGrouped(groups, order) && g < |order|
    requires forall h :: 0 <= h < g ==> NextLevel(data, groups[order[h]], order[h]).Ok?
    requires NextLevel(data, groups[order[g]], order[g]).Err?
    ensures Fold(data, groups, order, acc) == NextLevel(data, groups[order[g]], order[g])
  {
    if g > 0 {
      var rest := order[1..];
      var currentRes := NextLevel(data, groups[order[0]], order[0]);
      assert currentRes.Ok?;
      assert Fold(data, groups, order, acc) == Fold(data, groups, rest, ProductAsWritten(acc, currentRes.records));
      WellGroupedSuffix(groups, order, 1);
      assert forall h :: 0 <= h < |rest| ==> rest[h] == order[h + 1];
      FailingGroupAborts(data, groups, rest, ProductAsWritten(acc, currentRes.records), g - 1);
    }
  }

  /** The first element whose resolution fails aborts the array branch with its error. */
  lemma {:induction false} FailingElementAborts(data: Json, metaBase: seq<MetaData>, metaIndex: Option<MetaData>, i: nat, acc: seq<Record>, g: nat)
    requires data.JArray? && i <= g < |data.elems|
    requires forall h :: i <= h < g ==> Parse(Text(data.elems[h]), metaBase).Ok?
    requires Parse(Text(data.elems[g]), metaBase).Err?
    ensures ElementsFrom(data, metaBase, metaIndex, i, acc) == Parse(Text(data.elems[g]), metaBase)
    decreases g - i
  {
    if i < g {
      var currentRes := Parse(Text(data.elems[i]), metaBase);
      assert currentRes.Ok?;
      FailingElementAborts(data, metaBase, metaIndex, i + 1, acc + ProductAsWritten(currentRes.records, IndexSeed(metaIndex, i)), g);
    }
  }
}
