/**
 * Requests of the shapes the documented examples and parser_test.go use,
 * and what the resolver returns for them, worked out on the model: the
 * present and the missing key, an array of objects, the empty array, index
 * and count together, the repeated path, and the product defect seen end to
 * end. Keys and identifiers are left as parameters, so each lemma covers
 * every request of its shape.
 */
module Scenarios {

  import opened Wrappers
  import opened JsonValue
  import opened Descriptors
  import opened Grouper
  import opened Classifier
  import opened Combiner
  import opened Resolution
  import opened Properties

  /**
   * Two descriptors with different first segments are resolved
   * independently, and their results combined by the product.
   */
  lemma TwoGroups(v: Json, d1: MetaData, d2: MetaData)
    requires Head(d1) != Head(d2)
    requires NextLevel(v, [Strip(d1)], Head(d1)).Ok? && NextLevel(v, [Strip(d2)], Head(d2)).Ok?
    ensures Parse(Text(v), [d1, d2])
            == Ok(ProductAsWritten(NextLevel(v, [Strip(d1)], Head(d1)).records, NextLevel(v, [Strip(d2)], Head(d2)).records))
  {
    var r1, r2 := NextLevel(v, [Strip(d1)], Head(d1)).records, NextLevel(v, [Strip(d2)], Head(d2)).records;
    GroupOfTwo(d1, d2);
    GroupingWellFormed([d1, d2]);
    var groups, order := Group([d1, d2]), GroupOrder([d1, d2]);
    assert order[1..] == [Head(d2)] && order[1..][1..] == [];
    UnitProduct(r1);
    assert Fold(v, groups, order, Unit) == Fold(v, groups, order[1..], r1);
    assert Fold(v, groups, order[1..], r1) == Fold(v, groups, [], ProductAsWritten(r1, r2));
  }

  /** A one-segment descriptor whose key the object has, holding `value`, captures `value`. */
  lemma KeyOfObject(key: string, id: string, value: Json)
    requires '.' !in key && key != "" && key != ArrayMarker
    ensures Parse(Text(JObject([Member(key, value)])), [MetaData(key, id)]) == Ok([map[id := value]])
  {
    var d := MetaData(key, id);
    assert SplitPath(key) == (key, "");
    SingleDescriptor(JObject([Member(key, value)]), d);
    assert FindKey([Member(key, value)], key) == Some(0);
    EmptyPathCapturesValue(value, id);
  }

  /**
   * `{"inn": value}` asked for `inn -> x` and `missing.path -> y` gives the
   * one record `{x: value}`: the missing key contributes nothing.
   */
  lemma PresentAndMissingKey(key: string, missing: string, rest: string, x: string, y: string, value: Json)
    requires '.' !in key && '.' !in missing && key != "" && key != missing && key != ArrayMarker && missing != ArrayMarker
    ensures Parse(Text(JObject([Member(key, value)])), [MetaData(key, x), MetaData(missing + "." + rest, y)])
            == Ok([map[x := value]])
  {
    var v := JObject([Member(key, value)]);
    var d1, d2 := MetaData(key, x), MetaData(missing + "." + rest, y);
    assert SplitPath(key) == (key, "");
    SplitPathAt(missing, rest);
    KeyOfObject(key, x, value);
    SingleDescriptor(v, d1);
    AbsentKeyGivesEmptyRecord(v, [Strip(d2)], missing);
    TwoGroups(v, d1, d2);
    ProductUnit([map[x := value]]);
  }

  /** The array branch over two elements, each resolved by `metaBase` alone. */
  lemma TwoElements(e0: Json, e1: Json, metaBase: seq<MetaData>, r0: seq<Record>, r1: seq<Record>)
    requires Parse(Text(e0), metaBase) == Ok(r0) && Parse(Text(e1), metaBase) == Ok(r1)
    ensures ElementsFrom(JArray([e0, e1]), metaBase, None, 0, []) == Ok(r0 + r1)
  {
    var data := JArray([e0, e1]);
    ProductUnit(r0);
    ProductUnit(r1);
    assert [] + r0 == r0;
    assert ElementsFrom(data, metaBase, None, 0, []) == ElementsFrom(data, metaBase, None, 1, r0);
    assert ElementsFrom(data, metaBase, None, 1, r0) == ElementsFrom(data, metaBase, None, 2, r0 + r1);
  }

  /** `[{"a": u}, {"a": w}]` asked for `[].a -> v` gives `[{v: u}, {v: w}]`. */
  lemma ArrayOfObjects(key: string, id: string, u: Json, w: Json)
    requires '.' !in key && key != ArrayMarker && key != WholeArray && key != IndexField && key != CountField
    ensures Parse(Text(JArray([JObject([Member(key, u)]), JObject([Member(key, w)])])), [MetaData(ArrayMarker + "." + key, id)])
            == Ok([map[id := u], map[id := w]])
  {
    var data := JArray([JObject([Member(key, u)]), JObject([Member(key, w)])]);
    SplitPathAt(ArrayMarker, key);
    SingleDescriptor(data, MetaData(ArrayMarker + "." + key, id));
    KeyUnderEachElement(key, id, u, w);
  }

  /** The array branch of the request above, one level down. */
  lemma KeyUnderEachElement(key: string, id: string, u: Json, w: Json)
    requires '.' !in key && key != ArrayMarker && key != WholeArray && key != IndexField && key != CountField
    ensures NextLevel(JArray([JObject([Member(key, u)]), JObject([Member(key, w)])]), [MetaData(key, id)], ArrayMarker)
            == Ok([map[id := u], map[id := w]])
  {
    var e0, e1 := JObject([Member(key, u)]), JObject([Member(key, w)]);
    var data := JArray([e0, e1]);
    var group := [MetaData(key, id)];
    assert group[..0] == [];
    assert MetaBase(group) == group;
    assert LastWithPath(group, WholeArray).None? && LastWithPath(group, IndexField).None?;
    assert LastWithPath(group, CountField).None?;
    KeyOfObject(key, id, u);
    KeyOfObject(key, id, w);
    TwoElements(e0, e1, group, [map[id := u]], [map[id := w]]);
    ResAllIsOneRecord(group, data, 2);
    assert AllRecord(group, data, 2) == map[];
    ProductUnit([map[id := u], map[id := w]]);
  }

  /**
   * An empty array asked for a deeper path under the marker (`[].UL.heads`,
   * parser_test.go:105-113) gives one empty record.
   */
  lemma EmptyArrayFixture(rest: string, id: string)
    requires rest != WholeArray && rest != CountField
    ensures Parse(Text(JArray([])), [MetaData(ArrayMarker + "." + rest, id)]) == Ok([map[]])
  {
    var d := MetaData(ArrayMarker + "." + rest, id);
    SplitPathAt(ArrayMarker, rest);
    SingleDescriptor(JArray([]), d);
    var group := [MetaData(rest, id)];
    EmptyArrayGivesOneRecord(JArray([]), group);
    assert group[..0] == [];
    assert LastWithPath(group, WholeArray).None? && LastWithPath(group, CountField).None?;
    assert AllRecord(group, JArray([]), 0) == map[];
  }

  /**
   * A path ending in the marker (`[].UL.history.kpps.[]`,
   * parser_test.go:146-167) captures the whole array: `key.[] -> id` over
   * `{key: [..]}` gives the one record `{id: [..]}`.
   */
  lemma WholeArrayUnderKey(key: string, id: string, elems: seq<Json>)
    requires '.' !in key && key != "" && key != ArrayMarker
    ensures Parse(Text(JObject([Member(key, JArray(elems))])), [MetaData(key + "." + ArrayMarker, id)])
            == Ok([map[id := JArray(elems)]])
  {
    var v := JObject([Member(key, JArray(elems))]);
    SplitPathAt(key, ArrayMarker);
    SingleDescriptor(v, MetaData(key + "." + ArrayMarker, id));
    assert FindKey(v.members, key) == Some(0);
    WholeArrayCapture(id, elems);
  }

  /** The marker as the last segment, applied to the array itself. */
  lemma WholeArrayCapture(id: string, elems: seq<Json>)
    ensures Parse(Text(JArray(elems)), [MetaData(ArrayMarker, id)]) == Ok([map[id := JArray(elems)]])
  {
    var group := [MetaData(WholeArray, id)];
    assert SplitPath(ArrayMarker) == (ArrayMarker, WholeArray);
    SingleDescriptor(JArray(elems), MetaData(ArrayMarker, id));
    assert [Strip(MetaData(ArrayMarker, id))] == group && Head(MetaData(ArrayMarker, id)) == ArrayMarker;
    assert group[..0] == [];
    assert MetaBase(group) == [];
    assert LastWithPath(group, WholeArray) == Some(group[0]);
    assert LastWithPath(group, IndexField).None? && LastWithPath(group, CountField).None?;
    WholeArrayOnly(JArray(elems), group);
    assert Elements(JArray(elems)) == elems;
    assert AllRecord(group, JArray(elems), |elems|) == map[id := JArray(elems)] + map[];
    assert map[id := JArray(elems)] + map[] == map[id := JArray(elems)];
  }

  /** The grouping of the `[].@`, `[].#` pair: one group under the marker. */
  lemma IndexCountGrouping(ix: string, cnt: string)
    ensures var meta := [MetaData(ArrayMarker + "." + IndexField, ix), MetaData(ArrayMarker + "." + CountField, cnt)];
            Group(meta) == map[ArrayMarker := [MetaData(IndexField, ix), MetaData(CountField, cnt)]]
            && GroupOrder(meta) == [ArrayMarker]
  {
    var d1, d2 := MetaData(ArrayMarker + "." + IndexField, ix), MetaData(ArrayMarker + "." + CountField, cnt);
    SplitPathAt(ArrayMarker, IndexField);
    SplitPathAt(ArrayMarker, CountField);
    GroupOfTwo(d1, d2);
  }

  /** A request resolving to a single group resolves as that group does. */
  lemma OneGroup(v: Json, meta: seq<MetaData>, head: string, group: seq<MetaData>)
    requires |meta| > 1 && Group(meta) == map[head := group] && GroupOrder(meta) == [head] && group != []
    ensures Parse(Text(v), meta) == NextLevel(v, group, head)
  {
    GroupingWellFormed(meta);
    var groups := Group(meta);
    assert Parse(Text(v), meta) == Fold(v, groups, [head], Unit);
    assert groups[head] == group && [head][1..] == [];
    match NextLevel(v, group, head)
    case Err(e) =>
      assert Fold(v, groups, [head], Unit) == Err(e);
    case Ok(rs) =>
      UnitProduct(rs);
      assert Fold(v, groups, [head], Unit) == Fold(v, groups, [], rs);
  }

  /**
   * `[].@` and `[].#` together over a non-empty array, the pair that
   * parser_test.go:115-145 uses: one record per element with its index and
   * the element count.
   */
  lemma IndexAndCountFixture(elems: seq<Json>, ix: string, cnt: string)
    requires |elems| > 0
    ensures var r := Parse(Text(JArray(elems)), [MetaData(ArrayMarker + "." + IndexField, ix), MetaData(ArrayMarker + "." + CountField, cnt)]);
            && r.Ok? && |r.records| == |elems|
            && forall i :: 0 <= i < |elems| ==>
                 r.records[i] == map[ix := JNumber(i as real)][cnt := JNumber(|elems| as real)]
  {
    var meta := [MetaData(ArrayMarker + "." + IndexField, ix), MetaData(ArrayMarker + "." + CountField, cnt)];
    var group := [MetaData(IndexField, ix), MetaData(CountField, cnt)];
    IndexCountGrouping(ix, cnt);
    OneGroup(JArray(elems), meta, ArrayMarker, group);
    assert group[..1] == [group[0]] && group[..0] == [];
    assert LastWithPath(group, IndexField) == Some(group[0]);
    assert LastWithPath(group, CountField) == Some(group[1]);
    IndexAndCountRecords(JArray(elems), group);
  }

  /**
   * Two descriptors with the same one-segment path land in one group with
   * two empty paths, so the base case does not fire one level down and the
   * value under the key is decoded as an object with key `""`: a string
   * there is an error naming the first descriptor.
   */
  lemma RepeatedPathDecodesAgain(key: string, p: string, q: string, s: string)
    requires '.' !in key && key != "" && key != ArrayMarker
    ensures Parse(Text(JObject([Member(key, JString(s))])), [MetaData(key, p), MetaData(key, q)])
            == Err(UnmarshalError(UnmarshalTypeError(StringKind, RawMessageMap), p))
  {
    var v := JObject([Member(key, JString(s))]);
    var group := [MetaData("", p), MetaData("", q)];
    assert SplitPath(key) == (key, "");
    GroupOfTwo(MetaData(key, p), MetaData(key, q));
    OneGroup(v, [MetaData(key, p), MetaData(key, q)], key, group);
    assert FindKey(v.members, key) == Some(0);
    StringUnderEmptyPaths(s, p, q);
  }

  /** The group of two empty paths, applied to a string: an object was expected. */
  lemma StringUnderEmptyPaths(s: string, p: string, q: string)
    ensures Parse(Text(JString(s)), [MetaData("", p), MetaData("", q)])
            == Err(UnmarshalError(UnmarshalTypeError(StringKind, RawMessageMap), p))
  {
    var group := [MetaData("", p), MetaData("", q)];
    assert SplitPath("") == ("", "");
    GroupOfTwo(group[0], group[1]);
    OneGroup(JString(s), group, "", group);
  }

  /** The index records `{id: 0}`, `{id: 1}` of a two-element array. */
  function TwoIndices(id: string): seq<Record>
  {
    [map[id := JNumber(0.0)], map[id := JNumber(1.0)]]
  }

  /** The index-only array branch over `[null, null]`. */
  lemma IndexOverTwoNulls(id: string)
    ensures NextLevel(JArray([JNull, JNull]), [MetaData(IndexField, id)], ArrayMarker) == Ok(TwoIndices(id))
  {
    var arr := JArray([JNull, JNull]);
    var group := [MetaData(IndexField, id)];
    assert group[..0] == [];
    assert MetaBase(group) == [];
    assert LastWithPath(group, IndexField) == Some(group[0]);
    assert LastWithPath(group, CountField).None? && LastWithPath(group, WholeArray).None?;
    IndexOnlyElements(arr, group[0], 0, []);
    assert [] + IndexRecords(group[0], 0, 2) == TwoIndices(id);
    ResAllIsOneRecord(group, arr, 2);
    assert AllRecord(group, arr, 2) == map[];
    ProductUnit(TwoIndices(id));
  }

  /** Resolving `key` and then `[].@` against an object whose member `k` is `key: [null, null]`. */
  lemma IndexAxis(v: Json, key: string, id: string, k: nat)
    requires v.JObject? && k < |v.members| && v.members[k] == Member(key, JArray([JNull, JNull]))
    requires forall k' :: k < k' < |v.members| ==> v.members[k'].key != key
    requires key != ArrayMarker
    ensures NextLevel(v, [MetaData(ArrayMarker + "." + IndexField, id)], key) == Ok(TwoIndices(id))
  {
    var d := MetaData(ArrayMarker + "." + IndexField, id);
    assert FindKey(v.members, key) == Some(k);
    SplitPathAt(ArrayMarker, IndexField);
    SingleDescriptor(JArray([JNull, JNull]), d);
    IndexOverTwoNulls(id);
  }

  /** The request `a.[].@ -> i`, `b.[].@ -> j` over two two-element arrays is the code's product of the two index lists. */
  lemma TwoAxesParse(a: string, b: string, i: string, j: string)
    requires '.' !in a && '.' !in b && a != b && a != ArrayMarker && b != ArrayMarker
    ensures var doc := JObject([Member(a, JArray([JNull, JNull])), Member(b, JArray([JNull, JNull]))]);
            var axis := ArrayMarker + "." + IndexField;
            Parse(Text(doc), [MetaData(a + "." + axis, i), MetaData(b + "." + axis, j)])
            == Ok(ProductAsWritten(TwoIndices(i), TwoIndices(j)))
  {
    var doc := JObject([Member(a, JArray([JNull, JNull])), Member(b, JArray([JNull, JNull]))]);
    var axis := ArrayMarker + "." + IndexField;
    var d1, d2 := MetaData(a + "." + axis, i), MetaData(b + "." + axis, j);
    SplitPathAt(a, axis);
    SplitPathAt(b, axis);
    IndexAxis(doc, a, i, 0);
    IndexAxis(doc, b, j, 1);
    TwoGroups(doc, d1, d2);
  }

  /** The code's product of two two-element index lists. */
  lemma TwoByTwoAsWritten(i: string, j: string)
    requires i != j
    ensures ProductAsWritten(TwoIndices(i), TwoIndices(j))
            == [map[i := JNumber(0.0), j := JNumber(0.0)],
                map[i := JNumber(1.0), j := JNumber(0.0)],
                map[i := JNumber(1.0), j := JNumber(1.0)],
                map[]]
  {
    var a, b := TwoIndices(i), TwoIndices(j);
    var res := ProductAsWritten(a, b);
    assert |res| == 4;
    assert res[0] == a[0] + b[0] == map[i := JNumber(0.0), j := JNumber(0.0)];
    assert res[1] == a[1] + b[0] == map[i := JNumber(1.0), j := JNumber(0.0)];
    assert res[2] == a[1] + b[1] == map[i := JNumber(1.0), j := JNumber(1.0)];
    assert res[3] == map[];
  }

  /** The intended product of the same lists lists `{i: 0, j: 1}` second. */
  lemma TwoByTwoCross(i: string, j: string)
    requires i != j
    ensures |CrossProduct(TwoIndices(i), TwoIndices(j))| == 4
    ensures CrossProduct(TwoIndices(i), TwoIndices(j))[1] == map[i := JNumber(0.0), j := JNumber(1.0)]
  {
    var a, b := TwoIndices(i), TwoIndices(j);
    CrossProductLayout(a, b, 0, 1);
    assert a[0] + b[1] == map[i := JNumber(0.0), j := JNumber(1.0)];
  }

  /**
   * Two independent two-element axes `a.[].@ -> i` and `b.[].@ -> j`: the
   * code returns four records of which the last is empty and `{i: 0, j: 1}`
   * never appears, where the intended product has it in second place.
   */
  lemma TwoAxesAsWritten(a: string, b: string, i: string, j: string)
    requires '.' !in a && '.' !in b && a != b && a != ArrayMarker && b != ArrayMarker && i != j
    ensures var doc := JObject([Member(a, JArray([JNull, JNull])), Member(b, JArray([JNull, JNull]))]);
            var axis := ArrayMarker + "." + IndexField;
            var r := Parse(Text(doc), [MetaData(a + "." + axis, i), MetaData(b + "." + axis, j)]);
            && r == Ok([map[i := JNumber(0.0), j := JNumber(0.0)],
                        map[i := JNumber(1.0), j := JNumber(0.0)],
                        map[i := JNumber(1.0), j := JNumber(1.0)],
                        map[]])
            && map[i := JNumber(0.0), j := JNumber(1.0)] !in r.records
            && r.records != CrossProduct(TwoIndices(i), TwoIndices(j))
  {
    TwoAxesParse(a, b, i, j);
    TwoByTwoAsWritten(i, j);
    TwoByTwoCross(i, j);
    var want := map[i := JNumber(0.0), j := JNumber(1.0)];
    assert want != map[i := JNumber(0.0), j := JNumber(0.0)] by { assert want[j] != JNumber(0.0); }
    assert want != map[i := JNumber(1.0), j := JNumber(0.0)] by { assert want[i] != JNumber(1.0); }
    assert want != map[i := JNumber(1.0), j := JNumber(1.0)] by { assert want[i] != JNumber(1.0); }
    assert want != map[] by { assert i in want; }
  }

  /**
   * Under the code's product the order in which the groups are visited
   * decides which records appear, not only their order: visiting `b` before
   * `a` would fold the same index lists the other way round, and that
   * product does hold `{i: 0, j: 1}`. Its last record is empty all the same,
   * so it too differs from the intended product.
   */
  lemma VisitOrderDecidesRecords(i: string, j: string)
    requires i != j
    ensures map[i := JNumber(0.0), j := JNumber(1.0)] !in ProductAsWritten(TwoIndices(i), TwoIndices(j))
    ensures map[i := JNumber(0.0), j := JNumber(1.0)] in ProductAsWritten(TwoIndices(j), TwoIndices(i))
    ensures ProductAsWritten(TwoIndices(j), TwoIndices(i))[3] == map[]
    ensures ProductAsWritten(TwoIndices(j), TwoIndices(i)) != CrossProduct(TwoIndices(j), TwoIndices(i))
  {
    var want := map[i := JNumber(0.0), j := JNumber(1.0)];
    TwoByTwoAsWritten(i, j);
    TwoByTwoAsWritten(j, i);
    assert want != map[i := JNumber(0.0), j := JNumber(0.0)] by { assert want[j] != JNumber(0.0); }
    assert want != map[i := JNumber(1.0), j := JNumber(0.0)] by { assert want[i] != JNumber(1.0); }
    assert want != map[i := JNumber(1.0), j := JNumber(1.0)] by { assert want[i] != JNumber(1.0); }
    assert want != map[] by { assert i in want; }
    assert map[j := JNumber(1.0), i := JNumber(0.0)] == want;
    assert ProductAsWritten(TwoIndices(j), TwoIndices(i))[1] == want;
    CrossProductLayout(TwoIndices(j), TwoIndices(i), 1, 1);
    assert CrossProduct(TwoIndices(j), TwoIndices(i))[3] != map[] by {
      assert j in TwoIndices(j)[1] + TwoIndices(i)[1];
    }
  }
}
