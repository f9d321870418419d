/**
 * Provenance of the output: every key of every record is the ParamID of one
 * of the descriptors passed in, and so is the ParamID an error carries.
 * Proved by induction along the resolver's own recursion.
 */
module Provenance {

  import opened Wrappers
  import opened JsonValue
  import opened Descriptors
  import opened Grouper
  import opened Classifier
  import opened Combiner
  import opened Resolution

  /** The output identifiers of a descriptor list. */
  function Ids(meta: seq<MetaData>): set<string>
  {
    set k | 0 <= k < |meta| :: meta[k].paramID
  }

  predicate KeysWithin(rs: seq<Record>, ids: set<string>)
  {
    forall k :: 0 <= k < |rs| ==> rs[k].Keys <= ids
  }

  /** Records keyed only by `ids`, or an error naming one of `ids`. */
  predicate Traceable(r: Outcome, ids: set<string>)
  {
    match r
    case Ok(rs) => KeysWithin(rs, ids)
    case Err(e) => e.paramID in ids
  }

  lemma ProductKeysWithin(a: seq<Record>, b: seq<Record>, ids: set<string>)
    requires KeysWithin(a, ids) && KeysWithin(b, ids)
    ensures KeysWithin(ProductAsWritten(a, b), ids)
  {
    forall k | 0 <= k < |ProductAsWritten(a, b)| ensures ProductAsWritten(a, b)[k].Keys <= ids {
      assert ProductAsWritten(a, b)[k] == RowsWritten(a, b, |a|, k);
    }
  }

  lemma {:induction false} SelectedIds(meta: seq<MetaData>, head: string)
    ensures Ids(Selected(meta, head)) <= Ids(meta)
  {
    if meta != [] {
      SelectedIds(meta[1..], head);
      var first := if Head(meta[0]) == head then [Strip(meta[0])] else [];
      assert Selected(meta, head) == first + Selected(meta[1..], head);
      forall id | id in Ids(Selected(meta, head)) ensures id in Ids(meta) {
        var k :| 0 <= k < |Selected(meta, head)| && Selected(meta, head)[k].paramID == id;
        if k < |first| {
          assert meta[0].paramID == id;
        } else {
          assert Selected(meta[1..], head)[k - |first|].paramID == id;
          assert id in Ids(meta[1..]);
          var k' :| 0 <= k' < |meta[1..]| && meta[1..][k'].paramID == id;
          assert meta[k' + 1].paramID == id;
        }
      }
    }
  }

  lemma GroupIds(meta: seq<MetaData>, head: string)
    requires head in Group(meta)
    ensures Ids(Group(meta)[head]) <= Ids(meta)
  {
    GroupIsSelected(meta, head);
    SelectedIds(meta, head);
  }

  /** Everything ParseParams reports traces back to one of its descriptors. */
  lemma {:induction false} ParseTraceable(data: RawMessage, meta: seq<MetaData>)
    ensures Traceable(Parse(data, meta), Ids(meta))
    decreases Payload(data), 4, 0
  {
    if data.Blank? || |meta| == 0 {
    } else if |meta| == 1 && meta[0].path == "" {
      assert meta[0].paramID in Ids(meta);
    } else {
      GroupingWellFormed(meta);
      var groups, order := Group(meta), GroupOrder(meta);
      forall k | 0 <= k < |order| ensures Ids(groups[order[k]]) <= Ids(meta) {
        GroupIds(meta, order[k]);
      }
      FoldTraceable(data.value, groups, order, Unit, Ids(meta));
    }
  }

  lemma {:induction false} FoldTraceable(data: Json, groups: map<string, seq<MetaData>>, order: seq<string>, acc: seq<Record>, ids: set<string>)
    requires WellGrouped(groups, order)
    requires forall k :: 0 <= k < |order| ==> Ids(groups[order[k]]) <= ids
    requires KeysWithin(acc, ids)
    ensures Traceable(Fold(data, groups, order, acc), ids)
    decreases data, 3, |order|
  {
    if order != [] {
      NextLevelTraceable(data, groups[order[0]], order[0]);
      var res := NextLevel(data, groups[order[0]], order[0]);
      if res.Ok? {
        ProductKeysWithin(acc, res.records, ids);
        assert forall k :: 0 <= k < |order[1..]| ==> order[1..][k] == order[k + 1];
        FoldTraceable(data, groups, order[1..], ProductAsWritten(acc, res.records), ids);
      }
    }
  }

  lemma {:induction false} NextLevelTraceable(data: Json, meta: seq<MetaData>, currentPath: string)
    requires |meta| > 0
    ensures Traceable(NextLevel(data, meta, currentPath), Ids(meta))
    decreases data, 2, 0
  {
    assert meta[0].paramID in Ids(meta);
    if currentPath == ArrayMarker {
      ExpandArrayTraceable(data, meta);
    } else if data.JObject? {
      var found := FindKey(data.members, currentPath);
      if found.Some? {
        ParseTraceable(Text(data.members[found.value].value), meta);
      }
    }
  }

  /** A descriptor returned by LastWithPath is one of the list's. */
  lemma LastWithPathId(meta: seq<MetaData>, path: string)
    ensures LastWithPath(meta, path).Some? ==> LastWithPath(meta, path).value.paramID in Ids(meta)
  {
    if LastWithPath(meta, path).Some? {
      var k :| 0 <= k < |meta| && meta[k] == LastWithPath(meta, path).value;
      assert meta[k].paramID in Ids(meta);
    }
  }

  lemma MetaBaseIds(meta: seq<MetaData>)
    ensures Ids(MetaBase(meta)) <= Ids(meta)
  {
    var metaBase := MetaBase(meta);
    forall id | id in Ids(metaBase) ensures id in Ids(meta) {
      var k :| 0 <= k < |metaBase| && metaBase[k].paramID == id;
      assert metaBase[k] in metaBase;
      var k' :| 0 <= k' < |meta| && meta[k'] == metaBase[k];
    }
  }

  /** The whole-array and count record is keyed by descriptors of the group. */
  lemma ResAllWithin(meta: seq<MetaData>, data: Json, n: nat)
    ensures var metaAll, metaCount := LastWithPath(meta, WholeArray), LastWithPath(meta, CountField);
            KeysWithin(if metaCount.Some? then ProductAsWritten(AllSeed(metaAll, data), CountSeed(metaCount.value, n))
                       else AllSeed(metaAll, data), Ids(meta))
  {
    var metaAll, metaCount := LastWithPath(meta, WholeArray), LastWithPath(meta, CountField);
    LastWithPathId(meta, WholeArray);
    LastWithPathId(meta, CountField);
    assert KeysWithin(AllSeed(metaAll, data), Ids(meta));
    if metaCount.Some? {
      assert KeysWithin(CountSeed(metaCount.value, n), Ids(meta));
      ProductKeysWithin(AllSeed(metaAll, data), CountSeed(metaCount.value, n), Ids(meta));
    }
  }

  lemma {:induction false} ExpandArrayTraceable(data: Json, meta: seq<MetaData>)
    requires |meta| > 0
    ensures Traceable(ExpandArray(data, meta), Ids(meta))
    decreases data, 1, 0
  {
    assert meta[0].paramID in Ids(meta);
    if DecodesAsArray(data) {
      var ids := Ids(meta);
      var metaBase, metaAll := MetaBase(meta), LastWithPath(meta, WholeArray);
      var metaIndex, metaCount := LastWithPath(meta, IndexField), LastWithPath(meta, CountField);
      var n := |Elements(data)|;
      var resAll := if metaCount.Some? then ProductAsWritten(AllSeed(metaAll, data), CountSeed(metaCount.value, n))
                    else AllSeed(metaAll, data);
      ResAllWithin(meta, data, n);
      MetaBaseIds(meta);
      LastWithPathId(meta, IndexField);
      var seed: seq<Record> := if n == 0 then Unit else [];
      var resList := if metaIndex.Some? || |metaBase| > 0 then ElementsFrom(data, metaBase, metaIndex, 0, seed) else Ok(Unit);
      if metaIndex.Some? || |metaBase| > 0 {
        ElementsTraceable(data, metaBase, metaIndex, 0, seed, ids);
      }
      if resList.Ok? {
        ProductKeysWithin(resList.records, resAll, ids);
        assert ExpandArray(data, meta) == Ok(ProductAsWritten(resList.records, resAll));
      } else {
        assert ExpandArray(data, meta) == resList;
      }
    }
  }

  lemma {:induction false} ElementsTraceable(data: Json, metaBase: seq<MetaData>, metaIndex: Option<MetaData>, i: nat, acc: seq<Record>, ids: set<string>)
    requires DecodesAsArray(data) && i <= |Elements(data)|
    requires Ids(metaBase) <= ids
    requires metaIndex.Some? ==> metaIndex.value.paramID in ids
    requires KeysWithin(acc, ids)
    ensures Traceable(ElementsFrom(data, metaBase, metaIndex, i, acc), ids)
    decreases data, 0, |Elements(data)| - i
  {
    if i < |Elements(data)| {
      ParseTraceable(Text(data.elems[i]), metaBase);
      var res := Parse(Text(data.elems[i]), metaBase);
      if res.Ok? {
        var ix := IndexSeed(metaIndex, i);
        assert KeysWithin(ix, ids);
        ProductKeysWithin(res.records, ix, ids);
        var next := acc + ProductAsWritten(res.records, ix);
        assert KeysWithin(next, ids) by {
          forall k | 0 <= k < |next| ensures next[k].Keys <= ids {
            if k >= |acc| {
              assert next[k] == ProductAsWritten(res.records, ix)[k - |acc|];
            }
          }
        }
        ElementsTraceable(data, metaBase, metaIndex, i + 1, next, ids);
      }
    }
  }
}
