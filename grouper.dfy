/**
 * The meta grouper of `ParseParams` (parser.go:38-43): descriptors are
 * collected per first path segment, each with that segment stripped.
 * Go then visits the groups in map order, which is randomised; this model
 * fixes the order in which first segments first occur.
 */
module Grouper {

  import opened Descriptors

  /** `currentPathToNewMeta` once the loop at parser.go:39-43 has run over `meta`. */
  function Group(meta: seq<MetaData>): map<string, seq<MetaData>>
  {
    if meta == [] then map[]
    else
      var g := Group(meta[..|meta| - 1]);
      var d := meta[|meta| - 1];
      g[Head(d) := (if Head(d) in g then g[Head(d)] else []) + [Strip(d)]]
  }

  /** The first segments of `meta`, each once, in order of first occurrence. */
  function GroupOrder(meta: seq<MetaData>): seq<string>
  {
    if meta == [] then []
    else
      var order := GroupOrder(meta[..|meta| - 1]);
      var head := Head(meta[|meta| - 1]);
      if head in order then order else order + [head]
  }

  /**
   * Reference definition of one group: the descriptors of `meta` whose first
   * segment is `head`, stripped of it, in input order.
   */
  function Selected(meta: seq<MetaData>, head: string): seq<MetaData>
  {
    if meta == [] then []
    else (if Head(meta[0]) == head then [Strip(meta[0])] else []) + Selected(meta[1..], head)
  }

  /** Every listed segment has a group, and no group is empty. */
  predicate WellGrouped(groups: map<string, seq<MetaData>>, order: seq<string>)
  {
    forall k :: 0 <= k < |order| ==> order[k] in groups && groups[order[k]] != []
  }

  lemma {:induction false} SelectedAppend(meta: seq<MetaData>, d: MetaData, head: string)
    ensures Selected(meta + [d], head) == Selected(meta, head) + (if Head(d) == head then [Strip(d)] else [])
  {
    if meta == [] {
      assert meta + [d] == [d];
    } else {
      var first := if Head(meta[0]) == head then [Strip(meta[0])] else [];
      var last := if Head(d) == head then [Strip(d)] else [];
      assert (meta + [d])[0] == meta[0] && (meta + [d])[1..] == meta[1..] + [d];
      assert Selected(meta + [d], head) == first + Selected(meta[1..] + [d], head);
      SelectedAppend(meta[1..], d, head);
      assert first + (Selected(meta[1..], head) + last) == (first + Selected(meta[1..], head)) + last;
    }
  }

  /** Each group built by the loop is exactly the reference selection. */
  lemma {:induction false} GroupIsSelected(meta: seq<MetaData>, head: string)
    ensures head in Group(meta) <==> Selected(meta, head) != []
    ensures head in Group(meta) ==> Group(meta)[head] == Selected(meta, head)
  {
    if meta != [] {
      var init, d := meta[..|meta| - 1], meta[|meta| - 1];
      assert meta == init + [d];
      GroupIsSelected(init, head);
      SelectedAppend(init, d, head);
    }
  }

  /** The visiting order lists every group exactly once. */
  lemma {:induction false} GroupOrderListsGroups(meta: seq<MetaData>)
    ensures forall head :: head in GroupOrder(meta) <==> head in Group(meta)
    ensures forall i, j :: 0 <= i < j < |GroupOrder(meta)| ==> GroupOrder(meta)[i] != GroupOrder(meta)[j]
  {
    if meta != [] {
      GroupOrderListsGroups(meta[..|meta| - 1]);
    }
  }

  /** The groups of `meta` visited in GroupOrder are all present and non-empty. */
  lemma {:induction false} GroupingWellFormed(meta: seq<MetaData>)
    ensures WellGrouped(Group(meta), GroupOrder(meta))
  {
    GroupOrderListsGroups(meta);
    forall k | 0 <= k < |GroupOrder(meta)|
      ensures GroupOrder(meta)[k] in Group(meta) && Group(meta)[GroupOrder(meta)[k]] != []
    {
      GroupIsSelected(meta, GroupOrder(meta)[k]);
    }
  }

  /** Visiting the groups from position `g` on keeps the order well formed. */
  lemma WellGroupedSuffix(groups: map<string, seq<MetaData>>, order: seq<string>, g: nat)
    requires WellGrouped(groups, order) && g <= |order|
    ensures WellGrouped(groups, order[g..])
  {
    forall k | 0 <= k < |order[g..]| ensures order[g..][k] in groups && groups[order[g..][k]] != [] {
      assert order[g..][k] == order[g + k];
    }
  }

  /** The grouping of a single descriptor. */
  lemma GroupOfOne(d: MetaData)
    ensures Group([d]) == map[Head(d) := [Strip(d)]]
    ensures GroupOrder([d]) == [Head(d)]
  {
    assert [d][..0] == [];
    assert [] + [Strip(d)] == [Strip(d)];
  }

  /** The grouping of two descriptors: one group if their first segments agree, two otherwise. */
  lemma GroupOfTwo(d1: MetaData, d2: MetaData)
    ensures Group([d1, d2]) == if Head(d1) == Head(d2) then map[Head(d1) := [Strip(d1), Strip(d2)]]
                               else map[Head(d1) := [Strip(d1)], Head(d2) := [Strip(d2)]]
    ensures GroupOrder([d1, d2]) == if Head(d1) == Head(d2) then [Head(d1)] else [Head(d1), Head(d2)]
  {
    GroupOfOne(d1);
    assert [d1, d2][..1] == [d1];
    assert [Strip(d1)] + [Strip(d2)] == [Strip(d1), Strip(d2)];
    assert [] + [Strip(d2)] == [Strip(d2)];
  }
}
