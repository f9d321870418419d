/**
 * `splitMeta` (parser.go:162-180): the descriptors of one `[]` group are
 * sorted into deeper paths (`metaBase`) and the three pseudo-fields
 * `""` (whole array), `@` (index) and `#` (count).
 */
module Classifier {

  import opened Wrappers
  import opened Descriptors

  predicate IsPseudoField(path: string)
  {
    path == WholeArray || path == IndexField || path == CountField
  }

  /** The descriptors that name a deeper path, in input order. */
  function MetaBase(meta: seq<MetaData>): (r: seq<MetaData>)
    ensures forall d :: d in r <==> d in meta && !IsPseudoField(d.path)
  {
    if meta == [] then []
    else
      var init, d := meta[..|meta| - 1], meta[|meta| - 1];
      assert meta == init + [d];
      MetaBase(init) + (if IsPseudoField(d.path) then [] else [d])
  }

  /** The last descriptor whose path is exactly `path`, if there is one. */
  function LastWithPath(meta: seq<MetaData>, path: string): (r: Option<MetaData>)
    ensures r.None? <==> forall k :: 0 <= k < |meta| ==> meta[k].path != path
    ensures r.Some? ==> r.value.path == path
    ensures r.Some? ==> exists k :: 0 <= k < |meta| && meta[k] == r.value
                                    && forall k' :: k < k' < |meta| ==> meta[k'].path != path
  {
    if meta == [] then None
    else if meta[|meta| - 1].path == path then Some(meta[|meta| - 1])
    else LastWithPath(meta[..|meta| - 1], path)
  }

  /** Keeping the deeper paths commutes with concatenation, so their order is the input order. */
  lemma {:induction false} MetaBaseAppend(a: seq<MetaData>, b: seq<MetaData>)
    ensures MetaBase(a + b) == MetaBase(a) + MetaBase(b)
  {
    if b == [] {
      assert a + b == a;
    } else {
      var init, d := b[..|b| - 1], b[|b| - 1];
      assert (a + b)[..|a + b| - 1] == a + init;
      MetaBaseAppend(a, init);
    }
  }

  /** No deeper path is left exactly when every descriptor names a pseudo-field. */
  lemma {:induction false} MetaBaseEmpty(meta: seq<MetaData>)
    ensures MetaBase(meta) == [] <==> forall k :: 0 <= k < |meta| ==> IsPseudoField(meta[k].path)
  {
    if meta != [] {
      var init := meta[..|meta| - 1];
      MetaBaseEmpty(init);
      assert forall k :: 0 <= k < |init| ==> init[k] == meta[k];
    }
  }

  method SplitMeta(meta: seq<MetaData>)
    returns (metaBase: seq<MetaData>, metaAll: Option<MetaData>, metaIndex: Option<MetaData>, metaCount: Option<MetaData>)
    ensures metaBase == MetaBase(meta)
    ensures metaAll == LastWithPath(meta, WholeArray)
    ensures metaIndex == LastWithPath(meta, IndexField)
    ensures metaCount == LastWithPath(meta, CountField)
  {
    metaBase, metaAll, metaIndex, metaCount := [], None, None, None;
    for i := 0 to |meta|
      invariant metaBase == MetaBase(meta[..i])
      invariant metaAll == LastWithPath(meta[..i], WholeArray)
      invariant metaIndex == LastWithPath(meta[..i], IndexField)
      invariant metaCount == LastWithPath(meta[..i], CountField)
    {
      var v := meta[i];
      assert meta[..i + 1][..i] == meta[..i];
      if v.path == IndexField {
        metaIndex := Some(v);
      } else if v.path == CountField {
        metaCount := Some(v);
      } else if v.path == WholeArray {
        metaAll := Some(v);
      } else {
        metaBase := metaBase + [v];
      }
    }
    assert meta[..|meta|] == meta;
  }
}
