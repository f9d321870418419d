/**
 * Records (`RawMessageSet`) and the cartesian combiner `cartesianProduct`
 * (parser.go:138-159).
 *
 * The Go loop preallocates `len(a)*len(b)` slots and writes through the outer
 * range variable `i`, which it bumps in the inner loop; the range statement
 * resets `i` to the next outer index, so row `i` writes slots `i .. i+len(b)-1`.
 * When both inputs have more than one record, rows overlap and the slots past
 * `len(a)+len(b)-2` are never written (Go leaves them nil, read here as the
 * empty record). ProductAsWritten is that behaviour; CrossProduct is the
 * intended outer-a, inner-b product. They agree whenever one side has a
 * single record.
 */
module Combiner {

  import opened JsonValue

  /** One flat output record: output identifier to fragment. */
  type Record = map<string, JsonValue.Json>

  /** `[]RawMessageSet{{}}`: one empty record. */
  const Unit: seq<Record> := [map[]]

  /** `newMap` of parser.go:143-151: a copy of `set1` overwritten with `set2`. */
  method Merge(set1: Record, set2: Record) returns (newMap: Record)
    ensures newMap.Keys == set1.Keys + set2.Keys
    ensures forall k :: k in set2 ==> newMap[k] == set2[k]
    ensures forall k :: k in set1 && k !in set2 ==> newMap[k] == set1[k]
  {
    newMap := map[];
    var todo := set1.Keys;
    while todo != {}
      invariant todo <= set1.Keys
      invariant newMap == map k | k in set1.Keys - todo :: set1[k]
      decreases todo
    {
      var k :| k in todo;
      newMap := newMap[k := set1[k]];
      todo := todo - {k};
    }
    todo := set2.Keys;
    while todo != {}
      invariant todo <= set2.Keys
      invariant newMap.Keys == set1.Keys + (set2.Keys - todo)
      invariant forall k :: k in set2.Keys - todo ==> newMap[k] == set2[k]
      invariant forall k :: k in set1 && k !in set2.Keys - todo ==> newMap[k] == set1[k]
      decreases todo
    {
      var k :| k in todo;
      newMap := newMap[k := set2[k]];
      todo := todo - {k};
    }
  }

  /**
   * The content of slot `k` once rows `0 .. rows-1` of the Go loop have run:
   * the last row `r` that writes `k` is `min(k, rows-1)`, and it writes `k`
   * only if `k - r < |b|`.
   */
  function RowsWritten(a: seq<Record>, b: seq<Record>, rows: nat, k: nat): Record
    requires rows <= |a|
  {
    if rows == 0 then map[]
    else
      var r := if k < rows - 1 then k else rows - 1;
      if k - r < |b| then a[r] + b[k - r] else map[]
  }

  /** The slice `cartesianProduct(a, b)` returns, as the Go code computes it. */
  function ProductAsWritten(a: seq<Record>, b: seq<Record>): (r: seq<Record>)
    ensures |r| == |a| * |b|
  {
    seq(|a| * |b|, k requires 0 <= k < |a| * |b| => RowsWritten(a, b, |a|, k))
  }

  /** The write index `row + j` never leaves the preallocated slice. */
  lemma WriteIndexBound(na: nat, nb: nat, row: nat, j: nat)
    requires row < na && j < nb
    ensures row + j < na * nb
  {
    ProductAtLeastSum(na, nb);
  }

  lemma {:induction false} ProductAtLeastSum(na: nat, nb: nat)
    requires na >= 1 && nb >= 1
    ensures na * nb >= na + nb - 1
    decreases na
  {
    if na > 1 {
      ProductAtLeastSum(na - 1, nb);
      assert na * nb == (na - 1) * nb + nb;
    }
  }

  /** A product of two non-empty record lists is non-empty. */
  lemma NonEmptyProduct(a: seq<Record>, b: seq<Record>)
    ensures |a| > 0 && |b| > 0 ==> |ProductAsWritten(a, b)| > 0
  {
  }

  method CartesianProduct(rawSets1: seq<Record>, rawSets2: seq<Record>) returns (res: seq<Record>)
    ensures res == ProductAsWritten(rawSets1, rawSets2)
  {
    var slots := new Record[|rawSets1| * |rawSets2|](_ => map[]);
    var row := 0;
    while row < |rawSets1|
      invariant row <= |rawSets1|
      invariant forall k :: 0 <= k < slots.Length ==> slots[k] == RowsWritten(rawSets1, rawSets2, row, k)
    {
      var set1 := rawSets1[row];
      var i := row;  // the range variable, bumped once per inner iteration
      var j := 0;
      while j < |rawSets2|
        invariant j <= |rawSets2| && i == row + j
        invariant forall k :: 0 <= k < slots.Length ==>
          slots[k] == if row <= k < i then set1 + rawSets2[k - row] else RowsWritten(rawSets1, rawSets2, row, k)
      {
        WriteIndexBound(|rawSets1|, |rawSets2|, row, j);
        var newMap := Merge(set1, rawSets2[j]);
        assert newMap == set1 + rawSets2[j];
        slots[i] := newMap;
        i := i + 1;
        j := j + 1;
      }
      row := row + 1;
    }
    res := slots[..];
  }

  /** When one side has a single record, slot `i*|b| + j` holds `a[i]` overwritten by `b[j]`. */
  lemma ProductLayoutOneSide(a: seq<Record>, b: seq<Record>, i: nat, j: nat)
    requires |a| == 1 || |b| == 1
    requires i < |a| && j < |b|
    ensures i * |b| + j < |ProductAsWritten(a, b)|
    ensures ProductAsWritten(a, b)[i * |b| + j] == a[i] + b[j]
  {
    WriteIndexBound(|a|, |b|, i, j);
  }

  /** The records `x + b[j]` for every `j`, in order. */
  function MergeEach(x: Record, b: seq<Record>): seq<Record>
  {
    seq(|b|, j requires 0 <= j < |b| => x + b[j])
  }

  /** The intended product: every record of `a` (outer) merged with every record of `b` (inner). */
  function CrossProduct(a: seq<Record>, b: seq<Record>): seq<Record>
  {
    if a == [] then [] else MergeEach(a[0], b) + CrossProduct(a[1..], b)
  }

  /** CrossProduct has `|a|*|b|` records, laid out outer-a, inner-b. */
  lemma {:induction false} CrossProductLayout(a: seq<Record>, b: seq<Record>, i: nat, j: nat)
    requires i < |a| && j < |b|
    ensures |CrossProduct(a, b)| == |a| * |b|
    ensures i * |b| + j < |a| * |b|
    ensures CrossProduct(a, b)[i * |b| + j] == a[i] + b[j]
  {
    CrossProductLength(a, b);
    WriteIndexBound(|a|, |b|, i, j);
    if i > 0 {
      CrossProductLayout(a[1..], b, i - 1, j);
      assert i * |b| + j == |b| + ((i - 1) * |b| + j);
    }
  }

  lemma {:induction false} CrossProductLength(a: seq<Record>, b: seq<Record>)
    ensures |CrossProduct(a, b)| == |a| * |b|
  {
    if a != [] {
      CrossProductLength(a[1..], b);
      assert |a| * |b| == |b| + (|a| - 1) * |b|;
    }
  }

  /** With a single record on either side the code's product is the intended one. */
  lemma AsWrittenIsCrossWhenOneSideSingle(a: seq<Record>, b: seq<Record>)
    requires |a| == 1 || |b| == 1
    ensures ProductAsWritten(a, b) == CrossProduct(a, b)
  {
    CrossProductLength(a, b);
    if |b| == 1 {
      forall k | 0 <= k < |a|
        ensures ProductAsWritten(a, b)[k] == CrossProduct(a, b)[k]
      {
        ProductLayoutOneSide(a, b, k, 0);
        CrossProductLayout(a, b, k, 0);
      }
    } else {
      forall k | 0 <= k < |b|
        ensures ProductAsWritten(a, b)[k] == CrossProduct(a, b)[k]
      {
        ProductLayoutOneSide(a, b, 0, k);
        CrossProductLayout(a, b, 0, k);
      }
    }
  }

  /**
   * Two records on each side: the code overwrites slot 1 with the second row's
   * first merge and leaves slot 3 empty, where the intended product holds
   * `{"x": 2, "y": 2}`.
   */
  lemma ProductOverlapCounterexample()
    ensures var a := [map["x" := JNumber(1.0)], map["x" := JNumber(2.0)]];
            var b := [map["y" := JNumber(1.0)], map["y" := JNumber(2.0)]];
            && ProductAsWritten(a, b)[1] == a[1] + b[0]
            && ProductAsWritten(a, b)[3] == map[]
            && CrossProduct(a, b)[3] == map["x" := JNumber(2.0), "y" := JNumber(2.0)]
            && ProductAsWritten(a, b) != CrossProduct(a, b)
  {
    var a := [map["x" := JNumber(1.0)], map["x" := JNumber(2.0)]];
    var b := [map["y" := JNumber(1.0)], map["y" := JNumber(2.0)]];
    CrossProductLayout(a, b, 1, 1);
    assert CrossProduct(a, b)[3] == a[1] + b[1];
    assert "x" in CrossProduct(a, b)[3];
  }
}
