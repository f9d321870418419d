/**
 * Path descriptors (`MetaData`) and the path segmenter (`splitPath`).
 * A path is a dotted string; `[]` expands an array, and right after it the
 * terminal segments `@` (element index), `#` (element count) and the empty
 * segment (the whole array) are pseudo-fields.
 */
module Descriptors {

  /** One requested value: where to find it and under which key to report it. */
  datatype MetaData = MetaData(path: string, paramID: string)

  const ArrayMarker: string := "[]"
  const IndexField: string := "@"
  const CountField: string := "#"
  const WholeArray: string := ""

  /**
   * `strings.SplitN(path, ".", 2)`: the text before the first `.` and the text
   * after it; without a `.`, the whole path and the empty string.
   */
  function SplitPath(path: string): (r: (string, string))
    ensures '.' !in r.0
    ensures '.' !in path ==> r == (path, "")
    ensures '.' in path ==> r.0 + "." + r.1 == path
    ensures |r.1| < |path| || r.1 == ""
  {
    if path == [] then ("", "")
    else if path[0] == '.' then ("", path[1..])
    else
      var (head, tail) := SplitPath(path[1..]);
      assert '.' in path ==> '.' in path[1..];
      assert path == [path[0]] + path[1..];
      ([path[0]] + head, tail)
  }

  /** The descriptor that stands for `d` one level down: its path without the first segment. */
  function Strip(d: MetaData): MetaData
  {
    MetaData(SplitPath(d.path).1, d.paramID)
  }

  /** The first segment of a descriptor's path. */
  function Head(d: MetaData): string
  {
    SplitPath(d.path).0
  }

  /** The segmenter cuts a path exactly at its first `.`. */
  lemma {:induction false} SplitPathAt(head: string, tail: string)
    requires '.' !in head
    ensures SplitPath(head + "." + tail) == (head, tail)
  {
    if head != [] {
      assert (head + "." + tail)[1..] == head[1..] + "." + tail;
      SplitPathAt(head[1..], tail);
      assert [head[0]] + head[1..] == head;
    }
  }
}
