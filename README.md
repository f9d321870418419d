# jparser path resolver in Dafny

jparser extracts fragments from a JSON document. The caller names each fragment with a descriptor: a dotted path and an output identifier (`MetaData{Path, ParamID}`). The result is a list of flat records that map output identifiers to fragments.

Path segments work as follows:
- An ordinary segment looks up an object key.
- The segment `[]` expands an array, one branch per element.
- Right after `[]`, three terminal segments are pseudo-fields:
  - `@` is the element index;
  - `#` is the element count;
  - the empty segment captures the whole array.

`ParseParams` has two base cases. After those, it groups the descriptors by their first path segment and resolves each group one level down (`unmarshalNextLevel`). It folds the group results together with `cartesianProduct`. Under `[]`, each element contributes its own records, and the elements' records are concatenated. The whole-array and count captures are combined into every record.

The project models the whole engine in `parser.go`, in two layers:

- **Value functions.** `Resolution` gives the resolver as functions on values: `Parse`, `Fold`, `NextLevel`, `ExpandArray` and `ElementsFrom`. `Fold`, `NextLevel`, `ExpandArray` and `ElementsFrom` call each other on the same JSON value, under a lexicographic measure that ranks them and counts the remaining groups or elements. Only the calls back into `Parse` (parser.go:87, 120) move to a strictly smaller value.
- **Methods with the Go loops.** These are proved to compute exactly those functions:
  - `Engine.ParseParams` and `Engine.GroupDescriptors`: the grouping map filled by appending, then the fold.
  - `Engine.UnmarshalNextLevel`: the per-element append loop.
  - `Classifier.SplitMeta`: the bucket loop.
  - `Combiner.CartesianProduct`: nested loops over a preallocated array with the manually bumped write index.
  - `Combiner.Merge`: the map copy loops.

Modelling choices:

- **JSON values.** A JSON document is the datatype `JsonValue.Json`, not bytes. `encoding/json` appears only through its observable decisions:
  - A value decodes as a slice if it is an array or `null`.
  - A value decodes as a map if it is an object or `null`. `null` gives a nil slice or map, so it acts as empty.
  - Looking a key up in the decoded map finds the last member with that key.
  - A decode failure is `UnmarshalTypeError(kind, target)`.
- **Raw input.** An empty `json.RawMessage` is `RawMessage.Blank`.
- **Index and count.** The values for `@` and `#` are `JNumber(i)` and `JNumber(n)`.
- **Group order.** Go visits the groups in randomised map order. The model fixes the order in which first segments first occur (`Grouper.GroupOrder`).

Properties proved:
- The base cases.
- The result is non-empty on success.
- An empty array yields exactly one record.
- With only `@` and `#` under `[]`, there is exactly one record per element.
- The decode errors, and that the first failure aborts the fold or the element loop.
- Every key of every record is the ParamID of one of the descriptors passed in, and so is the ParamID of any error (`Provenance`).
- Scenarios in the shapes the test fixtures use.

**The code's product is not the full product.** The combination of two result sets is meant to be the full outer-A/inner-B product, one merged record per pair in that order. The code as written (parser.go:141-154) restarts its write index at each outer index. Once both sides have more than one record, the rows overwrite each other and the trailing slots stay empty. The model follows the code (`Combiner.ProductAsWritten`), and the resolver uses that product. The intended product is `Combiner.CrossProduct`.

Where the code's product is used:
- Every product inside the array branch has a single-record side: the index seed, the count seed, and `resAll` (`Properties.ResAllIsOneRecord`). There the two products agree (`Combiner.AsWrittenIsCrossWhenOneSideSingle`).
- The defect shows only when sibling groups each yield more than one record (`Scenarios.TwoAxesAsWritten`).

**Repeated paths.** Two descriptors with the same one-segment path land in one group with two empty paths. The single-descriptor base case therefore does not apply one level down, and the value is decoded again as an object with key `""`. The model keeps this behaviour (`Scenarios.RepeatedPathDecodesAgain`).

## Model

| member | source | states |
|---|---|---|
| Descriptors.SplitPath | parser.go:129-136 | The head never contains `.`. Without a `.` the result is `(path, "")`. Otherwise `head + "." + tail == path`. The tail is shorter than the path, or empty. |
| Descriptors.Strip | parser.go:40-42 | Definition, no contract: the descriptor `MetaData{restOfPath, ParamID}` appended to its group. `Provenance.SelectedIds` states that it keeps the ParamID; `Descriptors.SplitPathAt` fixes the rest of the path. |
| Descriptors.Head | parser.go:40 | Definition, no contract: the `currentPath` a descriptor is grouped under. `Descriptors.SplitPath` states that it holds no `.`, and `Descriptors.SplitPathAt` what it is. |
| Descriptors.SplitPathAt | parser.go:129-136 | The split happens at the first `.`: for a head with no `.`, splitting `head + "." + tail` gives back `(head, tail)`, whatever `tail` holds. |
| Classifier.MetaBase | parser.go:163-176 | A descriptor is among the deeper paths exactly when it is in the input and its path is not `""`, `@` or `#`. |
| Classifier.LastWithPath | parser.go:165-174 | Nil exactly when no descriptor has the path. Otherwise a descriptor with that path, and no later descriptor has it (the Go variable is overwritten on each match). |
| Classifier.MetaBaseAppend | parser.go:165-176 | Keeping the deeper paths commutes with concatenation, so they stay in input order. |
| Classifier.MetaBaseEmpty | parser.go:163-176 | There are no deeper paths exactly when every descriptor names a pseudo-field. |
| Classifier.SplitMeta | parser.go:162-180 | The loop's four outputs are the deeper paths in order and the last `""`, `@` and `#` descriptors. |
| Combiner.Merge | parser.go:143-151 | The merged keys are the union. A key of `set2` takes `set2`'s value. A key of `set1` only keeps `set1`'s value. |
| Combiner.ProductAsWritten | parser.go:138-159 | The code's product has `len(a)*len(b)` records; slot by slot it is RowsWritten after every row has run. Its layout is stated by `Combiner.ProductLayoutOneSide` and `Combiner.ProductOverlapCounterexample`. |
| Combiner.RowsWritten | parser.go:141-156 | Definition, no contract: the content of one slot after the first rows of the loop, the last row that wrote it winning, an unwritten slot empty. `Combiner.CartesianProduct` is proved to leave exactly these slots, and `Combiner.ProductOverlapCounterexample` shows the overlap. |
| Combiner.WriteIndexBound | parser.go:141-154 | The write index `row + j` stays below `len(a)*len(b)`, so the code never writes out of bounds. |
| Combiner.NonEmptyProduct | parser.go:138-159 | The product of two non-empty lists is non-empty. |
| Combiner.CartesianProduct | parser.go:138-159 | The nested loops over the preallocated slice return exactly the code's product. |
| Combiner.ProductLayoutOneSide | parser.go:138-159 | When either side has one record, slot `i*len(b)+j` holds `a[i]` merged with `b[j]`, with `b` winning on shared keys. |
| Combiner.CrossProduct | parser.go:138-159 | Definition, no contract: the intended product, every record of the first list merged with every record of the second, outer first. `Combiner.CrossProductLayout` states its layout. |
| Combiner.MergeEach | parser.go:142-153 | Definition, no contract: one outer record merged with each inner record in turn. `Combiner.CrossProductLayout` states the layout it builds. |
| Combiner.CrossProductLayout | parser.go:138-159 | The intended product has `len(a)*len(b)` records, and slot `i*len(b)+j` is `a[i]` merged with `b[j]` for every `i`, `j`. |
| Combiner.AsWrittenIsCrossWhenOneSideSingle | parser.go:138-159 | With one record on either side, the code's product equals the intended product. |
| Combiner.ProductOverlapCounterexample | parser.go:141-154 | For two records on each side, the code's slot 1 holds the second row's first merge and slot 3 is empty. The intended product has `{x:2, y:2}` in slot 3, so the two products differ. |
| JsonValue.DecodesAsArray | parser.go:71-74 | Definition, no contract: `json.Unmarshal` into `[]json.RawMessage` succeeds on an array or `null`. `Properties.ArrayDecodeFailure` states the error otherwise. |
| JsonValue.DecodesAsObject | parser.go:110-113 | Definition, no contract: `json.Unmarshal` into `RawMessageSet` succeeds on an object or `null`. `Properties.ObjectDecodeFailure` states the error otherwise. |
| JsonValue.Elements | parser.go:71-72 | Definition, no contract: the slice `sliceJSON` is filled with, empty for `null`. `Properties.EmptyArrayGivesOneRecord` and `Properties.WholeArrayOnly` state results in terms of its length. |
| JsonValue.Members | parser.go:110-111 | Definition, no contract: the members the map is filled from, none for `null`. `Properties.AbsentKeyGivesEmptyRecord` states the lookup on them. |
| JsonValue.Fields | parser.go:110-115 | Definition, no contract: the map `json.Unmarshal` builds, each member stored in turn so the last duplicate stays. `JsonValue.FindKeyAgreesWithFields` ties the lookup to it. |
| JsonValue.FindKey | parser.go:110-118 | The member found has the key and no later member has it. Nothing is found exactly when no member has the key. |
| JsonValue.FindKeyAgreesWithFields | parser.go:110-115 | A lookup by FindKey agrees with the map `json.Unmarshal` builds: same presence, same value. |
| Grouper.Group | parser.go:38-43 | Definition, no contract: `currentPathToNewMeta` after the loop, built by appending one stripped descriptor per step. Its meaning is stated by `Grouper.GroupIsSelected` against the reference `Grouper.Selected`, and `Engine.GroupDescriptors` is proved to build it. |
| Grouper.GroupOrder | parser.go:46 | Definition, no contract: the fixed order, first occurrence of each first segment, that stands for the `range` over the map. `Grouper.GroupOrderListsGroups` states that it lists every group once. |
| Grouper.GroupIsSelected | parser.go:38-43 | A group exists exactly for the first segments that occur. Each group is that segment's descriptors, stripped of it, in input order. |
| Grouper.GroupOrderListsGroups | parser.go:38-46 | The visiting order lists every group and nothing else, each once. |
| Grouper.GroupingWellFormed | parser.go:38-46 | Every group that is visited exists and is non-empty. |
| Grouper.GroupOfTwo | parser.go:38-43 | Two descriptors form one group when their first segments agree, two groups otherwise. |
| Resolution.AllSeed | parser.go:65-69 | Definition, no contract: `resAll` before the count, `[{}]` or the whole array under the `""` descriptor. `Properties.ResAllIsOneRecord` states it together with the count. |
| Resolution.CountSeed | parser.go:76-79 | Definition, no contract: the one record with the element count. `Properties.ResAllIsOneRecord` states how it is combined into `resAll`. |
| Resolution.IndexSeed | parser.go:92-97 | Definition, no contract: `ixRes`, `[{}]` or the element index. `Properties.IndexOnlyElements` states what each element contributes with it. |
| Resolution.Parse | parser.go:27-56 | A successful resolution returns at least one record. |
| Resolution.Fold | parser.go:45-55 | Folding the groups into a non-empty list stays non-empty on success. |
| Resolution.NextLevel | parser.go:59-126 | One level down, success returns at least one record. |
| Resolution.ExpandArray | parser.go:60-107 | The array branch returns at least one record on success, including for empty arrays. |
| Resolution.ElementsFrom | parser.go:85-102 | The element loop adds at least one record per remaining element. |
| Engine.ParseParams | parser.go:27-56 | The method with the grouping and fold loops returns exactly the resolver's result, records or error. |
| Engine.GroupDescriptors | parser.go:38-43 | The grouping loop builds exactly the reference grouping and the first-occurrence order. |
| Engine.UnmarshalNextLevel | parser.go:59-126 | The method with the element-append loop returns exactly the one-level resolution, records or error. |
| Properties.EmptyInputGivesOneEmptyRecord | parser.go:28-30 | No bytes, or no descriptors, gives exactly one empty record. |
| Properties.EmptyPathCapturesValue | parser.go:32-36 | A single descriptor with the empty path captures the whole value under its ParamID. |
| Properties.AbsentKeyGivesEmptyRecord | parser.go:110-118 | A key the object lacks, or `null` in place of the object, gives one empty record rather than an error. |
| Properties.UnitProduct | parser.go:45-52 | Folding the first group into the seed `[{}]` gives that group's records unchanged. |
| Properties.ProductUnit | parser.go:99-107 | Merging with the one-record seed `[{}]` on the right changes nothing. |
| Properties.SingleDescriptor | parser.go:38-53 | One descriptor with a non-empty path resolves as its single group one level down. |
| Properties.AbsentPathGivesEmptyRecord | parser.go:115-118 | One descriptor whose first segment the object lacks gives one empty record (the missing-path case). |
| Properties.ResAllIsOneRecord | parser.go:63-79 | `resAll` is always one record, holding the whole array and the count when they are requested. |
| Properties.EmptyArrayGivesOneRecord | parser.go:60-107 | An empty array or `null` under `[]` gives exactly one record, whatever the descriptors below the marker: the whole array and count 0 if requested, and nothing else. |
| Properties.WholeArrayOnly | parser.go:60-107 | With neither `@` nor a deeper path under `[]`, an array or `null` of any length gives exactly one record, the whole array and the count if requested (parser.go:104, 107). |
| Properties.IndexOnlyElements | parser.go:85-102 | With no deeper paths, each element appends exactly its index record. |
| Properties.IndexAndCountRecords | parser.go:76-107 | An array of N > 0 elements with only `@` and `#` gives exactly N records, record i holding index i and count N. |
| Properties.IndexCountLayout | parser.go:99-107 | N index records combined with the count record give N records, each with its index and the count. |
| Properties.ExpandIndexAndCount | parser.go:60-107 | With only `@` and `#`, the array branch is the index records combined with the count record. |
| Properties.IndexWithoutDeeperPaths | parser.go:60-107 | With `@` and no deeper path, the array branch is the index records combined with the `resAll` record. |
| Properties.ArrayDecodeFailure | parser.go:71-74 | A value that is neither an array nor `null` under `[]` is an error carrying the kind and the group's first ParamID. |
| Properties.ObjectDecodeFailure | parser.go:110-113 | A value that is neither an object nor `null` under a key is an error carrying the kind and the group's first ParamID. |
| Properties.FailingGroupAborts | parser.go:46-50 | The first group that fails ends the fold with exactly that group's error. |
| Properties.FailingElementAborts | parser.go:86-90 | The first element whose resolution fails ends the array branch with exactly that element's error. |
| Provenance.ParseTraceable | parser.go:27-56 | Every record key is a ParamID of the descriptors passed in, and so is the ParamID of any error. |
| Provenance.FoldTraceable | parser.go:45-55 | The fold keeps record keys, and error ParamIDs, within the descriptors' ParamIDs. |
| Provenance.NextLevelTraceable | parser.go:59-126 | One level down, record keys and error ParamIDs come from the group's descriptors. |
| Provenance.ExpandArrayTraceable | parser.go:60-107 | In the array branch, record keys and error ParamIDs come from the group's descriptors. |
| Provenance.ElementsTraceable | parser.go:85-102 | The element loop adds only keys drawn from the deeper paths and the index descriptor. |
| Provenance.ProductKeysWithin | parser.go:138-159 | The product introduces no key that is absent from both inputs. |
| Provenance.SelectedIds | parser.go:38-43 | Stripping paths while grouping keeps each ParamID. |
| Provenance.GroupIds | parser.go:38-43 | Every ParamID in a group is a ParamID of the input. |
| Provenance.LastWithPathId | parser.go:165-174 | A pseudo-field descriptor chosen by splitMeta is one of the group's. |
| Provenance.MetaBaseIds | parser.go:163-176 | The deeper paths carry only the group's ParamIDs. |
| Provenance.ResAllWithin | parser.go:63-79 | `resAll` is keyed only by the group's ParamIDs. |
| Scenarios.TwoGroups | parser.go:45-53 | Two descriptors with different first segments are resolved separately and combined by the code's product. |
| Scenarios.KeyOfObject | parser.go:110-126 | `{key: v}` asked for `key` gives `[{id: v}]`. |
| Scenarios.PresentAndMissingKey | parser.go:115-118 | `{key: v}` asked for `key` and `missing.rest` gives `[{x: v}]`: the missing key contributes nothing. |
| Scenarios.TwoElements | parser.go:86-102 | Over two elements, the element loop concatenates their records. |
| Scenarios.ArrayOfObjects | parser.go:85-107 | `[{key: u}, {key: w}]` asked for `[].key` gives `[{id: u}, {id: w}]`. |
| Scenarios.KeyUnderEachElement | parser.go:85-107 | The array branch of the previous request gives the same two records. |
| Scenarios.EmptyArrayFixture | parser_test.go:105-113 | An empty array asked for a deeper path under `[]` gives `[{}]`. |
| Scenarios.WholeArrayUnderKey | parser_test.go:146-167 | `key.[]` over `{key: [..]}` gives the one record `{id: [..]}`: a path ending in the marker captures the array. |
| Scenarios.WholeArrayCapture | parser.go:60-107 | The marker as the last segment, applied to an array, gives `[{id: array}]`. |
| Scenarios.IndexCountGrouping | parser.go:38-43 | `[].@` and `[].#` form one group under the marker. |
| Scenarios.OneGroup | parser.go:45-55 | A request that forms a single group resolves as that group does. |
| Scenarios.IndexAndCountFixture | parser_test.go:115-145 | `[].@` with `[].#` over N > 0 elements gives N records, record i holding index i and count N. |
| Scenarios.RepeatedPathDecodesAgain | parser.go:32-43 | Two descriptors with one same path over a string value give an object-decode error naming the first descriptor. |
| Scenarios.StringUnderEmptyPaths | parser.go:110-113 | Two empty paths applied to a string give the object-decode error. |
| Scenarios.IndexOverTwoNulls | parser.go:85-107 | `@` over `[null, null]` gives `[{id: 0}, {id: 1}]`. |
| Scenarios.IndexAxis | parser.go:115-120 | Under the last member `key`, `[].@` over a two-element array gives its two index records. |
| Scenarios.TwoAxesParse | parser.go:45-53 | Two index axes under sibling keys resolve to the code's product of their index lists. |
| Scenarios.TwoByTwoAsWritten | parser.go:141-154 | The code's product of two two-element index lists is `{0,0}`, `{1,0}`, `{1,1}`, `{}`. |
| Scenarios.TwoByTwoCross | parser.go:138-159 | The intended product of those lists has four records, the second being `{i:0, j:1}`. |
| Scenarios.TwoAxesAsWritten | parser.go:45-53 | With two sibling index axes visited `a` first (the model's fixed order), the code returns four records, the last empty and `{i:0, j:1}` missing, so the result differs from the intended product. |
| Scenarios.VisitOrderDecidesRecords | parser.go:46-52 | Under the code's product the visiting order decides which records appear: `{i:0, j:1}` is missing when `a` is folded first and present when `b` is. In the other order too the last record is empty and the result differs from the intended product. |

## Left out

- **JSON decoding.** The byte-level parsing that `encoding/json` does is not modelled, and neither is malformed text. Documents are well-formed `Json` trees, and a decode failure is a kind mismatch. The library's error messages are not modelled either.
- **Raw fragments.** They are the decoded sub-values. Their original bytes and whitespace are not kept, as in the fixture at parser_test.go:156-165.
- **`strconv.Itoa` rendering** (parser.go:78, 96). Index and count are numbers, not their decimal text.
- **JSON numbers** are `real` values. The textual form of a number is not modelled.
- **Group order.** Go's randomised map order at parser.go:46 is replaced by a fixed first-occurrence order. Under the code's product (see Findings), the visiting order decides not only the order of the records across sibling groups but which records appear at all, once two groups each yield several records (`Scenarios.VisitOrderDecidesRecords`). The scenarios that combine sibling groups, `Scenarios.TwoAxesParse` and `Scenarios.TwoAxesAsWritten`, hold for the fixed order only; the last empty record and the difference from the intended product hold for the other order too (`Scenarios.VisitOrderDecidesRecords`).
- **`UnmarshalError.Error`** formatting through `fmt.Sprintf` (parser.go:22-24) is not modelled.
- **Nil and empty slices and maps.** The model does not tell a nil slice or map from an empty one. An unwritten slot of the code's product reads as the empty record. An error result carries no record list.
- **The test harness.** The fixtures of parser_test.go are not transcribed; they appear only as the scenario shapes above.
- Engine.ParseParams: uses the code's product in the fold, not the intended one. The model describes the program as written, and the defect is listed under Findings.

## Findings

| source | as written | input that shows it | evidently intended | confidence | as-written member | corrected member |
|---|---|---|---|---|---|---|
| parser.go:141-154 | The write index `i` is the outer range variable. It restarts at each outer index, so row `i` writes slots `i .. i+len(b)-1`. | `cartesianProduct([{x:1},{x:2}], [{y:1},{y:2}])`: slot 1 is `{x:2,y:1}` and slot 3 is nil. Also two sibling groups `a.[].@` and `b.[].@` over two-element arrays. | Slot `i*len(b)+j` holds `a[i]` merged with `b[j]` (outer-A, inner-B). | not executed | Combiner.ProductOverlapCounterexample | Combiner.CrossProductLayout |
