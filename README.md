# socket-to-interface: the shape engine, in Dafny

This project models the core of socket-to-interface. The tool watches a WebSocket feed of JSON messages and keeps one example of every distinct message *shape*. A shape is the message with its structure kept and its data dropped. The core has two parts:

- `src/diff-shapes.ts` holds `deepShape`, `detectElementType` and `deepCompareShapes`.
  - `deepShape` turns a value into its shape: a boolean becomes `true`, a number `0`, a string `""`.
  - An array-valued field becomes the sorted set of its element shapes.
  - `deepCompareShapes` is the type-level structural equality that deduplicates that set.
- `src/InterfaceDetector.ts` holds the `Stats` record and the deduplication engine.
  - `processMessage` shapes a message, serialises the shape, and hashes the serialisation into a key.
  - A key not seen before is recorded, together with its shape file and, for a live message, its raw file. The counters and the shortest-shape pointer are updated.
  - `loadExisting` replays the shape files already on disk at start-up. It deletes those whose replay does not return their own name.

The project has seven files:

- `wrappers.dfy` holds `Option`, `Result` and the JavaScript errors the code can throw: `TypeError`, `SyntaxError`, `ENOENT`.
- `js_values.dfy` holds the JSON value type and the pieces of JavaScript it needs:
  - `typeof` and `Object.keys` with property reads;
  - `String(v)` and the code-unit order of strings;
  - the argument-less `Array.prototype.sort()`, a stable sort by `String(v)`;
  - the names that count as array indices.
- `diff_shapes.dfy` holds the comparator and a specification function `ShapeOf` for `deepShape`. It also holds the imperative `DeepShape` method, with its loops, proved to compute `ShapeOf`.
- `diff_shapes_properties.dfy` and `diff_shapes_examples.dfy` hold what is proved about them, in general and on concrete messages.
- `interface_detector.dfy` holds the engine in two forms:
  - the functions `Process` and `Replay`, which state what one call does to the whole state (counters, key set, file system);
  - the classes `Stats`, `FileStore` and `Detector`, whose methods update fields in place and are proved to do exactly what those functions say.
- `interface_detector_properties.dfy` holds the counting, deduplication and recovery rules, proved about `Process` and `Replay`.

Behaviour of the code that the model keeps:

- **In-place sorting.** `deepShape` sorts every array it meets in place (lines 138 and 144). `ShapeOf` therefore returns the shape together with the caller's value as it is afterwards. The raw file written for a new shape holds that sorted message.
- **Double shaping.** An object-valued field is shaped twice (lines 160 and 164). The second call sees the value the first call sorted, and its result is kept.
- **Early return on objects.** `deepCompareShapes` on two objects returns at the first key whose two values are both objects (line 83), so later keys are never compared. `LaterKeysIgnored` shows two objects that differ in a later key and still compare equal.
- **Key order.** Object keys are visited in insertion order and serialised in that order, so the same keys in another order give another key. `KeyOrderMatters` shows this. A shape is therefore not independent of key order.
- **Re-shaping is not idempotent.** Holes and dropped duplicates change a shape when it is shaped again. `[[1], [2]]` shapes to `[[0], [0], undefined]` (`TwoNestedArraysShape`), serialised as `[[0],[0],null]`. Shaping that again gives `[[0], null]` (`ReshapingIsNotIdempotent`).
- **Unequal-length arrays.** These are compared all-pairs: every member of the larger set must match every member of the smaller. An empty array therefore matches any array of another length.
- **Null comparisons throw.** Comparing `null` with an object reaches `Object.keys(null)` and throws a `TypeError`. So does shaping `{a: [1, null]}`.
- **Arrays nested in a top-level array.** `shape[key] = …` on an array stores these under the element's string form. An index name fills or extends the array and can leave holes. After `sort()` the holes sit at the end. A later read sees a hole as `undefined`, and `JSON.stringify` writes it as `null`. The model keeps such a hole as `undefined` in the shape, so `deepCompareShapes` treats it as `undefined` too (`HoleReadsAsUndefined`). Any other name is a property that serialisation drops.
- **Duplicate objects in a top-level array.** The `shape[key] = …` write at line 164 uses an object's string form as the name, so such a duplicate is dropped.

## Model

| member | source | states |
|---|---|---|
| JsValues.Entries | src/diff-shapes.ts:62-63 | `Object.keys` of an object, paired with its property reads, lists exactly the object's fields. For any other non-null, non-array value, every entry it lists holds a string. |
| JsValues.CharEntries | src/diff-shapes.ts:138 | The keys of a string are the numerals "i", "i+1", … and each holds the character at that index. |
| JsValues.Lookup | src/diff-shapes.ts:71-78 | `o[key]` is defined exactly when some field has that key, and then it is that field's value. |
| JsValues.TypeOf | src/diff-shapes.ts:54-59 | `typeof` is "object" exactly for null, arrays and objects, and "undefined" exactly for `undefined`. A JSON value is never a bigint, symbol or function. |
| JsValues.CodeUnitLessLexicographic | src/diff-shapes.ts:180 | The string order of `sort()` is lexicographic on code units: a proper prefix comes first, otherwise the first differing unit decides. |
| JsValues.NumberNameIsIndex | src/diff-shapes.ts:155 | `String(n)` of an integer names an array index exactly when 0 ≤ n ≤ 2^32 − 2, and then it names index n. |
| JsValues.SortByString | src/diff-shapes.ts:138-144 | `sort()` returns a rearrangement of its input: the same elements with the same counts. |
| JsValues.SortByStringSorted | src/diff-shapes.ts:138-144 | The result of `sort()` is ordered by `String(v)` in code-unit order, with `undefined` after every other value. |
| JsValues.SortByStringStable | src/diff-shapes.ts:144 | `sort()` is stable: the elements that share a sort key keep their relative order. With the two rows above this fixes the result completely. |
| JsValues.SortByStringMembers | src/diff-shapes.ts:38-39 | Sorting neither adds nor loses a member. |
| JsValues.ArrayIndexIsNumeral | src/diff-shapes.ts:155 | A property name denotes an array index exactly when it is the canonical numeral of some n ≤ 2^32 − 2. |
| DiffShapes.SetOf | src/diff-shapes.ts:30-31 | `new Set(xs)` holds exactly the elements of `xs`: a value is in the set iff it is in `xs`. |
| DiffShapes.SetOfCounts | src/diff-shapes.ts:30-31 | A primitive, null or `undefined` appears in the set once. An array or object appears as often as it occurs in `xs`, because a Set compares those by reference. |
| DiffShapes.Outer | src/diff-shapes.ts:32-37 | The outer set is `SetOf(xs)` or `SetOf(ys)`, whichever is larger, and `SetOf(xs)` when their sizes tie. |
| DiffShapes.Inner | src/diff-shapes.ts:32-37 | The inner set is the other of the two sets: when the outer is `SetOf(ys)` it is `SetOf(xs)` and vice versa, and it is no larger than the outer. |
| DiffShapes.DeepCompareShapes | src/diff-shapes.ts:13-96 | Two nulls compare true. Exactly one array gives false. Two non-objects compare equal iff their `typeof` agrees. Null against a non-array object throws, and so does `undefined` against any non-array object. |
| DiffShapes.DetectElementType | src/diff-shapes.ts:107-127 | boolean gives `true`, number and bigint give `0`, string gives `""`. The result is `undefined` exactly for type "undefined", and null exactly for symbol, function and object. |
| DiffShapes.Representative | src/diff-shapes.ts:166-172 | A primitive's representative depends only on its `typeof`: `true` for a boolean, `0` for a number, `""` for a string, `undefined` for `undefined`. |
| DiffShapes.ShapeOf | src/diff-shapes.ts:129-181 | The value after shaping has the same size. The shape is null iff the input is null and an array iff the input is one; an array's shape is sorted. Any other input shapes to an object. Shaping `undefined` throws, as `Object.keys(undefined)` does. |
| DiffShapes.SetProperty | src/diff-shapes.ts:155 | `shape[name] = v` on an array: an index name sets that slot, extending the array with holes up to it, and leaves every other slot as it was. Any other name leaves the array as it was. |
| DiffShapes.SortedSlots | src/diff-shapes.ts:180 | `shape.sort()` on an array with holes gives the filled slots in sort order, then one `undefined` per hole. The result is sorted and as long as the array. |
| DiffShapes.ArrayShape | src/diff-shapes.ts:141-155 | An array field's set is an array, and the array itself stays an array of the same size. |
| DeepShapeImpl.DeepShape | src/diff-shapes.ts:129-181 | The imperative `deepShape`, with its recursion, computes exactly `ShapeOf`. |
| DeepShapeImpl.ShapeTopArray | src/diff-shapes.ts:138-177 | The loop over a sorted top-level array, pushing shapes and setting properties, computes the specified slots and elements. |
| DeepShapeImpl.ShapeObject | src/diff-shapes.ts:138-177 | The loop over `Object.keys(thing)`, assigning `shape[key]`, computes the specified fields. |
| DeepShapeImpl.ShapeArray | src/diff-shapes.ts:141-155 | The `forEach` over a sorted array field, filling the set, computes the specified set. |
| DiffShapesProperties.CompareEqualLengthArrays | src/diff-shapes.ts:23-27 | Arrays of equal length compare true iff every position compares true. They throw iff some position throws. |
| DiffShapesProperties.ComparePositionsSpec | src/diff-shapes.ts:23-27 | `ComparePositions` is true iff every position compares true, and throws iff some position throws. |
| DiffShapesProperties.CompareUnequalLengthArrays | src/diff-shapes.ts:28-47 | Arrays of different lengths compare true iff every member of the larger set matches every member of the smaller set. |
| DiffShapesProperties.CompareArraysUnequal | src/diff-shapes.ts:28-47 | `CompareArrays` on unequal lengths sorts both sets and is true iff every pair of the outer and inner sets matches. |
| DiffShapesProperties.CompareAllPairsSpec | src/diff-shapes.ts:38-46 | `CompareAllPairs`, the nested loops over the two sets, is true iff every (outer, inner) pair compares true. |
| DiffShapesProperties.CompareRowSpec | src/diff-shapes.ts:40-45 | `CompareRow`, the inner loop, is true iff the outer member compares true with every inner member. |
| DiffShapesProperties.EmptyArrayMatchesAnyArray | src/diff-shapes.ts:28-47 | An empty array compares true, in either order, with every non-empty array. |
| DiffShapesProperties.CompareObjectsFirstDisagreement | src/diff-shapes.ts:61-93 | At the first key that does not agree, two object values decide the result by recursion and later keys are not examined. A missing key, an object against a non-object, or two different primitive types gives false. |
| DiffShapesProperties.CompareObjectsAgreeing | src/diff-shapes.ts:61-95 | Different key counts give false. The same count, with every key present and of one primitive type, gives true. |
| DiffShapesProperties.CompareFieldsFirstDisagreement | src/diff-shapes.ts:68-93 | In `CompareFields`, the key loop, the first key that does not agree decides: an object pair by recursion, anything else as false. |
| DiffShapesProperties.CompareFieldsAllAgree | src/diff-shapes.ts:68-95 | `CompareFields` is true when every key is present in the second object with a primitive value of the same type. |
| DiffShapesProperties.ObjectAgainstBooleanOrNumber | src/diff-shapes.ts:54-67 | An object against a boolean or a number compares equal exactly when the object is `{}`, in either order. |
| DiffShapesProperties.CompareReflexive | src/diff-shapes.ts:13-96 | Every value without repeated keys compares equal to itself. |
| DiffShapesProperties.SomeComparesSpec | src/diff-shapes.ts:147 | `SomeCompares`, i.e. `some(e => deepCompareShapes(e, entry))`, is false iff every member compares false, and true only when some member compares true. |
| DiffShapesProperties.ShapeSetLoopSpec | src/diff-shapes.ts:143-153 | `ShapeSetLoop`, the loop that fills an array field's set, keeps these facts and accounts for every element: no representative twice, no structured shape matching an earlier one, only representatives as primitives. |
| DiffShapesProperties.ShapeSetLoopDrawn | src/diff-shapes.ts:143-153 | `ShapeSetLoop` adds nothing but element shapes: every member is the representative of a primitive element or the shape of a structured element. |
| DiffShapesProperties.ArrayFieldShape | src/diff-shapes.ts:141-155 | `ShapeArrayValue`, an array field's shape, is sorted and accounts for every element. It holds nothing that is not an element's shape. It is a rearrangement of a repeat-free set, and it holds each representative at most once. |
| DiffShapesProperties.ShapeFieldsSpec | src/diff-shapes.ts:138-176 | `ShapeFields`, the key loop, maps field j to field j of the shape with the same key. A primitive becomes its representative. An array becomes its set. An object or null is shaped twice. |
| DiffShapesProperties.ObjectShape | src/diff-shapes.ts:138-165 | An object shapes to an object with exactly its keys, in order, each field shaped as above. The object keeps its keys. |
| DiffShapesProperties.PrimitiveFieldsLoop | src/diff-shapes.ts:166-174 | Over primitive fields, the key loop appends each field's representative and leaves the field itself unchanged. |
| DiffShapesProperties.FlatObjectShape | src/diff-shapes.ts:166-174 | An object of primitives shapes to the same keys holding representatives and is left unchanged. |
| DiffShapesProperties.StringShape | src/diff-shapes.ts:138 | A string shapes to an object with one key per index, each holding "". |
| DiffShapesProperties.TopElementStep | src/diff-shapes.ts:161-174 | One element of a top-level array keeps the pushed shapes repeat-free and accounts for the element. A primitive is pushed. An object's shape is pushed unless a match is already there. |
| DiffShapesProperties.TopElementsSpec | src/diff-shapes.ts:138-177 | `ShapeElements`, the top-level loop, keeps the pushed shapes repeat-free, adds no holes without nested arrays, and accounts for every element. |
| DiffShapesProperties.TopElementsDrawn | src/diff-shapes.ts:161-174 | Without nested arrays, `ShapeElements` pushes nothing but element shapes: representatives of primitive elements and shapes of object or null elements. |
| DiffShapesProperties.TopLevelArrayShape | src/diff-shapes.ts:161-180 | A top-level array without nested arrays shapes to a sorted array that accounts for every element and holds nothing but element shapes. It is a rearrangement of shapes none of which matches an earlier one. |
| DiffShapesProperties.PrimitiveElementsLoop | src/diff-shapes.ts:166-174 | Over primitives, the top-level loop pushes one representative per element, with no deduplication. |
| DiffShapesProperties.PrimitiveArrayShape | src/diff-shapes.ts:166-180 | A top-level array of primitives shapes to the sorted representatives, one per element. The message is left sorted. |
| DiffShapesExamples.StringArrayShape | src/diff-shapes.ts:141-155 | A non-empty array of strings has the set `[""]`, whatever its length. |
| DiffShapesExamples.TaggedMessagesShareAShape | src/diff-shapes.ts:138-155 | Every `{id: n, tags: [...strings]}` with any non-empty list of strings shapes to `{id: 0, tags: [""]}`, and its tags are left sorted. |
| DiffShapesExamples.KeyOrderMatters | src/diff-shapes.ts:138 | `{a, b}` and `{b, a}` get different shapes that `deepCompareShapes` nevertheless calls equal. |
| DiffShapesExamples.NullAfterNumberThrows | src/diff-shapes.ts:144-147 | `{a: [1, null]}` throws a TypeError while its set is filled. |
| DiffShapesExamples.LaterKeysIgnored | src/diff-shapes.ts:81-84 | Two objects that differ only after an object-valued key compare equal. |
| DiffShapesExamples.SortTiedPair | src/diff-shapes.ts:180 | Two values with one sort key stay in order under `sort()`. |
| DiffShapesExamples.NumberFieldShape | src/diff-shapes.ts:166-174 | `{k: n}` shapes to `{k: 0}` and is left unchanged. |
| DiffShapesExamples.DuplicateObjectsCollapse | src/diff-shapes.ts:161-164 | `[{a: 1}, {a: 2}]` shapes to `[{a: 0}]`: the second shape matches the first and is dropped. |
| DiffShapesExamples.NestedArrayLeavesHole | src/diff-shapes.ts:155 | `[[1]]` shapes to `[[0], undefined]`: the set goes to index "1" and leaves a hole at index 0. |
| DiffShapesExamples.HoleShapeDiffers | src/diff-shapes.ts:23-59 | `[[0], undefined]` against `[0, 0]` is false, without a TypeError: the hole is compared as `undefined`. |
| DiffShapesExamples.HoleReadsAsUndefined | src/diff-shapes.ts:141-180 | `{a: [[[1]], [5, 6]]}` shapes to `{a: [[[0], undefined], [0, 0]]}`, which serialises as `{"a":[[[0],null],[0,0]]}`. |
| DiffShapesExamples.TwoNestedArraysShape | src/diff-shapes.ts:155-180 | `[[1], [2]]` shapes to `[[0], [0], undefined]`: the two sets go to indices 1 and 2 and index 0 is a hole. |
| DiffShapesExamples.ReshapingIsNotIdempotent | src/diff-shapes.ts:155-180 | `[[0], [0], null]`, the serialised shape above, shapes to `[[0], null]`: both sets go to index 0 and null is pushed after them. |
| InterfaceDetector.JoinPath | src/InterfaceDetector.ts:79-80 | A joined path is the directory, one separator and the file name. |
| InterfaceDetector.NameOf | src/InterfaceDetector.ts:117 | `file.split('.')[0]` is the prefix of the file name up to, and not including, its first dot. |
| InterfaceDetector.Process | src/InterfaceDetector.ts:67-101 | `sampled` grows by 1 iff `!old \|\| resetStats`. Keys and files only grow. A returned key was unknown and is the one key added. Without a returned key, keys and files are unchanged. |
| InterfaceDetector.Shortest | src/InterfaceDetector.ts:81-84 | After a new shape the shortest length is set and no longer than it. A set non-zero length never grows. The path changes only to the new shape's path, together with the length. |
| InterfaceDetector.NewShape | src/InterfaceDetector.ts:77-98 | A new key is added. Its shape file gets the serialised shape, and its raw file the raw contents when given. `found` grows by 1 iff the call counts. No other path is added or changed. |
| InterfaceDetector.LoadStats | src/InterfaceDetector.ts:31-44 | A record read from disk replaces every field. A failed read changes none. |
| InterfaceDetector.ReplayFile | src/InterfaceDetector.ts:116-123 | A listed file that is missing fails with ENOENT and changes nothing. A replay that does not fail had a readable, parsable file. Keys only grow. After a successful load the counters do not move. |
| InterfaceDetector.Replay | src/InterfaceDetector.ts:116-124 | Over the rest of the listing, keys only grow, and after a successful load the counters do not move. |
| InterfaceDetector.LoadAndReplay | src/InterfaceDetector.ts:112-125 | Keys only grow. After a successful load the counters end as loaded. |
| InterfaceDetector.Stats.constructor | src/InterfaceDetector.ts:17-20 | The counters start at 0, the shortest shape and its path are unset, and the save path is kept. |
| InterfaceDetector.Stats.Load | src/InterfaceDetector.ts:31-44 | `load()` reports success exactly when the stored record could be read. It then takes the stored fields, and otherwise changes nothing. |
| InterfaceDetector.FileStore.Write | src/InterfaceDetector.ts:90-94 | A write sets one path's contents and leaves every other path alone. |
| InterfaceDetector.FileStore.Remove | src/InterfaceDetector.ts:121-122 | `rm` deletes the path. Without `force`, a missing path is an error. |
| InterfaceDetector.Detector.constructor | src/InterfaceDetector.ts:49-59 | The detector starts with no known keys and keeps its directories, statistics and store. |
| InterfaceDetector.Detector.ProcessMessage | src/InterfaceDetector.ts:67-101 | The method returns what `Process` says and leaves statistics, key set and files exactly as `Process` says. |
| InterfaceDetector.Detector.RecordNewShape | src/InterfaceDetector.ts:77-98 | For a new key, the method adds the key, moves the shortest-shape pointer, and writes the shape file and, when given, the raw file. It counts the shape as found. |
| InterfaceDetector.Detector.ReplayOne | src/InterfaceDetector.ts:116-123 | One listed file is read, parsed, replayed and possibly deleted, exactly as `ReplayFile` says. |
| InterfaceDetector.Detector.Discard | src/InterfaceDetector.ts:121-122 | A replayed file and its raw file are deleted, and the first `rm` cannot throw. |
| InterfaceDetector.Detector.LoadExisting | src/InterfaceDetector.ts:112-125 | Loading and the replay loop end, and leave the state, exactly as `LoadAndReplay` says. |
| InterfaceDetectorProperties.ProcessCounters | src/InterfaceDetector.ts:71-97 | `sampled` grows by 1 iff `!old \|\| resetStats`, even if shaping throws. `found` grows by 1 iff the key is new under the same condition. So `found <= sampled` is kept. |
| InterfaceDetectorProperties.ProcessKeys | src/InterfaceDetector.ts:77-100 | The call throws iff shaping throws. It returns a key iff the message's key was unknown, and that key is added. The key set never shrinks. |
| InterfaceDetectorProperties.ProcessKnownKey | src/InterfaceDetector.ts:77-100 | With no new key, nothing but `sampled` changes: keys, `found`, shortest shape and files stay. |
| InterfaceDetectorProperties.ProcessFiles | src/InterfaceDetector.ts:90-94 | A new key's shape file gets the serialised shape, even on replay. The raw file gets the sorted message iff the message is live. No other file changes. |
| InterfaceDetectorProperties.ProcessShortest | src/InterfaceDetector.ts:81-84 | After a new key the shortest shape is set and no longer than that shape. Once set to a non-zero length it never grows. Its path changes only with it, to the new shape file. |
| InterfaceDetectorProperties.SameMessageTwice | src/InterfaceDetector.ts:67-101 | A live message processed twice returns its key and then `undefined`. `sampled` grows by 2 and `found` by 1. |
| InterfaceDetectorProperties.ReplayFileCounters | src/InterfaceDetector.ts:115-120 | A replayed file is counted only when the load failed. Keys only grow, and `found <= sampled` is kept. |
| InterfaceDetectorProperties.ReplayCounters | src/InterfaceDetector.ts:116-124 | Over the listing, when the load failed, `found` grows by the number of new keys, and `sampled` grows by one per file when no replay throws. When the load succeeded, neither changes. Keys only grow, and `found <= sampled` is kept. |
| InterfaceDetectorProperties.LoadExistingCounters | src/InterfaceDetector.ts:112-125 | After a successful load the counters are the loaded ones. After a failed load every file is sampled and every distinct shape found, and `found <= sampled` holds whenever it held before. |
| InterfaceDetectorProperties.ReplayFileDeletion | src/InterfaceDetector.ts:117-123 | A file whose replay does not throw is deleted, with its raw file, exactly when the call does not return the file's own name. Otherwise the state is what `processMessage` left. |
| InterfaceDetectorProperties.NameOfFileName | src/InterfaceDetector.ts:79 | The name before the first dot of `key.json` is the key, for a key without dots. |
| InterfaceDetectorProperties.ReplayFileFiles | src/InterfaceDetector.ts:116-123 | Replaying one file adds no file except shape files of known keys. When it does not fail, every listed file still in the shape directory, this one included, is named after a known key. |
| InterfaceDetectorProperties.ReplayFiles | src/InterfaceDetector.ts:116-124 | The same, over the rest of the listing: only shape files of known keys are added, and every surviving listed file is named after a known key. |
| InterfaceDetectorProperties.LoadExistingFiles | src/InterfaceDetector.ts:112-125 | Start-up adds no file except shape files of known keys; in particular no raw file is written. When it does not fail, every listed shape file still on disk is named after a key the detector knows. |

## Left out

- Parameters rather than code:
  - md5 (`crypto`) and `JSON.stringify(_, null, 2)` are deterministic function parameters of the detector; they are not reimplemented.
  - `JSON.parse` is a function from text to an optional value.
  - The statistics file is an optional record given to `Stats.Load`.
  - The directory listing is a sequence of file names given to `LoadExisting`.
- I/O is modelled as state:
  - The file system is one map from path to contents.
  - Atomic writes, `write-file-atomic`, `mkdir` and `readFile` as I/O are not modelled.
  - Console logging and the `async`/`await` scheduling are not modelled; each call runs to completion in order.
- Not part of this model:
  - `watchMessages`, `run`, `onShutdown` and `writeInterfaces` (WebSocket wiring, the shutdown flush and the external `json-to-ts` generator);
  - `main`, `Stats.save`, and `src/SigIntManager.ts` (signal handling and `process.exit`).
- The value domain:
  - Numbers are unbounded integers; fractions, NaN, infinities and exponent notation in `String(n)` are left out.
  - bigint, symbol and function values cannot occur in JSON and are not modelled; `DetectElementType` still covers their `typeof` results.
  - `undefined` is a value of the model because a hole in a shape reads as `undefined`. A parsed message never holds it. `deepShape(undefined)` throws, since `Object.keys(undefined)` does.
  - The null representative never arises for a JSON value, so no field is omitted for that reason.
  - Strings are sequences of `char`; the code-unit order of `sort()` is the order of those characters.
  - An object's keys are distinct, as in JavaScript; `CompareReflexive` requires this of nested objects too.
  - Property names "length" and "__proto__" get no special treatment: an assignment `shape["length"] = …` on an array, or a field named "__proto__", is not modelled.
- The engine:
  - `loadExisting` stops at the first error, which is returned as a failure value rather than a rejected promise.
  - The second `rm` (with `force`) cannot fail; the first cannot fail either, as `Detector.Discard` proves.
  - `JoinPath` uses "/" as `path.sep`.
- InterfaceDetectorProperties.ProcessFiles: when the shape and raw directories coincide and the message is live, the raw write at line 93 overwrites the shape file at the same path. The contract states the shape file's contents only when the two paths differ or the message is replayed.
- InterfaceDetectorProperties.ProcessShortest: a stored `shortestShape` of 0 counts as unset (`!0` is true in line 81), so "never grows" is stated only for a non-zero value.
- InterfaceDetectorProperties.ReplayFileFiles, ReplayFiles and LoadExistingFiles assume that a key contains no dot, which holds for md5 hex digests.
- LoadExistingFiles: a file deleted by its own replay can be written again by a later replay whose shape hashes to that file's name. So the contract does not say a deleted file stays deleted. It says only that every listed file still on disk is named after a known key.
- Process, Detector.RecordNewShape: `writeObjectFile` is assumed to succeed. In the source a failed write rejects after the key is added and the shortest shape is updated, and before `found` is counted. That would leave a known key with no shape file; the model does not capture this.
