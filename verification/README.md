# A verified model of the data recorder's hard core

The project models four parts of the repository and proves what they are for.

* **JSON engine** (the vendored nlohmann/json 3.12.0): reference-token escaping, JSON Pointer (RFC 6901),
  `patch_inplace` and `diff` (RFC 6902), `merge_patch` (RFC 7396), `flatten`/`unflatten`, the comparison
  operators, and the explicit-stack `destroy`.
* **Frame pipeline** of the object detector: `runLoop` and `inferenceLoop` exchange frame buffers through a free
  queue and an inference queue, as a labelled step system over all interleavings.
* **Shared-memory slot ring** through which frames travel, with copies that interleave byte by byte; and ring and
  pipeline composed, from publication to inference.
* **Image code**: the separable convolution reference and the clipped row-wise blit.

JSON values are a recursive datatype whose objects are maps; iteration in `std::map` order is `Text.SortedKeys`.
Exceptions are values of `Wrappers.Error` that carry nlohmann's error numbers. Whether `JSON_ASSERT` is compiled in
is the arbitrary constant `JsonPatch.ASSERTIONS`, so that the proofs cover both builds. A document that the source
modifies in place is the class `JsonPatch.Document`; the detector's queues, the two ends of the ring and the
framebuffer's owner are classes too; convolution and blit write arrays. Every such method is proved against a
function, and the properties are lemmas about that function.

| module | models |
|---|---|
| `Wrappers`, `Text`, `Rounding` | results and errors; string order, sorted listings and decimal numerals; rounding to limited precision and that it is to nearest |
| `StringEscape`, `JsonPointer`, `JsonValue`, `JsonAccess` | escaping, pointers, values and `==`, resolving a pointer |
| `JsonEquality` | what `==` means, pointer by pointer |
| `JsonPatch`, `PatchEffects` | applying patches and their locality; the effect and the exceptions of each operation, pointer by pointer |
| `JsonDiff`, `DiffMinimal` | computing patches, and exactly which operations a diff has |
| `JsonMergePatch` | merge patches |
| `JsonFlatten`, `FlattenRoundTrip`, `UnflattenEffects` | `flatten` and `unflatten`, exactly which documents survive both, and `unflatten` on any input |
| `JsonOrder`, `OrderMeaning`, `SharedDouble` | `operator<` and its laws, what it compares, and integers that share a floating-point value |
| `JsonDestroy` | taking a value apart without recursion |
| `SharedRing`, `FramePipeline`, `PipelineStops`, `EndToEnd` | the slot ring, the two threads of the detector, how they end, and all three together |
| `RowMajor`, `SeparableConvolution`, `ConvolutionMeaning`, `RenderBlit` | row-major index arithmetic and the image code |

## What the proofs found

* `unflatten(flatten(j)) == j` does not hold for all documents without empty containers: `{"0": null}` comes back
  as `[null]`. It holds exactly for documents without empty containers in which every object with a member `0`
  also has a member whose entries sort before those of `0` (`FlattenRoundTrip.RoundTripExact`).
* The object detector ignores the result of `receiveSharedMemData`. What inference reads is the bytes copied for the
  message, followed by the tail of what the buffer held before: for a recycled buffer the frame that inference read
  for an earlier message, for a new one whatever the allocation left (`FramePipeline.InferredBytes`). Every frame
  that begins with the copied bytes can be read in some run (`FramePipeline.ReadableBytes`), so the message decides
  what is read if and only if its slot exists and is at least as large as the frame, or the frame is empty
  (`FramePipeline.ReadIsDetermined`). With one slot of one byte, a first message that copies the byte 7 and a second
  one for a slot that does not exist are both inferred as 7 (`FramePipeline.StaleFrame`).
* `operator<` is not transitive with `==` once an unsigned number of 2^63 or more meets a signed one: 1 < 2^64 - 1
  == -1 < 1 (`JsonOrder.LargeUnsignedCycle`). Without floating-point and binary values, a document obeys the laws of
  a strict total order among the documents without such numbers if and only if it has none itself
  (`JsonOrder.OrderableExact`). Floating-point numbers make `==` intransitive: an integer is equal to one that another
  integer is equal to, unless it is below 2^53, or below 2^54 and twice an odd number, in magnitude
  (`JsonOrder.FloatExact`, `JsonOrder.FloatBreaksLaws`). Binary values are neither equal nor ordered if and only if
  they differ in their subtype only (`JsonOrder.SubtypeExact`, `JsonOrder.SubtypeBreaksLaws`).
* A diff never touches a place where the two documents have equal values, and replaces a value only where both have
  one and it cannot be changed from inside (`DiffMinimal.DiffExact`, `DiffMinimal.DiffTouchesNoEqual`).
* After the detector is told to stop, at most one more message is received and at most one more frame is taken up by
  inference. Each thread has at most 8 and 3 steps left, besides the bytes of one frame, and is never blocked
  (`PipelineStops.OneMoreAtMost`, `PipelineStops.FewStepsLeft`, `PipelineStops.NotBlocked`).
* A failing operation changes the document if and only if it is a `move` whose source resolves below the root: the
  source is lost (`JsonPatch.FailedOperation`, `JsonPatch.LostSource`).
* `remove` below a primitive value does nothing and reports nothing, against section 4.2 of RFC 6902. It succeeds if
  and only if its target resolves or the parent is primitive (`JsonPatch.RemoveExact`, `JsonPatch.RemoveNothing`).
* `remove` undoes a successful `add` if and only if the parent was an object without that member, an array and the
  token was not `-`, or, without assertions, a primitive value other than null (`JsonPatch.RemoveUndoesAdd`).
* `contains` can throw: exactly where some prefix of the pointer resolves to an array and the next token is empty or a
  numeral of 2^64 - 1 or more (`JsonAccess.ContainsExact`, `JsonAccess.EmptyIndexThrows`).
* `blitBuffer` copies nothing at all where an extent turns negative in the cast to `int`, in particular where position
  and extent wrap around and the extent is therefore not clipped. A call does what is specified for every content of
  both buffers if and only if its position is outside the source, no extent is lost in that way, or no pixel of the
  framebuffer should be copied (`RenderBlit.BlitExact`). With a source of 2 x 1 pixels, position 1 and the largest
  number as width, the one pixel that should be copied is not (`RenderBlit.LostPixel`).
* A copy out of the shared memory that is overtaken by the publication one round later makes inference read that
  one's frame; one that ends just before still has its own read, for every number of slots and every frame size
  (`EndToEnd.OvertakenIsInferred`, `EndToEnd.TimelyIsInferred`).

## Model

| member | source | states |
|---|---|---|
| StringEscape.ReplaceSubstring | 3rdparty/nlohmann/detail/string_escape.hpp:31-40 | the find/replace loop terminates and replaces all occurrences, left to right without overlaps, also when the replacement contains the pattern |
| StringEscape.EscapeInPlace | 3rdparty/nlohmann/detail/string_escape.hpp:50-55 | the two replacements in order compute `Escape` |
| StringEscape.UnescapeInPlace | 3rdparty/nlohmann/detail/string_escape.hpp:65-69 | the two replacements in order compute `Unescape` |
| StringEscape.EscapeIsEscapeEach | 3rdparty/nlohmann/detail/string_escape.hpp:42-55 | the two-pass escape is one pass over the characters |
| StringEscape.UnescapeIsDecode | 3rdparty/nlohmann/detail/string_escape.hpp:57-69 | the two-pass unescape is the single left-to-right decoder on every token with well-formed escapes |
| StringEscape.UnescapeEscape | 3rdparty/nlohmann/detail/string_escape.hpp:50-69 | unescape undoes escape on every string, and an escaped token has no slash |
| StringEscape.EscapeUnescape | 3rdparty/nlohmann/detail/string_escape.hpp:50-69 | escape undoes unescape if and only if the token has well-formed escapes and no slash |
| StringEscape.EscapeExact | 3rdparty/nlohmann/detail/string_escape.hpp:42-55 | a tilde becomes `~0`, a slash `~1`, every other character stays, and characters are escaped independently |
| JsonPointer.ToStringAppend | 3rdparty/nlohmann/detail/json_pointer.hpp:68-76 | printing is a homomorphism: the text of two token lists in a row is the two texts in a row |
| JsonPointer.CheckEscapes | 3rdparty/nlohmann/detail/json_pointer.hpp:702-716 | the loop over the tildes of a token accepts exactly well-formed escapes |
| JsonPointer.SplitLoop | 3rdparty/nlohmann/detail/json_pointer.hpp:666-724 | the loop over slashes computes `Split`, with errors 107 and 108 |
| JsonPointer.SplitAppend | 3rdparty/nlohmann/detail/json_pointer.hpp:666-724 | a printed pointer before more pointer text parses to its tokens followed by what the rest parses to, failing as the rest fails |
| JsonPointer.SplitToString | 3rdparty/nlohmann/detail/json_pointer.hpp:68-76 | parsing undoes printing on every token list, empty tokens included |
| JsonPointer.ToStringSplit | 3rdparty/nlohmann/detail/json_pointer.hpp:666-724 | printing undoes parsing on every accepted string |
| JsonPointer.SplitAcceptsGrammar | 3rdparty/nlohmann/detail/json_pointer.hpp:666-724 | exactly the strings of the grammar in section 3 of RFC 6901 are accepted, and which error the others give |
| JsonPointer.ArrayIndexExact | 3rdparty/nlohmann/detail/json_pointer.hpp:214-249 | exactly the canonical decimals below the maximum of `size_type` are indices, and the result denotes the token |
| JsonPointer.IndexErrors | 3rdparty/nlohmann/detail/json_pointer.hpp:214-249 | which of the errors 106, 109, 410 and 404 every other token gives |
| JsonPointer.ArrayIndexDecimal | 3rdparty/nlohmann/detail/json_pointer.hpp:214-249 | reading an index inverts printing it, below that maximum and nowhere above |
| Text.SortedListingUnique | 3rdparty/nlohmann/json.hpp:5098-5133 | the iteration order of an object is determined by its keys |
| Text.DecimalOfValue | 3rdparty/nlohmann/detail/json_pointer.hpp:751-754 | a canonical numeral is the printed form of its value |
| JsonAccess.GetCheckedLoop | 3rdparty/nlohmann/detail/json_pointer.hpp:529-571 | the cursor loop resolves a pointer as the recursive function does, with errors 401 to 404 and those of indices |
| JsonAccess.ContainsLoop | 3rdparty/nlohmann/detail/json_pointer.hpp:578-655 | the loop of `contains` computes `Contains` |
| JsonAccess.ContainsExact | 3rdparty/nlohmann/detail/json_pointer.hpp:529-655 | `contains` answers true exactly when `get_checked` succeeds; it throws exactly when some prefix resolves to an array and the next token is empty or too large a numeral, and there `get_checked` throws the same |
| JsonAccess.EmptyIndexThrows | 3rdparty/nlohmann/detail/json_pointer.hpp:600-630 | the smallest question answered with an exception: an empty token for an empty array |
| JsonAccess.SetAtLaws | 3rdparty/nlohmann/json.hpp:4943-4948 | assigning through `at` and reading back: get-put, put-get and put-put |
| JsonAccess.GetAppend | 3rdparty/nlohmann/detail/json_pointer.hpp:529-571 | resolving two pointers in a row is resolving their concatenation, errors included |
| JsonAccess.SetAppend | 3rdparty/nlohmann/json.hpp:4943-4948 | assigning below a subtree is assigning in the subtree and putting that back |
| JsonEquality.EqualIsSame | 3rdparty/nlohmann/json.hpp:3608-3677 | on documents without integers `==` is identity, floating-point numbers included |
| JsonEquality.EqualExact | 3rdparty/nlohmann/json.hpp:3608-3677 | two documents are `==` if and only if the same pointers resolve in both, to containers of one type or to primitive values that are the same up to conversion of a number |
| JsonEquality.DoubleIsNearest | 3rdparty/nlohmann/json.hpp:3648-3663 | an integer is converted to a nearest number of 53 bits, of two nearest ones to the even one |
| Rounding.RoundIsNearest | 3rdparty/nlohmann/json.hpp:3648-3663 | for any precision: the rounded number has it, no other number with it is nearer, and a tie goes to the one that needs a bit less |
| JsonPatch.Document.AddAt | 3rdparty/nlohmann/json.hpp:4784-4849 | the document and the exception are those of `OperationAdd`, in builds with and without assertions; a failing add changes nothing |
| JsonPatch.Document.RemoveAt | 3rdparty/nlohmann/json.hpp:4852-4878 | the document and the exception are those of `OperationRemove` |
| JsonPatch.Document.ApplyInPlace | 3rdparty/nlohmann/json.hpp:4929-5012 | each of the six operations leaves the document and throws as `Apply` says |
| JsonPatch.Document.PatchInPlace | 3rdparty/nlohmann/json.hpp:4747-5014 | the loop leaves the document and throws as the recursive run of the patch does |
| JsonPatch.Document.PatchedCopy | 3rdparty/nlohmann/json.hpp:5018-5023 | the same on a copy: the receiver stays as it is |
| JsonPatch.RunAppend | 3rdparty/nlohmann/json.hpp:4887-5013 | running two lists of operations is running one after the other, stopping at the first exception |
| JsonPatch.FailedOperation | 3rdparty/nlohmann/json.hpp:4929-5012 | a failing operation changes the document if and only if it is a move whose source resolves below the root, and then the source was removed |
| JsonPatch.LostSource | 3rdparty/nlohmann/json.hpp:4950-4965 | the smallest document that loses a value to a failing move |
| JsonPatch.FailedRun | 3rdparty/nlohmann/json.hpp:4887-5013 | a failing patch has applied the operations before the failing one, which then threw and left the document as it does on its own |
| JsonPatch.RemoveUndoesAdd | 3rdparty/nlohmann/json.hpp:4784-4878 | after a successful add, remove restores the document if and only if the parent was an object without the member, an array with another token than `-`, or a primitive value other than null |
| JsonPatch.RemoveExact | 3rdparty/nlohmann/json.hpp:4852-4878 | remove succeeds if and only if its target resolves or the parent resolves to a primitive value, and does nothing exactly in the latter case |
| JsonPatch.RemoveNothing | 3rdparty/nlohmann/json.hpp:4852-4878 | a document and a target that does not exist for which remove reports success |
| JsonPatch.TopLookupRedundant | 3rdparty/nlohmann/json.hpp:4793-4804 | the separate look-up of the top token never changes what add does or throws |
| JsonPatch.ParseEncoded | 3rdparty/nlohmann/json.hpp:4887-5012 | reading a written operation back gives the operation, behind any path |
| JsonPatch.RunEncoded | 3rdparty/nlohmann/json.hpp:4747-5014 | a patch document written from operations runs as those operations |
| JsonPatch.AddLocal | 3rdparty/nlohmann/json.hpp:4784-4849 | add below p does to the document what it does to the subtree at p, and throws the same |
| JsonPatch.RemoveLocal | 3rdparty/nlohmann/json.hpp:4852-4878 | the same for remove |
| JsonPatch.ApplyLocal | 3rdparty/nlohmann/json.hpp:4929-5012 | the same for all six operations |
| JsonPatch.RunLocal | 3rdparty/nlohmann/json.hpp:4747-5014 | the same for every sequence of operations that adds and removes strictly below p |
| JsonPatch.PatchLocal | 3rdparty/nlohmann/json.hpp:4747-5014 | the same for patch documents: prefixing the pointer texts moves the patch into the subtree, exceptions included |
| JsonPatch.GraftElsewhere | 3rdparty/nlohmann/json.hpp:4943-4948 | pointers that leave the path to p resolve as before |
| PatchEffects.AppliedHasEffect | 3rdparty/nlohmann/json.hpp:4784-5012 | an operation that succeeds has exactly its effect: the value added, removed, replaced, moved or copied, array elements behind it shifted by one, and every pointer beside the path as before; a test changes nothing and its target is `==` to the value |
| PatchEffects.AddedIsFound | 3rdparty/nlohmann/json.hpp:4784-4849 | an added value is found where it was added, at the former length of the array for the token `-` |
| PatchEffects.CopiedIsFound | 3rdparty/nlohmann/json.hpp:4967-4979 | after a copy the target resolves to what the source resolved to |
| PatchEffects.MovedIsFound | 3rdparty/nlohmann/json.hpp:4950-4965 | after a move the target resolves to what the source resolved to, the source being removed first |
| PatchEffects.AddExact | 3rdparty/nlohmann/json.hpp:4784-4849 | add succeeds if and only if it is at the root or the parent is null, an object, an array that has the position or ends there, or, without assertions, another primitive value |
| PatchEffects.TestExact | 3rdparty/nlohmann/json.hpp:4981-5001 | a test succeeds if and only if its target resolves to a value `==` to the given one, changes nothing, and else throws 501 |
| PatchEffects.TestGuards | 3rdparty/nlohmann/json.hpp:4887-5013 | a patch that begins with a test runs the rest if and only if the test holds, and else leaves the document as it is |
| PatchEffects.FailsForReason | 3rdparty/nlohmann/json.hpp:4784-5012 | the exception of every failing operation, with its number, from the value and the token that cause it |
| PatchEffects.GetFails | 3rdparty/nlohmann/detail/json_pointer.hpp:529-571 | where a pointer does not resolve, some prefix does, and the exception is that of its value for the next token |
| PatchEffects.ValueElements | 3rdparty/nlohmann/json.hpp:4750-4781 | the elements written with the names add, replace, test and remove are those operations |
| PatchEffects.SourceElements | 3rdparty/nlohmann/json.hpp:4750-4781 | so are those with the names move and copy, with source and target in their places |
| PatchEffects.ElementErrors | 3rdparty/nlohmann/json.hpp:4887-4927 | which elements are no operation, and whether 104, 105 or the error of a pointer text is thrown |
| JsonDiff.Diff | 3rdparty/nlohmann/json.hpp:5028-5158 | the recursive method returns the patch document of `DiffOps`, with all paths printed behind its argument |
| JsonDiff.DiffCommonElems | 3rdparty/nlohmann/json.hpp:5054-5062 | the pass over common positions emits the operations of the children, lifted to their index |
| JsonDiff.RemoveOwnRest | 3rdparty/nlohmann/json.hpp:5067-5079 | the pass over the source's rest emits removals from the back |
| JsonDiff.AddOtherRest | 3rdparty/nlohmann/json.hpp:5081-5091 | the pass over the target's rest emits appends in order |
| JsonDiff.DiffOwnMembers | 3rdparty/nlohmann/json.hpp:5098-5118 | the pass over the source's members emits their changes and removals in the order of the keys |
| JsonDiff.AddOtherMembers | 3rdparty/nlohmann/json.hpp:5120-5133 | the pass over the target's members emits the additions |
| JsonDiff.DiffRuns | 3rdparty/nlohmann/json.hpp:5028-5158 | the operations of a diff run on the source without an exception and reach a value equal to the target |
| JsonDiff.DiffPatchRoundTrip | 3rdparty/nlohmann/json.hpp:5028-5158 | patching any source with `diff(source, target)`, as a patch document, never throws and yields a value `==` to the target, at every depth and for all member names |
| JsonDiff.DiffThenPatch | 3rdparty/nlohmann/json.hpp:5018-5158 | the same law for the methods |
| JsonDiff.EmptyDiff | 3rdparty/nlohmann/json.hpp:5034-5038 | a diff is empty exactly for equal values |
| DiffMinimal.DiffExact | 3rdparty/nlohmann/json.hpp:5028-5158 | a diff has an operation if and only if the documents call for it: a replacement where both resolve to values that differ in type or are unequal primitive values, a removal of what only the source has, an addition of what only the target has, each below containers of one type in both |
| DiffMinimal.DiffTouchesNoEqual | 3rdparty/nlohmann/json.hpp:5034-5038 | no operation lies at or below a pointer that resolves to equal values in both documents |
| DiffMinimal.DiffEdits | 3rdparty/nlohmann/json.hpp:5028-5158 | a diff only replaces, removes and adds |
| DiffMinimal.DiffOnce | 3rdparty/nlohmann/json.hpp:5028-5158 | no two operations have the same path, except values appended to one array |
| JsonMergePatch.MergePatch | 3rdparty/nlohmann/json.hpp:5170-5194 | the in-place recursion leaves the value of `Merged`, the function of section 2 of RFC 7396 stated member by member |
| JsonMergePatch.AnyOrderMerges | 3rdparty/nlohmann/json.hpp:5178-5188 | visiting the patch's members in any order gives that same value |
| JsonMergePatch.MergeIdempotent | 3rdparty/nlohmann/json.hpp:5170-5194 | applying a merge patch twice is applying it once |
| JsonMergePatch.MergeKeepsUnnamed | 3rdparty/nlohmann/json.hpp:5170-5194 | what the patch does not name is unchanged at every depth |
| JsonMergePatch.MergeSetsNamed | 3rdparty/nlohmann/json.hpp:5170-5194 | what it names is absent for null, the given value for other non-objects, and an object for objects |
| JsonMergePatch.MergeRoot | 3rdparty/nlohmann/json.hpp:5170-5194 | a patch that is no object, null included, replaces the target; an object patch makes an empty object of a target that is none |
| JsonMergePatch.MergeBelow | 3rdparty/nlohmann/json.hpp:5178-5188 | at every path what the patch has there, unless null, is merged into what the target had there or into null |
| JsonFlatten.FlattenDocument | 3rdparty/nlohmann/detail/json_pointer.hpp:735-793 | the recursion fills exactly the map from leaf pointers to leaf values |
| JsonFlatten.FlattenInto | 3rdparty/nlohmann/detail/json_pointer.hpp:735-793 | below any reference string it adds exactly the entries of the value's leaves to the result |
| JsonFlatten.FlattenEntries | 3rdparty/nlohmann/detail/json_pointer.hpp:735-793 | one entry for every pointer that resolves to a primitive value or an empty container, with its value or null, and no other entry |
| JsonFlatten.FlattenValues | 3rdparty/nlohmann/detail/json_pointer.hpp:735-793 | pointer by pointer: the entry of a primitive value is the value, that of an empty array or object is null, and nothing else has an entry |
| JsonFlatten.UnflattenLoop | 3rdparty/nlohmann/detail/json_pointer.hpp:807-832 | the loop over the members in key order computes `Unflatten`, with errors 313 to 315 |
| UnflattenEffects.AssignExact | 3rdparty/nlohmann/detail/json_pointer.hpp:274-332 | `get_and_create` throws if and only if some prefix resolves to a primitive value other than null, or to an array for which the next token is no index; and with which error |
| UnflattenEffects.AssignedIsFound | 3rdparty/nlohmann/detail/json_pointer.hpp:274-332 | what is assigned to the reference is found at the pointer |
| UnflattenEffects.AssignKeepsOthers | 3rdparty/nlohmann/detail/json_pointer.hpp:274-332 | pointers that leave the path resolve as before |
| UnflattenEffects.AssignAddsNothing | 3rdparty/nlohmann/detail/json_pointer.hpp:274-332 | beside the path only nulls appear |
| UnflattenEffects.UnflattenExact | 3rdparty/nlohmann/detail/json_pointer.hpp:807-832 | for every accepted object, not only flattened ones: the primitive values other than null in the result are exactly the entries, each at the pointer that is its name |
| UnflattenEffects.UnflattenAccepts | 3rdparty/nlohmann/detail/json_pointer.hpp:807-832 | only objects of primitive values under pointer texts are accepted; other types throw 314 |
| UnflattenEffects.UnflattenFails | 3rdparty/nlohmann/detail/json_pointer.hpp:807-832 | an object is rejected at an entry, after the entries before it were assigned, with 315 for a container, the error of the text if it is no pointer, and else that of `get_and_create` |
| FlattenRoundTrip.PartialStep | 3rdparty/nlohmann/detail/json_pointer.hpp:274-332 | one round of `get_and_create` and assignment takes the document restricted to the visited leaves to the one with one more leaf, in whatever order indices arrive |
| FlattenRoundTrip.ZeroVersus | 3rdparty/nlohmann/detail/json_pointer.hpp:807-832 | when the entries below a member sort before those below a member named 0 |
| FlattenRoundTrip.IndexVersus | 3rdparty/nlohmann/detail/json_pointer.hpp:807-832 | the entries below index 0 of an array come before those of all other indices |
| FlattenRoundTrip.UnflattenFlatten | 3rdparty/nlohmann/detail/json_pointer.hpp:735-832 | on zero-safe documents the round trip restores everything but empty containers, which become null |
| FlattenRoundTrip.RoundTripRestores | 3rdparty/nlohmann/detail/json_pointer.hpp:735-832 | pointer by pointer on those documents: the same primitive value, null for an empty container, a container of the same type for another, and nothing where nothing was |
| FlattenRoundTrip.UnflattenFlattenUnsafe | 3rdparty/nlohmann/detail/json_pointer.hpp:274-332 | on all others it throws or leaves an array in the place of an object |
| FlattenRoundTrip.RoundTripExact | 3rdparty/nlohmann/detail/json_pointer.hpp:735-832 | the round trip yields an equal document if and only if there is no empty container and every object with a member 0 has a member that sorts before it |
| FlattenRoundTrip.NoZeroIsSafe | 3rdparty/nlohmann/detail/json_pointer.hpp:735-832 | a document without a member named 0 meets that condition |
| FlattenRoundTrip.SingleZeroMember | 3rdparty/nlohmann/detail/json_pointer.hpp:284-297 | the smallest failing input and what it becomes |
| FlattenRoundTrip.FlattenThenUnflatten | 3rdparty/nlohmann/detail/json_pointer.hpp:735-832 | the exact law for the methods |
| JsonOrder.LessIsCmp | 3rdparty/nlohmann/json.hpp:3608-3677 | on documents without floating-point, binary and large unsigned values the lexicographic recursion of `operator<` is the sign of a three-way comparison |
| JsonOrder.EqualIsCmp | 3rdparty/nlohmann/json.hpp:3608-3677 | on the same documents `operator==` is that comparison's zero |
| JsonOrder.LessByRank | 3rdparty/nlohmann/detail/value_t.hpp:83-104 | for all documents: values of different rank are ordered by `operator<` as the type-order table ranks them, and never equal |
| OrderMeaning.LessByKind | 3rdparty/nlohmann/detail/value_t.hpp:83-104 | type by type: null < boolean < number < object < array < string < binary |
| OrderMeaning.LessNumbers | 3rdparty/nlohmann/json.hpp:3608-3677 | numbers of one type, and integers with floating-point numbers, are ordered as the numbers meant; false is below true |
| OrderMeaning.LessMixed | 3rdparty/nlohmann/json.hpp:3664-3671 | an unsigned number meets a signed one as the signed number that is the same modulo 2^64 |
| OrderMeaning.LessTexts | 3rdparty/nlohmann/json.hpp:3608-3677 | strings and binary values are ordered by their first difference, a beginning before what it begins |
| OrderMeaning.LessArrays | 3rdparty/nlohmann/json.hpp:3608-3677 | arrays are ordered by the first position at which one element is below the other, a beginning first |
| OrderMeaning.LessObjects | 3rdparty/nlohmann/json.hpp:3608-3677 | objects are ordered by the first difference of their members in key order: by key, then by value |
| JsonOrder.OrderTrichotomy | 3rdparty/nlohmann/json.hpp:3608-3677 | on those documents exactly one of x < y, x == y and y < x holds |
| JsonOrder.OrderTransitive | 3rdparty/nlohmann/json.hpp:3608-3677 | on those documents `<` is transitive, `==` is an equivalence, and equal values compare alike |
| JsonOrder.OrderableExact | 3rdparty/nlohmann/json.hpp:3608-3677 | without floating-point and binary values, the laws hold with a document among all orderable ones if and only if it has no unsigned number of 2^63 or more at any depth |
| JsonOrder.LargeUnsignedCycle | 3rdparty/nlohmann/json.hpp:3664-3671 | a concrete cycle through the cast of an unsigned number of 2^63 or more |
| JsonOrder.LargeUnsignedExact | 3rdparty/nlohmann/json.hpp:3664-3671 | such a cycle through an unsigned number exists if and only if it is 2^63 or more |
| JsonOrder.UnsignedOrderExact | 3rdparty/nlohmann/json.hpp:3664-3671 | an unsigned number is ordered numerically among all integers if and only if it is below 2^63 |
| JsonOrder.FloatExact | 3rdparty/nlohmann/json.hpp:3648-3663 | `==` with floating-point numbers tells an integer from all other integers if and only if it is below 2^53, or below 2^54 and twice an odd number, in magnitude |
| SharedDouble.SharesExact | 3rdparty/nlohmann/json.hpp:3648-3663 | the same of the conversion to binary64: no other value of the two integer types is converted to the same number |
| JsonOrder.FloatBreaksLaws | 3rdparty/nlohmann/json.hpp:3648-3663 | two integers equal to the same floating-point number, one below the other |
| JsonOrder.SubtypeExact | 3rdparty/nlohmann/json.hpp:3640-3641 | exactly one of <, == and > holds for two binary values if and only if they do not differ in their subtype only; else none does |
| JsonOrder.SubtypeBreaksLaws | 3rdparty/nlohmann/json.hpp:3640-3641 | two binary values that are neither equal nor ordered |
| JsonDestroy.MoveChildren | 3rdparty/nlohmann/json.hpp:574-587 | moving the children of a container appends them to the stack in order and leaves null in the place of each |
| JsonDestroy.PopItem | 3rdparty/nlohmann/json.hpp:589-615 | one round trades an item for its children; they are moved out, the container is cleared of the null shells left behind, and goes out of scope empty |
| JsonDestroy.Destroy | 3rdparty/nlohmann/json.hpp:569-616 | the loop terminates and pops every proper descendant exactly once (as many rounds as descendants), no item has children when it leaves scope, and the root keeps only null shells |
| JsonDestroy.DescendantsAreResolved | 3rdparty/nlohmann/json.hpp:569-616 | the popped values are exactly those that a non-empty pointer resolves to |
| SharedRing.SlotsDisjoint | midware/zeromq_ipc/sharedMemPublisher.cpp:70-74 | different slots, and different bytes of one slot, have different addresses |
| SharedRing.SharedMemPublisher.constructor | midware/zeromq_ipc/sharedMemPublisher.cpp:47-81 | the slot table starts every slot at its multiple of the slot size |
| SharedRing.SharedMemPublisher.GetFreeSlotIndex | midware/zeromq_ipc/sharedMemPublisher.cpp:101-107 | the n-th reservation gets slot n modulo the number of slots |
| SharedRing.SharedMemPublisher.PublishData | midware/zeromq_ipc/sharedMemPublisher.cpp:109-141 | rejected calls change nothing; accepted ones write the frame at the start of the slot, nothing else, and send the message |
| SharedRing.SharedMemSubscriber.constructor | midware/zeromq_ipc/sharedMemSubscriber.cpp:59-63 | the subscriber lays out the same slots |
| SharedRing.SharedMemSubscriber.ReceiveSharedMemData | midware/zeromq_ipc/sharedMemSubscriber.cpp:80-93 | -1 and no change for a bad slot; else the first bytes of the slot replace the first bytes of the buffer, at most a slot's size |
| SharedRing.PublishThenReceive | apps/data_recorder/obj_detector/objDetector.cpp:134-156 | without interleaving, what is published is what is received |
| SharedRing.NextSlot | midware/zeromq_ipc/sharedMemPublisher.cpp:105 | the stepwise index is the number of reservations modulo the slots |
| SharedRing.PublishedByBytes | midware/zeromq_ipc/sharedMemPublisher.cpp:135 | the byte steps of an uninterrupted publication write what the method writes at once |
| SharedRing.InvStep | midware/zeromq_ipc/sharedMemPublisher.cpp:101-141 | every step of either side keeps the ring invariant |
| SharedRing.RunInv | midware/zeromq_ipc/sharedMemPublisher.cpp:101-141 | the invariant holds in every state of every interleaving |
| SharedRing.FrameStaysIntact | midware/zeromq_ipc/sharedMemPublisher.cpp:101-141 | with m slots, the frame of reservation n stands in its slot until publication n + m begins |
| SharedRing.TimelyCopyIsExact | midware/zeromq_ipc/sharedMemSubscriber.cpp:80-93 | a copy that ends before then has exactly the published bytes |
| SharedRing.CopiesExact | midware/zeromq_ipc/sharedMemSubscriber.cpp:80-93 | in the log of any run only copies that outlived their slot differ from their frame |
| SharedRing.OvertakenCopy | midware/zeromq_ipc/sharedMemSubscriber.cpp:88-90 | the bound is sharp: for every ring, all frames and every reservation n there is a run in which an overtaken copy gets the bytes of publication n + m |
| SharedRing.LastTimelyCopy | midware/zeromq_ipc/sharedMemSubscriber.cpp:88-90 | and one in which a copy that ends after publication n + m - 1 gets its own |
| FramePipeline.OwnedIsExclusive | apps/data_recorder/obj_detector/objDetector.cpp:158-290 | one holder per live buffer means that no buffer is in two places |
| FramePipeline.SafeStep | apps/data_recorder/obj_detector/objDetector.cpp:158-290 | every step keeps ownership and all bounds, and none has undefined behaviour |
| FramePipeline.OrderedStep | apps/data_recorder/obj_detector/objDetector.cpp:158-290 | every step keeps the messages complete and in order |
| FramePipeline.FaithfulStep | apps/data_recorder/obj_detector/objDetector.cpp:158-290 | every step keeps the bytes of queued frames and of the frame under inference |
| FramePipeline.CheckSafe | apps/data_recorder/obj_detector/objDetector.cpp:241-262 | after the unlocked test either few enough buffers are live to allocate one, or the free queue is not empty |
| FramePipeline.BuffersAreExclusive | apps/data_recorder/obj_detector/objDetector.cpp:158-290 | in every interleaving each buffer is in at most one of the two queues and the two threads' hands, no access leaves a live buffer, and `front` never meets an empty free queue |
| FramePipeline.BuffersAreBounded | apps/data_recorder/obj_detector/objDetector.cpp:227-280 | at most 50 frames in each queue, at most 51 live buffers, at most 50 when one is about to be allocated |
| FramePipeline.BoundIsSharp | apps/data_recorder/obj_detector/objDetector.cpp:227-280 | for every frame size and every ring there is a run in which 51 buffers are live |
| FramePipeline.NoBufferLeaks | apps/data_recorder/obj_detector/objDetector.cpp:158-290 | every live buffer is in a queue or in a thread's hands |
| FramePipeline.BytesDuringInference | apps/data_recorder/obj_detector/objDetector.cpp:184-189 | while inference reads a frame its bytes are those queued for its message |
| FramePipeline.InferredBytes | apps/data_recorder/obj_detector/objDetector.cpp:241-264 | the bytes read are those copied for the message and then the tail of what the buffer held before, which for a recycled buffer is what inference read for an earlier message |
| FramePipeline.TracedStep | apps/data_recorder/obj_detector/objDetector.cpp:158-290 | every step keeps the origin of what free and recycled buffers hold |
| FramePipeline.StaleFrame | apps/data_recorder/obj_detector/objDetector.cpp:258-264 | for every setup, any two messages and any bytes, a run in which the second message is inferred with the tail of the first, or as the first if nothing is copied for it |
| FramePipeline.ReadableBytes | apps/data_recorder/obj_detector/objDetector.cpp:241-264 | what inference can read for a message, over all runs, is exactly the frames that begin with the bytes copied for it |
| FramePipeline.ReadIsDetermined | apps/data_recorder/obj_detector/objDetector.cpp:264 | the message decides what is read if and only if its slot exists and holds a whole frame, or frames are empty |
| FramePipeline.InferenceKeepsOrder | apps/data_recorder/obj_detector/objDetector.cpp:165-197 | frames are inferred in the order of reception, each at most once |
| FramePipeline.MessagesConserved | apps/data_recorder/obj_detector/objDetector.cpp:217-290 | received messages are, each exactly once, rejected, dropped, inferred, queued or in hand |
| PipelineStops.StopStays | apps/data_recorder/obj_detector/objDetector.cpp:158-290 | the stop flag is only ever set |
| PipelineStops.TopThenExit | apps/data_recorder/obj_detector/objDetector.cpp:165-217 | a thread at the top of its loop when the flag is set stays there or exits, and its next test exits |
| PipelineStops.ExitIsFinal | apps/data_recorder/obj_detector/objDetector.cpp:158-290 | a thread that has exited never moves again |
| PipelineStops.ExitNeedsStop | apps/data_recorder/obj_detector/objDetector.cpp:165-217 | a thread exits only if the flag was set |
| PipelineStops.OneMoreAtMost | apps/data_recorder/obj_detector/objDetector.cpp:165-220 | once the flag is set at most one more message is received, and none unless reception had begun; at most one more frame is taken up by inference, likewise |
| PipelineStops.FewStepsLeft | apps/data_recorder/obj_detector/objDetector.cpp:158-290 | once the flag is set `runLoop` takes at most 8 steps and `inferenceLoop` at most 3, besides one for each byte of a frame, in every interleaving |
| PipelineStops.NotBlocked | apps/data_recorder/obj_detector/objDetector.cpp:158-290 | in every reachable state a thread that has not exited has a step to take |
| FramePipeline.ObjDetector.DrainInference | apps/data_recorder/obj_detector/objDetector.cpp:227-235 | the loop keeps the newest 49 frames of a full queue and is the drain step |
| FramePipeline.ObjDetector.TakeFrame | apps/data_recorder/obj_detector/objDetector.cpp:258-262 | takes the oldest free buffer and leaves the others; safe without a test under the lock |
| FramePipeline.ObjDetector.PushInference | apps/data_recorder/obj_detector/objDetector.cpp:266-270 | the buffer is appended to the inference queue with its message; it is the push step |
| FramePipeline.ObjDetector.TrimFree | apps/data_recorder/obj_detector/objDetector.cpp:272-280 | the loop keeps the newest 49 buffers of a full queue and is the trim step |
| FramePipeline.ObjDetector.PopInference | apps/data_recorder/obj_detector/objDetector.cpp:167-174 | takes the oldest entry of the inference queue, or nothing if that is empty; it is the pop step |
| FramePipeline.ObjDetector.GiveBackFrame | apps/data_recorder/obj_detector/objDetector.cpp:191-196 | the buffer is appended to the free queue unless that has 50 |
| EndToEnd.InvStep | apps/data_recorder/obj_detector/objDetector.cpp:158-290 | every step of publisher, `runLoop` and `inferenceLoop` keeps both invariants and the link between slot, message and buffer |
| EndToEnd.NeverBlocked | apps/data_recorder/obj_detector/objDetector.cpp:258-264 | whenever `runLoop` can take a buffer, copy a byte or queue a frame, the ring's reader can move as well |
| EndToEnd.PublishedIsInferred | apps/data_recorder/obj_detector/objDetector.cpp:134-290 | what inference reads for a message is the frame published under its reservation n, if the copy out of the shared memory ended before publication n + m began, for m slots |
| EndToEnd.OvertakenIsInferred | apps/data_recorder/obj_detector/objDetector.cpp:134-290 | that bound is sharp: for every setup, all frames that fit and every n there is a run in which inference reads frame n + m for the message of n |
| EndToEnd.TimelyIsInferred | apps/data_recorder/obj_detector/objDetector.cpp:134-290 | and one in which the copy ends after publication n + m - 1 and inference reads frame n |
| SeparableConvolution.ConvolutionRow | 3rd_pkg_cases/cuda/convolutionSeparable/convolutionSeparable_gold.cpp:33-49 | the nested loops write the row pass, for any rounding of the arithmetic, and stay in bounds |
| SeparableConvolution.ConvolutionColumn | 3rd_pkg_cases/cuda/convolutionSeparable/convolutionSeparable_gold.cpp:53-69 | the same for the column pass |
| SeparableConvolution.RowSum | 3rd_pkg_cases/cuda/convolutionSeparable/convolutionSeparable_gold.cpp:37-44 | the inner loop accumulates the guarded taps of one pixel |
| SeparableConvolution.ColumnSum | 3rd_pkg_cases/cuda/convolutionSeparable/convolutionSeparable_gold.cpp:58-65 | the same along a column |
| SeparableConvolution.ExactRows | 3rd_pkg_cases/cuda/convolutionSeparable/convolutionSeparable_gold.cpp:33-49 | without rounding the row loops compute the zero-padded one-dimensional convolution |
| SeparableConvolution.ExactColumns | 3rd_pkg_cases/cuda/convolutionSeparable/convolutionSeparable_gold.cpp:53-69 | the same for the column loops |
| SeparableConvolution.Separable | 3rd_pkg_cases/cuda/convolutionSeparable/convolutionSeparable_gold.cpp:33-69 | column pass after row pass is the direct two-dimensional convolution with the outer-product kernel, and so is the other order, for every image, radius and pair of kernels |
| ConvolutionMeaning.RowImpulse | 3rd_pkg_cases/cuda/convolutionSeparable/convolutionSeparable_gold.cpp:33-49 | the row pass spreads a single pixel along its row as the kernel says, to the radius and no further |
| ConvolutionMeaning.RowLinear | 3rd_pkg_cases/cuda/convolutionSeparable/convolutionSeparable_gold.cpp:33-49 | the row pass of a combination of images is the combination of their row passes |
| ConvolutionMeaning.ColumnImpulse | 3rd_pkg_cases/cuda/convolutionSeparable/convolutionSeparable_gold.cpp:53-69 | the column pass spreads a single pixel along its column |
| ConvolutionMeaning.ColumnLinear | 3rd_pkg_cases/cuda/convolutionSeparable/convolutionSeparable_gold.cpp:53-69 | and is linear |
| SeparableConvolution.PartialSingle | 3rd_pkg_cases/cuda/convolutionSeparable/convolutionSeparable_gold.cpp:37-46 | while the bound on partial sums is below 2^24, binary32 rounding changes nothing |
| SeparableConvolution.SampleIsExact | 3rd_pkg_cases/cuda/convolutionSeparable/main.cpp:85-91 | on the generated inputs both binary32 passes together are the exact direct convolution, with values up to 975375 |
| SeparableConvolution.SamplePartialSums | 3rd_pkg_cases/cuda/convolutionSeparable/convolutionSeparable_gold.cpp:57-67 | every partial sum of both passes is at most 3825 and 975375 |
| RenderBlit.RenderEGL.BlitBuffer | bsp/bsp_egl/RenderEGL.cpp:492-552 | the clipped row-wise copy is the per-pixel specification: covered pixels get their source pixel, all others stay; nothing is copied where an extent, possibly after a sum wrapped around, does not fit `int`; all accesses are in bounds |
| RenderBlit.BlitExact | bsp/bsp_egl/RenderEGL.cpp:512-537 | a call does what is specified for all contents if and only if its position is outside the source, no extent is lost in the cast to `int`, or no framebuffer pixel should be copied |
| RenderBlit.BlitPixels | bsp/bsp_egl/RenderEGL.cpp:492-552 | pixel by pixel: what lies at an offset inside the extent, the source and the framebuffer is copied from that offset of the source, and every other pixel stays |
| RenderBlit.ZeroExtent | bsp/bsp_egl/RenderEGL.hpp:141-142 | a zero extent, as the default arguments have, has the outcome of the whole source as extent |
| RenderBlit.LostExact | bsp/bsp_egl/RenderEGL.cpp:521-537 | where an extent is lost, leaving the framebuffer alone is wrong for some content if and only if some pixel should be copied |
| RenderBlit.LostPixel | bsp/bsp_egl/RenderEGL.cpp:521-537 | a call in which the sum of position and extent wraps around and a covered pixel is not copied |
| RenderBlit.RenderEGL.CopyRows | bsp/bsp_egl/RenderEGL.cpp:545-551 | the loop over rows copies the clipped rectangle |
| RenderBlit.RenderEGL.ClippedRectangle | bsp/bsp_egl/RenderEGL.cpp:512-543 | clipping source and target separately gives exactly the covered pixels |
| RenderBlit.IndexFits | bsp/bsp_egl/RenderEGL.cpp:547-550 | the 32-bit index arithmetic does not wrap around |
| RowMajor.RowSpan | bsp/bsp_egl/RenderEGL.cpp:545-551 | a stretch of a row-major array is a range of columns in one row |

## Left out

- JSON text and binary formats, `ordered_json`, hashing, iterators, allocators and diagnostics: not modelled.
- NaN, discarded values and the sign of zero: not in the value type.
- JSON references: a subtree is a value, and assigning through `at` or `get_and_create` is exchanging it in the
  document, so aliasing and the identity of references are not captured; `get_and_create` is a recursion over the
  tokens, not a moving pointer.
- JsonDiff.DiffPatchRoundTrip: for documents whose arrays are shorter than the maximum of `size_type` (`Fits`), because
  `array_index` rejects larger indices; no document in memory is longer. The laws of `flatten`, `DiffMinimal.DiffExact` and
  `JsonEquality.EqualExact` have the same condition.
- JsonPatch.Document.ApplyInPlace: in a `test`, the location is resolved before the value is looked up; the source leaves that
  order to the compiler, and it matters only for which exception a patch element without a value causes.
- JsonPatch.PatchLocal: pointer texts without a leading slash are excluded, since a prefix would hide their error.
- JsonOrder.LessIsCmp: only for null, booleans, integers with unsigned values below 2^63, strings, arrays and objects; so
  are `EqualIsCmp`, `OrderTrichotomy` and `OrderTransitive`, since the laws fail elsewhere (see above).
- JsonOrder.EqualIsCmp: for the same documents.
- JsonDestroy.Destroy: the memory that a value owns is not modelled, only its content.
- SharedRing.SharedMemPublisher.GetFreeSlotIndex: with at least one slot; with none the source divides by zero.
- SharedRing.TimelyCopyIsExact: one publisher thread that makes one reservation per publication; message delivery is in
  order, and mapping the memory is not modelled.
- EndToEnd.PublishedIsInferred: every message that can be unpacked names the slot of a published frame, and the publisher's
  frames have the size that the messages announce.
- FramePipeline.InferredBytes: all messages announce frames of one size, since recycled buffers keep their first
  descriptor; inference is reading the frame once, byte by byte, and publishing its result is not modelled. Steps are
  sequentially consistent.
- PipelineStops.NotBlocked: a reception that waits for a message counts as a step that can be taken, for `receiveMsg` is not
  part of this model.
- FramePipeline.BuffersAreBounded: a buffer object whose bytes could not be allocated does not count as a buffer; it stays in
  a local variable until that is overwritten.
- SeparableConvolution.ConvolutionRow: pixels are integers and the destination is a different array from source and kernel.
- RenderBlit.RenderEGL.BlitBuffer: where the signed sums of coordinates fit `int`, the columns and rows copied lie inside the
  source, and buffers match their dimensions, the source with at most 2^32 pixels. Elsewhere a signed sum overflows,
  or pixels outside the source or, after another wrap-around, in other columns of it are read.
- The DNN engine, EGL, X11, sockets, video decoding and argument parsing: not modelled.
