# LogEasy: a verification model

LogEasy is a small logging library in C. Categories of messages are bound to appenders by type, a log call
walks the list of categories and writes a record to the appender of each one that matches, and all of it is
set up from a JSON file. The JSON engine it vendors (cJSON with its patch and pointer utilities) is by far the
largest part of what is built into the library. This project models both and proves what they are for:
diffs that replay to the target, printing that parses back, buffers that are never overrun, lists that stay
lists, and log records that stay whole while threads register and log at the same time.

Check everything with `dafny verify dfyconfig.toml`.

## How it is organised

Values. `CText` has C strings and the two string orders. `Json` has the tree of items (32-bit integers, strings
without NUL, ordered members) and its meaning as nested finite maps (`Canonical`), which forgets member order. The
flag `cs` is the case-sensitivity flag of the C functions; with `cs` false keys are compared in lower case
everywhere.

Sorting and equality. `MergeSort` is the algorithm of `sort_list` on sequences, `SiblingSort` the relinking one on
the heap, proved to compute the former, `SortTwins` what it does with equal keys. `Equality` has the two
comparison algorithms, `Comparison` what the sorting one leaves of the trees, `CompareLoops` its loops. Sorting
does not tell the new first child of an object who is last, and appending asks the first child: `Tails` is about
what the first child says, `StaleChains` has the operations on linked chains whose first child may be wrong.

Pointers and patches. `Pointer` resolves pointers, `PointerPaths` says what the text of any path resolves to,
`IndexTokens` what is taken for an array index, `PointerSearch` finds pointers, `PointerBuffers` has the loops
over pointer text. `Patch` applies and creates JSON Patches on plain trees, `PatchRoundTrip` proves the replay
theorem, `PatchPlaces` that nothing else is generated than a patch for each place where two trees differ,
`PatchStatuses` what one patch does at every kind of place and with which status, `PatchOperations` the operations
the generator does not emit, `PatchKeys` says for which keys patches work, `TokenUnits` what decoding a token in
place leaves of it. `Trees` are trees whose objects remember what their first member says about the last one;
`TreePatch` applies patches to them, step by step as the code does, and says exactly when that is what `Patch`
says, `TreeRuns` is about whole patch lists, `Leftovers` about what the generator leaves of its two trees.
`Patching` has the document and the patch list as objects. `MergePatch` is RFC 7396, `MergeOrder` says in which
order merged members stand, `MergeKeys` for which keys generated merge patches work, `MergeLoops` has the loops of
both functions, `MergeTrees` merges into trees that remember. `KeySets` is about trees with keys from a given set.

Text. `Rendering` is the printed text as a function and `Printing` the in-place printer. `Unescaping` holds the
two passes over string literals, `Scanning` the other lexical functions, `Parsing` the parser as functions over a
lexical layer, `ParseBuffers` the parser over a buffer with offset and depth, which links the items that
`ItemTrees` is about. `ParsePrinted` and `ParsedTrees` are the round trips. `StringTexts`, `NumberTexts` and
`JsonTexts` are the grammar of RFC 8259 with what each text stands for, written down without the parser and the
printer: `TextParsing` proves that every such text is parsed to that, `ParsedShapes` that little else is parsed,
`PrintForms` and `PrintTexts` which of these texts is the print of a tree. `Minifying` is the in-place minifier,
`CommentTexts` what it takes out of any text of the grammar with comments, `MinifyPrinted` what it does to printed
text, `QuotesFlipped` what it does to strings that it reads the wrong way round, `MinifiedReads` when the tree
survives that.

Lists and logging. `Siblings` has the sibling chains of cJSON as linked objects, `RingList` the circular lists of
`list.h`, `Registry` the appender and category registry. `LogWalk` has the threads that log while others register,
one step per memory access that others can see, and their invariant; `LogSteps` proves that each kind of step
keeps it and `LogRuns` what follows for all runs; `LogTargets` says whose output a record is in, `LogBindings` and
`LogQuotes` are about the bindings and counters in the same runs. `Sequences` and `Options` collect what several
modules need.

Where a property is false of the code, the code is kept, a lemma or method gives an input, and another member
gives the exact condition:

- keys for which JSON Patches replay: `PatchKeys.KeySetReplaysExactly`, with `SurvivesExactly`,
  `AddedMemberLands` and `DetachesNamedMember` for single keys; inputs `SlashKeyIsLost`, `WrongCaseIsRemoved`
- keys for which generated merge patches work: `MergeKeys.KeySetMergesExactly`; input `CapitalIsLost`
- null members of a merge target: `MergePatch.MergePatchRoundTrip` and `MergedFromNothing`; input
  `NullMemberIsLost`
- texts that the minifier misreads: `MinifyPrinted.MinifiedPrint` for the text, `MinifiedReads.MinifiedPrintParses`
  for the tree; inputs `BackslashIsMisread` and `BlankBehindBackslash`
- sibling chains after sorting: `StaleChains.SortObject` and `SortThenAdd`; input `TwoChangePlaces`
- patches that add to an object which a test has sorted lose the new member, or members that were there, with
  status 0: `TreePatch.ApplyExactly` for one patch, `TreeRuns.RunExactly` and `SoundStep` for lists; inputs
  `MemberIsDropped` and `MemberIsCutOff`
- patches applied to the very tree they were generated from: `Leftovers.LeftSound` and `RoundTripInPlace`; input
  `OriginalMissesMember`
- a second appender of one type: `Registry.LogEasy.RegisterAnother`, and `LogQuotes.QuotesCountBindings` with
  threads; input `SecondAppenderMiscounts`
- names and indices mistaken for each other: `PointerPaths.LocateIsResolve`; input `NameIsIndex`
- long numbers: `NumberTexts.NumberParsesExactly`
- array index tokens: `IndexTokens.DecodesAccepted` and `AcceptedIsDecimal`; input `LetterIsRead`

## Model

| member | source | states |
|---|---|---|
| CText.CompareIsTotalOrder | source/private_log_easy/source/cJSON_Utils.c:80-102 | both string orders are total and transitive, and zero exactly on equal keys |
| CText.SmallerAtFirstDifference | source/private_log_easy/source/cJSON_Utils.c:80-102 | a key is the smaller one exactly when at the first difference it ends or has the smaller character; letters that differ in case only are no difference when case is ignored |
| CText.CompareStrings | source/private_log_easy/source/cJSON_Utils.c:80-102 | the two-pointer loop has the sign of that order |
| MergeSort.SortSorts | source/private_log_easy/source/cJSON_Utils.c:415-506 | the sorted list is in key order |
| MergeSort.SortPermutes | source/private_log_easy/source/cJSON_Utils.c:415-506 | sorting neither loses nor repeats a member |
| MergeSort.SortIdempotent | source/private_log_easy/source/cJSON_Utils.c:423-437 | strictly sorted input is left as it is, and sorting twice is sorting once on distinct keys |
| SortTwins.SortReversesTwins | source/private_log_easy/source/cJSON_Utils.c:415-506 | the sort is not stable: members with equal keys come out in the reverse order |
| SiblingSort.IsAscending | source/private_log_easy/source/cJSON_Utils.c:428-437 | the walk stops early exactly when the chain is not strictly ascending |
| SiblingSort.Split | source/private_log_easy/source/cJSON_Utils.c:439-454 | the chain is cut into two chains that share no node |
| SiblingSort.MergeLists | source/private_log_easy/source/cJSON_Utils.c:459-506 | relinking two chains gives the merge of both sequences, closed by null, with prev inverse to next |
| SiblingSort.SortList | source/private_log_easy/source/cJSON_Utils.c:415-506 | the chain becomes the sorted permutation of its nodes; an ascending chain is not written to; the head's prev is what it was or null |
| Tails.SortKeepsTail | source/private_log_easy/source/cJSON_Utils.c:415-513 | a first child that knew the last one still does exactly when sorting leaves both in their places |
| StaleChains.SortObject | source/private_log_easy/source/cJSON_Utils.c:508-513 | the children are sorted; the first one says what it said, or nothing when it is a new one; a valid chain is valid again exactly when first and last child keep their places |
| StaleChains.AddItem | source/private_log_easy/source/cJSON.c:1692-1717 | the new child goes behind the one that the first child points to, what was behind that one is cut off, and without a pointer nothing happens |
| StaleChains.DetachItem | source/private_log_easy/source/cJSON.c:1888-1915 | the others stay linked; the next child takes over what the first one said, and taking out the last one corrects it |
| StaleChains.SortThenAdd | source/private_log_easy/source/cJSON_Utils.c:508-513 | after sorting, a new child comes last exactly when the ends kept their places; with a new first child it is not linked at all, with the old one it cuts off what stands behind the former last child |
| StaleChains.TwoChangePlaces | source/private_log_easy/source/cJSON_Utils.c:508-513 | children "b", "a": sorted, the chain is not valid and the first child points nowhere |
| Equality.CompareJsonIsCanonEquality | source/private_log_easy/source/cJSON_Utils.c:515-581 | sort-then-walk comparison is equality as nested finite maps |
| Equality.CompareItemsIsCanonEquality | source/private_log_easy/source/cJSON.c:2549-2654 | double-lookup comparison is equality as nested finite maps |
| Equality.EqualitiesAgree | source/private_log_easy/source/cJSON_Utils.c:515-581 | both algorithms agree and are an equivalence |
| CompareLoops.CompareTree | source/private_log_easy/source/cJSON_Utils.c:515-581 | the recursive comparison with its loops: the result, and what is left of the first tree |
| Comparison.ComparedKeepsCanon | source/private_log_easy/source/cJSON_Utils.c:515-581 | a comparison leaves the same maps behind, whichever way keys are compared afterwards |
| Comparison.EqualComesOutSorted | source/private_log_easy/source/cJSON_Utils.c:546-575 | after a successful comparison every object, at every depth, is in key order |
| Trees.ComparedSound | source/private_log_easy/source/cJSON_Utils.c:515-581 | a comparison leaves all first members knowing the last ones exactly when it finds the ends of every object that it sorts in their places |
| Pointer.TokenNamesItsKey | source/private_log_easy/source/cJSON_Utils.c:111-140 | an encoded key followed by anything is matched by exactly the names equal to the key |
| Pointer.IndexRoundTrip | source/private_log_easy/source/cJSON_Utils.c:246-267 | a printed index decodes to itself below the size limit |
| IndexTokens.DecodesAccepted | source/private_log_easy/source/cJSON_Utils.c:246-267 | the tokens that are taken for an index: no character below '0', a digit or nothing first, no leading zero; and the value, modulo 2^64 |
| IndexTokens.AcceptedIsDecimal | source/private_log_easy/source/cJSON_Utils.c:246-267 | the value is the number that the token stands for exactly when it consists of digits |
| IndexTokens.LetterIsRead | source/private_log_easy/source/cJSON_Utils.c:246-267 | "1a" is taken for 59 |
| Pointer.LocateFollowsPath | source/private_log_easy/source/cJSON_Utils.c:269-305 | resolving the text of a path follows the path, for keys of any characters |
| PointerPaths.LocateReadsText | source/private_log_easy/source/cJSON_Utils.c:269-305 | the text of any path resolves to where the path leads, also when it leads nowhere: below a scalar, to a missing member, behind the end of an array |
| PointerPaths.LocateIsResolve | source/private_log_easy/source/cJSON_Utils.c:269-305 | it is the item that the path names, or none, exactly when no name is found as an index and no index as a name |
| PointerPaths.NameIsIndex | source/private_log_easy/source/cJSON_Utils.c:269-305 | the name "0" is found in an array |
| PointerPaths.TokenIsUnescaped | source/private_log_easy/source/cJSON_Utils.c:111-140 | any token matches exactly the names that equal what section 4 of RFC 6901 makes of it, and one with another tilde matches none |
| Pointer.PointerRoundTrip | source/private_log_easy/source/cJSON_Utils.c:174-305 | the pointer of an item resolves to exactly that item in every tree with distinct keys |
| PointerSearch.FindPointer | source/private_log_easy/source/cJSON_Utils.c:174-233 | the search returns the path text of the target, and none only when the target is not below the item |
| PointerSearch.FindPointerFromObjectTo | source/private_log_easy/source/cJSON_Utils.c:174-233 | a pointer is found exactly for items of the tree, and the case-sensitive get returns the target |
| PointerBuffers.PointerEncodedLength | source/private_log_easy/source/cJSON_Utils.c:142-153 | the reservation is the length of the encoded text |
| PointerBuffers.EncodeStringAsPointer | source/private_log_easy/source/cJSON_Utils.c:155-172 | exactly the reserved characters and the terminator are written |
| PointerBuffers.DecodePointerInplace | source/private_log_easy/source/cJSON_Utils.c:316-339 | what the buffer holds afterwards, with the misplaced write for "~1" and the missing shift |
| TokenUnits.DecodedInPlace | source/private_log_easy/source/cJSON_Utils.c:316-339 | what is left of any token, unit by unit: a tilde in the place of its escape, a slash one place behind, nothing else moved; as long as there are units, or of the old length at a bad escape |
| PointerBuffers.CompareWithToken | source/private_log_easy/source/cJSON_Utils.c:111-140 | the cursor loop computes the token comparison |
| PointerBuffers.DecodeArrayIndex | source/private_log_easy/source/cJSON_Utils.c:246-267 | the digit loop with its guard on the first character, modulo 2^64 |
| PointerBuffers.GetItemFromPointer | source/private_log_easy/source/cJSON_Utils.c:269-305 | the loop over tokens reaches the position the recursive resolver names |
| Patch.LocateHasNode | source/private_log_easy/source/cJSON_Utils.c:269-305 | what a pointer resolves to is an item of the tree |
| PatchRoundTrip.AddMemberPatch | source/private_log_easy/source/cJSON_Utils.c:678-867 | an emitted add puts the member into the map at the path and changes nothing else |
| PatchRoundTrip.RemoveMemberPatch | source/private_log_easy/source/cJSON_Utils.c:371-413 | an emitted remove takes the member out of the map at the path |
| PatchRoundTrip.RemoveItemPatch | source/private_log_easy/source/cJSON_Utils.c:342-368 | an emitted remove at an index takes out that element |
| PatchRoundTrip.AppendItemPatch | source/private_log_easy/source/cJSON_Utils.c:826-830 | an add at "-" appends |
| PatchRoundTrip.ReplacePatch | source/private_log_easy/source/cJSON_Utils.c:706-761 | an emitted replace writes the value at the path, also at the root |
| PatchRoundTrip.ReplayItems | source/private_log_easy/source/cJSON_Utils.c:980-1020 | the patches of two arrays turn one into the other, with repeated removes at one index |
| PatchRoundTrip.ReplayMembers | source/private_log_easy/source/cJSON_Utils.c:1022-1073 | the patches of two sorted member lists turn one map into the other |
| PatchRoundTrip.PatchRoundTrip | source/private_log_easy/source/cJSON_Utils.c:956-1104 | replaying the generated patches on any copy of the first tree returns status 0 at every step and ends equal to the second up to member order, provided each emitted patch ends in a key that survives and, where it takes a member out, stands alone |
| PatchRoundTrip.PlainSurvives | source/private_log_easy/source/cJSON_Utils.c:155-172 | keys without '~' and '/' survive encoding and decoding |
| PatchKeys.SurvivesExactly | source/private_log_easy/source/cJSON_Utils.c:316-339 | exactly which keys the in-place decoder gives back |
| PatchKeys.AddedMemberLands | source/private_log_easy/source/cJSON_Utils.c:678-867 | the patch for one new member reaches the target exactly when its key survives, and what it adds otherwise |
| PatchKeys.SlashKeyIsLost | source/private_log_easy/source/cJSON_Utils.c:316-339 | the patch that should add "/" adds "~" |
| PatchKeys.DetachesNamedMember | source/private_log_easy/source/cJSON_Utils.c:371-413 | a member is detached by its key exactly when no earlier key differs from it in case only |
| PatchKeys.WrongCaseIsRemoved | source/private_log_easy/source/cJSON_Utils.c:395-402 | a case-sensitive remove of "a" takes "A" |
| PatchKeys.FitKeysReplay | source/private_log_easy/source/cJSON_Utils.c:956-1078 | keys that survive and do not differ in case only make every pair of trees replayable |
| PatchKeys.KeySetReplaysExactly | source/private_log_easy/source/cJSON_Utils.c:956-1104 | all trees with keys out of a set survive the round trip exactly when each key survives and, for case-sensitive patches, no two differ in case only |
| PatchKeys.LostKeyDiffers | source/private_log_easy/source/cJSON_Utils.c:316-339 | a key that is lost is not saved by ignoring case either |
| PatchPlaces.EqualTreesNeedNoPatch | source/private_log_easy/source/cJSON_Utils.c:956-1104 | for trees with distinct keys, whatever the keys are, no patch is generated exactly when the trees are equal as nested maps |
| PatchPlaces.EveryPatchHasItsPlace | source/private_log_easy/source/cJSON_Utils.c:956-1078 | every patch leads to a place where the two maps differ, and replaces, removes or adds what differs there |
| PatchPlaces.OnePatchForEachPlace | source/private_log_easy/source/cJSON_Utils.c:956-1078 | there are as many patches as places where the two maps differ |
| PatchStatuses.AddToArray | source/private_log_easy/source/cJSON_Utils.c:820-844 | status 0 and the value in front of the element at the index, or at the end for "-" or the length; status 11 for a token that is no index, 10 for a larger one, and then nothing changes |
| PatchStatuses.AddToObject | source/private_log_easy/source/cJSON_Utils.c:807-858 | the value comes last under the name, the first member of that name is gone, and as a map the object has the name set |
| PatchStatuses.AddToNothing | source/private_log_easy/source/cJSON_Utils.c:807-858 | an add fails with status 9, and changes nothing, exactly when the path has no parent that is an array or an object |
| PatchStatuses.RemoveFailsExactly | source/private_log_easy/source/cJSON_Utils.c:371-413 | a remove fails with status 13, and changes nothing, exactly when no item stands at the path |
| PatchStatuses.RemoveFromArray | source/private_log_easy/source/cJSON_Utils.c:342-413 | exactly the element at the index is taken out; an index behind the end or a token that is no index has status 13 |
| PatchStatuses.RemoveFromObject | source/private_log_easy/source/cJSON_Utils.c:371-413 | the first member of the name, read without regard to case, is taken out |
| PatchStatuses.ReplaceFailsExactly | source/private_log_easy/source/cJSON_Utils.c:748-805 | a replace has status 13 exactly when no item stands at the path; without a value it has status 7, and the item is gone |
| PatchStatuses.ReplaceIsRemoveThenAdd | source/private_log_easy/source/cJSON_Utils.c:748-857 | a replace is a remove and an add at the same path |
| PatchStatuses.ReplaceInArray | source/private_log_easy/source/cJSON_Utils.c:748-857 | a replace in an array updates the element at the index |
| PatchStatuses.RootIsReplaced | source/private_log_easy/source/cJSON_Utils.c:705-746 | the empty path is the whole document: removed it is invalid, added or replaced it is the value, with status 7 when there is none |
| PatchStatuses.MalformedPatch | source/private_log_easy/source/cJSON_Utils.c:678-699 | status 2 exactly for a patch whose path is no string, status 3 exactly for one whose operation is unknown |
| PatchStatuses.PartIsFirst | source/private_log_easy/source/cJSON_Utils.c:614-655 | a part of a patch is the first member of its name, and a path or operation is read from a string only |
| PatchStatuses.MissingFrom | source/private_log_easy/source/cJSON_Utils.c:763-770 | status 4 exactly for a move or a copy without "from" |
| PatchStatuses.MissingValue | source/private_log_easy/source/cJSON_Utils.c:791-799 | an add without a value has status 7 and changes nothing |
| PatchStatuses.PatchesInTurn | source/private_log_easy/source/cJSON_Utils.c:869-915 | patches are applied in turn, each to what the one before has left, up to the first that fails; its status and document are those of the list |
| PatchOperations.TestComparesMaps | source/private_log_easy/source/cJSON_Utils.c:697-702 | test succeeds exactly when the item at the path equals the value as maps; the item comes out sorted as far as the comparison went, and the document is the same as nested maps |
| PatchOperations.MoveIsRemoveThenAdd | source/private_log_easy/source/cJSON_Utils.c:763-790 | a move is a remove and an add of what was removed, with status 5 when there is nothing to move and status 9 for the empty path |
| PatchOperations.CopyIsAdd | source/private_log_easy/source/cJSON_Utils.c:763-790 | a copy is an add of the item found at "from", with status 5 when there is none and status 9 for the empty path |
| TreePatch.AddKidExactly | source/private_log_easy/source/cJSON_Utils.c:820-858 | a value becomes the child that is specified exactly when the object knows its last member; the status never tells |
| TreePatch.ApplyExactly | source/private_log_easy/source/cJSON_Utils.c:678-867 | one patch does what is specified exactly when it neither appends to an object that does not know its last member nor moves from what is no string |
| TreeRuns.RunExactly | source/private_log_easy/source/cJSON_Utils.c:869-915 | the document is what is specified after every patch of a list exactly when no patch that is reached strays |
| TreeRuns.SoundStep | source/private_log_easy/source/cJSON_Utils.c:678-867 | on a document whose objects know their last members every patch does what is specified, and they still know them exactly when it was no test that moved ends |
| TreeRuns.QuietRun | source/private_log_easy/source/cJSON_Utils.c:869-915 | patch lists whose tests move no ends do what is specified |
| TreeRuns.MemberIsDropped | source/private_log_easy/source/cJSON_Utils.c:697-702 | "b", "a" tested and then "c" added: "c" is not there, and the status is 0 |
| TreeRuns.MemberIsCutOff | source/private_log_easy/source/cJSON_Utils.c:697-702 | "a", "c", "b" tested and then "d" added: "c" is gone, and the status is 0 |
| TreeRuns.SoundRoundTrip | source/private_log_easy/source/cJSON_Utils.c:956-1104 | generated patches turn any such copy of the first tree into the second, and its objects know their last members |
| Patching.Document.Apply | source/private_log_easy/source/cJSON_Utils.c:678-867 | the branches of apply_patch leave the specified status and document, also where a stale end loses members; `PatchStatuses` says place by place what that is |
| Patching.Document.Test | source/private_log_easy/source/cJSON_Utils.c:697-702 | the result of the comparison, and the document with the item sorted |
| Patching.Document.Detach | source/private_log_easy/source/cJSON_Utils.c:371-413 | the branches of detach_path take out the specified item, or leave the document alone |
| Patching.Document.Insert | source/private_log_easy/source/cJSON_Utils.c:820-858 | the closing branches of apply_patch put the value where the specification says, with the same status |
| Patching.Document.ApplyAll | source/private_log_easy/source/cJSON_Utils.c:869-915 | patches apply in order up to the first error, with the ends that each of them leaves; a patch list that is no array is refused |
| Patching.PatchList.Create | source/private_log_easy/source/cJSON_Utils.c:956-1078 | the recursive generator appends exactly the specified patches, by `PatchPlaces` one for each difference and none without, and leaves both trees sorted as specified |
| Leftovers.LeftKeepsCanon | source/private_log_easy/source/cJSON_Utils.c:956-1078 | what the generator leaves of a tree is the same as nested maps |
| Leftovers.LeftSound | source/private_log_easy/source/cJSON_Utils.c:956-1078 | the generator leaves all first members knowing the last ones exactly when it finds the ends of the objects it sorts in their places |
| Leftovers.RoundTripInPlace | source/private_log_easy/source/cJSON_Utils.c:956-1104 | then the patches also turn the very tree they were generated from into the second one |
| Leftovers.OriginalMissesMember | source/private_log_easy/source/cJSON_Utils.c:956-1104 | otherwise they may not: "b", "a" does not get the new member "c", and the status is 0 |
| Patching.PatchList.CreateForItems | source/private_log_easy/source/cJSON_Utils.c:980-1020 | the three array loops append the specified patches and leave the specified elements |
| Patching.PatchList.CreateForMembers | source/private_log_easy/source/cJSON_Utils.c:1022-1073 | the walk over two sorted member lists appends the specified patches and leaves the specified members |
| Patching.PatchOver | source/private_log_easy/source/cJSON_Utils.c:1080-1104 | generating, and applying to a duplicate of the first tree, gives the second, with all ends known |
| MergePatch.MergeRefinesRfc | source/private_log_easy/source/cJSON_Utils.c:1114-1158 | merging computes the pseudocode of section 2 of RFC 7396 on trees with distinct keys |
| MergePatch.MergeTwice | source/private_log_easy/source/cJSON_Utils.c:1114-1158 | applying a merge patch twice is applying it once |
| MergeOrder.MergedStandInOrder | source/private_log_easy/source/cJSON_Utils.c:1114-1158 | the members that a merge patch does not name stay in front as they were, those that it sets follow in its order and under its names |
| MergePatch.MergePatchRoundTrip | source/private_log_easy/source/cJSON_Utils.c:1168-1238 | the generated merge patch turns any copy of the first tree into the second exactly when the null members of the second allow it, for all keys whose strcmp order folding keeps; for two objects no patch is generated exactly when they are equal |
| MergePatch.GenerateIsDiff | source/private_log_easy/source/cJSON_Utils.c:1168-1230 | the generated patch is the difference of the two nested maps |
| MergePatch.DiffMerges | source/private_log_easy/source/cJSON_Utils.c:1114-1158 | merging the difference gives the second map exactly when each null member of it has an equal one in its place |
| MergePatch.NullMemberIsLost | source/private_log_easy/source/cJSON_Utils.c:1129-1136 | {"a": null} merged into nothing is {} |
| MergeKeys.KeySetMergesExactly | source/private_log_easy/source/cJSON_Utils.c:1168-1230 | all trees with keys out of a set survive the merge round trip exactly when folding keeps the strcmp order of the keys, for either flag of both functions |
| MergeKeys.CapitalIsLost | source/private_log_easy/source/cJSON_Utils.c:1168-1230 | dropping "a" from {"a": true, "B": true} leaves nothing |
| MergePatch.MergedFromNothing | source/private_log_easy/source/cJSON_Utils.c:1129-1136 | a tree merged into nothing comes out whole exactly when it has no null member outside arrays |
| MergeLoops.MergeInto | source/private_log_easy/source/cJSON_Utils.c:1114-1158 | the loop over the patch members computes the specification and so the RFC pseudocode |
| MergeLoops.GenerateMerge | source/private_log_easy/source/cJSON_Utils.c:1168-1230 | the walk over two sorted member lists generates the specified patch; nested patches are for what the comparison has left of both members |
| MergeTrees.MergeSound | source/private_log_easy/source/cJSON_Utils.c:1114-1158 | a tree whose objects know their last members is merged as specified, and they still know them |
| MergeTrees.NewMemberMerges | source/private_log_easy/source/cJSON_Utils.c:1114-1158 | a new member gets into an object exactly when it knows its last member |
| Rendering.RenderNulFree | source/private_log_easy/source/cJSON.c:1188-1250 | printed text holds no NUL, so strlen finds its end |
| Rendering.IntTextShort | source/private_log_easy/source/cJSON.c:477-532 | a printed 32-bit integer fits the number buffer |
| PrintForms.StringIsItsForms | source/private_log_easy/source/cJSON.c:777-883 | a string is printed as the forms of its characters between quotes: itself, a short escape of section 7 of RFC 8259, or four lower-case digits for other controls; "/" is not escaped |
| PrintForms.HasOneForm | source/private_log_easy/source/cJSON.c:777-883 | no character has two forms |
| PrintForms.LinesAreIndented | source/private_log_easy/source/cJSON.c:1486-1580 | every line of a formatted print starts with as many tabs as lists are open there, a closing brace counted out, and no line ends inside a string |
| PrintForms.UnformattedIsOneLine | source/private_log_easy/source/cJSON.c:1187-1250 | the unformatted print is one line |
| PrintTexts.PrintIsText | source/private_log_easy/source/cJSON.c:1187-1580 | every print is a text of RFC 8259 that stands for exactly the tree, written as prints are: these gaps, these string forms, plain ints |
| PrintTexts.OnlyPrintsAreLaidOut | source/private_log_easy/source/cJSON.c:1187-1580 | a text that is written so is the print of the tree that it stands for |
| Printing.PrintBuffer.Ensure | source/private_log_easy/source/cJSON.c:389-457 | room is made exactly when capacity allows, and a move keeps the text printed so far |
| Printing.PrintBuffer.UpdateOffset | source/private_log_easy/source/cJSON.c:459-468 | the cursor moves to the terminator behind the output |
| Printing.PrintBuffer.PrintString | source/private_log_easy/source/cJSON.c:777-883 | the escaped string is written behind the prefix, in exactly its reservation |
| Printing.PrintBuffer.PrintArray | source/private_log_easy/source/cJSON.c:1336-1387 | the text of the array follows the prefix, with depth restored |
| Printing.PrintBuffer.PrintObject | source/private_log_easy/source/cJSON.c:1486-1580 | the text of the object follows the prefix, with depth restored |
| Printing.PrintBuffer.PrintValue | source/private_log_easy/source/cJSON.c:1187-1250 | success exactly when no item is invalid and two bytes are left; then the old prefix and the rendered value stand in the buffer |
| Printing.PrintPreallocated | source/private_log_easy/source/cJSON.c:1122-1137 | success exactly when the length is at least that of the text plus two, and no write outside the buffer |
| Printing.Print | source/private_log_easy/source/cJSON.c:1031-1094 | the result is exactly the text and its terminator |
| Printing.PrintBuffered | source/private_log_easy/source/cJSON.c:1096-1120 | any starting size, even none, gives the same text |
| Unescaping.StepFitsBudget | source/private_log_easy/source/cJSON.c:664-744 | each step of the second pass writes no more than the first pass reserved for it |
| Unescaping.Measure | source/private_log_easy/source/cJSON.c:674-699 | the first pass finds the closing quote and counts the skipped bytes |
| Unescaping.DecodeInto | source/private_log_easy/source/cJSON.c:696-757 | the second pass stays inside its reservation for every input, bad hex digits included, and writes the decoded string and a NUL |
| Unescaping.WriteUtf8 | source/private_log_easy/source/cJSON.c:613-655 | the encoding loop writes the bytes of the code point at the output pointer |
| Unescaping.Utf8RoundTrip | source/private_log_easy/source/cJSON.c:613-655 | what is written is the UTF-8 of section 3 of RFC 3629 |
| Unescaping.EscapesDecodeToUtf8 | source/private_log_easy/source/cJSON.c:562-661 | well-formed \u escapes, surrogate pairs included, decode to the UTF-8 of their code points |
| Unescaping.DecodeEscaped | source/private_log_easy/source/cJSON.c:664-757 | decoding undoes escaping |
| StringTexts.LiteralDecodes | source/private_log_easy/source/cJSON.c:664-757 | any literal of plain characters, the eight two-character escapes and \u escapes of either case is decoded to what section 7 of RFC 8259 says its parts stand for |
| StringTexts.LiteralParses | source/private_log_easy/source/cJSON.c:664-775 | and is parsed to that, up to the first NUL among it |
| StringTexts.RefusedFails | source/private_log_easy/source/cJSON.c:562-757 | a literal is refused at a backslash in front of any other letter, at a low surrogate alone, at a high one without its low one, and at digits that are cut off |
| StringTexts.BadDigitsAreZero | source/private_log_easy/source/cJSON.c:535-560 | four characters that are not all digits count as the code 0 |
| Scanning.SkipBlanks | source/private_log_easy/source/cJSON.c:903-922 | the step back from the end never lowers the offset |
| Scanning.ParseScalar | source/private_log_easy/source/cJSON.c:1140-1171 | a value that is no list moves the offset forward inside the input |
| Parsing.ParseValue | source/private_log_easy/source/cJSON.c:1140-1185 | on success the offset grows and stays inside the input |
| Parsing.ParseElements | source/private_log_easy/source/cJSON.c:1282-1309 | the element loop terminates inside the input |
| Parsing.ParseMembers | source/private_log_easy/source/cJSON.c:1418-1459 | the member loop terminates inside the input |
| ParseBuffers.ParseBuffer.SkipWhitespace | source/private_log_easy/source/cJSON.c:903-922 | the loop and its step back reach the specified offset |
| ParseBuffers.ParseBuffer.ParseNumber | source/private_log_easy/source/cJSON.c:277-343 | the number is copied into its own buffer and read as specified |
| NumberTexts.NumberIsRead | source/private_log_easy/source/cJSON.c:277-343 | every number of section 6 of RFC 8259, with fraction and exponent, is read whole, as the int that is nearest to it without its fraction |
| NumberTexts.NumberParsesExactly | source/private_log_easy/source/cJSON.c:277-343 | a number is parsed whole exactly when it has at most 63 characters |
| NumberTexts.StrtodIsForm | source/private_log_easy/source/cJSON.c:277-343 | what is read as a number has the form of one, and its value |
| ParseBuffers.ParseBuffer.ParseString | source/private_log_easy/source/cJSON.c:664-775 | both passes give the specified string and offset |
| ParseBuffers.ParseBuffer.ParseValue | source/private_log_easy/source/cJSON.c:1140-1185 | success, value and offset are the specified ones, depth is restored, and the item heads a tree of new items that is linked as the value says |
| ItemTrees.EveryChainIsValid | source/private_log_easy/source/cJSON.c:1252-1484 | in a tree that is linked as a value says, every item at any depth heads a valid chain |
| ItemTrees.LinkArray | source/private_log_easy/source/cJSON.c:1282-1323 | ready trees become the children of an item, in one valid chain, and stay what they are |
| ItemTrees.LinkObject | source/private_log_easy/source/cJSON.c:1418-1473 | the same for named members |
| ParseBuffers.ParseBuffer.ParseArray | source/private_log_easy/source/cJSON.c:1252-1334 | the array loop reads the specified elements, links an item for each, and restores depth |
| ParseBuffers.ParseBuffer.ParseObject | source/private_log_easy/source/cJSON.c:1389-1484 | the object loop reads the specified members, links an item of each name, and restores depth |
| ParseBuffers.ParseWithLengthOpts | source/private_log_easy/source/cJSON.c:952-1018 | the whole parse, with or without the demand for a terminator; every item of the tree, at any depth, heads a valid chain |
| ParsePrinted.ParseUndoesPrint | source/private_log_easy/source/cJSON.c:1140-1580 | parsing the formatted or unformatted print of a tree nested at most 1000 deep gives the same tree, order and duplicate keys included |
| TextParsing.EveryTextIsParsed | source/private_log_easy/source/cJSON.c:903-1018 | every text of RFC 8259, with or without byte order mark, with blanks anywhere, is parsed to the tree it stands for; behind it the strict parse allows exactly blanks |
| TextParsing.TerminatorIsDemanded | source/private_log_easy/source/cJSON.c:952-1018 | a parse with the demand for a terminator is refused exactly when the free one is, or something else than blanks stands in front of the last byte, or that is no NUL |
| ParsedShapes.ArrayIsBracketed | source/private_log_easy/source/cJSON.c:1252-1334 | what is parsed as an array is a bracketed list of the texts of its elements, each a value one level deeper |
| ParsedShapes.ObjectIsBraced | source/private_log_easy/source/cJSON.c:1389-1484 | what is parsed as an object is a braced list of names and values |
| ParsedShapes.WordIsKnown | source/private_log_easy/source/cJSON.c:1140-1185 | what is parsed as another value is null, false, true, a quoted text or a number |
| ParsedShapes.NumberIsForm | source/private_log_easy/source/cJSON.c:277-343 | a number is read from a text of that form, as its value |
| ParsedTrees.ValueIsClean | source/private_log_easy/source/cJSON.c:1253-1334 | what is parsed is nested at most 1000 deep and holds only C strings |
| ParsedTrees.ParsedTreesPrintAndParse | source/private_log_easy/source/cJSON.c:952-1018 | whatever was parsed, printing it and parsing again gives the same tree |
| Minifying.Minify | source/private_log_easy/source/cJSON.c:2427-2466 | the write cursor never passes the read cursor; the kept text and its terminator stand in place, and nothing behind is touched |
| Minifying.MinifyString | source/private_log_easy/source/cJSON.c:2405-2425 | a string moves with its escaped quotes, also when it is not closed |
| Minifying.SkipMultilineComment | source/private_log_easy/source/cJSON.c:2394-2403 | the cursor stops behind the comment or at the end of the text |
| Minifying.KeptTwice | source/private_log_easy/source/cJSON.c:2427-2466 | minifying is idempotent on every text |
| CommentTexts.CommentsAreDropped | source/private_log_easy/source/cJSON.c:2383-2466 | a line comment is dropped up to its newline, a block comment up to its first end, and one without an end with all that follows |
| CommentTexts.MinifyStripsText | source/private_log_easy/source/cJSON.c:2383-2466 | of a text of RFC 8259 with blanks and comments between any of its signs exactly the signs are left, and they are parsed to the tree that the text stands for |
| MinifyPrinted.MinifiedPrint | source/private_log_easy/source/cJSON.c:2405-2466 | minifying a formatted print gives the unformatted print exactly when only closing brackets follow a string or key that ends in a backslash |
| MinifyPrinted.BackslashIsMisread | source/private_log_easy/source/cJSON.c:2405-2425 | of ["\\", " "] the minifier keeps ["\\", ""]: the blank inside is dropped and the one outside kept |
| QuotesFlipped.StringIsMisread | source/private_log_easy/source/cJSON.c:2405-2466 | a string that is read from outside, with a blank or a slash in front of its first quote, is not parsed to itself |
| MinifiedReads.MinifiedPrintParses | source/private_log_easy/source/cJSON.c:2383-2466 | a minified print parses to the tree that was printed exactly when it has no such string or key |
| MinifiedReads.ClosedIsRead | source/private_log_easy/source/cJSON.c:2383-2466 | in particular when only closing brackets follow a string or key that ends in a backslash |
| MinifiedReads.BlankBehindBackslash | source/private_log_easy/source/cJSON.c:2405-2425 | ["\\", 1] survives, ["\\", " "] does not |
| Siblings.Item.LinkNewItems | source/private_log_easy/source/cJSON.c:1282-1323 | the chain built from new items is a valid one, with the last item behind the first one's prev |
| Siblings.Item.GetArrayItem | source/private_log_easy/source/cJSON.c:1603-1617 | the child at an index, or null behind the last |
| Siblings.Item.AddItemToArray | source/private_log_easy/source/cJSON.c:1692-1717 | the chain is that of the children with the item at the end; an item is not added to itself |
| Siblings.Item.InsertItemInArray | source/private_log_easy/source/cJSON.c:1950-1971 | the chain is that of the children with the item inserted, or appended behind the end |
| Siblings.Item.InsertWithin | source/private_log_easy/source/cJSON_Utils.c:584-612 | the same, but an index behind the end is refused |
| Siblings.Item.DetachItemViaPointer | source/private_log_easy/source/cJSON.c:1888-1915 | the chain is that of the other children, and the item points nowhere |
| Siblings.Item.DetachItemFromArray | source/private_log_easy/source/cJSON_Utils.c:342-368 | the child at an index is detached, or nothing happens |
| Siblings.Item.ReplaceItemViaPointer | source/private_log_easy/source/cJSON.c:1973-2010 | the replacement takes the place of the child in the chain |
| Siblings.Item.Run | source/private_log_easy/source/cJSON.c:1888-2018 | every run of edits keeps the chain valid and acts as the same edits of a sequence |
| RingList.ListAdd | source/private_log_easy/include/list.h:100-125 | the new entry becomes the first |
| RingList.ListDelInit | source/private_log_easy/include/list.h:235-243 | the entry leaves its ring and becomes one of its own |
| RingList.ListReplace | source/private_log_easy/include/list.h:195-202 | the new node takes the place of the old one, also in a ring of one |
| RingList.ListReplaceInit | source/private_log_easy/include/list.h:211-216 | the new node takes the place of the old one, which becomes a ring of its own |
| RingList.ListSwap | source/private_log_easy/include/list.h:216-233 | two entries change places, adjacent or not |
| RingList.ListBulkMoveTail | source/private_log_easy/include/list.h:268-289 | a section moves behind what follows it |
| RingList.ListRotateLeft | source/private_log_easy/include/list.h:369-383 | the first entry becomes the last |
| RingList.ListCutPosition | source/private_log_easy/include/list.h:408-450 | the entries up to and including the given one move to the new list; an empty list leaves both alone |
| RingList.ListCutBefore | source/private_log_easy/include/list.h:452-475 | the entries in front of the given one move to the new list |
| RingList.ListSpliceInit | source/private_log_easy/include/list.h:477-531 | the entries of one list come first in the other, and the first is empty |
| RingList.ListSpliceTailInit | source/private_log_easy/include/list.h:533-546 | the entries of one list come last in the other |
| RingList.CutAndSplice | source/private_log_easy/include/list.h:408-531 | cutting a ring and splicing the part back restores it |
| Registry.LogEasy.RegisterAppender | source/log_easy_class.c:80-97 | the appender is listed first and takes the matching categories; the registry stays valid when its type was not listed |
| Registry.LogEasy.UnregisterAppender | source/log_easy_class.c:98-109 | the appender leaves the list and its categories are unbound |
| Registry.LogEasy.RegisterCategory | source/log_easy_class.c:160-175 | the category is listed first and bound to the first matching appender, which counts it |
| Registry.LogEasy.UnregisterCategory | source/log_easy_class.c:177-187 | the category leaves the list and its appender counts one less |
| Registry.LogEasy.Run | source/log_easy_class.c:80-187 | over any history with distinct listed types, every category is bound to the appender of its type or to none, and every counter is the number of bindings; both are given by the lists alone |
| Registry.LogEasy.RegisterAnother | source/log_easy_class.c:41-58 | a second appender of a listed type makes the counters wrong exactly when something was bound to the first |
| Registry.SecondAppenderMiscounts | source/log_easy_class.c:41-58 | one bound category and two appenders of its type: the counters are wrong |
| Registry.OrderDoesNotMatter | source/log_easy_class.c:41-187 | bindings and counters depend only on what is registered, not on the order |
| Registry.LogEasy.ValidCountsAgree | source/log_easy_class.c:41-149 | in a valid registry every counter is the number of bindings |
| LogSteps.PublishStep | source/private_log_easy/include/list.h:100-111 | the last of the four writes puts a category in front of the list without disturbing any walk |
| LogRuns.StepKeepsInv | source/log_easy_class.c:41-278 | every step of every thread keeps the protocol invariant |
| LogRuns.WholeRecords | source/log_easy_config.c:151-171 | each output is whole records, and at most the header its lock holder has just written |
| LogTargets.EveryListenerServedOnce | source/log_easy_class.c:230-278 | a call that returned gave exactly one record to each matching category that was listed and bound before it, in exactly one output: that of a listed appender of the wanted type which the category was bound to during the call, and the only one it was ever bound to if there is one |
| LogTargets.RecordsGoWhereBound | source/log_easy_class.c:230-278 | at any time a record for a category is only in the output of an appender that it was bound to at some moment of the call |
| LogRuns.NeverTwice | source/log_easy_class.c:230-278 | no category gets a second record of a call, and none of another type gets one |
| LogRuns.NoStandstill | source/log_easy_class.c:41-278 | the registry lock and the appender locks never block each other for good |
| LogQuotes.QuotesCountBindings | source/log_easy_class.c:41-175 | whenever the registry lock is free every counter is the number of bindings ever made to its appender, and that of its categories exactly when none of them was bound to another appender later |
| LogQuotes.QuotesAgree | source/log_easy_class.c:41-175 | when no two appenders have the same type, every counter is the number of bound categories whenever the registry lock is free |
| LogBindings.BindingsFollowTheLists | source/log_easy_class.c:41-175 | whenever the registry lock is free a listed category is bound to the first listed appender of its type, and to none exactly when none is listed |

## Left out

- Floating point: `valuedouble`, NaN and infinity, the rounding of `strtod` and `%1.17g`, and the epsilon test of `compare_double`. Numbers are 32-bit integers, and number text is read exactly and clamped.
- Raw items, reference items and constant-key items, and the `hlist` lists.
- Allocation failure, and with it the statuses 6 and 8 of `apply_patch`; memory is never freed in the model.
- The global error position and the parse end reported for a failed parse.
- Trees are values in the patch and merge modules, with what each first member says about the last one. The links inside a child list are modelled in `StaleChains` and `SiblingSort` for one list at a time, and in `ItemTrees` for a whole tree that is built once.
- Patching.Document.Apply: what happens after a pointer to an item that is no child any more, or a null pointer, was followed. C leaves that open when the item was freed; after a move it is alive in another place. The model says `Astray` and stops.
- PatchRoundTrip.PatchRoundTrip: a condition that is exact for each single pair of trees. The one stated is exact for key sets (`PatchKeys.KeySetReplaysExactly`); for a single pair, two lost removes can make up for each other.
- ParseBuffers.ParseBuffer.ParseNumber: `valuedouble`, which strtod rounds; number text is read as an integer and clamped as `valueint` is.
- The order in which a parsed list is linked: the code links each item before it reads its value, the model links all of them behind the last one. The items of `ItemTrees` have links and keys; what else an item holds is the value beside it.
- ParsedShapes.WordIsKnown: the form of what stands between the quotes of a parsed string. Four characters behind \u that are not all digits count as the code 0 and are stepped over, whatever they are.
- TextParsing.EveryTextIsParsed: texts with numbers of more than 63 characters; `NumberTexts.NumberParsesExactly` says that these are cut.
- CommentTexts.MinifyStripsText: texts with a string that ends in a backslash; the minifier takes its closing quote for an escaped one, which `MinifiedReads` is about.
- MergeLoops.GenerateMerge: that the two operands come out sorted, as `Leftovers` has it for create_patches.
- Unregistering while other threads log: `list_del_init` links a node to itself that a walk may be on.
- Memory order: the threads of `LogWalk` see each other's writes in one order.
- The contents of a record: it is a header and a body, without time stamp, format and arguments.
- Finding and reading the configuration file, opening and closing streams, cutting types to 128 bytes, and the thin wrappers `log_easy.c` and `log_easy_stream_class.c`.
