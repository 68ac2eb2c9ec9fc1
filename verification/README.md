# SilverBullet: text edits, storage keys and asynchronous steps

A Dafny model of the parts of the SilverBullet client in which text edits, storage keys and
interleaved asynchronous steps have to agree with a simpler description, and proofs that they do,
or of exactly when they do.

- **Merging outside changes into the editor** (`Changes`, `ExternalMerge`): a change set is a
  sorted list of replacements on the base text; `ChangeSet.map` shifts positions. The line claims,
  the runs of `claimedChunks` and the binary search are proved to be diff3's chunks.
- **Conflict markers** (`ConflictMarkers`, `MarkerLines`, `ConflictResolution`,
  `ConflictPrinting`, `GitConflicts`, `ConflictFences`): the line scanner with its two grammars,
  nested starts and fences; which lines are markers and fences; resolving one hunk and keeping the
  others; printing a conflict in either form, finding it again and resolving it; and exactly when
  fences let one hunk's resolution change which others are found.
- **Baked sections** (`BakedSections`, `BakedBodies`): find, escape, rewrite back to front, and find
  again; which sections are found, and what a baked body holds.
- **Key-value layers** (`KeyCodec`, `KvStores`, `EncryptedStore`): the string encoding of keys and
  the range of a prefix scan, the IndexedDB store, and the encrypted store as a refinement of it.
- **Object index** (`ObjectIndex`, `ObjectRows`, `Reindex`): forward and reverse keys over whole
  runs, from objects to rows and back, and the crash-recoverable reindex.
- **Message queue** (`MessageIds`, `MessageQueue`, `MessageFates`, `QueueSteps`): with whole
  operations as steps, each message followed through its own life, and split at each storage call.
- **State machines**: the merge base (`ContentManager`, `ContentHistory`), the event stream
  (`RealtimeEvents`), the semaphore of the AI sidecar (`Semaphore`), tag pairing (`HtmlTags`), list
  numbers (`ListNumbers`), and configuration defaults (`ConfigPaths`).

`TextLines` holds positions and lines of a text, `Options` values that may be missing. Code that
updates state in place is a class or a method with loops, proved against functions; the properties
are lemmas about those functions. A run is a list of steps, and a stop or crash between two storage
calls is a step of its own.

Conventions: text is a sequence of UTF-16 code units; in the storage modules these are numbers, as
their order matters. The diff library is a script whose parts spell both texts; `ChangeSet.map` is
assumed to shift positions on sides that keep apart; ciphers are assumed to be undone by
decryption, encrypted key parts to hold no separator and not to begin with U+FFFF, and the empty
part to stay empty (`plug-api/lib/crypto.ts:83-105` keeps the length and writes Base64); clocks,
evaluators, transforms, the merge outcome and the success of hook calls are parameters.

## Where the code does less than its comments say, or than one may expect

- A pure deletion that starts in mid-line and ends at a line start joins the line behind it to the
  rest of the first line, but `classifyEdits` calls it clean (`client/external_merge.ts:127-136`):
  `JoinedLineIsMissed`. `UnclaimedLineSurvivesIff` says exactly which lines are affected.
- A start marker that is left open hides the conflict behind it, and two in a row do not:
  `StrayStartHides`; `PrintedIsFoundIff` says exactly when a conflict is found.
- Fences matter to git-form hunks, also those that stand inside other hunks
  (`client/codemirror/conflict_markers.ts:125-151`), so a resolution can bring a git hunk to light
  that was not there: `FenceInsideHunk`. `KeepsOthersIff` gives the exact condition, and
  `ResolveKeepsOthers` holds wherever no line of the hunk opens or closes a fence.
- `requeueTimeouts` deletes before it inserts, and a poll may delete what was requeued since it
  read (`client/data/mq.datastore.ts:207-242`, `313-354`): `RequeueCanLose`. `RequeueIsFatalIff`
  and `StopIsFatalIff` say exactly when, and `CarefulRunKeeps` that nothing is lost otherwise.
- A manual reindex clears the index before it deletes the version key
  (`client/data/object_index.ts:535-538`), so an interrupted one is resumed exactly if the stored
  version was not current: `InterruptedReindexResumesIff`.
- The handler for the first full index writes version and marker without the lock
  (`client/data/object_index.ts:614-618`), also while a reindex is taken up again, and can hide it:
  `HandlerHidesReindex`. `HandlerWriteIsFatalIff` says which of its writes can.
- Message ids are in send order up to number 999999, while the clock keeps its number of digits;
  the exact condition, for all clocks and numbers, is `LaterIdIff`.
- A call of the semaphore that arrives between a wake-up and the waiter's resumption can exceed the
  limit: `StepKeepsBoundsIff`, `CallInBetween`.
- Stopping the event client during a flush and starting it again lets two flushes overlap:
  `RestartIsGoodIff`, `RestartCanOverlap`.
- A reload waits for the write it found pending, not for a save that starts during the wait
  (`client/content_manager.ts:711-713`), and the merge base then goes back: `SaveDuringWait`. The
  wait ends with nothing in flight exactly under the condition of `WaitEndsAloneIff`; base and
  withheld update stay in order exactly under that of `StepKeepsOrderIff`. A missing timestamp makes
  the base go back, too: `UnknownTimestampForgets`.
- A schema default below a value that is not an object replaces that value by an object, although
  only missing values are to be set (`client/config.ts:147-162`, `342-346`): `LeafIsReplaced`; it
  does so exactly under the condition of `LeafStaysIff`.
- A transform that returns no objects does not keep its object from being indexed
  (`client/data/object_index.ts:945-971`): `EmptyTransformStillIndexes`. By `EmptyTransformsWriteIff`
  it is written under exactly the tags it is valid for.

## Model

| member | source | states |
|---|---|---|
| Changes.DiffAndPrepareChanges | client/codemirror/cm_util.ts:4-25 | the change specs of a diff script are in order and take the old text exactly to the new one |
| Changes.BuildChangeSet | client/external_merge.ts:36 | so does the change set made of them, whose changes do not touch |
| Changes.NormalizeKeepsEdit | client/external_merge.ts:36 | joining touching changes keeps the edit |
| Changes.NormalizeIsNormal | client/external_merge.ts:36 | and leaves at least one kept character between neighbours |
| Changes.NormalizeCoversSame | client/external_merge.ts:36 | joining touching changes makes none wider or narrower |
| Changes.OnlyDeletedIsReplaced | client/codemirror/cm_util.ts:4-25 | the change set replaces exactly the characters that the diff deletes, and keeps all others |
| Changes.ApplySplit | client/external_merge.ts:58 | an edit may be cut at any position that no change straddles |
| Changes.InterleaveCommutes | client/external_merge.ts:58 | two sides that keep apart have one joint edit, whichever comes first |
| Changes.MappedEditsCommute | client/external_merge.ts:56-58 | local edits and then the mapped external ones, the other way round, and both at once give the same text |
| ExternalMerge.LineStarts | client/external_merge.ts:166-173 | the index lists exactly the line starts, in order, each at its line number |
| ExternalMerge.LineAt | client/external_merge.ts:176-185 | the binary search returns the number of newlines in front of the position |
| ExternalMerge.ClassifyEdits | client/external_merge.ts:103-139 | the lines and boundaries claimed are those that the changes' positions and texts call for |
| ExternalMerge.LineClaimedIff | client/external_merge.ts:112-137 | a change claims a line if and only if it takes or adds text on it, or ends in front of it and leaves it no whole line, unless it is a deletion that joins lines |
| ExternalMerge.BoundaryClaimedIff | client/external_merge.ts:112-122 | a change claims the gap in front of a line if and only if it is an insertion there that leaves the line whole |
| ExternalMerge.ClaimsAreExact | client/external_merge.ts:103-139 | so what a side claims is told by its changes and the text alone |
| ExternalMerge.FindRunStart | client/external_merge.ts:158-164 | walks back to the first line of the run |
| ExternalMerge.ClaimedChunks | client/external_merge.ts:141-156 | the chunks named are exactly those of the claimed lines and boundaries |
| ExternalMerge.ChunkIffLinked | client/external_merge.ts:141-164 | two edits get the same chunk name if and only if no line that both sides left alone lies between them |
| ExternalMerge.CollidesInSameChunk | client/external_merge.ts:77-94 | true exactly when some external and some local edit lie in one such chunk |
| ExternalMerge.NoCollisionIffParted | client/external_merge.ts:61-94 | no collision, if and only if a line that neither side claims lies between any two changes of the two sides |
| ExternalMerge.CollideSymmetric | client/external_merge.ts:77-94 | the two sides may be exchanged |
| ExternalMerge.NoCollisionKeepsApart | client/external_merge.ts:61-94 | without a collision no change of one side overlaps or touches one of the other |
| ExternalMerge.ComputeExternalChanges | client/external_merge.ts:27-59 | deferred exactly on a collision that may be deferred; a direct result is the text on disk; a merge is both edits at once on the base |
| ExternalMerge.UnclaimedLineSurvivesIff | client/external_merge.ts:103-139 | a line that is not claimed comes through as a whole line if and only if no change that ends at it joins it to the line before |
| ExternalMerge.KeptLineBetween | client/external_merge.ts:61-94 | and if no change joins lines, both sides keep such a line whole |
| ExternalMerge.UnclaimedLinesInOrder | client/external_merge.ts:103-139 | lines that come through keep their order and do not overlap |
| ExternalMerge.MergeKeepsCommonLines | client/external_merge.ts:61-94 | the merged text keeps each line that neither side claims, unless a change of one side joins it to the line before |
| ExternalMerge.JoinedLineIsMissed | client/external_merge.ts:127-136 | a concrete deletion destroys a line that is not claimed, and an edit next to it does not collide |
| ExternalMerge.HasConflictMarkers | client/external_merge.ts:190-198 | true exactly when the text holds an SB hunk |
| ExternalMerge.PrintedIsSeen | client/external_merge.ts:187-198 | a conflict in SB's form is seen wherever it is found |
| ExternalMerge.NoSbStartNoneSeen | client/external_merge.ts:187-198 | without a line that begins as SB's start marker, none is seen; git's form does not count |
| ConflictMarkers.ComputeFenceMask | client/codemirror/conflict_markers.ts:125-151 | masks each line as its fence state says |
| ConflictMarkers.FencedIff | client/codemirror/conflict_markers.ts:117-151 | a line is masked if and only if it lies behind an opening fence that nothing up to and including it closes |
| ConflictMarkers.ScanForLine | client/codemirror/conflict_markers.ts:195-220 | finds the first line of the wanted kind, or the first that ends the hunk early |
| ConflictMarkers.ScanForEnd | client/codemirror/conflict_markers.ts:222-247 | the same for the end marker |
| ConflictMarkers.AtLineMakesProgress | client/codemirror/conflict_markers.ts:256-448 | each turn of the main loop goes on behind its line; a hunk starts there, has its markers in order, and holds no start that its own scans would have stopped at |
| ConflictMarkers.TryHunk | client/codemirror/conflict_markers.ts:256-448 | one turn of the loop takes or skips what the two grammars say |
| ConflictMarkers.FindConflictHunks | client/codemirror/conflict_markers.ts:256-448 | the hunks pushed are those of the accepted frames, in order and apart |
| MarkerLines.MarkerLinesIff | client/codemirror/conflict_markers.ts:44-105 | which lines are start, base, separator and end markers, in SB's form and git's, and the hash or label they carry, with or without a carriage return |
| ConflictPrinting.AcceptedHunk | client/codemirror/conflict_markers.ts:107-115 | marker lines and sections of an accepted hunk concatenate to exactly its text; an SB hunk holds no other start marker |
| ConflictPrinting.PrintedHunk | client/codemirror/conflict_markers.ts:107-115 | a printed conflict reads back with its hashes and texts |
| ConflictPrinting.PrintedIsFound | client/codemirror/conflict_markers.ts:256-448 | the hunks of a text, a printed conflict and another text are those of the three, in order, if the first leaves no start marker and no fence open |
| ConflictPrinting.PrintedIsFoundIff | client/codemirror/conflict_markers.ts:195-448 | a printed conflict is found behind some lines, whatever follows, if and only if they leave no start marker open |
| ConflictPrinting.NoStartNoneOpen | client/codemirror/conflict_markers.ts:256-448 | lines without start markers leave none open |
| ConflictPrinting.StrayStartHides | client/codemirror/conflict_markers.ts:281-284 | one open start marker hides the conflict behind it, two in a row do not |
| ConflictPrinting.ResolvedPrinted | client/codemirror/conflict_markers.ts:450-475 | resolving a printed conflict leaves the text around it and the first section, the second, both in this order, or the base |
| GitConflicts.GitPrintedIsFound | client/codemirror/conflict_markers.ts:256-475 | the same for a conflict printed in git's form, which is found with its labels and texts; without a base section, the base cannot be taken |
| GitConflicts.CRLFAlike | client/codemirror/conflict_markers.ts:46-151 | a text with CRLF line ends has its hunks on the same lines as one with LF line ends |
| ConflictResolution.FramesMoved | client/codemirror/conflict_markers.ts:195-448 | what follows a point is found wherever it stands, given the same fences or no git start |
| ConflictResolution.FrameReached | client/codemirror/conflict_markers.ts:256-448 | the main loop arrives at the start of every hunk it accepts, with the earlier hunks accepted |
| ConflictResolution.UntilMoved | client/codemirror/conflict_markers.ts:195-448 | what is accepted up to a start marker that is reached depends on the lines in front of it only |
| ConflictResolution.ReplaceFrameKeepsOthers | client/codemirror/conflict_markers.ts:256-475 | lines without start markers in place of a hunk leave exactly the other hunks, if the fence open behind it stays the same or the document has no git start |
| ConflictResolution.ResolveKeepsOthers | client/codemirror/conflict_markers.ts:450-475 | resolving one hunk, by any action, leaves exactly the other hunks, later ones moved by the change in length; in documents with git-form starts, too, if no line of the hunk opens or closes a fence |
| ConflictResolution.HunksInOrder | client/codemirror/conflict_markers.ts:256-448 | hunks are in order and share no text |
| ConflictResolution.AnyOrderSameText | client/codemirror/conflict_markers.ts:450-475 | resolving all hunks in any order gives the text of all edits at once, which has no hunk |
| ConflictFences.OpensIff | client/codemirror/conflict_markers.ts:117-141 | a line opens a fence if and only if, behind at most three spaces, it begins with at least three backticks or tildes; the fence is that run |
| ConflictFences.ClosesIff | client/codemirror/conflict_markers.ts:117-149 | and closes one if and only if it is, behind at most three spaces, a run of the same character at least as long, with only white space behind it |
| ConflictFences.KeepsOthersIff | client/codemirror/conflict_markers.ts:125-475 | a hunk can be replaced and the others are kept, whatever stands behind it, if and only if the fence open behind it stays the same |
| ConflictFences.TellsApart | client/codemirror/conflict_markers.ts:125-247 | for any two different open fences there are lines that hold a hunk behind one of them only |
| ConflictFences.FenceInsideHunk | client/codemirror/conflict_markers.ts:125-475 | a concrete hunk whose resolution brings a git hunk to light |
| BakedSections.ExecSound | client/baked_sections/regions.ts:10-31 | a match of the opening pattern is the first one and has its parts where the pattern has them |
| BakedSections.FindBakedSections | client/baked_sections/regions.ts:32-53 | the loop over the regular expression's position finds the sections from the start of the text |
| BakedSections.SectionsInOrder | client/baked_sections/regions.ts:32-53 | sections are in order, each with its markers around its body, and share no text |
| BakedSections.EscapeRemovesClose | client/baked_sections/regions.ts:55-62 | an escaped body holds no closing marker |
| BakedSections.ComputeBakeEdits | client/baked_sections/bake.ts:19-44 | one edit for each section that can be baked, on its body; the others are reported |
| BakedSections.BakeSectionsInText | client/baked_sections/bake.ts:46-69 | edits made back to front are all edits at once |
| BakedSections.BakingKeepsTheRest | client/baked_sections/bake.ts:19-69 | for every evaluator, the baked text has the same expressions in the same order, each with the body due to it, and all other text as it was |
| BakedSections.BakingTwiceIsBakingOnce | client/baked_sections/bake.ts:46-69 | baking again changes nothing and skips the same expressions |
| BakedBodies.SectionsComplete | client/baked_sections/regions.ts:27-53 | no section is missed: an opening marker with an arrow and a closing marker behind it lies in a section that is found |
| BakedBodies.SectionsRead | client/baked_sections/regions.ts:10-53 | the expression is the trimmed text up to the first arrow, the body runs to the first closing marker |
| BakedBodies.EscapeIsReplaceAll | client/baked_sections/regions.ts:55-62 | of pieces joined by closing markers, escaping makes the same pieces joined by `<!-- /lua -->` |
| BakedBodies.CutAtCloses | client/baked_sections/regions.ts:55-62 | and every markdown is joined of such pieces |
| BakedBodies.SectionsAreBaked | client/baked_sections/bake.ts:19-69 | for every evaluator, each baked section has its expression and holds the trimmed result, with every closing marker spelled `<!-- /lua -->`, between two newlines; the old body where the expression cannot be baked |
| BakedBodies.PlainMarkdown | client/baked_sections/bake.ts:38-43 | markdown without a closing marker is written as it is, trimmed, between two newlines |
| TextLines.TrimSplits | client/baked_sections/bake.ts:38 | trimming takes away exactly the white space at both ends |
| BakedBodies.SkippedAreReported | client/baked_sections/bake.ts:30-37 | exactly the expressions that cannot be baked are reported, in the order of their sections |
| KeyCodec.BuildExtractRoundTrip | client/data/indexeddb_kv_primitives.ts:112-126 | a key can be built exactly if its parts hold no separator, and is then read back exactly if it has parts |
| KeyCodec.JoinOfExtract | client/data/indexeddb_kv_primitives.ts:124-126 | every stored string is the encoding of what is read from it |
| KeyCodec.RangeIffExtends | client/data/indexeddb_kv_primitives.ts:82-95 | the scanned range holds exactly the keys that extend the prefix by whole parts, but for those whose next part begins with U+FFFF and is more than that |
| KeyCodec.RangeSelectsWholeParts | client/data/indexeddb_kv_primitives.ts:82-106 | without such parts: whole-part extensions and nothing else |
| KeyCodec.LastPartOrder | client/data/indexeddb_kv_primitives.ts:80-95 | keys that differ in their last part are scanned in the order of that part |
| KvStores.IndexedDbKv.BatchGet | client/data/indexeddb_kv_primitives.ts:54-59 | the stored values in order, or failure exactly if a key cannot be built |
| KvStores.IndexedDbKv.BatchSet | client/data/indexeddb_kv_primitives.ts:61-70 | puts the entries in order, up to the first key that cannot be built |
| KvStores.LastPutIsStored | client/data/indexeddb_kv_primitives.ts:61-70 | a key has the value of the last entry for it |
| KvStores.NotPutStays | client/data/indexeddb_kv_primitives.ts:61-70 | and keys without an entry are as they were |
| KvStores.IndexedDbKv.BatchDelete | client/data/indexeddb_kv_primitives.ts:72-78 | removes the keys, up to the first that cannot be built |
| KvStores.RemoveAllIs | client/data/indexeddb_kv_primitives.ts:72-78 | exactly the given keys are gone |
| KvStores.IndexedDbKv.Query | client/data/indexeddb_kv_primitives.ts:80-95 | each row in range once, in key order |
| KvStores.IndexedDbKv.CountQuery | client/data/indexeddb_kv_primitives.ts:97-106 | as many as a query gives |
| KvStores.IndexedDbKv.Clear | client/data/indexeddb_kv_primitives.ts:36-52 | no row is left |
| KvStores.CountIsKeys | client/data/indexeddb_kv_primitives.ts:97-106 | counting strings in range is counting keys |
| EncryptedStore.EncInRange | client/data/encrypted_kv_primitives.ts:94-100 | a scan for an encrypted prefix sees exactly the rows whose plain keys extend the prefix |
| EncryptedStore.PlainPutAll | client/data/encrypted_kv_primitives.ts:76-85 | encrypting and storing is storing, as a user of the wrapper sees it |
| EncryptedStore.PlainRemoveAll | client/data/encrypted_kv_primitives.ts:87-92 | the same for deleting |
| EncryptedStore.DecryptedScan | client/data/encrypted_kv_primitives.ts:94-110 | a decrypted scan is the plain scan up to order |
| EncryptedStore.DecryptedCount | client/data/encrypted_kv_primitives.ts:112-115 | and counts the same |
| EncryptedStore.EncryptedKv.BatchGet | client/data/encrypted_kv_primitives.ts:64-74 | answers as the plain store does, for the key without parts as well |
| EncryptedStore.EncryptedKv.BatchSet | client/data/encrypted_kv_primitives.ts:76-85 | changes the plain rows as the plain store does |
| EncryptedStore.EncryptedKv.BatchDelete | client/data/encrypted_kv_primitives.ts:87-92 | changes the plain rows as the plain store does |
| EncryptedStore.EncryptedKv.Query | client/data/encrypted_kv_primitives.ts:94-110 | the plain rows that extend the prefix, each once |
| EncryptedStore.EncryptedKv.CountQuery | client/data/encrypted_kv_primitives.ts:112-115 | their number |
| EncryptedStore.StoredPartsAreEncrypted | client/data/encrypted_kv_primitives.ts:38-42 | every part of a stored key is an encrypted one |
| ObjectIndex.FirstEntryIsStored | client/data/datastore.ts:33-49 | of several entries for one key, the first is stored |
| ObjectIndex.DataStore.BatchSet | client/data/datastore.ts:33-49 | the loop over seen keys stores the first entry of each |
| ObjectIndex.DataStore.BatchDeletePrefix | client/data/datastore.ts:62-68 | removes the keys that extend the prefix and no other |
| ObjectIndex.ObjectIndex.BatchSet | client/data/object_index.ts:733-750 | adds the forward and reverse row of each object and forgets the memoized scans |
| ObjectIndex.ObjectIndex.BatchDelete | client/data/object_index.ts:752-759 | removes the forward rows only |
| ObjectIndex.ObjectIndex.ClearFileIndex | client/data/object_index.ts:765-779 | removes the page's reverse rows and the forward rows they lead to |
| ObjectIndex.ObjectIndex.ClearIndex | client/data/object_index.ts:798-813 | removes all forward and reverse rows, however the deletes are chunked |
| ObjectIndex.SetKeepsIndexed | client/data/object_index.ts:733-750 | writes keep a reverse key beside each forward key |
| ObjectIndex.DeleteKeepsIndexed | client/data/object_index.ts:752-759 | so do deletes, which leave reverse keys behind |
| ObjectIndex.RunsKeepIndexed | client/data/object_index.ts:733-813 | over every run of writes, deletes and clears, each forward key has its reverse key |
| ObjectIndex.ClearFileExactly | client/data/object_index.ts:765-779 | clearing a file removes exactly the forward and reverse rows of its page |
| ObjectIndex.ClearFileLeavesNothing | client/data/object_index.ts:765-779 | nothing of the page is left, if and only if no row was written under the key without parts |
| ObjectIndex.ClearFileKeepsOthers | client/data/object_index.ts:765-779 | rows of other pages are as they were |
| ObjectIndex.ClearLeavesNoIndex | client/data/object_index.ts:798-813 | no index row is left |
| ObjectIndex.SetKeepsOthers | client/data/object_index.ts:733-750 | a write changes no row but those of its objects |
| ObjectIndex.DeleteExactly | client/data/object_index.ts:752-759 | a delete removes exactly the page's forward rows of the objects given |
| ObjectIndex.ClearExactly | client/data/object_index.ts:798-813 | clearing the index removes exactly the rows below its two prefixes |
| ObjectIndex.PageOfIff | client/data/object_index.ts:765-768 | a page is its file without `.md` |
| ObjectIndex.CleanKeyBehind | client/data/object_index.ts:632-638 | behind `page@` stands the cleaned reference |
| ObjectIndex.CleanKeyIff | client/data/object_index.ts:632-638 | two references are cleaned alike if and only if they are the same, or one is the other behind `page@` |
| ObjectIndex.WrittenObjectIsFound | client/data/object_index.ts:426-440 | an object written is read back by its tag and reference, a link from its relation |
| ObjectRows.ProcessObject | client/data/object_index.ts:868-975 | the loops over tags and transform results compute the object's pass |
| ObjectRows.ProcessObjectsToKVs | client/data/object_index.ts:856-987 | the loop over the work list makes the rows of the passes, in order |
| ObjectRows.PassKeepsRef | client/data/object_index.ts:945-971 | transforms never change an object's reference; other results have other references and are queued |
| ObjectRows.StrictWritesAllTags | client/data/object_index.ts:880-925 | when validation errors throw, an object that gets through is written under all its tags |
| ObjectRows.PassOfChain | client/data/object_index.ts:868-975 | an object that goes through a chain of values, one for each tag (unchanged without results, else the last result with its reference), ends as the last one and is written under the tags for which its value was valid |
| ObjectRows.ChainOfPass | client/data/object_index.ts:868-975 | a pass that does not throw has such a chain |
| ObjectRows.WholePassTakesAllTags | client/data/object_index.ts:868-975 | a whole pass takes the object's own tag first, then all its other tags |
| ObjectRows.ChainMakes | client/data/object_index.ts:945-971 | a pass queues exactly the other objects that the transforms make of the values in its chain |
| ObjectRows.OthersConcat | client/data/object_index.ts:945-971 | in the order in which they were made |
| ObjectRows.RowsAreFinalValues | client/data/object_index.ts:856-987 | after any number of turns, the rows are exactly the final values of the processed objects under their tags, in the order of processing; no object given or made by a transform is forgotten, and nothing else is processed |
| ObjectRows.GivenComeFirst | client/data/object_index.ts:856-987 | the objects given are processed first, in their order |
| ObjectRows.ReadBackIsFirstWritten | client/data/object_index.ts:818-828 | after any number of turns, what is read back is the final form of the first processed object written under that tag and cleaned reference |
| ObjectRows.IndexedObjectsAreFound | client/data/object_index.ts:818-828 | once the work list is done and stored, every object given is read back in its final form under each of its tags, if no two objects with one tag have the same reference or one that is the other behind `page@` |
| ObjectRows.IndexedObjectIsFoundIff | client/data/object_index.ts:818-828 | in general: exactly if the first object written under that tag and cleaned reference has the same final form |
| ObjectRows.EmptyTransformsWriteIff | client/data/object_index.ts:880-971 | an object whose transforms all return no objects is written, unchanged, under exactly the tags it is valid for |
| ObjectRows.EmptyTransformStillIndexes | client/data/object_index.ts:945-971 | for instance, an object with one such tag gets its row |
| Reindex.StepKeepsInv | client/data/object_index.ts:444-618 | while the index is not whole, a window that starts now takes the reindex up; every storage call keeps this, but for a manual command at a current version and the stray writes of the first-index handler |
| Reindex.NoEarlyReturnWhileUnbuilt | client/data/object_index.ts:444-618 | through any interruptions, restarts, windows and handler writes that are not stray, no early return is taken while the index is cleared but not rebuilt |
| Reindex.WindowGoesOnIff | client/data/object_index.ts:444-469 | a window goes on to a reindex if and only if the stored version is below 14, or there is none and a reindex was left unfinished |
| Reindex.WindowBeginsIff | client/data/object_index.ts:479-507 | and with the lock it begins one if and only if the version is still below 14 or missing |
| Reindex.HandlerWriteIsFatalIff | client/data/object_index.ts:125-175 | after a write of the first-index handler, an early return from an index that is not whole becomes possible, if and only if the write is stray |
| Reindex.HandlerHidesReindex | client/data/object_index.ts:614-618 | a concrete run in which it does |
| Reindex.InterruptedReindexResumesIff | client/data/object_index.ts:526-538 | a manual reindex interrupted before the version key is gone is resumed exactly if the stored version was not current |
| Reindex.ReindexCompletes | client/data/object_index.ts:526-618 | without interruption the index ends whole, current and unmarked |
| Reindex.RoundsConverge | client/data/object_index.ts:125-175 | at most as many rounds as pages first found missing; complete only if nothing is missing or a round did not shrink the set |
| Reindex.InitialIndex.Begin | client/data/object_index.ts:125-129 | a call goes on only if the handler is armed and no other call is under way |
| Reindex.InitialIndex.Finish | client/data/object_index.ts:125-175 | one round: queue the missing pages again, or complete the index |
| Reindex.InitialIndex.End | client/data/object_index.ts:172-174 | after the writes the guard is free again |
| MessageIds.IdsAreUnique | client/data/mq.datastore.ts:188-196 | ids are equal exactly if clock and number are |
| MessageIds.LexDash | client/data/mq.datastore.ts:188-196 | a clock that another one extends comes first, as the dash comes before the digits |
| MessageIds.LaterIdIff | client/data/mq.datastore.ts:188-196 | for all clocks and numbers, exactly when a later message has a later id |
| MessageIds.LaterIdUpToMillion | client/data/mq.datastore.ts:188-196 | up to number 999999 the order of ids is that of the clocks, as strings; with clocks of one digit count it is send order |
| MessageIds.MillionthIdIsEarlier | client/data/mq.datastore.ts:188-196 | the next number breaks it |
| MessageQueue.DataStoreMQ.QueueWorker | client/data/mq.datastore.ts:133-145 | a worker waits at the end of its queue's line |
| MessageQueue.DataStoreMQ.WakeupWorker | client/data/mq.datastore.ts:151-162 | the worker that has waited longest is woken, and no other line changes |
| MessageQueue.DataStoreMQ.RemoveQueuedWorker | client/data/mq.datastore.ts:164-176 | one worker leaves the line, the others keep their order |
| MessageQueue.DataStoreMQ.BatchSend | client/data/mq.datastore.ts:184-201 | new messages under new ids join the queue, and a waiting worker is woken |
| MessageQueue.DataStoreMQ.Poll | client/data/mq.datastore.ts:207-242 | the first messages in id order move to processing |
| MessageQueue.DataStoreMQ.BatchAck | client/data/mq.datastore.ts:265-272 | acknowledged messages leave processing |
| MessageQueue.DataStoreMQ.RenewLease | client/data/mq.datastore.ts:278-292 | leases still held get the new time |
| MessageQueue.DataStoreMQ.RequeueTimeouts | client/data/mq.datastore.ts:294-355 | expired messages go back to the queue with one more retry, or to the dead-letter queue, or are dropped |
| MessageQueue.PollTakesOldestFirst | client/data/mq.datastore.ts:207-242 | a polled message never leaves an older one behind |
| MessageQueue.PollTakesAsManyAsItMay | client/data/mq.datastore.ts:207-242 | a poll takes as many messages as it may, at least one if there is one |
| MessageQueue.StepKeepsInv | client/data/mq.datastore.ts:184-355 | each operation keeps every message in one place with its body and retries |
| MessageQueue.NothingSentIsFine | client/data/mq.datastore.ts:15-36 | an empty queue has these properties |
| MessageQueue.RunKeepsInv | client/data/mq.datastore.ts:184-355 | in every run each message sent is in exactly one of queue, processing, dead-letter queue, acknowledged, dropped; retries count requeues and stay within the limit |
| MessageFates.RunFollowsFates | client/data/mq.datastore.ts:184-355 | over every run from nothing, each message is where its own life puts it (queued, leased, acknowledged, given up), with the time of its lease and the number of its time-outs |
| MessageFates.StaysLeasedIff | client/data/mq.datastore.ts:278-309 | a message polled, and renewed or not, stays in processing when time-outs are requeued if and only if its lease began no longer ago than the timeout |
| QueueSteps.NothingIsLost | client/data/mq.datastore.ts:184-292 | without requeues: however sends, acks, renewals and polls overlap and wherever they stop, a message sent and not acknowledged is queued or in processing, with its body |
| QueueSteps.RunKeepsBodies | client/data/mq.datastore.ts:184-355 | in every run no row anywhere is anything but what was sent |
| QueueSteps.CarefulRunKeeps | client/data/mq.datastore.ts:184-355 | in every run a message sent is kept, with its body, unless a requeue takes it that a poll has written and not yet deleted, or a requeue that holds it is stopped |
| QueueSteps.StepLosesIff | client/data/mq.datastore.ts:207-355 | in any state, the two kinds of step after which a message is nowhere, and no other |
| QueueSteps.AckIsFinalIff | client/data/mq.datastore.ts:184-355 | an acknowledged message can never be worked on again, if and only if it is not queued any more and no poll, renewal or requeue has it in its hands |
| QueueSteps.DoneMeansAckedOrDropped | client/data/mq.datastore.ts:245-355 | a message is done with only by an acknowledgement, or by being dropped after too many tries |
| QueueSteps.RequeueIsFatalIff | client/data/mq.datastore.ts:207-355 | after a requeue has taken rows, steps that are not careless can lose a message, if and only if it took the message while a poll was about to delete it, and the message is neither dead-lettered nor done |
| QueueSteps.StopIsFatalIff | client/data/mq.datastore.ts:313-354 | a stop can ever lose a message, if and only if a requeue held it and it was nowhere else |
| QueueSteps.RequeueCanLose | client/data/mq.datastore.ts:313-354 | both happen |
| ContentManager.ContentManager.AdoptOwnWriteAsBase | client/content_manager.ts:227-242 | the text written becomes the base unless it is older |
| ContentManager.ContentManager.ApplyExternalPatches | client/content_manager.ts:596-639 | dropped when older than what was seen, withheld, or made the base; reports whether the buffer changed |
| ContentManager.ContentManager.BeginWait | client/content_manager.ts:705-713 | captures the write that is pending, if any |
| ContentManager.ContentManager.ResumeReload | client/content_manager.ts:714-726 | applies the update once that write has ended |
| ContentManager.ContentManager.SettlePendingExternal | client/content_manager.ts:679-703 | a withheld update is merged, or given up for the divergent base |
| ContentManager.ContentManager.BeginSave | client/content_manager.ts:138-165 | settles, and writes the settled buffer or waits for the divergent base |
| ContentManager.ContentManager.ContinueSave | client/content_manager.ts:139-165 | writes once the divergent base is declared |
| ContentManager.ContentManager.FinishWrite | client/content_manager.ts:157-170 | adopts the text written and clears the pending write if it is still this one |
| ContentManager.ContentManager.FailWrite | client/content_manager.ts:157-170 | a failed write leaves the base alone |
| ContentManager.StepKeepsOrderIff | client/content_manager.ts:596-703 | from known timestamps in order, a step keeps base and withheld update so if and only if it is neither an update without a timestamp nor a write that has none or is newer than the withheld update; then the base never goes back |
| ContentManager.BaseMovesForward | client/content_manager.ts:232-242 | the base changes only to a write, an update or the withheld update, none older than all seen |
| ContentManager.RunKeepsOrderIff | client/content_manager.ts:138-242 | the same over every run |
| ContentManager.RunNeverGoesBack | client/content_manager.ts:596-713 | over every run without such steps the base does not go back and a withheld update is not older |
| ContentManager.StepTracksIff | client/content_manager.ts:157-170 | the pending write is the one started last exactly until it overtakes another |
| ContentManager.WaitEndsAloneIff | client/content_manager.ts:705-737 | a reload that waited for the pending write resumes with no write in flight and none overtaken, if and only if no save started a write during the wait and the write waited for overtakes none |
| ContentManager.RunKeepsLastIff | client/content_manager.ts:138-170 | while a write stays in flight and none overtakes, the pending write stays the same if and only if no save starts one |
| ContentManager.CalmRunsStayOrdered | client/content_manager.ts:138-242 | in runs in which no save starts while a reload waits, no update lands within the start of a save, no write overtakes, and all timestamps are known, base and withheld update stay in order |
| ContentManager.SaveDuringWait | client/content_manager.ts:705-737 | a save that starts during the wait can make the base go back |
| ContentManager.UnknownTimestampForgets | client/content_manager.ts:603-633 | so can an update without a timestamp |
| ContentHistory.HighWaterFallsIff | client/content_manager.ts:596-703 | the newest timestamp seen falls only where a save gives up an update newer than the base |
| ContentHistory.UpdateCountsIff | client/content_manager.ts:596-639 | an update below that mark changes nothing; any other is withheld, or becomes the base, with the merge in the buffer |
| ContentHistory.RunDescends | client/content_manager.ts:131-170 | over every run, the base of the next merge, declared or not, is a text whose changes the buffer contains, and a write in flight carries the buffer as it was when it began |
| ContentHistory.BaseIsNewest | client/content_manager.ts:232-242 | over every run that nothing disturbs, the base is the newest of all texts merged in or written, and the last of equally new ones |
| ContentHistory.BufferIsLastGiven | client/content_manager.ts:620-703 | over every run, the buffer shows what was typed or merged last |
| ContentHistory.SavedIsBase | client/content_manager.ts:151-170 | when a write comes back to a buffer left alone, the base is the buffer's text, unless it is newer by then |
| ContentHistory.CleanShowsNewest | client/content_manager.ts:596-639 | without local edits and saves, the buffer shows the newest text from disk throughout |
| RealtimeEvents.StepKeepsGood | client/realtime_events.ts:121-256 | each callback keeps one flush, one link, the exact back-off, the latest event per name, and no event flushed twice; stopping closes everything |
| RealtimeEvents.SetPendingExactly | client/realtime_events.ts:190-192 | a known name keeps its place among the pending events, a new one goes to the end |
| RealtimeEvents.EveryRunIsGood | client/realtime_events.ts:85-256 | the same in every run between start and stop |
| RealtimeEvents.NextDelay | client/realtime_events.ts:164-187 | after `k` supported failures in a row the next delay is `min(1000 * 2^k, 30000)` |
| RealtimeEvents.FirstDelay | client/realtime_events.ts:164-187 | before the first connection, a failure that closes the source is retried after a minute and makes no later delay longer |
| RealtimeEvents.Reconnects | client/realtime_events.ts:121-137 | a retry, or being online again while one is due, opens one source and nothing else |
| RealtimeEvents.StoppedStaysDown | client/realtime_events.ts:92-106 | a stopped client opens nothing and flushes nothing new |
| RealtimeEvents.RestartIsGoodIff | client/realtime_events.ts:85-106 | starting again is safe exactly if no flush runs and no event waits |
| RealtimeEvents.RestartCanOverlap | client/realtime_events.ts:85-106 | two flushes at once, by stopping during one |
| RealtimeEvents.Flush | client/realtime_events.ts:210-256 | notes the origin of each change that has one, in order; one sync and one list for a flood, else exactly the calls due, event by event, each sync before its probe; whether a service worker is active is asked before each sync |
| RealtimeEvents.EventReachedIff | client/realtime_events.ts:210-256 | exactly which flushed events are looked at when calls fail |
| RealtimeEvents.RealtimeClient.Start | client/realtime_events.ts:85-90 | opens one source |
| RealtimeEvents.RealtimeClient.Stop | client/realtime_events.ts:92-106 | closes the source and both timers |
| RealtimeEvents.RealtimeClient.OnOpen | client/realtime_events.ts:143-151 | resets the delay, and has the list fetched exactly after a gap |
| RealtimeEvents.RealtimeClient.RetryTimerFires | client/realtime_events.ts:131-137 | opens a source in place of the timer |
| RealtimeEvents.RealtimeClient.HandleEvent | client/realtime_events.ts:190-200 | one pending event per name, and a flush scheduled if none is |
| RealtimeEvents.RealtimeClient.OnError | client/realtime_events.ts:164-187 | closes the source and schedules the retry |
| RealtimeEvents.RealtimeClient.OnOnline | client/realtime_events.ts:121-129 | reconnects only where a retry is due |
| RealtimeEvents.RealtimeClient.BeginFlush | client/realtime_events.ts:202-212 | takes all pending events |
| RealtimeEvents.RealtimeClient.EndFlush | client/realtime_events.ts:202-208 | schedules the next flush for what came in meanwhile |
| Semaphore.StepKeepsBoundsIff | ai-sidecar/src/concurrency.ts:28-42 | the exact moment at which a call breaks the bounds |
| Semaphore.RunBoundedIff | ai-sidecar/src/concurrency.ts:28-42 | the same over every run |
| Semaphore.PoliteRun | ai-sidecar/src/concurrency.ts:28-42 | when calls arrive only after woken waiters have resumed: the limit holds, no wake-up is lost, and accepted calls start once each in order |
| Semaphore.ArrivalIff | ai-sidecar/src/concurrency.ts:28-36 | such a call is refused if and only if all places are taken and the queue is full, and starts at once if and only if a place is free |
| Semaphore.RunningAreStarted | ai-sidecar/src/concurrency.ts:28-42 | in any run, those running are those started and not finished |
| Semaphore.CallInBetween | ai-sidecar/src/concurrency.ts:33-40 | otherwise one call too many can run |
| Semaphore.Semaphore.Enter | ai-sidecar/src/concurrency.ts:28-36 | starts, waits or is refused |
| Semaphore.Semaphore.Resumed | ai-sidecar/src/concurrency.ts:33-36 | a woken waiter takes the place given to it |
| Semaphore.Semaphore.Leave | ai-sidecar/src/concurrency.ts:37-42 | gives the place to the first waiter |
| HtmlTags.MatchHtmlTagPairs | client/codemirror/html_element.ts:65-92 | the loop with `splice` computes the matching |
| HtmlTags.MatchingIsClassic | client/codemirror/html_element.ts:65-92 | per tag name it is classic bracket matching on that name's own stack |
| HtmlTags.SpliceIsPop | client/codemirror/html_element.ts:78-84 | taking the topmost entry of a name out of the mixed stack pops that name's stack and leaves the others |
| HtmlTags.EachTagOnce | client/codemirror/html_element.ts:65-92 | each tag is in at most one pair, of an opener and a later closer of the same name, case ignored |
| HtmlTags.NoTagDropped | client/codemirror/html_element.ts:65-92 | every opener is in a pair or stays open, and the self-closing tags are listed in order |
| HtmlTags.SameNameIff | client/codemirror/html_element.ts:80 | names match if and only if they are the same letter by letter, capital or not |
| HtmlTags.PairsNestPerfectly | client/codemirror/html_element.ts:65-92 | same-name tags strictly between a pair are matched among themselves |
| HtmlTags.ClosersFindTheirOpener | client/codemirror/html_element.ts:65-92 | no closer is left out behind an opener of its name that stays unmatched |
| ListNumbers.RenumberList | client/codemirror/markdown_enter.ts:144-170 | the changes shift exactly the run behind the item, and nothing else |
| ListNumbers.InRunIff | client/codemirror/markdown_enter.ts:150-169 | the run is the longest stretch in which each number is the item's place |
| ListNumbers.InsertThenRemoveIff | client/codemirror/markdown_enter.ts:223-246 | adding an item and taking it back is the identity unless the next item is exactly one past the run |
| ListNumbers.InsertKeepsConsecutive | client/codemirror/markdown_enter.ts:265-269 | a list without gaps stays one |
| ConfigPaths.LookupAfterPut | client/config.ts:324-355 | what every path holds after a write |
| ConfigPaths.PutTwice | client/config.ts:208-216 | the last write wins |
| ConfigPaths.PutBack | client/config.ts:170-216 | writing back what is read changes nothing exactly if the path exists |
| ConfigPaths.Config.HasPath | client/config.ts:258-268 | whether the path exists |
| ConfigPaths.Config.Get | client/config.ts:170-180 | the value, or the default where there is none |
| ConfigPaths.Config.Set | client/config.ts:208-223 | the value is put and the defaults below it are filled in, whatever the recursion between the two methods |
| ConfigPaths.WrittenHolds | client/config.ts:208-223 | after a write, what was put is there where no default lies below, other paths are as they were, and with a typed schema every default exists |
| ConfigPaths.Config.ApplySchemaDefaults | client/config.ts:151-162 | terminates, and sets each missing default once |
| ConfigPaths.FillHasDefaults | client/config.ts:147-162 | afterwards every default's path exists, and no path is gone |
| ConfigPaths.FillTwice | client/config.ts:147-162 | filling again changes nothing |
| ConfigPaths.FillKeeps | client/config.ts:147-162 | a value above no default is untouched |
| ConfigPaths.FillWritesDefault | client/config.ts:147-162 | a path that was missing gets the value of its default, if no default above brings one and none lies below |
| ConfigPaths.FillElsewhere | client/config.ts:147-162 | paths elsewhere are untouched |
| ConfigPaths.LeafStaysIff | client/config.ts:342-346 | a value that is not an object stays exactly unless a default lies below it |
| ConfigPaths.LeafIsReplaced | client/config.ts:342-346 | a concrete value is replaced by an object |

## Left out

- ExternalMerge.ComputeExternalChanges: says nothing of the merged text when the sides collide and deferring is switched off, because `ChangeSet.map` is assumed only on sides that keep apart.
- ConflictResolution.ResolveKeepsOthers: a hunk that opens or closes a fence, in a document with git-form starts, is covered line by line in `ConflictFences.KeepsOthersIff` only.
- ConflictPrinting.PrintedIsFound: what an open fence in front does to git-form hunks behind is not stated.
- GitConflicts.GitPrintedIsFound: sections hold no line that opens a fence, and no fence is open in front.
- ConfigPaths.FillWritesDefault: what a path gets that lies in the value of a default above it is not stated.
- KvStores.IndexedDbKv.BatchSet: a batch whose later key cannot be built is taken to commit the puts already made, as the transaction is not aborted.
- EncryptedStore.EncryptedKv.Query: the order of the rows is that of the encrypted keys and is not stated.
- ObjectIndex.ObjectIndex.ClearIndex: the memoized scans are only known to be dropped; a scan that overlaps a write may memoize old rows, so freshness is not claimed.
- ObjectRows.ProcessObjectsToKVs: bounded by a number of turns, because transforms may queue objects without end; a transform that changes its argument in place is not modelled.
- ObjectRows.IndexedObjectsAreFound: not for the tag `link`, which is read from relations; the projection of relations to links is left out.
- Reindex.NoEarlyReturnWhileUnbuilt: the page work behind the queue is one step, and runs hold neither a manual command at a current version nor a stray handler write (see the exact conditions above).
- MessageQueue.DataStoreMQ.RequeueTimeouts: the Lua filter on timestamps is a plain filter; the queue's three key prefixes are three maps.
- RealtimeEvents.EveryRunIsGood: for one span from start to stop; the heartbeat throttle is left out.
- RealtimeEvents.Flush: the arguments of `syncFile` other than the name are left out.
- ContentManager.StepKeepsOrderIff: one page; navigation, read-only pages and document editors are left out, and the merge outcome is a parameter.
- Semaphore.Semaphore.Resumed: the microtask queue is a list of woken waiters.
- HtmlTags.MatchHtmlTagPairs: tags come parsed; lower-casing is that of ASCII, which tag names are.
- ListNumbers.RenumberList: a list is a sequence of sibling nodes with numbers; the syntax tree, text positions and numbers longer than the ten characters read are left out.
- ConfigPaths.Config.Set: nested objects are values, so aliasing and names on the object prototype are left out, as is validation, which throws after the write; paths have at least one key.
- ConfigPaths.Config.ApplySchemaDefaults: schemas are fixed; building the schema tree in `define` is left out.
- Diff, ChangeSet and Lezer internals, JSON schema validation and cryptography: assumed by contract.
- `flushQueue`, `flushDLQ`, queue statistics and the polling loop of the queue: only easy members.
- The sync engine and the server's merge: not part of this model; diff3's chunks are taken as described in `client/external_merge.ts`.
- Editor widgets, HTTP, the service worker, timers and processes: steps or parameters only.
- Tab reducer, action buttons, presence markers, profile and URL helpers: easy, or about hidden editor history.
