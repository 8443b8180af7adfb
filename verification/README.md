# Karume verification model

A Dafny model of the parts of the Karume repository whose correctness depends on more than one function:
the fetch and cache layer of `@karume/hub`, and three small algorithms beside it (comment cutting for the
translation check, the playground's serving table, the scoring windows of the language-model baseline).

`dafny verify dfyconfig.toml` checks the whole project.

## How it is modelled

- **Paced fetch** (`ByteAdmission.dfy`, `FetchAssets.dfy`, `FetchErrors.dfy`). The admission object is a class;
  one call of the fetch is a step system whose events are the continuations the JavaScript event loop can
  run: a wake-up of the dispatch loop, the start of a fetch, a read that succeeds or fails, a fetch that
  settles, a cancellation, the return. Every schedule of these events is covered.
- **Warm-up pool** (`Prefetch.dfy`). Up to four workers over one shared counter, in the same style.
- **Container block source** (`ContainerSource.dfy`). The memo of read plans and the one-slot cache of full
  reads, under every interleaving of reads, settlements and failure handlers.

  In these three files the classes `FetchCall`, `PrefetchPool` and `BlockSource` hold the variables of the
  source's closures. Each method is one continuation, and its contract equates the new fields with one step
  of the step system, so that the theorems over runs of steps are theorems about the classes. The table
  below lists the theorems.
- **File-backed cache** (`EntryFraming.dfy`, `NodeCache.dfy`). Directory, inodes and what of them has reached
  the disk; writers between temporary file and rename, readers holding an inode, deletes, and a power loss
  that may bring an earlier directory back.
- **Manifest** (`FileRefs.dfy`, `Manifest.dfy`, `AcceptedManifests.dfy`, `ManifestText.dfy`,
  `ManifestRoundTrip.dfy`, `ManifestAcceptance.dfy`, `ManifestRefusal.dfy`). The parser threads the table of
  references it has seen through the whole tree. `ManifestText.dfy` says, without the parser, when a JSON value
  says a manifest; what is accepted, what is returned and with which kind everything else is refused are
  stated against it.
- **Selections and inventory** (`Resolve.dfy`, `Inventory.dfy`, `Eviction.dfy`, `LabelClash.dfy`). An accepted
  manifest resolves every declared selection; eviction deletes exactly what nothing complete uses, and breaks
  only what it reports.
- **Progress** (`Progress.dfy`), **comments and cuts** (`CommentScanner.dfy`, `TemplateText.dfy`,
  `CutLoop.dfy`, `SkeletonText.dfy`), **serving table** (`ServingTable.dfy`), **scoring windows**
  (`ScoringWindows.dfy`).

A model's functions follow the source's code. Where a theorem could be read off them, it is stated on something
else: the schedule of a run, the characters of a text, what the sources hold, or the fields of a JSON value.

`Wrappers.dfy` and `JsMap.dfy` hold the option and result types and JavaScript's insertion-ordered map.

## What was found on the way

- `openEntry` reads the header with a single read. A short read that stops before the newline is reported as
  a corrupt entry although the file is whole (`EntryFraming.OpenPrinted` gives the exact condition,
  `NodeCache.RefusedIff` says a reader is refused in no other case).
- A cancelled `fetchAssets` call need not throw the caller's reason, although the signal was first aborted
  with it (`FetchAssets.CancelledCallMayThrowOtherReason`). It throws something else exactly when the caller
  cancelled before the first failed fetch settled and that fetch ended by a cause foreign to the
  cancellation: its source rejected the aborted read with another error, or it had failed before the cancel
  and was still to settle (`FetchAssets.ThrownIsFirstAbortIff`). Sources that reject aborted reads with the
  signal's reason rule that out (`FetchAssets.HonouredCancellationIsThrown`).
- The identity key of a file is unambiguous only because of the path and repo allowlists
  (`FileRefs.KeyAmbiguousWithoutAllowlist`).
- The label `<model>/<quant>` does not determine the selection. Two selections share a label exactly when one
  comes from the other by moving a piece of the quant name that ends before a slash over to the model name
  (`Inventory.LabelsClashIff`). An accepted manifest can declare two such selections
  (`LabelClash.AcceptedLabelsCanClash`), and the reports that name selections by label then name both by one
  text. Without a slash in the model names it cannot happen (`Inventory.LabelsAreClear`).
- Scanning a template in pieces marks and carries what scanning it whole does, whatever comes next, exactly
  when the piece does not end in a line comment, in code after a slash or a colon, or in a block comment after
  a star that could begin its end (`CommentScanner.SeamIff`).

## Model

| member | source | states |
|---|---|---|
| ByteBudget.ByteAdmission.Attempt | packages/hub/src/concurrency.ts:43-50 | one check of the budget: the request is admitted and charged exactly when nothing is in flight or it fits beside what is; otherwise its callback takes the single waiter slot |
| ByteBudget.ByteAdmission.Release | packages/hub/src/concurrency.ts:51-56 | a release returns the bytes, empties the slot and says whether a waiter resumes |
| FetchAssets.NoLostWakeup | packages/hub/src/concurrency.ts:39-58 | in every reachable state, a parked dispatch loop has its callback in the slot and some started fetch of positive size has not released |
| FetchAssets.SettlementWakes | packages/hub/src/concurrency.ts:39-58 | over every run in which the parked loop does not check the budget again, it is woken exactly when some fetch settled meanwhile, and it stays woken |
| FetchAssets.WaitsOnlyForBudget | packages/hub/src/concurrency.ts:39-58 | in every reachable state, a parked dispatch loop waits for the budget only: something is in flight, and what is held and the next target together exceed the budget |
| FetchAssets.NextStep | packages/hub/src/fetch.ts:341-351 | no deadlock: until the call returned, some continuation beside a cancellation can run |
| FetchAssets.StepShrinksMeasure | packages/hub/src/fetch.ts:326-351 | every continuation shrinks the weight of remaining targets, running fetches and dispatch phase |
| FetchAssets.EveryScheduleReturns | packages/hub/src/fetch.ts:296-364 | every schedule has at most 4n + 4 steps and can only stop by having returned |
| FetchAssets.BudgetSafety | packages/hub/src/concurrency.ts:39-58 | in every reachable state inFlight is the sum of the sizes admitted and not released, and above the budget at most one fetch of positive size is in flight |
| FetchAssets.DispatchOrder | packages/hub/src/fetch.ts:341-347 | the admitted targets are always a prefix of the list and reads start in its order, once each |
| FetchAssets.NoReadAfterAbort | packages/hub/src/fetch.ts:296-344 | after a failure or cancellation no further file is read, and at most the target already waited for is dispatched |
| FetchAssets.OutcomeOfCall | packages/hub/src/fetch.ts:351-364 | at return every dispatched fetch has settled; the call succeeds exactly when nothing failed and nothing was cancelled, each target was then read once in order and every key has its own bytes; otherwise the first failure, or else the caller's reason, is thrown |
| FetchAssets.OutcomeIsScheduled | packages/hub/src/fetch.ts:296-364 | read off the schedule: the call succeeds exactly when it was not cancelled and every source was found, handed its bytes over and handed over tight bytes; otherwise what it throws is what the first event that disturbed it stands for |
| FetchAssets.ThrownIsFirstAbort | packages/hub/src/fetch.ts:356-361 | a call that is never cancelled throws the first abort reason |
| FetchAssets.ThrownIsFirstAbortIff | packages/hub/src/fetch.ts:356-364 | of every call that throws: the thrown value is not the first abort reason exactly when the caller cancelled before the first failed fetch settled and that fetch ended by a cause foreign to the cancellation, both read off the schedule |
| FetchAssets.HonouredCancellationIsThrown | packages/hub/src/fetch.ts:356-364 | if every source rejects an aborted read with the signal's reason and nothing failed before the cancellation, a cancelled call throws the caller's reason, and a call that throws was cancelled |
| FetchAssets.CancelledCallMayThrowOtherReason | packages/hub/src/fetch.ts:356-364 | a run in which the caller cancels first and another error is thrown |
| FetchAssets.AssembleTable | packages/hub/src/fetch.ts:367-377 | the result table: every requested key with the bytes of its own file, and the internal error exactly when bytes are missing |
| FetchAssets.TableIsComplete | packages/hub/src/fetch.ts:276-378 | after a successful call over the deduplicated files the table is complete for every requested key |
| Prefetch.PreparePhase | packages/hub/src/fetch.ts:385-413 | an empty list and duplicate keys are refused, the first reference whose key repeats is named |
| Prefetch.ClaimedOnce | packages/hub/src/fetch.ts:425-521 | min(4, n) workers, none of which leaves before all references are claimed; every reference below the shared counter was claimed by exactly one worker, which has at most one in hand |
| Prefetch.OutcomeOfCall | packages/hub/src/fetch.ts:500-521 | success gives exactly one completion per reference; otherwise the first failure is thrown |
| Prefetch.WarmsWhatItClaims | packages/hub/src/fetch.ts:438-510 | read off the schedule: which references were asked of their source, which were completed, and in which order |
| Prefetch.OutcomeIsScheduled | packages/hub/src/fetch.ts:438-521 | read off the schedule: the call succeeds exactly when there was no cancellation, no unreachable source, no failed warm-up and no source without phase 1 beside a session that has it; otherwise it throws what the first reported failure stands for, wrapped or not |
| Prefetch.StopsAfterAbort | packages/hub/src/fetch.ts:438-510 | after an abort each worker claims at most one more reference and no source is touched for it |
| Prefetch.EveryScheduleReturns | packages/hub/src/fetch.ts:425-521 | every schedule of the pool is finite and ends by returning |
| ContainerSource.ReadsRefineSlicing | packages/hub/src/container.ts:147-257 | in every run a resolved read equals the slice of its own part's bytes |
| ContainerSource.SettledReadIsExact | packages/hub/src/container.ts:147-257 | over every run a settled read is rejected exactly when its range is not in its part, its plan was rejected, its own ranged read failed or the full read it joined was rejected, and resolved otherwise, all read off the schedule |
| ContainerSource.PlanIsShared | packages/hub/src/container.ts:147-168 | a part is opened once for all its reads, and again only after a failed opening was handled |
| ContainerSource.FailuresAreNotServedLater | packages/hub/src/container.ts:147-223 | an attempt that was rejected before a read was issued is never joined by that read |
| ContainerSource.JoinedFullReadIsFresh | packages/hub/src/container.ts:200-223 | the full read that a resuming read joins is of the read's own part and was not rejected up to that moment |
| ContainerSource.HandlerForgetsOwnPlan | packages/hub/src/container.ts:147-168 | a failed plan's handler removes its own attempt from the memo, so it forgets no newer one |
| ContainerSource.SlotChangesIffDisplaced | packages/hub/src/container.ts:200-223 | a taken slot changes exactly when its own attempt is handled as failed or a scan of another part takes it over |
| ContainerSource.EvictedFailureKeepsSuccessor | packages/hub/src/container.ts:200-223 | the failure of an attempt that is not the one in the slot leaves the slot as it is, also for a successor of the same part; its own failure clears it |
| ContainerSource.SlotSurvives | packages/hub/src/container.ts:200-223 | over every run without such an event the attempt stays in the slot, whatever other attempts settle or fail |
| ContainerSource.FullReadIsShared | packages/hub/src/container.ts:200-223 | over every run in which the slot stays on one part no further full read starts, and every read of that part that comes to need a full read joins the one in the slot |
| ContainerSource.NextStep | packages/hub/src/container.ts:229-257 | while a read is unsettled some step can run |
| ContainerSource.EveryReadSettles | packages/hub/src/container.ts:147-257 | without new reads every schedule is finite and ends with every read settled |
| EntryFraming.OpenPrinted | packages/hub/node.ts:213-245 | opening a printed entry gives its header and the body's offset exactly when the single head read reaches the newline |
| EntryFraming.OpensWithinLimit | packages/hub/node.ts:213-245 | with a full read of the head an entry opens exactly when its header line is within 64 KiB, with its own header and with the offset at which the rest is its body |
| EntryFraming.OpensIff | packages/hub/node.ts:213-245 | any file opens exactly when its first line was read to its end and is a header; the body starts after the newline |
| EntryFraming.WriteAll | packages/hub/node.ts:293-299 | all bytes are appended under any sequence of short writes; it fails exactly when a write does, after a prefix |
| EntryFraming.ReadFileRange | packages/hub/node.ts:95-123 | exactly the range under any sequence of short positive reads; too short exactly when the file is, failed exactly when a read is; the handle is closed on every exit |
| EntryFraming.BodyStream.Pull | packages/hub/node.ts:252-291 | one pull yields the next bytes of the body, ends it, or fails, each in exactly its own case; every answer but bytes closes the handle |
| EntryFraming.Drain | packages/hub/node.ts:252-291 | streaming to the end yields the whole body under any short positive reads, and fails only when a read does |
| NodeCache.EntriesAreWhole | packages/hub/node.ts:339-365 | after any interleaving, failure or power loss a named entry is the header and body of one completed put for its key |
| NodeCache.StepRefinesMap | packages/hub/node.ts:323-375 | every event is a step of a map of whole entries: only a rename, an unlink and a power loss change it |
| NodeCache.RunRefinesMap | packages/hub/node.ts:323-375 | over every run from an empty directory the cache answers like a map of whole entries on which only renames, unlinks and power losses act, the last bringing the newest or an earlier map back |
| NodeCache.FailedPutChangesNothing | packages/hub/node.ts:339-365 | over every run in which a put does not reach its rename, an entry that is another one afterwards was replaced or removed by an event that is not of this put |
| NodeCache.ReaderStreamsWhatItOpened | packages/hub/node.ts:252-291 | a reader streams the entry it opened to the end, whatever is put or deleted meanwhile |
| NodeCache.StreamingGoesOn | packages/hub/node.ts:252-291 | a reader that streams always has a pull it can make |
| NodeCache.OnePull | packages/hub/node.ts:252-291 | every pull appends at least one byte of the entry that was opened, up to a chunk, or at the end ends the stream with the whole body |
| NodeCache.StraysComeFromLosses | packages/hub/node.ts:339-365 | over every run, a temporary file outlives its put only after a power loss or a put that ended without removing it |
| NodeCache.RefusedIff | packages/hub/node.ts:213-245 | a reader is refused exactly when its head read stops before the newline |
| NodeCache.CacheDirectory.WriteEntry | packages/hub/node.ts:352-356 | header line, then the chunks, each written in full, then the sync; it fails exactly when a call or the body stream does |
| NodeCache.CacheDirectory.BeginPut | packages/hub/node.ts:343-351 | a put starts with a new temporary file next to the entry |
| NodeCache.CacheDirectory.CommitPut | packages/hub/node.ts:357-359 | the rename: the whole entry appears and the temporary file is gone |
| NodeCache.CacheDirectory.AbandonPut | packages/hub/node.ts:360-364 | a failed put removes its temporary file, unless that fails, and touches nothing else |
| NodeCache.CacheDirectory.Put | packages/hub/node.ts:339-365 | a put replaces the entry as a whole exactly when no call fails, and otherwise leaves every entry as it was; its temporary file stays only when removing it failed too |
| NodeCache.CacheDirectory.Delete | packages/hub/node.ts:366-375 | a delete removes the entry and says whether there was one, or fails and changes nothing |
| FileRefs.KeyInjective | packages/hub/src/manifest.ts:295-312 | for references that pass the allowlists the identity key is equal exactly when repo, revision and path are |
| FileRefs.KeyShape | packages/hub/src/manifest.ts:309-312 | the first @ of a key separates the repo of a cross-repo reference; an own reference has none |
| FileRefs.KeyAmbiguousWithoutAllowlist | packages/hub/src/manifest.ts:624-645 | without the path allowlist an own path can spell a cross-repo key |
| FileRefs.PathIff | packages/hub/src/manifest.ts:620-646 | the path allowlist, character by character: letters, digits, dots, underscores, hyphens and slashes, where no segment is empty or starts with a dot |
| FileRefs.UniqueProperties | packages/hub/src/fetch.ts:276-286 | deduplication loses no key, repeats none and adds no reference |
| FileRefs.UniqueKeepsOrder | packages/hub/src/inventory.ts:138-145 | deduplication picks the first occurrences, in order |
| FileRefs.UniqueRefs | packages/hub/src/inventory.ts:138-145 | the loop that fills the map by identity key |
| AcceptedManifests.ReadsBack | packages/hub/src/manifest.ts:738-774 | an object that says a reference is read exactly when the reference passes every check and its keys are known |
| AcceptedManifests.RecordLaw | packages/hub/src/manifest.ts:775-790 | recording fails exactly when the key is taken by a different reference, and otherwise returns the reference as it was written |
| AcceptedManifests.PartsKeep | packages/hub/src/manifest.ts:824-852 | every part read is good, within the part limit, empty only from index 1 on, and recorded in the shared table |
| AcceptedManifests.ContainerKeeps | packages/hub/src/manifest.ts:859-914 | an accepted container has 2 to 1024 parts of one origin and parts[0].size = 24 + graph + model |
| AcceptedManifests.MappingIsGood | packages/hub/src/manifest.ts:1028-1064 | an accepted quant maps exactly the weights names, each to a label its entry has |
| AcceptedManifests.SurveyIsExact | packages/hub/src/manifest.ts:567-604 | within the table limits nothing is cut off and the survey lists the declared labels |
| AcceptedManifests.LabelsAreExact | packages/hub/src/manifest.ts:1236-1288 | a model that was read lists exactly its own models, quants and dtypes as available |
| AcceptedManifests.AcceptedIsGood | packages/hub/src/manifest.ts:1309-1358 | every accepted manifest is good in all its parts, with one table for all references |
| AcceptedManifests.OneFilePerKey | packages/hub/src/manifest.ts:738-790 | wherever two references stand in an accepted manifest, equal keys mean the same file and the same reference |
| ManifestParser.RefScope.ParseRef | packages/hub/src/manifest.ts:738-790 | one reference against the shared table, as the specification says |
| ManifestParser.RefScope.ParseContainerParts | packages/hub/src/manifest.ts:824-852 | the part list in index order; the first bad part fails |
| ManifestParser.RefScope.ParseAssets | packages/hub/src/manifest.ts:1214-1234 | the asset table in declaration order; the first bad entry fails |
| ManifestParser.ReadQuantWeights | packages/hub/src/manifest.ts:1028-1064 | the two loops of the mapping check agree with the specification, error kinds included |
| ManifestText.RefBack | packages/hub/src/manifest.ts:738-790 | a good reference written as JSON is read back, whatever was seen before |
| ManifestText.ContainerBack | packages/hub/src/manifest.ts:859-914 | a good container written as JSON is read back |
| ManifestText.QuantBack | packages/hub/src/manifest.ts:1125-1153 | a good quant written as JSON is read back |
| ManifestText.PipelineBack | packages/hub/src/manifest.ts:1155-1172 | a pipeline name and major written as text are read back |
| ManifestText.WellFormedIff | packages/hub/src/manifest.ts:526-560 | the recursive scan for forbidden keys and depth says what holds of every path of names and indices into the text |
| ManifestText.TextIsAccepted | packages/hub/src/manifest.ts:1309-1358 | every text that says a manifest which passes the checks is accepted as that manifest |
| ManifestText.AcceptedSays | packages/hub/src/manifest.ts:1309-1358 | whatever is accepted says, level by level with the allowed names only and format karume/5, every field of what is returned |
| ManifestRoundTrip.WritableIsAccepted | packages/hub/src/manifest.ts:1309-1358 | a manifest that is good and has what its JSON form needs is accepted from that form and comes back unchanged |
| ManifestAcceptance.AcceptableIsAccepted | packages/hub/src/manifest.ts:1309-1358 | every acceptable manifest written as JSON is accepted and comes back unchanged |
| ManifestAcceptance.AcceptedIsAcceptable | packages/hub/src/manifest.ts:1309-1358 | whatever parsing returns is acceptable |
| ManifestAcceptance.ReturnsExactlyTheAcceptable | packages/hub/src/manifest.ts:1309-1358 | the manifests parsing can return are exactly the acceptable ones |
| ManifestAcceptance.AcceptsIff | packages/hub/src/manifest.ts:1309-1358 | a text is accepted as a manifest exactly when no path in it is too deep or forbidden, it says the manifest and the manifest passes the checks |
| ManifestAcceptance.ParsedReadsBack | packages/hub/src/manifest.ts:1309-1358 | an accepted manifest written down again parses to itself |
| ManifestRefusal.RefRefusal | packages/hub/src/manifest.ts:738-790 | which reference is refused and with which kind, the checks in their order |
| ManifestRefusal.DocumentRefusal | packages/hub/src/manifest.ts:796-815 | which document expectation is refused and with which kind |
| ManifestRefusal.PartRefusal | packages/hub/src/manifest.ts:824-852 | which part is refused and with which kind, by its index |
| ManifestRefusal.ItemsRefusal | packages/hub/src/manifest.ts:824-852 | a part list is refused exactly for its first part that is, after the parts before it were recorded |
| ManifestRefusal.ContainerRefusal | packages/hub/src/manifest.ts:859-914 | which container is refused and with which kind: names, documents, parts in order, then how they fit |
| ManifestRefusal.TableRefusal | packages/hub/src/manifest.ts:1214-1234 | which table is refused and with which kind: its size, then its first bad entry |
| ManifestRefusal.MappingRefusal | packages/hub/src/manifest.ts:1028-1064 | which mapping is refused and with which kind: its entries in order, then the names left out |
| ManifestRefusal.QuantRefusal | packages/hub/src/manifest.ts:1125-1153 | which quant is refused and with which kind |
| ManifestRefusal.PipelineIff | packages/hub/src/manifest.ts:1155-1172 | a pipeline is read exactly from a name, a slash and a major version without leading zeros |
| ManifestRefusal.ModelRefusal | packages/hub/src/manifest.ts:1236-1297 | which model is refused, with which kind and with the labels surveyed for it |
| ManifestRefusal.RootRefusal | packages/hub/src/manifest.ts:1309-1358 | which root is refused, with which kind and with which labels, the checks in their order |
| ManifestRefusal.SurveyLists | packages/hub/src/manifest.ts:567-604 | the labels a refusal lists, read off the text: the first names of each table that is an object |
| Resolve.SelectNames | packages/hub/src/resolve.ts:73-96 | the loop over the caller's names: unknown and repeated names fail, the rest is filtered in declaration order |
| Resolve.ResolvesIffDeclared | packages/hub/src/resolve.ts:107-153 | a selection resolves exactly when its names are declared and its weights are listed once each |
| Resolve.FailureLists | packages/hub/src/resolve.ts:107-153 | an unknown model lists the manifest's names, an unknown quant or a bad list of weights those of its model |
| Resolve.SelectsWhatIsAsked | packages/hub/src/resolve.ts:131-153 | the selection is of the model and quant asked for; it holds, in declaration order, for exactly the names asked for the container that the quant maps the name to, and all assets |
| Resolve.WeightsOrderIsIrrelevant | packages/hub/src/resolve.ts:73-96 | the order of the caller's weights does not change the result |
| Resolve.ListSelectionRefs | packages/hub/src/resolve.ts:168-181 | the loops that fold a selection into its file list |
| Resolve.FileListIsExact | packages/hub/src/resolve.ts:168-181 | the file list holds each file the selection needs exactly once and nothing else, in the order of the selection |
| Resolve.FilesInOrder | packages/hub/src/resolve.ts:168-181 | the file list follows the selection: containers in order, parts in order, then assets, and of every file the first place counts |
| Resolve.NarrowedNeedsLess | packages/hub/src/resolve.ts:131-181 | narrowing the weights narrows the files |
| Resolve.AcceptedResolves | packages/hub/src/resolve.ts:131-181 | for every accepted manifest every selection of declared names resolves to what was asked for, with consistent containers and a file list without duplicates or empty files |
| Inventory.SameRefSetIsSetEquality | packages/hub/src/inventory.ts:185-189 | for duplicate-free lists equal counts and inclusion are equality of the file sets |
| Inventory.SelectionsExist | packages/hub/src/inventory.ts:155-158 | the list of pairs holds exactly the declared (model, quant) pairs |
| Inventory.ListProtectors | packages/hub/src/inventory.ts:202-224 | the loop over the protect list, with its errors |
| Eviction.ListedProtectorsAre | packages/hub/src/inventory.ts:202-224 | with a protect list the protectors are what its entries beside the target resolve to, one for each label and file list, the last that resolves to it, in the order of the first; the first entry that does not resolve fails the call |
| Inventory.NoProtectorIsLost | packages/hub/src/inventory.ts:202-224 | every entry of the protect list but the target keeps a protector with its label and files |
| Inventory.LabelsClashIff | packages/hub/src/inventory.ts:129-132 | two different selections have one label exactly when one is the other with a piece of its name moved over a slash |
| Inventory.LabelsAreClear | packages/hub/src/inventory.ts:129-132 | when no model name holds a slash, the label determines the declared selection |
| LabelClash.AcceptedLabelsCanClash | packages/hub/src/inventory.ts:129-132 | an accepted manifest with two declared selections of one label |
| Inventory.OneOriginPerText | packages/hub/src/inventory.ts:234-262 | references grouped under one text have one origin |
| Inventory.QueryInventory | packages/hub/src/inventory.ts:234-262 | one query per origin answers for every reference with its own origin's answer |
| Inventory.ListCachedAssets | packages/hub/src/inventory.ts:277-289 | cached and missing, each in file-list order |
| Inventory.CachedAre | packages/hub/src/inventory.ts:277-289 | cached holds exactly the files that can be read and missing exactly the others |
| Eviction.ListIsExact | packages/hub/src/inventory.ts:277-289 | cached and missing are, in file-list order, the files whose own origins hold them and the rest |
| Inventory.CachedTargetsAreSplit | packages/hub/src/inventory.ts:376-389 | every cached target is either evictable or kept, and a cross-repo file is always kept |
| Inventory.ProtectorsStayComplete | packages/hub/src/inventory.ts:358-393 | a complete protector is complete after any part of the evictable files is deleted |
| Inventory.SharedLabels | packages/hub/src/inventory.ts:358-373 | the loops that name, once each, the complete protectors of a file |
| Inventory.EvictCachedAssets | packages/hub/src/inventory.ts:321-406 | the whole call, errors included |
| Eviction.EvictionIsExact | packages/hub/src/inventory.ts:321-393 | the source is asked to delete exactly the held files of the own repo that no complete protector uses; the result names those reported as deleted, and every other held file with the reason it stays for, the labels being those of the complete protectors that use it |
| Eviction.EvictsIff | packages/hub/src/inventory.ts:321-356 | the call comes through exactly when the names given are declared and the source has a cache; which error it fails with otherwise |
| Eviction.OthersAreTheOthers | packages/hub/src/inventory.ts:339-348 | the other selections are all declared pairs but the target, in declaration order, with their files |
| Eviction.DefaultProtectorsAre | packages/hub/src/inventory.ts:339-348 | without a protect list the protectors are the other selections whose set of keys is not the target's |
| Inventory.SplitTargets | packages/hub/src/inventory.ts:374-389 | the loop that sorts the cached targets into kept and evictable |
| Inventory.ProtectorIsListed | packages/hub/src/inventory.ts:346-356 | every protector's files stand in the manifest and lie in the union that is queried |
| Inventory.EvictionIsSafe | packages/hub/src/inventory.ts:346-393 | a protecting selection all of whose files could be read before the call can still read all of them after it |
| Inventory.CollateralIsReported | packages/hub/src/inventory.ts:394-404 | alsoEvicted names exactly the other selections that could be read in full before and cannot after, in declaration order |
| Inventory.DefaultLosesOnlySiblings | packages/hub/src/inventory.ts:339-348 | with the default protectors every lost selection has exactly the target's files |
| Progress.ProgressEmitter.Emit | packages/hub/src/progress.ts:123-164 | one report: the own file with its recorded bytes, or its size when complete, and every other file as recorded, against the fixed total |
| Progress.ProgressEmitter.Downloading | packages/hub/src/progress.ts:167-170 | records the bytes of a file and reports them |
| Progress.ProgressEmitter.Complete | packages/hub/src/progress.ts:171-177 | records the full size of a file and reports it |
| Progress.SumAfterReport | packages/hub/src/progress.ts:123-164 | loaded is the sum over all recorded files with the reporting file counted once |
| Progress.NeverGoesBackIff | packages/hub/src/progress.ts:123-164 | loaded does not go back exactly when the file's own report does not |
| Progress.LastReportCounts | packages/hub/src/progress.ts:123-178 | after any reports, what counts for a file is what its last report said |
| Progress.UnreportedCountsNothing | packages/hub/src/progress.ts:123-178 | a file without a report counts nothing |
| Progress.EventIsSum | packages/hub/src/progress.ts:123-178 | in a well-behaved run every report is announced with its own path, bytes, size and kind, the sum of what is recorded and the fixed total |
| Progress.CompletedStaysFull | packages/hub/src/progress.ts:166-178 | once a file was reported complete it stays recorded at its size, whatever well-behaved reports follow |
| Progress.ProgressOverRun | packages/hub/src/progress.ts:114-179 | over every well-behaved run of reports: each emits an event, the total is fixed, loaded never decreases and never exceeds total, and equals it exactly when every file has its bytes, in particular once every file was reported complete |
| CommentScanner.CommentSpans | tools/lang/code-skeleton.ts:65-96 | the scanner terminates with ordered, disjoint spans that are all comments of the text, each from its opening characters to its closing ones, with nothing that opens a comment left uncovered; they cover what the automaton marks, and it carries how the text ends |
| CommentScanner.ScanInPieces | tools/lang/code-skeleton.ts:65-96 | at a joinable seam, scanning two pieces with the carry marks and carries what scanning the whole does |
| CommentScanner.SeamIff | tools/lang/code-skeleton.ts:65-96 | for each first piece and carry: scanning in pieces agrees with the whole for every second piece exactly when the first piece ends where no continuation can change what was seen |
| TemplateText.WithoutSpans | tools/lang/code-skeleton.ts:206-215 | removing spans keeps exactly the uncovered characters, in order |
| TemplateText.TemplateParts | tools/lang/code-skeleton.ts:160-172 | the loop over the quasis yields the code of each and, one after the other, the comments found in each, comments carried over interpolations |
| TemplateText.QuasisScanAsOneText | tools/lang/code-skeleton.ts:160-177 | over joinable seams the parts together are the code of the text without its interpolations |
| CutLoop.CutOut | tools/lang/code-skeleton.ts:179-191 | whatever order the nested or disjoint cuts were collected in, the loop leaves one character per outermost cut and every uncut character in its place |
| CutLoop.EditInsideCut | tools/lang/code-skeleton.ts:1-15 | rewriting what an outermost cut holds, at any length, leaves the skeleton unchanged |
| CutLoop.SkeletonKeepsCode | tools/lang/code-skeleton.ts:179-194 | in comment mode, cutting and collapsing white space keeps every other character of the source, in order, and adds none |
| CutLoop.EqualSkeletonsEqualCode | tools/lang/code-skeleton.ts:1-15 | in comment mode, two versions with the same skeleton have the same characters outside comments and white space |
| SkeletonText.CollapseIff | tools/lang/code-skeleton.ts:193-194 | two texts collapse to one exactly when they have the same words, the maximal runs of characters that are not white space |
| SkeletonText.MarksAreLiterals | tools/lang/code-skeleton.ts:174-191 | beside those of the source itself, the skeleton has one U+0001 for each cut that leaves a separator at the start of a literal, and none for another cut |
| ServingTable.AllFileRefsAre | apps/playground/vite-plugin-distributions.ts:303-309 | the list holds exactly the references of the manifest |
| ServingTable.AcceptedHasOneFilePerPath | apps/playground/vite-plugin-distributions.ts:345-349 | in an accepted manifest the own files are identified by their path, so the map of own files loses none |
| ServingTable.ClaimRepos | apps/playground/vite-plugin-distributions.ts:336-358 | the first loop: each available mount under its own repo, or two mounts that claim one |
| ServingTable.ReferencesAre | apps/playground/vite-plugin-distributions.ts:336-361 | the references are those of the served manifests, mount by mount in each manifest's order, under the name of the mount's repo |
| ServingTable.DirectoryMountIff | apps/playground/vite-plugin-distributions.ts:388-393 | a repo without a mount of its own is served from the first directory named after its last element, if that holds a manifest |
| ServingTable.Refer | apps/playground/vite-plugin-distributions.ts:361-394 | the body of the second loop |
| ServingTable.HfServingTable | apps/playground/vite-plugin-distributions.ts:323-418 | it fails exactly when the mounts and references conflict, with the kind of the first conflict, and otherwise the table is what they say |
| ServingTable.NextDescribes | apps/playground/vite-plugin-distributions.ts:361-394 | one more reference keeps the table described by mounts and references |
| ServingTable.FailsIffClash | apps/playground/vite-plugin-distributions.ts:361-394 | a reference fails exactly when it clashes with a mount or an earlier reference, with the kind the mounts give it |
| ServingTable.ReferenceOrderIsIrrelevant | apps/playground/vite-plugin-distributions.ts:359-417 | neither failing nor the table depends on the order of the references |
| ServingTable.EachReferenceHasOnePlace | apps/playground/vite-plugin-distributions.ts:359-417 | every cross-repo reference is at the primary revision, at an alias that matches the mount's own file, or unserved, and resolves exactly when it is not unserved |
| ServingTable.ResolvesIff | apps/playground/vite-plugin-distributions.ts:450-467 | a file resolves to its repo's directory exactly at the primary revision, or at another one when a reference names that file there |
| ServingTable.RevisionIff | apps/playground/vite-plugin-distributions.ts:440-449 | the revision asked for is answered when references name it at the repo's own mount, and the primary one otherwise |
| ServingTable.AliasServesOnlyReferenced | apps/playground/vite-plugin-distributions.ts:455-467 | an alias revision serves only files some manifest refers to |
| ServingTable.AnsweredRevisionIsServed | apps/playground/vite-plugin-distributions.ts:440-449 | the commit answered for a ref is one at which the repo is served |
| ScoringWindows.Windows | tools/llm-baseline/scoring.py:12-24 | for valid arguments it never raises, the last window ends at tokens, and the scored ranges tile [1, tokens) in order |
| ScoringWindows.EachTokenScoredOnce | tools/llm-baseline/scoring.py:12-24 | every token but the first is scored in exactly one window |
| ScoringWindows.ScoreAll | tools/llm-baseline/run.py:163-181 | the scores number exactly tokens - 1, each token scored once |

## Left out

- Network, HTTP, JSON text, UTF-8, SHA-256 and URL encoding: a fetch settles with the declared bytes or an
  error, and a manifest is given as the value JSON.parse returns (one value per key).
- The byte limit of the manifest text and of `pipelineConfig`: the first belongs to the text, the second is
  the parameter `Env.configBytes`.
- The readers of `session`, `gpuFeatures`, `label`, `description` and `requiredLimits`: their verdict is the
  parameter `Env.settingsError`; the fields are kept as they were written.
- Error message texts and the note that labels were cut off; error kinds and the labels they carry are modelled.
- `Object.keys` order of integer-like names: objects are given in the order `Object.keys` lists them.
- The `@hdae/fetch-cache` layer, retries, headers, listener isolation and the naming of origins in progress events.
- The header line of a cache entry is an abstract codec whose text has no newline and decodes to what was
  encoded; cache keys are the file names they hash to.
- Cancelling a body stream is the closing of the handle; reads through a closed handle are not modelled.
- The abort signal of a local range read, and the `keys` listing of the cache.
- The order of the lists in the serving report (aliases, unserved): they are sets in the model.
- Serving of files, mount resolution on disk, URL decoding and `Range` parsing of the playground plugin.
- The oxc parser, git calls, reporting, and in strings mode the removal of blanks and trailing commas beside
  punctuation.
- GPU kernels, export recipes, model loaders, the UI and the small repository tools.
- Which files were deleted is what the source reports; a source that reports falsely is not modelled.
- The `format` field of the parsed manifest: it always holds `karume/5`.
