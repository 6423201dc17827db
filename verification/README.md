# Autoschematic: a verified model of its stores, templates, paths and gates

Autoschematic keeps infrastructure in files. Each resource file may refer to the outputs
of other resources (`out://addr[key]`), and the outputs themselves are files in a store
below `.autoschematic`. This project models the parts of the tool that decide what is
read, written, planned and applied, and proves what they guarantee over all inputs and
over whole runs.

| module | models |
|---|---|
| `LinkStore` | output files as a heap of maps and pointers: when chasing pointers ends, that all readers agree, what one write changes |
| `OutputStore`, `OutputOutcomes` | the writers: `apply_output_map`, imports, renames, `apply_connector`, `pull_state`; runs of all of them; when they succeed and what a failure leaves |
| `Template`, `ReverseTemplate`, `ReplaceText`, `Scanning` | finding, expanding and putting back `out://` references |
| `Deferral`, `StoreRounds`, `TwoFiles` | the rounds of `autoschematic apply`; the same over the output store |
| `AddrTemplate`, `AddrRoundTrip`, `AddrSpelling` | address templates of the Python and TypeScript SDKs |
| `Paths`, `PrefixSpelling`, `RelativePath`, `PathsApart` | prefix validation, splitting a path at its prefix, output file paths, relative paths |
| `Unbundle`, `UnbundleWrites` | writing unpacked bundle elements, ownership records |
| `ConnectorCache`, `ConnectorCacheCalls` | connector cache, init status, filter cache |
| `ServerPlan`, `ServerPlanRuns`, `ChangeSet`, `ChangeSetApplies`, `Rbac` | the server's plan and apply, and the permission checks |
| `Import`, `FilterMatches` | address filters and what `import_all` passes on |
| `Comments`, `CommentPlaces`, `Reindent`, `ReindentLevels`, `ApplyOrder` | comment re-insertion, the language server's re-indenter, the order changes are applied in |
| `Text`, `Collections`, `Wrappers` | trimming, lines, and other shared vocabulary |

The disk is a map; what was updated in place is a field of a class (`OutputStore.Store`,
`Unbundle.Tree`, `ConnectorCache.Cache`, `ChangeSet.ChangeSet`, `Comments.Buffer`), whose
methods take the steps the code takes and are proved equal to a function of the old state.
The theorems are about these functions. Connectors, GitHub and the operating system appear
as parameters that hold their answers; hash map iteration is an order passed in, or an
arbitrary choice inside a loop, so that results hold for every order.

## Where the code does not do what one would expect

- A link back. `apply_connector` can close a cycle of pointers, after which every reader
  of it recurses without end. `ApplyOpKeepsAcyclicIff` says exactly when: the map it leaves
  is not empty, and the connector's physical address lies on the pointer chain of the
  virtual one. Imports, renames and pulls never do it, so whole runs stay acyclic exactly
  if no operation does (`RunsStayAcyclicIff`).
- A stale file. An operation that removes the last output deletes the file only if the
  connector still answers `Present`; otherwise the old outputs stay readable
  (`ApplyFoldsIff`). If the virtual address is itself a link, the file at the end of the
  chain is changed but not reported as written (`ReportsChangesIff`).
- A rename onto itself loses the resource file (`RenameMovesBodyIff`). Every successful
  rename leaves an output file at the old virtual address (`RenameLeavesOldOutputs`).
- Reverse templating skips values shorter than `min_length` bytes, while its comment says
  that values must be longer than it (`LimitAgreesIff`). A value that
  overlaps the text of a reference inserted before it can break the round trip
  (`OverlapBreaksRoundTrip`).
- Address templates with two placeholders in one path segment match what they print to a
  different address (`MatchAfterPrintIff`). Python's pattern also accepts a final newline
  (`PrintAfterLenientMatchIff`).
- Prefixes that differ in doubled slashes only pass the validation, and then the order of a
  hash map decides which one a path belongs to (`DoubledSlashIsAmbiguous`).
- `path_relative_from` goes astray for a base that starts with `.`, unless the path is not
  empty and starts with the base's first name (`DotBaseArrivesIff`).
- An unpacked element may be a bundle record itself, and so hand any file over to another
  bundle (`RespectsIffHarmless`, `RecordElementBreaksOwnership`).
- `get_or_spawn_connector` may initialise a connector again without clearing its cached
  filter answers, although the comment on `filter_cached` says that calling `init()`
  invalidates them (`StepAgreesIff`).
- RBAC: a grant without a list of connectors covers no connector in three of the checks and
  all of them in the fourth, while its documentation says that it is then not limited
  (`ListedIff`, `GateAgreesIff`, `UnlistedGrantsOnly`). The approving user may be the
  one who applies, where the documentation asks for a different one: exactly if a matching
  grant names a role of the user's own (`ApprovedByOtherIff`).
- `ApplyReportSet::overall_success` starts out false and is never set to true, so it is
  right only about runs in which some plan failed (`SuccessFlagIff`). Each success is
  reported twice, once without written files (`FilesAreReported`).
- A `*` in the requested subpath can keep a subspace from being listed at all, so that
  addresses that match the subpath are not imported (`ImportFindsIff`, `StarMissesAddress`).
- Ordering the same set of objects again reverses the removals of equal depth; that changes
  nothing exactly if they read the same from either end (`OrderTwiceIff`). A third sort
  always gives back the first (`OrderThreeTimes`).
- Comments are inserted at the anchor's first occurrence even if that is inside of a line
  (`PlaceStartsLineIff`), and line offsets are short by one for every carriage return
  before them (`OffsetIsStartIff`).

## Model

| member | source | states |
|---|---|---|
| `LinkStore.ReadersAgree` | autoschematic-core/src/connector.rs:89-176 | `read_recurse`, `resolve` and `get` all see the one file at the end of the pointer chain: `resolve` names it, or nothing if the chain dangles, `read_recurse` returns it, and `get` is a lookup in it |
| `LinkStore.LinksAtMostFiles` | autoschematic-core/src/connector.rs:155-165 | a chain that ends has at most as many pointers as there are files, so a hop limit of that size would cut off nothing that terminates |
| `LinkStore.CutKeepsChains` | autoschematic-core/src/connector.rs:109-153 | putting a map, or nothing, at one address keeps every chain finite; exactly the chains through it now stop there, all others read what they read before |
| `LinkStore.CutKeepsAcyclic` | autoschematic-core/src/connector.rs:109-124 | such a write never creates a cycle |
| `LinkStore.LinkRedirects` | autoschematic-core/src/connector.rs:208-212 | a new link changes what is read through exactly those addresses whose chain ran through it: they now read what the target reads |
| `LinkStore.LinkKeepsAcyclicIff` | autoschematic-core/src/connector.rs:208-212 | writing a link keeps the store acyclic if and only if the linking address is not on the chain of its target |
| `OutputStore.Merge` | autoschematic-core/src/connector.rs:189-198 | the keys after a change are those set by it and the old ones it does not remove, each with the new value if it was set |
| `OutputStore.MergeInto` | autoschematic-core/src/connector.rs:189-198 | the merge loop gives the same map in whatever order the changes are visited |
| `OutputStore.ChangedRefinesMerge` | autoschematic-core/src/connector.rs:178-206 | a non-empty outcome changes exactly the terminal file, created if the chain dangles; through every other address one reads the merged map if its chain stops there, and what it read before if not; an empty outcome changes nothing |
| `OutputStore.PublishedEffects` | autoschematic-core/src/connector.rs:288-297 | after a map is written at the virtual address and a link at the physical one, every chain is finite whatever was there before, the physical address resolves to the virtual one, and only chains through either address read something else than before |
| `OutputStore.PublishedKeepsAcyclic` | autoschematic-core/src/connector.rs:288-297 | imports and renames keep the store acyclic unconditionally |
| `OutputStore.SameReadsIffSameContents` | autoschematic-core/src/connector.rs:167-176 | every key reads the same in two stores exactly if the maps at the ends of the chains are equal |
| `OutputStore.RenameEffects` | autoschematic-core/src/workflow/rename.rs:78-88 | the physical address resolves to the new virtual address, and every key read through it is unchanged exactly if it offered the renamed outputs before |
| `OutputStore.ApplyOpKeepsAcyclicIff` | autoschematic-core/src/workflow/apply.rs:38-64 | applying one operation keeps the store acyclic, unless the map it leaves is not empty and the link it writes is from a physical address on the virtual address's own chain |
| `OutputStore.ApplyOpEffects` | autoschematic-core/src/workflow/apply.rs:38-64 | one operation that succeeds leaves the merged outputs readable through the virtual address, and through a linked physical one, except where it leaves a stale file |
| `OutputStore.ApplyOpsKeepsAcyclic` | autoschematic-core/src/workflow/apply.rs:16-70 | a whole plan keeps the store acyclic, also if it fails half-way, unless one of its operations closes a cycle in the store it meets |
| `OutputStore.StaysAcyclicIff` | autoschematic-core/src/workflow/apply.rs:16-70 | the store is acyclic after every operation of a plan if and only if none of them closes a cycle |
| `OutputStore.AcyclicReturns` | autoschematic-core/src/workflow/apply.rs:16-70 | then no operation of the plan chases pointers without end |
| `OutputStore.ClosedCycleHangs` | autoschematic-core/src/workflow/apply.rs:16-70 | once an operation has closed a cycle the virtual address is on it, so that the next operation of the plan that touches the store does not return |
| `OutputStore.ApplyFoldsIff` | autoschematic-core/src/workflow/apply.rs:16-70 | after every operation of a plan that succeeds the virtual address reads as the fold of all set and remove maps so far, if and only if no operation empties a map while the connector does not answer Present |
| `OutputStore.FoldedAtTheEnd` | autoschematic-core/src/workflow/apply.rs:16-70 | under that condition the outputs after the plan are the fold of all its operations over the initial ones |
| `OutputStore.PhysicalFollows` | autoschematic-core/src/workflow/apply.rs:44-48 | with one physical address throughout, it reads the same as the virtual one afterwards |
| `OutputStore.ReportsChangesIff` | autoschematic-core/src/workflow/apply.rs:42-63 | all changed files are among those reported as written, unless the virtual address is a link and the file at the end of its chain is replaced without becoming the physical link |
| `OutputOutcomes.OpsSucceedIff` | autoschematic-core/src/workflow/apply.rs:16-70 | a plan succeeds exactly if every operation's address is known, executing it succeeds, and, where that changed outputs, the connector can be asked for its address again |
| `OutputOutcomes.FailureLeaves` | autoschematic-core/src/workflow/apply.rs:26-51 | a plan that fails leaves what the operations before the first failure left, with the outputs of that operation merged if it was executed, and executes none after it |
| `OutputOutcomes.OpsAppend` | autoschematic-core/src/workflow/apply.rs:16-70 | a plan is its operations one after the other, each in the store the ones before left, none after one that fails; it reports what they report |
| `OutputOutcomes.ReportsWhat` | autoschematic-core/src/workflow/apply.rs:42-63 | the files reported by an operation are its own that it leaves written, or if no outputs remain those that existed and are gone |
| `OutputStore.RenameDoneOnce` | autoschematic-core/src/workflow/rename.rs:41-102 | in a rename that succeeds at most one connector of the prefix claimed the address |
| `OutputOutcomes.NobodyRenames` | autoschematic-core/src/workflow/rename.rs:41-65 | if no connector claims the address a rename changes nothing, and succeeds exactly if all answer |
| `OutputOutcomes.RenameSucceedsIff` | autoschematic-core/src/workflow/rename.rs:41-102 | a rename succeeds exactly if every connector answers, one claims the address, knows a physical one, and the outputs and the resource file are there; the disk is then as that one left it |
| `OutputOutcomes.RenameFailureLeaves` | autoschematic-core/src/workflow/rename.rs:41-102 | a connector that fails to rename leaves everything as it was, unless all that was missing is the resource file: then the outputs have moved |
| `OutputStore.RenameMovesBodyIff` | autoschematic-core/src/workflow/rename.rs:90-98 | a successful rename moves the resource file exactly if the two addresses differ, and keeps every other file and its contents |
| `OutputStore.RenameLeavesOldOutputs` | autoschematic-core/src/workflow/rename.rs:78-88 | a successful rename leaves an output file at the old virtual address: the one that was there, unless the old address is the physical one, which becomes a link, or the new one; every output stays readable through it |
| `OutputStore.PulledEffects` | autoschematic-server/src/changeset/pull_state.rs:185-229 | pulling an object's state never creates a cycle: what was found is read through both its addresses, after a deletion nothing is, and only chains through either address change |
| `OutputOutcomes.ImportStays` | autoschematic-core/src/connector.rs:266-297 | a first import goes where the connector suggests, and later ones stay there whatever is suggested then |
| `OutputOutcomes.PulledBodies` | autoschematic-server/src/changeset/pull_state.rs:183-229 | a definition that differs replaces the file, a resource that is gone takes it along if deleting was asked for; otherwise it stays, and so do all others |
| `OutputOutcomes.PulledTwice` | autoschematic-server/src/changeset/pull_state.rs:183-229 | pulling twice is pulling once |
| `OutputStore.ActKeepsAcyclic` | autoschematic-core/src/connector.rs:262-304 | every import, rename, pull and allowed apply keeps an acyclic store acyclic |
| `OutputStore.AllowedIff` | autoschematic-core/src/connector.rs:155-165 | an import, rename or pull always keeps an acyclic store acyclic, an apply if and only if none of its operations closes a cycle |
| `OutputStore.RunsStayAcyclicIff` | autoschematic-core/src/connector.rs:155-165 | over every run of imports, renames, applies and pulls, in any order: all readers keep terminating at every address all the way if and only if no operation closes a cycle in the store it meets |
| `OutputStore.Store.Write` | autoschematic-core/src/connector.rs:109-124 | exactly the file at the address is replaced |
| `OutputStore.Store.WriteRecurse` | autoschematic-core/src/connector.rs:126-153 | exactly the file at the end of the chain is replaced or created; ends because the number of links ahead shrinks |
| `OutputStore.Store.ApplyOutputMap` | autoschematic-core/src/connector.rs:178-206 | the store changes as `ChangedRefinesMerge` describes; a path is returned exactly if the merged map is not empty |
| `OutputStore.Store.Delete` | autoschematic-core/src/connector.rs:214-222 | exactly the file at the address goes; its path is returned if there was one |
| `OutputStore.Store.ImportResource` | autoschematic-core/src/connector.rs:266-304 | body, outputs and link go to the virtual address or the connector's suggestion for it; afterwards the physical address resolves there and both read the fetched outputs |
| `OutputStore.Store.PullObject` | autoschematic-server/src/changeset/pull_state.rs:183-237 | files, resource file and what is counted after one object, in each of its cases |
| `OutputStore.Store.RenameResource` | autoschematic-core/src/workflow/rename.rs:41-105 | files and outcome are those of one rename step per connector, and the store stays acyclic |
| `OutputStore.Store.ApplyOne` | autoschematic-core/src/workflow/apply.rs:26-66 | store, outcome and reported files of one operation, including every early return |
| `OutputStore.Store.ApplyConnector` | autoschematic-core/src/workflow/apply.rs:13-70 | for every plan that does not chase pointers without end: the operations are applied in order up to the first failure, and the store stays acyclic unless one closes a cycle |
| `Template.MatchAtIff` | autoschematic-core/src/template.rs:32-49 | the scanner reads a reference at some place if and only if the reference is well-formed and its printed form stands there |
| `Template.ExpandSplitsReferences` | autoschematic-core/src/template.rs:92-137 | the references of a body are either found, with the value read for them, or missing; nothing else is |
| `Template.ExpandWithoutValues` | autoschematic-core/src/template.rs:92-137 | a body of which no reference can be read is returned as it is |
| `Scanning.ExpandParses` | autoschematic-core/src/template.rs:92-137 | every text is a sequence of tokens that the scanner finds from left to right; expanding shows characters as they are, references as their values, or as themselves if they have none, and nothing else; the references read are those among the tokens |
| `Template.NextPiece` | autoschematic-core/src/template.rs:99-130 | one step of the scanner consumes something, and expansion goes on with the rest |
| `Template.TemplateConfig` | autoschematic-core/src/template.rs:92-137 | the single pass computes the expansion the lemmas are about |
| `Template.GetReadOutputs` | autoschematic-core/src/template.rs:32-49 | all references in order, repetitions included: the list that `ExpandSplitsReferences` divides into found and missing |
| `ReverseTemplate.ReplaceIsOnTokens` | autoschematic-core/src/template.rs:157 | replacing a value in a text that already holds references replaces literal characters only, as long as the value cannot overlap the text of a reference |
| `ReverseTemplate.ReplaceKeepsMeaning` | autoschematic-core/src/template.rs:157 | such a replacement does not change what the text expands to |
| `ReverseTemplate.ExpandIsMeaning` | autoschematic-core/src/template.rs:92-137 | in a text whose meaning holds no `out://`, the scanner finds exactly the references put in, since the mark has no border |
| `ReverseTemplate.ReverseThenExpand` | autoschematic-core/src/template.rs:143-161 | for raw text without `out://` and values none of which can overlap a reference put in before it, expanding the reversed text gives back the raw text, with nothing missing, in whatever order the values were put back |
| `ReverseTemplate.OverlapBreaksRoundTrip` | autoschematic-core/src/template.rs:143-161 | for any two well-formed references: a value `y + s`, `s` the start of the first reference, cuts that reference apart in the text `y + v`, and another text comes back unless `v` starts with `s` |
| `ReplaceText.ReplaceIsSplitJoin` | autoschematic-core/src/template.rs:157 | replacing cuts the text at the leftmost occurrences that do not overlap, all of them, and joins the pieces with the replacement |
| `ReplaceText.ReplaceEmpty` | autoschematic-core/src/template.rs:157 | an empty value is found before every character and at the end |
| `ReplaceText.Utf8LenOfChar` | autoschematic-core/src/template.rs:153-155 | the length of a value is in bytes: each character takes as many as UTF-8 needs for it, and no more |
| `ReplaceText.Utf8LenAppend` | autoschematic-core/src/template.rs:153-155 | these lengths add up |
| `ReplaceText.PutsBack` | autoschematic-core/src/template.rs:152-158 | a value as long as the limit is put back wherever it stands, any other text stays as it is |
| `ReplaceText.PutsBackInOrder` | autoschematic-core/src/template.rs:152-158 | several values are put back one after the other |
| `ReverseTemplate.LimitAgreesIff` | autoschematic-core/src/template.rs:142-155 | for one value, code and documentation agree on all texts if and only if its length is not the limit, or it is the text of its own reference |
| `ReverseTemplate.ReverseTemplateConfig` | autoschematic-core/src/template.rs:143-161 | each value found is put back once, in some order, and the round trip holds for that order under the condition on what was found |
| `Deferral.DeferredIffWaits` | autoschematic-core/src/workflow/plan.rs:29-76 | a resource that can be planned is deferred if and only if something it needs cannot be read, and only on such outputs |
| `Deferral.RoundTakes` | autoschematic/src/apply.rs:89-127 | a round executes exactly the claimed staged files with operations and defers exactly those with missing outputs |
| `Scanning.WithOpsAppend` | autoschematic/src/apply.rs:89-127 | both in the order of the files |
| `Scanning.DesiredIsMeaning` | autoschematic-core/src/workflow/plan.rs:62-88 | a text file that waits for nothing reaches the connector with every reference replaced by its value and nothing else changed |
| `Scanning.DesiredOfTokens` | autoschematic-core/src/workflow/plan.rs:62-88 | the same of a text given as tokens |
| `Scanning.PlanIs` | autoschematic-core/src/workflow/plan.rs:29-120 | what waits for nothing is planned exactly if its address is known, its present state can be fetched, its file can be read and the connector plans it; the operations reported are the connector's |
| `Scanning.WaitIs` | autoschematic-core/src/workflow/plan.rs:29-76 | what waits has no operations, and exactly the outputs missing that its address or else its text names |
| `Scanning.ExecutedAppend` | autoschematic/src/apply.rs:183-240 | executing goes on from the state left before, and stops at the first plan that fails |
| `Deferral.PlanAll` | autoschematic/src/apply.rs:89-127 | the plan loop gives these two lists, in the order of the files, and fails exactly if a claimed file cannot be planned |
| `Deferral.ExecutedSettles` | autoschematic/src/apply.rs:183-240 | with well-behaved connectors the execute loop settles what it executes, unsettles nothing and removes no output, also if it fails |
| `Deferral.ExecAll` | autoschematic/src/apply.rs:183-240 | the plans are executed in order, each in the state the last one left, up to the first failure |
| `Deferral.RoundShrinks` | autoschematic/src/apply.rs:245-299 | every round that executes something leaves fewer files unsettled |
| `Deferral.Apply` | autoschematic/src/apply.rs:86-299 | the recursion ends within the number of unsettled staged files plus one rounds, each round executing all there is to execute; readable outputs stay readable, and when it stops every file still deferred lacks an output that no finished resource produces |
| `Deferral.RoundsEnd` | autoschematic/src/apply.rs:86-299 | the same of any sequence of rounds, each in the state the last one left |
| `Deferral.RankedLeavesNothingDeferred` | autoschematic/src/apply.rs:245-299 | if every needed output is readable from the start or produced by a staged resource of lower rank, a run that ended as `RoundsEnd` has it left nothing deferred |
| `StoreRounds.ApplyOpsGrows` | autoschematic-core/src/workflow/apply.rs:16-70 | operations that set outputs only, and whose links hide nothing, take no output away from any address, also if the plan fails half-way |
| `StoreRounds.ReportedIsSet` | autoschematic-core/src/workflow/apply.rs:16-70 | after a plan that succeeds, every output it reported can be read through the virtual address |
| `StoreRounds.HonestIsWellBehaved` | autoschematic-core/src/workflow/plan.rs:29-76 | with references read by `get` and plans executed by `apply_connector`, everything the rounds rely on follows from what the connectors answer in the worlds that can occur |
| `StoreRounds.NamedThroughout` | autoschematic-core/src/workflow/apply.rs:44-48 | where physical addresses hold nothing but the link to their virtual address, operations that only add outputs and name no other physical address keep it so, close no cycle and hide nothing |
| `StoreRounds.ImportStaysNamed` | autoschematic-core/src/connector.rs:288-297 | imports keep it so, too |
| `StoreRounds.FaithfulIsHonest` | autoschematic-core/src/connector.rs:416-430 | so connectors with a naming scheme meet the assumptions in all such stores, by conditions on their answers alone, links included |
| `StoreRounds.StoreRoundsEnd` | autoschematic/src/apply.rs:86-299 | a run over the output store ends in time, with the store acyclic, all outputs kept, those of finished resources set, and nothing deferred whose needs have acyclic sources |
| `StoreRounds.TwoRoundsOnStore` | autoschematic/src/apply.rs:245-299 | such connectors exist: from an empty store, one file is deferred on the output of another, which is written in the first round and linked from a physical address, and is executed in the second |
| `AddrTemplate.Tokenise` | autoschematic-sdk-ts/src/addr.ts:20-37 | the character loop cuts the template into literals and placeholders, and fails exactly on an unclosed bracket |
| `AddrTemplate.ScanName` | autoschematic-sdk-python/autoschematic_sdk/addr.py:24-27 | the inner loop stops at the first closing bracket or at the end |
| `AddrSpelling.TokensIff` | autoschematic-sdk-python/autoschematic_sdk/addr.py:20-37 | a text is a template of exactly the tokens that spell it |
| `AddrSpelling.RefusedIff` | autoschematic-sdk-ts/src/addr.ts:20-37 | a text is refused exactly if some bracket opens and is not closed |
| `AddrSpelling.PrintsLiteral` | autoschematic-sdk-python/autoschematic_sdk/addr.py:48-65 | literal text is printed as it is |
| `AddrSpelling.PrintsValue` | autoschematic-sdk-python/autoschematic_sdk/addr.py:48-65 | a placeholder is printed as its value, an error if it has none |
| `AddrSpelling.PrintsEmptyBrackets` | autoschematic-sdk-ts/src/addr.ts:70-80 | empty brackets stay |
| `AddrSpelling.PrintsUnclosed` | autoschematic-sdk-ts/src/addr.ts:70-80 | so does text without a closing bracket |
| `AddrSpelling.TakesNewline` | autoschematic-sdk-python/autoschematic_sdk/addr.py:36 | Python's pattern also matches what was printed with a newline behind it |
| `AddrSpelling.StrictTakesNoNewline` | autoschematic-sdk-ts/src/addr.ts:40 | TypeScript's does not, for a template without placeholders |
| `AddrTemplate.FormPathIsRender` | autoschematic-sdk-python/autoschematic_sdk/addr.py:48-65 | the substitution of `form_path` cuts the template at the same places as the tokeniser of `match_addr` |
| `AddrTemplate.MatchSound` | autoschematic-sdk-python/autoschematic_sdk/addr.py:20-37 | a match captures a non-empty slash-free value for every placeholder, and these print back to the text, but for a newline Python may ignore |
| `AddrTemplate.MatchComplete` | autoschematic-sdk-ts/src/addr.ts:13-42 | if any admissible values print to the text, the match succeeds, at least as greedily as those values |
| `AddrRoundTrip.LenientIsStrict` | autoschematic-sdk-python/autoschematic_sdk/addr.py:36 | where the whole text matches, Python's `$` captures what TypeScript's does |
| `AddrRoundTrip.PrintAfterMatch` | autoschematic-sdk-ts/src/addr.ts:70-80 | TypeScript: printing what was matched gives back the very text |
| `AddrRoundTrip.PrintAfterLenientMatchIff` | autoschematic-sdk-python/autoschematic_sdk/addr.py:20-65 | Python: printing gives back the text if and only if it also matches without ignoring a final newline, which holds for every text that does not end in one |
| `AddrRoundTrip.FillingIsUnique` | autoschematic-sdk-ts/src/addr.ts:70-80 | with at most one placeholder in a segment, two addresses that print to the same path are the same |
| `AddrRoundTrip.TwoPerSegmentAmbiguous` | autoschematic-sdk-ts/src/addr.ts:70-80 | with two in one segment, some address prints like another, greedier one |
| `AddrRoundTrip.MatchAfterPrintIff` | autoschematic-sdk-python/autoschematic_sdk/addr.py:20-65 | matching undoes printing for all addresses if and only if no segment holds two placeholders, in either SDK |
| `Paths.ValidatePrefixes` | autoschematic-core/src/util.rs:66-125 | the two validation loops accept exactly configurations of trimmed, relative, dot-free prefixes none of which starts with another one as a string (or the prefix `/` alone) |
| `PrefixSpelling.AcceptedAloneIff` | autoschematic-core/src/util.rs:66-109 | told from the text: a prefix is accepted on its own exactly if it is trimmed and, unless it is the only one and `/`, does not start with a slash or a dot part and has no `..` part |
| `PrefixSpelling.IdleParts` | autoschematic-core/src/util.rs:79 | empty parts and dots within a path do not count |
| `PrefixSpelling.SpellingsAgree` | autoschematic-core/src/util.rs:343-351 | `x`, `x/`, `/x`, `/x/`, `./x` and `./x/` are one prefix |
| `Paths.AcceptedIsIncomparable` | autoschematic-core/src/util.rs:111-125 | for accepted prefixes with single slashes and no dot parts, not being string prefixes of each other implies not being component prefixes of each other |
| `Paths.UniqueSplitIff` | autoschematic-core/src/util.rs:342-363 | every path matches at most one prefix if and only if no prefix is a component prefix of another |
| `Paths.SplitFindsTheOne` | autoschematic-core/src/util.rs:342-363 | then the split is the one of the matching prefix, in whatever order the map is visited |
| `Paths.SplitJoinsIff` | autoschematic-core/src/util.rs:342-363 | prefix joined with address gives back the path, except for a relative path split at the prefix `/` |
| `Paths.DoubledSlashIsAmbiguous` | autoschematic-core/src/util.rs:66-125 | two prefixes that differ in a doubled slash are both accepted and both match, and the order of the keys decides |
| `Paths.OutputPathInjective` | autoschematic-core/src/connector.rs:42-72 | no two pairs of an accepted canonical prefix and a normal address share an output file |
| `Paths.OutputPathOfNormals` | autoschematic-core/src/connector.rs:42-72 | the output file of an address lies at the same place below `.autoschematic`, with `.out.json` added to its last name |
| `RelativePath.PathRelativeFrom` | autoschematic-core/src/util.rs:369-403 | the loop over both paths computes the relation the lemmas are about, for all components |
| `RelativePath.RelativeFromShape` | autoschematic-core/src/util.rs:369-403 | for plain paths, both relative or both absolute, the result is one `..` for each base component after the longest common prefix and then the rest of the path |
| `RelativePath.RelativeFromArrives` | autoschematic-core/src/util.rs:369-403 | following the result from the base arrives at the path |
| `RelativePath.RelativeFromShortest` | autoschematic-core/src/util.rs:369-403 | no other relative path that arrives there is shorter |
| `RelativePath.DotBaseArrivesIff` | autoschematic-core/src/util.rs:385-389 | from a base `./b`, the result for any relative path of names leads to that path if and only if it is not empty and `b` is empty or starts with the same name |
| `PathsApart.MixedPaths` | autoschematic-core/src/util.rs:372-373 | an absolute path is its own way from a relative base; from an absolute base no way leads to a relative path, and none is given |
| `PathsApart.ParentInBaseIsRefused` | autoschematic-core/src/util.rs:389 | a base that goes up where the path goes down is refused |
| `PathsApart.ToItself` | autoschematic-core/src/util.rs:380-387 | the way from any path to itself is empty |
| `PathsApart.ToBelow` | autoschematic-core/src/util.rs:381-387 | the way to anything below is what it has more |
| `Unbundle.RecordPathInjective` | autoschematic-core/src/bundle.rs:31-60 | no two addresses share a bundle record |
| `Unbundle.Tree.WriteUnbundleElement` | autoschematic-core/src/workflow/unbundle.rs:21-62 | an element and its record are written exactly if the file is new, a bundle, or this parent's child, or overbundling is on |
| `Unbundle.Tree.WriteToDisk` | autoschematic-core/src/report.rs:107-139 | its own copy of the check comes to writing the elements one after the other, including what was written before a failure |
| `UnbundleWrites.RefusedIff` | autoschematic-core/src/workflow/unbundle.rs:30-49 | an element is refused exactly if its file exists and is neither a bundle nor this parent's child, unless overbundling; then nothing is written |
| `UnbundleWrites.WrittenIs` | autoschematic-core/src/workflow/unbundle.rs:51-61 | otherwise file and record are written and nothing else is touched |
| `UnbundleWrites.WriteElementsAppend` | autoschematic-core/src/report.rs:110-136 | elements are written one after the other, none after the first that is refused |
| `UnbundleWrites.UnbundledAre` | autoschematic-core/src/report.rs:107-139 | after an unbundling that succeeds every element's file exists as the bundle's child |
| `UnbundleWrites.FreeOrOwn` | autoschematic-core/src/report.rs:107-139 | unpacking to free places and to the bundle's own children always succeeds |
| `UnbundleWrites.UnbundleAgain` | autoschematic-core/src/report.rs:107-139 | a bundle that was unpacked can be unpacked again to its files, with any contents |
| `UnbundleWrites.OthersAreRefused` | autoschematic-core/src/report.rs:107-139 | no other bundle can then take any of them |
| `Unbundle.WriteElementRespects` | autoschematic-core/src/workflow/unbundle.rs:29-61 | an element that is no bundle record of a resource file leaves the ownership of every resource file alone, and its contents unless the owner writes |
| `Unbundle.RespectsIffHarmless` | autoschematic-core/src/workflow/unbundle.rs:29-61 | that condition is necessary, too |
| `Unbundle.RunRespectsOwnership` | autoschematic-core/src/report.rs:107-139 | over any run without overbundling a file without a record never changes, the parent recorded for a child never changes, and a child's contents change only when its parent is unbundled |
| `Unbundle.RecordElementBreaksOwnership` | autoschematic-core/src/report.rs:107-139 | two unbundlings, the first of a bundle record, overwrite a file that was in no bundle |
| `ConnectorCache.StepKeepsInv` | autoschematic-core/src/connector_cache.rs:103-300 | every call keeps: one instance a key, cached answers for live connectors only, an instance initialised successfully is known to run and was only once |
| `ConnectorCache.InitialisedAtMostOnce` | autoschematic-core/src/connector_cache.rs:146-213 | over every run no instance is successfully initialised twice by `get_or_spawn_connector`, and cached answers belong to live connectors |
| `ConnectorCache.CacheIsTransparentIff` | autoschematic-core/src/connector_cache.rs:235-251 | asking the cache is asking the connectors, for all keys and addresses, if and only if every cached answer is the current one |
| `ConnectorCache.StepAgreesIff` | autoschematic-core/src/connector_cache.rs:146-251 | a call loses agreement if and only if it is a `get_or_spawn_connector` that initialises a cached connector again and thereby changes one of its cached answers |
| `ConnectorCache.RunAgrees` | autoschematic-core/src/connector_cache.rs:216-300 | agreement holds over every run without such a call |
| `ConnectorCache.StaticRunAgrees` | autoschematic-core/src/connector_cache.rs:231-251 | with a filter that initialising does not change, agreement holds over every run |
| `ConnectorCache.StaticRunIsTransparent` | autoschematic-core/src/connector_cache.rs:231-251 | so after every run from the empty cache, every answer is the connector's own |
| `ConnectorCacheCalls.SpawnReturns` | autoschematic-core/src/connector_cache.rs:103-214 | a connector is returned exactly if the surroundings are in order and it is cached or comes up in the right version: the cached one, or a new one that is cached from then on |
| `ConnectorCacheCalls.SpawnAgain` | autoschematic-core/src/connector_cache.rs:146-149 | asking again returns the same connector |
| `ConnectorCacheCalls.StatusAfter` | autoschematic-core/src/connector_cache.rs:150-205 | the status afterwards tells how initialising went, or that the connector is spawning or offline, or stays |
| `ConnectorCacheCalls.InitsAfter` | autoschematic-core/src/connector_cache.rs:164-205 | `init` is called at most once, on the connector returned |
| `ConnectorCacheCalls.InitForgets` | autoschematic-core/src/connector_cache.rs:216-229 | `init_connector` drops the cached answers of a live connector, initialises it, and leaves the status and all else |
| `ConnectorCacheCalls.AnswersAreKept` | autoschematic-core/src/connector_cache.rs:235-251 | an answer given is kept whatever the connector would say later; errors and absent connectors leave nothing |
| `ConnectorCacheCalls.ForgetsOnly` | autoschematic-core/src/connector_cache.rs:272-282 | dropping the answers of one connector leaves those of all others, and everything else |
| `ConnectorCacheCalls.ClearForgets` | autoschematic-core/src/connector_cache.rs:284-300 | after clearing, every connector is spawned anew |
| `ConnectorCache.Cache.GetOrSpawnConnector` | autoschematic-core/src/connector_cache.rs:103-214 | the three maps and the result after every branch of the status machine |
| `ConnectorCache.Cache.InitCachedConnector` | autoschematic-core/src/connector_cache.rs:216-229 | the connector's cached answers go, then it is initialised |
| `ConnectorCache.Cache.AskFilter` | autoschematic-core/src/connector_cache.rs:235-251 | hit, miss and absent connector; while the cache agrees, the answer is the connector's own |
| `ConnectorCache.Cache.ClearCache` | autoschematic-core/src/connector_cache.rs:284-300 | connectors and cached answers go, the status stays |
| `Rbac.RolesForUser` | autoschematic-core/src/config_rbac.rs:65-76 | exactly the roles that list the user |
| `Rbac.GrantsForPrefix` | autoschematic-core/src/config_rbac.rs:78-91 | exactly the grants those roles have in the prefix |
| `Rbac.AllowsRead` | autoschematic-core/src/config_rbac.rs:93-106 | true if and only if some grant above none lists the connector |
| `Rbac.AllowsApplyWithoutApproval` | autoschematic-core/src/config_rbac.rs:108-121 | true if and only if some apply grant lists the connector |
| `Rbac.AllowsApplyWithApproval` | autoschematic-core/src/config_rbac.rs:123-136 | true if and only if some grant that asks for approval lists the connector |
| `Rbac.ApproverHasRole` | autoschematic-core/src/config_rbac.rs:143-158 | although roles are compared in every field, true if and only if the named role exists and lists one of the approvers |
| `Rbac.AllowsApplyIfApprovedBy` | autoschematic-core/src/config_rbac.rs:138-162 | true if and only if some grant names an existing role with an approver among its users and does not exclude the connector |
| `Rbac.ApplyImpliesRead` | autoschematic-core/src/config_rbac.rs:93-162 | whoever may apply may read |
| `Rbac.ApprovalIsMonotone` | autoschematic-core/src/config_rbac.rs:138-162 | more approvers never take a permission away |
| `Rbac.ApprovedByOtherIff` | autoschematic-core/src/config_rbac.rs:44-46 | every accepted approval includes one of somebody else that is enough, as documented, if and only if the user holds no matching grant that names a role of the user's own |
| `Rbac.ListedIff` | autoschematic-core/src/config_rbac.rs:58-62 | each of the three checks for reading, applying and applying with approval agrees with the documentation on all connectors if and only if the user has no grant of its kind without a list |
| `Rbac.GateAgreesIff` | autoschematic-server/src/changeset/apply.rs:60-89 | the server's gate agrees with the documentation on all connectors if and only if no grant of the user that would let the user apply, at once or as approved, lists no connectors |
| `Rbac.UnlistedGrantsOnly` | autoschematic-core/src/config_rbac.rs:93-162 | a user whose grants list no connectors passes none of the three, nor the server's gate; the fourth check says yes whenever a grant is approved |
| `ServerPlan.DoAccounts` | autoschematic-server/src/changeset/plan.rs:125-288 | each look at an object keeps the counters in step with the reports and the deferrals |
| `ServerPlan.PlanAccounts` | autoschematic-server/src/changeset/plan.rs:49-305 | for a whole run: object count is reports plus template deferrals, deferred count is address plus template deferrals, pending outputs are those of the deferrals, success if and only if no report failed; without `continue_on_error` at most one report failed and it is the last |
| `ServerPlanRuns.AbortsIff` | autoschematic-server/src/changeset/plan.rs:128-280 | a look at an object ends the run with an error exactly if one of the questions it asks goes unanswered |
| `ServerPlanRuns.LooksAreOfKinds` | autoschematic-server/src/changeset/plan.rs:128-205 | otherwise the object is deferred if its address is, passed over if it is no resource, deferred if outputs its text needs are missing, and planned if none are |
| `ServerPlanRuns.LookReports` | autoschematic-server/src/changeset/plan.rs:205-283 | otherwise it appends one report if the object was planned, which names it and holds the operations planned or the failure; it stops the run exactly if planning failed and errors are not passed over |
| `ServerPlanRuns.CarriedIs` | autoschematic-server/src/changeset/plan.rs:58-289 | the run goes through its work up to the first item that ends it |
| `ServerPlanRuns.RunReports` | autoschematic-server/src/changeset/plan.rs:58-289 | its reports are, in order, those of the planned objects among what it looked at |
| `ServerPlanRuns.WorkIs` | autoschematic-server/src/changeset/plan.rs:58-144 | it looks at an object with a connector exactly if prefix and connector pass the filters, the user may read there, and the object lies below prefix and subpath |
| `ServerPlanRuns.SelectsPrefixIff` | autoschematic-server/src/changeset/plan.rs:58-83 | a prefix is gone through exactly if it passes the filter and some object lies below it and the subpath |
| `ServerPlanRuns.SelectsConnectorIff` | autoschematic-server/src/changeset/plan.rs:85-100 | a connector is exactly if it passes its filter and the user may read there |
| `ServerPlanRuns.WorkOrdered` | autoschematic-server/src/changeset/plan.rs:58-125 | prefixes and connectors come in order, each connector started before it looks |
| `ChangeSet.ChangeSet.PlanObjects` | autoschematic-server/src/changeset/plan.rs:125-288 | the object loop, with every skip and the early exit, does the work one item after the other |
| `ChangeSet.ChangeSet.PlanPrefix` | autoschematic-server/src/changeset/plan.rs:85-289 | the connector loop does that for the connectors that are selected and readable |
| `ChangeSet.ChangeSet.Plan` | autoschematic-server/src/changeset/plan.rs:28-307 | the stored plan is replaced by the outcome of the whole walk if the run completes, and stays as it was if not |
| `ChangeSet.EligibleUpToIs` | autoschematic-server/src/changeset/apply.rs:49-173 | the reports an apply runs are exactly the eligible ones, in plan order |
| `ChangeSetApplies.EligibleIff` | autoschematic-server/src/changeset/apply.rs:49-173 | a report is eligible exactly if it is of the connector asked for, the user may apply it at once or as approved, planning it did not fail, and it holds operations |
| `ChangeSetApplies.StopsIff` | autoschematic-server/src/changeset/apply.rs:60-229 | the run stops at a report exactly if the approvals would decide on it and cannot be had, or the user may apply it and its check run or its connector does not come up, or the check run cannot be closed |
| `ChangeSetApplies.OthersArePassedOver` | autoschematic-server/src/changeset/apply.rs:49-89 | reports of other connectors and those the user may not apply neither run nor stop the run |
| `ChangeSetApplies.ReportsName` | autoschematic-server/src/changeset/apply.rs:169-216 | what is reported of an execution: a failure by its connector, a success with what it wrote and then by its connector |
| `ChangeSet.OneApplyPerPlan` | autoschematic-server/src/changeset/apply.rs:38-44 | however plans and applies follow each other, between two applies that succeed a plan did |
| `ChangeSet.SuccessFlagIff` | autoschematic-server/src/changeset/apply.rs:175-216 | the success flag of a run that gets through agrees with its reports if and only if some plan failed, because it is never set to true |
| `ChangeSet.FilesAreReported` | autoschematic-server/src/changeset/apply.rs:169-216 | although each success is reported twice, the reports name every written file once, in order |
| `ChangeSet.ChangeSet.CheckPermission` | autoschematic-server/src/changeset/apply.rs:60-89 | the permission check agrees with what the RBAC configuration permits, approvals asked for once and only when needed |
| `ChangeSet.ChangeSet.ApplyOne` | autoschematic-server/src/changeset/apply.rs:49-229 | a report reaches `apply_connector` exactly if it is eligible, its connector comes up and its check run opens; the run goes on exactly if nothing it depends on fails; what is reported for it |
| `ChangeSet.ChangeSet.ApplyAll` | autoschematic-server/src/changeset/apply.rs:49-229 | the loop gets through exactly if it goes on after every report; what was executed and reported up to where it ends |
| `ChangeSet.ExecutedAreEligible` | autoschematic-server/src/changeset/apply.rs:49-173 | wherever a run ends, it executed eligible reports only, in plan order and none left out |
| `ChangeSet.ChangeSet.Apply` | autoschematic-server/src/changeset/apply.rs:18-272 | when the call succeeds, when the stored plan is used up, and what was executed; without a stored plan, or with one that is used up, it changes and executes nothing and fails |
| `Import.MatchesItselfIff` | autoschematic-core/src/glob.rs:15-42 | a filter matches itself if and only if it has names only, `.` aside |
| `Import.MatchesTransitive` | autoschematic-core/src/glob.rs:15-42 | matching is transitive, stars included |
| `Import.MatchesIsBelow` | autoschematic-core/src/glob.rs:15-42 | without stars, matching is lying below |
| `FilterMatches.DotsDoNotCount` | autoschematic-core/src/glob.rs:15-42 | a dot does not count, wherever it stands, in an address or a filter |
| `FilterMatches.DotMatchesAll` | autoschematic-core/src/connector.rs:496-498 | the default subspace `./` matches everything |
| `FilterMatches.NamesMatchIff` | autoschematic-core/src/glob.rs:15-42 | names match themselves and `*` any name, and a filter matches what lies below |
| `FilterMatches.OddFiltersMatchNothing` | autoschematic-core/src/glob.rs:15-42 | a filter with a root or `..` in it matches nothing |
| `Import.SelectedIff` | autoschematic-core/src/workflow/import.rs:195-201 | of the subspaces that hold a requested address exactly those are listed that the subpath, dots aside, does not cut short with a star |
| `Import.FoundElsewhere` | autoschematic-core/src/workflow/import.rs:232-246 | true if and only if another prefix of the resource group has the address |
| `Import.ImportFrom` | autoschematic-core/src/workflow/import.rs:195-268 | the loops pass on the chosen addresses in order, and fail exactly if a listing that is needed fails |
| `Import.ChosenFromIs` | autoschematic-core/src/workflow/import.rs:195-268 | an address is passed on if and only if it is listed in a selected subspace, matches the subpath, and no neighbour has it |
| `FilterMatches.ImportedAsListed` | autoschematic-core/src/workflow/import.rs:195-268 | an address is passed on as often as the selected subspaces list it |
| `FilterMatches.ImportFailsIff` | autoschematic-core/src/workflow/import.rs:218-226 | the import fails exactly if listing a selected subspace does |
| `FilterMatches.NeighbourKeeps` | autoschematic-core/src/workflow/import.rs:232-246 | what another prefix of the resource group has is not passed on |
| `FilterMatches.OwnIsNoObstacle` | autoschematic-core/src/workflow/import.rs:232-246 | what the prefix itself has, or prefixes outside of the group, is no obstacle |
| `Import.ImportFindsIff` | autoschematic-core/src/workflow/import.rs:195-268 | if the subspaces are star-free and listed completely, then for any subpath an address is passed on if and only if it exists, matches, no neighbour has it, and a subspace holds it that the subpath does not cut short with a star |
| `Import.ImportMissesNothing` | autoschematic-core/src/workflow/import.rs:195-268 | so if they also cover what exists, a subpath without stars passes on exactly what exists below it and no neighbour has |
| `Import.StarMissesAddress` | autoschematic-core/src/workflow/import.rs:195-201 | a star in the subpath can miss an address that matches it |
| `Comments.CodeLines` | autoschematic-core/src/template.rs:172-180 | every line with its offset as computed |
| `Comments.OffsetIsStartIff` | autoschematic-core/src/template.rs:172-180 | the offset of a line is where it starts if and only if no line before it ended in a carriage return and a newline |
| `Comments.FuzzyFind` | autoschematic-core/src/template.rs:300-342 | the offset of the middle line of the earliest window of least distance, given exactly if there is an anchor and some window is within 6 |
| `Comments.FuzzyWindow` | autoschematic-core/src/template.rs:300-342 | whatever offset is given belongs to such a window |
| `Comments.Buffer.InsertBefore` | autoschematic-core/src/template.rs:346-348 | the comment and a newline are inserted at the position |
| `Comments.Buffer.InsertAfterLine` | autoschematic-core/src/template.rs:351-359 | the same behind the line, or at the position if no newline follows |
| `Comments.Buffer.TryPlace` | autoschematic-core/src/template.rs:238-263 | exact predecessor, exact successor, fuzzy, in this order; nothing changes if none is found |
| `CommentPlaces.PlacedAfterLine` | autoschematic-core/src/template.rs:238-244 | if the line before it occurs, the comment goes behind the line of its first occurrence, or before that if no newline follows |
| `CommentPlaces.PlacedBeforeLine` | autoschematic-core/src/template.rs:246-252 | else, if the line after it occurs, before its first occurrence |
| `CommentPlaces.PlacedFuzzily` | autoschematic-core/src/template.rs:254-258 | else before the middle line of the first window near within the least distance up to six |
| `CommentPlaces.NotPlaced` | autoschematic-core/src/template.rs:260 | else nowhere |
| `CommentPlaces.BehindLineIs` | autoschematic-core/src/template.rs:351-359 | behind a line is where the next one starts |
| `Comments.ApplyComments` | autoschematic-core/src/template.rs:235-297 | the result is that of one pass over all comments and one more over those without a place |
| `Comments.OnlyInserts` | autoschematic-core/src/template.rs:235-297 | taking the insertions out again in reverse order gives back the target, and the length grew by the placed texts and a newline each |
| `Comments.EachAtMostOnce` | autoschematic-core/src/template.rs:235-297 | the texts inserted and those left over are together the texts given: each is placed once or dropped |
| `CommentPlaces.PassInOrder` | autoschematic-core/src/template.rs:238-260 | a pass takes the comments in order |
| `CommentPlaces.SecondChance` | autoschematic-core/src/template.rs:267-295 | a comment without a place at first that has one when all others are in is placed then |
| `CommentPlaces.LeftoversHaveNoPlace` | autoschematic-core/src/template.rs:267-295 | if the second pass places nothing, none of the comments left over has a place in the result |
| `Comments.PlaceStartsLineIff` | autoschematic-core/src/template.rs:238-263 | in text without carriage returns a comment goes to the start of a line if and only if the anchor it goes by was not found inside of one |
| `Comments.InsertAddsLine` | autoschematic-core/src/template.rs:346-359 | put at the start of a line, a comment becomes a line of its own and no other line changes |
| `Reindent.IndentLine` | autoschematic-lsp/src/reindent.rs:3-11 | the trimmed line behind four spaces a level |
| `Reindent.CountNetIndentShift` | autoschematic-lsp/src/reindent.rs:23-49 | brackets opened minus closed outside of quotes, and whether the line ends inside of one |
| `Reindent.Reindent` | autoschematic-lsp/src/reindent.rs:51-78 | the result is the re-indented lines |
| `Reindent.LineAt` | autoschematic-lsp/src/reindent.rs:51-78 | each line keeps its trimmed text, at the running balance of brackets, clamped at zero |
| `ReindentLevels.NetShiftIs` | autoschematic-lsp/src/reindent.rs:23-49 | the shift of a line is its opening brackets outside of quotes less its closing ones, counted by position |
| `ReindentLevels.LineStandsAt` | autoschematic-lsp/src/reindent.rs:51-78 | each line stands at the lower of the levels before and after it, not left of the margin, four spaces a level |
| `Reindent.NetShiftOfTrim` | autoschematic-lsp/src/reindent.rs:23-49 | the bracket counter does not see what trimming takes away |
| `Reindent.ReindentIdempotent` | autoschematic-lsp/src/reindent.rs:51-78 | the result has as many lines as the text, and re-indenting it again changes nothing |
| `ApplyOrder.SortObjectsByApplyOrder` | autoschematic-server/src/object.rs:53-81 | the result is a permutation with no removal before a creation and each kind in tree order, and is the ordering the lemmas are about |
| `ApplyOrder.OrderIsPermutation` | autoschematic-server/src/object.rs:53-81 | nothing is lost or doubled |
| `ApplyOrder.OrderRespectsTree` | autoschematic-server/src/object.rs:53-81 | no removal before a creation; no path after one below it, nor before it if both are removed |
| `ApplyOrder.OrderWithinDepth` | autoschematic-server/src/object.rs:53-81 | among equal depths creations keep their order and removals are turned round |
| `ApplyOrder.OrderTwiceIff` | autoschematic-server/src/object.rs:53-81 | sorting twice is sorting once if and only if the removals of every depth read the same from either end |
| `ApplyOrder.TwoRemovalsSwap` | autoschematic-server/src/object.rs:53-81 | any two different removals of one depth are swapped by the second sort |
| `ApplyOrder.OrderThreeTimes` | autoschematic-server/src/object.rs:53-81 | sorting three times is sorting once, always |

## Left out

- ReverseTemplate.ReverseThenExpand: the condition is sufficient only: a value that could overlap an earlier reference does no harm in a text where the two never meet, be it because an earlier value always takes away what the overlap needs, or where the text that is cut apart happens to spell a reference with a fitting value. `OverlapBreaksRoundTrip` is a family of inputs that fail.
- ReverseTemplate.ReverseTemplateConfig: the same condition, stated on what templating found.
- Deferral.Apply: all prompts are answered with yes, and the staged files stay the same in all rounds; the files a run itself stages are output files, which lie in no prefix.
- Deferral.RoundsEnd: connectors are assumed to settle what they execute, to have nothing to do for what is settled, never to remove an output, and to defer an address on unset outputs only.
- StoreRounds.HonestIsWellBehaved: connectors whose operations remove outputs, and stores in which a physical address holds outputs of its own that its virtual address does not have; there a link would hide them.
- Comments.FuzzyFind: the edit distance is a parameter, because it comes from an external crate; the results hold for every distance.
- Comments.Buffer.TryPlace: positions count characters, where the code counts bytes; for text that is not ASCII a line offset that is too short could fall inside of a character.
- Unbundle.RunRespectsOwnership: elements are assumed not to be bundle records, which the code does not check.
- Import.ImportFrom: the loops over prefixes and connectors around it, which only select, and the order in which listings and imports that run side by side complete.
- Paths.OutputPathInjective: the prefix `/`, which would replace the output root, and addresses with `..`.
- AddrTemplate.MatchSound: placeholder names are only required to be distinct; that a name must also be an identifier is left to the regular expression compilers.
- ChangeSet.ChangeSet.Plan: what is said to GitHub and the run log, except where a failure ends the run.
- Extracting comments from a file (`extract_comments`), and the tree walk that collects references from a parsed file.
- Paths are lists of components: the operating system's handling of `..`, Windows prefixes, names that are not UTF-8, and `PathBuf` values that are equal though written differently.
- Reading and writing files never fails except where named; directories that writers create are not modelled.
- Output files that cannot be parsed, which end the reading call with an error.
- Concurrent calls into the connector cache, which checks and inserts without holding one lock.
- Counters and lengths are unbounded.
- Choosing the connector for a path in `plan`, `apply` and `unbundle`: a loop that takes the first one that claims it.
- Processes, sandboxing, remote procedure calls, key storage, git, GitHub, and the command line's output.
- Configuration structures, environment files, and code that is no longer used.
