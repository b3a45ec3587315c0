# The engine's single writer, modelled and proved

Auroraw's engine has one writer: a coordinator that owns the photos' sidecars, the keyword vocabulary, the collections,
the catalogue that mirrors them, and the journal behind Undo and Redo. Background workers talk to it over one first-in
first-out queue. This project models that writer in Dafny and proves that its parts agree over whole runs.

## What is modelled

- **The coordinator** (`Coordinator`) is a class with the source's fields. Its invariant `Valid()` says three things at
  once: the workspace is good (a well-formed vocabulary, no dangling keyword, metadata that reads back), the catalogue
  says what a rebuild would, and every step of the journal leads between two neighbouring states of a trail, forth and
  back. Every command keeps it, so an undo is exact whatever mixture of photos, vocabulary and collections the step
  changed, and so are any number of undos followed by as many redos. `Worlds`, `Journal`, `PhotoEdits`, `PhotoMetadata`
  and `PlaceNames` hold the states that are compared, the changes, the two stacks and the edits; `Leaving` what the
  journal still undoes after a photo has left. What each command does is said of the state before and after it, without
  the functions that compute it: `PhotoChanges` of the photo edits, `VocabularyChanges` and `CollectionChanges` of the
  vocabulary and the collections, `AcceptedShares` of an accept, `WorldChanges` of a step in either direction.
- **The vocabulary and its index** (`Vocabulary`, `VocabularyEdits`, `KeywordIndex`, `KeywordText`, `KeywordBranches`):
  chains of parents with a cycle guard, branches, printed paths read back, the selection by path prefix, and the
  incremental update that refines a full rebuild.
- **The background protocols** are state machines over their steps. `PathRefresh` is the refresh of path snapshots.
  `BatchJobs` holds the paced jobs (batches, keyword sweeps, place names) among edits, deletions, undo and redo;
  `BatchJobKeywords` what they leave of the keywords, `BatchJobSweeps` what a sweep deletes, `BatchJobReports` what a
  report counts, `BatchJobEffects` what each event does, and `BatchJobRuns` three complete runs. `ExternalFiles` is the
  cache of the files other applications keep beside the photos; `ExternalWaits` what waits for an answer when an export
  writes, `ExternalAnswers` what an answer leaves, `ExternalRecords` what a message leaves, and `ExternalRuns` two
  complete runs. `PathRefreshEffects` says what the events of the refresh do. An event may happen whenever its
  guard allows, so a lemma about runs covers every interleaving of these events.
- **The tree algorithms**: the preorder of the collections by an explicit stack and the branch by a worklist
  (`CollectionTree`, `CollectionBranch`, `CollectionEdits`), and the tree of places whose counts are what each node's
  filter selects (`PlaceTree`).
- **Accepting external changes** (`AcceptedChanges`) and **the line rewriting of the translation files**
  (`TranslationLines`, `TranslationKeys`, `TranslationRewriting`).

Conventions. Identifiers are natural numbers; the ones the source draws at random are given, and fresh. Lower-casing is
a parameter `fold` about which nothing is assumed. A write that may fail is a Boolean parameter. Metadata is normal:
list fields hold trimmed, non-empty names without a line break, no text field is present and empty, custom fields have
unique names. States are compared without the path snapshots (a background job's) and without the order of the custom
fields. A coordinator in the source holds its state in files; here it holds the same values in fields.

## Where a wished-for property fails

- *A keyword with a broken chain is never dropped by a rebuild* (the comment at
  `crates/catalogue/src/rebuild.rs:39-42`). It does get a path, but its row still references the missing parent, and the
  references deferred to the commit then fail the whole rebuild: `KeywordIndex.Build` succeeds exactly when no parent is
  missing and no identifier is there twice.
- *The incremental update equals the rebuild* for any deltas: exactly when no keyword outside the rewritten branches
  hangs from one taken out (`KeywordIndex.IncrementalIsRebuild`).
- *The last vocabulary wins* even when a photo takes a keyword back while an older refresh of it is on its way
  (`PathRefresh.ATakenBackKeywordEndsStale`), or gets it back from an undo, which restores the path it had when the
  change was recorded (`PathRefresh.AnUndoneDeletionEndsStale`). `PathRefresh.GainingKeepsExactly` and
  `PathRefresh.PuttingBackKeepsExactly` are the exact conditions, and `PathRefresh.EndsCurrentExactly` says that they
  are exact about the end.
- *The external cache never misses a write*: one that falls between an export's write and the look that follows it is
  recorded as the export's own (`ExternalRuns.AWriteThatSlipsInIsMissed`); `ExternalFiles.WritingKeepsExactly` and
  `ExternalFiles.SlippingInHides` say that this and only this makes a record untrue.
- *A merge export never writes while a change waits*: nothing waits when it is granted, but the photo may be edited
  between the grant and the write, and a scan's reading of the very file then differs
  (`ExternalRuns.AMergeWritesOverAWaitingChange`). `ExternalWaits.WaitsAtTheWriteExactly` is the exact condition over
  the messages taken, and `ExternalWaits.NothingWaitsUnlessTouched` what a caller can see of it: without an edit, an
  answer, a move, a failing read or the leaving of the photo, or a message about another file of it, nothing waits. The
  export's look at what it wrote takes the change away unasked, which is one of the ways `ExternalWaits.LostExactly`
  lists; a reading taken while its photo cannot be read is another.
- *No keyword dangles*: undoing or redoing a change of the vocabulary asks nobody who carries what it takes out, and a
  background batch may just have put it on a photo (`BatchJobRuns.AnUndoLeavesAKeywordDangling`).
  `BatchJobKeywords.DanglesExactly` and `BatchJobKeywords.VocabularyTravelDanglesExactly` are the exact conditions;
  nothing but an undo or a redo does it.
- *An undo is made in full*: it stops at the first change that the catalogue refuses, which its file already says, and
  its step is then on neither stack (`BatchJobKeywords.StopsAtTheFirstRefused`, `BatchJobRuns.AnUndoStopsHalfWay`). Only
  while the catalogue is in step with the files is anything claimed of the next event, and
  `BatchJobKeywords.StaysInStepExactly` says which events end that.
- *A photo that comes in changes no step*: exactly when every keyword it carries is in the vocabulary of every state the
  steps go through (`Worlds.TrailJoined`). Otherwise an undo past the making of one leaves it dangling
  (`Worlds.UndoneBeside`).
- *After a photo has left, the other steps undo what they did*: they do when every step that went changed nothing but
  the photo (`Leaving.TrailForgets`). A step about several photos goes whole, and what it did to the others is then in
  no step (`Leaving.AStepThatWentTakesMore`).
- *A background deletion leaves a forest*: exactly when nothing was made or moved under the branch meanwhile
  (`BatchJobKeywords.SweepKeepsParentsExactly`, `BatchJobKeywords.StaysApart`; `BatchJobSweeps.FullSweepDeletes` is the
  whole run of a sweep that does). Otherwise the vocabulary's file loses the branch, the catalogue refuses the removal
  and the journal does not hold it (`BatchJobRuns.ASweepLeavesAKeywordWithoutParent`).
- *Selection by path prefix is the branch*: exactly when no keyword outside it, from which something hangs, has a path
  that the branch's own path matches as a LIKE pattern (`KeywordBranches.SelectionIsBranchExactly`); a wildcard in a
  name can make one match (`KeywordBranches.WildcardSelectsMore`).

## Model

| member | source | states |
|---|---|---|
| `Coordinator.Coordinator.Perform` | crates/engine/src/coordinator.rs:958-1092 | one edit as one action: it is refused for the first reason that holds, or the one photo or the one keyword is as asked and everything else as before; when it was so already no step is recorded, otherwise one, from the state before, with every earlier state of the journal where it was |
| `Coordinator.Coordinator.Batch` | crates/engine/src/coordinator.rs:1134-1173 | several edits are all or nothing: one step whose states are exactly the edits done one after the other, or the photos with their path snapshots, the vocabulary and the journal as before; a failure names an edit that is refused on what the ones before it made or cannot be written; past 200 edits a job is started and nothing changes |
| `Coordinator.Coordinator.RunEdits` | crates/engine/src/coordinator.rs:1156-1170 | the edits applied in order lead from the state before to the state after and back; the first failure takes everything back, newest first, path snapshots included |
| `Coordinator.Coordinator.UndoLast` | crates/engine/src/coordinator.rs:1176-1233 | undo gives exactly the state before the last action, whatever mixture of photos, vocabulary and collections it changed, and moves its step to the other stack |
| `Coordinator.Coordinator.RedoNext` | crates/engine/src/coordinator.rs:1176-1233 | redo gives exactly the state after the action that was undone last, and moves its step back |
| `Coordinator.Coordinator.GoBack` | crates/engine/src/coordinator.rs:1176-1233 | any number of undos gives exactly the state that many actions ago, and the steps wait on the other stack in the order they are redone |
| `Coordinator.Coordinator.ThereAndBack` | crates/engine/src/coordinator.rs:1176-1233 | as many redos as undos give back the state and both stacks of the journal, step by step |
| `Coordinator.Coordinator.TakeBack` | crates/engine/src/coordinator.rs:1686-1691 | changes that were made, taken back newest first, leave the state before them and the path snapshots they recorded |
| `Coordinator.Coordinator.DoAgain` | crates/engine/src/coordinator.rs:1205-1216 | an entry made again, oldest change first, leads to the state after it |
| `Coordinator.Coordinator.Record` | crates/engine/src/coordinator.rs:1119-1126 | recording keeps every earlier state of the journal in its place, cuts off what was undone and drops the oldest step past the limit; an entry without changes is no step |
| `Coordinator.Coordinator.WriteChange` | crates/engine/src/coordinator.rs:1235-1260 | one change, in either direction: each thing it names is as it was recorded for that direction and everything else as it was, the path snapshots it recorded included, and the catalogue stays what a rebuild would make |
| `Coordinator.Coordinator.PersistPhoto` | crates/engine/src/coordinator.rs:1107-1117 | a photo is written and the catalogue says of it what a rebuild would |
| `Coordinator.Coordinator.ApplyEdit` | crates/engine/src/coordinator.rs:954-1092 | every edit either is refused for the first reason that holds and changes nothing, or makes of the one photo or the vocabulary what was asked for and nothing else, and returns a change that leads there and back; none exactly when the photo was as asked |
| `Coordinator.Coordinator.constructor` | crates/engine/src/coordinator.rs:437-463 | any good workspace, opened with the catalogue built from it, is in step with it and with an empty journal |
| `Coordinator.Coordinator.PhotoArrives` | crates/engine/src/coordinator.rs:3180-3195 | an imported photo whose keywords are in the vocabulary of every state of the journal is in them all, and every step still leads where it led |
| `Worlds.TrailJoined` | crates/engine/src/coordinator.rs:3180-3195 | the steps of a journal lead between the states with a photo that came in as they did without it if and only if every keyword it carries is in the vocabulary throughout |
| `Worlds.UndoneBeside` | crates/engine/src/coordinator.rs:1201-1216 | otherwise, undoing past the making of a keyword it carries gives the state before beside the photo, with that keyword dangling |
| `Worlds.EntryGoesBack` | crates/engine/src/coordinator.rs:1201-1216 | the changes of an entry taken back in reverse give the world before it |
| `Worlds.ApplyIsApplyToView` | crates/engine/src/history.rs:301-334 | applying a change to metadata is applying it to what is compared: the order of custom fields and the path snapshots play no part |
| `Worlds.TrailRecords` | crates/engine/src/history.rs:679-687 | after a new action every remaining step still leads between two neighbouring states |
| `Worlds.TrailMoves` | crates/engine/src/history.rs:689-710 | moving a step from one stack to the other leaves the states between the steps as they are |
| `WorldChanges.StepTurns` | crates/engine/src/history.rs:301-334 | in either direction, each thing a change names (a photo's rating, flag, label, keywords, field or places, the entries, the collections, the series) is as it was recorded for that direction, and nothing else moves |
| `PhotoEdits.EditRecords` | crates/engine/src/coordinator.rs:956-1093 | the change of every photo edit, redone, gives the state after it and, undone, the state before it; an unrated photo goes back to unrated |
| `PhotoEdits.EditRecordsPaths` | crates/engine/src/coordinator.rs:956-1093 | the change of an edit that touches the path snapshots records the ones there were |
| `PhotoEdits.DropLeavesTheOthers` | crates/engine/src/coordinator.rs:1571-1586 | taking keywords out of the list in place, one by one, leaves exactly the other ones, in their order |
| `PhotoEdits.SweptPhoto` | crates/engine/src/coordinator.rs:1059-1082 | a sweep takes the keywords off a photo and changes nothing else |
| `PhotoEdits.EditedKeywords` | crates/engine/src/coordinator.rs:956-1093 | an edit gives a photo no keyword but the one it adds |
| `PhotoChanges.ComparedIsWhatIsSaid` | crates/engine/src/history.rs:301-334 | two photos are compared as one exactly when they have the same rating, flag, label, keywords, record of what was filled and text in every field |
| `PhotoChanges.PersonDoes` | crates/engine/src/coordinator.rs:990-1012 | a field written reads back as what was written (a list as its trimmed, non-empty lines), every other field says what it said, a rewritten custom field is last, and only a place field that got or lost a text changes the record, of that place alone |
| `PhotoChanges.DropTakesAll` | crates/engine/src/coordinator.rs:1059-1082 | of the keywords exactly those not asked for stay, in their order, with the snapshots at their places |
| `PhotoChanges.EditMakes` | crates/engine/src/coordinator.rs:956-1093 | every photo edit makes what was asked for and nothing else: the rating, the flag, the label, the field, the fill by the rule; an added keyword last with its printed path; a removed one at its first place, with its snapshot; and its change is none exactly when the photo was as asked |
| `PhotoChanges.ApplyDoes` | crates/engine/src/coordinator.rs:954-1092 | an edit that is not refused leaves the photos and the vocabulary with that one photo edited or that one keyword made |
| `PhotoChanges.RefusingSays` | crates/engine/src/coordinator.rs:954-1092 | an edit is refused for the first of its reasons that holds, and only then |
| `PhotoMetadata.SetIsSetView` | crates/engine/src/command.rs:84-127 | setting a field is setting it in what is compared, and keeps metadata normal (list fields trimmed, no empty text, custom names unique) |
| `PhotoMetadata.GetIsGetView` | crates/engine/src/command.rs:53-82 | the text of a field depends on what is compared alone |
| `PhotoMetadata.TextViewRestores` | crates/engine/src/command.rs:53-127 | whatever a field was set to, setting it back to its text before restores the metadata |
| `Text.TrimIsCore` | crates/engine/src/command.rs:91-98 | trimming is the one text without white space at its ends that leaves white space alone on either side |
| `Text.LinesAre` | crates/engine/src/command.rs:91-98 | the lines of a text are the pieces between its line feeds, a carriage return at the end of one belonging to the feed, the last piece only when it is not empty |
| `Journal.History.Record` | crates/engine/src/history.rs:679-687 | a new action clears what was undone and keeps the newest steps, as many as the limit allows, each in its place |
| `Journal.History.PutUndo` | crates/engine/src/history.rs:704-710 | a redone step goes back on the undo stack; in a valid journal the limit then evicts nothing |
| `Journal.History.ForgetPhoto` | crates/engine/src/history.rs:712-753 | both stacks forget the photo and nothing else, the bound over both still holds, and the answer is true exactly when a stack changed |
| `Journal.ForgettingIsComplete` | crates/engine/src/history.rs:712-753 | after forgetting, no change is about the photo and no snapshot of a series or a collection lists it |
| `Journal.ForgettingIsIdempotent` | crates/engine/src/history.rs:712-753 | forgetting again forgets nothing more |
| `Journal.NoEntryIsEmptied` | crates/engine/src/history.rs:715-751 | no step is left empty and none is added |
| `Journal.StateEntriesSurvive` | crates/engine/src/history.rs:718-722 | a step that changed another state stays, without that photo |
| `Journal.ForgettingTakesNothingElse` | crates/engine/src/history.rs:712-753 | what is left is all there was of the others: the steps that changed another state or nothing of the photo stay in their order, each with its other changes in their order, and every snapshot keeps its other members in theirs |
| `Leaving.WithoutLosesThePhoto` | crates/engine/src/history.rs:712-753 | the state without a photo has every other photo, the vocabulary, and every collection and series with its other members in order |
| `Journal.Forgetting` | crates/engine/src/history.rs:715-752 | counting what the snapshots list tells exactly whether anything was lost |
| `Leaving.LinkedWithout` | crates/engine/src/history.rs:715-746 | an entry leads without a photo between the states without it, its changes of that photo taken out and the others scrubbed |
| `Leaving.TrailForgets` | crates/engine/src/history.rs:712-753 | after a photo was forgotten, the steps that stay lead between the states without it, forth and back, when every step that went changed nothing but the photo |
| `Leaving.AboutItAlone` | crates/engine/src/history.rs:746-751 | a step about the photo alone changed nothing else |
| `Leaving.AStepThatWentTakesMore` | crates/engine/src/history.rs:746-751 | otherwise not: a step that rated another photo too goes with the one that left, and the step before it, undone and made again, does not give back the rating there was |
| `Vocabulary.KeywordPaths` | crates/catalogue/src/rebuild.rs:43-67 | the walk with its set of keywords met gives every keyword the path of its chain, for any list: missing parents, cycles and identifiers that are there twice included |
| `Vocabulary.DescendantsOf` | crates/engine/src/coordinator.rs:3198-3217 | a keyword and everything whose chain of parents meets it; each once when no identifier is there twice |
| `Vocabulary.UnderTransitive` | crates/engine/src/coordinator.rs:3198-3217 | in a forest, what is under something under a keyword is under the keyword |
| `VocabularyChanges.UnderIsLine` | crates/engine/src/coordinator.rs:3198-3217 | a keyword is under another exactly when a line of parents leads from it there, whatever else hangs where |
| `VocabularyChanges.PathIsWalk` | crates/catalogue/src/rebuild.rs:43-67 | a path is the names the walk from parent to parent meets, none twice, until the top, a missing parent or one already met |
| `VocabularyChanges.LastEntryWins` | crates/catalogue/src/rebuild.rs:43-67 | of the entries of one identifier the last one is read |
| `VocabularyChanges.PrintedStep` | crates/catalogue/src/rebuild.rs:43-67 | in a forest a printed path is the parent's, a separator and the name |
| `VocabularyEdits.ApplyDeltasIsOverlay` | crates/engine/src/coordinator.rs:1337-1350 | taking entries out of the list and pushing them at its end is, as a map, the deltas made |
| `VocabularyEdits.OverlayUndone` | crates/engine/src/coordinator.rs:1337-1350 | deltas that say what was there, made and taken back, give the vocabulary back |
| `VocabularyEdits.CreateKeeps` | crates/engine/src/coordinator.rs:1285-1325 | making a keyword keeps a forest without missing parents, siblings different whatever the case and names without the separator, and goes back exactly |
| `VocabularyEdits.RenameKeeps` | crates/engine/src/coordinator.rs:1414-1445 | renaming keeps the vocabulary well formed and goes back exactly |
| `VocabularyEdits.MoveKeeps` | crates/engine/src/coordinator.rs:1479-1521 | moving keeps the vocabulary well formed and goes back exactly |
| `VocabularyEdits.PropertiesKeep` | crates/engine/src/coordinator.rs:1447-1477 | changing synonyms or the export flag keeps the vocabulary well formed and goes back exactly |
| `VocabularyEdits.MoveGuardIsExact` | crates/engine/src/coordinator.rs:1479-1500 | a move makes a cycle exactly when the new parent is the keyword or under it |
| `VocabularyEdits.RemovalKeepsWellFormed` | crates/engine/src/coordinator.rs:1601-1617 | taking keywords out keeps the vocabulary well formed exactly when nothing that stays hangs from them |
| `VocabularyEdits.DeletingABranchKeepsWellFormed` | crates/engine/src/coordinator.rs:1601-1617 | deleting a keyword with everything under it keeps the vocabulary well formed and goes back exactly |
| `VocabularyChanges.CreateDoes` | crates/engine/src/coordinator.rs:1285-1325 | making a keyword adds the one entry, with the name trimmed, no synonyms and meant for export, exactly when the name can stand in a path, the parent is known, the name is free there and the identifier new; else the first reason that fails |
| `VocabularyChanges.RenameDoes` | crates/engine/src/coordinator.rs:1414-1445 | renaming changes the name of the one entry, exactly when it may, or says why not |
| `VocabularyChanges.MoveDoes` | crates/engine/src/coordinator.rs:1479-1521 | moving changes the parent of the one entry, exactly when it is another one, none or known, not of the branch, and the name is free there, or says why not |
| `VocabularyChanges.PropertiesDo` | crates/engine/src/coordinator.rs:1447-1477 | new properties change the synonyms and the export flag of the one entry, exactly when they differ |
| `VocabularyChanges.MovedPaths` | crates/engine/src/coordinator.rs:1479-1521 | after a move every path of the branch is the new parent's path followed by what came after the old parent's, and every other path stays |
| `VocabularyChanges.RenamedPaths` | crates/engine/src/coordinator.rs:1414-1445 | after a rename every path of the branch has the new name in that one place, and every other path stays |
| `VocabularyChanges.CreatedPaths` | crates/engine/src/coordinator.rs:1285-1325 | a new keyword's path is its parent's with its name at the end, and every other path stays |
| `VocabularyChanges.PrintedPathsFollow` | crates/engine/src/coordinator.rs:1352-1374 | in the printed paths of a branch what follows the changed keyword's own path stays, letter for letter |
| `Coordinator.Coordinator.RenameKeyword` | crates/engine/src/coordinator.rs:1414-1445 | the one entry gets the new name, trimmed, exactly when the name can stand in a path, the keyword is there and no sibling has it; one step from the state before, its refresh of the carriers asked for; else the first reason that holds, and nothing |
| `Coordinator.Coordinator.MoveKeyword` | crates/engine/src/coordinator.rs:1479-1521 | the one entry gets the new parent, exactly when it is another one, none or known, not of the branch, and the name is free there; one step from the state before, its refresh of the carriers asked for; else the first reason that holds, or nothing |
| `Coordinator.Coordinator.SetKeywordProperties` | crates/engine/src/coordinator.rs:1447-1477 | the one entry gets the synonyms and the export flag asked for, as one step from the state before; nothing when it has them |
| `Coordinator.Coordinator.DeleteKeyword` | crates/engine/src/coordinator.rs:1523-1631 | all or nothing: the branch is exactly the keyword and what is under it, the photos lose it with its path snapshots and nothing else, nobody carries it afterwards, the vocabulary loses exactly it, in one step; or everything as before, path snapshots included |
| `Coordinator.Coordinator.SweepBranch` | crates/engine/src/coordinator.rs:1569-1599 | the photos of a sweep lose the branch with its path snapshots and nothing else; a failure takes everything back, path snapshots included |
| `Coordinator.Coordinator.ApplyVocabulary` | crates/engine/src/coordinator.rs:1327-1412 | the vocabulary, the catalogue and what is compared become the state the deltas lead to; the photos to refresh are exactly the carriers of what was rewritten, and a refresh of them with the new paths runs or waits behind the others |
| `KeywordIndex.Build` | crates/catalogue/src/rebuild.rs:69-118 | a rebuild inserts for each keyword a row with its parent, name, printed path, export flag and synonyms, and no other row; it fails exactly when a parent is missing or an identifier is there twice |
| `KeywordIndex.RebuildMirrors` | crates/catalogue/src/rebuild.rs:69-118 | the rows of a rebuild are the ones that say of every keyword its parent, name, path, export flag and synonyms (which split back when none holds the separator), and only they are |
| `VocabularyChanges.RewrittenAreBelow` | crates/engine/src/coordinator.rs:1352-1374 | an update rewrites exactly the keywords from which a line of parents leads to one that was changed and is still there |
| `KeywordIndex.IncrementalIsRebuild` | crates/engine/src/coordinator.rs:1352-1374 | from the rows of a rebuild, an update leaves the rows a rebuild would make of the new vocabulary if and only if no keyword outside the rewritten branches hangs from one taken out; for any vocabulary, any deltas, either direction |
| `KeywordIndex.Catalogue.Follow` | crates/engine/src/coordinator.rs:1352-1374 | in a well-formed vocabulary no reference is refused and the rows say of every keyword what it says, as a rebuild would make them |
| `KeywordIndex.ParentRowExists` | crates/engine/src/coordinator.rs:1360-1361 | sorted by the depth of their paths, every row finds its parent's row there |
| `KeywordIndex.ParentIsShallower` | crates/engine/src/coordinator.rs:1360-1361 | a parent's path has fewer separators than its child's |
| `KeywordIndex.UntouchedRow` | crates/engine/src/coordinator.rs:1352-1359 | a keyword outside the rewritten branches keeps its path |
| `KeywordIndex.StaleRow` | crates/engine/src/coordinator.rs:1352-1374 | where the removals are not closed, the path left in the rows is longer than a rebuild's |
| `KeywordIndex.Catalogue.ApplyKeyword` | crates/catalogue/src/write.rs:103-122 | one row is inserted or updated unless its parent has none |
| `KeywordIndex.Catalogue.RemoveKeywords` | crates/catalogue/src/write.rs:124-139 | the rows and what carried them go together, or the commit is refused and nothing goes |
| `KeywordIndex.Catalogue.ApplyPhotoKeywords` | crates/catalogue/src/write.rs:64-70 | the rows of one photo are replaced and those of others stay |
| `KeywordText.ResolveKeywordPath` | crates/engine/src/coordinator.rs:2323-2355 | the loop finds or makes one keyword a segment |
| `KeywordText.PrintedPathResolves` | crates/engine/src/coordinator.rs:2323-2355 | a keyword's printed path resolves to that keyword and changes nothing |
| `KeywordText.AnyPathResolves` | crates/engine/src/coordinator.rs:2323-2355 | any text with a non-empty segment resolves to a keyword whose path is the trimmed segments whatever the case; nothing that was there goes, and the vocabulary stays well formed |
| `KeywordText.ReadingMakesWhatIsMissing` | crates/engine/src/coordinator.rs:2333-2353 | reading goes down as far as the names lead and makes exactly one keyword for each name after that, one under the other, each with its name as written, the next identifier, no synonyms, and meant for export |
| `KeywordText.ResolvingAgainMakesNothing` | crates/engine/src/coordinator.rs:2333-2353 | resolving the same text again creates nothing and arrives at the same keyword |
| `KeywordBranches.BranchIsSelected` | crates/catalogue/src/query.rs:229-237 | everything under a keyword is selected by its identifier or its path prefix, in any forest |
| `KeywordBranches.LikeIsFit` | crates/catalogue/src/query.rs:229-237 | a text is LIKE a pattern exactly when it can be cut into one piece a character: any for `%`, one character for `_`, the same letter whatever the case of an ASCII one for any other |
| `KeywordBranches.SelectionIsBranchExactly` | crates/catalogue/src/query.rs:229-237 | in a well-formed vocabulary the keywords selected by identifier or path prefix are exactly the branch if and only if no keyword outside it, from which something hangs, has a path that the branch's own path matches as a LIKE pattern |
| `KeywordBranches.LikeSeparator` | crates/catalogue/src/query.rs:447-462 | for any pattern and text: the pattern, a separator and anything match exactly the texts with a separator after a match of the pattern |
| `KeywordBranches.SelectedIsBranch` | crates/catalogue/src/query.rs:447-462 | in particular, a path without a LIKE wildcard selects exactly its branch |
| `KeywordBranches.WildcardSelectsMore` | crates/catalogue/src/query.rs:229-237 | an instance on the other side: a top-level keyword named `_` selects what hangs from a sibling whose name is one character |
| `Coordinator.Coordinator.AcceptExternal` | crates/engine/src/coordinator.rs:2505-2628 | accepting what other applications wrote is all or nothing and one step: the keywords the vocabulary lacks, then each photo's share, which says field by field what the file said, loses the keywords the file lost and gets the ones it gained last, in order and with their paths; any failure leaves everything as before, path snapshots included |
| `AcceptedChanges.TakeRecords` | crates/engine/src/coordinator.rs:2644-2706 | each field taken leads from the photo before to the photo after, and back |
| `AcceptedChanges.AcceptedKeywords` | crates/engine/src/coordinator.rs:2707-2746 | after an accept a photo has a keyword exactly when the file gained it, or it had it and the file did not lose it |
| `AcceptedShares.PushGains` | crates/engine/src/coordinator.rs:2731-2738 | of the gained keywords those that were not there come last, each once, in their order, with the paths the vocabulary prints |
| `AcceptedShares.KeywordsDo` | crates/engine/src/coordinator.rs:2707-2746 | the keywords the file lost, by their paths whatever the case, go with their snapshots, the others stay in order, and the gained ones follow |
| `AcceptedShares.SharesDo` | crates/engine/src/coordinator.rs:2630-2751 | each photo of an accept is the one before with its share taken, one thing after the other, or as it was when it said all of it already; every other photo is as it was |
| `AcceptedChanges.ShareLinks` | crates/engine/src/coordinator.rs:2630-2751 | a photo's whole share leads there and back, and leaves only keywords of the vocabulary |
| `AcceptedChanges.ResolveAll` | crates/engine/src/coordinator.rs:2547-2556 | every gained path ends at a keyword whose path says its names, in a vocabulary that only grew and is well formed |
| `Coordinator.Coordinator.AcceptPhoto` | crates/engine/src/coordinator.rs:2630-2751 | one photo's share is one write, and none when nothing changed |
| `PlaceNames.FillPlace` | crates/engine/src/place_names.rs:176-228 | every place field is filled by the rule, the record with it, nothing else of the photo changes, and there is a change exactly when the photo does |
| `PlaceNames.FilledAt` | crates/engine/src/place_names.rs:181-212 | a field that is empty and no person's answer, or on a refresh one with the text it was filled with, says exactly what was found and is recorded so; any other keeps its text, and a text that was not recorded leaves the record |
| `PlaceNames.FillDoes` | crates/engine/src/place_names.rs:176-228 | the rule for every field of a photo, with the record: none when it holds nothing, else at the new position when something was written and with whatever else it held |
| `PlaceNames.AnswerSurvives` | crates/engine/src/place_names.rs:176-286 | over any sequence of writes and fills, refreshes included, a field a person decided is never changed by a fill until a person writes it again |
| `PlaceNames.SaysWhatWasFound` | crates/engine/src/place_names.rs:176-286 | over any sequence of writes and fills, a field nobody decided since says what the last fill that could write it found, and is recorded so |
| `PlaceNames.FillIsIdempotent` | crates/engine/src/place_names.rs:176-228 | filling again with the same result changes nothing |
| `PlaceNames.WriteAt` | crates/engine/src/place_names.rs:262-286 | a person's write gives the field to the person and leaves the others |
| `PathRefresh.LastVocabularyWins` | crates/engine/src/refresh.rs:19-51 | whatever changes of the vocabulary interleave with refreshes, when all is quiet every path snapshot is the path in the vocabulary as it is, as long as what a photo gained or got back was to come right |
| `PathRefresh.EndsCurrentExactly` | crates/engine/src/refresh.rs:19-51 | from any state of the protocol, left alone, all becomes quiet with every snapshot current if and only if every snapshot is promised: the last update on its way that names it carries the current path, or it is current and none does |
| `PathRefresh.EveryEventKeeps` | crates/engine/src/coordinator.rs:1374-1412 | the last update on its way that names a photo carries the current paths of its keywords, or its snapshots are current already |
| `PathRefresh.GainingKeepsExactly` | crates/engine/src/coordinator.rs:1374-1412 | gaining a keyword keeps that promise if and only if the last update on its way that would give it a path gives it the current one |
| `PathRefresh.PuttingBackKeepsExactly` | crates/engine/src/history.rs:301-334 | an undo or a redo that puts recorded keywords back keeps the promise if and only if, for each, the last update on its way that names the photo gives the current path, or none does and the recorded snapshot is current |
| `PathRefresh.GainEndsCurrentExactly` | crates/engine/src/coordinator.rs:1374-1412 | after either, left alone, everything ends current if and only if that condition holds |
| `PathRefresh.AnUndoneDeletionEndsStale` | crates/engine/src/coordinator.rs:1176-1216 | a run without cancellation in which the undo of a deletion brings back a name the keyword had before a rename |
| `PathRefresh.ATakenBackKeywordEndsStale` | crates/engine/src/coordinator.rs:1712-1728 | a run without cancellation in which a photo takes a keyword back too early and is left with a name that is gone |
| `PathRefresh.SomethingHappens` | crates/engine/src/coordinator.rs:661-666 | until all is quiet some worker or the coordinator can move, and every move leaves less to do |
| `PathRefresh.TakingTakesTheFirst` | crates/engine/src/coordinator.rs:661-666 | taking a message makes the first update still to come, or starts the next request, and moves nothing else |
| `PathRefreshEffects.ChangesAskForUpdates` | crates/engine/src/coordinator.rs:1374-1412 | a change of the vocabulary asks for one update of each photo it touches, with the paths as of the change, behind every update still to come |
| `PathRefreshEffects.EventsMovePhotos` | crates/engine/src/coordinator.rs:1712-1728 | a refresh touches the snapshots of its one photo, at each place the path it gives the keyword there; only the person's commands touch what is carried |
| `Coordinator.Coordinator.HandleRefreshed` | crates/engine/src/coordinator.rs:1712-1728 | a refresh changes the snapshots of one photo and nothing that is compared |
| `BatchJobs.OneItemAtATime` | crates/engine/src/batch_job.rs:43-77 | in every reachable state a job has at most one message on its way, whatever interleaves |
| `BatchJobs.StaysOnTrack` | crates/engine/src/coordinator.rs:672-687 | every event keeps what was applied equal to what was sent, in order, and the counts equal to the outcomes |
| `BatchJobs.EndRecordsWhatWasApplied` | crates/engine/src/coordinator.rs:1633-1684 | the step of a job is exactly the changes of what it sent, in order; for a batch or a sweep that is a prefix of its items, cancelled or not |
| `BatchJobs.ReportAddsUp` | crates/engine/src/place_names.rs:307-432 | a report of place names ends with photos = filled + had a place + no position + open water + failed |
| `BatchJobReports.ReportSays` | crates/engine/src/place_names.rs:307-432 | over any run a report counts the looks without a position, in open water and unreadable each as such, with the writes that were refused as failed, those that changed nothing as having a place, and exactly those that changed something as filled |
| `BatchJobEffects.EventsMoveTheDesk` | crates/engine/src/coordinator.rs:1633-1684 | an item taken is one edit done or refused, a command all of its edits done or none, the end of a sweep and a deletion take out exactly their branch, and no other event but an undo or a redo moves a photo or the vocabulary |
| `BatchJobEffects.EventsMoveTheStacks` | crates/engine/src/coordinator.rs:1176-1233 | an undo or a redo takes the newest step of its stack and puts it on the other, unless the step is dropped or stops half way; any other event records one step, which ends what can be redone, or none |
| `BatchJobKeywords.NothingEverDangles` | crates/engine/src/coordinator.rs:1523-1684 | along every run, until an event costs the catalogue its step, every keyword a photo carries is in the vocabulary and every parent is there |
| `BatchJobKeywords.StaysInStepExactly` | crates/engine/src/coordinator.rs:1176-1260 | an event costs the catalogue its step if and only if it is the end of a sweep under which something was kept, or an undo or a redo that leaves a keyword without its parent, or on its way a photo with a keyword that is gone |
| `BatchJobKeywords.DanglesExactly` | crates/engine/src/coordinator.rs:1176-1260 | while the catalogue is in step, an event leaves a keyword dangling if and only if it is an undo or a redo whose changes, as far as they are written, leave it on a photo and out of the vocabulary |
| `BatchJobKeywords.VocabularyTravelDanglesExactly` | crates/engine/src/coordinator.rs:1235-1240 | undoing or redoing a change of the vocabulary keeps every keyword known if and only if nobody carries what it takes out |
| `BatchJobKeywords.TravelledSays` | crates/engine/src/coordinator.rs:1201-1216 | the state changes leave is, keyword by keyword and photo by photo, what the last of them about it says |
| `BatchJobKeywords.StopsAtTheFirstRefused` | crates/engine/src/coordinator.rs:1205-1216 | an undo or a redo writes its changes from the first to the first that the catalogue refuses, that one included, or all of them when it refuses none |
| `BatchJobKeywords.TravelSays` | crates/engine/src/coordinator.rs:1176-1233 | what an undo or a redo leaves is what the last words of the changes it wrote say, none when its step was dropped |
| `BatchJobRuns.AnUndoLeavesAKeywordDangling` | crates/engine/src/coordinator.rs:1176-1240 | a run in which undoing the making of a keyword leaves it on a photo a background batch just put it on |
| `BatchJobRuns.AnUndoStopsHalfWay` | crates/engine/src/coordinator.rs:1205-1240 | a run in which an undo takes a keyword out, is refused for the one a background batch made under it, and stops: the rest of the step is not undone, what a photo carries stays known, and the step is on neither stack |
| `BatchJobKeywords.KeywordsLeaveExactly` | crates/engine/src/coordinator.rs:1601-1669 | a keyword leaves the vocabulary exactly at the end of a sweep of its branch when nobody carries any of it, with its branch deleted at once (nobody carries it then), or by an undo or a redo before it stops |
| `BatchJobKeywords.SweepKeepsParentsExactly` | crates/engine/src/coordinator.rs:1652-1669 | the end of a sweep leaves no parent missing, and records its deletion, if and only if nothing that stays hangs from what goes |
| `BatchJobKeywords.ParentsStay` | crates/engine/src/coordinator.rs:1633-1684 | while the catalogue is in step, an event leaves a parent missing if and only if it is such an end of a sweep, or an undo or a redo that leaves a keyword without the parent it names, where it stops |
| `BatchJobRuns.ASweepLeavesAKeywordWithoutParent` | crates/engine/src/coordinator.rs:1643-1669 | a run in which a keyword is made under a branch being swept: the branch goes, its child stays, and the journal does not hold the deletion |
| `BatchJobKeywords.StaysApart` | crates/engine/src/coordinator.rs:1633-1684 | a branch stays apart from the rest exactly through the events that put no keyword under it |
| `BatchJobSweeps.UndisturbedSweepDeletes` | crates/engine/src/coordinator.rs:1523-1684 | from a sweep's start to its end, when no keyword is put under its branch, nothing else leaves a parent missing and nobody carries it at the end: exactly the branch leaves the vocabulary, no parent is missing, and the last step of the journal ends with the deletion |
| `BatchJobSweeps.SweepLeavesNobody` | crates/engine/src/coordinator.rs:1523-1562 | along every run, when all the items of a sweep were sent and written and nothing gave a photo a keyword of the branch meanwhile, nobody carries any of it at its end |
| `BatchJobSweeps.FullSweepDeletes` | crates/engine/src/coordinator.rs:1523-1684 | such a sweep, when nothing was put under its branch and nothing cost the catalogue its step meanwhile, deletes exactly the branch and leaves the catalogue in step |
| `ExternalFiles.EveryEventKeeps` | crates/engine/src/coordinator.rs:2395-2434 | every record of a file, kept or on its way, says what the file holds if the file still has the stat it was read at |
| `ExternalRecords.MessagesAreTaken` | crates/engine/src/coordinator.rs:3020-3130 | what a message leaves: a reading of a tracked file that differs waits, any other is the base, a question is granted, held back, answered as up to date or refused by what the photo says and the file holds, with exactly what may be written, and no other record moves |
| `ExternalAnswers.AnswerIsRemembered` | crates/catalogue/src/external.rs:204-226 | after an answer the base is what waited, at the stat it was read at, nothing waits, and no other record moves |
| `ExternalAnswers.RowGoesExactly` | crates/engine/src/coordinator.rs:2395-2434 | the record of a file goes, by one event, exactly when its photo leaves or moves or another file of it is recorded |
| `ExternalAnswers.AnsweredOnce` | crates/engine/src/coordinator.rs:2485-2504 | along every run, from an answer on, as long as the file is the one answered for and its record does not go, the base is what was answered and nothing waits; and a scan reads the file again if and only if the last reading recorded since came with another stat |
| `ExternalFiles.SkippedHidesNothing` | crates/engine/src/external_xmp.rs:121-127 | a file that is not read again holds exactly what the base or the pending change says |
| `ExternalFiles.WritingKeepsExactly` | crates/engine/src/xmp_export_job.rs:262-292 | a write keeps the records true if and only if no export has written that file and not yet looked at it |
| `ExternalFiles.SlippingInHides` | crates/engine/src/xmp_export_job.rs:262-292 | otherwise, from any state and whatever is decided about the messages on their way, after the look the file is skipped and what it holds is in no record |
| `ExternalRuns.AWriteThatSlipsInIsMissed` | crates/engine/src/xmp_export_job.rs:262-292 | a run in which another application's write, between an export's write and its look, is never read |
| `ExternalFiles.ExportReplacesWhatItExamined` | crates/engine/src/xmp_export_job.rs:302-320 | an export that replaces a file replaces the very content its decision examined |
| `ExternalWaits.WaitsAtTheWriteExactly` | crates/engine/src/coordinator.rs:3062-3126 | nothing waits when a merging export is granted; along every run a change of the file waits at the write if and only if a differing reading of it was taken after the grant and nothing took the change away since |
| `ExternalWaits.NothingWaitsUnlessTouched` | crates/engine/src/coordinator.rs:3027-3126 | along every run, when the file is still the one a granted merge read, nothing of it waits, unless since the grant the photo was edited, answered for, moved, made unreadable or taken out, or a message about another file of it was taken |
| `ExternalWaits.GrantedMeansNothingWaits` | crates/engine/src/coordinator.rs:3077-3126 | a merge is granted only when nothing waits and the file has nothing to take or ask, and then writes what the photo says at the decision, merged into the file as it was read |
| `ExternalRuns.AMergeWritesOverAWaitingChange` | crates/engine/src/coordinator.rs:3062-3126 | a run in which nothing slips in and nobody answers: the photo is edited after a merge was granted, a change of its file is noticed and waits, the export writes what the photo said at the grant, and its look takes the change away |
| `ExternalWaits.LostExactly` | crates/engine/src/coordinator.rs:2395-2434 | along every run a waiting change is lost exactly when the photo is answered, leaves or moves, or a message about it is taken that records another file, what an export wrote, or a reading that does not differ |
| `ExternalFiles.WaitingKeepsItsBase` | crates/catalogue/src/external.rs:183-201 | while a change of a file waits, its base and the stat of the base stay what they were |
| `CollectionTree.InTreeOrder` | crates/catalogue/src/collections.rs:35-71 | the explicit stack ends for any rows, cycles included, and lists exactly the rows reached from the top, each once, in preorder with depth one more than its parent's, siblings in order |
| `CollectionTree.GatherChildren` | crates/catalogue/src/collections.rs:38-46 | the children of every parent, each once and in order |
| `CollectionBranch.ListingIsPermutation` | crates/catalogue/src/collections.rs:31-71 | the listing is a permutation of the rows if and only if no collection is inside itself |
| `CollectionBranch.BranchOf` | crates/engine/src/collection_ops.rs:27-41 | the growing worklist ends on a listing and finds the collection first and then exactly what is inside it, each once |
| `CollectionBranch.ListedBranchIsBranch` | crates/engine/src/collection_ops.rs:27-41 | the branch found in a listing is the branch among all the rows |
| `CollectionBranch.MoveGuardIsExact` | crates/engine/src/collection_ops.rs:216-223 | a move makes a loop if and only if it goes into the collection's own branch |
| `CollectionEdits.ListCollections` | crates/catalogue/src/collections.rs:35-71 | the manual collections in tree order, parents first; all of them when none is inside itself |
| `CollectionEdits.CollectionsGoBack` | crates/engine/src/collection_ops.rs:96-124 | the states before, put back, are the collections before |
| `CollectionEdits.CreatePlanKeeps` | crates/engine/src/collection_ops.rs:137-178 | making a collection keeps a forest whose siblings differ |
| `CollectionEdits.RenamePlanKeeps` | crates/engine/src/collection_ops.rs:180-204 | renaming keeps it |
| `CollectionEdits.MovePlanKeeps` | crates/engine/src/collection_ops.rs:206-237 | moving keeps it |
| `CollectionEdits.DeletePlanKeeps` | crates/engine/src/collection_ops.rs:239-254 | deleting a branch keeps it |
| `CollectionEdits.MembersKeep` | crates/engine/src/collection_ops.rs:256-312 | adding and taking out photos keeps it |
| `CollectionChanges.CreatePlanDoes` | crates/engine/src/collection_ops.rs:137-178 | a new collection is manual, with the trimmed name, the parent and the photos, each once at its first place, exactly when it may be made; else the first reason that fails |
| `CollectionChanges.RenamePlanDoes` | crates/engine/src/collection_ops.rs:180-204 | renaming changes the name of the one collection, or says why not |
| `CollectionChanges.MovePlanDoes` | crates/engine/src/collection_ops.rs:206-237 | moving changes the parent of the one collection, or says why not |
| `CollectionChanges.DeletePlanDoes` | crates/engine/src/collection_ops.rs:239-254 | deleting takes out exactly the branch |
| `CollectionChanges.AddPlanDoes` | crates/engine/src/collection_ops.rs:256-283 | of the photos the ones that are no members yet come last, each once and in order; nothing when all are |
| `CollectionChanges.TakeOutPlanDoes` | crates/engine/src/collection_ops.rs:285-312 | exactly the members that are these photos go, and the others stay in order; nothing when none is |
| `Coordinator.Coordinator.CreateCollection` | crates/engine/src/collection_ops.rs:137-178 | the new collection, with its name, parent and photos, as one step of the journal that starts from the state before; or the first reason that fails, and nothing |
| `Coordinator.Coordinator.RenameCollection` | crates/engine/src/collection_ops.rs:180-204 | the one collection with its new name as one such step; or why not, or nothing |
| `Coordinator.Coordinator.MoveCollection` | crates/engine/src/collection_ops.rs:206-237 | the one collection with its new parent as one such step; or why not, or nothing |
| `Coordinator.Coordinator.DeleteCollection` | crates/engine/src/collection_ops.rs:239-254 | exactly the branch goes, as one such step |
| `Coordinator.Coordinator.AddToCollection` | crates/engine/src/collection_ops.rs:256-283 | the photos that were not there, in their order, as one such step, or nothing |
| `Coordinator.Coordinator.RemoveFromCollection` | crates/engine/src/collection_ops.rs:285-312 | the photos taken out as one such step, or nothing |
| `PlaceTree.Facets` | crates/catalogue/src/place.rs:533-597 | for every filter a node can carry the tree has one node with it when it selects some photo, counting exactly what it selects, and none otherwise; cities hang from their region or country, regions from their country; the top nodes add up to the photos with a place |
| `PlaceTree.GroupBy` | crates/catalogue/src/place.rs:437-456 | a grouped query counts every wanted place once |
| `PlaceTree.AddPlaceHolds` | crates/catalogue/src/place.rs:458-483 | a row raises the counts of exactly the branches whose filters select it |
| `PlaceTree.CountryNode` | crates/catalogue/src/place.rs:485-525 | the node of a country counts, filter by filter, what its branch does, and holds its own regions over their cities and its cities of no region |
| `PlaceTree.FillCountries` | crates/catalogue/src/place.rs:553-569 | after all the rows the branches hold what the rows have |
| `PlaceTree.EachIsCountedOnce` | crates/catalogue/src/place.rs:533-597 | when every placed photo is selected by one top node, the nodes together count each once |
| `TranslationLines.Pieces` | xtask/src/translations.rs:35-67 | the loop over the lines is the scan |
| `TranslationLines.PrintingUndoesScanning` | xtask/src/translations.rs:35-67 | the pieces and the unfinished tail hold every line of the file, in order |
| `TranslationLines.ScanningUndoesPrinting` | xtask/src/translations.rs:35-67 | pieces as a scan cuts them, printed, scan to the same pieces |
| `TranslationLines.CutNamesContexts` | xtask/src/translations.rs:35-67 | a message is of the context that the last naming line before it names |
| `TranslationLines.NameOnIs` | xtask/src/translations.rs:53-58 | a line names a context exactly when the name stands between its tags behind white space alone |
| `TranslationKeys.TagTextIs` | xtask/src/translations.rs:69-75 | a tag's text is what stands between the first opening tag and the first closing one after it, and nothing when one of them is missing |
| `TranslationKeys.PartedByPlace` | xtask/src/translations.rs:78-82 | the location lines and the others are the lines parted, each in their order |
| `TranslationKeys.KeysAreIdentities` | xtask/src/translations.rs:77-89 | two messages share a key if and only if context, source text and comment agree, a missing comment being none |
| `TranslationRewriting.Restore` | xtask/src/translations.rs:106-157 | each message of the rewritten file has the locations of the last message of the old file with its context, source text and comment, or its own; kept counts the messages that are in the old file, added the others; gone is exactly the context and source of each message of the old file that is not in the new |
| `TranslationLines.RestoringAgainChangesNothing` | xtask/src/translations.rs:106-157 | rewriting again changes nothing |
| `TranslationLines.OnlyLocationsChange` | xtask/src/translations.rs:106-157 | without the location lines of closed messages the rewritten file is the new file |
| `TranslationRewriting.MessagesKeepTheirLocations` | xtask/src/translations.rs:121-141 | read again, each message has its context, opening line and other lines, and the locations of the last message of the old file with the same context, source text and comment, or its own |

## Left out

- BatchJobs.EndRecordsWhatWasApplied: the journal of the protocol has no limit; a job's step is recorded at its end,
  after the commands that came in between, so undoing it exactly is not claimed.
- BatchJobSweeps.UndisturbedSweepDeletes: a sweep or a deletion at once of any size may run; the threshold that decides
  between them is modelled for batches only, so the sweep of `BatchJobRuns.ASweepLeavesAKeywordWithoutParent` has one
  photo.
- BatchJobKeywords.StaysInStepExactly: once the catalogue is out of step with the files nothing is claimed until a
  rebuild, which is not an event; in an undo or a redo, changes of collections and series are never refused.
- PathRefresh.LastVocabularyWins: runs without cancellation (a cancelled refresh leaves its snapshots as they are).
- ExternalFiles.ExportReplacesWhatItExamined: the comparison of the stat and the rename are one step. What a merge makes
  of a file is any function of what the photo says and the fields the file holds; the options of an export but merging
  or replacing are the same along a run.
- PlaceTree.Facets: the labels of nodes and their order, which come from the spellings and a folding table.
- ExternalAnswers.AnsweredOnce: a comparison that finds nothing when the file holds what its base says is required of
  the rules, as of `ExternalWaits.NothingWaitsUnlessTouched`.
- CollectionTree.InTreeOrder: the order of siblings is any total order on rows (in the source the lower-cased name, then
  the identifier as text), the member counts that ride along are dropped, and rows are carried as values instead of
  indices.
- TranslationRewriting.Restore: text is a sequence of lines; the choice of line ending, the final newline and the
  sorting of the list of gone messages are not modelled.
- Coordinator.Coordinator.AcceptExternal: what the three-way comparison proposes is given; a photo's fields are taken
  one by one and written once.
- Coordinator.Coordinator.UndoLast: writes of an undo or a redo succeed and its photos are there; the branches for a
  failing write (the step is lost) and for a photo that left (skipped or dropped) are left out, as is the leaving of a
  photo as a command.
- Coordinator.Coordinator.RedoNext: as for UndoLast, writes succeed and the photos are there.
- Journal.History.ForgetPhoto: series dissolved by the automatic regrouping (`forget_series`) are left out.
- Leaving.TrailForgets: one way only, since steps that went may also be of states the others never touch; a series that
  is dissolved because too few photos are left in it is not modelled.
- Series commands, keywords of versions (`version_keyword`), effective ratings and the search index.
- Labels and menu names of steps, event payloads, timestamps.
- Keywords created by an import or an index job, which are outside the journal.
- The keys of metadata fields (`key`, `parse`), preview groups of place names, the owner of an XMP file (`owners`).
- SQLite itself (tables are maps and sets, a grouped query is a loop), the file system, threads and clocks.
- The rest of the repository: import, relinking, scanning, thumbnails, the interface, the command line and the build
  tools.
