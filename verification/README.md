# CustomPBX: state, orderings and protocols

This project models the parts of the CustomPBX control server for FreeSWITCH in which several pieces of state have to
stay in step, and proves what they keep over every run.

* **Ordered tables** (`Positions`, `MoveProgram`, `OrderedTables`). Extensions, conditions, actions, anti-actions and
  global variables carry positions. A move runs five UPDATE statements under a unique constraint that PostgreSQL checks
  row by row, and a separate loop repeats the move on the cached objects. A statement is a set of matching rows that may
  be visited in any order; legality is stated over all partly executed states.
* **The dialplan cache** (`DialplanTree`, `DialplanDocuments`, `DialplanTables`, `DialplanSteps`, `DialplanEffects`,
  `DialplanRuns`, `DialplanStore`, `DialplanViews`, `DialplanInit`, `DialplanNames`). Tables, cached objects, the maps
  nested in them, the flat maps by id, and the document stored for every context are one state. Every operation on the
  tree is a step of it, for any positions in tables and objects; class `Dialplans` performs the operations with the
  loops and field updates of the program, `DialplanInit` loads the cache from the tables, and `DialplanNames` follows
  a rename through the name indexes.
* **Live calls** (`CallSummary`, `CallClock`, `LiveCalls`, `LiveEffects`, `CallServer`). Two caches are driven by
  create, answer, destroy and reconcile events. The per-user summary is a loop over a map whose iteration order is
  arbitrary, and the duration of a call is computed twice, in seconds and in nanoseconds.
* **Recordings** (`RecordingSpool`, `SpoolWorker`, `Paths`, `RecordingRoute`). Upload workers, the retry, failing calls
  and crashes interleave over spool files, stored objects and one row per call; file and key are those that the server
  computes from record path and call id. The object key is printed as a route and read back from the request path.
* **Migration 0.3.5** (`Migration`). A bulk shift and insert on the dialplan actions.
* **Smaller cores**: webhook events and nonces accepted once per time window (`EventWindow`), batches and numbered SQL
  parameters (`Batching`), names of users added in bulk (`BulkNames`), the swap-delete loop over gateways
  (`GatewayFilter`).

`AnyOrder.Pick` stands for "the next element in whatever order": loops over Go maps and over matching rows draw from it.
`Options` and `Text` hold the optional value and the string functions that several modules use.

Database, storage, directory lookup and clock are inputs: methods take the failures (`faults`, `refused`, `fails`,
`Answers`) and times as parameters, and steps take them as part of the action.

Where a property holds on part of the inputs only, the exact condition is proved in both directions: a committed move
below zero, with and without a cache that is read again (`OrderedTables.EveryRunInStepIff`), a move below zero or a
rename that hits another extension (`DialplanRuns.EveryRunGoodIff`), a rename that reaches what another context shows
(`DialplanRuns.EveryRunShownIff`), whom a rename hits (`DialplanNames.FiledRenameAgreesIff`), a negative target position
(`MoveProgram.MoveIsLegal`, `MoveProgram.CommittedAsIntended`), tables with equal or non-positive positions
(`DialplanInit.InitDialplanCache`), the regex switch (`DialplanSteps.SwitchAgreesIff`), two equal positions among shown
siblings (`DialplanTree.ViewDeterminedIff`), a call that changes its user (`LiveCalls.StepConsistentIff`), the clock
offset at a snapshot (`LiveCalls.ReconcileForgetsIff`), epochs whose scaling wraps around
(`CallClock.DurationsAgreeIff`), what depends on the order of a map (`CallSummary.CallDateIgnoresOrderIff`,
`CallSummary.DirectionIgnoresOrderIff`), two record paths that lead to one spool file
(`RecordingSpool.NoRecordingLostIff`), workers that stand before their put (`RecordingSpool.UploadedIsFinalIff`),
requests that a later one made the table forget (`EventWindow.TakenIff`, `EventWindow.TableErrsIff`), several bridges in
one condition (`Migration.MigratedDistinctIff`), the recording named ".." (`RecordingRoute.RoundTripIff`), a last numeral
of 0 (`BulkNames.FirstNameIsGivenIff`), and foreign gateways near the end (`GatewayFilter.CleanIff`).

Where comments in the repository promise something else than the code does, the model follows the code. The comment
above `recordingRoute` accepts only paths under a known root; the code also accepts every relative path that stays inside.
The comment in migration 0.3.5 speaks of each bridge, but with several bridges in one condition a timeout can land on the
position of another action.

## Model

| member | source | states |
|---|---|---|
| Positions.ViewIsUnique | src/custompbx/mainStruct/mainStructDialplan.go:394-408 | distinct positions determine the sorted view |
| Positions.MoveIsRemoveThenInsert | src/custompbx/mainStruct/mainStructDialplan.go:394-408 | on positions 1 to N a list is the sorted view after the move if and only if it is the old view with the item taken out at p and put in at n |
| Positions.MoveWithGaps | src/custompbx/db/dialplanDb.go:456-471 | also with gaps: positions stay distinct, the item stands at n, the others keep their order, and the opposite move restores all positions |
| MoveProgram.LegalIffPairwise | src/custompbx/db/dialplanDb.go:50-66 | no visiting order of a statement ever shows two rows of one parent at one position, if and only if every two rows stay apart before, after and when only one of them was rewritten |
| MoveProgram.MoveIsLegal | src/custompbx/db/dialplanDb.go:427-449 | for distinct positive positions with any gaps the five statements break the constraint at no row step in no order, if and only if the target is not negative or its mirror is free |
| MoveProgram.MoveComputes | src/custompbx/db/dialplanDb.go:427-449 | the five statements commit the cyclic shift inside the parent; rows of every other parent are unchanged although the flips have no parent filter; the row lands at the absolute value of the target |
| MoveProgram.CommittedAsIntended | src/custompbx/db/dialplanDb.go:446-471 | the committed table is the intended shift if and only if the target is not negative |
| MoveProgram.MoveKeepsTable | src/custompbx/db/dialplanDb.go:427-449 | a legal move leaves positions distinct, and positive if and only if the target was not 0 |
| OrderedTables.OrderedTable.UpdateRows | src/custompbx/db/dialplanDb.go:427-430 | one UPDATE with the constraint checked after each row: it ends in the executed statement, distinct positions staying distinct, or fails and then some order is illegal |
| OrderedTables.OrderedTable.MoveRows | src/custompbx/db/dialplanDb.go:412-454 | for any rows and any position of the caller's object: the transaction commits the five statements built from that position, or rolls back to the table before; without database failures it commits when no order of the rows breaks the constraint |
| OrderedTables.Replay | src/custompbx/db/dialplanDb.go:456-471 | for any positions the in-memory loop moves every sibling as the position function says, but leaves one that shares the place of the moved item; it compares against an object that it rewrites itself |
| OrderedTables.OrderedTable.Move | src/custompbx/db/dialplanDb.go:412-474 | whether table and cache agreed or not, each follows its own positions; from agreeing ones they agree after a commit if and only if the target is not negative; after a failure nothing changed |
| OrderedTables.AgreementAfterMove | src/custompbx/db/dialplanDb.go:456-471 | the same for any committed table and any replayed objects |
| OrderedTables.OrderedTable.Append | src/custompbx/db/dialplanDb.go:156-166 | an insert takes the position after the last one of its parent, or 1 |
| OrderedTables.GlobalVariables.Reload | src/custompbx/db/globalVariables.go:48-64 | the reload sets exactly the positions of the instance's rows |
| OrderedTables.GlobalVariables.Move | src/custompbx/db/globalVariables.go:94-155 | the statements are built from the cached position, and the cache that is read again agrees with the table after every commit, whatever it held |
| OrderedTables.EveryRunInStepIff | src/custompbx/db/dialplanDb.go:412-474 | in a run of appends, deletions and moves built from the cached positions, with any targets and failures, with and without a constraint, positions are positive, distinct and the same in table and cache in every state if and only if every committed move has a target above zero, or, where the cache is read again, one whose mirror is free |
| OrderedTables.StepInStepIff | src/custompbx/db/globalVariables.go:94-155 | the same for one request from tables and cache in step |
| OrderedTables.EveryRunUnique | src/custompbx/db/dialplanDb.go:50-66 | whatever the targets, a declared constraint keeps positions distinct in every run |
| OrderedTables.StaleCacheReachesZero | src/custompbx/db/dialplanDb.go:412-421 | three moves to targets other than 0, each legal at every row: the third is built from the position that a move below zero left in the cache, and commits a row at position 0 |
| OrderedTables.NoConstraintCommitsTwins | src/custompbx/db/dialplanDb.go:69-112 | without a constraint a move below zero commits two rows at one position |
| DialplanTree.SortedIsUnique | src/custompbx/mainStruct/mainStructDialplan.go:394-408 | there is one list of the siblings by position when their positions differ |
| DialplanTree.ViewDeterminedIff | src/custompbx/mainStruct/mainStructDialplan.go:394-408 | the order in which siblings are shown is determined if and only if their positions differ |
| DialplanTree.AnyOrderSameBag | src/custompbx/mainStruct/mainStructDialplan.go:426-437 | regexes are shown in map order: any two orders give the same multiset |
| DialplanTree.SameRender | src/custompbx/mainStruct/mainStructDialplan.go:630-684 | a context whose subtree is the same has the same document, whatever happens elsewhere |
| DialplanTree.ShowsIsRender | src/custompbx/mainStruct/mainStructDialplan.go:630-684 | with distinct sibling positions a context has one document: whatever the loops over the maps write is its rendering |
| DialplanTree.SameShows | src/custompbx/mainStruct/mainStructDialplan.go:630-684 | also with equal positions, a document of a context stays one while its subtree is the same |
| DialplanDocuments.ShownContext | src/custompbx/mainStruct/mainStructDialplan.go:630-684 | a document carries, for every enabled extension, condition, action, anti-action and regex of its context, each attribute of the object under its own name: name and continue, field, expression, break, regex and the schedule but the day of the month, application, data and inline; children in position order, regexes in any order |
| DialplanDocuments.ShownCondition | src/custompbx/mainStruct/mainStructDialplan.go:640-681 | the same for one condition with what hangs from it |
| DialplanTables.ProgramIsShift | src/custompbx/db/dialplanDb.go:476-538 | for every target the five statements on a table in step commit the shift, are legal in every order, and leave positions distinct, if and only if the target is not negative or its mirror is free |
| DialplanSteps.FlatIsFlattening | src/custompbx/mainStruct/mainStructDialplan.go:160-197 | an item is in the flat maps if and only if it hangs from a cached context through the nested maps |
| DialplanSteps.DeleteIsCascade | src/custompbx/mainStruct/mainStructDialplan.go:556-628 | for any positions, after a deletion the flat maps hold exactly the keys that ON DELETE CASCADE leaves in the tables, and both lost exactly the item and its descendants |
| DialplanSteps.EditTied | src/custompbx/pbxcache/dialplan.go:10-635 | every operation, harmless or not and for any positions, leaves objects, nested maps, flat maps and tables one tree |
| DialplanEffects.ContextWritten | src/custompbx/pbxcache/dialplan.go:10-26 | a created context has its name in object and row and nothing below it; no other item, row or map changes |
| DialplanEffects.ItemWritten | src/custompbx/pbxcache/dialplan.go:83-236 | a created item is in object and row what was sent, is the new child of its parent, and nothing else changes |
| DialplanEffects.ItemRemoved | src/custompbx/pbxcache/dialplan.go:498-512 | a deleted item leaves the maps, its parent and the tables; objects, remaining rows and other children are as they were |
| DialplanEffects.ItemUpdated | src/custompbx/pbxcache/dialplan.go:528-603 | an update writes object and row alike: of a condition the field with its expression when a field is sent, else the regex mode when one is sent, else the schedule, the other two modes being emptied; nothing else changes |
| DialplanEffects.ItemSwitched | src/custompbx/pbxcache/dialplan.go:401-441 | a switch sets the object, and the row but for a regex, whose `field` column is written "true" or "false" |
| DialplanEffects.ItemRenamed | src/custompbx/pbxcache/dialplan.go:443-482 | a rename writes the name to the row and to the objects that are hit, and leaves their other fields and all other items |
| DialplanEffects.ItemMoved | src/custompbx/db/dialplanDb.go:412-474 | a move changes nothing but positions, of objects of one parent and kind and of rows of one table; the object stands at the target |
| DialplanEffects.SettingWritten | src/custompbx/pbxcache/dialplan.go:33-56 | the setting is written as given, and a refused operation changes nothing |
| DialplanSteps.SwitchAgreesIff | src/custompbx/db/dialplanDb.go:716-722 | after a switch cache and table agree on the item if and only if it is no regex or the regex had these values already |
| DialplanSteps.EditKeepsLinksIff | src/custompbx/pbxcache/dialplan.go:83-482 | every create, delete, update, switch, move and rename leaves objects, nested maps, flat maps and tables linked, with distinct positive sibling positions, if and only if it is harmless: the target of a move is above zero, and a rename gives the new name to the renamed item and to no other that lacks it |
| DialplanRuns.DocumentsFollow | src/custompbx/pbxcache/dialplan.go:83-101 | rendering again the one context in which everything changed keeps the documents of all contexts right |
| DialplanRuns.EditShownIff | src/custompbx/pbxcache/dialplan.go:83-635 | for any positions every operation leaves each context with a document that shows its tree while NoProceed is on, if and only if it is no rename that gives a new name to an object which another context shows |
| DialplanRuns.EditKeepsGoodIff | src/custompbx/pbxcache/dialplan.go:83-482 | the same with the documents: after an operation cache, tables, maps and stored documents are all in step if and only if it was harmless |
| DialplanRuns.EveryRunGoodIff | src/custompbx/pbxcache/dialplan.go:10-635 | in a run from any state in which everything is in step, it is so in every state if and only if every operation of the run is harmless |
| DialplanRuns.EveryRunTied | src/custompbx/pbxcache/dialplan.go:10-635 | in every run from any tree, with any operations and positions, nothing is orphaned and the flat maps hold what the tables hold |
| DialplanRuns.EveryRunShownIff | src/custompbx/pbxcache/dialplan.go:83-635 | in every state of such a run all contexts have documents that show them if and only if no operation is a rename that reaches what another context shows |
| DialplanRuns.EveryRunDistinct | src/custompbx/db/dialplanDb.go:50-66 | in every such run the tables that declare a constraint keep distinct positions |
| DialplanRuns.GoodDocuments | src/custompbx/mainStruct/mainStructDialplan.go:630-706 | in a state in step every stored document is the rendering of its context |
| DialplanSteps.MoveIsProgram | src/custompbx/db/dialplanDb.go:476-538 | in a state in step, what a move of the tree does to the rows is the shift for every target, and the constraint permits it in every order if and only if the target is above zero, its mirror is free, or the table declares none |
| DialplanStore.SortByPosition | src/custompbx/mainStruct/mainStructDialplan.go:404-406 | the sort of the list views keeps the elements and orders them by position |
| DialplanStore.Dialplans.ClearUpKind | src/custompbx/mainStruct/mainStructDialplan.go:572-583 | one clean-up loop drops exactly the items of its kind whose parent is no longer cached |
| DialplanStore.Dialplans.ClearConditions | src/custompbx/mainStruct/mainStructDialplan.go:565-570 | the four passes in their order |
| DialplanStore.Dialplans.ClearExtensions | src/custompbx/mainStruct/mainStructDialplan.go:560-563 | extensions first, then what hangs below them |
| DialplanStore.Dialplans.List | src/custompbx/mainStruct/mainStructDialplan.go:394-408 | a list view shows exactly the enabled children, by position |
| DialplanStore.Dialplans.DocOfCondition | src/custompbx/mainStruct/mainStructDialplan.go:640-681 | a shown condition: actions and anti-actions in a position order and the regexes as a multiset, for any positions |
| DialplanStore.Dialplans.DocOfExtension | src/custompbx/mainStruct/mainStructDialplan.go:636-683 | the conditions of an extension in a position order, for any positions |
| DialplanStore.Dialplans.CacheFullXML | src/custompbx/mainStruct/mainStructDialplan.go:630-706 | without NoProceed nothing is stored, otherwise the context's document shows its tree as it is now, attribute by attribute and whatever the positions, and no other document changes |
| DialplanStore.Dialplans.SetContext | src/custompbx/pbxcache/dialplan.go:10-26 | from any tree: a created context is one step of the model, and a refused one changes nothing |
| DialplanStore.Dialplans.NextPosition | src/custompbx/db/dialplanDb.go:214-224 | for any rows the position of a new item is one past the last of its parent, or 1 below an empty parent |
| DialplanStore.Dialplans.Add | src/custompbx/pbxcache/dialplan.go:83-236 | from any tree: the five creates below a context, at the next position and linked both ways, are one step of the model |
| DialplanStore.Dialplans.Delete | src/custompbx/pbxcache/dialplan.go:484-512 | from any tree: the deletes with their clean-up are one step of the model |
| DialplanStore.Dialplans.Rename | src/custompbx/pbxcache/dialplan.go:443-482 | from any tree: a rename of the table row and of the objects that the indexes lead to is one step of the model |
| DialplanStore.Dialplans.Update | src/custompbx/pbxcache/dialplan.go:528-603 | from any tree: the updates, with the modes of a condition excluding each other, are one step of the model |
| DialplanStore.Dialplans.Switch | src/custompbx/pbxcache/dialplan.go:401-441 | from any tree: the switches, with the regex table written in its `field` column, are one step of the model |
| DialplanStore.Dialplans.Replay | src/custompbx/db/dialplanDb.go:584-599 | for any positions the loop over the siblings in any map order moves all of them as the position function says, but leaves one that shares the place of the moved item |
| DialplanStore.Dialplans.Move | src/custompbx/pbxcache/dialplan.go:256-308 | from any tree and for every target: the five statements run on the table from the cached position, with the constraint checked after each row, and the loop on the objects, are together the move step, or the transaction is rolled back and nothing changes; without failures it commits when the constraint is broken in no order |
| DialplanStore.Dialplans.SwitchNoProceed | src/custompbx/pbxcache/dialplan.go:33-56 | from any tree: switching on renders every cached context |
| DialplanNames.Extensions.Add | src/custompbx/pbxcache/dialplan.go:83-101 | an extension is refused when its context has the name; otherwise it is filed in the index of the context and hides others of that name in the index over all contexts |
| DialplanNames.Extensions.Remove | src/custompbx/mainStruct/mainStructDialplan.go:549-554 | both indexes drop the name of the deleted extension, wherever they lead |
| DialplanNames.Extensions.Rename | src/custompbx/pbxcache/dialplan.go:463-482 | the table, the index over all contexts, then the index of the context under the name that the object has by then |
| DialplanNames.RenameAgreesIff | src/custompbx/mainStruct/mainStructDialplan.go:517-526 | from any indexes, objects and table agree about all names after a rename if and only if the two searches lead to the extension, or it had the name, and to no other that lacked it |
| DialplanNames.FiledRenameAgreesIff | src/custompbx/pbxcache/dialplan.go:463-482 | while each context files its own extensions they agree if and only if the index over all contexts leads from the old name to this extension or to none |
| DialplanNames.OldNameStaysTaken | src/custompbx/mainStruct/mainStructDialplan.go:517-526 | when it leads to this extension, and only then, the index of the context keeps the old name, so that it stays taken |
| DialplanNames.AddKeepsFiled | src/custompbx/pbxcache/dialplan.go:83-101 | adding extensions keeps every context filing its own |
| DialplanNames.RemoveKeepsFiled | src/custompbx/pbxcache/dialplan.go:499-512 | so does deleting one, although the index over all contexts may lose the name of another |
| DialplanNames.RenameKeepsFiledIff | src/custompbx/pbxcache/dialplan.go:463-482 | a rename does so if and only if the index over all contexts does not hold the old name and the context does not hold the new one |
| DialplanNames.RenameStepIff | src/custompbx/pbxcache/dialplan.go:463-482 | with the objects that the indexes lead to, the rename step of the dialplan is harmless if and only if all names agree after it, and it leaves a wrong document if and only if NoProceed is on and another context shows one of them under another name |
| DialplanViews.AddIsLast | src/custompbx/db/dialplanDb.go:156-166 | a created item is shown after all its siblings |
| DialplanViews.MoveSeenThroughView | src/custompbx/mainStruct/mainStructDialplan.go:394-408 | when all siblings are shown and stand at 1 to N, the list view after a move to one of them is the one before with the item taken out and put in at n |
| DialplanViews.MoveKeepsOthers | src/custompbx/mainStruct/mainStructDialplan.go:394-408 | with gaps and hidden siblings the other shown siblings keep their order |
| DialplanViews.ShownIff | src/custompbx/mainStruct/mainStructDialplan.go:640-659 | two conditions are shown the same if and only if they differ in nothing but the day of the month, which is not written |
| DialplanInit.LoadKids | src/custompbx/db/dialplanDb.go:287-305 | loads exactly the rows of one parent into objects, nested map and flat map, for any positions |
| DialplanInit.OthersKeepTheirDocument | src/custompbx/pbxcache/pbxcache.go:89-105 | loading one context leaves every document already stored for another one a document of that context |
| DialplanInit.InitDialplanCache | src/custompbx/pbxcache/pbxcache.go:86-106 | from any tables whose references resolve, the nested loops load every row once: objects equal rows, all maps and tables agree and every stored document shows its context; operations find everything in step if and only if ordered siblings have distinct positive positions |
| CallSummary.SummaryIgnoresOrder | src/custompbx/cache/cache.go:216-238 | Talking, and CallDate for creation times that are not negative, are the same for every iteration order |
| CallSummary.FoldDates | src/custompbx/cache/cache.go:216-238 | CallDate is the least positive creation time, or 0 |
| CallSummary.LastUuidIsEarliest | src/custompbx/cache/cache.go:216-238 | with distinct positive creation times LastUuid is the earliest talking call, else the earliest call |
| CallSummary.CallDateIgnoresOrderIff | src/custompbx/cache/cache.go:223-230 | CallDate is independent of the order if and only if no creation time is negative or all that are not 0 are equal |
| CallSummary.DirectionIgnoresOrderIff | src/custompbx/cache/cache.go:223-237 | CallDirection is that of the earliest call or of the earliest talker, and independent of the order if and only if these two agree |
| CallClock.DurationsAgreeIff | src/custompbx/fsesl/fsesl.go:843-849 | for all positive epochs, in seconds or microseconds, the webhook's duration is the CDR's or one second more if and only if: with equally many wraps of the scaling, the seconds between them fit the longest duration; with more wraps at the end, they are at most one; with more at the start, they are the longest duration or one more, or the webhook counts nothing and the wrapped difference is below a second; when the clock offset takes the start to zero or below, the wrapped difference is below a second |
| CallClock.InRangeAgreeIff | src/custompbx/fsesl/fsesl.go:843-849 | for epochs that do not wrap, with a start that stays positive under the clock offset, they agree if and only if the seconds between start and end are at most the longest duration plus one; without saturation the webhook counts the extra second exactly when the end lies earlier in its second than the start |
| CallClock.NoSaturation | src/custompbx/cdrwriter/writer.go:105-112 | for in-range epochs whose end is given in microseconds or lies before the year 2262 the durations agree up to one second |
| CallClock.PaddedAgreeIff | src/custompbx/cdrwriter/writer.go:162-171 | with white space around a header, which the record trims and the webhook does not, they agree if and only if one of the trimmed headers is no positive number or what is left between the two after the wraps is under a second |
| CallClock.BilledWithinDuration | src/custompbx/cdrwriter/writer.go:105-112 | when the answer is not before the start, billed seconds never exceed the duration, and what is not billed is the time from start to answer, up to a second |
| CallClock.TimesCount | src/custompbx/cdrwriter/writer.go:99-112 | a record is built exactly when start and end are given; its duration is the number of whole seconds from start to end, its billed time that from answer to end, exactly for all instants that do not wrap and cut at the longest duration, and 0 without an answer |
| CallClock.BilledNothingIff | src/custompbx/cdrwriter/writer.go:109-112 | nothing is billed if and only if the call was not answered or ended less than a second after the answer |
| CallClock.NumberParsed | src/custompbx/fsesl/fsesl.go:980-990 | a numeral with a sign and leading zeros is read as its number, unless it does not fit 64 bits |
| CallClock.ParsedIsNumber | src/custompbx/fsesl/fsesl.go:980-990 | and nothing else is read as a number |
| LiveCalls.CreateConsistentIff | src/custompbx/fsesl/fsesl.go:666-734 | a create event keeps channels and user calls consistent if and only if no other user holds the call |
| LiveCalls.AnswerConsistent | src/custompbx/fsesl/fsesl.go:736-764 | an answer keeps them consistent |
| LiveCalls.DestroyConsistent | src/custompbx/fsesl/fsesl.go:766-795 | a destroy keeps them consistent, also when the other leg is removed instead and when neither leg is known |
| LiveCalls.ReconcileConsistentIff | src/custompbx/fsesl/fsesl.go:1417-1446 | a reconciliation ends consistent if and only if all entries of one uuid that resolve to a user resolve to the user of the last one, whatever the state was before |
| LiveCalls.ReconcileForgetsIff | src/custompbx/fsesl/fsesl.go:1417-1446 | after a snapshot the channels depend on the snapshot alone; every user's calls do if and only if the clock offsets left by the last create events are equal or no call of the snapshot has a creation time |
| LiveCalls.ReconcileKeepsCalls | src/custompbx/fsesl/fsesl.go:985-1003 | whatever the offsets, which calls a user has, their directions and whether they talk depend on the snapshot alone |
| LiveCalls.StepConsistentIff | src/custompbx/fsesl/fsesl.go:666-795 | every step of a consistent state is consistent if and only if its event is harmless |
| LiveCalls.EveryRunConsistent | src/custompbx/fsesl/fsesl.go:666-795 | in every run in which a uuid keeps its user, a call is active for a user exactly when its channel is cached and resolves to that user, Talking says ACTIVE, and keys are uuids |
| LiveEffects.CreateStores | src/custompbx/fsesl/fsesl.go:666-734 | a create event caches the channel under its uuid and puts the user named by its presence, or by its name without one, in this call, with direction, talking flag and the creation time in seconds shifted by the clock offset; it sets that offset; no other call or channel changes |
| LiveEffects.AnswerMarks | src/custompbx/fsesl/fsesl.go:736-764 | an answer marks the cached channel active and the call of its user talking, and changes nothing else; an unknown one changes nothing |
| LiveEffects.DestroyRemoves | src/custompbx/fsesl/fsesl.go:766-795 | a destroy removes the channel it names, or else the other leg, with the call of that channel's user; of an unknown channel it ends the call of the user that the event names; nothing else changes |
| LiveEffects.ReconcileHolds | src/custompbx/fsesl/fsesl.go:1417-1446 | after a snapshot exactly its uuids are cached, each as in its last entry, and a user is in exactly the calls that entries give to that user, each as in the last such entry |
| CallServer.Channels.Set | src/custompbx/mainStruct/mainStruct.go:415-423 | stores the channel under its uuid and recounts |
| CallServer.Channels.MarkAnswered | src/custompbx/mainStruct/mainStruct.go:442-453 | marks one channel active, returns a copy, recounts |
| CallServer.Channels.RemoveByUUID | src/custompbx/mainStruct/mainStruct.go:455-469 | removes the channel, or the other leg when that is the one known, and recounts |
| CallServer.Channels.Replace | src/custompbx/mainStruct/mainStruct.go:471-484 | keeps the last entry of every uuid and recounts |
| CallServer.Channels.GetLength | src/custompbx/mainStruct/mainStruct.go:502-513 | the recounting getter equals the cached counters |
| CallServer.Refresh | src/custompbx/cache/cache.go:216-238 | the loop computes a summary that some iteration order of the map gives |
| CallServer.UserCache.SetCall | src/custompbx/cache/cache.go:139-160 | adds or removes one call of one user and refreshes the summary |
| CallServer.UserCache.ActiveCallUserIDs | src/custompbx/cache/cache.go:162-172 | returns exactly the users that are in a call |
| CallServer.UserCache.ReplaceCalls | src/custompbx/cache/cache.go:174-203 | empties all users and rebuilds those of the snapshot |
| CallServer.CallsByUser | src/custompbx/fsesl/fsesl.go:1418-1431 | sorts the calls of a snapshot by the user they resolve to |
| CallServer.Server.ChannelCreated | src/custompbx/fsesl/fsesl.go:666-734 | the handler is the create step, whose effect on the caches `LiveEffects.CreateStores` states; counters stay a recount and summaries fresh |
| CallServer.Server.ChannelAnswered | src/custompbx/fsesl/fsesl.go:736-764 | the handler is the answer step |
| CallServer.Server.ChannelDestroyed | src/custompbx/fsesl/fsesl.go:766-795 | the handler is the destroy step, fallback and unknown legs included |
| CallServer.Server.CleanupUnknown | src/custompbx/fsesl/fsesl.go:1041-1056 | removes the call of an unknown channel from the user that the event names |
| CallServer.Server.GetChannels | src/custompbx/fsesl/fsesl.go:1398-1454 | the handler is the reconcile step, and exactly the users of the snapshot, and those that were in a call unless their lookup fails, are published with their new state |
| CallServer.FlagsFromChannels | src/custompbx/fsesl/fsesl.go:970-980 | in a consistent state a user is in a call, and talking, exactly when a cached channel, and an active one, resolves to the user |
| RecordingSpool.NoRecordingLostIff | src/custompbx/recordingstore/store.go:99-259 | with files and keys as the server computes them, over every interleaving of any workers, retries, failing and half-applied calls and crashes, each recording is in its file or is itself stored under the key of its row, if and only if no record paths of two different calls, one of them with an acceptable id, lead to one spool file |
| RecordingSpool.RunKeepsInv | src/custompbx/recordingstore/store.go:161-201 | the invariant behind it, along every run |
| RecordingSpool.SharedFileLoses | src/custompbx/recordingstore/store.go:178-196 | a run that loses a recording when two calls share a spool file |
| RecordingSpool.CallsHaveOwnKeys | src/custompbx/recordingstore/store.go:86-94 | no two calls are ever stored under one key, whatever their files and times |
| RecordingSpool.StoredUnder | src/custompbx/recordingstore/store.go:161-176 | a call's recording is stored under the day on which its file was written, with its id and the extension of the file |
| RecordingSpool.FiveFailures | src/custompbx/recordingstore/store.go:172-201 | after five attempts that store nothing the row says failed, and the file and everything else is as before |
| RecordingSpool.CrashEnds | src/custompbx/recordingstore/store.go:96-110 | a crash ends every worker and leaves files, objects and rows as they are |
| RecordingSpool.UploadedIsFinalIff | src/custompbx/recordingstore/store.go:161-201 | a row that says uploaded stays so in every run that does not queue the call again, if and only if every live worker of the call has put its object already |
| RecordingSpool.StuckForever | src/custompbx/recordingstore/store.go:132-159 | a row that says failed after the file was removed never says uploaded again, whatever is retried |
| RecordingSpool.UploadedIsNotFinal | src/custompbx/recordingstore/store.go:167-170 | a run in which a late worker turns uploaded into failed while the recording stays safe |
| SpoolWorker.Spool.QueueUpload | src/custompbx/recordingstore/store.go:99-110 | marks the row pending and starts a worker, or does nothing when the write fails |
| SpoolWorker.Spool.Upload | src/custompbx/recordingstore/store.go:161-201 | the upload loop, with any steps of others in between, ends and is a run of the interleaved machine |
| SpoolWorker.UploadLosesNothing | src/custompbx/recordingstore/store.go:161-201 | so no such run loses a recording when calls have their own spool files and keys |
| RecordingRoute.RoundTripIff | src/custompbx/cdrDb/cdrDb.go:351-374 | a key built under the default prefix, shown as a route, split and rejoined, and validated is the same key, if and only if a served root is set that the key is not below, the name has no percent sign and no white space at its end, and it is not ".." |
| RecordingRoute.RoundTrip | src/custompbx/main.go:333-340 | for an absolute root and plain names the trip fails for one name only |
| RecordingRoute.ServedAsIsIff | src/custompbx/recordingstore/store.go:294-304 | a clean key under the prefix passes validation unchanged if and only if it has no percent sign and does not end in white space |
| RecordingRoute.ServedShrinks | src/custompbx/recordingstore/store.go:294-304 | whatever is served for a route is its text or shorter |
| RecordingRoute.ValidatedExactly | src/custompbx/recordingstore/store.go:294-304 | a key is accepted if and only if it decodes to a path of ordinary elements below the prefix |
| RecordingRoute.RouteStrips | src/custompbx/cdrDb/cdrDb.go:351-374 | below the served root, or else below the FreeSWITCH directory, the rest of the path is shown, any other path as it is, and only one that stays inside; without a served root nothing is |
| RecordingRoute.OneSlashCut | src/custompbx/cdrDb/cdrDb.go:351-374 | one slash at the end of the served root does not count |
| Paths.UnescapedUnits | src/custompbx/recordingstore/store.go:294-296 | a text of characters and escapes with hexadecimal digits of either case decodes unit by unit |
| Paths.UnescapedHasUnits | src/custompbx/recordingstore/store.go:294-296 | and nothing else is decoded at all |
| Paths.TrimmedText | src/custompbx/recordingstore/store.go:208-208 | white space around a text is cut off and nothing but that |
| Paths.SpacesAre | src/custompbx/recordingstore/store.go:208-208 | what counts as white space |
| Paths.UpUndoesDown | src/custompbx/recordingstore/store.go:218-218 | an element and the two dots behind it cancel wherever they stand |
| Paths.UpFromRoot | src/custompbx/recordingstore/store.go:218-218 | two dots at the start of an absolute path are dropped |
| Paths.DotIsDropped | src/custompbx/recordingstore/store.go:218-218 | an empty element or a dot is dropped wherever it stands |
| Paths.LeadingUpsStay | src/custompbx/recordingstore/store.go:218-221 | two dots at the start of a relative path stay, so that the check that follows finds them |
| RecordingRoute.RejoinedSplit | src/custompbx/main.go:333-334 | splitting and rejoining up to seven segments loses slashes at the end only |
| RecordingRoute.KeyIsJoin | src/custompbx/recordingstore/store.go:86-94 | the key has six segments, the last of them the name |
| RecordingRoute.KeyReads | src/custompbx/recordingstore/store.go:86-94 | a key is the prefix, the year, the month and the day as digits with these values, in 4, 2 and 2 places up to the year 9999, and the call id with the extension or .wav |
| Text.DigitIs | src/custompbx/recordingstore/store.go:93-93 | the ten digits |
| RecordingRoute.KeyRefusedIff | src/custompbx/recordingstore/store.go:86-89 | no key is built if and only if the call id is empty or holds a slash or two dots in a row |
| RecordingRoute.ExtIs | src/custompbx/recordingstore/store.go:178-178 | the extension of a file begins at the last dot of its name |
| RecordingRoute.NoExt | src/custompbx/recordingstore/store.go:178-178 | a name without a dot has none |
| RecordingRoute.DatesDiffer | src/custompbx/recordingstore/store.go:86-94 | equal keys under one prefix are of one day |
| RecordingRoute.KeysDiffer | src/custompbx/recordingstore/store.go:86-94 | the key determines the call id: equal keys under one prefix are keys of one call |
| RecordingRoute.SpoolPathInside | src/custompbx/recordingstore/store.go:207-223 | an accepted spool path lies below the mount point and has ordinary elements only |
| RecordingRoute.SameSpoolPath | src/custompbx/recordingstore/store.go:210-216 | both names of the shared volume lead to one spool path |
| RecordingRoute.SpoolPathOf | src/custompbx/recordingstore/store.go:207-223 | a path of ordinary elements below either name of the shared volume is found below the mount point, with the same elements |
| RecordingRoute.OutsideIsRefused | src/custompbx/recordingstore/store.go:210-217 | a path below neither name is refused |
| RecordingRoute.SpoolPathTwiceIff | src/custompbx/recordingstore/store.go:207-223 | mapping a spool path again changes nothing if and only if it does not end in white space |
| Migration.MigratedDistinctIff | src/custompbx/db/migrateDb.go:182-234 | positions stay distinct if and only if no bridge above the lowest one of its condition directly follows another action; one bridge per condition is always fine |
| Migration.MigratedKeeps | src/custompbx/db/migrateDb.go:182-211 | contents and relative order of all old actions are kept, and conditions without an eligible bridge are untouched |
| Migration.MigratedAdds | src/custompbx/db/migrateDb.go:212-234 | every eligible bridge gets one timeout immediately before it, and nothing else is added |
| Migration.MigrationIsIdempotent | src/custompbx/db/migrateDb.go:182-234 | run again it changes nothing |
| Migration.ActionsTable.Migrate | src/custompbx/db/migrateDb.go:166-240 | the transaction leaves the table as it was, or commits the outcome below |
| Migration.MigratedOutcome | src/custompbx/db/migrateDb.go:182-234 | on the rows and strings themselves: one row, enabled and reading set originate_timeout=45, is inserted at the place of each row that is enabled, has application bridge and data beginning with user/, lies in a context named default and in a condition without a set of originate_timeout; every row at or behind one of these in its condition moves up by one, and nothing else changes |
| Migration.ActionsTable.UpdatePositions | src/custompbx/db/migrateDb.go:182-211 | minimum per condition, then a raise of every action from there on |
| Migration.ActionsTable.InsertTimeouts | src/custompbx/db/migrateDb.go:212-234 | inserts one timeout per bridge of the table as the statement saw it |
| EventWindow.TableDecides | src/custompbx/callwebhook/dispatcher.go:129-149 | for any times, the pruned table refuses a request if and only if one with its id was accepted less than the window before it and no pruning request since then came the window or more after that one |
| EventWindow.TakenIff | src/custompbx/callwebhook/dispatcher.go:129-149 | in any history a request is accepted if and only if every earlier accepted one with its id lies the window before it or was forgotten: a pruning request in between came the window or more after it |
| EventWindow.TableErrsIff | src/custompbx/callwebhook/dispatcher.go:141-148 | the table differs from the full history if and only if the request repeats accepted ones inside the window and all of them were forgotten, and then it accepts |
| EventWindow.InOrderIsHistory | src/custompbx/callwebhook/dispatcher.go:141-148 | for a request that no earlier one overtook, the entries that stand decide like the full history |
| EventWindow.OvertakenPasses | src/custompbx/callwebhook/dispatcher.go:118-147 | the order of times matters, which are read before the lock is taken: an id forgotten by a later request passes again inside its window |
| EventWindow.WindowsLast | src/custompbx/callwebhook/dispatcher.go:127-127 | the windows are ten minutes for events and one minute, inclusive, for nonces |
| EventWindow.RefusedRepeats | src/custompbx/callwebhook/dispatcher.go:141-143 | a refused request repeats one accepted less than the window before |
| EventWindow.DecisionRemembers | src/custompbx/callwebhook/dispatcher.go:144-147 | after every decision the table holds exactly the accepted requests that were not forgotten, in whatever order the times come |
| EventWindow.Dispatcher.MarkEventSeen | src/custompbx/callwebhook/dispatcher.go:129-149 | decides, prunes only when it accepts, and leaves the table alone otherwise |
| EventWindow.Dispatcher.Publish | src/custompbx/callwebhook/dispatcher.go:99-125 | for any times an event is refused if and only if one with its id was accepted less than ten minutes before, even if that one found the queue full, and no event accepted since then came ten minutes or more after that one; accepted events enter the queue in order while there is room, and no older entry is left |
| EventWindow.Dispatcher.Deliver | src/custompbx/callwebhook/dispatcher.go:151-157 | events leave the queue in the order they entered it |
| EventWindow.Nonces.ClaimNonce | src/custompbx/recordingapi/handler.go:72-85 | for any times a nonce is refused if and only if it was claimed at most one minute before and no claim since then, accepted or refused, came more than a minute after that one; no older entry is left |
| Batching.Collect | src/custompbx/main.go:445-467 | batches and collector together are what was received, in order; no batch is empty or above the chunk, and without ticks every batch is full |
| Batching.LogInsert | src/custompbx/db/logDb.go:71-96 | an empty batch sends no statement; otherwise values in order and value lists numbered row by row |
| Batching.HepInsert | src/custompbx/db/hepDb.go:311-345 | the same with skipped packets; with no usable packet the last character of the statement's head is cut off |
| Batching.ParametersMatchValues | src/custompbx/db/hepDb.go:331-338 | read from left to right the parameters in the text are exactly $1 to $k, one per value; at most 2400 and 3000 of them for full batches |
| Batching.ValueListsAre | src/custompbx/db/hepDb.go:331-345 | the text behind the head is one list in parentheses per row, its places joined by commas and numbered on, and the lists joined by commas |
| Batching.ReceivedParts | src/custompbx/main.go:445-467 | what was received in two stretches is what was received in the one and then in the other |
| Batching.KeptParts | src/custompbx/db/hepDb.go:318-330 | the usable packets of two stretches are those of the one and then of the other |
| Batching.ConcatParts | src/custompbx/db/logDb.go:71-96 | the values of two stretches of rows are those of the one and then of the other |
| BulkNames.AddNewUser | src/custompbx/web/directoryWs.go:81-143 | the generated names are the text before the last numeral, the counter, and the text after it; none when the counter would overflow |
| BulkNames.Parts | src/custompbx/web/directoryWs.go:109-123 | splitting at the numeral's digits and rejoining finds the last numeral, leading zeros staying in front |
| BulkNames.FirstNameIsGivenIff | src/custompbx/web/directoryWs.go:100-126 | the first generated name is the given one if and only if its last numeral is not 0, or the name is "0" |
| BulkNames.NumeralAdvances | src/custompbx/web/directoryWs.go:124-126 | the last numeral of the k-th name is the given one plus k |
| BulkNames.ZeroCounts | src/custompbx/web/directoryWs.go:100-126 | without a numeral, or with 0, the names are the numbers themselves |
| BulkNames.NamesAreDistinct | src/custompbx/web/directoryWs.go:124-126 | all generated names differ |
| GatewayFilter.KeepKnown | src/custompbx/altData/configAltData.go:4056-4067 | the loop never leaves the slice; its result is the original with removed elements filled from the end, and what is missing was foreign |
| GatewayFilter.KnownAreKept | src/custompbx/altData/configAltData.go:4056-4067 | every element but a gateway of an unknown profile is kept exactly as often as it occurred, and such a gateway not more often |
| GatewayFilter.NothingEmpty | src/custompbx/altData/configAltData.go:4064-4066 | no nil is left in the result |
| GatewayFilter.CleanIff | src/custompbx/altData/configAltData.go:4056-4067 | all gateways of unknown profiles are gone if and only if none stands behind place n - f, n the length and f their number |

## Left out

- DialplanRuns.EveryRunGoodIff: a rename names the objects that the indexes lead to; `DialplanNames` says which these are as a model of its own, and `DialplanNames.RenameStepIff` ties one rename of the two together, not whole runs.
- DialplanSteps.SwitchAgreesIff: regex switching leaves table and cache apart, so of a regex only identity, parent and nested place are claimed to agree.
- DialplanRuns.EveryRunDistinct: outside states in step a committed move of a constrained table is only known to end in distinct positions; that every order of its rows passes is proved for states in step.
- DialplanNames.FiledRenameAgreesIff: needs a new name that the index over all contexts does not hold, as the handler checks; once names are no longer filed, `DialplanNames.RenameAgreesIff` gives the condition from the indexes themselves. The clean-up after a deleted context drops the names of its extensions one by one and is not repeated there.
- DialplanInit.LoadKids: a failing query or scan, which leaves a parent partly loaded, and the rows of other instances, which hang from contexts of their own, are not modelled.
- DialplanStore.Dialplans.SwitchNoProceed: the settings INSERT names three columns with two values; it is modelled as a write that may fail.
- DialplanRuns.EditKeepsGoodIff: one operation at a time; concurrent edits of the dialplan are not modelled. Objects and maps are values indexed by kind and id, so sharing of one object by two maps is built in.
- CallSummary.LastUuidIsEarliest: says nothing about calls created in the same second, whose order is arbitrary.
- CallClock.DurationsAgreeIff: seconds are exact integers; the rounding of the floating-point conversion of a duration is not modelled.
- LiveCalls.EveryRunConsistent: user lookup is a fixed function during a run, and the user id kept in a channel is left out; registration handlers that overwrite cached users run outside the lock and are left out.
- RecordingSpool.NoRecordingLostIff: every call has one id text; the first upload takes the event's text and the retry the database's, so an id in upper case is stored under two keys, which is not modelled. Every call has one record path, whose file has one content and modification time; objects and CDR rows are never deleted; the steps are values because workers interleave, and `SpoolWorker` holds the loop in its own form.
- RecordingRoute.RoundTripIff: the route is taken as the text of the request path; percent encoding by browsers is not modelled. Keys under another prefix than the default one are not recognised by the web handler at all.
- Migration.ActionsTable.Migrate: one migration step; resuming an interrupted chain of migrations is left out, each step stores the final version.
- BulkNames.AddNewUser: the domain lookup and the creation of each user are left out; a failing creation skips one name.
- EventWindow.Dispatcher.Publish: decision and queueing are one step; that two accepted events may enter the queue in the opposite order, because the queue is reached after the lock was released, is left out. When a time was read is free.
- OrderedTables.OrderedTable.UpdateRows: positions are unbounded; a 32-bit overflow makes the database refuse the statement, which is one of the failures.
- Event sockets, the ORM, object storage, TLS, XML and JSON codecs, HMAC and regular expressions: foreign code, present only through its results.
- XML text: the stored document is a tree of the shown fields; marshalling is left out.
- Configuration structs, event registries, module switches and the ACL table: they would add easy members only.
