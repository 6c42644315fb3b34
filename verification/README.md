# Verification of the OpenSwitch REST front end

The repository puts a REST interface in front of an OVSDB replica (RFC 7047). Its logic is a small
in-memory relational database, tables of rows with configuration columns and with references to
other rows, and several algorithms over it. This project models these algorithms in Dafny and
proves what they keep, what they undo and when.

- **Declarative configuration** (`ops/`). `Database` is the replica, its schema and the
  configuration tree. `ConfigTree` gives the locations of a tree and the committed rows they stand
  for, `ConfigTarget` what a write is meant to make of each row, `ConfigStages` and `ConfigTables`
  that every part of a write keeps the invariant of the whole, `ConfigDropped` which rows a write drops,
  and `ConfigOperations` what the validators are told of it. `Containment` and `Deletion` plan
  recursive deletions, `Validation` runs the deferred operations. `ConfigWrite`, `ConfigRefs` and
  `ConfigSession` are the writer: rows first, then references, then validation and commit.
  `ConfigRead` says what reading means, `ConfigReader` is the reader's loops and all that they may
  return. `ConfigOutcome` and `ConfigTheorems` prove that what is written stands for the
  configuration. `ConfigIdle` says when a write changes nothing, `ConfigReading` and `ConfigUnchanged` when
  that is so of the configuration that the replica stands for. `ConfigOrders` says when the order of a
  dictionary matters to the reader, `ConfigSources` and `ConfigMisread` what writing back does then.
  `ConfigLaws` puts writer and reader together. `ConfigExample` is a small replica and a configuration that meet the hypotheses of
  the theorems, `ConfigLosses` has inputs for which the code does not do what it promises.
- **Index map** (`ops/opsidl.py`) in `IndexMap`: the map kept beside a table against the linear scan.
  `ConfigIndex` links it to the map that a write looks rows up in.
- **Resource URIs** (`opsrest/parse.py`, `opsrest/utils/utils.py`) in `ResourceUri`, with the
  percent-encoding of section 2.1 of RFC 3986 in `Escape`.
- **Dynamic categories** (`update_category_keys`) in `Categories`.
- **Transactions and notifications** (`opsrest/manager.py`, `opsrest/notifications/`) in
  `Transactions`, `ChangeWindow` and `Subscriptions`.
- **Supporting algorithms** in `GetDepth`, `References`, `QueryPipeline` and `Verify`.

Where the source updates in place, the model is a class whose methods are proved against functions
of the old state; the laws are lemmas about those functions, and `ConfigLaws` calls the methods.
Python dictionaries are gone through in an order that the model leaves open, so every result holds
for every order.

## Findings

- Deleting a row looks one level down and ignores what the recursive deletion reports, so a row can
  go while a child and a grandchild stay without an owner (`Containment.PlanCanOrphan`,
  `ConfigLosses.DeletingOrphans`). `Containment.NoOrphansExactly` gives the exact condition; a schema
  in which deletable tables contain only such tables is safe (`Deletion.SchemaLeavesNoOrphans`).
- The documentation (`DECLARATIVECONFIG.md:40`) calls a write an overwriting in which missing data is
  removed. The code removes rows of a top-level table only when the whole table is missing
  (`ConfigTheorems.UnnamedRowsStay`); the model follows the code, and a configuration reads back only
  if it accounts for the rows of the tables that it mentions (`ConfigOutcome.Complete`).
- Writing back what was read is not always without effect. Rows that do not show but may be deleted
  are deleted (`ConfigLosses.WritingBackDeletes`), and a row that does not show may be read as one beside
  it that does and be overwritten (`ConfigLosses.MisreadingChanges`). `ConfigIdle.IdleExactly` gives the
  exact condition for every configuration, so for every reading that the loops may return.
  `ConfigMisread.WriteBackExactly` says when all readings of a replica are harmless: if its key/value
  columns show all of their rows or none and no row that was not read can be deleted. The latter is
  necessary, and so is the former where a row that does not show differs from those beside it that do in
  a mutable column; rows that look alike may be mistaken for one another without effect
  (`ConfigLosses.AlikeIsHarmless`).
- Children of a key/value column are read under wrong keys when a child that does not show comes
  before one that does (`ConfigReader.CodedIsIntended`), and dictionaries come in any order. So a
  configuration that keeps a hidden row beside a named one need not read back
  (`ConfigLosses.ReadingBackLosesKey`); `ConfigLaws.ReadsBackExactly` gives the exact condition.
- A validator that raises anything but a ValidationError silently cancels a deletion
  (`Validation.DeleteErrorsExactly`), so a commit can leave rows that the configuration leaves out
  (`ConfigLosses.CrashKeepsPort`). `ConfigSession.WrittenExactly` gives the exact condition.
- The index map keeps a stale entry when a row is deleted after a row that one of its index columns
  links to, and loses the entry of a row that was inserted before another with the same key is deleted
  (`IndexMap.UpdateKeepsExact`, `IndexMap.ReplacedTooEarly`).
- The URI printed for the System row itself leads nowhere (`ResourceUri.SystemRowIsLost`).
- The URI of a row below a top-level table other than System is that of the top-level row, and keys of
  key/value columns are not escaped (`ResourceUri.UriRoundTrip`, `ResourceUri.KeyRoundTrip`).
- Committing pending transactions skips the one behind each that is taken off the list
  (`Transactions.RoundsHalve`).
- Any change in a table that a collection subscription cannot make sense of, such as a modified row,
  drops all notifications of that round (`Subscriptions.CollectionSubscription.GetChanges`).
- Removing the last subscription on the subscription table itself ends the tracking of that table
  (`Subscriptions.EventKeepsExact`).
- Keys of map columns are checked only for the length of their text, whatever their type
  (`Verify.KeysGoUnchecked`); no type is checked in a map of at most one entry
  (`Verify.TypeGoesUnchecked`) and no enumeration of map values (`Verify.EnumerationGoesUnchecked`).
  `Verify.AcceptedConforms` gives the exact condition.
- Numbers below zero are refused where the schema gives no minimum, and so are lists of truth values
  and maps whose keys are enumerated (`Verify.ConformingAccepted`).

## Model

| member | source | states |
|---|---|---|
| `ConfigSession.ConfigSession.Write` | ops/dc.py:111-185 | one transaction writes a configuration: nothing is committed when a reference leads nowhere, a validator rejects an operation or the server refuses; the validators are asked about each row that is new, that has other configuration columns or that is to go, once, with its own table and the row that contains it; what is committed of a complete configuration is its final rows without the planned deletions if and only if every planned row has a deletion that is accepted at its turn, as it has unless a validator crashes on a deletion of this run, and then it stands for that configuration |
| `ConfigSession.ConfigSession.Prepare` | ops/dc.py:142-163 | for data with empty values and unknown configuration or reference columns too: after both phases every location has its final row, every other committed row is as it was, and the CREATE, UPDATE and DELETE lists hold, each row once, with its table and its owner, exactly the new rows, the rows whose configuration columns differ, and the rows planned for deletion |
| `ConfigOperations.ScheduledIsReported` | ops/_write.py:262-280 | what the validators are told, in terms of the replica before and after the two phases: CREATE for the rows that were not there, UPDATE for those with other configuration columns, each row once, with its own table and, as parent, the row that contains it after the write; DELETE with table and container as committed; no row of an immutable table or of Bridge or VRF is on the DELETE list, nor on the CREATE list unless its table has no index |
| `ConfigSession.CommitsExactly` | ops/dc.py:163-185 | the commit takes place if and only if the server accepts and no operation is rejected, deletions at their turn, creations and updates on what is left |
| `ConfigSession.ConfigSession.Finish` | ops/dc.py:163-185 | the replica changes only when the validators report nothing and the commit is accepted |
| `ConfigSession.BothPhases` | ops/dc.py:145-161 | what the two phases leave behind, before anything is deleted, for every configuration that is well posed |
| `ConfigSession.DeletionsCarriedOut` | ops/validatoradapter.py:68-74 | carrying out all deletions takes away exactly the planned rows and touches no location of the configuration |
| `ConfigSession.CommittedIsWritten` | ops/dc.py:163-185 | if the validators report no error and none crashes on a deletion of this run, the replica after the deletions is what writing a complete configuration is to leave |
| `ConfigSession.WrittenExactly` | ops/validatoradapter.py:47-74 | for arbitrary validators, the replica after the deletions is what writing a complete configuration is to leave if and only if every row put up for deletion has a deletion that is accepted at its turn |
| `ConfigLosses.CrashKeepsRow` | ops/validatoradapter.py:57-66 | with a plugin that crashes on deletions every complete configuration is committed without errors, and whatever row it puts up for deletion stays |
| `ConfigLosses.CrashKeepsPort` | ops/validatoradapter.py:57-66 | a concrete complete configuration and the port that it leaves out, which stays |
| `ConfigLaws.WriteAndRead` | ops/dc.py:74-185 | calls the writer and then the reader: whatever the validators say of a complete configuration, a commit can be read; if every planned deletion is accepted, as it is when no validator crashes on one in this run, the replica stands for the configuration, and the reading loops return it if no row stays unnamed beside named ones in a key/value column |
| `ConfigLaws.ReadsBackExactly` | ops/dc.py:74-185 | after a complete configuration has been written, the reading loops return it for every order of the dictionaries if and only if no row stays unnamed beside named ones in a key/value column |
| `ConfigLaws.LocationReadsBack` | ops/_read.py:23-192 | whatever the order, the loops read every location, at any depth, as the data it was written from |
| `ConfigLaws.ChildrenReadBack` | ops/_read.py:46-133 | and every child column as the entries of the data: what is left over does not show and takes no key |
| `ConfigLaws.EntriesReadBack` | ops/_read.py:195-217 | and a top-level table as its entries, or as nothing when the configuration leaves it out |
| `ConfigLaws.WrittenIsReadable` | ops/_read.py:23-192 | after a write every row is a row of its table and every reference that does not dangle leads to a row of the right table |
| `ConfigLaws.CommittedIsReadable` | ops/dc.py:163-185 | so it is with what is committed of a complete configuration, whichever deletions the validators let pass |
| `ConfigLaws.WrittenIsTidy` | ops/_read.py:46-133 | after a write lists never hold two rows with the same index, and with the same condition key/value columns show all of their rows or none |
| `ConfigLaws.ReadAndWrite` | ops/dc.py:74-185 | calls the reader and then the writer, on every replica in order of which no reading moves a row to another owner: whichever reading the loops return, writing it back schedules no operation and leaves every row and reference as it was if and only if it names only rows that are there, with the columns and references that they have, and whatever it drops holds fast; on a tidy replica it creates and updates nothing, and deletes nothing exactly when no row that was not read can be deleted |
| `ConfigMisread.WriteBackExactly` | ops/dc.py:74-185 | on a replica in order all possible readings are written back without effect if its key/value columns show all of their rows or none and no row that was not read can be deleted; the latter is necessary, and so is the former where the writer can tell a row that does not show from those beside it that do, by a mutable column |
| `ConfigMisread.RootAsMeant` | ops/_read.py:67-80 | there, a reading that gives no committed row other columns than it has is the one that the replica stands for |
| `ConfigIdle.IdleExactly` | ops/dc.py:142-163 | for every configuration, read or not: its writing schedules no operation and leaves every row and reference as it was if and only if each location has its row, with the columns and references that the data asks for, and each dropped row, and each row reached from it through deletable children, contains a row that may not be deleted |
| `ConfigSources.ReadingCanBeWritten` | ops/_read.py:23-217 | whatever keys the reader puts rows under, its result meets all that a write asks for if and only if it moves no row of a list to another owner |
| `ConfigSources.NoReadingMovesRows` | ops/_read.py:23-217 | no reading does on a tidy replica, nor with a schema whose lists are in System or in rows of indexed tables |
| `ConfigSources.SourceAt` | ops/_read.py:23-192 | every location of every reading was read from a row of its table, contained in the row that its parent was read from |
| `ConfigSources.SourceOnce` | ops/_read.py:23-192 | and no row was read at two locations, whatever keys they got |
| `ConfigOrders.OrderIsTidy` | ops/_read.py:46-133 | a replica in order is read without loss if the rows of every key/value column show all or not at all; its lists always are |
| `ConfigOrders.OneReadingExactly` | ops/_read.py:46-133 | where lists are in order, all orders of the dictionaries lead to the same configuration if and only if every key/value column that is read, at any depth, shows all of its rows or none |
| `ConfigTheorems.WriteThenRead` | ops/dc.py:142-163 | what a complete configuration leaves in the replica stands for that configuration and for nothing else |
| `ConfigTheorems.RefsReadBack` | ops/_write.py:165-227 | references found by index read back as the same indexes |
| `ConfigTheorems.UnnamedRowsStay` | ops/_write.py:124-140 | rows of a top-level table that is mentioned are not deleted for not being named, whatever the documentation says of overwriting |
| `ConfigTheorems.DoomedTopRow` | ops/_write.py:124-140 | a row of a top-level table is put up for deletion if and only if its whole table is left out, is mutable and is neither Bridge nor VRF, and the same is true of the tables of all its children |
| `ConfigTheorems.ChildConserved` | ops/_write.py:454-513 | every child of a named row either stays in its column or is on the DELETE list, and none is both |
| `ConfigDropped.DoomedOnce` | ops/_write.py:52-106 | no row is scheduled on behalf of two others: the plans of different dropped rows have nothing in common, and each row is dropped at one place |
| `ConfigUnchanged.ReadThenWrite` | ops/_write.py:121-451 | writing the configuration that the replica stands for, as the reader is meant to return it, creates and updates nothing; it deletes nothing and changes no row exactly when no row that was not read can be deleted |
| `ConfigUnchanged.QuietExactly` | ops/_write.py:52-106 | no row that was not read can be deleted if and only if each such deletable row, and each row reached from it through deletable children, contains a row whose table does not let it be deleted |
| `ConfigUnchanged.ConfigUnchanged` | ops/utils.py:193-213 | the columns that reading leaves out as empty are those that writing leaves alone |
| `ConfigUnchanged.ReferencesUnchanged` | ops/_write.py:165-227 | reference columns are given the rows that they had, by way of index strings |
| `ConfigIdle.ChildrenUnchanged` | ops/_write.py:282-396 | where there is nothing to do, remainder and set-up entries of a child column are the column as it was |
| `ConfigUnchanged.NothingDoomed` | ops/_write.py:52-106 | nothing is put up for deletion exactly when every attempt to delete an unread row comes to nothing |
| `ConfigReading.ReadingIsWellPosed` | ops/_read.py:23-217 | what was read from a replica in order can always be written |
| `ConfigReading.ReadEverywhere` | ops/_read.py:23-192 | every location of what was read leads, by index or key, back to the row it was read from |
| `ConfigReading.ReadOnce` | ops/_read.py:23-192 | no row is read at two locations |
| `ConfigExample.ExampleIsComplete` | ops/dc.py:111-185 | a configuration that creates one port and leaves out another is well posed, complete and kept apart: it meets all that writing and reading back asks for |
| `ConfigExample.ExampleReads` | ops/dc.py:74-109 | a concrete replica with a contained row and the configuration that it reads as |
| `ConfigLosses.WritingBackDeletes` | ops/_write.py:473-513 | a concrete replica with a hidden VLAN that writing back what was read deletes |
| `ConfigLosses.MisreadingChanges` | ops/_read.py:71-80 | a concrete replica with a hidden VLAN beside one that shows, of which nothing can be deleted, and a reading that takes the one for the other, can be written, and changes the hidden row |
| `ConfigLosses.AlikeIsHarmless` | ops/_read.py:71-80 | where the two look alike to the writer every reading is written back without effect, so such rows do no harm |
| `ConfigLosses.ReadingBackLosesKey` | ops/_read.py:71-80 | a concrete complete configuration that keeps a hidden row beside a named one, so that in one order the named one is read under the wrong key |
| `ConfigLosses.DeletingOrphans` | ops/_write.py:93-105 | a concrete schema and replica with a chain of rows of which only the top one is scheduled |
| `ConfigReading.ReadingIs` | ops/dc.py:88-109 | the returned configuration holds all that was read |
| `ConfigReader.Read` | ops/dc.py:74-109 | returns a configuration that the code may read for some order of the dictionaries, on every replica whose references lead to rows of the right tables; on a tidy replica that is the configuration it stands for |
| `ConfigReader.GetRoot` | ops/dc.py:88-105 | all top-level tables with what the code may read for them, and no table without content |
| `ConfigReader.GetRows` | ops/_read.py:195-217 | the rows of a list or table by index, read in some order; of rows with the same index the last one stays |
| `ConfigReader.GetRowData` | ops/_read.py:23-192 | configuration columns, references and child columns of a row, the latter read in some order; nothing for VLANs in internal use and tables without configuration, and else exactly the configuration columns that are not empty, and no data only where all are |
| `ConfigReader.GetChildren` | ops/_read.py:61-98 | one child column by index or key, in some order |
| `ConfigReader.GetKeyed` | ops/_read.py:61-80 | a key/value column as coded, for some order of its keys |
| `ConfigReader.GetReferences` | ops/_read.py:133-168 | references by index of exactly those columns that are references, not children, of category configuration, and not empty |
| `ConfigReader.RowIsRead` | ops/_read.py:23-192 | of a row below which nothing is untidy the code reads what the row stands for, whatever the order |
| `ConfigReader.EveryOrderExactly` | ops/_read.py:67-80 | a key/value column is read under the right keys in every order if and only if its children show all or not at all |
| `ConfigReader.CodedIsIntended` | ops/_read.py:67-80 | children of a key/value column are read under their own keys exactly when those that show come before those that do not: the counter is not advanced past a child that reads as nothing |
| `ConfigReader.KeyIsLost` | ops/_read.py:71-80 | a concrete column for which the second child appears under the first one's key |
| `ConfigRefs.ReferenceWriter.SetupAllReferences` | ops/_write.py:143-152 | the second phase succeeds exactly when every reference is found, and then fills in the references of all locations and nothing else: mutable configuration references are set, and child columns, references of other categories, immutable ones and configuration columns of every row are as they were |
| `ConfigRefs.ReferenceWriter.SetupTableReferences` | ops/_write.py:143-152 | the same below one top-level table |
| `ConfigRefs.ReferenceWriter.SetupRowReferences` | ops/_write.py:155-246 | the same for a row and all rows below it; a location without a row is skipped |
| `ConfigRefs.ReferenceWriter.SetReferences` | ops/_write.py:165-227 | every mutable reference of category configuration is set, emptied when not named; status references, immutable ones and child columns stay as they are, whatever the data says of them |
| `ConfigRefs.ReferenceWriter.Resolve` | ops/_write.py:188-225 | reference data of each shape is resolved to rows or fails |
| `ConfigRefs.FindsExactly` | ops/_write.py:43-49 | an index string leads to the committed row with these index values, and only if there is none to the row inserted under it by this or an earlier write |
| `ConfigWrite.ConfigWriter.SetupTables` | ops/dc.py:147-154 | the first phase writes all locations whatever the order of tables, and plans exactly the deletions that they and the missing tables call for |
| `ConfigWrite.ConfigWriter.EmptyTable` | ops/_write.py:121-134 | all deletable rows of a table that is left out are put up for deletion |
| `ConfigWrite.ConfigWriter.FillTable` | ops/_write.py:135-140 | the entries of a table are set up, its other rows stay |
| `ConfigWrite.ConfigWriter.SetupRow` | ops/_write.py:249-451 | a row is found or inserted, overwritten, and everything below it set up; every row outside the location's subtree keeps its value |
| `ConfigWrite.ConfigWriter.OpenRow` | ops/_write.py:262-280 | existing rows are updated and listed exactly if they change, missing ones are inserted where their table allows it and listed with their table and the row of the location above |
| `ConfigWrite.ConfigWriter.RecordNew` | ops/_write.py:267-271 | an inserted row is entered in the list of new rows, and appended to the CREATE list with its own table and its parent, and to no other |
| `ConfigWrite.ConfigWriter.UpdateOld` | ops/_write.py:272-280 | a committed row takes the new columns, and is appended to the UPDATE list with its table and its parent exactly if they differ |
| `ConfigWrite.ConfigWriter.StoreColumn` | ops/_write.py:340-396 | remainder and rows of the new entries are stored together; entries of tables without an index are re-keyed by UUID |
| `ConfigWrite.ConfigWriter.SetupEntries` | ops/_write.py:313-361 | every entry of a child column gets its row, and they are returned by key |
| `ConfigWrite.ConfigWriter.EmptyChildColumn` | ops/_write.py:454-513 | old children split into the remainder and those put up for deletion: named children and those that cannot be deleted stay, nothing else does |
| `ConfigWrite.ConfigWriter.DropChildren` | ops/_write.py:52-58 | planning inside the transaction schedules what planning on the committed replica would |
| `ConfigWrite.ConfigWriter.SplitList` | ops/_write.py:473-489 | which children of a list column are to be deleted and which stay |
| `ConfigWrite.ConfigWriter.SplitKeyed` | ops/_write.py:490-505 | the same for a key/value column, with the keys remembered |
| `ConfigWrite.RestoreKeyed` | ops/_write.py:506-513 | children that could not be deleted go back under their own keys |
| `ConfigWrite.ConfigWriter.SetConfigColumns` | ops/utils.py:193-213 | column by column: a mutable column takes the value that is named or the empty value of its type, an immutable one stays; the result tells exactly whether anything changed |
| `ConfigWrite.ConfigWriter.InsertRowCheck` | ops/utils.py:161-171 | a row is inserted with its data, or taken back when its table may not have it |
| `ConfigStages.InitialRowExactly` | ops/utils.py:161-238 | column by column: the value that the data names or else the column's initial one, and no references; rows are inserted into tables without an index and into mutable ones other than Bridge and VRF |
| `ConfigTree.ExistInjective` | ops/_write.py:249-263 | a committed row is named at one location only |
| `ConfigTree.ClaimedOwner` | ops/_write.py:249-361 | whoever contains a named row is named |
| `ConfigTree.UnclaimedBelow` | ops/_write.py:61-106 | below a row that is not named no row is named, so deletion plans never reach the configuration |
| `ConfigStages.StagesCompose` | ops/_write.py:283-396 | what two parts of a write leave behind is the union of what each does, whatever their order |
| `ConfigStages.PlanDuringWrite` | ops/_write.py:61-106 | the plan for a row that is not named is the same at any time during a write |
| `ConfigDropped.DroppedIsUnclaimed` | ops/_write.py:473-513 | no row named by the configuration is ever dropped |
| `Deletion.DeleteRow` | ops/_write.py:61-106 | planning terminates, schedules exactly the plan of the row, in post-order and without repetition where nothing below it is contained twice, each row with its table and the row that contains it, and reports whether all direct children pass the check |
| `Deletion.DeleteRowList` | ops/_write.py:52-58 | a list of rows is planned one by one, in post-order and without repetition where they are apart; those that stay are returned |
| `Deletion.DeleteColumn` | ops/_write.py:65-100 | the deletable children of one column are planned |
| `Deletion.RemovableExactly` | ops/utils.py:155-158 | a row can be scheduled exactly when the tables of all rows that it contains are mutable and neither Bridge nor VRF |
| `Containment.RootIsPlanned` | ops/_write.py:84-105 | a row is scheduled if and only if every direct child passes the deletion check |
| `Containment.PlannedIsRemovable` | ops/_write.py:84-105 | every scheduled row has only deletable direct children |
| `Containment.PlanIsWholeSubtree` | ops/_write.py:93-105 | the plan is the whole subtree exactly when every row of it is removable by itself |
| `Containment.NoOrphansExactly` | ops/_write.py:84-105 | no scheduled row keeps an unscheduled descendant if and only if every row that is reached through deletable children and passes the check has only children that pass it too |
| `Containment.HereditaryLeavesNoOrphans` | ops/_write.py:84-105 | with a check that is passed on from rows to their children, no scheduled row keeps an unscheduled descendant |
| `Deletion.SchemaLeavesNoOrphans` | ops/utils.py:155-158 | that is so in every replica of a schema in which deletable tables contain deletable tables only |
| `Containment.PlanCanOrphan` | ops/_write.py:93-105 | for every chain of three rows of which only the lowest fails the check the top one is deleted and the other two stay without an owner |
| `Containment.SiblingsDisjoint` | ops/_write.py:61-106 | on a forest, plans of different children have no row in common |
| `Validation.ValidatorAdapter.ExecValidatorsWithOps` | ops/validatoradapter.py:83-91 | deletions run first, then creations and updates are validated on what is left; all errors are collected in that order |
| `Validation.ValidatorAdapter.ExecDeletionValidatorsAndDelete` | ops/validatoradapter.py:68-74 | each deletion is validated at its turn and carried out if accepted |
| `Validation.ValidatorAdapter.ExecValidatorWithOp` | ops/validatoradapter.py:47-66 | only a ValidationError is recorded |
| `Validation.DeletesExactly` | ops/validatoradapter.py:68-74 | a row goes exactly when one of its deletions is accepted at its turn |
| `Validation.DeleteErrorsExactly` | ops/validatoradapter.py:57-66 | no error means that nothing was rejected, not that everything was accepted: a crashed validator leaves no trace |
| `Validation.ModificationErrorsExactly` | ops/validatoradapter.py:47-66 | the errors of creations and updates are exactly the messages of those that are rejected |
| `Validation.CleanRunDeletes` | ops/validatoradapter.py:68-74 | a run without errors in which no validator crashes on a deletion carries out all deletions |
| `Validation.AllDeletedExactly` | ops/validatoradapter.py:68-74 | all rows that are to be deleted go if and only if each has a deletion that is accepted at its turn |
| `Escape.IndexStringSplits` | ops/utils.py:25-31 | splitting and unquoting an index string gives back its values, exactly unless one is empty |
| `Escape.IndexStringInjective` | ops/utils.py:104-109 | different tuples of non-empty index values have different index strings |
| `Escape.QuotedExactly` | ops/utils.py:100-109 | letters, digits, underscore, dot and minus stand for themselves; every other byte becomes a percent sign and its two upper-case hexadecimal digits |
| `Escape.JoinSplit` | ops/utils.py:25-31 | a text is its segments put together with slashes, and no segment holds a slash |
| `IndexMap.IndexedTable.ProcessUpdate` | ops/opsidl.py:40-75 | the table and its index map follow one update of the replica |
| `IndexMap.UpdateKeepsExact` | ops/opsidl.py:40-75 | an update keeps the map exact if and only if new keys are free, keys of live rows do not change and a row goes before the rows its index columns link to |
| `IndexMap.RunStaysExact` | ops/opsidl.py:31-75 | over every run the map is exactly the inverse of the key function, for as long as the updates are harmless and no longer |
| `IndexMap.KeysExactly` | ops/opsidl.py:90-102 | the two keys column by column: texts as they are, links by their UUID, and on deletion None for a link that leads nowhere any more |
| `IndexMap.KeyOfLive` | ops/opsidl.py:62-102 | the key looked for on deletion is the key stored on creation exactly when the linked rows are still there |
| `IndexMap.DeadKeyIsFree` | ops/opsidl.py:90-102 | the key looked for when a linked row is gone belongs to no row, so the stale entry stays |
| `IndexMap.ReplacedTooEarly` | ops/opsidl.py:40-75 | a row that comes with the key of a row that is deleted after it loses its entry; the other way round the map stays exact |
| `IndexMap.IndexedTable.IndexToRowLookup` | ops/opsidl.py:77-88 | lookup by the map finds the row with the index or tells that there is none |
| `IndexMap.IndexedTable.Scan` | opsrest/utils/utils.py:543-568 | the linear scan meets the same specification |
| `IndexMap.IndexedTable.FindBothWays` | ops/opsidl.py:77-88 | on an exact map lookup and scan return the same row |
| `ConfigIndex.IndexExactExactly` | ops/opsidl.py:77-88 | what a write asks of the index map holds exactly when the map of every indexed table is exact and index values survive being printed |
| `ResourceUri.UriRoundTrip` | opsrest/utils/utils.py:1000-1053 | the URI of a row leads back to it if and only if the row is below System or in another top-level table; below such a table it leads to the top-level row |
| `ResourceUri.SystemRowIsLost` | opsrest/utils/utils.py:1003-1009 | the URI printed for the System row itself never leads back to it, and parses to nothing unless a child column of System or a top-level table bears the UUID as its name |
| `ResourceUri.KeyRoundTrip` | opsrest/utils/utils.py:645-651 | keys are printed unescaped: the round trip of a row in a key/value column holds exactly when its key stands for itself in a URI |
| `ResourceUri.SystemRoundTrip` | opsrest/parse.py:33-170 | printing and parsing a row below System ends at that table and row |
| `ResourceUri.TopRoundTrip` | opsrest/parse.py:172-213 | so it does for an indexed row of another top-level table |
| `ResourceUri.PathIsOverwritten` | opsrest/utils/utils.py:1005-1009 | at a top-level table the printer forgets the path it has |
| `ResourceUri.ResolveFollows` | opsrest/parse.py:81-221 | parsing follows a trail down to its row, whatever path comes after |
| `ResourceUri.PrintedSegments` | opsrest/utils/utils.py:1000-1053 | the printed URI splits into the column names and index values of the trail |
| `ResourceUri.Printer.RowToUri` | opsrest/utils/utils.py:1000-1053 | the climbing loop prints the URI of any row, the System row included |
| `ResourceUri.Printer.RowToIndex` | opsrest/utils/utils.py:614-665 | the escaped index values of a row, or its key in the owner's column |
| `ResourceUri.Parser.Parse` | opsrest/parse.py:81-221 | the recursive parser succeeds exactly when the path resolves, and links up the resources that it resolves to; each goes to the next by a child column that holds the next one's table, or from System to a table without a parent, the relation says which, and the last one goes nowhere |
| `ResourceUri.Parser.Step` | opsrest/parse.py:91-209 | one step down: child column before top-level name, as many segments as index columns; the relation, the column and the table and row that they lead to |
| `ResourceUri.Parser.ParseUrlPath` | opsrest/parse.py:33-78 | the chain of resources for a URI, or none; it starts at the System row, every resource tells how it goes on to the next, and each row has the index values or the key in the path |
| `ResourceUri.Parser.IndexToRow` | opsrest/utils/utils.py:543-568 | the row with given index values |
| `Categories.HistoryIndependent` | opsrest/utils/utils.py:873-957 | a request that decides every dynamic column puts each into the dictionary of the category that the rules give for its deciding value, and into no other; so where it leaves the columns does not depend on the requests before, failed ones included, nor on iteration order |
| `Categories.Idempotent` | opsrest/utils/utils.py:873-957 | a second request for the same row changes nothing |
| `Categories.CategoryKeys.UpdateCategoryKeys` | opsrest/utils/utils.py:901-957 | a request succeeds exactly when the row decides every dynamic column, and then each has the category that the rules give for the value of the column that decides it, and is in the dictionary of that category and in no other; dictionaries stay disjoint with a fixed union |
| `Categories.CategoryKeys.Move` | opsrest/utils/utils.py:941-950 | moving a column keeps the dictionaries consistent |
| `Categories.RequestsKeep` | opsrest/utils/utils.py:873-957 | over any run of requests the dictionaries stay consistent and static columns stay where they are |
| `Transactions.Manager.CheckTransactions` | opsrest/manager.py:180-194 | one round: a visited transaction is off the list and its event set if and only if its outcome is not INCOMPLETE, the one behind it is skipped, all others stay in order and without a signal, and the timer is armed exactly when a visited one is INCOMPLETE |
| `Transactions.TransactionList.CommitAll` | opsrest/manager.py:184-191 | the loop over the list that it shortens |
| `Transactions.SurvivorsAreKept` | opsrest/manager.py:184-191 | survivors keep their order and are exactly the transactions that are not visited, or visited and incomplete |
| `Transactions.PopStep` | opsrest/manager.py:184-191 | the transaction behind a removed one is skipped |
| `Transactions.RoundsHalve` | opsrest/manager.py:180-194 | even if no outcome is INCOMPLETE, k rounds leave the number of transactions divided by two to the k |
| `ChangeWindow.ReportedOnce` | opsrest/manager.py:128-169 | over all runs a change is reported in exactly one round once the manager has moved past it, unless its window was absorbed by a connection being established; before that it is still tracked |
| `ChangeWindow.RunIsGood` | opsrest/manager.py:128-169 | windows tile the sequence numbers and every reported window holds exactly the changes stamped in it |
| `ChangeWindow.AllReported` | opsrest/manager.py:160-169 | without reconnecting, every window is reported |
| `ChangeWindow.ConnectionManager.IdlCheckAndUpdate` | opsrest/manager.py:160-169 | one check shows the callbacks the changes stamped since the last window |
| `ChangeWindow.ConnectionManager.IdlReconnect` | opsrest/manager.py:128-158 | re-establishing a connection moves past changes without showing them |
| `ChangeWindow.ConnectionManager.RunChangeCallbacks` | opsrest/manager.py:222-229 | callbacks see the changes stamped later than the manager's number, then tracking is cleared |
| `Subscriptions.RunStaysExact` | opsrest/notifications/handler.py:315-360 | over all runs the buckets hold exactly the registered subscriptions, none is empty and the tracked tables are theirs, for exactly as long as events are harmless |
| `Subscriptions.EventKeepsExact` | opsrest/notifications/handler.py:315-360 | an event keeps the registry exact if and only if new subscriptions come with a new UUID and the last one on the subscription table itself is not removed |
| `Subscriptions.NotificationHandler.AddSubscription` | opsrest/notifications/handler.py:315-333 | the three maps after an addition |
| `Subscriptions.NotificationHandler.RemoveSubscription` | opsrest/notifications/handler.py:335-360 | the three maps after a removal |
| `Subscriptions.CollectionSubscription.GetChanges` | opsrest/notifications/subscription.py:203-265 | returns normally exactly when every change is an addition inside the collection or a deletion; otherwise the state is that of the changes before the first misfit and nothing is reported |
| `Subscriptions.FollowedRows` | opsrest/notifications/subscription.py:209-262 | the rows followed afterwards are the old ones without the deleted and with the added ones, in whatever order changes come |
| `Subscriptions.FollowedMessages` | opsrest/notifications/subscription.py:209-262 | the messages, in the order of the changes: for every added row its URI, and for every deleted row that was followed before the URI it was followed under |
| `Subscriptions.MessagesExactly` | opsrest/notifications/subscription.py:209-262 | which URIs the messages carry |
| `GetDepth.ExpandedExactly` | opsrest/get.py:190-285 | the rows returned are exactly those that fewer than max(1, depth) references lead to, each in its place, on cyclic graphs too |
| `GetDepth.Reader.GetResource` | opsrest/get.py:91-160 | of a resource read with a depth, a row is shown for exactly those paths along references that are shorter than the depth, and for the resource itself |
| `GetDepth.ShownExactly` | opsrest/get.py:340-392 | the columns shown are, in order, those that are not empty and do not lead back to the parent's table |
| `GetDepth.SizeBound` | opsrest/get.py:319-392 | with at most b references from a row at most 1 + b + ... + b^(depth-1) rows are returned |
| `GetDepth.Reader.GetRowJson` | opsrest/get.py:190-285 | the recursion terminates with the measure depth - counter and returns that expansion, column by column as shown |
| `GetDepth.Reader.GetColumnJson` | opsrest/get.py:319-392 | URIs once the depth is used up, rows otherwise |
| `References.RemovalIsComplete` | opsrest/utils/utils.py:231-267 | after a removal no reference column of any row refers to the row |
| `References.WithoutKeeps` | opsrest/utils/utils.py:262-267 | all other entries stay, as often as before |
| `References.WithoutInOrder` | opsrest/utils/utils.py:262-267 | and they stay in order |
| `References.Replica.DeleteAllReferences` | opsrest/utils/utils.py:231-260 | the loops over tables, rows and columns |
| `References.ReferringIsInverse` | opslib/restparser.py:680-690 | the table of referring columns is the inverse of the reference relation |
| `References.GetReferencesTables` | opslib/restparser.py:680-690 | which columns of which tables refer to a table |
| `References.Backfill` | opslib/restparser.py:648-657 | parents and children after the backfill, in whatever order tables and columns come |
| `References.ParentlessExactly` | opslib/restparser.py:648-657 | a table has no parent exactly when no child column holds it and it has no parent column |
| `References.ParentListsChild` | opslib/restparser.py:648-657 | every parent link has its entry among the parent's children |
| `References.WalkReachesAll` | ops/dc.py:90-98 | where containment is acyclic, the walk from the parentless tables reaches every table |
| `QueryPipeline.FilterCommutesWithSort` | opsrest/utils/getutils.py:297-309 | filtering first and sorting first come to the same |
| `QueryPipeline.SortedIsSorted` | opsrest/utils/getutils.py:437-450 | the sort is an ordered permutation |
| `QueryPipeline.SortIsStable` | opsrest/utils/getutils.py:437-450 | items with the same key keep their order, in reversed sorts too |
| `QueryPipeline.KeyOrder` | opsrest/utils/getutils.py:416-434 | sort keys are totally ordered |
| `QueryPipeline.KeyLeqExactly` | opsrest/utils/getutils.py:416-450 | the first column in which two sort keys differ decides |
| `QueryPipeline.TextLeqExactly` | opsrest/utils/getutils.py:416-450 | texts compare by the first character in which they differ, and a beginning comes before what it begins |
| `QueryPipeline.CellsCompare` | opsrest/utils/getutils.py:416-450 | numbers compare by value and come before lists, lists before texts |
| `QueryPipeline.SortValueExactly` | opsrest/utils/getutils.py:416-434 | an item contributes its value in the first category that has the column, texts in lower case, and the empty text where no category has it |
| `QueryPipeline.QueryPages` | opsrest/utils/getutils.py:288-322 | for every limit the pages of a query come without error, are no longer than the limit and put together are all that it selects |
| `QueryPipeline.SelectedExactly` | opsrest/utils/getutils.py:288-322 | a query selects the items that pass, in the order of their sort keys or that reversed, or as they come when no order is asked for, each cut down to the columns asked for |
| `QueryPipeline.PageExactly` | opsrest/utils/getutils.py:473-507 | a page comes back exactly when the offset is in range, the limit positive and, without a limit, something lies behind the offset; it holds the items from the offset on, as many as the limit allows and there are |
| `QueryPipeline.PostProcessGetData` | opsrest/utils/getutils.py:288-322 | the pipeline returns that page of the filtered, sorted and restricted items |
| `QueryPipeline.FilterGetResults` | opsrest/utils/getutils.py:325-358 | the loop keeps exactly the items that pass every filter |
| `QueryPipeline.FilteredExactly` | opsrest/utils/getutils.py:325-358 | the items kept are those that pass, each once and in order |
| `QueryPipeline.PassesExactly` | opsrest/utils/getutils.py:327-356 | an item passes when for every filter the first category with that column holds a value, or a list with an element, that is wanted; zero and empty values never pass |
| `QueryPipeline.PaginateGetResults` | opsrest/utils/getutils.py:473-507 | exactly when a page or an offset error comes back, and item by item what is on the page |
| `Verify.AcceptedConforms` | opsrest/verify.py:340-648 | an accepted value meets the constraint of its column - types, bounds and enumerations of elements, keys and values, number of elements, known and mandatory keys - if and only if it is not a map with an entry of which one of six listed things is overlooked |
| `Verify.ConformingAccepted` | opsrest/verify.py:340-648 | a value that meets the constraint is accepted if and only if it is not refused for a missing bound, the length of a key's text, an enumeration of keys or a list of truth values |
| `Verify.KeysGoUnchecked` | opsrest/verify.py:577-588 | a map with keys from 1 to 9 accepts the keys 12345 and abc |
| `Verify.EnumerationGoesUnchecked` | opsrest/verify.py:593-627 | a map accepts a value outside of the enumeration of its values |
| `Verify.TruthValuesAreRefused` | opsrest/verify.py:537-568 | no list of truth values is accepted unless it is empty |
| `Verify.TypeGoesUnchecked` | opsrest/verify.py:362-367 | a map of one number accepts a truth value |
| `Verify.NumberReadsBack` | opsrest/verify.py:421-442 | the decimal digits of every number are read as that number, with or without a minus sign |
| `Verify.DigitsExactly` | opsrest/verify.py:421-442 | only non-empty texts of decimal digits are read as numbers |
| `Verify.VerifiedIsSafe` | opsrest/verify.py:259-337 | verified data conforms unless something is overlooked, lacks nothing mandatory, and on existing rows leaves immutable columns alone |
| `Verify.VerifyConfigData` | opsrest/verify.py:259-337 | a request passes exactly when every column does, and what is returned leaves out immutable columns of existing rows |
| `Verify.VerifyAttribute` | opsrest/verify.py:340-375 | what passes conforms exactly unless something is overlooked, and what conforms passes exactly unless it is refused |
| `Verify.VerifyAttributeRange` | opsrest/verify.py:530-648 | number and ranges of elements, keys and values as the code compares them |
| `Verify.VerifyContainerValuesType` | opsrest/verify.py:378-418 | types of elements and values |
| `Verify.VerifyValidAttributeValues` | opsrest/verify.py:445-527 | keys and enumerations |

## Left out

- Declarative configuration is modelled for static categories, list columns whose rows have index
  columns and key/value columns whose rows have none; back-referenced children, single-row child
  columns and lists of rows without an index do not round-trip in the code and are not modelled.
- Index columns that are not configuration columns, links inside index strings and integer keys of
  key/value columns are not modelled; keys are texts.
- A configuration that does not fit its schema, or an index string with too few values, makes the
  code raise an exception in the middle of a write, which aborts the transaction; `ConfigTree.WellPosed`
  leaves such configurations out, as it does rows that would move from one parent to another. Empty
  values and columns that the schema does not know are let in; they only prevent reading back
  (`ConfigOutcome.Filled`). Children in columns that the schema does not know are left out.
- The re-keying of the configuration tree by UUID is modelled as a map from locations to rows beside the tree.
- Rows of all tables share one map from UUIDs to rows, and UUIDs are numbers; a row carries its table.
- Columns that hold a set of rows are sets, as in OVSDB; the order in which a list was built is not modelled.
- A commit is either accepted, and then makes the transaction's rows the replica, or refused; type checks,
  garbage collection and the blocking variant of the server are not part of this model.
- The text that the code writes to its log, and the plugins behind the validators, are not modelled;
  the verdict of a validator is a parameter that may depend on the operation and the replica.
- ConfigSession.ConfigSession.Write: says what a commit stands for only for complete configurations, because
  others do not read back.
- ConfigSession.ConfigSession.Finish: when validators report errors the code returns without aborting the
  transaction (ops/dc.py:163-165), so its rows can be read until the caller aborts it, as
  opsrest/custom/configcontroller.py:58-66 does; transactions that are still open are not modelled.
- ConfigLaws.ReadAndWrite: does not cover readings that move a row of a list to another owner, which
  `ConfigSources.ReadingCanBeWritten` shows to be the only ones that cannot be written in the model.
- ConfigMisread.WriteBackExactly: that key/value columns show all of their rows or none is not necessary where
  rows look alike in their mutable columns, and what is necessary there depends on all that is below them;
  `ConfigIdle.IdleExactly` decides each reading.
- ConfigRefs.IsWritten: an immutable single reference of a new row that must not be empty is None, and the code
  sets it (ops/_write.py:173-176); the model takes immutable references to stay empty. For a complete
  configuration that does not matter, since it asks for mutable references.
- ConfigTarget.TargetConfig: a mutable column that holds a number or a truth value and is not named becomes
  NoneValue, where the code hands None to the IDL, which decides what becomes of it.
- Containment between tables is acyclic (`Database.Schema.level`); a table that contains itself, as far as
  its rows form a forest, is not part of this model.
- IndexMap.RunStaysExact: a table without an index has an empty map and is not stated separately.
- ResourceUri: back references, single-valued child columns, lists of rows without an index and integer keys;
  tables with two child columns for the same table and tables contained in two others, for which the
  printer takes the first column that it comes upon.
- Categories: the checks that return early when there is no row or no dynamic column.
- Transactions: what a commit does in the server; each outcome is arbitrary.
- ChangeWindow: starting the manager anew, sockets and timers.
- Subscriptions: row subscriptions, the assembling of messages per subscriber and the web socket.
- GetDepth: configuration, status and statistics columns of a row, selectors and the fetching of read-only columns.
- References: removing references from key/value columns, which writes a list back into a map.
- QueryPipeline: the validation of query arguments and the conversion of filter texts to column types.
- Verify: that Python takes truth values for the numbers 0 and 1 when it looks them up in an enumeration,
  real numbers, the collecting of all errors instead of the first, references and referenced-by data;
  of the texts that int() accepts only digits with an optional minus sign.
- JSON Patch, the Swagger generator, login, audit log, certificates and the disabled second monitor.
