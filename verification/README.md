# Model of the build tools and of the tensor conversions

This project models seven components of the repository in Dafny and proves what they promise.

* BitBake's recipe cache (`bb/cache.py`): the extras files that parsers write beside a merging process
  (`MultiProcess`, `MergeRuns`), the codec that shares values between processes (`SiggenStream`, `SentEntries`), the cache
  with one file per class (`RecipeInfo`, `CacheFiles`, `TornFiles`, `RecipeCache`, `Validity`), the names of variants
  (`VirtualName`) and the indexes of recipes (`CacheData`).
* The inotify engine (`pyinotify.py`): reading and queueing events (`InotifyEvent`, `EventKey`, `Notifier`), and keeping
  the paths of watches in step with renames (`Paths`, `MoveTracker`, `CoalescedMoves`).
* Tasks (`bb/build.py`): searching and editing the graph (`TaskGraph`, `TaskEdit`), and the messages that a shell
  sends through a FIFO (`FifoReader`).
* The copy-on-write dictionary (`bb/COW.py`): `CowDict`, `CowForest`.
* The relocation of ELF files (`relocate_sdk.py`): `ElfBytes`, `ElfHeader`, `ElfLayout`, `ElfSections`,
  `ElfTexts`, `ElfRelocate`, `ElfInterpreter`, `ElfFile`.
* The conversion of tensors (`vnn_utils.cc`): `HalfFloat`, `FixedPoint`, `TopClasses`.
* The pruning of the shared state cache (`sstate-cache-management.py`): `SstatePrune`.

`Sequences`, `Bytes`, `Text`, `Dicts` and `Wrappers` hold what several of them use. Objects that the source updates in place
are classes, whose methods are proved against functions on values; the properties are lemmas about these functions.

## What the code does not promise

Some properties that the code or its documentation suggests hold only under a condition. The model keeps the code as
it is, and states the condition.

* Coalescing compares the text of events, in which an empty name is shown as two quotes; an event without a name and
  one whose name is two quotes are taken for one (`EventKey.CoalescingIsDistinct`).
* Coalescing takes a second MOVE_SELF of a directory in one batch for a repetition: watch paths are right throughout
  exactly for batches in which no directory moves twice (`CoalescedMoves.TrackedIffMovedOnce`).
* The deletion mark of the copy-on-write dictionary is the empty tuple, so storing that value deletes
  (`CowDict.StoredAtomIsFound`).
* Class files that are cut anywhere are harmless exactly when, up to the first one whose versions cannot be read, no
  later one has more records than the first (`TornFiles.CutFilesShapedIff`); for any files, when no later one that the
  load comes to adds a recipe that the first one lacks. Otherwise the validity test raises, exactly for the recipes that
  the first one lacks and whose own file exists (`RecipeCache.RaisesIffFirstLost`, `RecipeCache.RaisesIffCutShorter`).
* A sender of signature tables that is not reset relies on the numbers that the receiver has kept
  (`SiggenStream.TableComesBackIff`).
* `deltask` undoes `addtask` only for known names in `before` (`TaskEdit.DeleteUndoesAdd`).
* A table `.sysdirs` without `.sysdirslen` raises, because the name in the condition is not the one that is initialised
  (`ElfRelocate.OutcomeOfRun`).
* The comment on interpreters of the host speaks of any variant of `/lib`; the test accepts `/lib/` itself and the
  widths 32 and 64, with or without `/usr`, and no other variant (`ElfInterpreter.LeftAloneIffPlainOrWidth`). Those of
  `/usr/lib/` and `/libx32/` are overwritten (`ElfInterpreter.UsrLibAndX32AreReplaced`).
* A clean-up between the events of a move that drops its record leaves every directory below with its old path
  (`MoveTracker.EvictionLosesSubtree`).
* `get_top` skips the classes of five earlier places however many are asked for: the sixth place is still a new class, and
  from the seventh on it is repeated, unless at most five probabilities are above zero (`TopClasses.NoClassTwiceIff`).
* After pruning, a tracking file may be left whose own archive is gone; when this cannot happen is
  `SstatePrune.TrackersKeepArchivesIff`.
* A file name entered twice breaks the inverse index (`CacheData.ProvidersInvertIffDistinct`).

## Model

| member | source | states |
|---|---|---|
| `TaskGraph.TasksBetween` | sources/poky/bitbake/lib/bb/build.py:996-1023 | The search always ends. It reports a circular dependency exactly when a closed walk of two or more tasks that avoids the end is reachable without passing the end, and then names a task that is already in its chain; otherwise the result has no repeats and holds exactly the tasks on some path from the start to its first arrival at the end (nothing when no other task than the end is listed). A task without a list of dependencies is the third outcome. |
| `TaskGraph.TaskSearch.FollowChain` | sources/poky/bitbake/lib/bb/build.py:1004-1018 | The backtracking search leaves the chain as it found it, adds exactly the tasks of the chain and of the paths to the end, and goes on only when no walk from here repeats a task. |
| `TaskGraph.RepeatIsCycle` | sources/poky/bitbake/lib/bb/build.py:1006-1007 | A walk that repeats a task exists exactly when a cycle is reachable: the code's test on its chain is a test for cycles of the graph. |
| `TaskGraph.ReportedStep` | sources/poky/bitbake/lib/bb/build.py:1009-1018 | What a task other than the end reports is exactly what its dependents report with the task in the chain. |
| `TaskEdit.TaskStore.AddTask` | sources/poky/bitbake/lib/bb/build.py:933-955 | Editing in place gives the specified state and keeps the task list and every list of dependencies free of repeats. |
| `TaskEdit.TaskStore.DelTask` | sources/poky/bitbake/lib/bb/build.py:957-972 | The same for deleting, whose loop runs over the list from which the task is already gone. |
| `TaskEdit.AddedDeps` | sources/poky/bitbake/lib/bb/build.py:945-955 | `addtask` makes the task depend on `after`, the entries of `before` depend on the task, and changes no other dependency, in both directions. |
| `TaskEdit.AddedOrder` | sources/poky/bitbake/lib/bb/build.py:939-955 | The order: a new task is last in the list of tasks; of `after` the entries that are new follow the old ones in the order of their first occurrence; and the task is put in front of the lists of the entries of `before`. |
| `TaskEdit.NormalIsPrefixed` | sources/poky/bitbake/lib/bb/build.py:934-935 | A name with or without the prefix `do_` means one task, and no other names do. |
| `TaskEdit.RunValid` | sources/poky/bitbake/lib/bb/build.py:933-972 | Every sequence of edits keeps the task list and every list of dependencies free of repeats, and flags exactly the listed tasks. |
| `TaskEdit.DeletedIsGone` | sources/poky/bitbake/lib/bb/build.py:957-972 | After `deltask` the task is not listed or flagged and no listed task depends on it; the other tasks and dependencies are as before. |
| `TaskEdit.DeleteUndoesAdd` | sources/poky/bitbake/lib/bb/build.py:933-972 | `deltask` undoes `addtask` of a fresh task exactly when every name in `before` is listed, is the task itself or already depended on it; for any other name a list stays behind. |
| `VirtualName.RealFnRoundTrip` | sources/poky/bitbake/lib/bb/cache.py:341-366 | `virtualfn2realfn` undoes `realfn2virtual` exactly when the name is printable: no colon in the multiconfig, none in the file name if there is a class, and no file name that looks like a prefix. |
| `VirtualName.VariantNameAgrees` | sources/poky/bitbake/lib/bb/cache.py:358-379 | For a multiconfig without colons, `variant2virtual` on the stored variant string gives the printed name exactly when the class does not start with a colon (with a multiconfig) or look like a multiconfig prefix (without). |
| `VirtualName.McPrefixIff` | sources/poky/bitbake/lib/bb/cache.py:344-346 | A name counts as one with a multiconfig exactly when it is `mc:`, any text, a colon and any text. |
| `SiggenStream.Codec.Save` | sources/poky/bitbake/lib/bb/cache.py:290-305 | Saving in place gives the entries and the state of the specification function, whose stream the next two rows describe. |
| `SentEntries.SentOnce` | sources/poky/bitbake/lib/bb/cache.py:290-305 | Everything that a sender sends after a reset, over any list of tables: an entry carries its value in full exactly when the value has not occurred before, with the numbers 1, 2, 3 and so on in order; any later entry for it carries the number that was given then. |
| `SentEntries.NoValueTwice` | sources/poky/bitbake/lib/bb/cache.py:298-304 | So no two entries carry the same value in full, and later ones carry larger numbers. |
| `SiggenStream.Codec.Restore` | sources/poky/bitbake/lib/bb/cache.py:307-326 | Restoring in place does what the specification function says, including the table that is given up when a number is unknown. |
| `SiggenStream.FailureKeepsLearnt` | sources/poky/bitbake/lib/bb/cache.py:307-326 | A table that meets an unknown number leaves the store and all numbers as the entries before it do. |
| `SiggenStream.TableRoundTrip` | sources/poky/bitbake/lib/bb/cache.py:290-326 | One table from a sender that is linked to the receiver comes back equal, keys in order; the store only grows and the link is kept. |
| `SiggenStream.StreamRoundTrip` | sources/poky/bitbake/lib/bb/cache.py:281-326 | Any merge of the senders' streams that keeps each sender's order gives every sender's tables back in order. |
| `SiggenStream.ResetStreamsRoundTrip` | sources/poky/bitbake/lib/bb/cache.py:281-326 | The same from reset senders, whatever stale entries the receiver's table of numbers holds; and equal values in any two restored tables, of any two processes, are one object. |
| `SiggenStream.TableComesBackIff` | sources/poky/bitbake/lib/bb/cache.py:281-326 | Without the reset, a table comes back exactly when the receiver holds, for every value in it that the sender has sent before, the number of that value. |
| `CacheFiles.SyncThenLoad` | sources/poky/bitbake/lib/bb/cache.py:465-513 | Loading what `sync` wrote gives the same recipes in the same order, each with its objects in the order of the classes, their tables shown through the receiver's store. |
| `RecipeCache.SyncThenLoadIsIdentity` | sources/poky/bitbake/lib/bb/cache.py:672-697 | `sync` and then `load_cachefile` into an empty cache is the identity on `depends_cache` when every entry holds one object per class in order: one file per class transposes the table and the loader transposes it back, with the codec underneath. |
| `TornFiles.LoadKeepsShape` | sources/poky/bitbake/lib/bb/cache.py:465-513 | When no later class file contributes to a recipe that the first one does not have, then however short the files are, and wherever the load gives up, every entry starts with the first class and follows the order of the classes, and the keys are those of the first file. |
| `TornFiles.ShapedIffFirstHasAll` | sources/poky/bitbake/lib/bb/cache.py:475-511 | What a load of any files leaves has that shape exactly when no later file contributes to a recipe that the first one does not have. |
| `TornFiles.ShapedIffNamesAgree` | sources/poky/bitbake/lib/bb/cache.py:475-511 | For readable files whose records all restore, the condition is on the names in the files: each later one names only recipes that the first one names. |
| `TornFiles.CutFilesShapedIff` | sources/poky/bitbake/lib/bb/cache.py:465-513 | For the files that a save wrote, each cut anywhere, also within the versions at its start, what a load leaves has its shape exactly when no later file, up to the first one whose versions are lost, has more records than the first. |
| `TornFiles.RowStart` | sources/poky/bitbake/lib/bb/cache.py:499-502 | A recipe has an entry exactly when some file contributes to it, and the entry starts with an object of the class of the first such file. |
| `TornFiles.FailedRecordEndsFile` | sources/poky/bitbake/lib/bb/cache.py:486-502 | The first record that cannot be restored ends its file: later ones are not read, earlier ones stay, and the load goes on with the next file. |
| `RecipeCache.RaisesIffFirstLost` | sources/poky/bitbake/lib/bb/cache.py:566-585 | After a load, the validity test of a recipe raises exactly when its file exists, the first class file does not contribute to it and a later one does. |
| `RecipeCache.RaisesIffCutShorter` | sources/poky/bitbake/lib/bb/cache.py:566-585 | For files that a save wrote and that were then cut anywhere, the test of a recipe raises exactly when its file exists, its record is lost in the first class file, and a later one that the load comes to still has it. |
| `RecipeCache.ValidIsLoadable` | sources/poky/bitbake/lib/bb/cache.py:541-552 | When the test of a recipe is positive, loading finds every variant with exactly one object per class, in order. |
| `RecipeCache.LoadIsShaped` | sources/poky/bitbake/lib/bb/cache.py:465-513 | The cache that a load leaves has the shape that the promise above needs exactly when the first file has the recipes of all. |
| `RecipeCache.Cache.LoadCachefile` | sources/poky/bitbake/lib/bb/cache.py:465-513 | Loading in place does what the specification of the files says, from any files. |
| `RecipeCache.Cache.CacheValidUpdate` | sources/poky/bitbake/lib/bb/cache.py:566-658 | The answer, the entries that go and the names that become clean are as specified, branch by branch, and `clean` stays within the keys. |
| `Validity.ValidIff` | sources/poky/bitbake/lib/bb/cache.py:566-658 | A cached recipe is accepted exactly when its file and every dependency have the recorded times, every listed file is there or not as its flag says, the append files are the recorded ones, and every variant has all its objects; its row is dropped exactly when its file is gone or something is not as recorded. |
| `Validity.ChangeIsNoticed` | sources/poky/bitbake/lib/bb/cache.py:566-631 | A recipe that was accepted is accepted again, with any later file times, existing files and append files, exactly when none of those that it depends on has changed; otherwise the answer is negative and the row is dropped. |
| `Validity.CleanIffValid` | sources/poky/bitbake/lib/bb/cache.py:633-658 | After a test the recipe is clean exactly when the answer was positive; so are its variants when it is up to date, and all other marks stay. |
| `RecipeCache.Cache.CacheValid` | sources/poky/bitbake/lib/bb/cache.py:555-564 | A first question leaves the cache and `clean` as the thorough test does; a second one is answered from `checked` and `clean` and changes nothing. `clean` stays within the keys of `depends_cache`. |
| `RecipeCache.Cache.UpdateAndLoad` | sources/poky/bitbake/lib/bb/cache.py:538-658 | Right after a positive test, loading finds every variant, complete and clean. |
| `RecipeCache.Cache.AddInfo` | sources/poky/bitbake/lib/bb/cache.py:703-723 | Which entries are kept and which are only collected, for skipped recipes, changing revisions and multiconfig names; `clean` stays within the keys. |
| `Validity.KeptIff` | sources/poky/bitbake/lib/bb/cache.py:720-720 | A recipe is kept exactly when it is not marked as uncacheable and is skipped or has no text SRCREVINACTION anywhere in its version. |
| `Validity.GlobalNameOf` | sources/poky/bitbake/lib/bb/cache.py:703-711 | The name under which a recipe is collected is its file and class with the multiconfig of the cache in front. |
| `Validity.AddThenSync` | sources/poky/bitbake/lib/bb/cache.py:672-723 | A recipe that was parsed and may be kept is in the files that the next `sync` writes: a later load gives the whole table with it. |
| `RecipeCache.Cache.Remove` | sources/poky/bitbake/lib/bb/cache.py:660-670 | Removes the recipe and keeps `clean` within the keys. |
| `RecipeCache.Cache.Sync` | sources/poky/bitbake/lib/bb/cache.py:672-697 | Writes the files of the specification, or none when the cache is unchanged. |
| `MultiProcess.RunIsSafe` | sources/poky/bitbake/lib/bb/cache.py:869-936 | In every interleaving of any number of savers and a merging process no existing extras file is overwritten, no merge reads a half-written file, and every key of every completed save is in an extras file, in the data being merged or in the cache file. |
| `MergeRuns.RunMerges` | sources/poky/bitbake/lib/bb/cache.py:903-936 | Every merge of every run, from its start to its end: no extras file is left, whichever could be used; the data has exactly the keys that it had or that a usable file has, old values unchanged and new ones from such a file; and it is in the cache file, which is written exactly when a file could be used. |
| `MergeRuns.RunEmpties` | sources/poky/bitbake/lib/bb/cache.py:914-929 | At every moment of a merge the files on disk are exactly those that the listing still has to come to; after every merge there is none. |
| `MergeRuns.MergeGetsThrough` | sources/poky/bitbake/lib/bb/cache.py:903-936 | A merge can start whenever nobody holds the main lock, and the merging process on its own then comes to that end. |
| `MergeRuns.SaveGetsThrough` | sources/poky/bitbake/lib/bb/cache.py:869-895 | A save can begin whenever no merge is under way, and left alone it comes to an end: its data is in a new file, at the first index from its process number on that is neither locked nor used; its locks are free, and nothing else has changed. |
| `MultiProcess.StepKeeps` | sources/poky/bitbake/lib/bb/cache.py:869-936 | The invariant behind it, step by step: locks, half-written files and the progress of a merge. |
| `MultiProcess.RunKeepsValues` | sources/poky/bitbake/lib/bb/cache.py:897-936 | The merging process never loses a key or changes a value that it holds. |
| `MultiProcess.MergeAllKeys` | sources/poky/bitbake/lib/bb/cache.py:897-901 | After merging any files the keys are exactly those of the destination and of all files. |
| `MultiProcess.MergeAllValue` | sources/poky/bitbake/lib/bb/cache.py:897-901 | A value comes from the destination, or else from the first file in the listing that has the key. |
| `MultiProcess.ListingOrderIsIrrelevant` | sources/poky/bitbake/lib/bb/cache.py:916-928 | Two listings of the same files give the same keys. |
| `MultiProcess.MergeTable` | sources/poky/bitbake/lib/bb/cache.py:899-901 | Merging one table, key by key in any order, keeps every value that was there. |
| `MultiProcess.MergeInPlace` | sources/poky/bitbake/lib/bb/cache.py:897-901 | Merging table by table in place is the specified merge. |
| `CacheData.ProvidersInvertIffDistinct` | sources/poky/bitbake/lib/bb/cache.py:182-192 | `providers` is the exact inverse of `fn_provides` with each file once, exactly when no file name has been entered twice. |
| `CacheData.RProvidersInvert` | sources/poky/bitbake/lib/bb/cache.py:200-207 | `rproviders` has each file once, and has it exactly for what was entered as runtime provides of that file. |
| `CacheData.PnProvidesIsUnion` | sources/poky/bitbake/lib/bb/cache.py:189-192 | `pn_provides` has each target once, and exactly the names and provides of the files of that recipe name. |
| `CacheData.AllDependsIsUnion` | sources/poky/bitbake/lib/bb/cache.py:194-198 | `all_depends` is the repeat-free union of the files' `deps`. |
| `CacheData.DepsOfDistinct` | sources/poky/bitbake/lib/bb/cache.py:194-196 | With distinct names a file's `deps` are the dependencies of its own recipe, each once. |
| `CacheData.GrownAgain` | sources/poky/bitbake/lib/bb/cache.py:200-203 | `self.rprovides` grows in place; entering a recipe again makes the list longer but provides nothing new. |
| `CacheData.GrownElements` | sources/poky/bitbake/lib/bb/cache.py:200-203 | The list that is extended holds the recipe's own runtime provides and those of its packages. |
| `CacheData.CoreRecipeInfo.AddCacheData` | sources/poky/bitbake/lib/bb/cache.py:172-215 | One call enters the recipe in every index as specified, extends the recipe's own list by its packages' runtime provides, and records the runtime dependencies of exactly its packages. |
| `CacheData.RuntimeRowMeans` | sources/poky/bitbake/lib/bb/cache.py:209-215 | A package depends at run time on exactly what the recipe and the package itself name; other rows stay. |
| `MoveTracker.RenamesTracked` | sources/poky/bitbake/lib/pyinotify.py:718-798 | For any sequence of renames in a watched tree, with clean-ups and events of kinds other than moves and ends of watches anywhere between their events, every watch path equals its directory's path in the tree after the renames. |
| `MoveTracker.RenameTracked` | sources/poky/bitbake/lib/pyinotify.py:718-798 | The same for one rename, from any records that earlier moves left. |
| `MoveTracker.RerootIsRename` | sources/poky/bitbake/lib/pyinotify.py:783-798 | Re-rooting the texts that start with the old path is following the one changed link of the tree: descendants move, and paths that only share a string prefix do not. |
| `MoveTracker.EvictionLosesPath` | sources/poky/bitbake/lib/pyinotify.py:658-671 | The new path is found exactly when no clean-up between the events drops the record of the move; otherwise the path is marked as unknown. |
| `MoveTracker.EvictionLosesSubtree` | sources/poky/bitbake/lib/pyinotify.py:658-671 | When the record is dropped every other watch keeps its path, which is wrong exactly for the directories below the one that moved; the watches are in step exactly when no clean-up drops the record, or when nothing lies below and the new path happens to be the old one with the mark. |
| `MoveTracker.SysProcessEvent.ProcessMoveSelf` | sources/poky/bitbake/lib/pyinotify.py:758-798 | The handler, which rewrites the paths of watch objects one by one in any order, gives the specified paths. |
| `MoveTracker.SysProcessEvent.Process` | sources/poky/bitbake/lib/pyinotify.py:718-798 | Every event is handled as specified; events of unknown watches change nothing. |
| `MoveTracker.IgnoredIsForgotten` | sources/poky/bitbake/lib/pyinotify.py:807-816 | The end of a watch removes it and nothing else, and later events of it change nothing. |
| `InotifyEvent.StrippedIsBit30` | sources/poky/bitbake/lib/pyinotify.py:605-605 | Of a mask only the bit for directories is taken off, whatever the others are. |
| `Paths.BelowIffPrefix` | sources/poky/bitbake/lib/pyinotify.py:785-794 | For normal paths, `path + "/"` is a string prefix of another exactly when the components are a proper prefix. |
| `Paths.NormJoin` | sources/poky/bitbake/lib/pyinotify.py:723-725 | Joining a name to a normal path and normalising appends one component. |
| `Paths.NormKeepsPlace` | sources/poky/bitbake/lib/pyinotify.py:723-725 | Normalising a path leads to the same place by the shortest way: steps up first, then names, nothing empty, `.` or undone; nothing leads above the root. |
| `EventKey.KeyIdentifies` | sources/poky/bitbake/lib/pyinotify.py:461-486 | The text of an event identifies watch, mask, cookie and shown name. |
| `EventKey.CoalescingIsDistinct` | sources/poky/bitbake/lib/pyinotify.py:1234-1239 | Coalescing keeps exactly the first occurrence of each event if and only if no event without a name meets the same event with a name of two quotes. |
| `Notifier.ParseOfEncode` | sources/poky/bitbake/lib/pyinotify.py:1222-1242 | A buffer that is any concatenation of encoded events gives exactly those events and ends with the last. |
| `Notifier.EncodeOfParse` | sources/poky/bitbake/lib/pyinotify.py:1222-1242 | Only such buffers are read to their end; what is read before a failure are whole events. |
| `Notifier.PaddedEventsReadBack` | sources/poky/bitbake/lib/pyinotify.py:493-503 | Names padded with any number of NUL bytes are read back without them. |
| `Notifier.PaddedIsShown` | sources/poky/bitbake/lib/pyinotify.py:1222-1233 | An event that is shown from behind any padding has the watch, mask and cookie of the event, and all characters of its name and no more. |
| `Notifier.EventQueue.ReadEvents` | sources/poky/bitbake/lib/pyinotify.py:1201-1242 | A read below the threshold changes nothing; any other read adds one event for each parsed one, in order, with its watch, mask and cookie and a name of one character for each byte up to the padding; it succeeds exactly for concatenations of events. |
| `Notifier.EventQueue.Enqueue` | sources/poky/bitbake/lib/pyinotify.py:1234-1241 | Over any number of reads of a batch the queue is its first part and the first occurrence of each key, in order. |
| `Notifier.EventQueue.CoalesceEvents` | sources/poky/bitbake/lib/pyinotify.py:1150-1166 | Switching coalescing keeps the queue; the set of keys is emptied when it is switched off. |
| `Notifier.EventQueue.ProcessEvents` | sources/poky/bitbake/lib/pyinotify.py:1244-1271 | Processing empties the queue, handles the events in order by the move tracker, and then cleans up once. |
| `Notifier.BatchStepsAre` | sources/poky/bitbake/lib/pyinotify.py:1249-1269 | The steps of a call are the queued events in order, each at its reading of the clock, unless events are ignored, and one clean-up at the end. |
| `CoalescedMoves.SecondMoveIsLost` | sources/poky/bitbake/lib/pyinotify.py:1234-1239 | The first directory that moves a second time in a batch keeps the path of its earlier move: its second MOVE_SELF is taken for a repetition, the watches do not change, and its own path is wrong. |
| `CoalescedMoves.TrackedIffMovedOnce` | sources/poky/bitbake/lib/pyinotify.py:718-798 | With coalescing on, for any batch of renames with cookies of their own and other events between them: after the first k renames every watch has the path of its directory, for every k, if and only if no directory moves twice in the batch. |
| `CowDict.RunRefines` | sources/poky/bitbake/lib/bb/COW.py:44-121 | Over any tree of copies, with no writes to a copied node and no flat value stored where a plain attribute of the key is visible, looking up any key at any node equals looking it up in a plain map that was copied in full. |
| `CowDict.StartShows` | sources/poky/bitbake/lib/bb/COW.py:192-194 | The refinement holds at the start. |
| `CowDict.LookupIsFind` | sources/poky/bitbake/lib/bb/COW.py:60-104 | The attribute chain of a node is the overlay of its ancestors: the first layer that has the key, or the key with the suffix, decides. |
| `CowDict.ChangeIsLocal` | sources/poky/bitbake/lib/bb/COW.py:60-80 | An in-place change to a fetched value is seen by no ancestor and no sibling. |
| `CowDict.StoredFlatIsFound` | sources/poky/bitbake/lib/bb/COW.py:53-58 | A flat value that is stored is found again exactly when no plain attribute of that key is visible. |
| `CowDict.StoredAtomIsFound` | sources/poky/bitbake/lib/bb/COW.py:30-58 | A plain value that is stored is found again exactly when it is not the empty tuple, which is the deletion mark. |
| `CowDict.LateWriteShows` | sources/poky/bitbake/lib/bb/COW.py:44-58 | A write to a node that has been copied shows in the copy: the discipline is needed. |
| `CowDict.CowClass.SetItem` | sources/poky/bitbake/lib/bb/COW.py:53-58 | Setting in place changes only the node's own attributes, as specified. |
| `CowDict.CowClass.GetMutable` | sources/poky/bitbake/lib/bb/COW.py:60-80 | Fetching copies an inherited flat value up into the node before it is handed out, and leaves the inherited one as it was. |
| `CowDict.CowClass.GetItem` | sources/poky/bitbake/lib/bb/COW.py:88-104 | Reading gives the value of the overlay, or an own copy of it. |
| `CowForest.ClassesShowPlain` | sources/poky/bitbake/lib/bb/COW.py:88-104 | When the tree of levels shows plain dictionaries, looking up a key in a class gives what the plain dictionary of the same number holds. |
| `CowForest.Copy` | sources/poky/bitbake/lib/bb/COW.py:44-51 | Making a subclass is the step of the tree that copies a level. |
| `CowForest.SetAtom` | sources/poky/bitbake/lib/bb/COW.py:53-58 | Setting a plain value on a class is the step of the tree, for all classes at once. |
| `CowForest.SetFlat` | sources/poky/bitbake/lib/bb/COW.py:53-58 | The same for a mutable value, which becomes a new box. |
| `CowForest.Delete` | sources/poky/bitbake/lib/bb/COW.py:106-107 | The same for deleting. |
| `CowForest.Read` | sources/poky/bitbake/lib/bb/COW.py:60-104 | Reading a class is the step of the tree, and a mutable value that is returned is the level's own afterwards. |
| `CowForest.Touch` | sources/poky/bitbake/lib/bb/COW.py:60-104 | Changing a fetched value in place is the step of the tree: no other box changes. |
| `FifoReader.ChunkingIsIrrelevant` | sources/poky/bitbake/lib/bb/build.py:478-516 | For any split of the bytes into calls, the calls delivered and the outcome are those of the whole stream in one call; a message that raises ends both alike, and the bytes left are the same, apart from the pieces that were not read yet. |
| `FifoReader.FeedOfEncode` | sources/poky/bitbake/lib/bb/build.py:486-516 | For well-formed messages exactly those are delivered, and the buffer holds the bytes after the last NUL. |
| `FifoReader.FeedStopsAt` | sources/poky/bitbake/lib/bb/build.py:482-514 | When a message raises, those before it have been delivered, and it is still in the buffer with everything behind it. |
| `FifoReader.CommandIsCalled` | sources/poky/bitbake/lib/bb/build.py:486-514 | Which call each command and its text turn into; unknown commands are reported. |
| `FifoReader.DebugIsCalled` | sources/poky/bitbake/lib/bb/build.py:508-512 | A debug message needs a number and a text behind a space; without either it raises. |
| `FifoReader.BufferIsEncoded` | sources/poky/bitbake/lib/bb/build.py:486-492 | Every buffer is such a stream: messages with terminators and a rest without NUL. |
| `FifoReader.Fifo.ReadFifo` | sources/poky/bitbake/lib/bb/build.py:479-516 | The loop over the buffer does what the specification function says. |
| `HalfFloat.StoreAndLoadIsNearest` | sources/meta-st-x-linux-ai/recipes-frameworks/nbg-benchmark/files/vnn_utils.cc:209-297 | Storing and loading gives the nearest finite half of all, ties to even, for magnitudes from 2^-14 on; infinities give 65504; NaN and smaller magnitudes give a zero of the same sign (IEEE 754-2008 section 4.3.1). |
| `HalfFloat.StoreIsRounding` | sources/meta-st-x-linux-ai/recipes-frameworks/nbg-benchmark/files/vnn_utils.cc:221-278 | The branches on exponent, rounding bit, sticky bits and carry together compute sign and round-to-even of the bits, saturated. |
| `HalfFloat.HalfBitsNearest` | sources/meta-st-x-linux-ai/recipes-frameworks/nbg-benchmark/files/vnn_utils.cc:243-271 | Of all finite halves the rounded one is nearest, and it is even whenever another is as near. |
| `HalfFloat.StoreAndLoadIsMonotone` | sources/meta-st-x-linux-ai/recipes-frameworks/nbg-benchmark/files/vnn_utils.cc:209-297 | The order of floats, infinities included, is kept. |
| `HalfFloat.RankIsValueOrder` | sources/meta-st-x-linux-ai/recipes-frameworks/nbg-benchmark/files/vnn_utils.cc:221-227 | The order of the bits that the monotonicity speaks of is the order of the values. |
| `HalfFloat.StoreAndLoadIsStable` | sources/meta-st-x-linux-ai/recipes-frameworks/nbg-benchmark/files/vnn_utils.cc:209-297 | A second store gives the same half and a second load the same float, for every float. |
| `HalfFloat.LoadedValue` | sources/meta-st-x-linux-ai/recipes-frameworks/nbg-benchmark/files/vnn_utils.cc:280-297 | Loading a normal half, or zero, keeps its value. |
| `HalfFloat.StoreAndLoadTensor` | sources/meta-st-x-linux-ai/recipes-frameworks/nbg-benchmark/files/vnn_utils.cc:426-430 | For buffers of any length: each element is the nearest half, the order of elements is kept, and doing it again changes nothing. |
| `HalfFloat.StoreTensor` | sources/meta-st-x-linux-ai/recipes-frameworks/nbg-benchmark/files/vnn_utils.cc:555-559 | The loop stores each element. |
| `FixedPoint.StoredIsNearest` | sources/meta-st-x-linux-ai/recipes-frameworks/nbg-benchmark/files/vnn_utils.cc:67-84 | What comes back is the nearest of all values that the format can hold, ties away from zero. |
| `FixedPoint.ErrorOrSaturation` | sources/meta-st-x-linux-ai/recipes-frameworks/nbg-benchmark/files/vnn_utils.cc:85-100 | Inside the range the error is at most half a step; beyond it the extreme code is stored. |
| `FixedPoint.StoreIsDefined` | sources/meta-st-x-linux-ai/recipes-frameworks/nbg-benchmark/files/vnn_utils.cc:71-81 | The conversion to a 32-bit integer is defined exactly when the scaled value is less than half a unit outside that range. |
| `FixedPoint.StoreOfLoad` | sources/meta-st-x-linux-ai/recipes-frameworks/nbg-benchmark/files/vnn_utils.cc:150-182 | Every code of the width comes back from its own value. |
| `FixedPoint.PositionsAreBinary` | sources/meta-st-x-linux-ai/recipes-frameworks/nbg-benchmark/files/vnn_utils.cc:150-164 | The position counts binary places: code 2^n at position n is 1, and code 1 at position -n is 2^n. |
| `FixedPoint.StoreMonotone` | sources/meta-st-x-linux-ai/recipes-frameworks/nbg-benchmark/files/vnn_utils.cc:166-182 | A larger value gets a code that is not smaller. |
| `FixedPoint.StoreAndLoadTensor` | sources/meta-st-x-linux-ai/recipes-frameworks/nbg-benchmark/files/vnn_utils.cc:377-393 | For buffers of any length: nearest values, order kept, and what comes back can be stored and loaded again without a change. |
| `FixedPoint.StoreTensor` | sources/meta-st-x-linux-ai/recipes-frameworks/nbg-benchmark/files/vnn_utils.cc:506-522 | The loop stores each element. |
| `TopClasses.GetTop` | sources/meta-st-x-linux-ai/recipes-frameworks/nbg-benchmark/files/vnn_utils.cc:1109-1147 | Each place holds the first most probable class that is in none of the first five places before it, or none when no probability above zero is left; when fewer than five are asked for, what the caller's array holds in the rest of the five is skipped too. More than twenty places are refused, and no other place is written. |
| `TopClasses.TopSixAreSorted` | sources/meta-st-x-linux-ai/recipes-frameworks/nbg-benchmark/files/vnn_utils.cc:1125-1143 | The first six places hold no class twice and do not increase. |
| `TopClasses.TopSixAreBest` | sources/meta-st-x-linux-ai/recipes-frameworks/nbg-benchmark/files/vnn_utils.cc:1125-1143 | A class that is in none of the first n places, for n up to six, is not above any of them. |
| `TopClasses.SixthIsRepeated` | sources/meta-st-x-linux-ai/recipes-frameworks/nbg-benchmark/files/vnn_utils.cc:1129-1133 | Every place after the sixth holds the same class as the sixth. |
| `TopClasses.NoClassTwiceIff` | sources/meta-st-x-linux-ai/recipes-frameworks/nbg-benchmark/files/vnn_utils.cc:1125-1143 | No class is in two places exactly when at most six are asked for or at most five probabilities are above zero. |
| `TopClasses.SixthIsEmptyIff` | sources/meta-st-x-linux-ai/recipes-frameworks/nbg-benchmark/files/vnn_utils.cc:1129-1133 | The sixth place is empty exactly when at most five probabilities are above zero. |
| `SstatePrune.SignaturesIdentify` | sources/poky/scripts/sstate-cache-management.py:31-42 | Because the fields exclude colons, the joined signatures are equal exactly when the fields are. |
| `SstatePrune.RemoveDuplicated` | sources/poky/scripts/sstate-cache-management.py:167-185 | The pass removes, each once, exactly the files that are not the newest of their kind. |
| `SstatePrune.RemoveOrphans` | sources/poky/scripts/sstate-cache-management.py:188-197 | The pass over the groups in any order removes, each once, exactly the files of groups without an archive. |
| `SstatePrune.Prune` | sources/poky/scripts/sstate-cache-management.py:300-325 | What is left is the cache without what either pass names. |
| `SstatePrune.RemovedIff` | sources/poky/scripts/sstate-cache-management.py:167-197 | Which files either flag removes, alone or together: all but the first of the newest of each kind, except `populate_lic`, so that of files with equal times the one listed first stays; and the groups without an archive. |
| `SstatePrune.LeftIsConsistent` | sources/poky/scripts/sstate-cache-management.py:300-311 | After both passes, each computed on the original set, every group that is left has an archive and outside `populate_lic` every kind of file in it exactly one file. |
| `SstatePrune.WhatIsLeft` | sources/poky/scripts/sstate-cache-management.py:167-197 | Nothing more goes: in a group with an archive the newest file of each kind stays and `populate_lic` files all stay. |
| `SstatePrune.SecondRunRemovesNothing` | sources/poky/scripts/sstate-cache-management.py:300-325 | A second run over what is left, in any order, removes nothing. |
| `SstatePrune.OrderIsIrrelevant` | sources/poky/scripts/sstate-cache-management.py:167-185 | When no two files of a kind have the same time, the order of iteration does not matter. |
| `SstatePrune.TrackerOutlivesItsArchive` | sources/poky/scripts/sstate-cache-management.py:167-197 | The failing case: a newest tracking file, all of whose own archives are older than another archive of the group, is left without any of them. |
| `SstatePrune.TrackersKeepArchivesIff` | sources/poky/scripts/sstate-cache-management.py:167-197 | Every tracking file that is left has an archive of the same name left, exactly when in each group of the input that has an archive the newest tracking file of each kind belongs to the newest archive, and those of `populate_lic` belong to some archive. |
| `ElfFile.FileIsRelocatedInPlace` | sources/poky/scripts/relocate_sdk.py:72-209 | A file whose parts lie apart and whose new texts fit keeps its length, nothing outside the interpreter segment and the named sections changes, the segment holds the new path and zeros exactly when the interpreter is not the host's and the path fits, and the sections hold what they should. |
| `ElfFile.LoaderIsRelocatedInPlace` | sources/poky/scripts/relocate_sdk.py:72-209 | The same for a file without an interpreter segment, as the dynamic loader is: only the named sections change. |
| `ElfFile.RelocationIsByHeader` | sources/poky/scripts/relocate_sdk.py:245-254 | Files of less than 64 bytes, without the first magic byte or of another class than 1 and 2 are left alone; any other is relocated by its own header. |
| `ElfRelocate.RelocationIsInPlace` | sources/poky/scripts/relocate_sdk.py:114-209 | The same for `change_dl_sysdirs` alone: every named section is rewritten from its own original bytes, and holds its own text with the new prefix wherever the placeholder was. |
| `ElfRelocate.OutcomeOfRun` | sources/poky/scripts/relocate_sdk.py:153-201 | The run ends well exactly when every text fits its section and a table of directories comes with a table of lengths; it exits exactly when a text does not fit. |
| `ElfRelocate.RelocatedTablesAgree` | sources/poky/scripts/relocate_sdk.py:185-209 | In a file whose tables were rewritten, be its interpreter replaced or not, the directories are the relocated ones, and entry i of the table of lengths, read little-endian, is the length of directory i. |
| `ElfRelocate.PathsEndAtEmpty` | sources/poky/scripts/relocate_sdk.py:186-192 | Nothing behind the first empty text of the table of directories counts. |
| `ElfSections.SlotsAreIndependent` | sources/poky/scripts/relocate_sdk.py:168-183 | Each 4096-byte slot is rewritten from what it held at the start and ends with a zero; all slots are rewritten exactly when all new paths fit. |
| `ElfTexts.SlotTexts` | sources/poky/scripts/relocate_sdk.py:168-183 | Each slot of 4096 bytes holds its own text with the new prefix wherever the placeholder was found from left to right, without trailing zeros, and at least one zero behind it. |
| `ElfTexts.PlaceholderIsReplaced` | sources/poky/scripts/relocate_sdk.py:157-166 | A section or slot that held parts with the placeholder between them, and zeros behind, holds the same parts with the new prefix between them, and zeros behind. |
| `ElfTexts.RelocationIsUnique` | sources/poky/scripts/relocate_sdk.py:157-166 | These statements leave only one outcome. |
| `ElfTexts.RelocatedIsText` | sources/poky/scripts/relocate_sdk.py:158-163 | What is compared with the size is the length of that text. |
| `ElfTexts.RolesByName` | sources/poky/scripts/relocate_sdk.py:141-167 | The sections that are looked at are those of type 1 that the string table names `.sysdirs`, `.sysdirslen`, `.ldsocache` and `.gccrelocprefix`. |
| `ElfSections.SlotsStayInside` | sources/poky/scripts/relocate_sdk.py:168-183 | No byte outside the slots changes. |
| `ElfSections.WalkRewrites` | sources/poky/scripts/relocate_sdk.py:135-183 | The walk, which reads each header from the file that it is changing, rewrites each section as if alone. |
| `ElfInterpreter.InterpreterIsInPlace` | sources/poky/scripts/relocate_sdk.py:91-112 | Only the segment changes. When the interpreter is not the host's and the new path fits with a zero, the segment holds the path and zeros after it; otherwise the file is as before, and a path that is too long is reported. |
| `ElfInterpreter.HostIffPlainOrWidth` | sources/poky/scripts/relocate_sdk.py:95-100 | The test on the first eleven bytes accepts exactly the paths below `/lib`, or below `/lib` or `/usr/lib` with the suffix 32 or 64. |
| `ElfInterpreter.LeftAloneIffPlainOrWidth` | sources/poky/scripts/relocate_sdk.py:95-111 | An interpreter below a variant of the library directory (`/lib` or `/usr/lib` with any suffix) is left alone exactly when its suffix is 32 or 64, or there is neither a suffix nor `/usr`; any other is replaced by a path that fits. |
| `ElfInterpreter.UsrLibAndX32AreReplaced` | sources/poky/scripts/relocate_sdk.py:95-111 | An interpreter below `/usr/lib/` or `/libx32/` is replaced by a path that fits. |
| `ElfInterpreter.Find` | sources/poky/scripts/relocate_sdk.py:79-92 | The loop over the program headers finds that segment and leaves the file as it was. |
| `ElfInterpreter.FindsFirst` | sources/poky/scripts/relocate_sdk.py:79-92 | The segment that is looked at is the first interpreter segment. |
| `ElfInterpreter.ChangeInterpreter` | sources/poky/scripts/relocate_sdk.py:72-112 | Seeking, reading and writing the file does what the specification says, from any bytes. |
| `ElfInterpreter.RewriteSlots` | sources/poky/scripts/relocate_sdk.py:168-183 | The loop over the slots, which relies on the file position, is the specified rewriting. |
| `ElfInterpreter.BuildTables` | sources/poky/scripts/relocate_sdk.py:186-200 | The loop grows both tables path by path up to the first empty text. |
| `ElfInterpreter.ChangeDlSysdirs` | sources/poky/scripts/relocate_sdk.py:114-209 | The whole method on the file is the specified function of its bytes. |
| `ElfFile.Relocate` | sources/poky/scripts/relocate_sdk.py:245-254 | Small files and unknown classes are left alone; a path that is too long does not keep the sections from being rewritten. |
| `ElfBytes.SubstituteReplaces` | sources/poky/scripts/relocate_sdk.py:172-172 | Substituting keeps the pieces between occurrences, which contain no occurrence, and puts the new text between them. |
| `ElfBytes.SubstituteOfCut` | sources/poky/scripts/relocate_sdk.py:172-172 | For any parts such that no earlier occurrence overlaps a cut, joining them by the old text and substituting is joining them by the new text; that no part contains the text is not enough, because it may overlap itself. |
| `ElfLayout.HeaderReadBack` | sources/poky/scripts/relocate_sdk.py:52-70 | From a file header laid out as the gABI says, for both classes and byte orders, the offsets, entry sizes and counts of both tables and the index of the names are taken. |
| `ElfLayout.ClassReadBack` | sources/poky/scripts/relocate_sdk.py:32-50 | The class is 32 bits for 1 and 64 bits for 2, and only after the first magic byte. |
| `ElfLayout.SectionReadBack` | sources/poky/scripts/relocate_sdk.py:114-139 | From a section header of ten fields the name, type, offset and size are taken. |
| `ElfLayout.ProgramReadBack` | sources/poky/scripts/relocate_sdk.py:72-89 | From a program header of eight fields, whose flags stand elsewhere in 64-bit files, the type, offset and size in the file are taken. |
| `ElfHeader.NameReadBack` | sources/poky/scripts/relocate_sdk.py:141-141 | A name is read up to its terminator; one at the end of the table without a terminator loses its last byte. |

## Left out

- Locks, file times, pickling, pipes, `select` and the kernel: they are steps, numbers, byte strings and events here. `bb.utils.lockfile` is not part of this model and is taken as a shared and exclusive lock with a try that does not block.
- Recovery of the cache beyond files that end early: other damage to a pickle is one kind of failure.
- The two halves of `RecipeCache.ValidIsLoadable` for caches of other shapes; the shape is what `load_cachefile`, `add_info` and `remove` keep.
- The text form of `file_checksums` and glob expansion in `cacheValidUpdate`: a list of files with their expected existence.
- The many attributes that `add_cacheData` only copies under the file name or appends to a list of its own (`pkg_pn`, `packages_dynamic`, `possible_world`, `universe_target`).
- Errors of missing tables of packages: `CoreRecipeInfo` makes a table entry for every package, and the model asks for that.
- `addtask` and `deltask` take `before` and `after` as lists of words; splitting the text is left out.
- Decoding of event names as UTF-8: names are bytes, each shown as one character. Events with unknown masks, automatic adding of watches for new directories, and the user's own handlers.
- `rm_watch`, the other notifiers, daemonising and colour output of `pyinotify.py`.
- Sets, iteration and printing of the copy-on-write classes, and values that hold mutable values themselves.
- Backslashes in the new prefix of `relocate_sdk.py`, which a replacement text treats specially; big-endian tables of lengths, which the code never writes; file permissions.
- `ElfFile.FileIsRelocatedInPlace`: is about files whose parts lie apart and whose tables fit; for other files the methods still give the exact bytes, as functions of the old ones.
- `FixedPoint.StoreAndLoadTensor`: computes with exact reals and asks that no element is outside the 32-bit range after scaling, where the C conversion is undefined.
- `TopClasses.GetTop`: asks for an array with at least five entries, because the code reads five whatever it is asked for; probabilities are reals, so NaN is left out.
- The asymmetric conversions, whose zero points differ between storing and loading, and the copies of tensors without conversion.
- `remove_by_stamps`, scanning the directory and the grammar of file names: an entry comes with its matched fields.
- Recipe generators, fetchers and reports: mostly input and output.
