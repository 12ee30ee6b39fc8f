# vost, verified

vost keeps a versioned filesystem in a bare Git repository. This project models
its hard core in Dafny and proves what the rest of the system relies on: what a
tree rebuild does to the set of files, when the C++ and the Rust rebuild agree,
why concurrent writers lose no commit, what undo and redo can bring back, what
the glob matchers match, and what batching, sync, rename, notes, bundle headers,
log and path normalization do.

`dafny verify dfyconfig.toml` checks everything.

## How the system is represented

- **Objects are values.** Two objects with one hash are taken to be one object,
  so trees, files and commits are datatypes and "equal id" is equality. The
  object store itself needs no model.
- **Trees.** `Dir(map from name to tree)` or `Blob(file)`. `FileAt` reads one
  path; `Flatten` is the path-to-file map; `SameFilesIsSameMap` ties the two.
- **Paths** are sequences of names. `Paths.ProperIsNormal` and
  `Paths.NormalizedIsCanonical` show that accepted path strings and sequences of
  proper names are the same thing. A change to the root itself is skipped by the
  C++ tree code, and so by the model; in Rust it is a change to the empty name,
  which Git's tree builder refuses when it is a write (see "Left out").
- **Changes** are a list of writes and removes. `Changes.Overlay` is the
  reference meaning of such a list for Rust: it talks about paths only, and
  covers every list, nested or not. `PortAgreement.CppOverlay` is the same for
  C++.
- **Loops and in-place edits** of the original are methods with loops, and
  objects with changing fields are classes; each is proved equal to a function,
  and the results are lemmas about those functions.
- **The branch protocol** is a transition system with one step per visible
  action (fetch, build, take the two locks, check, write the ref, append to the
  reflog, release). A run is any sequence of enabled steps of any number of
  clients. Fetches and reflog reads are not excluded by the locks, so they may
  fall between a ref write and its log append. That the ref is written first and
  the reflog second, and that a move to the commit the branch is already at is
  logged too, is what the ref store's `set_if_equals` (called at
  src/vost/repo.py:66-80) is taken to do; it is foreign code.

## Findings

- The two rebuilds give the same files from every base exactly when nothing
  changes below a write, no path is both written and removed, and below an
  outermost remove nothing is written and nothing was removed earlier than it
  (`PortAgreement.PortsAgreeExactly`). C++ depends on the order of its removes,
  because a remove edits the builder that later captures read.
- A batch leaves the files of its operations done one by one, from every base,
  exactly when each outermost pending write is the last operation at, above or
  below its path, and below an outermost pending remove nothing is written and
  nothing was removed earlier than it (`Batch.BatchIsSequenceExactly`). So
  writing `a/b` and then `a` is fine in a batch, writing `a` and then `a/b` is not.
- Sync reaches its target exactly when no file of the store is in the way
  (`Sync.SyncMakesEqual`). A disk file at the place of a stored directory is
  written and then lost, because the removes below it are applied last.
- Renaming the root copies it: its old paths are built as an empty name, a slash
  and the rest, so the removes hit nothing (`Rename.RenameRootCopies`).
- The Rust matcher takes a `*` in the pattern for a `*` in the name. It decides
  every pattern correctly on exactly the names without a `*`
  (`Glob.LoopExactNames`).
- Skipping a commit by tree identity is right about every change list exactly on
  the bases without an empty directory below the root (`Rebuild.SkipExactBases`).
  C++ makes other bases: it keeps a directory it has emptied
  (`PortAgreement.CppLeavesEmptyDirectory`).
- A redo reads the reflog before it takes the lock, and counts back from the
  newest move to its snapshot that it has read of. That is the tip of that many
  moves ago exactly when reading again under the lock would give the same target,
  and always when the reflog has not grown (`ProtocolSafety.RedoInRun`). It goes
  wrong when the branch moves away and comes back in between
  (`ProtocolProgress.StaleReadLandsElsewhere`), and also, with no move after the
  read, when the read falls between another client's ref write and log append
  (`ProtocolProgress.EarlyReadLandsElsewhere`).
- The three redo scans agree after any series of undos
  (`RedoScans.UndosThenRedo`). Beyond that, Rust agrees with Python up to a number
  of steps exactly when each of the last that many moves led to a commit that was
  last entered from the same place (`RedoScans.RustAgreesExactly`). C++ agrees with
  Python, whatever the commits, exactly when the last that many moves were undos
  and redos, or when there were fewer moves and both refuse
  (`RedoScans.CppAgreesExactly`). On a single log it can also agree by coincidence,
  but only where the branch has come back to an earlier commit
  (`RedoScans.CppAgreesOn`).
- A bundle without references cannot be read back, since the search for the blank
  line starts behind the newline of the signature (`Bundle.HeaderRoundTrip`).
- A log limit of zero reports one commit (`Log.SkipAndLimit`).
- README.md:316 says that a rejected stale write leaves a dangling commit object;
  the code refuses before it creates one (src/vost/fs.py:659-662). The model
  follows the code.

## Model

| member | source | states |
|---|---|---|
| `Trees.EntryAtPath` | rs/src/tree.rs:22-63 | the segment loop finds what the path leads to, and nothing when an intermediate entry is missing or a file |
| `Trees.WalkTree` | rs/src/tree.rs:208-247 | the walk lists exactly the files under the directory, each once, under its full path, behind what was listed before |
| `Trees.PathsAreFiles` | rs/src/tree.rs:208-247 | the set of paths built by recursion is the set of paths that lead to a file |
| `Trees.SameFilesIsSameMap` | rs/src/tree.rs:208-247 | trees flatten to the same map if and only if every path leads to the same file in both |
| `Trees.CanonicalIsDetermined` | rs/src/tree.rs:437-444 | flattening is injective on trees without an empty directory below the root |
| `Changes.OverlayDeeper` | rs/src/tree.rs:359-435 | descending one name turns the overlay of the whole list into the overlay of the changes below that name, on the old contents or, if the name itself changed, on nothing |
| `Rebuild.GroupBySegment` | rs/src/tree.rs:359-384 | grouping keeps, per name, the last write, whether there is a remove, and the deeper changes in order |
| `Rebuild.RebuildTree` | rs/src/tree.rs:354-456 | the grouping, editing, recursing and pruning loops compute the level-by-level rebuild |
| `Rebuild.RebuildOverlays` | rs/src/tree.rs:354-456 | for every base and every change list, the file at each path is the last unremoved write there if nothing changed below, nothing above or below a changed path, and the old file elsewhere |
| `Rebuild.RebuildRefinesFlatMap` | rs/src/tree.rs:354-456 | the same for the flat maps |
| `Rebuild.RebuildKeepsCanonical` | rs/src/tree.rs:437-444 | pruning keeps trees free of empty directories below the root |
| `Rebuild.SkipIsNoChange` | rs/src/fs.rs:1652-1659 | on such a base the tree identity test fires exactly when no file's content, mode or path changed |
| `Rebuild.SkipExactBases` | rs/src/fs.rs:1652-1659 | the test is right about every change list if and only if the base has no empty directory below the root |
| `Rebuild.PythonAgreesWithRust` | src/vost/tree.py:133-237 | without nested changes the Python rebuild, which descends into the base's subdirectory, builds the very tree of the Rust rebuild |
| `PrefixRebuild.UnderDeeper` | cpp/src/tree.cpp:421-428 | re-scanning the whole list at a longer prefix selects what descending one name selects |
| `PrefixRebuild.CppRebuildTree` | cpp/src/tree.cpp:415-535 | the prefix-scanning, capturing and inserting loops compute the C++ level-by-level rebuild of the changes under the prefix |
| `PrefixRebuild.ScanCaptures` | cpp/src/tree.cpp:483-503 | a subdirectory only removes pass through is captured with its contents exactly when a deeper remove precedes every remove of it |
| `PortAgreement.CppOverlaysAt` | cpp/src/tree.cpp:368-536 | for every base and every list of writes and removes, the file at each path after the C++ rebuild: nothing below a write, the last write where one is, nothing above a change or under a remove that was not preceded by a capture, the old file elsewhere |
| `PortAgreement.CppKeepsDirectory` | cpp/src/tree.cpp:448-535 | removing one entry leaves its directory with exactly the other entries, also when there are none |
| `PortAgreement.CppLeavesEmptyDirectory` | cpp/src/tree.cpp:505-535 | after C++ removes the only entry of a directory, some change list touches no file and still makes a new tree in the pruning ports |
| `PortAgreement.PortsAgreeExactly` | cpp/src/tree.cpp:368-536 | the C++ and Rust rebuilds flatten to the same map from every base if and only if the condition on the change list holds |
| `PortAgreement.IncomparableChangesAgree` | cpp/src/tree.cpp:368-536 | unnested changes, none both written and removed, satisfy the condition |
| `Batch.PendingIsLast` | cpp/src/batch.cpp:32-95 | the pending lists hold exactly the last operation of each path; they are duplicate-free and disjoint |
| `Batch.OneByOneAt` | cpp/src/fs.cpp:564-587 | applied one at a time, the last operation at, above or below a path decides what is there |
| `Batch.BatchIsSequenceExactly` | cpp/src/batch.cpp:101-125 | committing the batch leaves, from every base, the files that applying each operation in order leaves, if and only if the batch keeps the order of nested operations |
| `Batch.UnnestedKeepsOrder` | cpp/src/batch.cpp:101-125 | operations of which no two are nested satisfy that condition |
| `Batch.Batch.constructor` | cpp/src/batch.cpp:13-18 | a new batch is open and has staged nothing |
| `Batch.Batch.Write` | cpp/src/batch.cpp:32-50 | an open batch stages the write; a closed one refuses and stays as it is |
| `Batch.Batch.Remove` | cpp/src/batch.cpp:81-95 | an open batch stages the remove; a closed one refuses and stays as it is |
| `Batch.Batch.Commit` | cpp/src/batch.cpp:101-125 | commit closes the batch, gives the tree of the pending lists, which has the files of the sequence if the batch keeps the order, and is refused the second time |
| `Batch.Erase` | cpp/src/batch.cpp:39-46 | the erase-remove idiom drops exactly the entries of the path, in order |
| `Rename.RenamePath` | rs/src/copy.rs:1224-1272 | a missing source is an error; otherwise the changes remove each file at or below the source and write it below the destination, with an empty first name in place of the root |
| `Rename.RenameMoves` | rs/src/copy.rs:1224-1272 | to a vacant incomparable place, a rename moves every file with object and mode and touches nothing else |
| `Rename.RenameRootCopies` | rs/src/copy.rs:1238-1245 | renaming the root to a vacant place copies every file and takes none away |
| `Rename.RenameThereAndBack` | rs/src/copy.rs:1224-1272 | renaming back yields the identical canonical tree |
| `Sync.DiskGlob` | rs/src/copy.rs:1298-1321 | the listing has exactly the disk files that pass the filters, each once |
| `Sync.ExistingFiles` | rs/src/copy.rs:868-882 | the existing files are those below the destination, none when it is missing or a file |
| `Sync.CopyFiles` | rs/src/copy.rs:888-966 | writes and add and update reports are exactly the listed disk files that differ from the store, each reported once |
| `Sync.RemoveStale` | rs/src/copy.rs:969-992 | removes and delete reports are exactly the listed store files absent from the disk that the filters let through, each reported once |
| `Sync.SyncIn` | rs/src/copy.rs:846-995 | the changes are exactly the differences in scope, and the report names each once, as what it does |
| `Sync.SyncTouchesExactly` | rs/src/copy.rs:1404-1422 | a path is changed exactly when store and disk differ there, no skip pattern fits its last name or whole relative path, and, if patterns to take are given, one does |
| `Sync.SyncMakesEqual` | rs/src/copy.rs:846-995 | the rebuilt store equals the disk in scope and is unchanged elsewhere if and only if no stored file is in the way |
| `Sync.SecondSyncIsEmpty` | rs/src/copy.rs:846-995 | a second sync has no change to make and leaves the same tree |
| `Glob.Fnmatch` | rs/src/glob.rs:15-43 | the loop terminates, is right whenever it says yes, and is exact on names without a star |
| `Glob.LoopIsSound` | rs/src/glob.rs:21-36 | from any state a yes means a match there or behind the recorded star |
| `Glob.LoopIsComplete` | rs/src/glob.rs:21-36 | on star-free names going back only to the last star loses no match |
| `Glob.LoopExactNames` | rs/src/glob.rs:21-43 | the loop agrees with the declarative matcher on every pattern if and only if the name has no star |
| `Glob.CppFnmatch` | cpp/src/glob.cpp:15-64 | without a bracket in the pattern the recursion decides as the declarative matcher, and as the Rust loop on names without a star |
| `Glob.StarRun` | cpp/src/glob.cpp:21-31 | a run of stars matches when the rest of the pattern matches some suffix |
| `Glob.GlobMatchMeaning` | rs/src/glob.rs:5-12 | on names without a star the glob match is the declarative match with every leading dot asked for; on all names it implies that |
| `Iglob.IglobRecursive` | rs/src/fs.rs:1807-1867 | the collected paths are those already there and exactly the files under the prefix that the pattern stands for |
| `Iglob.IglobRoot` | rs/src/fs.rs:605-614 | from the root, exactly the files whose path the pattern stands for; no dotted name unless a segment asks for a dot; without `**`, on names without a star, exactly the files whose names the segments match one by one |
| `Iglob.PlainMeaning` | rs/src/fs.rs:1845-1865 | without `**` a pattern stands for the paths of its length whose names its segments match, leading dots asked for |
| `Iglob.NoDotNoDotfile` | rs/src/glob.rs:6-9 | a pattern without a leading dot in any segment stands for no path with a dotted name |
| `Iglob.DoubleStarMeaning` | rs/src/fs.rs:1823-1844 | `**` is zero or more leading directories without a leading dot |
| `Paths.Normalize` | cpp/src/paths.cpp:14-55 | the scanning loop computes the normal form or the error |
| `Paths.NormalizedIsCanonical` | cpp/src/paths.cpp:14-55 | an accepted path keeps exactly the segments other than empty and `.`, in order, all proper; it is the root exactly when the given path is all slashes; normalizing again changes nothing |
| `Paths.AcceptedExactly` | cpp/src/paths.cpp:26-47 | a path is refused for `..` exactly when that is a segment, and as empty exactly when it names nothing and is not all slashes |
| `Paths.ProperIsNormal` | cpp/src/tree.cpp:379-387 | joined proper segments are their own normal form, and the tree code splits them back |
| `History.WalkBack` | src/vost/fs.py:1357-1365 | the parent loop reaches the n-th first-parent ancestor, or reports how many there are |
| `History.BackIsChain` | src/vost/fs.py:1317-1330 | going back n commits is the n-th member of the first-parent chain |
| `Branch.BranchRef.constructor` | src/vost/repo.py:104-115 | a created branch has one reflog entry, from the zero id |
| `Branch.BranchRef.SetTarget` | src/vost/repo.py:66-80 | moving the ref appends the move from the old tip to the reflog |
| `Branch.BranchRef.CommitChanges` | src/vost/fs.py:612-685 | the answer is the stale error exactly when the snapshot is not the tip, and else the new tip; the branch has made the step of the run model |
| `Branch.BranchRef.UndoMove` | src/vost/fs.py:1332-1378 | errors for a bad number, too short a first-parent chain and a stale snapshot, in that order, else the new tip |
| `Branch.BranchRef.RedoMove` | src/vost/fs.py:1380-1470 | errors in the order of the code, else the branch moves to the redo target |
| `Branch.BranchRef.SetBranch` | src/vost/repo.py:666-673 | setting a branch moves it and logs the move |
| `Branch.FindRedoTarget` | src/vost/fs.py:1423-1455 | the backward search and the index walk compute the redo target |
| `Branch.LogRecordsTips` | src/vost/repo.py:66-80 | over every run of commits, undos, redos and sets, with any snapshots, each entry starts where the previous ended, the last ends at the tip, and the log lists every tip in order |
| `Branch.StaleMovesNothing` | src/vost/fs.py:659-662 | a commit, undo or redo whose snapshot is not the tip leaves branch and reflog as they are |
| `Branch.CommitMoves` | src/vost/fs.py:657-685 | a commit on the tip leaves the branch at the tree with the changes: unmoved if that is the tip's tree, else at a child of the tip with the other parents behind, logged as a commit |
| `Branch.CommitHasChanges` | src/vost/fs.py:657-685 | for unnested changes the new tip has exactly the overlaid files, and from a tree without empty directories the branch stays put exactly when no file changes |
| `Branch.UndoMoves` | src/vost/fs.py:1332-1378 | undo leaves the branch at that member of the tip's first-parent chain, logged as an undo, or unmoved when there is none |
| `Branch.RedoMoves` | src/vost/fs.py:1380-1470 | redo leaves the branch at the tip of that many moves ago, logged as a redo, or unmoved when there is none |
| `Branch.SetMoves` | src/vost/repo.py:666-673 | setting a branch leaves it at the target whatever its tip was, and logs the move |
| `Branch.CommitsStayOnBranch` | src/vost/fs.py:612-685 | over every run of commits with any snapshots, the tips are one first-parent chain and every one is an ancestor of the tip |
| `Branch.RedoLandsJMovesAgo` | src/vost/fs.py:1380-1470 | after every run `redo(j)` lands on the tip as it was j moves ago, and fails exactly when there were fewer moves |
| `Branch.EveryTipIsRecoverable` | src/vost/fs.py:1380-1470 | every commit the branch ever held is the tip or one redo away |
| `RedoScans.RustFindRedo` | rs/src/fs.rs:1361-1371 | the repeated search computes the chain of newest moves |
| `RedoScans.CppFindRedo` | cpp/src/fs.cpp:894-926 | the filtered pass computes the scan over undo and redo entries |
| `RedoScans.UndoneExactly` | src/vost/fs.py:1357-1378 | a series of undos goes through exactly when the first-parent chain is long enough for their sum, and ends at that member of it |
| `RedoScans.RustTakesUndosBack` | rs/src/fs.rs:1347-1371 | a series of undos, each logged once or more, is taken back by the repeated search, also below later shallower entries |
| `RedoScans.CppTakesUndosBack` | cpp/src/fs.cpp:871-931 | the same for the filtered pass |
| `RedoScans.UndosThenRedo` | cpp/src/fs.cpp:803-976 | m undos of any sizes and one `redo(m)` return every port to the original tip |
| `RedoScans.RustAgreesExactly` | rs/src/fs.rs:1361-1371 | on every chained log, Rust leads where Python leads for up to so many steps if and only if each of the last that many moves led to a commit last entered from the same place |
| `RedoScans.CppAgreesOn` | cpp/src/fs.cpp:894-931 | on every chained log C++ agrees with Python if the last that many moves were undos and redos, or if there are too few moves; on a log without a return, only then |
| `RedoScans.CppAgreesExactly` | cpp/src/fs.cpp:894-931 | C++ agrees with Python on all chained logs of given kinds if and only if the last that many kinds are undos and redos, or there are too few |
| `RedoScans.ScansDiffer` | rs/src/fs.rs:1361-1371 | logs on which the three scans give three different answers |
| `Protocol.StepKeepsLocks` | src/vost/_lock.py:37-51 | every step keeps: the file lock is held by exactly the client inside, each process lock by exactly its client between taking and releasing |
| `Protocol.NeverStuck` | src/vost/_lock.py:37-51 | in every reachable state where a client waits for or holds a lock, some such client can step |
| `ProtocolSafety.AlwaysOk` | src/vost/fs.py:659-685 | in every interleaving the reflog tracks the ref up to a pending append, a passed check still holds, and prepared moves stay meaningful |
| `ProtocolSafety.StepKeepsLog` | src/vost/repo.py:66-80 | every step keeps the reflog equal to the history of tips, but for the move whose append is pending |
| `ProtocolSafety.RedoTargetWasTip` | src/vost/fs.py:1423-1455 | a redo only leads to a commit the branch has held |
| `ProtocolSafety.NoLostCommits` | src/vost/fs.py:612-685 | in every interleaving of fetching and committing clients, tips form one first-parent chain, every returned commit is an ancestor of every later tip, and its tree is its parent's with exactly the caller's changes |
| `ProtocolSafety.PreparedFromSnapshot` | src/vost/fs.py:1354-1414 | an undo is refused exactly when the snapshot's first-parent chain is too short, a redo exactly when the snapshot is not the tip as it begins |
| `ProtocolSafety.PreparedFromLog` | src/vost/fs.py:1416-1455 | in every reachable world a redo is refused after reading the reflog exactly when that knows no move to the snapshot or too few before it |
| `ProtocolSafety.CheckDecides` | src/vost/fs.py:659-681 | in every reachable world the check refuses exactly the moves whose snapshot is not the tip; what passes leads to the tip's child with the changed tree, to the tip's ancestor, or to the target |
| `ProtocolSafety.RedoInRun` | src/vost/fs.py:1404-1470 | in every interleaving a redo past its check leads to the tip of that many moves before the newest move to its snapshot it had read of; that is the tip of that many moves ago if and only if reading the reflog again would give the same target, and whenever the reflog has not grown |
| `ProtocolProgress.CommitAlone` | src/vost/fs.py:612-685 | from every world with free locks, an idle client's own steps land its commit: a child of the tip with exactly the changes, logged, returned and resumable, locks free again; or return no change when nothing changes |
| `ProtocolProgress.UndoAlone` | src/vost/fs.py:1332-1378 | likewise an undo lands on that member of the tip's first-parent chain |
| `ProtocolProgress.RedoAlone` | src/vost/fs.py:1380-1470 | likewise, in every reachable world, a redo lands on the tip of that many moves ago |
| `ProtocolProgress.SetAlone` | src/vost/repo.py:666-673 | likewise setting the branch lands on the target |
| `ProtocolProgress.StaleReadLandsElsewhere` | src/vost/fs.py:1404-1470 | a schedule in which the branch moves away and back, and a redo passes the check and leads elsewhere |
| `ProtocolProgress.EarlyReadLandsElsewhere` | src/vost/fs.py:1404-1470 | a schedule in which the branch does not move after the redo begins, and the redo still leads elsewhere |
| `Notes.HashAlphabet` | rs/src/notes.rs:19-21 | a hash is forty lower-case hexadecimal digits |
| `Notes.DeleteNote` | rs/src/notes.rs:174-215 | a delete succeeds exactly when the hash has a note, removes that note only, and keeps the tree well formed |
| `Notes.WriteNote` | rs/src/notes.rs:218-243 | a write sets that note only, in the flat layout, and keeps the tree well formed |
| `Notes.DeleteAllNotes` | rs/src/notes.rs:174-215 | deletes succeed exactly when they are distinct and each has a note, and remove exactly those; files that are no notes stay |
| `Notes.BuildNoteTree` | rs/src/notes.rs:156-253 | lookup afterwards is the old map minus the deletes overridden by the last writes; what was written is flat, files that are no notes stay; it fails exactly on a repeated or missing delete and names it |
| `Notes.IterNotes` | rs/src/notes.rs:129-153 | iteration lists each note exactly once, in either layout |
| `NotesBatch.NotesBatch.Set` | rs/src/notes.rs:525-532 | a set is staged as the last change of its hash |
| `NotesBatch.NotesBatch.Delete` | rs/src/notes.rs:540-547 | a delete is staged as the last change of its hash |
| `NotesBatch.NotesBatch.Commit` | rs/src/notes.rs:556-574 | the batch builds exactly when each hash deleted last has a note in the base, and then leaves the notes of the staged operations in order |
| `NotesBatch.InOrderNotes` | rs/src/notes.rs:379-408 | one build at a time succeeds exactly when every delete finds a note at its turn, and leaves the last change of each hash |
| `Bundle.WriteHeader` | cpp/src/mirror.cpp:408-414 | the loop writes the signature, one line per reference and a blank line |
| `Bundle.ParseBundleHeader` | cpp/src/mirror.cpp:432-465 | the position loop computes the parse or the error |
| `Bundle.MixedHeader` | cpp/src/mirror.cpp:445-462 | a header of references mixed with prerequisites, `HEAD` and words without a space parses to the references alone, with the exact pack offset |
| `Bundle.RefusedExactly` | cpp/src/mirror.cpp:433-443 | data is refused exactly when the signature or a blank line behind it is missing; the pack begins behind the first blank line |
| `Bundle.HeaderRoundTrip` | cpp/src/mirror.cpp:408-465 | for references the format can carry, parsing the header and any pack gives them back with the exact pack offset if and only if there is a reference |
| `Bundle.AddAllIsMap` | cpp/src/mirror.cpp:408-412 | with distinct names the references read back are exactly those written |
| `Log.CommitLog` | cpp/src/fs.cpp:982-1053 | the walk with its counters computes the specified log |
| `Log.LogExactly` | cpp/src/fs.cpp:993-1031 | without skip and limit the log holds, newest first, exactly the commits of the first-parent chain that pass the filters and, with a path, hold another object there than their parent |
| `Log.SkipAndLimit` | cpp/src/fs.cpp:1033-1047 | skip and limit cut a contiguous piece out of that; a limit of zero acts as one |
| `Log.PathLogKnowsPath` | cpp/src/fs.cpp:1008-1033 | the object at a path is the one in the newest commit the path log reports, and absent if it reports none |
| `Log.PathLogIsHistory` | cpp/src/fs.cpp:1006-1031 | consecutive commits of the path log hold different objects at the path, and the oldest holds one |

## Left out

- Object storage, hashing, packs and pack indexes: foreign libraries; hashes are taken to be collision-free.
- Real disks, modification times, ignore files, symlink following, read errors and permissions: a disk is a map from path to file, and sync compares contents.
- Network mirrors, credentials, the command line, FUSE and fsspec: input and output around the modelled core.
- The TypeScript and Kotlin ports: they repeat the modelled algorithms.
- Branch deletion, tags and several branches at once: one branch is followed from its creation; operations on other branches touch neither its ref nor its reflog.
- Names that Git refuses (empty, `.git`, with a slash): the tree builders reject them in foreign code; this covers a Rust write or rename to the root, which writes to an empty name (rs/src/paths.rs:13-16).
- Batch.CommitOne: does not model the not-found error of `Fs::remove` (cpp/src/fs.cpp:600), because a batch makes no such test; one operation at a time is `Fs::apply`, which makes none either.
- Batch.Batch.Commit: gives the tree only, because the stale refusal and the no-change answer behind it are those of a single commit (`Branch.BranchRef.CommitChanges`).
- Sync.DiskGlob: does not state the sorted order of the listing, because the rebuilt tree and the reported sets do not depend on it.
- Glob.CppFnmatch: says nothing about patterns with a bracket, because bracketed classes have no counterpart in the Rust matcher.
- PythonRebuilt: does not model the exception Python raises when a file is removed together with a change below it (src/vost/tree.py:211-219), because such changes are nested and no result about Python covers nested changes.
- ScanClass: says only where a bracketed class ends, because the Rust matcher has no classes and no result speaks of patterns with a bracket.
- Log.Query: the time and message filters are one predicate, because only their conjunction with the path filter matters.
- Notes writers at the same time: the base tree is read before the lock, so updates can be lost there; the model of notes is sequential.
- Python's notes batch, which rebuilds fan-out directories from the base tree: only the fold of the Rust and C++ ports is modelled.
- C++ `sync_in` and `copy_in`: only the Rust sync is modelled.
- Change reports of commits, commit messages, squash, copy and export: bookkeeping around the modelled operations.
