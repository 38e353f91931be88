# Models of selected system programs

Dafny models, with proofs, of the parts of this repository whose correctness
depends on state that changes step by step: a cache of directory watches kept
up to date from an event stream, four protocols between signals, threads and
message queues, and a handful of sequential data structures.

`dafny verify dfyconfig.toml` checks everything.

## The watch cache

`inotify_dtree.c` keeps an array of (watch descriptor, pathname) slots in step
with the directories below a set of roots. The model has three layers.

* The world: `FileTree` (directories as inodes with a parent and a name, or a
  root's pathname), `TreeChanges` and `Operations` (mkdir, rmdir, rename, the
  same for plain files, and the events each queues), `Inotify` (the kernel's
  watches).
* The program: `DTree.Monitor` is the class with the slot array, the list of
  roots and the read loop; `Handler` says on values what each method does.
* The relation: `Agreement.Agree` says that the cache, the kernel's watches and
  the directories of the trees coincide, each under its true path, and that
  exactly the roots report their own moves. `Simulation`, `Renames` and
  `NestedRoots` carry it across one operation, `OneOperation` states the
  result. `CreateRace` lets all but renames of directories interleave with the
  walks and the handling, `InFlight` has a second operation happen before the
  first is handled, and `Unmounts` is about what a mount point takes with it.

What the model takes for granted about its surroundings:

* pathnames are shorter than PATH_MAX and names not longer than 255 bytes;
* roots do not nest and have no trailing separator;
* inotify returns whole events in order, in chunks of any size that hold at
  least one event; a buffer size of 0 stands for the default;
* adding a watch on a watched directory gives its descriptor again, and
  descriptors are not reused within an instance;
* an operation on a plain file queues the same events as one on a directory,
  without IN_ISDIR, but none for the file itself; two renames have different
  cookies; unmounting queues UNMOUNT and IGNORED for each watched directory;
* a rename queues MOVED_FROM, MOVED_TO, then MOVE_SELF of the directory, then
  the end of a directory it replaced; the end of a directory queues DELETE_SELF
  and IGNORED; a rename above the roots queues nothing;
* no directory is renamed onto an empty root, and none with a root below it into
  the tree of another root, which would make the roots nest;
* a walk visits the directories at or below its start in any order;
* the second read for a rename's other half returns the event when there is
  one, and -1 otherwise, which line 1107 adds to the count all the same;
* an exit of the program is a flag in the state after which nothing happens.

Pathnames are values in the model, but for the argument of `ZapSubtree`, which
may point into a slot that the loop empties, and is copied first for that reason
(line 612).

## What does not hold

Where the code does not do what is wanted of it, the model keeps the code and
states exactly when it does.

* A directory renamed from outside the trees onto an empty directory of the
  trees stays unwatched: its path is still cached, so the walk is skipped, and
  then the end of the replaced directory empties the slot. A root renamed into
  another root's tree is zapped after its arrival was ignored. When a directory
  above a root gets another name, nothing reports it, and every cached path of
  that root is false. Of the operations modelled, one at a time, these are all
  that lose agreement (`OneOperation.Settles`).
* What an unmounting uncovers within the trees stays unwatched, as no event
  tells of it (`Unmounts.UnmountSettles`).
* Renaming A to B and back restores the cache only if nothing was at or below B
  alone (`WatchCache.RewriteThereAndBack`).
* A SIGUSR1 that is not a notification can make the signal-driven reader
  register while registered, and fail, exactly when none was pending as it came
  (`MqSignal.StrayFails`).
* The producer of `ex2.c` raises its flag without the mutex, so a wakeup can be
  lost and the program hang, whenever it has a consumer (`WorkQueue.HangPossible`).
* The namespace display takes an unset root for the special entry. It is right
  exactly when one topmost namespace was registered (`Namespaces.DisplayExact`).
  With none, all entries are shown twice, or it crashes when there are none
  (`Namespaces.NoTopShown`); with several, all their trees but one are lost
  (`Namespaces.OthersLost`).
* A `setenv` that runs out of memory has removed the variable, where
  POSIX.1-2008 wants the environment unchanged (`Environ.FailureUnchanged`).
* ACL updates write the file entry by entry, so a failed one can be half done
  (`AclFailure.HalfModified`); `AclFailure.FailureUnchanged` says exactly when
  the file is as it was. A default ACL cannot be created
  (`Acl.NothingFromNothing`).
* `readLineBuf` with size n - 1 stands for `readLine` with size n exactly when n
  is at least 2 (`ReadLine.BufferedRefines`).

## Model

| member | source | states |
|---|---|---|
| OneOperation.Settles | literature/tlpi/inotify/inotify_dtree.c:704-1002 | From agreement, any one mkdir, rmdir, rename, rename of a directory above the roots, or making, moving or renaming of a plain file, followed by the handling of all its events, gives agreement again, or an exit with no root left on the list or in the file systems, if and only if the operation is none of three kinds: a rename from outside that replaces a directory of the trees, a rename of a root into another root's tree, a rename to another name of a directory with a root below it |
| OneOperation.RunSettles | literature/tlpi/inotify/inotify_dtree.c:704-1002 | Over any run of operations of the other kinds, each handled before the next, the cache agrees after every operation until the last root is gone |
| OneOperation.LostPlaceRestores | literature/tlpi/inotify/inotify_dtree.c:723-733 | Whatever the cache and the watches were, an overflow or an event for an unknown watch restores agreement with the trees of the roots still listed, and voids the rest of the queue |
| OneOperation.LostTargetRestores | literature/tlpi/inotify/inotify_dtree.c:890-901 | So does a rename within the trees whose target directory is not in the cache |
| OneOperation.LostWatchRestores | literature/tlpi/inotify/inotify_dtree.c:919-933 | So does a departure whose zapping comes upon a slot with a watch that the kernel no longer has |
| OneOperation.LostRootRestores | literature/tlpi/inotify/inotify_dtree.c:968-992 | So does such a zapping after a root has moved and was unlisted, for the roots that are left |
| InFlight.BothSettle | literature/tlpi/inotify/inotify_dtree.c:870-933 | A directory leaves the trees, and before that is handled another directory is made or arrives, or a plain file is made, moved or renamed: the queued events of both, with different cookies, are not taken for a rename within the trees, and lead to agreement, in any case also when the second happens in the directory that has left |
| Unmounts.UnmountSettles | literature/tlpi/inotify/inotify_dtree.c:955-966 | When the directories of a file system report its unmounting and their watches end, exactly their slots are emptied and the roots stay listed; the cache then agrees with the trees if and only if no directory of the trees came to light |
| LossExample.ReplacingLoses | literature/tlpi/inotify/inotify_dtree.c:777-778 | A concrete tree and rename onto an empty watched directory after which a directory of the trees stays unwatched |
| LossExample.NestingLoses | literature/tlpi/inotify/inotify_dtree.c:968-992 | A concrete rename of a root into another root's tree after which that directory stays unwatched |
| LossExample.UprootingLoses | literature/tlpi/inotify/inotify_dtree.c:738-778 | A concrete root a/b and rename of a to c after which no event comes and the cached path of the root is false |
| TreeChanges.CarriedValid | literature/tlpi/inotify/inotify_dtree.c:738-778 | Renaming a directory above some roots moves their paths by the same rewriting, and roots that did not nest still do not |
| CreateRace.RaceAgrees | literature/tlpi/inotify/inotify_dtree.c:470-521 | However mkdirs, rmdirs and operations on plain files interleave with event handling and the watch, open and list steps of the walks, whenever queue and walks are empty the cache holds every directory of the trees exactly once under its true path |
| CreateRace.StepInv | literature/tlpi/inotify/inotify_dtree.c:470-521 | Every step of such a run keeps the invariant that each directory of the trees is watched, announced by a queued event, or still ahead of a walk |
| CreateRace.HandleInv | literature/tlpi/inotify/inotify_dtree.c:738-792 | Handling the next event keeps that invariant, and changes neither the file systems nor the watches: a walk it starts runs in later steps |
| Agreement.RebuildAgrees | literature/tlpi/inotify/inotify_dtree.c:657-695 | From any cache at all, rebuilding gives one entry per directory of the union of the trees of the listed roots, each under its true path |
| Agreement.WatchSubtreeSynced | literature/tlpi/inotify/inotify_dtree.c:528-546 | Walking a subtree adds exactly its directories to those watched and cached, in whatever order the walk visits them |
| Agreement.TraverseSynced | literature/tlpi/inotify/inotify_dtree.c:470-521 | One callback of the walk adds the directory at its path, unless it is watched already |
| DTree.Monitor.constructor | literature/tlpi/inotify/inotify_dtree.c:657-695 | Start-up leaves the state that rebuilding from the command-line roots would |
| DTree.Monitor.FindWatch | literature/tlpi/inotify/inotify_dtree.c:202-210 | The first slot with the watch descriptor, or -1 when there is none |
| DTree.Monitor.MarkCacheSlotEmpty | literature/tlpi/inotify/inotify_dtree.c:243-252 | Only that slot changes, to the empty one |
| DTree.Monitor.FindEmptyCacheSlot | literature/tlpi/inotify/inotify_dtree.c:256-278 | The first empty slot; when there is none the array grows and all old slots are kept |
| DTree.Monitor.AddWatchToCache | literature/tlpi/inotify/inotify_dtree.c:282-291 | The entry goes to the first empty slot |
| DTree.Monitor.PathnameToCacheSlot | literature/tlpi/inotify/inotify_dtree.c:296-304 | The first live slot with the pathname, or -1 |
| DTree.Monitor.FindRootDirPath | literature/tlpi/inotify/inotify_dtree.c:416-424 | The first root with the pathname, or -1 |
| DTree.Monitor.ZapRootDirPath | literature/tlpi/inotify/inotify_dtree.c:437-454 | The root is taken off the list, and the program exits if it was unknown or the last |
| DTree.Monitor.TraverseTree | literature/tlpi/inotify/inotify_dtree.c:470-521 | The callback in place equals its specification on the abstract state |
| DTree.Monitor.WatchDir | literature/tlpi/inotify/inotify_dtree.c:528-546 | The walk in place equals its specification |
| DTree.Monitor.RewriteCachedPaths | literature/tlpi/inotify/inotify_dtree.c:566-594 | The loop over the array equals rewriting every slot at or below the old path |
| DTree.Monitor.ZapSubtree | literature/tlpi/inotify/inotify_dtree.c:600-647 | The loop over the array equals zapping slot by slot, with the count or -1, also when the argument is the pathname stored in one of the slots it empties |
| DTree.Monitor.RootMoved | literature/tlpi/inotify/inotify_dtree.c:968-992 | A root that reports its own move is taken off the list, and what is at or below the pathname in its slot is zapped, that slot included |
| DTree.Monitor.Reinitialize | literature/tlpi/inotify/inotify_dtree.c:657-695 | The rebuild in place equals its specification |
| DTree.Monitor.ProcessNextInotifyEvent | literature/tlpi/inotify/inotify_dtree.c:704-1002 | The handler in place does to the state, and answers to the read loop, exactly what the specification of one event or rename pair says |
| DTree.Monitor.ProcessInotifyEvents | literature/tlpi/inotify/inotify_dtree.c:1015-1122 | Reading once and handling the buffer, with shifting, the second read for a rename's other half and the -1 it may return, is a series of steps of handling the whole queue in order, and makes progress |
| DTree.Monitor.HandleAll | literature/tlpi/inotify/inotify_dtree.c:1015-1122 | Reading until nothing is left ends, and the final state depends only on the queue, not on the size of the reads |
| DTree.HandledInOrder | literature/tlpi/inotify/inotify_dtree.c:870-933 | Handling what is visible of a buffer is one step of handling the whole queue, so that no rename pair is torn |
| DTree.Lookahead | literature/tlpi/inotify/inotify_dtree.c:870-933 | The handler's answer does not depend on how much it sees beyond the next event |
| Handler.ProcessProgress | literature/tlpi/inotify/inotify_dtree.c:1051-1121 | Handling an event leaves fewer events other than IN_IGNORED to handle, or as many and a shorter queue |
| Handler.Drain | literature/tlpi/inotify/inotify_dtree.c:1051-1121 | Handling a whole queue ends, with the queue empty or the program exited |
| Zapping.ZapExact | literature/tlpi/inotify/inotify_dtree.c:600-647 | When every watch can be removed, zapping ends exactly the watches and empties exactly the slots at or below the path, and counts them |
| Zapping.EmptiedView | literature/tlpi/inotify/inotify_dtree.c:600-647 | What remains in the cache is the old view without the entries at or below the path |
| WatchCache.AddEntryView | literature/tlpi/inotify/inotify_dtree.c:256-291 | Adding an entry adds exactly that pair to the view, whether or not the array had room |
| WatchCache.MarkEmptyView | literature/tlpi/inotify/inotify_dtree.c:243-252 | Emptying a slot takes exactly its watch out of the view |
| WatchCache.RewriteAllView | literature/tlpi/inotify/inotify_dtree.c:566-594 | Rewriting changes exactly the paths of live entries at or below the old path; empty slots and descriptors stay |
| WatchCache.RewriteThereAndBack | literature/tlpi/inotify/inotify_dtree.c:566-594 | Renaming A to B and back restores every slot if and only if no live slot at or below B was not also at or below A |
| Paths.RenamedExact | literature/tlpi/inotify/inotify_dtree.c:579-581 | A path at or below the old one keeps what follows it; any other path is unchanged |
| Paths.RenamedRoundTrip | literature/tlpi/inotify/inotify_dtree.c:579-581 | A path comes back from renaming there and back if and only if it was not at or below the new path alone |
| Paths.SiblingUntouched | literature/tlpi/inotify/inotify_dtree.c:579-581 | A sibling that shares the old path as a string prefix, but not at a separator, is left alone |
| Paths.JoinInjective | literature/tlpi/inotify/inotify_dtree.c:566-594 | A directory's path and an entry name determine each other: no two pairs join to the same path |
| FileTree.PathInjective | literature/tlpi/inotify/inotify_dtree.c:296-304 | No two directories of the trees have the same path, so that a pathname found in the cache stands for one directory |
| FileTree.BelowIffPath | literature/tlpi/inotify/inotify_dtree.c:566-594 | A directory is at or below another in the tree exactly when its path is at or below the other's at a separator |
| TreeChanges.MoveIsRename | literature/tlpi/inotify/inotify_dtree.c:566-594 | Moving a directory changes the path of every directory of the trees exactly as the string rewriting of cached paths does |
| Simulation.MkdirAgrees | literature/tlpi/inotify/inotify_dtree.c:738-778 | After a mkdir and the handling of its events the cache agrees again, the new directory included, and the program has not exited |
| Simulation.RmdirSettles | literature/tlpi/inotify/inotify_dtree.c:780-792 | After an rmdir and its events the cache agrees again, or the program has exited with no root left |
| Simulation.DrainQuiet | literature/tlpi/inotify/inotify_dtree.c:735-736 | IN_IGNORED events change nothing |
| Simulation.DrainIdle | literature/tlpi/inotify/inotify_dtree.c:723-1002 | From any cache whatever, events about plain files in cached directories, and moves of directories whose path is not that of a listed root, change nothing at all |
| Simulation.FileSettles | literature/tlpi/inotify/inotify_dtree.c:738-739 | Making, moving or renaming a plain file, within, into or out of the trees, leaves cache, watches and roots as they were, and agreement with them |
| Renames.ShiftSettles | literature/tlpi/inotify/inotify_dtree.c:870-917 | After a rename within the trees, also onto an empty directory, and its events the cache agrees again, or the program has exited with no root left |
| Renames.SubLeaves | literature/tlpi/inotify/inotify_dtree.c:919-933 | After a rename out of the trees and its events the cache agrees again: all at or below the directory was given up |
| Renames.RootLeaves | literature/tlpi/inotify/inotify_dtree.c:968-992 | After a root was moved away and its events the cache agrees again without its tree, or the program has exited with no root left |
| Renames.OutsiderArrives | literature/tlpi/inotify/inotify_dtree.c:738-778 | After a rename into the trees and its events the cache agrees again, with all at or below the directory |
| Renames.OutsiderReplaces | literature/tlpi/inotify/inotify_dtree.c:738-778 | A directory renamed from outside onto one of the trees' directories ends up unwatched in the trees |
| Renames.OutsiderStaysOut | literature/tlpi/inotify/inotify_dtree.c:704-736 | A rename outside the trees leaves agreement as it was |
| NestedRoots.NestLoses | literature/tlpi/inotify/inotify_dtree.c:968-992 | A root renamed into another root's tree ends up unwatched in that tree |
| Sigchld.StepInv | literature/tlpi/procexec/multi_SIGCHLD.c:19-49 | Every step keeps: an unreaped zombie outside the reaping loop means SIGCHLD is pending; each child is running, a zombie or reaped, once; live children are counted right |
| Sigchld.NeverStuck | literature/tlpi/procexec/multi_SIGCHLD.c:63-103 | Until it has finished, some step is possible, and the parent that sleeps with no signal pending has a child still running |
| Sigchld.StepDecreases | literature/tlpi/procexec/multi_SIGCHLD.c:63-103 | Every step makes what is left to happen smaller |
| Sigchld.RunsFinish | literature/tlpi/procexec/multi_SIGCHLD.c:19-106 | No run is longer than 7n + 4 steps; a run that cannot go on has finished, with every child reaped once, none counted live, and between 1 and n handler runs |
| Sigchld.EachDeliveryCounted | literature/tlpi/procexec/multi_SIGCHLD.c:63-103 | In every state of every run the count of signals is the number of deliveries, but for the one being handled |
| MqThread.StepInv | literature/tlpi/pmsg/mq_notify_via_thread.c:21-66 | Every step keeps: either the process is registered or exactly one thread has yet to arm; a waiting message has a drainer active or about to run; sent is received plus queued |
| MqThread.StretchDecreases | literature/tlpi/pmsg/mq_notify_via_thread.c:21-66 | While nobody sends, each step of a thread uses up part of a bounded amount |
| MqThread.NothingLost | literature/tlpi/pmsg/mq_notify_via_thread.c:21-79 | From any initial queue: mq_notify() never finds a registration, threads take boundedly many steps once nobody sends, and when none can take one the queue is empty, the process registered and every message received once |
| MqSignal.StepInv | literature/tlpi/pmsg/mq_notify_via_signal.c:20-77 | Every step keeps: exactly one of registered, signal pending, flag set and main about to re-arm holds, and a non-empty queue means one of the last three or a drain in progress |
| MqSignal.RunInv | literature/tlpi/pmsg/mq_notify_via_signal.c:55-77 | So it is in every state of every run without stray signals, and mq_notify() never fails |
| MqSignal.MainDrains | literature/tlpi/pmsg/mq_notify_via_signal.c:55-77 | From any such state main, left alone once a pending signal is delivered, empties the queue in boundedly many actions and has then received every message sent |
| MqSignal.StrayFails | literature/tlpi/pmsg/mq_notify_via_signal.c:24-77 | From any such state, after a SIGUSR1 that is not a notification a run without further ones can make mq_notify() fail if and only if no signal was pending when it came |
| MqSignal.FailureReached | literature/tlpi/pmsg/mq_notify_via_signal.c:24-77 | A run from the start with one such signal that ends in the failure |
| WorkQueue.StepInv | week4/02_sync/ex2.c:24-66 | Every step keeps: work is not negative, added is done plus work, the mutex is held by whose code says so, and a consumer leaves only when nothing is left and nothing more will come |
| WorkQueue.OnlyHolderWorks | week4/02_sync/ex2.c:24-58 | Only the holder of the mutex changes the amount of work, a consumer by one down, main by what it adds |
| WorkQueue.AllWorkDone | week4/02_sync/ex2.c:24-66 | For any number of consumers and cycles, if main has passed all joins and there is a consumer, all work added was done |
| WorkQueue.EveryCycleAdds | week4/02_sync/ex2.c:51-58 | Whenever main is past its loop it has added between one and three units of work for every cycle |
| WorkQueue.WorkNoticed | week4/02_sync/ex2.c:24-58 | In every state of every run, as long as there is work, some consumer is neither asleep nor leaving, or main is about to signal |
| WorkQueue.LostWakeupReached | week4/02_sync/ex2.c:27-65 | For any number of consumers and cycles a run exists in which main waits to join a consumer that is asleep, its signal spent |
| WorkQueue.DoomedStays | week4/02_sync/ex2.c:27-65 | Nothing but a spurious wakeup of that consumer ends such a state |
| WorkQueue.HangPossible | week4/02_sync/ex2.c:24-66 | For any number of cycles, some run ends with main waiting for a consumer that is asleep if and only if there is a consumer |
| Namespaces.NamespaceInfo.AddNamespace | literature/tlpi/namespaces/namespaces_of.go:249-268 | Registering in place equals its specification on the table, pids included |
| Namespaces.NamespaceInfo.AddNamespaceToList | literature/tlpi/namespaces/namespaces_of.go:274-378 | Entering a namespace and its ancestors in place equals its specification |
| Namespaces.NamespaceInfo.DisplayNamespaceTree | literature/tlpi/namespaces/namespaces_of.go:712-729 | The recursion ends and visits the entries in the order specified |
| Namespaces.NamespaceInfo.DisplayNamespaceHierarchies | literature/tlpi/namespaces/namespaces_of.go:781-794 | The display is that of the root's tree and then that of the special entry, or a crash when the root has no entry |
| Namespaces.AllRegisteredForest | literature/tlpi/namespaces/namespaces_of.go:249-378 | After any registrations the table is a forest: closed under visible owners, each namespace in exactly one list of children, and only there, unless it is topmost |
| Namespaces.ListedExactly | literature/tlpi/namespaces/namespaces_of.go:249-378 | An entry exists if and only if some registered namespace is it or is below it |
| Namespaces.PidsRecorded | literature/tlpi/namespaces/namespaces_of.go:249-268 | Every entry has exactly the PIDs registered for it, in order; registering descendants adds none |
| NamespaceOrder.TreePreorder | literature/tlpi/namespaces/namespaces_of.go:712-729 | What is shown from any entry has, by position, each entry before all that is below it, what is below one entry together, and siblings with all below them in the order of their list |
| NamespaceOrder.DisplayPreorder | literature/tlpi/namespaces/namespaces_of.go:781-794 | So it is for the whole display when a topmost namespace was registered, and then the tree of the root comes before that of the special entry |
| NamespaceOrder.ElderFirst | literature/tlpi/namespaces/namespaces_of.go:349-374 | Of two siblings, one that some first registrations entered, when the other was not yet there, is first in the list |
| NamespaceOrder.KindsRecorded | literature/tlpi/namespaces/namespaces_of.go:274-280 | Every entry has the kind of its namespace, and the special one that of a user namespace |
| NamespaceOrder.LastTopIsRoot | literature/tlpi/namespaces/namespaces_of.go:323-336 | A registration that brings a new topmost namespace makes it the root, and one below a topmost namespace already entered leaves the root |
| NamespaceOrder.OwnerlessPlaced | literature/tlpi/namespaces/namespaces_of.go:316-356 | An entry without a visible owner is in no list of children if it is a user namespace or the hierarchy is that of PID namespaces, and a child of the special entry otherwise |
| Namespaces.VisitedCount | literature/tlpi/namespaces/namespaces_of.go:712-729 | From any entry, exactly the entries at or below it are visited, each once |
| Namespaces.DisplayExact | literature/tlpi/namespaces/namespaces_of.go:781-794 | The display shows every entry once if and only if exactly one topmost namespace was registered |
| Namespaces.NoTopShown | literature/tlpi/namespaces/namespaces_of.go:712-794 | With no topmost namespace every entry is shown twice, and the display crashes if and only if there is no entry |
| Namespaces.OthersLost | literature/tlpi/namespaces/namespaces_of.go:712-794 | With topmost namespaces exactly the entries below the one that is the root, or below the special entry, are shown, once each, and the trees of the others are not |
| Namespaces.ShownTwice | literature/tlpi/namespaces/namespaces_of.go:781-794 | One namespace with a hidden owner, shown twice |
| Namespaces.FirstLost | literature/tlpi/namespaces/namespaces_of.go:335-336 | Two topmost namespaces, the first of which is not shown |
| Namespaces.NothingRegistered | literature/tlpi/namespaces/namespaces_of.go:781-794 | With nothing registered the display crashes |
| WrapText.WrapText | literature/tlpi/namespaces/namespaces_of.go:641-667 | The loop makes the text of the greedy lines |
| WrapText.WrapLines | literature/tlpi/namespaces/namespaces_of.go:641-667 | Split at its newlines, the wrapped text is the lines, each behind the indent |
| WrapText.WordsBetweenBlanks | literature/tlpi/namespaces/namespaces_of.go:641-667 | Split at its blanks, a line is its words |
| WrapText.FieldsKeep | literature/tlpi/namespaces/namespaces_of.go:641-667 | The words are the characters of the text other than white space, in order |
| WrapText.LinesGreedy | literature/tlpi/namespaces/namespaces_of.go:641-667 | The lines hold the words in order, none is wider than the width unless it is one word, and each begins with a word that did not fit before |
| WrapText.WrapOptimal | literature/tlpi/namespaces/namespaces_of.go:641-667 | No other way of breaking the words into such lines uses fewer lines |
| WrapText.WrapKeepsWords | literature/tlpi/namespaces/namespaces_of.go:641-667 | Splitting the result gives the words of the text back, and wrapping it again changes nothing |
| PollTable.Server.constructor | week5/ex6.c:109-116 | The table starts as the listening socket alone |
| PollTable.Server.Scan | week5/ex6.c:156-293 | The pass over the ready entries opens and closes exactly what the log says, marks the dropped connections, appends the new ones, and stops at an unexpected event |
| PollTable.Server.Compact | week5/ex6.c:298-309 | The in-place compaction ends, despite stepping its index back, and equals filtering out the marks |
| PollTable.Server.Pass | week5/ex6.c:156-309 | After a pass the table is what was opened and not closed, in order of opening |
| PollTable.Server.Serve | week5/ex6.c:128-319 | The descriptors opened and closed over the server's life are those of the specified run |
| PollTable.PassExact | week5/ex6.c:156-309 | A pass opens and closes legally and leaves the listening socket first, then the connections not dropped in their order, then the new ones in order of acceptance |
| PollTable.ConnectionStays | week5/ex6.c:231-293 | After a pass a connection is still in the table if and only if it was not readable, or came after an unexpected event, or receiving from it ended with nothing more to read or with all data echoed |
| PollTable.EndsExactly | week5/ex6.c:156-217 | From any entry on, a pass ends the run if and only if some entry has an unexpected event, or accepting on the listening socket fails |
| PollTable.RunBalanced | week5/ex6.c:128-319 | Over any whole run only open descriptors are closed, and at the end none is open |
| PollTable.EachClosedOnce | week5/ex6.c:313-319 | Every descriptor is closed as often as it was opened |
| ReadLine.ReadLine | literature/tlpi/lib/read_line.c:17-61 | Takes the whole first line off the stream, returns what there is room for and terminates it; it returns -1 if and only if the arguments are bad or a read failed with another error than an interruption; EINVAL changes nothing |
| ReadLine.ReadLineBuf.constructor | literature/tlpi/lib/read_line_buf.c:17-23 | The logical position is the descriptor's |
| ReadLine.ReadLineBuf.ReadLineBuf | literature/tlpi/lib/read_line_buf.c:29-68 | The same on the logical stream of unread buffer and descriptor, whatever the chunks; it returns -1 if and only if the arguments are bad or a read failed, interruptions included, which loses what was fetched of the line |
| ReadLine.ReadLines | literature/tlpi/lib/read_line.c:17-61 | A series of calls with buffers of any sizes returns the lines of the stream, each cut to one byte less than its size, and leaves the stream after them; size 0 fails and takes nothing |
| ReadLine.ReadLinesBuf | literature/tlpi/lib/read_line_buf.c:29-68 | A series of buffered calls does the same on the logical stream, each line cut to the size itself |
| ReadLine.BufferedRefines | literature/tlpi/lib/read_line_buf.c:29-68 | The buffered reader with sizes one less gives the same results and leaves the same position as the simple one if and only if every size is at least 2 |
| ReadLine.LineEnds | literature/tlpi/lib/read_line.c:44-56 | A line has no newline before its end, and ends in one unless it ends the stream |
| ReadLine.LinesComplete | literature/tlpi/lib/read_line.c:17-61 | With room for every line, the lines and what is left make up the stream |
| AclText.ParseEntrySpec | literature/tlpi/acl/acl_update.c:75-166 | The parser of one entry equals its specification, errors included |
| AclText.ParseACL | literature/tlpi/acl/acl_update.c:172-200 | The loop over commas equals its specification, and fails beyond the maximum number of entries |
| AclText.SpecsRead | literature/tlpi/acl/acl_update.c:75-200 | Parsing is the inverse of writing: any list of entries within the maximum, each written with the short or the long name of its tag, permissions in any order, and an optional last colon, is read back as meant |
| AclText.PermsMean | literature/tlpi/acl/acl_update.c:141-163 | A text of permissions is read as those it has letters for, in any order and number, and rejected for any other character |
| AclText.WrongPermsRejected | literature/tlpi/acl/acl_update.c:90-100 | An entry is rejected when it has permissions where none are wanted, or has none where they are |
| AclText.OthersRejected | literature/tlpi/acl/acl_update.c:105-163 | An entry with any other tag, a wrong character in its permissions, or a name that is no user or group is rejected |
| AclText.NoColonRejected | literature/tlpi/acl/acl_update.c:79-83 | A text without a colon is rejected |
| AclText.TooManyRejected | literature/tlpi/acl/acl_update.c:181-184 | A list of more entries than the maximum is rejected |
| Acl.FindEntry | literature/tlpi/acl/acl_update.c:206-257 | The first entry with the tag and, for a named user or group only, the qualifier |
| Acl.SetPerms | literature/tlpi/acl/acl_update.c:261-284 | Only the permissions of the entry change, to exactly those given |
| Acl.Edit | literature/tlpi/acl/acl_update.c:301-332 | One entry of the update does what the specification says to the working copy |
| Acl.File.UpdateACL | literature/tlpi/acl/acl_update.c:288-345 | The loop equals the specification: the file is rewritten after every entry, and an invalid list ends the program |
| Acl.CalcMaskExact | literature/tlpi/acl/acl_update.c:330-332 | Recalculation makes the mask what the group class allows, creating it if need be, and changes nothing else |
| Acl.UnionMeans | literature/tlpi/acl/acl_update.c:330-332 | The mask so calculated allows what some entry of the group class allows |
| Acl.ModifyAll | literature/tlpi/acl/acl_update.c:301-341 | With recalculation, any modifications of a valid list go through: the result is valid with unique keys, the last entry for a key other than the mask wins, all other keys keep theirs, and the mask is the union |
| Acl.ModifyIdempotent | literature/tlpi/acl/acl_update.c:301-341 | Applying the same modifications once more changes nothing |
| Acl.ModifyNoRecalc | literature/tlpi/acl/acl_update.c:301-341 | Without recalculation, modifications go through if and only if the list has a mask, or gets one before any named user or group |
| Acl.RemoveRecalc | literature/tlpi/acl/acl_update.c:301-341 | With recalculation, removals go through if and only if none is of a base entry |
| Acl.RemoveNoRecalc | literature/tlpi/acl/acl_update.c:301-341 | Without recalculation, removals go through if and only if none is of a base entry and the mask goes only after every named entry |
| Acl.FileStaysValid | literature/tlpi/acl/acl_update.c:334-341 | Whatever the update, the file keeps a valid list |
| Acl.FailedPrefix | literature/tlpi/acl/acl_update.c:334-341 | A failed update has applied exactly the entries before the one it failed on |
| AclFailure.FailureUnchanged | literature/tlpi/acl/acl_update.c:288-345 | A failed update leaves the file as it was if and only if: modifying, the last entry before the first named user or group for each key gives what the file had; removing with recalculation, a base entry comes first, or the mask was the union and only the mask or absent keys come before; removing without, only absent keys come before an entry that cannot be removed |
| AclFailure.HalfModified | literature/tlpi/acl/acl_update.c:288-345 | A valid list and an update without recalculation that fails after it has taken a permission away |
| Acl.NothingFromNothing | literature/tlpi/acl/acl_update.c:288-345 | A default list that does not exist yet can never be built, because each single entry must leave a valid list |
| Environ.Environment.Unsetenv | literature/tlpi/proc/setenv.c:18-46 | In place, exactly the entries with another key are left, in order and terminated; a bad name changes nothing |
| Environ.Environment.ShiftBack | literature/tlpi/proc/setenv.c:36-37 | The inner loop removes exactly that entry and ends at the NULL |
| Environ.Environment.Getenv | literature/tlpi/proc/setenv.c:57-58 | The value of the first definition |
| Environ.Environment.Setenv | literature/tlpi/proc/setenv.c:48-72 | The environment and the status are those of the specification, for every outcome of the allocations |
| Environ.MatchesKey | literature/tlpi/proc/setenv.c:31-31 | The prefix comparison followed by the equals sign is equality with the entry's key |
| Environ.SetSucceeds | literature/tlpi/proc/setenv.c:48-72 | After success the name is defined once, with the new value, and every other name keeps its value and number of definitions |
| Environ.DefinedKept | literature/tlpi/proc/setenv.c:57-58 | Without overwriting, setting a name that is defined succeeds, whatever the allocations do, and every name keeps its value and number of definitions |
| Environ.FailsExactly | literature/tlpi/proc/setenv.c:52-71 | A call fails if and only if the arguments are bad, or it has something to set and an allocation fails |
| Environ.PutDefines | literature/tlpi/proc/setenv.c:71-71 | Putting name=value changes the first definition of the name or adds one, and no other name |
| Environ.SetThenUnset | literature/tlpi/proc/setenv.c:48-72 | Removing a name after setting it leaves what removing it would have left |
| Environ.FailureUnchanged | literature/tlpi/proc/setenv.c:60-71 | A call that fails leaves the environment unchanged if and only if the arguments are bad or the name was not defined |

## Left out

- Agreement under concurrent renames in general: the source's comment at lines 810-857 of `inotify_dtree.c` says that pairing is then heuristic. All but renames of directories is interleaved freely; renames of directories are handled one at a time, but for a departure with one more operation behind it.
- Removal of a root while walks are under way: in `CreateRace` only directories other than roots are made and removed, so such runs never rebuild the cache.
- Unmounting among other operations: it is taken alone, and the trees after it are any in which all else is where it was.
- Hard failures of inotify, nftw and malloc in `inotify_dtree.c`, other than a directory that is gone: they end the program.
- Logging, consistency checks, the command interpreter, option parsing, select and the count of directories in `inotify_dtree.c`: reporting and user interface.
- Renaming a directory onto an empty root: for one from outside this is, to the program, an rmdir of that root, which is modelled; one from the trees would add its own events before.
- Renaming a directory with a root below it into another root's tree: the roots would nest, which the program and the model exclude.
- Failure of fork in `multi_SIGCHLD.c`: it ends the program. Output and sleeping have no counterpart.
- Message priorities and the capacity of queues: a message is a value, a sender that would block has not sent yet.
- Termination of the joining loop in `ex2.c`: it does not hold in general, see above.
- Fixed numbers of threads and cycles in `ex2.c`: the model has any.
- Reading /proc, the ioctl calls, creator IDs, colours, filters by type and printing in `namespaces_of.go`: the parent relation is an input, and the display is the list of entries visited.
- WrapText.Fields: white space is that of ASCII and a character is a byte, because the text wrapped is a list of numbers.
- PollTable.Server.Serve: requires what the accept loop does not check, that entries fit below MAX_FDS, with one to spare in a pass that closes a connection, because compaction reads one entry past the last.
- PollTable.Server.Readable: the data echoed is not modelled, only whether receiving and sending succeed; failures of close are ignored, as in the source.
- ReadLine.File.Read: a stream that has ended stays ended.
- The insides of libacl: finding, creating, deleting, validity and mask calculation are those of the standard, on a sequence of entries; the lookups of user and group names are maps.
- AclText.ParseEntrySpec: permissions that the text does not give are empty, where the source leaves the field unset and never uses it.
- Environ.Environment.Putenv: an entry is a value, so later changes to a string handed to putenv are not modelled.
- `pid_namespaces.go`, `userns_overview.go`, the remaining TLPI programs and the other weeks: simpler copies of what is modelled, or thin wrappers over single calls.
