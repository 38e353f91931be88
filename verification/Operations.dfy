/**
 One operation of another process on directories or other files, and the
 inotify events the kernel queues for it.
 */
module Operations {
  import opened Options
  import opened Paths
  import opened FileTree
  import opened TreeChanges
  import opened Inotify

  datatype Op =
    | Mkdir(d: Inode, p: Inode, name: string)
    | Rmdir(d: Inode)
    | Rename(d: Inode, loc: Dir, replaced: Option<Inode>, cookie: nat)
    | RenameAbove(oldTop: string, newTop: string)  // of a directory outside the trees with roots below it
    | MakeFile(p: Inode, name: string)                          // of anything but a directory
    | RenameFile(source: Dir, target: Dir, cookie: nat)

  ghost predicate OfFile(op: Op) {
    op.MakeFile? || op.RenameFile?
  }

  /** A place for something that is not a directory: no directory is there. */
  ghost predicate FilePlace(t: Tree, place: Dir) {
    place.Outside? || (place.Sub? && place.parent in t.dirs && GoodName(place.name) && Free(t, place.parent, place.name))
  }

  ghost predicate Can(t: Tree, op: Op)
    requires Valid(t)
  {
    match op
    case Mkdir(d, p, name) => CanAdd(t, d, p, name)
    case Rmdir(d) => CanRemove(t, d)
    case Rename(d, loc, None, _) => CanMove(t, d, loc)
    case Rename(d, loc, Some(e), _) =>
      && e != d && CanRemove(t, e) && t.dirs[e] == loc && loc.Sub?
      && d in t.dirs && loc.parent in t.dirs && !Below(t, loc.parent, d)
    case RenameAbove(oldTop, newTop) => CanCarry(t, oldTop, newTop)
    case MakeFile(p, name) => FilePlace(t, Sub(p, name))
    case RenameFile(source, target, _) => FilePlace(t, source) && FilePlace(t, target)
  }

  /** The forest without the directory that a rename replaces. */
  function Cleared(t: Tree, op: Op): Tree {
    if op.Rename? && op.replaced.Some? then Remove(t, op.replaced.value) else t
  }

  lemma RemoveFrees(t: Tree, e: Inode)
    requires Valid(t) && e in t.dirs && t.dirs[e].Sub?
    ensures Free(Remove(t, e), t.dirs[e].parent, t.dirs[e].name) && GoodName(t.dirs[e].name)
    ensures t.dirs[e].parent in t.dirs && t.dirs[e].parent != e
  {
    assert Placed(t, e);
    forall x | x in t.dirs && x != e ensures t.dirs[x] != t.dirs[e] { assert Apart(t, e, x); }
  }

  lemma RemoveBelow(t: Tree, e: Inode, x: Inode, d: Inode)
    requires Valid(t) && Valid(Remove(t, e)) && x in t.dirs && x != e
    ensures Below(Remove(t, e), x, d) <==> Below(t, x, d)
  {
    hide Valid;
    SamePaths(t, Remove(t, e), x, d);
  }

  lemma CanMoveCleared(t: Tree, op: Op)
    requires Valid(t) && op.Rename? && Can(t, op)
    ensures Valid(Cleared(t, op)) && CanMove(Cleared(t, op), op.d, op.loc)
  {
    if op.replaced.Some? {
      var e := op.replaced.value;
      RemoveValid(t, e);
      RemoveFrees(t, e);
      hide Valid; hide Free; hide Below; hide IsEmpty;
      RemoveBelow(t, e, op.loc.parent, op.d);
    }
  }

  ghost function TreeAfter(t: Tree, op: Op): (r: Tree)
    requires Valid(t) && Can(t, op)
    ensures Valid(r)
  {
    hide Valid;
    match op
    case Mkdir(d, p, name) => AddValid(t, d, p, name); Add(t, d, p, name)
    case Rmdir(d) => RemoveValid(t, d); Remove(t, d)
    case Rename(d, loc, _, _) =>
      CanMoveCleared(t, op);
      MoveValid(Cleared(t, op), d, loc);
      Move(Cleared(t, op), d, loc)
    case RenameAbove(oldTop, newTop) => CarriedValid(t, oldTop, newTop); Carried(t, oldTop, newTop)
    case MakeFile(_, _) => t
    case RenameFile(_, _, _) => t
  }

  /** The directory that the operation removes. */
  function Gone(op: Op): Option<Inode> {
    match op
    case Mkdir(_, _, _) => None
    case Rmdir(d) => Some(d)
    case Rename(_, _, replaced, _) => replaced
    case RenameAbove(_, _) => None
    case MakeFile(_, _) => None
    case RenameFile(_, _, _) => None
  }

  ghost predicate Watched(k: Kernel, d: Inode) {
    d in k.watches.Values
  }

  lemma WatchedMeans(k: Kernel, d: Inode)
    ensures Watched(k, d) <==> d in k.watches.Values
  {
  }

  ghost function Wd(k: Kernel, d: Inode): (w: nat)
    requires ValidKernel(k) && Watched(k, d)
    ensures w in k.watches && k.watches[w] == d
  {
    WdOf(k, d).value
  }

  /** A watched directory that is removed reports that, and its watch ends. */
  ghost function Farewell(k: Kernel, gone: Option<Inode>): seq<Event>
    requires ValidKernel(k)
  {
    if gone.Some? && Watched(k, gone.value)
    then [DeleteSelf(Wd(k, gone.value)), Ignored(Wd(k, gone.value))] else []
  }

  ghost function FromEvent(k: Kernel, src: Dir, cookie: nat, isDir: bool := true): seq<Event>
    requires ValidKernel(k)
  {
    if src.Sub? && Watched(k, src.parent) then [MovedFrom(Wd(k, src.parent), cookie, src.name, isDir)] else []
  }

  ghost function ToEvent(k: Kernel, loc: Dir, cookie: nat, isDir: bool := true): seq<Event>
    requires ValidKernel(k)
  {
    if loc.Sub? && Watched(k, loc.parent) then [MovedTo(Wd(k, loc.parent), cookie, loc.name, isDir)] else []
  }

  ghost function SelfEvent(k: Kernel, d: Inode): seq<Event>
    requires ValidKernel(k)
  {
    if Watched(k, d) && Wd(k, d) in k.moveSelf then [MoveSelf(Wd(k, d))] else []
  }

  /**
   The events in kernel order: a rename reports the source entry, the target
   entry and the moved directory itself, each if watched for it, and then the
   end of the directory it replaced. Nothing above a root is watched.
   */
  ghost function EventsOf(k: Kernel, op: Op): seq<Event>
    requires ValidKernel(k) && Can(k.fs, op)
  {
    match op
    case Mkdir(_, p, name) => if Watched(k, p) then [Create(Wd(k, p), name, true)] else []
    case Rmdir(d) => Farewell(k, Some(d))
    case Rename(d, loc, replaced, cookie) =>
      FromEvent(k, k.fs.dirs[d], cookie) + ToEvent(k, loc, cookie) + SelfEvent(k, d) + Farewell(k, replaced)
    case RenameAbove(_, _) => []
    case MakeFile(p, name) => if Watched(k, p) then [Create(Wd(k, p), name, false)] else []
    case RenameFile(source, target, cookie) => FromEvent(k, source, cookie, false) + ToEvent(k, target, cookie, false)
  }

  /** The watches that end with the operation. */
  ghost function Ended(k: Kernel, op: Op): set<int>
    requires ValidKernel(k)
  {
    if Gone(op).Some? && Watched(k, Gone(op).value) then {Wd(k, Gone(op).value)} else {}
  }

  /** The kernel after the operation; `walks` are the walks of the new trees. */
  ghost function KernelAfter(k: Kernel, op: Op, walks: map<Inode, seq<Inode>>): (r: Kernel)
    requires ValidKernel(k) && Can(k.fs, op)
  {
    EndWatches(k.(fs := TreeAfter(k.fs, op), walks := walks), Ended(k, op))
  }

  lemma TreeAfterDirs(t: Tree, op: Op)
    requires Valid(t) && Can(t, op)
    ensures TreeAfter(t, op).dirs.Keys
      == t.dirs.Keys + (if op.Mkdir? then {op.d} else {}) - (if Gone(op).Some? then {Gone(op).value} else {})
  {
  }

  lemma KernelAfterValid(k: Kernel, op: Op, walks: map<Inode, seq<Inode>>)
    requires ValidKernel(k) && Can(k.fs, op) && ValidWalks(TreeAfter(k.fs, op), walks)
    ensures ValidKernel(KernelAfter(k, op, walks))
  {
  }
}
