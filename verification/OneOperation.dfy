/**
 What can be promised for one operation whose events are all handled before the
 next, for runs of such operations, and once the program has lost its place.
 */
module OneOperation {
  import opened Options
  import opened Paths
  import opened FileTree
  import opened TreeChanges
  import opened WatchCache
  import opened Inotify
  import opened Handler
  import opened Agreement
  import opened Zapping
  import opened Operations
  import opened Simulation
  import opened Renames
  import opened NestedRoots

  // ----- a directory above roots is renamed -----

  /** A directory with a root below it gets another name. */
  ghost predicate Uproots(fs: Tree, op: Op) {
    && op.RenameAbove? && op.oldTop != op.newTop
    && exists r {:trigger fs.dirs[r]} :: r in fs.dirs && fs.dirs[r].Root? && AtOrBelow(fs.dirs[r].path, op.oldTop)
  }

  /** No event comes, so the monitor is as it was. */
  lemma AboveUnseen(m: Monitor, op: Op, walks: map<Inode, seq<Inode>>)
    requires Ready(m, op, walks) && op.RenameAbove?
    ensures After(m, op, walks) == m.(k := m.k.(fs := Carried(m.k.fs, op.oldTop, op.newTop), walks := walks))
  {
    EndNone(m.k.(fs := Carried(m.k.fs, op.oldTop, op.newTop), walks := walks));
    KernelAfterValid(m.k, op, walks);
    hide EndWatches; hide Sound; hide Agree; hide Can; hide ValidKernel; hide Process;
  }

  /** The cache keeps the root under a path that it no longer has. */
  lemma UprootLoses(m: Monitor, op: Op, walks: map<Inode, seq<Inode>>)
    requires Ready(m, op, walks) && Uproots(m.k.fs, op)
    ensures !Settled(After(m, op, walks))
  {
    AboveUnseen(m, op, walks);
    var r :| r in m.k.fs.dirs && m.k.fs.dirs[r].Root? && AtOrBelow(m.k.fs.dirs[r].path, op.oldTop);
    CarriedElsewhere(m.k.fs.dirs[r].path, op.oldTop, op.newTop);
    ReadyFacts(m, op, walks);
    assert r in Monitored(m.k.fs);
    var w := WatchOn(m.k.watches, r);
    hide Valid; hide ValidWalks; hide Sound; hide View; hide WellFormed; hide Flagged; hide Renamed; hide After;
    assert View(m.slots)[w] == m.k.fs.dirs[r].path;
  }

  lemma NoRootAbove(m: Monitor, op: Op, walks: map<Inode, seq<Inode>>)
    requires Ready(m, op, walks) && op.RenameAbove? && !Uproots(m.k.fs, op)
    ensures Settled(After(m, op, walks))
  {
    AboveUnseen(m, op, walks);
    CarriedNone(m.k.fs, op.oldTop, op.newTop);
    ReadyFacts(m, op, walks);
    hide Valid; hide View; hide WellFormed; hide Flagged; hide Paired; hide After; hide RootsApart; hide RootsListed; hide Monitored;
  }

  // ----- one operation -----

  /**
   The renames after which the cache no longer agrees: one from outside that
   replaces a directory of the trees, one of a root into another root's tree,
   and one of a directory above a root.
   */
  ghost predicate Loses(fs: Tree, op: Op) {
    Replaces(fs, op) || Nests(fs, op) || Uproots(fs, op)
  }

  /** A rename is of exactly one kind. */
  lemma RenameKinds(fs: Tree, op: Op)
    requires Valid(fs) && op.Rename? && Can(fs, op)
    ensures (FromOutside(fs, op) && !Lands(fs, op.loc)) || Arrives(fs, op) || Replaces(fs, op) || Leaves(fs, op) || Shifts(fs, op) || Nests(fs, op)
    ensures Loses(fs, op) <==> Replaces(fs, op) || Nests(fs, op)
    ensures Arrives(fs, op) || Leaves(fs, op) || Shifts(fs, op) || (FromOutside(fs, op) && !Lands(fs, op.loc)) ==> !Loses(fs, op)
    ensures Leaves(fs, op) ==> fs.dirs[op.d].Sub? || fs.dirs[op.d].Root?
  {
  }

  /**
   From agreement, any one operation and the handling of all its events lead to
   agreement again, or to an exit because no root is left, if and only if the
   operation is not one of the three kinds of rename that lose directories.
   */
  lemma Settles(m: Monitor, op: Op, walks: map<Inode, seq<Inode>>)
    requires Ready(m, op, walks)
    ensures Settled(After(m, op, walks)) <==> !Loses(m.k.fs, op)
  {
    hide *;
    ReadyFacts(m, op, walks);
    match op {
      case Mkdir(_, _, _) =>
        NoLoss(m.k.fs, op);
        MkdirAgrees(m, op, walks);
        AgreeSettles(After(m, op, walks));
      case Rmdir(_) =>
        NoLoss(m.k.fs, op);
        RmdirSettles(m, op, walks);
      case Rename(_, _, _, _) =>
        RenameKinds(m.k.fs, op);
        KindFacts(m.k.fs, op);
        if Nests(m.k.fs, op) {
          NestLoses(m, op, walks);
        } else if Replaces(m.k.fs, op) {
          OutsiderReplaces(m, op, walks);
        } else if Shifts(m.k.fs, op) {
          ShiftSettles(m, op, walks);
        } else if Arrives(m.k.fs, op) {
          OutsiderArrives(m, op, walks);
        } else if Leaves(m.k.fs, op) {
          if m.k.fs.dirs[op.d].Sub? { SubLeaves(m, op, walks); } else { RootLeaves(m, op, walks); }
        } else {
          OutsiderStaysOut(m, op, walks);
        }
      case RenameAbove(_, _) =>
        AboveKinds(m.k.fs, op);
        if Uproots(m.k.fs, op) { UprootLoses(m, op, walks); } else { NoRootAbove(m, op, walks); }
      case MakeFile(_, _) =>
        NoLoss(m.k.fs, op);
        FileSettles(m, op, walks);
      case RenameFile(_, _, _) =>
        NoLoss(m.k.fs, op);
        FileSettles(m, op, walks);
    }
  }

  lemma NoLoss(fs: Tree, op: Op)
    requires !op.Rename? && !op.RenameAbove?
    ensures !Loses(fs, op) && (OfFile(op) <==> op.MakeFile? || op.RenameFile?)
  {
  }

  lemma AboveKinds(fs: Tree, op: Op)
    requires op.RenameAbove?
    ensures Loses(fs, op) <==> Uproots(fs, op)
  {
  }

  /** A run of operations, each handled before the next, none of them losing directories. */
  ghost predicate SafeRun(m: Monitor, ops: seq<(Op, map<Inode, seq<Inode>>)>)
    decreases |ops|
  {
    ops == [] || m.exited ||
    (Ready(m, ops[0].0, ops[0].1) && !Loses(m.k.fs, ops[0].0) && SafeRun(After(m, ops[0].0, ops[0].1), ops[1..]))
  }

  ghost function Run(m: Monitor, ops: seq<(Op, map<Inode, seq<Inode>>)>): Monitor
    requires SafeRun(m, ops)
    decreases |ops|
  {
    if ops == [] || m.exited then m else Run(After(m, ops[0].0, ops[0].1), ops[1..])
  }

  /** Over a whole run the cache agrees after every operation, until the last root is gone. */
  lemma {:induction false} RunSettles(m: Monitor, ops: seq<(Op, map<Inode, seq<Inode>>)>)
    requires Settled(m) && SafeRun(m, ops)
    ensures Settled(Run(m, ops))
    decreases |ops|
  {
    hide Settled; hide After; hide Loses; hide Ready;
    if ops != [] && !m.exited {
      Settles(m, ops[0].0, ops[0].1);
      RunSettles(After(m, ops[0].0, ops[0].1), ops[1..]);
    }
  }

  // ----- losing one's place -----

  /** The queue overflowed, or the next event is for a directory that is not in the cache. */
  predicate Lost(m: Monitor, ev: Event) {
    ev.Overflow? || (!ev.Ignored? && FindWatch(m.slots, ev.wd) == -1)
  }

  /**
   Whatever the cache and the kernel's watches were, and whatever else is
   queued, an event that shows the program has lost its place restores
   agreement with the trees of the roots still on the list.
   */
  lemma LostPlaceRestores(m: Monitor, queue: seq<Event>)
    requires Sound(m) && !m.exited && queue != [] && Lost(m, queue[0])
    ensures var r := Drain(System(m, queue));
      r.queue == [] && r.m.roots == m.roots && r.m.k.fs == m.k.fs && Sound(r.m) && Agree(r.m) && !r.m.exited
  {
    RebuildAgrees(m);
    hide ValidKernel; hide Agree; hide RootsApart; hide RootsListed; hide WatchRoots; hide Follows;
    assert Process(m, queue, false) == Rebuild(m);
  }

  // ----- noticing it later -----

  /** A directory's departure, whose second half, if it is next, is for a directory not in the cache. */
  predicate LostTarget(m: Monitor, queue: seq<Event>) {
    && |queue| > 1 && queue[0].MovedFrom? && queue[0].isDir && FindWatch(m.slots, queue[0].wd) >= 0
    && queue[1].MovedTo? && queue[1].cookie == queue[0].cookie && FindWatch(m.slots, queue[1].wd) == -1
  }

  lemma LostTargetRestores(m: Monitor, queue: seq<Event>)
    requires Sound(m) && !m.exited && LostTarget(m, queue)
    ensures var r := Drain(System(m, queue));
      r.queue == [] && r.m.roots == m.roots && r.m.k.fs == m.k.fs && Sound(r.m) && Agree(r.m) && !r.m.exited
  {
    RebuildAgrees(m);
    hide ValidKernel; hide Agree; hide RootsApart; hide RootsListed; hide WatchRoots; hide Follows; hide Left;
    assert Process(m, queue, false) == Rebuild(m);
  }

  /** Zapping comes upon a slot whose watch the kernel no longer has. */
  ghost predicate LostWatch(m: Monitor, path: string) {
    WellFormed(m.slots) && !(Hits(m.slots, path) <= m.k.watches.Keys)
  }

  lemma LeftRestores(m: Monitor, path: string)
    requires Sound(m) && ValidKernel(m.k) && LostWatch(m, path)
    ensures var o := Left(m, path);
      && o.verdict.Discard? && o.m.roots == m.roots && o.m.k.fs == m.k.fs && o.m.exited == m.exited && Sound(o.m) && Agree(o.m)
  {
    ZapExact(m, path);
    var z := ZapSubtree(m, path);
    var m' := m.(k := z.k, slots := z.slots);
    assert Sound(m') by { hide Agree; hide RootsApart; hide RootsListed; hide ZapSubtree; hide Hits; hide WellFormed; }
    hide ValidKernel; hide Agree; hide RootsApart; hide RootsListed; hide Hits; hide WellFormed; hide ZapSubtree; hide View; hide WatchRoots; hide Sound;
    RebuildAgrees(m');
  }

  /** A zap that fails makes the program rebuild, which restores agreement with the trees of the roots still on the list. */
  lemma LostWatchRestores(m: Monitor, queue: seq<Event>)
    requires Sound(m) && ValidKernel(m.k) && !m.exited && queue != [] && queue[0].MovedFrom? && queue[0].isDir
    requires FindWatch(m.slots, queue[0].wd) >= 0 && (|queue| == 1 || !queue[1].MovedTo? || queue[1].cookie != queue[0].cookie)
    requires LostWatch(m, Join(m.slots[FindWatch(m.slots, queue[0].wd)].path, queue[0].name))
    ensures var r := Drain(System(m, queue));
      r.queue == [] && r.m.roots == m.roots && r.m.k.fs == m.k.fs && Sound(r.m) && Agree(r.m) && !r.m.exited
  {
    var path := m.slots[FindWatch(m.slots, queue[0].wd)].path;
    ProcessDeparture(m, queue, path);
    LeftRestores(m, Join(path, queue[0].name));
    hide ValidKernel; hide Agree; hide Sound; hide LostWatch; hide Left; hide Process; hide FindWatch;
  }

  /** So it is when a root has moved: it is unlisted first. */
  lemma LostRootRestores(m: Monitor, queue: seq<Event>, path: string)
    requires Sound(m) && ValidKernel(m.k) && !m.exited && queue != [] && queue[0].MoveSelf?
    requires FindWatch(m.slots, queue[0].wd) >= 0 && m.slots[FindWatch(m.slots, queue[0].wd)].path == path && FindRoot(m.roots, path) >= 0
    requires forall d {:trigger m.k.fs.dirs[d]} :: d in m.k.fs.dirs && m.k.fs.dirs[d].Root? ==> m.k.fs.dirs[d].path != path
    requires LostWatch(m, path) && !NoRootsLeft(ZapRoot(m, path).roots)
    ensures var r := Drain(System(m, queue));
      r.queue == [] && r.m.roots == ZapRoot(m, path).roots && r.m.k.fs == m.k.fs && Sound(r.m) && Agree(r.m) && !r.m.exited
  {
    ZapRootSound(m, path);
    ProcessRootMove(m, queue, path);
    var m' := ZapRoot(m, path);
    hide ValidKernel; hide Agree; hide Sound; hide Left; hide Process; hide FindWatch; hide Hits; hide ZapRoot; hide NoRootsLeft; hide FindRoot;
    LeftRestores(m', path);
  }
}
