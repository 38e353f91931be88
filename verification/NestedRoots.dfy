/**
 A root renamed into the tree of another root: the arrival is ignored, because
 every directory there is watched already, and then the root's own move zaps
 them all.
 */
module NestedRoots {
  import opened Options
  import opened Paths
  import opened FileTree
  import opened TreeChanges
  import opened WatchCache
  import opened Inotify
  import opened Handler
  import opened Agreement
  import opened Zapping
  import opened Operations
  import opened Simulation
  import opened Renames

  /** Only which watches report their own move differs. */
  ghost predicate SameWatches(m: Monitor, m': Monitor) {
    match m'
    case Monitor(k, slots, _, _, _) => Watching(m, m') && slots == m.slots && k.watches == m.k.watches
  }

  lemma TraverseWatched(m: Monitor, path: string)
    requires ValidKernel(m.k) && Resolve(m.k.fs, path).Some? && Watched(m.k, Resolve(m.k.fs, path).value)
    requires forall w :: w in m.k.watches ==> FindWatch(m.slots, w) >= 0
    ensures SameWatches(m, TraverseTree(m, path))
  {
    hide Valid; hide ValidWalks; hide Resolve;
  }

  lemma {:induction false} WatchAllWatched(m: Monitor, visits: seq<string>)
    requires ValidKernel(m.k)
    requires forall i :: 0 <= i < |visits| ==> Resolve(m.k.fs, visits[i]).Some? && Watched(m.k, Resolve(m.k.fs, visits[i]).value)
    requires forall w :: w in m.k.watches ==> FindWatch(m.slots, w) >= 0
    ensures SameWatches(m, WatchAll(m, visits))
    decreases |visits|
  {
    hide Valid; hide ValidWalks; hide Resolve; hide TraverseTree; hide ValidWatches; hide FindWatch;
    if visits != [] {
      TraverseWatched(m, visits[0]);
      WatchAllWatched(TraverseTree(m, visits[0]), visits[1..]);
    }
  }

  /** Walking a subtree whose directories are all watched adds nothing. */
  lemma WatchSubtreeWatched(m: Monitor, path: string)
    requires ValidKernel(m.k) && Resolve(m.k.fs, path).Some?
    requires forall x :: x in Subtree(m.k.fs, Resolve(m.k.fs, path).value) ==> Watched(m.k, x)
    requires forall w :: w in m.k.watches ==> FindWatch(m.slots, w) >= 0
    ensures SameWatches(m, WatchSubtree(m, path))
  {
    WalkVisits(m.k, path);
    hide ValidKernel; hide Resolve; hide Subtree; hide WatchAll; hide Nftw; hide FindWatch;
    WatchAllWatched(m, Nftw(m.k, path));
  }

  lemma SameWatchesItself(m: Monitor)
    requires ValidKernel(m.k)
    ensures SameWatches(m, m)
  {
  }

  /** The moved root and all below it are still watched when its arrival is handled. */
  lemma NestedWatched(m: Monitor, op: Op, walks: map<Inode, seq<Inode>>)
    requires Ready(m, op, walks) && Nests(m.k.fs, op)
    ensures var m' := Changed(m, op, walks);
      && ValidKernel(m'.k)
      && (forall x :: x in Subtree(m'.k.fs, op.d) ==> Watched(m'.k, x))
      && (forall w :: w in m'.k.watches ==> FindWatch(m'.slots, w) >= 0)
  {
    ReadyFacts(m, op, walks);
    SubtreeKept(m.k.fs, op);
    InsideSubtree(m.k.fs, op.d);
    if op.replaced.Some? { ReplacedNotBelow(m.k.fs, op); }
    var m' := Changed(m, op, walks);
    forall w | w in m'.k.watches ensures FindWatch(m'.slots, w) >= 0 { ViewFind(m.slots, w); }
    forall x | x in Subtree(m.k.fs, op.d) ensures Watched(m'.k, x) {
      var w := WatchOn(m.k.watches, x);
      NotEnded(m.k, op, w);
      assert m'.k.watches[w] == x;
    }
  }

  lemma NotEnded(k: Kernel, op: Op, w: int)
    requires ValidKernel(k) && w in k.watches && Gone(op) != Some(k.watches[w])
    ensures w !in Ended(k, op)
  {
  }

  lemma ArrivalAddsNothing(m: Monitor, op: Op, walks: map<Inode, seq<Inode>>)
    requires Ready(m, op, walks) && Nests(m.k.fs, op)
    ensures ValidKernel(Changed(m, op, walks).k)
    ensures var m' := Changed(m, op, walks); var o := Appeared(m', NewPath(m.k.fs, op.loc));
      SameWatches(m', o.m) && o.verdict == Took(1) && o.emitted == []
  {
    hide *;
    ReadyFacts(m, op, walks);
    KindFacts(m.k.fs, op);
    NestedWatched(m, op, walks);
    MovedResolves(m.k.fs, op);
    var m' := Changed(m, op, walks);
    WatchSubtreeWatched(m', NewPath(m.k.fs, op.loc));
    SameWatchesItself(m');
    AppearedIs(m', NewPath(m.k.fs, op.loc));
  }

  lemma AppearedIs(m: Monitor, path: string)
    requires ValidKernel(m.k)
    ensures var o := Appeared(m, path); (o.m == m || o.m == WatchSubtree(m, path)) && o.verdict == Took(1) && o.emitted == []
  {
  }

  lemma NestSelfEvent(m: Monitor, d: Inode)
    requires Agree(m) && d in m.k.fs.dirs && m.k.fs.dirs[d].Root? && InTree(m.k.fs, d)
    ensures Watched(m.k, d) && SelfEvent(m.k, d) == [MoveSelf(Wd(m.k, d))]
    ensures forall cookie :: FromEvent(m.k, m.k.fs.dirs[d], cookie) == []
  {
    WatchedInTree(m, d);
    SelfShape(m, d);
  }

  lemma ReplacedWatched(m: Monitor, op: Op)
    requires Agree(m) && Can(m.k.fs, op) && Nests(m.k.fs, op) && op.replaced.Some?
    ensures Watched(m.k, op.replaced.value)
  {
  }

  lemma NestEvents(m: Monitor, op: Op, walks: map<Inode, seq<Inode>>)
    requires Ready(m, op, walks) && Nests(m.k.fs, op)
    ensures Watched(m.k, op.d)
    ensures EventsOf(m.k, op)
      == ToEvent(m.k, op.loc, op.cookie) + [MoveSelf(Wd(m.k, op.d))] + Farewell(m.k, op.replaced)
    ensures |ToEvent(m.k, op.loc, op.cookie)| == 1
    ensures op.replaced.Some? ==> Watched(m.k, op.replaced.value)
  {
    hide *;
    ReadyFacts(m, op, walks);
    KindFacts(m.k.fs, op);
    EventsInOrder(m.k, op);
    NestSelfEvent(m, op.d);
    TargetEntry(m, op);
    if op.replaced.Some? { ReplacedWatched(m, op); }
  }

  /** Another root is left on the list. */
  lemma HostListed(fs: Tree, roots: seq<Option<string>>, loc: Dir)
    requires Lands(fs, loc) && RootsListed(fs, roots)
    ensures !NoRootsLeft(roots)
  {
  }

  lemma NestHost(m: Monitor, op: Op, walks: map<Inode, seq<Inode>>)
    requires Ready(m, op, walks) && Nests(m.k.fs, op)
    ensures Lands(TreeAfter(m.k.fs, op), op.loc)
  {
    if op.replaced.Some? { RemoveFrees(m.k.fs, op.replaced.value); }
    RenamedDir(m.k.fs, op, op.loc.parent);
  }

  /** Giving up the moved root does not end the program. */
  lemma NestZapRoot(m: Monitor, op: Op, walks: map<Inode, seq<Inode>>, x: Monitor)
    requires Ready(m, op, walks) && Nests(m.k.fs, op) && SameWatches(Changed(m, op, walks), x)
    ensures FindRoot(x.roots, PathOf(m.k.fs, op.d)) >= 0
    ensures var m2 := ZapRoot(x, PathOf(m.k.fs, op.d));
      m2.k == x.k && m2.slots == m.slots && Sound(m2) && !m2.exited
  {
    hide *;
    ReadyFacts(m, op, walks);
    KindFacts(m.k.fs, op);
    ChangedSound(m, op, walks);
    WatchesFacts(Changed(m, op, walks), x);
    SoundKept(Changed(m, op, walks), x);
    RootIsListed(m, op.d);
    RootGone(m.k.fs, op);
    ZapRootSound(x, PathOf(m.k.fs, op.d));
    var m2 := ZapRoot(x, PathOf(m.k.fs, op.d));
    NestHost(m, op, walks);
    SoundLists(m2);
    HostListed(m2.k.fs, m2.roots, op.loc);
  }

  lemma SoundLists(m: Monitor)
    requires Sound(m)
    ensures RootsListed(m.k.fs, m.roots) && ValidKernel(m.k)
  {
  }

  lemma WatchesFacts(m: Monitor, m': Monitor)
    requires SameWatches(m, m')
    ensures ValidKernel(m'.k) && Watching(m, m') && m'.slots == m.slots && m'.k.watches == m.k.watches && m'.k.fs == m.k.fs
    ensures m'.roots == m.roots && m'.exited == m.exited
  {
  }

  lemma NestMoveHandled(m: Monitor, op: Op, walks: map<Inode, seq<Inode>>, x: Monitor, queue: seq<Event>)
    requires Ready(m, op, walks) && Nests(m.k.fs, op) && SameWatches(Changed(m, op, walks), x)
    requires Watched(m.k, op.d) && queue != [] && queue[0] == MoveSelf(Wd(m.k, op.d))
    ensures ValidKernel(x.k)
    ensures Process(x, queue, false) == Left(ZapRoot(x, PathOf(m.k.fs, op.d)), PathOf(m.k.fs, op.d))
  {
    hide *;
    ReadyFacts(m, op, walks);
    KindFacts(m.k.fs, op);
    WatchesFacts(Changed(m, op, walks), x);
    Seen(m, op.d);
    NestZapRoot(m, op, walks, x);
    ProcessRootMove(x, queue, PathOf(m.k.fs, op.d));
  }

  lemma NestHits(m: Monitor, op: Op, walks: map<Inode, seq<Inode>>)
    requires Ready(m, op, walks) && Nests(m.k.fs, op)
    ensures Hits(m.slots, PathOf(m.k.fs, op.d)) <= Changed(m, op, walks).k.watches.Keys
    ensures Watched(m.k, op.d) && Wd(m.k, op.d) in Hits(m.slots, PathOf(m.k.fs, op.d))
    ensures op.replaced.Some? && Watched(m.k, op.replaced.value) ==> Wd(m.k, op.replaced.value) !in Hits(m.slots, PathOf(m.k.fs, op.d))
  {
    var ws := Hits(m.slots, PathOf(m.k.fs, op.d));
    HitsAreBelow(m, op.d);
    WatchedInTree(m, op.d);
    if op.replaced.Some? { ReplacedNotBelow(m.k.fs, op); }
    hide Hits; hide Valid; hide ValidWalks; hide Synced; hide PathOf; hide TreeAfter; hide RootsApart; hide RootsListed; hide InTree; hide Monitored;
    forall w | w in ws ensures w in Changed(m, op, walks).k.watches.Keys { NotEnded(m.k, op, w); }
  }

  /** After the root's own move, the nested directory is not watched any more. */
  lemma NestZapped(m: Monitor, op: Op, walks: map<Inode, seq<Inode>>, x: Monitor)
    requires Ready(m, op, walks) && Nests(m.k.fs, op) && SameWatches(Changed(m, op, walks), x)
    ensures ValidKernel(x.k)
    ensures var ws := Hits(m.slots, PathOf(m.k.fs, op.d)); var m2 := ZapRoot(x, PathOf(m.k.fs, op.d)); var o := Left(m2, PathOf(m.k.fs, op.d));
      && o.verdict == Took(1) && Quiet(o.emitted) && !o.m.exited && o.m.roots == m2.roots
      && ValidKernel(o.m.k) && o.m.k.fs == x.k.fs && o.m.k.watches == x.k.watches - ws && Emptied(m.slots, o.m.slots, PathOf(m.k.fs, op.d), 0)
  {
    hide *;
    ReadyFacts(m, op, walks);
    KindFacts(m.k.fs, op);
    WatchesFacts(Changed(m, op, walks), x);
    NestZapRoot(m, op, walks, x);
    NestHits(m, op, walks);
    SyncedSlots(m);
    var m2 := ZapRoot(x, PathOf(m.k.fs, op.d));
    LeftExact(m2, PathOf(m.k.fs, op.d));
  }

  lemma SyncedSlots(m: Monitor)
    requires Synced(m)
    ensures WellFormed(m.slots)
  {
  }

  lemma LeftExact(m: Monitor, path: string)
    requires ValidKernel(m.k) && WellFormed(m.slots) && Hits(m.slots, path) <= m.k.watches.Keys
    ensures var o := Left(m, path);
      && o.verdict == Took(1) && Quiet(o.emitted) && o.m.exited == m.exited && o.m.roots == m.roots
      && ValidKernel(o.m.k) && o.m.k.fs == m.k.fs && o.m.k.watches == m.k.watches - Hits(m.slots, path) && Emptied(m.slots, o.m.slots, path, 0)
  {
    ZapExact(m, path);
    hide Hits; hide View; hide Emptied; hide WellFormed; hide Quiet; hide ZapSubtree; hide Valid; hide ValidWalks; hide ValidWatches;
  }

  // ----- the end of the replaced directory, if any -----

  lemma EmptiedFind(slots: seq<Slot>, slots': seq<Slot>, path: string, w: nat)
    requires WellFormed(slots) && Emptied(slots, slots', path, 0) && FindWatch(slots, w) >= 0 && w !in Hits(slots, path)
    ensures FindWatch(slots', w) == FindWatch(slots, w) && slots'[FindWatch(slots, w)] == slots[FindWatch(slots, w)]
  {
  }

  lemma ReplacedSlot(m: Monitor, op: Op, walks: map<Inode, seq<Inode>>, slots: seq<Slot>)
    requires Ready(m, op, walks) && Nests(m.k.fs, op) && op.replaced.Some? && Watched(m.k, op.replaced.value)
    requires Emptied(m.slots, slots, PathOf(m.k.fs, op.d), 0)
    ensures op.replaced.value in m.k.fs.dirs
    ensures var slot := FindWatch(slots, Wd(m.k, op.replaced.value)); slot >= 0 && slots[slot].path == PathOf(m.k.fs, op.replaced.value)
  {
    hide *;
    ReadyFacts(m, op, walks);
    KindFacts(m.k.fs, op);
    NestHits(m, op, walks);
    Seen(m, op.replaced.value);
    SyncedSlots(m);
    EmptiedFind(m.slots, slots, PathOf(m.k.fs, op.d), Wd(m.k, op.replaced.value));
  }

  lemma ZapRootUnlists(m: Monitor, path: string, other: string)
    requires FindRoot(m.roots, other) == -1
    ensures FindRoot(ZapRoot(m, path).roots, other) == -1
  {
  }

  lemma ReplacedUnlisted(m: Monitor, op: Op, walks: map<Inode, seq<Inode>>, x: Monitor)
    requires Ready(m, op, walks) && Nests(m.k.fs, op) && op.replaced.Some? && Watched(m.k, op.replaced.value)
    requires SameWatches(Changed(m, op, walks), x)
    ensures op.replaced.value in m.k.fs.dirs
    ensures FindRoot(ZapRoot(x, PathOf(m.k.fs, op.d)).roots, PathOf(m.k.fs, op.replaced.value)) == -1
  {
    ReadyFacts(m, op, walks);
    WatchesFacts(Changed(m, op, walks), x);
    assert op.replaced.value in m.k.fs.dirs && m.k.fs.dirs[op.replaced.value].Sub?;
    hide *;
    KindFacts(m.k.fs, op);
    NotARoot(m, op.replaced.value);
    ZapRootUnlists(x, PathOf(m.k.fs, op.d), PathOf(m.k.fs, op.replaced.value));
  }

  lemma ProcessEnd(m: Monitor, queue: seq<Event>)
    requires ValidKernel(m.k) && !m.exited && queue != [] && queue[0].DeleteSelf?
    requires var slot := FindWatch(m.slots, queue[0].wd); slot >= 0 && FindRoot(m.roots, m.slots[slot].path) == -1
    ensures Process(m, queue, false) == Outcome(m.(slots := MarkEmpty(m.slots, FindWatch(m.slots, queue[0].wd))), Took(1), [])
  {
    hide ValidKernel; hide MarkEmpty; hide Follows;
  }

  /** The rest of the queue, after the root's own move, does not change what is watched. */
  lemma NestRest(m: Monitor, op: Op, walks: map<Inode, seq<Inode>>, x: Monitor, m3: Monitor, rest: seq<Event>)
    requires Ready(m, op, walks) && Nests(m.k.fs, op) && SameWatches(Changed(m, op, walks), x)
    requires ValidKernel(m3.k) && !m3.exited && m3.roots == ZapRoot(x, PathOf(m.k.fs, op.d)).roots
    requires Emptied(m.slots, m3.slots, PathOf(m.k.fs, op.d), 0) && Quiet(rest)
    ensures var r := Drain(System(m3, Farewell(m.k, op.replaced) + rest)).m; !r.exited && r.k == m3.k
  {
    hide *;
    ReadyFacts(m, op, walks);
    KindFacts(m.k.fs, op);
    FarewellOf(m.k, op.replaced);
    NestEvents(m, op, walks);
    var queue := Farewell(m.k, op.replaced) + rest;
    if op.replaced.None? {
      assert queue == rest;
      DrainQuiet(m3, rest);
    } else {
      var w := Wd(m.k, op.replaced.value);
      ReplacedSlot(m, op, walks, m3.slots);
      ReplacedUnlisted(m, op, walks, x);
      ProcessEnd(m3, queue);
      var o := Process(m3, queue, false);
      FirstHandled(m3, queue, o.m, 1);
      assert queue[1..] == [Ignored(w)] + rest;
      QuietCons(w, rest);
      DrainQuiet(o.m, queue[1..]);
    }
  }

  lemma QuietCons(w: nat, rest: seq<Event>)
    requires Quiet(rest)
    ensures Quiet([Ignored(w)] + rest)
  {
  }

  lemma NestUnwatched(m: Monitor, op: Op, walks: map<Inode, seq<Inode>>, watches: map<int, Inode>)
    requires Ready(m, op, walks) && Nests(m.k.fs, op)
    requires watches == Changed(m, op, walks).k.watches - Hits(m.slots, PathOf(m.k.fs, op.d))
    ensures var fs' := TreeAfter(m.k.fs, op); op.d in fs'.dirs && InTree(fs', op.d) && op.d !in watches.Values
  {
    ReadyFacts(m, op, walks);
    RenamedDir(m.k.fs, op, op.d);
    HitsAreBelow(m, op.d);
    assert forall w :: w in watches ==> w in m.k.watches && watches[w] == m.k.watches[w];
  }

  /**
   A root renamed into another root's tree ends up unwatched there, although it
   is in a monitored tree.
   */
  lemma NestLoses(m: Monitor, op: Op, walks: map<Inode, seq<Inode>>)
    requires Ready(m, op, walks) && Nests(m.k.fs, op)
    ensures !Settled(After(m, op, walks))
  {
    hide *;
    ReadyFacts(m, op, walks);
    KindFacts(m.k.fs, op);
    NestEvents(m, op, walks);
    var m' := Changed(m, op, walks);
    var queue := EventsOf(m.k, op);
    var path := PathOf(m.k.fs, op.d);
    ArrivalHandled(m, op, walks, queue);
    ArrivalAddsNothing(m, op, walks);
    var x := Appeared(m', NewPath(m.k.fs, op.loc)).m;
    FirstHandled(m', queue, x, 1);
    WatchesFacts(m', x);
    var queue1 := queue[1..];
    assert queue1 == [MoveSelf(Wd(m.k, op.d))] + Farewell(m.k, op.replaced);
    NestMoveHandled(m, op, walks, x, queue1);
    NestZapRoot(m, op, walks, x);
    SoundLists(ZapRoot(x, path));
    NestZapped(m, op, walks, x);
    var o := Left(ZapRoot(x, path), path);
    DrainStep(x, queue1);
    assert queue1[1..] == Farewell(m.k, op.replaced);
    NestRest(m, op, walks, x, o.m, o.emitted);
    NestUnwatched(m, op, walks, o.m.k.watches);
    WatchedMeans(o.m.k, op.d);
    UnwatchedUnsettled(After(m, op, walks), op.d);
  }
}
