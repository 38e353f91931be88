/**
 Two operations before the first event is handled: a directory leaves the
 trees, and at once something else comes. The first event is then followed by
 one that is not its second half.
 */
module InFlight {
  import opened Options
  import opened Paths
  import opened FileTree
  import opened TreeChanges
  import opened WatchCache
  import opened Inotify
  import opened Handler
  import opened Agreement
  import opened Zapping
  import opened Operations
  import opened Simulation
  import opened Renames
  import opened OneOperation

  /** A new directory, one renamed from outside the trees, or an operation on a plain file. */
  ghost predicate Comes(fs: Tree, op: Op) {
    op.Mkdir? || OfFile(op) || (FromOutside(fs, op) && op.replaced.None?)
  }

  ghost predicate OtherCookie(op: Op, cookie: nat) {
    (op.Rename? || op.RenameFile?) ==> op.cookie != cookie
  }

  /** `op` takes a directory out of the trees, and before its event is handled `next` happens. */
  ghost predicate BothHappen(m: Monitor, op: Op, walks: map<Inode, seq<Inode>>, next: Op, walks': map<Inode, seq<Inode>>) {
    && Ready(m, op, walks) && Leaves(m.k.fs, op) && m.k.fs.dirs[op.d].Sub?
    && var fs1 := Changed(m, op, walks).k.fs;
      && Valid(fs1) && Can(fs1, next) && Comes(fs1, next) && ValidWalks(TreeAfter(fs1, next), walks') && OtherCookie(next, op.cookie)
  }

  lemma BothFacts(m: Monitor, op: Op, walks: map<Inode, seq<Inode>>, next: Op, walks': map<Inode, seq<Inode>>)
    requires BothHappen(m, op, walks, next, walks')
    ensures Ready(m, op, walks) && Leaves(m.k.fs, op) && m.k.fs.dirs[op.d].Sub?
    ensures var m1 := Changed(m, op, walks);
      && ValidKernel(m1.k) && Can(m1.k.fs, next) && Comes(m1.k.fs, next) && ValidWalks(TreeAfter(m1.k.fs, next), walks')
      && ValidKernel(KernelAfter(m1.k, next, walks')) && OtherCookie(next, op.cookie)
  {
    ReadyFacts(m, op, walks);
    hide Ready; hide Leaves; hide Can; hide Comes; hide Changed; hide Valid; hide ValidWalks; hide KernelAfter;
    KernelAfterValid(Changed(m, op, walks).k, next, walks');
  }

  /** The kernel after both, and all their events. */
  ghost function BothChanged(m: Monitor, op: Op, walks: map<Inode, seq<Inode>>, next: Op, walks': map<Inode, seq<Inode>>): (r: Monitor)
    requires BothHappen(m, op, walks, next, walks')
    ensures ValidKernel(r.k)
  {
    BothFacts(m, op, walks, next, walks');
    var m1 := Changed(m, op, walks);
    m1.(k := KernelAfter(m1.k, next, walks'))
  }

  ghost function BothEvents(m: Monitor, op: Op, walks: map<Inode, seq<Inode>>, next: Op, walks': map<Inode, seq<Inode>>): seq<Event>
    requires BothHappen(m, op, walks, next, walks')
  {
    BothFacts(m, op, walks, next, walks');
    EventsOf(m.k, op) + EventsOf(Changed(m, op, walks).k, next)
  }

  // ----- zapping does not look at the trees -----

  /** What comes ends no watch. */
  lemma ComesKernel(k: Kernel, op: Op, walks: map<Inode, seq<Inode>>)
    requires ValidKernel(k) && Can(k.fs, op) && Comes(k.fs, op)
    ensures KernelAfter(k, op, walks) == k.(fs := TreeAfter(k.fs, op), walks := walks)
  {
    EndNone(k.(fs := TreeAfter(k.fs, op), walks := walks));
    hide ValidKernel; hide EndWatches; hide Can; hide TreeAfter;
  }

  lemma EmptiedOnce(slots: seq<Slot>, a: seq<Slot>, b: seq<Slot>, path: string)
    requires Emptied(slots, a, path, 0) && Emptied(slots, b, path, 0)
    ensures a == b
  {
  }

  lemma EndOther(k: Kernel, fs: Tree, walks: map<Inode, seq<Inode>>, ws: set<int>)
    ensures EndWatches(k.(fs := fs, walks := walks), ws) == EndWatches(k, ws).(fs := fs, walks := walks)
  {
  }

  /** The same directories are zapped, whatever the trees are by then. */
  lemma LeftAnyTree(m: Monitor, fs: Tree, walks: map<Inode, seq<Inode>>, path: string)
    requires ValidKernel(m.k) && ValidKernel(m.k.(fs := fs, walks := walks)) && WellFormed(m.slots)
    requires Left(m, path).verdict.Took?
    ensures var o := Left(m, path); var o' := Left(m.(k := m.k.(fs := fs, walks := walks)), path);
      o'.verdict == Took(1) && Quiet(o'.emitted) && o'.m == o.m.(k := o.m.k.(fs := fs, walks := walks))
  {
    var m' := m.(k := m.k.(fs := fs, walks := walks));
    ZapExact(m, path);
    ZapExact(m', path);
    hide ValidKernel; hide WellFormed; hide ZapSubtree; hide Hits; hide Emptied; hide View; hide EndWatches; hide Quiet;
    EmptiedOnce(m.slots, ZapSubtree(m, path).slots, ZapSubtree(m', path).slots, path);
    EndOther(m.k, fs, walks, Hits(m.slots, path));
  }

  /** The monitor when the first event has been handled, in the trees as they were then. */
  ghost function Departed(m: Monitor, op: Op, walks: map<Inode, seq<Inode>>): Monitor
    requires Ready(m, op, walks) && Leaves(m.k.fs, op)
  {
    ReadyFacts(m, op, walks);
    Left(Changed(m, op, walks), PathOf(m.k.fs, op.d)).m
  }

  lemma LeftWatches(m: Monitor, path: string)
    requires ValidKernel(m.k) && WellFormed(m.slots) && Left(m, path).verdict.Took?
    ensures var k' := Left(m, path).m.k; forall w :: w in k'.watches ==> w in m.k.watches && k'.watches[w] == m.k.watches[w]
  {
    ZapExact(m, path);
    hide ValidKernel; hide WellFormed; hide ZapSubtree; hide Hits; hide Emptied; hide View; hide Quiet;
  }

  lemma LeftValid(m: Monitor, path: string)
    requires ValidKernel(m.k)
    ensures ValidKernel(Left(m, path).m.k)
  {
    hide ValidKernel; hide Left;
  }

  lemma SyncedFormed(m: Monitor)
    requires Synced(m)
    ensures WellFormed(m.slots) && ValidKernel(m.k)
  {
  }

  lemma DepartedFacts(m: Monitor, op: Op, walks: map<Inode, seq<Inode>>)
    requires Ready(m, op, walks) && Leaves(m.k.fs, op)
    ensures var m1 := Changed(m, op, walks); var a := Departed(m, op, walks);
      && ValidKernel(m1.k) && WellFormed(m.slots) && Left(m1, PathOf(m.k.fs, op.d)).verdict == Took(1)
      && ValidKernel(a.k) && Sound(a) && Agree(a) && Synced(a) && !a.exited && a.k.fs == m1.k.fs
      && forall w :: w in a.k.watches ==> w in m1.k.watches && a.k.watches[w] == m1.k.watches[w]
  {
    hide *;
    ReadyFacts(m, op, walks);
    SyncedFormed(m);
    var m1 := Changed(m, op, walks);
    LeaverZapped(m, op, walks, m1);
    KindFacts(m.k.fs, op);
    DepartedIs(m, op, walks);
    ChangedSound(m, op, walks);
    LeftWatches(m1, PathOf(m.k.fs, op.d));
    SameRootsSound(m1, Departed(m, op, walks));
    AgreeParts(Departed(m, op, walks));
  }

  lemma DepartedIs(m: Monitor, op: Op, walks: map<Inode, seq<Inode>>)
    requires Ready(m, op, walks) && Leaves(m.k.fs, op) && ValidKernel(Changed(m, op, walks).k) && Valid(m.k.fs) && op.d in m.k.fs.dirs
    ensures Departed(m, op, walks) == Left(Changed(m, op, walks), PathOf(m.k.fs, op.d)).m
  {
    hide Ready; hide Changed; hide Left; hide Leaves; hide ValidKernel;
  }

  lemma AgreeParts(m: Monitor)
    requires Agree(m)
    ensures Synced(m) && ValidKernel(m.k)
  {
  }

  // ----- the first event -----

  /** The event after the first is not its second half, for its cookie is another. */
  lemma NotSecondHalf(k: Kernel, op: Op, cookie: nat)
    requires ValidKernel(k) && Can(k.fs, op) && Comes(k.fs, op) && OtherCookie(op, cookie)
    ensures var es := EventsOf(k, op); es == [] || !es[0].MovedTo? || es[0].cookie != cookie
  {
    hide ValidKernel; hide Can; hide Watched;
  }

  /** So the first directory is zapped, and the events of the second operation are next. */
  lemma FirstHandledAlone(m: Monitor, op: Op, walks: map<Inode, seq<Inode>>, next: Op, walks': map<Inode, seq<Inode>>) returns (quiet: seq<Event>)
    requires BothHappen(m, op, walks, next, walks')
    ensures Ready(m, op, walks) && Leaves(m.k.fs, op) && ValidKernel(Changed(m, op, walks).k) && Can(Changed(m, op, walks).k.fs, next)
    ensures var m1 := Changed(m, op, walks); var a := Departed(m, op, walks);
      var s := a.(k := a.k.(fs := TreeAfter(m1.k.fs, next), walks := walks'));
      && ValidKernel(s.k) && Quiet(quiet)
      && Drain(System(BothChanged(m, op, walks, next, walks'), BothEvents(m, op, walks, next, walks')))
        == Drain(System(s, EventsOf(m1.k, next) + quiet))
  {
    hide *;
    BothFacts(m, op, walks, next, walks');
    ReadyFacts(m, op, walks);
    KindFacts(m.k.fs, op);
    BothAre(m, op, walks, next, walks');
    var m1 := Changed(m, op, walks);
    var m2 := BothChanged(m, op, walks, next, walks');
    ComesKernel(m1.k, next, walks');
    DepartedFacts(m, op, walks);
    DepartedIs(m, op, walks);
    DepartureEvent(m, op, walks);
    SourceEntry(m, op);
    NotSecondHalf(m1.k, next, op.cookie);
    var path := PathOf(m.k.fs, op.d);
    var es := EventsOf(m1.k, next);
    var queue := EventsOf(m.k, op) + es;
    assert |queue| > 1 ==> queue[1] == es[0];
    ProcessDeparture(m2, queue, PathOf(m.k.fs, m.k.fs.dirs[op.d].parent));
    LeftAnyTree(m1, TreeAfter(m1.k.fs, next), walks', path);
    LeftValid(m2, path);
    DrainStep(m2, queue);
    quiet := Left(m2, path).emitted;
    assert queue[1..] == es;
  }

  lemma BothAre(m: Monitor, op: Op, walks: map<Inode, seq<Inode>>, next: Op, walks': map<Inode, seq<Inode>>)
    requires BothHappen(m, op, walks, next, walks')
    requires ValidKernel(m.k) && Can(m.k.fs, op) && ValidKernel(Changed(m, op, walks).k) && Can(Changed(m, op, walks).k.fs, next)
    ensures var m1 := Changed(m, op, walks);
      && BothChanged(m, op, walks, next, walks') == m1.(k := KernelAfter(m1.k, next, walks'))
      && BothEvents(m, op, walks, next, walks') == EventsOf(m.k, op) + EventsOf(m1.k, next)
  {
    hide ValidKernel; hide Can; hide Changed; hide EventsOf; hide KernelAfter; hide Ready; hide Leaves;
  }

  // ----- the second operation's events -----

  /** The watches that are left are the same watches. */
  lemma SameWd(k: Kernel, k': Kernel, d: Inode)
    requires ValidKernel(k) && ValidKernel(k')
    requires forall w :: w in k'.watches ==> w in k.watches && k'.watches[w] == k.watches[w]
    ensures Watched(k', d) ==> Watched(k, d) && Wd(k, d) == Wd(k', d)
    ensures Watched(k, d) && Wd(k, d) in k'.watches ==> Watched(k', d)
  {
    hide Valid; hide ValidWalks;
    if Watched(k', d) { assert k.watches[Wd(k', d)] == d; }
  }

  lemma RootsInTree(fs: Tree, d: Inode)
    requires Valid(fs) && d in fs.dirs && fs.dirs[d].Root?
    ensures InTree(fs, d)
  {
  }

  /** No directory from outside has a watch for its own moves, not even one that has just left. */
  lemma NoSelf(m: Monitor, op: Op, walks: map<Inode, seq<Inode>>, d: Inode)
    requires Ready(m, op, walks) && Leaves(m.k.fs, op) && m.k.fs.dirs[op.d].Sub?
    requires ValidKernel(Changed(m, op, walks).k) && Valid(Changed(m, op, walks).k.fs)
    requires d in Changed(m, op, walks).k.fs.dirs && !InTree(Changed(m, op, walks).k.fs, d)
    ensures SelfEvent(Changed(m, op, walks).k, d) == []
  {
    hide *;
    ReadyFacts(m, op, walks);
    KindFacts(m.k.fs, op);
    NothingEnds(m, op, walks);
    var k1 := Changed(m, op, walks).k;
    TreeAfterDirs(m.k.fs, op);
    if d in m.k.fs.dirs && m.k.fs.dirs[d].Root? {
      RenamedDir(m.k.fs, op, d);
      RootsInTree(k1.fs, d);
    }
    FlaggedFacts(m);
    SelfMeans(k1, d);
  }

  lemma FlaggedFacts(m: Monitor)
    requires Synced(m)
    ensures forall w :: w in m.k.watches ==> m.k.watches[w] in m.k.fs.dirs && (w in m.k.moveSelf <==> m.k.fs.dirs[m.k.watches[w]].Root?)
  {
  }

  lemma SelfMeans(k: Kernel, d: Inode)
    requires ValidKernel(k)
    ensures SelfEvent(k, d) != [] ==> exists w :: w in k.watches && k.watches[w] == d && w in k.moveSelf
  {
  }

  /** The first event is of a watch that is gone. */
  ghost predicate Stranded(a: Monitor, es: seq<Event>) {
    es != [] && !es[0].Overflow? && !es[0].Ignored? && es[0].wd !in a.k.watches
  }

  /** The events tell one thing at most, of a directory that came. */
  ghost predicate TellsOne(es: seq<Event>) {
    es == [] || (|es| == 1 && (es[0].Create? || es[0].MovedTo?) && es[0].isDir)
  }

  lemma MkdirTells(k: Kernel, a: Monitor, op: Op)
    requires ValidKernel(k) && ValidKernel(a.k) && a.k.fs == k.fs && Can(k.fs, op) && op.Mkdir?
    requires forall w :: w in a.k.watches ==> w in k.watches && a.k.watches[w] == k.watches[w]
    ensures var es := EventsOf(k, op); Stranded(a, es) || (es == EventsOf(a.k, op) && TellsOne(es))
  {
    SameWd(k, a.k, op.p);
    hide ValidKernel; hide Watched; hide Can; hide Wd;
  }

  lemma FromTells(k: Kernel, a: Monitor, d: Inode, cookie: nat)
    requires ValidKernel(k) && Agree(a) && ValidKernel(a.k) && a.k.fs == k.fs && Valid(k.fs) && d in k.fs.dirs && !InTree(k.fs, d)
    requires forall w :: w in a.k.watches ==> w in k.watches && a.k.watches[w] == k.watches[w]
    ensures FromEvent(a.k, k.fs.dirs[d], cookie) == [] && SelfEvent(a.k, d) == []
    ensures var es := FromEvent(k, k.fs.dirs[d], cookie); es == [] || Stranded(a, es)
  {
    var src := k.fs.dirs[d];
    if src.Sub? {
      ParentInTree(k.fs, d);
      WatchedInTree(a, src.parent);
      SameWd(k, a.k, src.parent);
    }
    WatchedInTree(a, d);
    hide ValidKernel; hide Watched; hide Wd; hide Agree; hide InTree; hide Valid;
  }

  lemma ToTells(k: Kernel, a: Monitor, loc: Dir, cookie: nat)
    requires ValidKernel(k) && ValidKernel(a.k)
    requires forall w :: w in a.k.watches ==> w in k.watches && a.k.watches[w] == k.watches[w]
    ensures var es := ToEvent(k, loc, cookie); Stranded(a, es) || (es == ToEvent(a.k, loc, cookie) && TellsOne(es))
  {
    if loc.Sub? { SameWd(k, a.k, loc.parent); }
    hide ValidKernel; hide Watched; hide Wd;
  }

  lemma ArrivalTells(k: Kernel, a: Monitor, op: Op)
    requires ValidKernel(k) && Agree(a) && ValidKernel(a.k) && a.k.fs == k.fs && Can(k.fs, op) && FromOutside(k.fs, op) && op.replaced.None?
    requires SelfEvent(k, op.d) == []
    requires forall w :: w in a.k.watches ==> w in k.watches && a.k.watches[w] == k.watches[w]
    ensures var es := EventsOf(k, op); Stranded(a, es) || (es == EventsOf(a.k, op) && TellsOne(es))
  {
    hide *;
    KindFacts(k.fs, op);
    FromTells(k, a, op.d, op.cookie);
    ToTells(k, a, op.loc, op.cookie);
    EventsInOrder(k, op);
    EventsInOrder(a.k, op);
    FarewellOf(k, op.replaced);
    FarewellOf(a.k, op.replaced);
    Heads(a, FromEvent(k, k.fs.dirs[op.d], op.cookie), ToEvent(k, op.loc, op.cookie));
  }

  lemma Heads(a: Monitor, es: seq<Event>, rest: seq<Event>)
    ensures Stranded(a, es) ==> Stranded(a, es + rest + [] + [])
    ensures [] + rest + [] + [] == rest
  {
  }

  lemma ComesTells(m: Monitor, op: Op, walks: map<Inode, seq<Inode>>, next: Op, walks': map<Inode, seq<Inode>>)
    requires BothHappen(m, op, walks, next, walks') && !OfFile(next)
    ensures ValidKernel(Changed(m, op, walks).k) && Can(Changed(m, op, walks).k.fs, next)
    ensures ValidKernel(Departed(m, op, walks).k) && Can(Departed(m, op, walks).k.fs, next)
    ensures var es := EventsOf(Changed(m, op, walks).k, next); var a := Departed(m, op, walks);
      Stranded(a, es) || (es == EventsOf(a.k, next) && TellsOne(es))
  {
    hide *;
    BothFacts(m, op, walks, next, walks');
    DepartedFacts(m, op, walks);
    KindFacts(Changed(m, op, walks).k.fs, next);
    ComesKinds(Changed(m, op, walks).k.fs, next);
    if next.Mkdir? {
      MkdirTells(Changed(m, op, walks).k, Departed(m, op, walks), next);
    } else {
      NoSelf(m, op, walks, next.d);
      ArrivalTells(Changed(m, op, walks).k, Departed(m, op, walks), next);
    }
  }

  lemma ComesKinds(fs: Tree, op: Op)
    requires Comes(fs, op)
    ensures op.Mkdir? || OfFile(op) || (FromOutside(fs, op) && op.replaced.None?)
    ensures Valid(fs) && Can(fs, op) ==> !Loses(fs, op)
  {
  }

  // ----- both settle -----

  /** Ends of watches after a single event change nothing. */
  lemma OneThenQuiet(m: Monitor, es: seq<Event>, quiet: seq<Event>)
    requires ValidKernel(m.k) && !m.exited && TellsOne(es) && Quiet(quiet) && (es != [] ==> FindWatch(m.slots, es[0].wd) >= 0)
    ensures Drain(System(m, es + quiet)).m == Drain(System(m, es)).m
  {
    if es == [] {
      assert es + quiet == quiet;
      DrainQuiet(m, quiet);
      DrainQuiet(m, es);
    } else {
      var o := Process(m, es, false);
      SameAppeared(m, es, es + quiet);
      hide Process; hide ValidKernel; hide TellsOne; hide FindWatch; hide Drain;
      assert (es + quiet)[1..] + o.emitted == quiet && es[1..] + o.emitted == [];
      DrainLast(m, es + quiet, o);
      DrainLast(m, es, o);
    }
  }

  lemma SameAppeared(m: Monitor, es: seq<Event>, es': seq<Event>)
    requires ValidKernel(m.k) && es != [] && es' != [] && es[0] == es'[0] && TellsOne(es) && FindWatch(m.slots, es[0].wd) >= 0
    ensures var o := Process(m, es, false); o == Process(m, es', false) && o.verdict == Took(1) && o.emitted == [] && o.m.exited == m.exited
  {
    hide ValidKernel; hide WatchSubtree;
  }

  lemma RebuildSettles(m: Monitor, queue: seq<Event>)
    requires Sound(m) && ValidKernel(m.k) && !m.exited && queue != [] && Lost(m, queue[0])
    ensures Settled(Drain(System(m, queue)).m)
  {
    LostPlaceRestores(m, queue);
    hide Drain; hide Sound; hide Agree; hide Lost; hide ValidKernel;
  }

  /** Events about files are passed over, or make the program notice that it lost its place. */
  lemma {:induction false} FilesOrRebuild(m: Monitor, queue: seq<Event>)
    requires Sound(m) && Agree(m) && ValidKernel(m.k) && !m.exited
    requires forall i :: 0 <= i < |queue| ==> queue[i].Ignored? || ((queue[i].Create? || queue[i].MovedFrom? || queue[i].MovedTo?) && !queue[i].isDir)
    ensures Settled(Drain(System(m, queue)).m)
    decreases |queue|
  {
    hide Sound; hide Agree; hide ValidKernel; hide Drain; hide Settled; hide Reinitialize; hide Appeared; hide Left; hide RewriteAll; hide MarkEmpty;
    if queue == [] {
      DrainQuiet(m, queue);
      AgreeSettles(m);
    } else if Lost(m, queue[0]) {
      RebuildSettles(m, queue);
    } else {
      assert Process(m, queue, false) == Outcome(m, Took(1), []);
      hide Process; hide FindWatch;
      DrainStep(m, queue);
      assert queue[1..] + [] == queue[1..];
      FilesOrRebuild(m, queue[1..]);
    }
  }

  lemma ReadyNext(m: Monitor, op: Op, walks: map<Inode, seq<Inode>>, next: Op, walks': map<Inode, seq<Inode>>)
    requires BothHappen(m, op, walks, next, walks')
    ensures Ready(m, op, walks) && Leaves(m.k.fs, op)
    ensures var a := Departed(m, op, walks);
      && Ready(a, next, walks') && ValidKernel(a.k) && Can(a.k.fs, next)
      && Changed(a, next, walks') == a.(k := a.k.(fs := TreeAfter(a.k.fs, next), walks := walks'))
      && !Loses(a.k.fs, next)
  {
    hide *;
    BothFacts(m, op, walks, next, walks');
    DepartedFacts(m, op, walks);
    var a := Departed(m, op, walks);
    AgreeValid(a.k);
    ReadyIntro(a, next, walks');
    EndedIs(a, next, walks');
    ComesKernel(a.k, next, walks');
    ComesKinds(a.k.fs, next);
    ChangedIs(a, next, walks');
  }

  lemma AgreeValid(k: Kernel)
    requires ValidKernel(k)
    ensures Valid(k.fs)
  {
  }

  lemma ReadyIntro(m: Monitor, op: Op, walks: map<Inode, seq<Inode>>)
    requires !m.exited && Sound(m) && Agree(m) && Valid(m.k.fs) && Can(m.k.fs, op) && ValidWalks(TreeAfter(m.k.fs, op), walks)
    ensures Ready(m, op, walks)
  {
  }

  lemma ChangedIs(m: Monitor, op: Op, walks: map<Inode, seq<Inode>>)
    requires Ready(m, op, walks) && ValidKernel(m.k) && Can(m.k.fs, op)
    ensures Changed(m, op, walks) == m.(k := KernelAfter(m.k, op, walks))
  {
    hide Ready; hide ValidKernel; hide Can; hide KernelAfter;
  }

  lemma StrandedLost(a: Monitor, s: Monitor, es: seq<Event>)
    requires Synced(a) && Stranded(a, es) && s.slots == a.slots
    ensures Lost(s, es[0])
  {
    if FindWatch(a.slots, es[0].wd) >= 0 { ViewFind(a.slots, es[0].wd); }
    hide ValidKernel; hide View; hide FindWatch; hide WellFormed;
  }

  lemma KnownEvent(m: Monitor, op: Op)
    requires Synced(m) && Can(m.k.fs, op) && TellsOne(EventsOf(m.k, op))
    ensures EventsOf(m.k, op) != [] ==> FindWatch(m.slots, EventsOf(m.k, op)[0].wd) >= 0
  {
    EventsWatched(m.k, op);
    var es := EventsOf(m.k, op);
    hide EventsOf; hide ValidKernel; hide Can; hide Watched; hide WellFormed;
    if es != [] { ViewFind(m.slots, es[0].wd); }
  }

  lemma EventsWatched(k: Kernel, op: Op)
    requires ValidKernel(k) && Can(k.fs, op)
    ensures EventsOf(k, op) != [] ==> EventsOf(k, op)[0].Overflow? || EventsOf(k, op)[0].wd in k.watches
  {
    hide ValidKernel; hide Watched; hide Can;
  }

  lemma ChangedParts(m: Monitor, op: Op, walks: map<Inode, seq<Inode>>)
    requires Ready(m, op, walks)
    ensures !m.exited && Synced(m)
  {
  }

  /**
   A directory leaves the trees, and before that is handled another comes, a
   directory or a plain file: the two events, one after the other in the
   queue, are not taken for a rename within the trees, and agreement is
   reached as if they had been handled one by one.
   */
  lemma BothSettle(m: Monitor, op: Op, walks: map<Inode, seq<Inode>>, next: Op, walks': map<Inode, seq<Inode>>)
    requires BothHappen(m, op, walks, next, walks')
    ensures Settled(Drain(System(BothChanged(m, op, walks, next, walks'), BothEvents(m, op, walks, next, walks'))).m)
  {
    hide *;
    BothFacts(m, op, walks, next, walks');
    ReadyNext(m, op, walks, next, walks');
    var quiet := FirstHandledAlone(m, op, walks, next, walks');
    DepartedFacts(m, op, walks);
    var a := Departed(m, op, walks);
    var s := Changed(a, next, walks');
    var es := EventsOf(Changed(m, op, walks).k, next);
    ReadyFacts(a, next, walks');
    NextNotAbove(Changed(m, op, walks).k.fs, next);
    ChangedSound(a, next, walks');
    Settles(a, next, walks');
    if OfFile(next) {
      FileSettles(a, next, walks');
      FileChanged(a, next, walks');
      FilesOnly(Changed(m, op, walks).k, next, quiet);
      SettledFacts(s);
      FilesOrRebuild(s, es + quiet);
    } else {
      ComesTells(m, op, walks, next, walks');
      if Stranded(a, es) {
        StrandedLost(a, s, es);
        StrandedHead(a, es, quiet);
        RebuildSettles(s, es + quiet);
      } else {
        KnownEvent(a, next);
        OneThenQuiet(s, es, quiet);
      }
    }
  }

  lemma NextNotAbove(fs: Tree, op: Op)
    requires Comes(fs, op)
    ensures !op.RenameAbove?
  {
  }

  lemma SettledFacts(m: Monitor)
    requires Settled(m) && !m.exited
    ensures Sound(m) && Agree(m)
  {
  }

  lemma StrandedHead(a: Monitor, es: seq<Event>, quiet: seq<Event>)
    requires Stranded(a, es)
    ensures es + quiet != [] && (es + quiet)[0] == es[0]
  {
  }

  lemma FilesOnly(k: Kernel, op: Op, quiet: seq<Event>)
    requires ValidKernel(k) && Can(k.fs, op) && OfFile(op) && Quiet(quiet)
    ensures var queue := EventsOf(k, op) + quiet;
      forall i :: 0 <= i < |queue| ==> queue[i].Ignored? || ((queue[i].Create? || queue[i].MovedFrom? || queue[i].MovedTo?) && !queue[i].isDir)
  {
    hide ValidKernel; hide Watched; hide Can;
  }
}
