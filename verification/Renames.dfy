/**
 Renames, in all their kinds, and the events they cause: what the handler makes
 of them, and exactly which renames lose the moved directories.
 */
module Renames {
  import opened Options
  import opened Paths
  import opened FileTree
  import opened TreeChanges
  import opened WatchCache
  import opened Inotify
  import opened Handler
  import opened Agreement
  import opened Zapping
  import opened Operations
  import opened Simulation

  /** The rename ends in a directory of the roots' trees. */
  ghost predicate Lands(fs: Tree, loc: Dir) {
    match fs
    case Tree(dirs, _) => Valid(fs) && loc.Sub? && loc.parent in dirs && InTree(fs, loc.parent)
  }

  /** The renamed directory is outside the roots' trees. */
  ghost predicate FromOutside(fs: Tree, op: Op) {
    match fs
    case Tree(dirs, _) => Valid(fs) && op.Rename? && op.d in dirs && !InTree(fs, op.d)
  }

  /** It comes to a free place, or to that of a directory, in the trees. */
  ghost predicate Arrives(fs: Tree, op: Op) {
    match fs
    case Tree(_, _) => FromOutside(fs, op) && Lands(fs, op.loc) && op.replaced.None?
  }

  ghost predicate Replaces(fs: Tree, op: Op) {
    match fs
    case Tree(_, _) => FromOutside(fs, op) && Lands(fs, op.loc) && op.replaced.Some?
  }

  /** A directory of the trees is renamed out of them; it may be a root. */
  ghost predicate Leaves(fs: Tree, op: Op) {
    match fs
    case Tree(dirs, _) => Valid(fs) && op.Rename? && op.d in dirs && InTree(fs, op.d) && !Lands(fs, op.loc)
  }

  /** A directory of the trees, not a root, is renamed within them. */
  ghost predicate Shifts(fs: Tree, op: Op) {
    match fs
    case Tree(dirs, _) => Valid(fs) && op.Rename? && op.d in dirs && InTree(fs, op.d) && dirs[op.d].Sub? && Lands(fs, op.loc)
  }

  /** A root is renamed into the tree of another root. */
  ghost predicate Nests(fs: Tree, op: Op) {
    match fs
    case Tree(dirs, _) => Valid(fs) && op.Rename? && op.d in dirs && InTree(fs, op.d) && dirs[op.d].Root? && Lands(fs, op.loc)
  }

  lemma KindFacts(fs: Tree, op: Op)
    ensures Leaves(fs, op) ==> Valid(fs) && op.Rename? && op.d in fs.dirs && InTree(fs, op.d) && !Lands(fs, op.loc)
    ensures Shifts(fs, op) ==> Valid(fs) && op.Rename? && op.d in fs.dirs && InTree(fs, op.d) && fs.dirs[op.d].Sub? && Lands(fs, op.loc)
    ensures Nests(fs, op) ==> Valid(fs) && op.Rename? && op.d in fs.dirs && InTree(fs, op.d) && fs.dirs[op.d].Root? && Lands(fs, op.loc)
    ensures FromOutside(fs, op) ==> Valid(fs) && op.Rename? && op.d in fs.dirs && !InTree(fs, op.d)
    ensures Arrives(fs, op) ==> FromOutside(fs, op) && Lands(fs, op.loc) && op.replaced.None?
    ensures Replaces(fs, op) ==> FromOutside(fs, op) && Lands(fs, op.loc) && op.replaced.Some?
  {
  }

  /** Where the rename leaves directory `x`. */
  lemma RenamedDir(fs: Tree, op: Op, x: Inode)
    requires Valid(fs) && op.Rename? && Can(fs, op) && x in fs.dirs && Gone(op) != Some(x)
    ensures var fs' := TreeAfter(fs, op);
      && x in fs'.dirs
      && (x == op.d ==> fs'.dirs[x] == op.loc)
      && (x != op.d ==> fs'.dirs[x] == fs.dirs[x])
      && (!Below(fs, x, op.d) ==> InTree(fs', x) == InTree(fs, x) && PathOf(fs', x) == PathOf(fs, x))
      && (Below(fs, x, op.d) ==> InTree(fs', x) == Lands(fs, op.loc))
  {
    var t := Cleared(fs, op);
    var fs' := TreeAfter(fs, op);
    CanMoveCleared(fs, op);
    assert TopOf(t, x) == TopOf(fs, x) && PathOf(t, x) == PathOf(fs, x) && (Below(t, x, op.d) <==> Below(fs, x, op.d)) by {
      SamePaths(fs, t, x, op.d);
    }
    MovedPath(t, fs', op.d, op.loc, x);
    MovedTop(t, fs', op.d, op.loc);
    BelowTop(fs, x);
    if op.loc.Sub? {
      SamePaths(fs, t, op.loc.parent, op.d);
      BelowTop(fs, op.loc.parent);
    }
  }

  lemma RenamedPath(fs: Tree, op: Op)
    requires Valid(fs) && op.Rename? && Can(fs, op) && op.loc.Sub?
    ensures op.d in TreeAfter(fs, op).dirs
    ensures PathOf(TreeAfter(fs, op), op.d) == Join(PathOf(fs, op.loc.parent), op.loc.name)
  {
    var t := Cleared(fs, op);
    CanMoveCleared(fs, op);
    MovedTop(t, TreeAfter(fs, op), op.d, op.loc);
    SamePaths(fs, t, op.loc.parent, op.d);
  }

  /** Within the trees, the rename rewrites every path as the cache does. */
  lemma RenamedInside(fs: Tree, op: Op, x: Inode)
    requires Valid(fs) && op.Rename? && Can(fs, op) && x in fs.dirs && Gone(op) != Some(x)
    requires InTree(fs, op.d) && Lands(fs, op.loc) && InTree(fs, x)
    ensures var fs' := TreeAfter(fs, op);
      x in fs'.dirs && InTree(fs', x) && op.d in fs'.dirs && PathOf(fs', x) == Renamed(PathOf(fs, x), PathOf(fs, op.d), PathOf(fs', op.d))
  {
    var t := Cleared(fs, op);
    var fs' := TreeAfter(fs, op);
    CanMoveCleared(fs, op);
    RenamedDir(fs, op, x);
    SamePaths(fs, t, x, op.d);
    SamePaths(fs, t, op.d, op.d);
    MovedPath(t, fs', op.d, op.loc, x);
    BelowIffPath(fs, x, op.d);
  }

  /** Which directories are in the trees after the rename. */
  lemma RenamedSet(fs: Tree, op: Op)
    requires Valid(fs) && op.Rename? && Can(fs, op)
    ensures var fs' := TreeAfter(fs, op); var rest := Monitored(fs) - Subtree(fs, op.d) - (if op.replaced.Some? then {op.replaced.value} else {});
      Monitored(fs') == rest + (if Lands(fs, op.loc) then Subtree(fs, op.d) else {})
  {
    var fs' := TreeAfter(fs, op);
    TreeAfterDirs(fs, op);
    if op.replaced.Some? { ReplacedNotBelow(fs, op); }
    forall x | x in fs.dirs && Gone(op) != Some(x)
      ensures x in fs'.dirs && InTree(fs', x) == if Below(fs, x, op.d) then Lands(fs, op.loc) else InTree(fs, x)
    {
      RenamedDir(fs, op, x);
    }
    assert op.d in fs.dirs;
    assert op.replaced.Some? ==> op.replaced.value in fs.dirs;
    hide *;
    SetAfter(fs, fs', op.d, op.replaced, Lands(fs, op.loc));
  }

  lemma SetAfter(fs: Tree, fs': Tree, d: Inode, gone: Option<Inode>, lands: bool)
    requires Valid(fs) && Valid(fs') && d in fs.dirs
    requires gone.Some? ==> gone.value in fs.dirs && !Below(fs, gone.value, d)
    requires fs'.dirs.Keys == fs.dirs.Keys - (if gone.Some? then {gone.value} else {})
    requires forall x :: x in fs.dirs && gone != Some(x) ==> x in fs'.dirs && InTree(fs', x) == if Below(fs, x, d) then lands else InTree(fs, x)
    ensures Monitored(fs')
      == Monitored(fs) - Subtree(fs, d) - (if gone.Some? then {gone.value} else {}) + (if lands then Subtree(fs, d) else {})
  {
    hide Valid; hide InTree; hide Below;
    forall x | x in fs'.dirs ensures x in fs.dirs && gone != Some(x) { assert x in fs'.dirs.Keys; }
  }

  lemma ReplacedNotBelow(fs: Tree, op: Op)
    requires Valid(fs) && op.Rename? && Can(fs, op) && op.replaced.Some?
    ensures !Below(fs, op.replaced.value, op.d)
  {
  }

  /** The moved directories are the same before and after. */
  lemma {:induction false} MovedSubtree(fs: Tree, op: Op, x: Inode)
    requires Valid(fs) && op.Rename? && Can(fs, op) && x in TreeAfter(fs, op).dirs
    ensures x in fs.dirs && (Below(TreeAfter(fs, op), x, op.d) <==> Below(fs, x, op.d))
    decreases TreeAfter(fs, op).rank[x]
  {
    var fs' := TreeAfter(fs, op);
    TreeAfterDirs(fs, op);
    assert Placed(fs', x) && Placed(fs, x);
    if x != op.d && fs'.dirs[x].Sub? {
      MovedSubtree(fs, op, fs'.dirs[x].parent);
    }
  }

  // ----- events -----

  /** In agreement, exactly the directories in the trees are watched. */
  lemma WatchedInTree(m: Monitor, d: Inode)
    requires Agree(m) && d in m.k.fs.dirs
    ensures Watched(m.k, d) <==> InTree(m.k.fs, d)
  {
  }

  lemma ParentInTree(fs: Tree, d: Inode)
    requires Valid(fs) && d in fs.dirs && fs.dirs[d].Sub?
    ensures fs.dirs[d].parent in fs.dirs && InTree(fs, fs.dirs[d].parent) == InTree(fs, d)
  {
    assert Placed(fs, d);
  }

  lemma FromShape(m: Monitor, d: Inode, cookie: nat)
    requires Agree(m) && d in m.k.fs.dirs
    ensures FromEvent(m.k, m.k.fs.dirs[d], cookie) != [] <==> m.k.fs.dirs[d].Sub? && InTree(m.k.fs, d)
  {
    if m.k.fs.dirs[d].Sub? {
      ParentInTree(m.k.fs, d);
      WatchedInTree(m, m.k.fs.dirs[d].parent);
    }
  }

  lemma ToShape(m: Monitor, loc: Dir, cookie: nat)
    requires Agree(m) && (loc.Sub? ==> loc.parent in m.k.fs.dirs)
    ensures ToEvent(m.k, loc, cookie) != [] <==> Lands(m.k.fs, loc)
  {
  }

  lemma SelfShape(m: Monitor, d: Inode)
    requires Agree(m) && d in m.k.fs.dirs
    ensures SelfEvent(m.k, d) != [] <==> m.k.fs.dirs[d].Root? && InTree(m.k.fs, d)
  {
  }

  lemma FarewellShape(m: Monitor, e: Inode)
    requires Agree(m) && e in m.k.fs.dirs && m.k.fs.dirs[e].Sub?
    ensures Lands(m.k.fs, m.k.fs.dirs[e]) <==> InTree(m.k.fs, e)
    ensures Farewell(m.k, Some(e)) != [] <==> InTree(m.k.fs, e)
    ensures Watched(m.k, e) <==> InTree(m.k.fs, e)
  {
    ParentInTree(m.k.fs, e);
    WatchedInTree(m, e);
  }

  /** Which events a rename causes. */
  ghost predicate EventsAsExpected(m: Monitor, op: Op)
    requires ValidKernel(m.k) && op.Rename? && Can(m.k.fs, op)
  {
    match m.k
    case Kernel(fs, _, _, _, _) =>
      && (FromEvent(m.k, fs.dirs[op.d], op.cookie) != [] <==> fs.dirs[op.d].Sub? && InTree(fs, op.d))
      && (ToEvent(m.k, op.loc, op.cookie) != [] <==> Lands(fs, op.loc))
      && (SelfEvent(m.k, op.d) != [] <==> fs.dirs[op.d].Root? && InTree(fs, op.d))
      && (Farewell(m.k, op.replaced) != [] <==> op.replaced.Some? && Lands(fs, op.loc))
      && (op.replaced.Some? ==> var e := op.replaced.value;
            (InTree(fs, e) <==> Lands(fs, op.loc)) && (Watched(m.k, e) <==> Lands(fs, op.loc)) && fs.dirs[e].Sub?)
  }

  lemma RenameEvents(m: Monitor, op: Op, walks: map<Inode, seq<Inode>>)
    requires Ready(m, op, walks) && op.Rename?
    ensures EventsAsExpected(m, op)
  {
    hide InTree; hide TreeAfter; hide ValidWalks; hide Below; hide Lands; hide IsEmpty; hide Valid; hide Sound; hide Agree;
    FromShape(m, op.d, op.cookie);
    ToShape(m, op.loc, op.cookie);
    SelfShape(m, op.d);
    if op.replaced.Some? { FarewellShape(m, op.replaced.value); }
    hide FromEvent; hide ToEvent; hide SelfEvent;
  }

  lemma EventsInOrder(k: Kernel, op: Op)
    requires ValidKernel(k) && Can(k.fs, op) && op.Rename? && op.d in k.fs.dirs
    ensures EventsOf(k, op)
      == FromEvent(k, k.fs.dirs[op.d], op.cookie) + ToEvent(k, op.loc, op.cookie) + SelfEvent(k, op.d) + Farewell(k, op.replaced)
  {
    hide ValidKernel; hide FromEvent; hide ToEvent; hide SelfEvent; hide Farewell;
  }

  /** What RenameEvents says, piece by piece. */
  lemma ExpectedFacts(m: Monitor, op: Op)
    requires ValidKernel(m.k) && op.Rename? && Can(m.k.fs, op) && EventsAsExpected(m, op)
    ensures var fs := m.k.fs; Valid(fs) && op.d in fs.dirs
    ensures var fs := m.k.fs;
      && (!(fs.dirs[op.d].Sub? && InTree(fs, op.d)) ==> FromEvent(m.k, fs.dirs[op.d], op.cookie) == [])
      && (!Lands(fs, op.loc) ==> ToEvent(m.k, op.loc, op.cookie) == [])
      && (!(fs.dirs[op.d].Root? && InTree(fs, op.d)) ==> SelfEvent(m.k, op.d) == [])
      && (!(op.replaced.Some? && Lands(fs, op.loc)) ==> Farewell(m.k, op.replaced) == [])
      && (op.replaced.Some? ==> var e := op.replaced.value;
            e in fs.dirs && fs.dirs[e] == op.loc && fs.dirs[e].Sub? && (InTree(fs, e) <==> Lands(fs, op.loc)) && (Watched(m.k, e) <==> Lands(fs, op.loc)))
  {
    hide FromEvent; hide ToEvent; hide SelfEvent; hide Farewell; hide InTree; hide Lands; hide Below; hide Valid; hide ValidWalks; hide ValidWatches;
  }

  lemma EndedIs(m: Monitor, op: Op, walks: map<Inode, seq<Inode>>)
    requires Ready(m, op, walks)
    ensures ValidKernel(m.k) && Can(m.k.fs, op)
    ensures Changed(m, op, walks) == m.(k := EndWatches(m.k.(fs := TreeAfter(m.k.fs, op), walks := walks), Ended(m.k, op)))
    ensures op.Rename? && (op.replaced.Some? ==> !Watched(m.k, op.replaced.value)) ==> Ended(m.k, op) == {}
    ensures op.Rename? && op.replaced.Some? && Watched(m.k, op.replaced.value) ==> Ended(m.k, op) == {Wd(m.k, op.replaced.value)}
  {
  }

  lemma NothingEnds(m: Monitor, op: Op, walks: map<Inode, seq<Inode>>)
    requires Ready(m, op, walks) && op.Rename? && (op.replaced.Some? ==> !Lands(m.k.fs, op.loc))
    ensures Changed(m, op, walks) == m.(k := m.k.(fs := TreeAfter(m.k.fs, op), walks := walks))
  {
    hide *;
    ReadyFacts(m, op, walks);
    RenameEvents(m, op, walks);
    ExpectedFacts(m, op);
    EndedIs(m, op, walks);
    EndNone(m.k.(fs := TreeAfter(m.k.fs, op), walks := walks));
  }

  lemma ReplacedEnds(m: Monitor, op: Op, walks: map<Inode, seq<Inode>>)
    requires Ready(m, op, walks) && op.Rename? && op.replaced.Some? && Lands(m.k.fs, op.loc)
    ensures Watched(m.k, op.replaced.value)
    ensures Changed(m, op, walks)
      == m.(k := EndWatches(m.k.(fs := TreeAfter(m.k.fs, op), walks := walks), {Wd(m.k, op.replaced.value)}))
  {
    hide *;
    ReadyFacts(m, op, walks);
    RenameEvents(m, op, walks);
    ExpectedFacts(m, op);
    EndedIs(m, op, walks);
  }

  // ----- a directory from outside the trees is renamed -----

  lemma OutsiderElsewhere(m: Monitor, op: Op, walks: map<Inode, seq<Inode>>, x: Inode)
    requires Ready(m, op, walks) && FromOutside(m.k.fs, op) && Watched(m.k, x) && Gone(op) != Some(x)
    ensures var fs := m.k.fs; var fs' := TreeAfter(fs, op);
      x in fs.dirs && x in fs'.dirs && fs'.dirs[x] == fs.dirs[x] && InTree(fs', x) && PathOf(fs', x) == PathOf(fs, x)
  {
    var fs := m.k.fs;
    WatchedInTree(m, x);
    RenamedDir(fs, op, x);
    if Below(fs, x, op.d) { BelowSameTop(fs, x, op.d); }
  }

  lemma OutsiderSynced(m: Monitor, op: Op, walks: map<Inode, seq<Inode>>)
    requires Ready(m, op, walks) && FromOutside(m.k.fs, op) && (op.replaced.Some? ==> !Lands(m.k.fs, op.loc))
    ensures SyncedOn(Changed(m, op, walks), Monitored(m.k.fs))
    ensures Monitored(TreeAfter(m.k.fs, op)) == Monitored(m.k.fs) + (if Lands(m.k.fs, op.loc) then Subtree(m.k.fs, op.d) else {})
  {
    var fs := m.k.fs;
    NothingEnds(m, op, walks);
    RenameEvents(m, op, walks);
    forall w | w in m.k.watches ensures var d := m.k.watches[w]; var fs' := TreeAfter(fs, op);
        d in fs'.dirs && fs'.dirs[d] == fs.dirs[d] && InTree(fs', d) && PathOf(fs', d) == PathOf(fs, d)
    {
      assert Watched(m.k, m.k.watches[w]);
      if op.replaced.Some? { WatchedInTree(m, op.replaced.value); }
      OutsiderElsewhere(m, op, walks, m.k.watches[w]);
    }
    StillSynced(m, TreeAfter(fs, op), walks);
    RenamedSet(fs, op);
    OutsiderApart(fs, op.d);
    hide Changed; hide Valid; hide ValidWalks; hide InTree; hide TreeAfter; hide Synced; hide Subtree; hide Lands; hide RootsApart; hide RootsListed;
  }

  lemma OutsiderApart(fs: Tree, d: Inode)
    requires Valid(fs) && d in fs.dirs && !InTree(fs, d)
    ensures Monitored(fs) !! Subtree(fs, d)
  {
    forall x | x in Subtree(fs, d) ensures x !in Monitored(fs) { BelowSameTop(fs, x, d); }
  }

  lemma OutsiderStaysOut(m: Monitor, op: Op, walks: map<Inode, seq<Inode>>)
    requires Ready(m, op, walks) && FromOutside(m.k.fs, op) && !Lands(m.k.fs, op.loc)
    ensures Settled(After(m, op, walks))
  {
    OutsiderSynced(m, op, walks);
    ChangedSound(m, op, walks);
    RenameEvents(m, op, walks);
    assert EventsOf(m.k, op) == [];
    NothingEnds(m, op, walks);
    hide Valid; hide ValidWalks; hide InTree; hide TreeAfter; hide Synced; hide RootsApart; hide RootsListed; hide KernelAfter; hide Sound; hide EventsOf;
    hide Monitored; hide Subtree; hide Lands; hide ValidKernel;
  }

  /** The renamed directory's new path, if it lands in the trees. */
  ghost function NewPath(fs: Tree, loc: Dir): string
    requires Lands(fs, loc)
  {
    Join(PathOf(fs, loc.parent), loc.name)
  }

  lemma ArrivalUncached(m: Monitor, op: Op, walks: map<Inode, seq<Inode>>)
    requires Ready(m, op, walks) && op.Rename? && op.replaced.None? && Lands(m.k.fs, op.loc)
    ensures FindPath(m.slots, NewPath(m.k.fs, op.loc)) == -1
  {
    var fs := m.k.fs;
    forall x | Watched(m.k, x) && x in fs.dirs ensures PathOf(fs, x) != NewPath(fs, op.loc) {
      WatchedInTree(m, x);
      EntryPath(fs, x, op.loc);
    }
    Uncached(m, NewPath(fs, op.loc));
  }

  /** A directory of the trees has the path of an entry only if it is that entry. */
  lemma EntryPath(fs: Tree, x: Inode, loc: Dir)
    requires Valid(fs) && x in fs.dirs && InTree(fs, x) && Lands(fs, loc) && GoodName(loc.name)
    ensures PathOf(fs, x) == NewPath(fs, loc) <==> fs.dirs[x] == loc
  {
    if PathOf(fs, x) == NewPath(fs, loc) {
      JoinBelow(PathOf(fs, loc.parent), loc.name, PathOf(fs, loc.parent));
      assert Placed(fs, x);
      if fs.dirs[x].Root? {
        RootPathMinimal(fs, x, loc.parent);
        assert false;
      } else {
        JoinInjective(PathOf(fs, fs.dirs[x].parent), fs.dirs[x].name, PathOf(fs, loc.parent), loc.name);
        PathInjective(fs, fs.dirs[x].parent, loc.parent);
      }
    }
  }

  lemma ProcessArrival(m: Monitor, queue: seq<Event>, path: string)
    requires ValidKernel(m.k) && queue != [] && queue[0].MovedTo? && queue[0].isDir
    requires FindWatch(m.slots, queue[0].wd) >= 0 && m.slots[FindWatch(m.slots, queue[0].wd)].path == path
    ensures Process(m, queue, false) == Appeared(m, Join(path, queue[0].name))
  {
    hide ValidKernel; hide Appeared; hide Follows;
  }

  lemma ArrivalHandled(m: Monitor, op: Op, walks: map<Inode, seq<Inode>>, queue: seq<Event>)
    requires Ready(m, op, walks) && op.Rename? && Lands(m.k.fs, op.loc)
    requires queue != [] && [queue[0]] == ToEvent(m.k, op.loc, op.cookie)
    ensures ValidKernel(Changed(m, op, walks).k)
    ensures Process(Changed(m, op, walks), queue, false) == Appeared(Changed(m, op, walks), NewPath(m.k.fs, op.loc))
  {
    ChangedSound(m, op, walks);
    WatchedInTree(m, op.loc.parent);
    Seen(m, op.loc.parent);
    assert Changed(m, op, walks).slots == m.slots;
    assert queue[0] == MovedTo(Wd(m.k, op.loc.parent), op.cookie, op.loc.name, true);
    hide ValidKernel; hide Synced; hide Agree; hide PathOf; hide Process; hide Appeared; hide Can; hide InTree; hide Changed; hide Ready; hide Wd;
    hide TreeAfter;
    ProcessArrival(Changed(m, op, walks), queue, PathOf(m.k.fs, op.loc.parent));
  }

  lemma SubtreeKept(fs: Tree, op: Op)
    requires Valid(fs) && op.Rename? && Can(fs, op)
    ensures Subtree(TreeAfter(fs, op), op.d) == Subtree(fs, op.d)
  {
    var fs' := TreeAfter(fs, op);
    forall x | x in fs'.dirs ensures x in fs.dirs && (Below(fs', x, op.d) <==> Below(fs, x, op.d)) { MovedSubtree(fs, op, x); }
    if op.replaced.Some? { ReplacedNotBelow(fs, op); }
    TreeAfterDirs(fs, op);
    hide Valid; hide Below; hide TreeAfter; hide Can;
  }

  /** The moved directory is found under its new path. */
  lemma MovedResolves(fs: Tree, op: Op)
    requires Valid(fs) && op.Rename? && Can(fs, op) && Lands(fs, op.loc)
    ensures Resolve(TreeAfter(fs, op), NewPath(fs, op.loc)) == Some(op.d)
  {
    RenamedPath(fs, op);
    RenamedDir(fs, op, op.d);
    ResolvePath(TreeAfter(fs, op), op.d);
  }

  lemma ArrivalWatched(m: Monitor, op: Op, walks: map<Inode, seq<Inode>>)
    requires Ready(m, op, walks) && Arrives(m.k.fs, op)
    ensures Sound(Changed(m, op, walks)) && !Changed(m, op, walks).exited
    ensures Settled(WatchSubtree(Changed(m, op, walks), NewPath(m.k.fs, op.loc)))
  {
    var m' := Changed(m, op, walks);
    var full := NewPath(m.k.fs, op.loc);
    OutsiderSynced(m, op, walks);
    ChangedSound(m, op, walks);
    NothingEnds(m, op, walks);
    SubtreeKept(m.k.fs, op);
    MovedResolves(m.k.fs, op);
    hide ValidKernel; hide RootsApart; hide RootsListed; hide Synced; hide WatchSubtree; hide PathOf; hide Monitored; hide Subtree; hide Changed;
    hide Resolve; hide InTree; hide Lands; hide TreeAfter; hide Can; hide Sound;
    WatchSubtreeSynced(m', full);
    SoundKept(m', WatchSubtree(m', full));
  }

  lemma OutsiderEvent(m: Monitor, op: Op, walks: map<Inode, seq<Inode>>)
    requires Ready(m, op, walks) && Arrives(m.k.fs, op)
    ensures EventsOf(m.k, op) == ToEvent(m.k, op.loc, op.cookie) && |EventsOf(m.k, op)| == 1
  {
    hide *;
    ReadyFacts(m, op, walks);
    KindFacts(m.k.fs, op);
    RenameEvents(m, op, walks);
    ExpectedFacts(m, op);
    EventsInOrder(m.k, op);
    TargetEntry(m, op);
  }

  lemma OutsiderArrives(m: Monitor, op: Op, walks: map<Inode, seq<Inode>>)
    requires Ready(m, op, walks) && Arrives(m.k.fs, op)
    ensures Settled(After(m, op, walks))
  {
    hide *;
    ReadyFacts(m, op, walks);
    KindFacts(m.k.fs, op);
    var m' := Changed(m, op, walks);
    var queue := EventsOf(m.k, op);
    OutsiderEvent(m, op, walks);
    ArrivalUncached(m, op, walks);
    ArrivalHandled(m, op, walks, queue);
    ArrivalWatched(m, op, walks);
    UncachedArrival(m', NewPath(m.k.fs, op.loc));
    ArrivalDrained(m', queue, Outcome(WatchSubtree(m', NewPath(m.k.fs, op.loc)), Took(1), []));
  }

  lemma UncachedArrival(m: Monitor, path: string)
    requires ValidKernel(m.k) && FindPath(m.slots, path) == -1
    ensures Appeared(m, path) == Outcome(WatchSubtree(m, path), Took(1), [])
    ensures WatchSubtree(m, path).exited == m.exited
  {
    hide WatchAll; hide ValidKernel;
  }

  lemma ArrivalDrained(m: Monitor, queue: seq<Event>, o: Outcome)
    requires ValidKernel(m.k) && !m.exited && |queue| == 1 && o == Process(m, queue, false)
    requires o.verdict == Took(1) && o.emitted == [] && Settled(o.m) && !o.m.exited
    ensures Settled(Drain(System(m, queue)).m)
  {
    hide Process; hide ValidKernel; hide Drain; hide Settled;
    DrainLast(m, queue, o);
  }

  // ----- a directory from outside replaces an empty directory of the trees -----

  /** The replaced directory's slot, still cached, has the path at which the newcomer arrives. */
  lemma ReplacedStale(m: Monitor, op: Op, walks: map<Inode, seq<Inode>>)
    requires Ready(m, op, walks) && Replaces(m.k.fs, op)
    ensures Watched(m.k, op.replaced.value)
    ensures var m' := Changed(m, op, walks); var w := Wd(m.k, op.replaced.value);
      Stale(m', w) && View(m'.slots)[w] == NewPath(m.k.fs, op.loc) && FindRoot(m'.roots, View(m'.slots)[w]) == -1
  {
    var e := op.replaced.value;
    var fs := m.k.fs;
    RenameEvents(m, op, walks);
    ReplacedEnds(m, op, walks);
    forall x | x in fs.dirs && Watched(m.k, x) && x != e ensures var fs' := TreeAfter(fs, op);
        x in fs'.dirs && fs'.dirs[x] == fs.dirs[x] && InTree(fs', x) && PathOf(fs', x) == PathOf(fs, x)
    {
      OutsiderElsewhere(m, op, walks, x);
    }
    EndedStale(m, TreeAfter(fs, op), walks, e);
    NotARoot(m, e);
    assert Changed(m, op, walks).roots == m.roots;
    hide Changed; hide Stale; hide FindRoot; hide View; hide InTree; hide TreeAfter; hide Valid; hide ValidWalks;
  }

  lemma NotARoot(m: Monitor, e: Inode)
    requires Sound(m) && Agree(m) && Watched(m.k, e) && e in m.k.fs.dirs && m.k.fs.dirs[e].Sub?
    ensures FindRoot(m.roots, PathOf(m.k.fs, e)) == -1
  {
    WatchedInTree(m, e);
    OnlyRootsListed(m.k.fs, m.roots, e);
  }

  lemma BereftOfSub(m: Monitor, w: nat)
    requires Stale(m, w) && !m.exited && FindRoot(m.roots, View(m.slots)[w]) == -1
    ensures Drain(System(m, [DeleteSelf(w), Ignored(w)])).m.k == m.k
    ensures !Drain(System(m, [DeleteSelf(w), Ignored(w)])).m.exited
  {
    StaleEmptied(m, w);
    FarewellHandled(m, w, [DeleteSelf(w), Ignored(w)]);
    hide Drain; hide Stale; hide View; hide MarkEmpty;
  }

  /**
   The newcomer is taken for the directory it replaced, whose slot is then
   cleared: it stays unwatched.
   */
  lemma OutsiderReplaces(m: Monitor, op: Op, walks: map<Inode, seq<Inode>>)
    requires Ready(m, op, walks) && Replaces(m.k.fs, op)
    ensures !Settled(After(m, op, walks))
  {
    hide *;
    ReadyFacts(m, op, walks);
    KindFacts(m.k.fs, op);
    var m' := Changed(m, op, walks);
    var queue := EventsOf(m.k, op);
    ReplacedStale(m, op, walks);
    var w := Wd(m.k, op.replaced.value);
    ReplacingEvents(m, op, walks);
    ArrivalHandled(m, op, walks, queue);
    ArrivalCached(m', w, NewPath(m.k.fs, op.loc));
    StaysUnwatched(m, op, walks);
    CachedThenCleared(m', queue, w);
    UnwatchedUnsettled(Drain(System(m', queue)).m, op.d);
  }

  lemma CachedThenCleared(m: Monitor, queue: seq<Event>, w: nat)
    requires Stale(m, w) && !m.exited && FindRoot(m.roots, View(m.slots)[w]) == -1
    requires |queue| == 3 && queue[1..] == [DeleteSelf(w), Ignored(w)] && Process(m, queue, false) == Outcome(m, Took(1), [])
    ensures Drain(System(m, queue)).m.k == m.k && !Drain(System(m, queue)).m.exited
  {
    DrainStep(m, queue);
    BereftOfSub(m, w);
    hide Process; hide Stale; hide View; hide Drain;
    assert queue[1..] + [] == [DeleteSelf(w), Ignored(w)];
  }

  lemma ReplacedAt(fs: Tree, op: Op)
    requires Valid(fs) && op.Rename? && op.replaced.Some? && Lands(fs, op.loc)
    requires op.replaced.value in fs.dirs && fs.dirs[op.replaced.value] == op.loc
    ensures PathOf(fs, op.replaced.value) == NewPath(fs, op.loc)
  {
  }

  lemma ReplacingEvents(m: Monitor, op: Op, walks: map<Inode, seq<Inode>>)
    requires Ready(m, op, walks) && Replaces(m.k.fs, op)
    ensures var e := op.replaced.value;
      && Watched(m.k, e) && e in m.k.fs.dirs && m.k.fs.dirs[e].Sub? && PathOf(m.k.fs, e) == NewPath(m.k.fs, op.loc)
      && |EventsOf(m.k, op)| == 3 && [EventsOf(m.k, op)[0]] == ToEvent(m.k, op.loc, op.cookie)
      && EventsOf(m.k, op)[1..] == [DeleteSelf(Wd(m.k, e)), Ignored(Wd(m.k, e))]
  {
    hide *;
    ReadyFacts(m, op, walks);
    KindFacts(m.k.fs, op);
    RenameEvents(m, op, walks);
    ExpectedFacts(m, op);
    EventsInOrder(m.k, op);
    TargetEntry(m, op);
    FarewellOf(m.k, op.replaced);
    ReplacedAt(m.k.fs, op);
  }

  lemma ArrivalCached(m: Monitor, w: nat, path: string)
    requires Stale(m, w) && View(m.slots)[w] == path
    ensures Appeared(m, path) == Outcome(m, Took(1), [])
  {
  }

  lemma StaysUnwatched(m: Monitor, op: Op, walks: map<Inode, seq<Inode>>)
    requires Ready(m, op, walks) && Replaces(m.k.fs, op)
    ensures var m' := Changed(m, op, walks);
      ValidKernel(m'.k) && !m'.exited && op.d in m'.k.fs.dirs && InTree(m'.k.fs, op.d) && !Watched(m'.k, op.d)
  {
    ChangedSound(m, op, walks);
    RenamedDir(m.k.fs, op, op.d);
    WatchedInTree(m, op.d);
    assert forall w :: w in m.k.watches ==> m.k.watches[w] != op.d;
  }

  lemma UnwatchedUnsettled(m: Monitor, d: Inode)
    requires ValidKernel(m.k) && !m.exited && d in m.k.fs.dirs && InTree(m.k.fs, d) && !Watched(m.k, d)
    ensures !Settled(m)
  {
  }

  // ----- a directory leaves the trees -----

  /** Where only watches on directories of `ws` changed, dropping those keeps the rest in step. */
  lemma DroppedPaired(fs: Tree, fs': Tree, view: map<int, string>, watches: map<int, Inode>, ws: set<int>)
    requires Valid(fs) && Valid(fs') && Paired(fs, view, watches)
    requires forall w :: w in watches && w !in ws ==>
      var x := watches[w]; x in fs'.dirs && InTree(fs', x) && PathOf(fs', x) == PathOf(fs, x)
    ensures Paired(fs', view - ws, watches - ws)
  {
    hide Valid; hide InTree; hide PathOf;
  }

  lemma DroppedFlagged(fs: Tree, fs': Tree, watches: map<int, Inode>, moveSelf: set<int>, ws: set<int>)
    requires Flagged(fs, watches, moveSelf)
    requires forall w :: w in watches && w !in ws ==> var x := watches[w]; x in fs.dirs && x in fs'.dirs && fs'.dirs[x].Root? == fs.dirs[x].Root?
    ensures Flagged(fs', watches - ws, moveSelf - ws)
  {
  }

  lemma DroppedValues(watches: map<int, Inode>, ws: set<int>, gone: set<Inode>)
    requires forall w :: w in watches ==> (w in ws <==> watches[w] in gone)
    ensures (watches - ws).Values == watches.Values - gone
  {
    var after := watches - ws;
    forall e | e in watches.Values && e !in gone ensures e in after.Values {
      var w := WatchOn(watches, e);
      assert after[w] == e;
    }
    forall w | w in after ensures after[w] in watches.Values && after[w] !in gone { assert after[w] == watches[w]; }
  }

  /** The cached paths at or below a directory's path are those of its subtree. */
  lemma HitsAreBelow(m: Monitor, d: Inode)
    requires Synced(m) && d in m.k.fs.dirs && InTree(m.k.fs, d)
    ensures forall w :: w in m.k.watches ==>
      m.k.watches[w] in m.k.fs.dirs && (w in Hits(m.slots, PathOf(m.k.fs, d)) <==> Below(m.k.fs, m.k.watches[w], d))
    ensures Hits(m.slots, PathOf(m.k.fs, d)) <= m.k.watches.Keys
  {
    HitsInView(m.slots, PathOf(m.k.fs, d));
    hide Hits; hide Valid; hide ValidWalks; hide View; hide WellFormed; hide Flagged; hide PathOf; hide InTree; hide Below;
    forall w | w in m.k.watches ensures w in Hits(m.slots, PathOf(m.k.fs, d)) <==> Below(m.k.fs, m.k.watches[w], d) {
      BelowIffPath(m.k.fs, m.k.watches[w], d);
    }
  }

  lemma LeaverElsewhere(fs: Tree, op: Op, x: Inode)
    requires Valid(fs) && Can(fs, op) && Leaves(fs, op) && x in fs.dirs && InTree(fs, x) && !Below(fs, x, op.d)
    ensures var fs' := TreeAfter(fs, op); x in fs'.dirs && fs'.dirs[x] == fs.dirs[x] && InTree(fs', x) && PathOf(fs', x) == PathOf(fs, x)
  {
    if Gone(op) == Some(x) { ParentInTree(fs, x); }
    RenamedDir(fs, op, x);
  }

  /** The watches that stay when `d` leaves are in step with the new trees. */
  lemma RestInStep(m: Monitor, op: Op, walks: map<Inode, seq<Inode>>)
    requires Ready(m, op, walks) && Leaves(m.k.fs, op)
    ensures var fs' := TreeAfter(m.k.fs, op); var ws := Hits(m.slots, PathOf(m.k.fs, op.d));
      && ws <= m.k.watches.Keys
      && Paired(fs', View(m.slots) - ws, m.k.watches - ws)
      && Flagged(fs', m.k.watches - ws, m.k.moveSelf - ws)
      && (m.k.watches - ws).Values == Monitored(fs')
  {
    var fs := m.k.fs;
    var fs' := TreeAfter(fs, op);
    var ws := Hits(m.slots, PathOf(fs, op.d));
    HitsAreBelow(m, op.d);
    forall w | w in m.k.watches && w !in ws ensures var x := m.k.watches[w];
      x in fs.dirs && x in fs'.dirs && fs'.dirs[x] == fs.dirs[x] && InTree(fs', x) && PathOf(fs', x) == PathOf(fs, x)
    {
      assert Watched(m.k, m.k.watches[w]);
      WatchedInTree(m, m.k.watches[w]);
      LeaverElsewhere(fs, op, m.k.watches[w]);
    }
    LeaverSet(m, op, walks);
    hide Valid; hide ValidWalks; hide RootsListed; hide RootsApart; hide InTree; hide PathOf; hide TreeAfter; hide Below; hide Hits; hide View;
    DroppedPaired(fs, fs', View(m.slots), m.k.watches, ws);
    DroppedFlagged(fs, fs', m.k.watches, m.k.moveSelf, ws);
    DroppedValues(m.k.watches, ws, Subtree(fs, op.d));
  }

  lemma LeaverSet(m: Monitor, op: Op, walks: map<Inode, seq<Inode>>)
    requires Ready(m, op, walks) && Leaves(m.k.fs, op)
    ensures Monitored(TreeAfter(m.k.fs, op)) == m.k.watches.Values - Subtree(m.k.fs, op.d)
  {
    RenamedSet(m.k.fs, op);
    RenameEvents(m, op, walks);
    hide Valid; hide ValidWalks; hide RootsListed; hide RootsApart; hide TreeAfter; hide Subtree; hide Synced; hide FromEvent; hide ToEvent; hide SelfEvent;
  }

  /** Zapping the leaver's old path leaves agreement; roots may have changed before. */
  lemma LeaverZapped(m: Monitor, op: Op, walks: map<Inode, seq<Inode>>, x: Monitor)
    requires Ready(m, op, walks) && Leaves(m.k.fs, op) && x.k == Changed(m, op, walks).k && x.slots == m.slots
    ensures ValidKernel(x.k)
    ensures var o := Left(x, PathOf(m.k.fs, op.d));
      && o.verdict == Took(1) && Quiet(o.emitted) && Agree(o.m) && o.m.k.fs == x.k.fs
      && o.m.roots == x.roots && o.m.ignored == x.ignored && o.m.exited == x.exited
  {
    ChangedSound(m, op, walks);
    NothingEnds(m, op, walks);
    RestInStep(m, op, walks);
    var path := PathOf(m.k.fs, op.d);
    hide Valid; hide ValidWalks; hide TreeAfter; hide Hits; hide View; hide PathOf; hide Changed; hide Paired; hide Flagged; hide RootsListed;
    hide RootsApart; hide Monitored; hide Can; hide Quiet; hide Leaves; hide Reinitialize; hide ZapSubtree; hide ValidWatches;
    ZapExact(x, path);
  }

  lemma ProcessDeparture(m: Monitor, queue: seq<Event>, path: string)
    requires ValidKernel(m.k) && queue != [] && queue[0].MovedFrom? && queue[0].isDir
    requires FindWatch(m.slots, queue[0].wd) >= 0 && m.slots[FindWatch(m.slots, queue[0].wd)].path == path
    requires |queue| == 1 || !queue[1].MovedTo? || queue[1].cookie != queue[0].cookie
    ensures Process(m, queue, false) == Left(m, Join(path, queue[0].name))
  {
    hide ValidKernel; hide Left; hide Follows;
  }

  /** The entry that a directory of the trees is renamed from: watched, cached, and named by the event. */
  lemma SourceEntry(m: Monitor, op: Op)
    requires Agree(m) && op.Rename? && op.d in m.k.fs.dirs && InTree(m.k.fs, op.d) && m.k.fs.dirs[op.d].Sub?
    ensures var fs := m.k.fs; var p := fs.dirs[op.d].parent;
      && Watched(m.k, p) && p in fs.dirs
      && FromEvent(m.k, fs.dirs[op.d], op.cookie) == [MovedFrom(Wd(m.k, p), op.cookie, fs.dirs[op.d].name, true)]
      && PathOf(fs, op.d) == Join(PathOf(fs, p), fs.dirs[op.d].name)
      && FindWatch(m.slots, Wd(m.k, p)) >= 0 && m.slots[FindWatch(m.slots, Wd(m.k, p))].path == PathOf(fs, p)
  {
    ParentInTree(m.k.fs, op.d);
    WatchedInTree(m, m.k.fs.dirs[op.d].parent);
    Seen(m, m.k.fs.dirs[op.d].parent);
  }

  lemma DepartureEvent(m: Monitor, op: Op, walks: map<Inode, seq<Inode>>)
    requires Ready(m, op, walks) && Leaves(m.k.fs, op) && m.k.fs.dirs[op.d].Sub?
    ensures EventsOf(m.k, op) == FromEvent(m.k, m.k.fs.dirs[op.d], op.cookie)
  {
    hide *;
    ReadyFacts(m, op, walks);
    KindFacts(m.k.fs, op);
    RenameEvents(m, op, walks);
    ExpectedFacts(m, op);
    EventsInOrder(m.k, op);
  }

  lemma DepartureHandled(m: Monitor, op: Op, walks: map<Inode, seq<Inode>>)
    requires Ready(m, op, walks) && Leaves(m.k.fs, op) && m.k.fs.dirs[op.d].Sub?
    ensures ValidKernel(Changed(m, op, walks).k) && |EventsOf(m.k, op)| == 1
    ensures Process(Changed(m, op, walks), EventsOf(m.k, op), false) == Left(Changed(m, op, walks), PathOf(m.k.fs, op.d))
  {
    hide *;
    ReadyFacts(m, op, walks);
    KindFacts(m.k.fs, op);
    DepartureEvent(m, op, walks);
    SourceEntry(m, op);
    ProcessDeparture(Changed(m, op, walks), EventsOf(m.k, op), PathOf(m.k.fs, m.k.fs.dirs[op.d].parent));
  }

  /** A directory that leaves the trees is zapped with all below it. */
  lemma SubLeaves(m: Monitor, op: Op, walks: map<Inode, seq<Inode>>)
    requires Ready(m, op, walks) && Leaves(m.k.fs, op) && m.k.fs.dirs[op.d].Sub?
    ensures Settled(After(m, op, walks))
  {
    hide *;
    ReadyFacts(m, op, walks);
    KindFacts(m.k.fs, op);
    ChangedSound(m, op, walks);
    var m' := Changed(m, op, walks);
    DepartureHandled(m, op, walks);
    LeaverZapped(m, op, walks, m');
    var o := Left(m', PathOf(m.k.fs, op.d));
    OneEventLeft(m', EventsOf(m.k, op), o);
    SameRootsSound(m', o.m);
    AgreeSettles(o.m);
  }

  lemma OneEventLeft(m: Monitor, queue: seq<Event>, o: Outcome)
    requires ValidKernel(m.k) && !m.exited && |queue| == 1 && o == Process(m, queue, false)
    requires o.verdict == Took(1) && !o.m.exited && Quiet(o.emitted)
    ensures Drain(System(m, queue)).m == o.m
  {
    hide Process; hide ValidKernel; hide Drain;
    assert queue[1..] + o.emitted == o.emitted;
    DrainLast(m, queue, o);
  }

  lemma SameRootsSound(m: Monitor, m': Monitor)
    requires Sound(m) && Agree(m') && m'.k.fs == m.k.fs && m'.roots == m.roots && m'.ignored == m.ignored
    ensures Sound(m')
  {
    hide Valid; hide ValidWalks; hide RootsApart; hide RootsListed; hide Nones; hide Monitored; hide View; hide WellFormed; hide Paired; hide Flagged;
  }

  lemma AgreeSettles(m: Monitor)
    requires Sound(m) && Agree(m) && !m.exited
    ensures Settled(m)
  {
  }

  // ----- a root leaves -----

  lemma RootSelfEvent(m: Monitor, d: Inode)
    requires Agree(m) && Watched(m.k, d) && d in m.k.fs.dirs && m.k.fs.dirs[d].Root?
    ensures SelfEvent(m.k, d) == [MoveSelf(Wd(m.k, d))]
  {
  }

  lemma RootEvent(m: Monitor, op: Op, walks: map<Inode, seq<Inode>>)
    requires Ready(m, op, walks) && Leaves(m.k.fs, op) && m.k.fs.dirs[op.d].Root?
    ensures Watched(m.k, op.d) && EventsOf(m.k, op) == [MoveSelf(Wd(m.k, op.d))]
  {
    hide *;
    ReadyFacts(m, op, walks);
    KindFacts(m.k.fs, op);
    RenameEvents(m, op, walks);
    ExpectedFacts(m, op);
    EventsInOrder(m.k, op);
    WatchedInTree(m, op.d);
    RootSelfEvent(m, op.d);
  }

  lemma ProcessRootMove(m: Monitor, queue: seq<Event>, path: string)
    requires ValidKernel(m.k) && !m.exited && queue != [] && queue[0].MoveSelf?
    requires FindWatch(m.slots, queue[0].wd) >= 0 && m.slots[FindWatch(m.slots, queue[0].wd)].path == path && FindRoot(m.roots, path) >= 0
    ensures var m' := ZapRoot(m, path);
      Process(m, queue, false) == if m'.exited then Outcome(m', Discard, []) else Left(m', path)
  {
    hide ValidKernel; hide Left; hide Follows;
  }

  lemma RootIsListed(m: Monitor, d: Inode)
    requires Sound(m) && d in m.k.fs.dirs && m.k.fs.dirs[d].Root?
    ensures InTree(m.k.fs, d) && FindRoot(m.roots, PathOf(m.k.fs, d)) >= 0
  {
  }

  lemma RootMoveHandled(m: Monitor, op: Op, walks: map<Inode, seq<Inode>>, queue: seq<Event>)
    requires Ready(m, op, walks) && op.Rename? && op.d in m.k.fs.dirs && m.k.fs.dirs[op.d].Root?
    requires Watched(m.k, op.d) && queue != [] && queue[0] == MoveSelf(Wd(m.k, op.d))
    ensures ValidKernel(Changed(m, op, walks).k)
    ensures var path := PathOf(m.k.fs, op.d); var m' := ZapRoot(Changed(m, op, walks), path);
      && FindRoot(m.roots, path) >= 0
      && Process(Changed(m, op, walks), queue, false) == if m'.exited then Outcome(m', Discard, []) else Left(m', path)
  {
    ReadyFacts(m, op, walks);
    RootIsListed(m, op.d);
    Seen(m, op.d);
    hide ValidKernel; hide Synced; hide Agree; hide PathOf; hide Process; hide Left; hide Can; hide InTree; hide Changed; hide Ready; hide Wd; hide ZapRoot;
    hide TreeAfter; hide EventsOf; hide Sound; hide Valid; hide FindRoot;
    ProcessRootMove(Changed(m, op, walks), queue, PathOf(m.k.fs, op.d));
  }

  lemma RootGone(fs: Tree, op: Op)
    requires Valid(fs) && Can(fs, op) && op.Rename? && op.d in fs.dirs && fs.dirs[op.d].Root?
    ensures var fs' := TreeAfter(fs, op);
      forall e {:trigger fs'.dirs[e]} :: e in fs'.dirs && fs'.dirs[e].Root? ==> fs'.dirs[e].path != PathOf(fs, op.d)
  {
    OtherRootsPaths(fs, op.d);
    var fs' := TreeAfter(fs, op);
    assert forall e {:trigger fs'.dirs[e]} :: e in fs'.dirs && fs'.dirs[e].Root? ==> e != op.d && e in fs.dirs && fs'.dirs[e] == fs.dirs[e];
  }

  lemma RootGoneListed(m: Monitor, op: Op, walks: map<Inode, seq<Inode>>)
    requires Ready(m, op, walks) && op.Rename? && op.d in m.k.fs.dirs && m.k.fs.dirs[op.d].Root?
    ensures var m' := ZapRoot(Changed(m, op, walks), PathOf(m.k.fs, op.d));
      && m'.k == Changed(m, op, walks).k && m'.slots == m.slots
      && Sound(m') && (m'.exited <==> NoRootsLeft(m'.roots))
  {
    hide *;
    ReadyFacts(m, op, walks);
    RootIsListed(m, op.d);
    ChangedSound(m, op, walks);
    RootGone(m.k.fs, op);
    ZapRootSound(Changed(m, op, walks), PathOf(m.k.fs, op.d));
  }

  /** A root that is moved away is given up, with all below it. */
  lemma RootLeaves(m: Monitor, op: Op, walks: map<Inode, seq<Inode>>)
    requires Ready(m, op, walks) && Leaves(m.k.fs, op) && m.k.fs.dirs[op.d].Root?
    ensures Settled(After(m, op, walks))
  {
    hide *;
    ReadyFacts(m, op, walks);
    KindFacts(m.k.fs, op);
    RootEvent(m, op, walks);
    var queue := EventsOf(m.k, op);
    var path := PathOf(m.k.fs, op.d);
    RootMoveHandled(m, op, walks, queue);
    RootGoneListed(m, op, walks);
    var x := Changed(m, op, walks);
    var m' := ZapRoot(x, path);
    if m'.exited {
      ExitDrained(x, queue, m');
      ExitSettles(m');
    } else {
      LeaverZapped(m, op, walks, m');
      var o := Left(m', path);
      OneEventLeft(x, queue, o);
      SameRootsSound(m', o.m);
      AgreeSettles(o.m);
    }
  }

  lemma ExitDrained(m: Monitor, queue: seq<Event>, m': Monitor)
    requires ValidKernel(m.k) && !m.exited && queue != [] && Process(m, queue, false) == Outcome(m', Discard, [])
    ensures Drain(System(m, queue)).m == m'
  {
    hide Process; hide ValidKernel;
  }

  lemma ExitSettles(m: Monitor)
    requires m.exited && NoRootsLeft(m.roots) && Sound(m)
    ensures Settled(m)
  {
  }

  // ----- a rename within the trees -----

  ghost function RenamedView(view: map<int, string>, oldTop: string, newTop: string): map<int, string> {
    map w | w in view :: Renamed(view[w], oldTop, newTop)
  }

  lemma RewrittenPaired(fs: Tree, fs': Tree, view: map<int, string>, watches: map<int, Inode>, ws: set<int>, oldTop: string, newTop: string)
    requires Valid(fs) && Valid(fs') && Paired(fs, view, watches)
    requires forall w :: w in watches && w !in ws ==>
      var x := watches[w]; x in fs'.dirs && InTree(fs', x) && PathOf(fs', x) == Renamed(PathOf(fs, x), oldTop, newTop)
    ensures Paired(fs', RenamedView(view, oldTop, newTop) - ws, watches - ws)
  {
    hide Valid; hide InTree; hide PathOf; hide Renamed;
  }

  lemma ShiftTree(fs: Tree, op: Op)
    requires Valid(fs) && Can(fs, op) && Shifts(fs, op)
    ensures Monitored(TreeAfter(fs, op)) == Monitored(fs) - (if op.replaced.Some? then {op.replaced.value} else {})
  {
    RenamedSet(fs, op);
    InsideSubtree(fs, op.d);
    if op.replaced.Some? { ReplacedNotBelow(fs, op); }
    hide Valid; hide Monitored; hide TreeAfter; hide InTree; hide Below; hide Can;
  }

  lemma OnlyWatch(k: Kernel, e: Inode)
    requires ValidKernel(k) && Watched(k, e)
    ensures forall w :: w in k.watches ==> (w == Wd(k, e) <==> k.watches[w] == e)
  {
  }

  lemma ShiftEnds(m: Monitor, op: Op, walks: map<Inode, seq<Inode>>)
    requires Ready(m, op, walks) && Shifts(m.k.fs, op)
    ensures op.replaced.None? ==> Ended(m.k, op) == {}
    ensures op.replaced.Some? ==> var e := op.replaced.value;
      && e in m.k.fs.dirs && m.k.fs.dirs[e].Sub? && InTree(m.k.fs, e)
      && Watched(m.k, e) && Ended(m.k, op) == {Wd(m.k, e)}
      && (forall w :: w in m.k.watches ==> (w in Ended(m.k, op) <==> m.k.watches[w] == e))
  {
    hide *;
    ReadyFacts(m, op, walks);
    KindFacts(m.k.fs, op);
    RenameEvents(m, op, walks);
    ExpectedFacts(m, op);
    EndedIs(m, op, walks);
    if op.replaced.Some? { OnlyWatch(m.k, op.replaced.value); }
  }

  lemma InsideSubtree(fs: Tree, d: Inode)
    requires Valid(fs) && d in fs.dirs && InTree(fs, d)
    ensures Subtree(fs, d) <= Monitored(fs)
  {
    forall x | x in Subtree(fs, d) ensures x in Monitored(fs) { BelowSameTop(fs, x, d); }
  }

  /** Rewriting the cached paths is what the rename does to the watched directories. */
  lemma ShiftInStep(m: Monitor, op: Op, walks: map<Inode, seq<Inode>>)
    requires Ready(m, op, walks) && Shifts(m.k.fs, op)
    ensures var fs := m.k.fs; var fs' := TreeAfter(fs, op); var ws := Ended(m.k, op);
      && Paired(fs', RenamedView(View(m.slots), PathOf(fs, op.d), NewPath(fs, op.loc)) - ws, m.k.watches - ws)
      && Flagged(fs', m.k.watches - ws, m.k.moveSelf - ws)
      && (m.k.watches - ws).Values == Monitored(fs')
  {
    var fs := m.k.fs;
    var fs' := TreeAfter(fs, op);
    var ws := Ended(m.k, op);
    ShiftTree(fs, op);
    ShiftEnds(m, op, walks);
    RenamedPath(fs, op);
    forall w | w in m.k.watches && w !in ws ensures var x := m.k.watches[w];
      && x in fs.dirs && x in fs'.dirs && fs'.dirs[x].Root? == fs.dirs[x].Root? && InTree(fs', x)
      && PathOf(fs', x) == Renamed(PathOf(fs, x), PathOf(fs, op.d), NewPath(fs, op.loc))
    {
      var x := m.k.watches[w];
      assert Watched(m.k, x);
      WatchedInTree(m, x);
      RenamedDir(fs, op, x);
      RenamedInside(fs, op, x);
    }
    hide Valid; hide ValidWalks; hide RootsListed; hide RootsApart; hide InTree; hide PathOf; hide TreeAfter; hide View; hide NewPath; hide Ended;
    hide Monitored; hide RenamedView;
    RewrittenPaired(fs, fs', View(m.slots), m.k.watches, ws, PathOf(fs, op.d), NewPath(fs, op.loc));
    DroppedFlagged(fs, fs', m.k.watches, m.k.moveSelf, ws);
    DroppedValues(m.k.watches, ws, if op.replaced.Some? then {op.replaced.value} else {});
  }

  /** The monitor once the pair of events of a rename within the trees was handled. */
  ghost function Shifted(m: Monitor, op: Op, walks: map<Inode, seq<Inode>>): Monitor
    requires Ready(m, op, walks) && Shifts(m.k.fs, op)
  {
    Changed(m, op, walks).(slots := RewriteAll(m.slots, PathOf(m.k.fs, op.d), NewPath(m.k.fs, op.loc)))
  }

  lemma ShiftedView(m: Monitor, op: Op, walks: map<Inode, seq<Inode>>)
    requires Ready(m, op, walks) && Shifts(m.k.fs, op)
    ensures var slots := Shifted(m, op, walks).slots;
      WellFormed(slots) && View(slots) == RenamedView(View(m.slots), PathOf(m.k.fs, op.d), NewPath(m.k.fs, op.loc))
  {
    assert PathOf(m.k.fs, op.d) != "" by { assert Placed(m.k.fs, op.d); }
    RewriteAllView(m.slots, PathOf(m.k.fs, op.d), NewPath(m.k.fs, op.loc));
  }

  lemma ShiftedKernel(m: Monitor, op: Op, walks: map<Inode, seq<Inode>>)
    requires Ready(m, op, walks) && Shifts(m.k.fs, op)
    ensures var m2 := Shifted(m, op, walks);
      && Sound(m2) && !m2.exited && ValidKernel(m2.k)
      && m2.k == Changed(m, op, walks).k && m2.roots == m.roots && m2.ignored == m.ignored
      && m2.k.fs == TreeAfter(m.k.fs, op) && m2.k.watches == m.k.watches - Ended(m.k, op) && m2.k.moveSelf == m.k.moveSelf - Ended(m.k, op)
  {
    ChangedSound(m, op, walks);
    hide Valid; hide ValidWalks; hide RootsApart; hide RootsListed; hide Nones; hide PathOf; hide NewPath; hide Ended; hide Can; hide TreeAfter;
    hide RewriteAll; hide Agree; hide ValidWatches; hide Shifts;
  }

  lemma AgreeIntro(m: Monitor, view: map<int, string>)
    requires ValidKernel(m.k) && WellFormed(m.slots) && View(m.slots) == view
    requires Paired(m.k.fs, view, m.k.watches) && Flagged(m.k.fs, m.k.watches, m.k.moveSelf) && m.k.watches.Values == Monitored(m.k.fs)
    ensures Agree(m)
  {
  }

  lemma KernelParts(k: Kernel)
    requires ValidKernel(k)
    ensures Valid(k.fs) && ValidWalks(k.fs, k.walks) && ValidWatches(k.fs, k.watches, k.nextWd)
  {
  }

  lemma MinusNothing(view: map<int, string>, watches: map<int, Inode>, moveSelf: set<int>)
    ensures view - {} == view && watches - {} == watches && moveSelf - {} == moveSelf
  {
  }

  lemma ShiftAgrees(m: Monitor, op: Op, walks: map<Inode, seq<Inode>>)
    requires Ready(m, op, walks) && Shifts(m.k.fs, op) && op.replaced.None?
    ensures Agree(Shifted(m, op, walks))
  {
    hide *;
    ReadyFacts(m, op, walks);
    KindFacts(m.k.fs, op);
    ShiftInStep(m, op, walks);
    ShiftedView(m, op, walks);
    ShiftedKernel(m, op, walks);
    ShiftEnds(m, op, walks);
    var view := RenamedView(View(m.slots), PathOf(m.k.fs, op.d), NewPath(m.k.fs, op.loc));
    MinusNothing(view, m.k.watches, m.k.moveSelf);
    AgreeIntro(Shifted(m, op, walks), view);
  }

  lemma ReplacedPathKept(m: Monitor, op: Op, walks: map<Inode, seq<Inode>>)
    requires Ready(m, op, walks) && Shifts(m.k.fs, op) && op.replaced.Some?
    ensures Watched(m.k, op.replaced.value) && op.replaced.value in m.k.fs.dirs
    ensures var view := RenamedView(View(m.slots), PathOf(m.k.fs, op.d), NewPath(m.k.fs, op.loc)); var w := Wd(m.k, op.replaced.value);
      w in view && view[w] == PathOf(m.k.fs, op.replaced.value)
  {
    var e := op.replaced.value;
    ShiftEnds(m, op, walks);
    ReplacedNotBelow(m.k.fs, op);
    BelowIffPath(m.k.fs, e, op.d);
    hide Valid; hide ValidWalks; hide RootsApart; hide RootsListed; hide PathOf; hide NewPath; hide Can; hide TreeAfter; hide View; hide Ended;
    hide Flagged; hide Monitored; hide WellFormed; hide ValidWatches; hide InTree; hide Below;
  }

  lemma ShiftStale(m: Monitor, op: Op, walks: map<Inode, seq<Inode>>)
    requires Ready(m, op, walks) && Shifts(m.k.fs, op) && op.replaced.Some?
    ensures Watched(m.k, op.replaced.value) && op.replaced.value in m.k.fs.dirs
    ensures var m2 := Shifted(m, op, walks); var w := Wd(m.k, op.replaced.value);
      Stale(m2, w) && View(m2.slots)[w] == PathOf(m.k.fs, op.replaced.value) && m2.k.watches.Values == Monitored(m2.k.fs)
  {
    hide *;
    ReadyFacts(m, op, walks);
    KindFacts(m.k.fs, op);
    ShiftInStep(m, op, walks);
    ShiftedView(m, op, walks);
    ShiftedKernel(m, op, walks);
    ShiftEnds(m, op, walks);
    ReplacedPathKept(m, op, walks);
    KernelParts(Shifted(m, op, walks).k);
    StaleParts(Shifted(m, op, walks), Wd(m.k, op.replaced.value));
  }

  lemma ProcessPair(m: Monitor, queue: seq<Event>, oldDir: string, newDir: string)
    requires ValidKernel(m.k) && |queue| >= 2
    requires queue[0].MovedFrom? && queue[0].isDir && queue[1].MovedTo? && queue[1].cookie == queue[0].cookie
    requires FindWatch(m.slots, queue[0].wd) >= 0 && m.slots[FindWatch(m.slots, queue[0].wd)].path == oldDir
    requires FindWatch(m.slots, queue[1].wd) >= 0 && m.slots[FindWatch(m.slots, queue[1].wd)].path == newDir
    ensures Process(m, queue, false)
      == Outcome(m.(slots := RewriteAll(m.slots, Join(oldDir, queue[0].name), Join(newDir, queue[1].name))), Took(2), [])
  {
    hide ValidKernel; hide Left; hide Follows; hide RewriteAll;
  }

  /** The entry that a directory is renamed to. */
  lemma TargetEntry(m: Monitor, op: Op)
    requires Agree(m) && op.Rename? && Lands(m.k.fs, op.loc)
    ensures var fs := m.k.fs; var p := op.loc.parent;
      && Watched(m.k, p) && p in fs.dirs
      && ToEvent(m.k, op.loc, op.cookie) == [MovedTo(Wd(m.k, p), op.cookie, op.loc.name, true)]
      && NewPath(fs, op.loc) == Join(PathOf(fs, p), op.loc.name)
      && FindWatch(m.slots, Wd(m.k, p)) >= 0 && m.slots[FindWatch(m.slots, Wd(m.k, p))].path == PathOf(fs, p)
  {
    WatchedInTree(m, op.loc.parent);
    Seen(m, op.loc.parent);
  }

  lemma ShiftEvents(m: Monitor, op: Op, walks: map<Inode, seq<Inode>>)
    requires Ready(m, op, walks) && Shifts(m.k.fs, op)
    ensures EventsOf(m.k, op)
      == FromEvent(m.k, m.k.fs.dirs[op.d], op.cookie) + ToEvent(m.k, op.loc, op.cookie) + Farewell(m.k, op.replaced)
  {
    hide *;
    ReadyFacts(m, op, walks);
    KindFacts(m.k.fs, op);
    RenameEvents(m, op, walks);
    ExpectedFacts(m, op);
    EventsInOrder(m.k, op);
  }

  lemma ShiftHandled(m: Monitor, op: Op, walks: map<Inode, seq<Inode>>)
    requires Ready(m, op, walks) && Shifts(m.k.fs, op)
    ensures ValidKernel(Changed(m, op, walks).k)
    ensures var queue := EventsOf(m.k, op);
      && |queue| >= 2 && queue[2..] == Farewell(m.k, op.replaced)
      && Process(Changed(m, op, walks), queue, false) == Outcome(Shifted(m, op, walks), Took(2), [])
  {
    hide *;
    ReadyFacts(m, op, walks);
    KindFacts(m.k.fs, op);
    SourceEntry(m, op);
    TargetEntry(m, op);
    ShiftEvents(m, op, walks);
    ShiftedIs(m, op, walks);
    var p := m.k.fs.dirs[op.d].parent;
    ProcessPair(Changed(m, op, walks), EventsOf(m.k, op), PathOf(m.k.fs, p), PathOf(m.k.fs, op.loc.parent));
  }

  lemma ShiftedIs(m: Monitor, op: Op, walks: map<Inode, seq<Inode>>)
    requires Ready(m, op, walks) && Shifts(m.k.fs, op)
    ensures Shifted(m, op, walks)
      == Changed(m, op, walks).(slots := RewriteAll(m.slots, PathOf(m.k.fs, op.d), NewPath(m.k.fs, op.loc)))
  {
  }

  lemma FirstHandled(m: Monitor, queue: seq<Event>, m2: Monitor, n: nat)
    requires ValidKernel(m.k) && !m.exited && queue != [] && n <= |queue| && Process(m, queue, false) == Outcome(m2, Took(n), [])
    ensures ValidKernel(m2.k) && Drain(System(m, queue)) == Drain(System(m2, queue[n..]))
  {
    hide ValidKernel;
    DrainStep(m, queue);
    assert queue[n..] + [] == queue[n..];
  }

  lemma DrainNothing(m: Monitor)
    requires ValidKernel(m.k)
    ensures Drain(System(m, [])).m == m
  {
  }

  lemma FarewellOf(k: Kernel, replaced: Option<Inode>)
    requires ValidKernel(k)
    ensures replaced.None? ==> Farewell(k, replaced) == []
    ensures replaced.Some? && Watched(k, replaced.value) ==> var w := Wd(k, replaced.value); Farewell(k, replaced) == [DeleteSelf(w), Ignored(w)]
  {
  }

  /** A rename within the trees, onto an empty directory or not, is followed by the cache. */
  lemma ShiftSettles(m: Monitor, op: Op, walks: map<Inode, seq<Inode>>)
    requires Ready(m, op, walks) && Shifts(m.k.fs, op)
    ensures Settled(After(m, op, walks))
  {
    hide *;
    ReadyFacts(m, op, walks);
    KindFacts(m.k.fs, op);
    var m' := Changed(m, op, walks);
    var m2 := Shifted(m, op, walks);
    var queue := EventsOf(m.k, op);
    ShiftHandled(m, op, walks);
    ShiftedKernel(m, op, walks);
    FirstHandled(m', queue, m2, 2);
    FarewellOf(m.k, op.replaced);
    if op.replaced.None? {
      ShiftAgrees(m, op, walks);
      DrainNothing(m2);
      AgreeSettles(m2);
    } else {
      ShiftReplacedSettles(m, op, walks);
    }
  }

  lemma RootsElsewhere(fs: Tree, op: Op)
    requires Valid(fs) && Can(fs, op) && Shifts(fs, op) && op.replaced.Some?
    ensures var fs' := TreeAfter(fs, op);
      forall r {:trigger fs'.dirs[r]} :: r in fs'.dirs && fs'.dirs[r].Root? ==> fs'.dirs[r].path != PathOf(fs, op.replaced.value)
  {
    var fs' := TreeAfter(fs, op);
    ParentInTree(fs, op.replaced.value);
    OtherRootsPaths(fs, op.replaced.value);
    assert forall r {:trigger fs'.dirs[r]} :: r in fs'.dirs && fs'.dirs[r].Root? ==> r != op.replaced.value && r in fs.dirs && fs'.dirs[r] == fs.dirs[r];
  }

  lemma ShiftReplacedSettles(m: Monitor, op: Op, walks: map<Inode, seq<Inode>>)
    requires Ready(m, op, walks) && Shifts(m.k.fs, op) && op.replaced.Some?
    ensures Watched(m.k, op.replaced.value)
    ensures var m2 := Shifted(m, op, walks); var w := Wd(m.k, op.replaced.value);
      ValidKernel(m2.k) && Settled(Drain(System(m2, [DeleteSelf(w), Ignored(w)])).m)
  {
    hide *;
    ReadyFacts(m, op, walks);
    KindFacts(m.k.fs, op);
    var m2 := Shifted(m, op, walks);
    ShiftedKernel(m, op, walks);
    ShiftStale(m, op, walks);
    var w := Wd(m.k, op.replaced.value);
    RootsElsewhere(m.k.fs, op);
    BereftSound(m2, w, PathOf(m.k.fs, op.replaced.value));
    FarewellHandled(m2, w, [DeleteSelf(w), Ignored(w)]);
    BereftSettles(m2, w, Drain(System(m2, [DeleteSelf(w), Ignored(w)])).m);
  }

  lemma BereftSettles(m: Monitor, w: nat, r: Monitor)
    requires ValidKernel(m.k) && FindWatch(m.slots, w) >= 0 && m.k.watches.Values == Monitored(m.k.fs)
    requires var b := Bereft(m, w); (b.exited ==> NoRootsLeft(b.roots)) && Sound(b) && SyncedOn(b, m.k.watches.Values)
    requires r == Bereft(m, w) || (r.exited && Bereft(m, w).exited && r.roots == Bereft(m, w).roots && r.k == m.k)
    ensures Settled(r)
  {
  }
}
