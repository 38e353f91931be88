/**
 When the cache agrees with the file systems and with the kernel's watches,
 and that building the cache establishes it.
 */
module Agreement {
  import opened Options
  import opened Paths
  import opened FileTree
  import opened WatchCache
  import opened Inotify
  import opened Handler

  /** Roots given on the command line are not nested. */
  ghost predicate RootsApart(roots: seq<Option<string>>) {
    forall i, j {:trigger roots[i], roots[j]} :: 0 <= i < |roots| && 0 <= j < |roots| && i != j && roots[i].Some? && roots[j].Some? ==>
      !AtOrBelow(roots[i].value, roots[j].value)
  }

  /** Every root of the file systems is on the list; a listed root may be gone. */
  ghost predicate RootsListed(fs: Tree, roots: seq<Option<string>>) {
    forall d {:trigger fs.dirs[d]} :: d in fs.dirs && fs.dirs[d].Root? ==> Some(fs.dirs[d].path) in roots
  }

  /** The directories to be watched: those in the roots' trees. */
  ghost function Monitored(fs: Tree): set<Inode>
    requires Valid(fs)
  {
    set d | d in fs.dirs && InTree(fs, d)
  }

  /** The cache has one entry per watch, under the true path of the watched directory. */
  ghost predicate Paired(fs: Tree, view: map<int, string>, watches: map<int, Inode>)
    requires Valid(fs)
  {
    match fs
    case Tree(_, _) =>
      && view.Keys == watches.Keys
      && forall w: int :: w in watches ==> watches[w] in fs.dirs && InTree(fs, watches[w]) && view[w] == PathOf(fs, watches[w])
  }

  /** Exactly the roots report their own moves. */
  ghost predicate Flagged(fs: Tree, watches: map<int, Inode>, moveSelf: set<int>) {
    match fs
    case Tree(dirs, _) =>
      forall w: int :: w in moveSelf <==> w in watches && watches[w] in dirs && dirs[watches[w]].Root?
  }

  ghost predicate Synced(m: Monitor) {
    match m
    case Monitor(k, slots, _, _, _) =>
      ValidKernel(k) && WellFormed(slots) && Paired(k.fs, View(slots), k.watches) && Flagged(k.fs, k.watches, k.moveSelf)
  }

  ghost predicate SyncedOn(m: Monitor, s: set<Inode>) {
    match m
    case Monitor(k, _, _, _, _) => Synced(m) && k.watches.Values == s
  }

  /** The cache, the kernel's watches and the trees hold the same directories. */
  ghost predicate Agree(m: Monitor) {
    match m
    case Monitor(k, _, _, _, _) => Synced(m) && k.watches.Values == Monitored(k.fs)
  }

  ghost function Nones(roots: seq<Option<string>>): nat {
    if roots == [] then 0 else (if roots[0].None? then 1 else 0) + Nones(roots[1..])
  }

  /** What the file systems and the list of roots promise throughout. */
  ghost predicate Sound(m: Monitor) {
    match m
    case Monitor(k, _, roots, ignored, _) =>
      ValidKernel(k) && RootsApart(roots) && RootsListed(k.fs, roots) && ignored == Nones(roots)
  }

  // ----- paths on the list of roots -----

  /** In the trees, exactly the roots have a path that is on the list. */
  lemma OnlyRootsListed(fs: Tree, roots: seq<Option<string>>, d: Inode)
    requires Valid(fs) && RootsApart(roots) && RootsListed(fs, roots) && d in fs.dirs && InTree(fs, d)
    ensures FindRoot(roots, PathOf(fs, d)) >= 0 <==> fs.dirs[d].Root?
  {
    if FindRoot(roots, PathOf(fs, d)) >= 0 {
      var top := TopOf(fs, d);
      BelowTop(fs, d);
      assert PathOf(fs, d) == PathOf(fs, top);
      PathInjective(fs, d, top);
    }
  }

  // ----- adding one watch -----

  lemma WatchesAdd(watches: map<int, Inode>, w: int, d: Inode)
    requires w !in watches
    ensures watches[w := d].Values == watches.Values + {d}
  {
    var after := watches[w := d];
    assert after[w] == d;
    forall v | v in watches ensures watches[v] in after.Values { assert after[v] == watches[v]; }
  }

  lemma PairedAdd(fs: Tree, view: map<int, string>, watches: map<int, Inode>, w: int, d: Inode)
    requires Valid(fs) && Paired(fs, view, watches) && w !in watches && d in fs.dirs && InTree(fs, d)
    ensures Paired(fs, view[w := PathOf(fs, d)], watches[w := d])
  {
    hide Valid; hide InTree; hide PathOf;
  }

  lemma FlaggedAdd(fs: Tree, watches: map<int, Inode>, moveSelf: set<int>, w: int, d: Inode)
    requires Flagged(fs, watches, moveSelf) && w !in watches && d in fs.dirs
    ensures Flagged(fs, watches[w := d], if fs.dirs[d].Root? then moveSelf + {w} else moveSelf - {w})
  {
  }

  lemma AddWatchNew(k: Kernel, d: Inode, path: string, moveSelf: bool)
    requires ValidKernel(k) && Resolve(k.fs, path) == Some(d) && d !in k.watches.Values
    ensures var w := k.nextWd;
      AddWatch(k, path, moveSelf) ==
        (k.(watches := k.watches[w := d], moveSelf := if moveSelf then k.moveSelf + {w} else k.moveSelf - {w}, nextWd := w + 1), w)
  {
  }

  lemma AddWatchKnown(k: Kernel, d: Inode, path: string, moveSelf: bool)
    requires ValidKernel(k) && Resolve(k.fs, path) == Some(d) && d in k.watches.Values
    requires Flagged(k.fs, k.watches, k.moveSelf) && d in k.fs.dirs && (moveSelf <==> k.fs.dirs[d].Root?)
    ensures AddWatch(k, path, moveSelf).0 == k && AddWatch(k, path, moveSelf).1 in k.watches
  {
  }

  lemma SoundParts(m: Monitor)
    requires Sound(m)
    ensures ValidKernel(m.k) && Valid(m.k.fs) && RootsApart(m.roots) && RootsListed(m.k.fs, m.roots)
  {
  }

  lemma TraverseIs(m: Monitor, path: string)
    requires ValidKernel(m.k)
    ensures var (k, wd) := AddWatch(m.k, path, FindRoot(m.roots, path) >= 0);
      TraverseTree(m, path) == if wd == -1 then m
                               else if FindWatch(m.slots, wd) >= 0 then m.(k := k)
                               else m.(k := k, slots := AddEntry(m.slots, wd, path))
  {
    hide ValidKernel; hide AddWatch; hide FindRoot; hide FindWatch; hide AddEntry;
  }

  /** Visiting an unwatched directory watches it, and caches the new descriptor. */
  lemma TraverseNew(m: Monitor, d: Inode, path: string)
    requires Sound(m) && WellFormed(m.slots) && m.k.nextWd !in View(m.slots)
    requires Resolve(m.k.fs, path) == Some(d) && d !in m.k.watches.Values
    ensures var w := m.k.nextWd; var m' := TraverseTree(m, path);
      && m'.slots == AddEntry(m.slots, w, path)
      && m'.k == m.k.(watches := m.k.watches[w := d], nextWd := w + 1,
                      moveSelf := if m.k.fs.dirs[d].Root? then m.k.moveSelf + {w} else m.k.moveSelf - {w})
  {
    hide *;
    SoundParts(m);
    OnlyRootsListed(m.k.fs, m.roots, d);
    AddWatchNew(m.k, d, path, FindRoot(m.roots, path) >= 0);
    TraverseIs(m, path);
    ViewFind(m.slots, m.k.nextWd);
  }

  /** Visiting a watched directory whose descriptor is in the cache changes nothing. */
  lemma TraverseKnown(m: Monitor, d: Inode, path: string)
    requires Sound(m) && WellFormed(m.slots) && Flagged(m.k.fs, m.k.watches, m.k.moveSelf) && m.k.watches.Keys <= View(m.slots).Keys
    requires Resolve(m.k.fs, path) == Some(d) && d in m.k.watches.Values
    ensures TraverseTree(m, path) == m
  {
    hide *;
    SoundParts(m);
    OnlyRootsListed(m.k.fs, m.roots, d);
    AddWatchKnown(m.k, d, path, FindRoot(m.roots, path) >= 0);
    TraverseIs(m, path);
    ViewFind(m.slots, AddWatch(m.k, path, FindRoot(m.roots, path) >= 0).1);
  }

  lemma SyncedCache(m: Monitor)
    requires Synced(m)
    ensures ValidKernel(m.k) && WellFormed(m.slots) && Flagged(m.k.fs, m.k.watches, m.k.moveSelf)
    ensures View(m.slots).Keys == m.k.watches.Keys && m.k.nextWd !in m.k.watches
  {
    hide Valid; hide ValidWalks; hide View; hide WellFormed;
  }

  /** Visiting one directory of the trees adds it to what is watched. */
  lemma TraverseSynced(m: Monitor, path: string)
    requires Sound(m) && Synced(m) && Resolve(m.k.fs, path).Some?
    ensures Synced(TraverseTree(m, path))
    ensures TraverseTree(m, path).k.watches.Values == m.k.watches.Values + {Resolve(m.k.fs, path).value}
  {
    var d := Resolve(m.k.fs, path).value;
    hide Valid; hide TraverseTree; hide Resolve; hide ValidWalks; hide View; hide AddEntry; hide WellFormed;
    hide RootsApart; hide RootsListed; hide InTree; hide PathOf; hide Flagged; hide Paired;
    SyncedCache(m);
    if d in m.k.watches.Values {
      TraverseKnown(m, d, path);
    } else {
      var w := m.k.nextWd;
      TraverseNew(m, d, path);
      AddEntryView(m.slots, w, path);
      PairedAdd(m.k.fs, View(m.slots), m.k.watches, w, d);
      FlaggedAdd(m.k.fs, m.k.watches, m.k.moveSelf, w, d);
      WatchesAdd(m.k.watches, w, d);
    }
  }

  // ----- walking a tree -----

  /** A walk's pathnames lead to the directories of `s`, and to all of them. */
  ghost predicate Visits(fs: Tree, visits: seq<string>, s: set<Inode>)
    requires Valid(fs)
  {
    && (forall i :: 0 <= i < |visits| ==> Resolve(fs, visits[i]).Some? && Resolve(fs, visits[i]).value in s)
    && (forall d :: d in s ==> exists i :: 0 <= i < |visits| && Resolve(fs, visits[i]) == Some(d))
  }

  lemma VisitsRest(fs: Tree, visits: seq<string>, s: set<Inode>) returns (rest: set<Inode>)
    requires Valid(fs) && visits != [] && Visits(fs, visits, s)
    ensures Visits(fs, visits[1..], rest) && s == rest + {Resolve(fs, visits[0]).value}
  {
    hide Valid; hide Resolve;
    var tail := visits[1..];
    rest := set e | e in s && exists i :: 0 <= i < |tail| && Resolve(fs, tail[i]) == Some(e);
    forall e | e in s && e != Resolve(fs, visits[0]).value ensures e in rest {
      var i :| 0 <= i < |visits| && Resolve(fs, visits[i]) == Some(e);
      assert tail[i - 1] == visits[i];
    }
  }

  lemma {:induction false} WatchAllSynced(m: Monitor, visits: seq<string>, s: set<Inode>)
    requires Sound(m) && Synced(m) && Visits(m.k.fs, visits, s)
    ensures Synced(WatchAll(m, visits))
    ensures WatchAll(m, visits).k.watches.Values == m.k.watches.Values + s
    decreases |visits|
  {
    hide TraverseTree; hide Synced; hide Valid; hide Resolve; hide ValidWalks; hide ValidWatches; hide RootsApart; hide RootsListed;
    if visits == [] {
      assert s == {};
    } else {
      TraverseSynced(m, visits[0]);
      var rest := VisitsRest(m.k.fs, visits, s);
      WatchAllSynced(TraverseTree(m, visits[0]), visits[1..], rest);
    }
  }

  /** The directories at or below `d`. */
  ghost function Subtree(fs: Tree, d: Inode): set<Inode>
    requires Valid(fs)
  {
    set e | e in fs.dirs && Below(fs, e, d)
  }

  lemma WalkVisits(k: Kernel, path: string)
    requires ValidKernel(k) && Resolve(k.fs, path).Some?
    ensures Visits(k.fs, Nftw(k, path), Subtree(k.fs, Resolve(k.fs, path).value))
  {
    var fs := k.fs;
    var d := Resolve(fs, path).value;
    var visits := Nftw(k, path);
    var walk := k.walks[d];
    assert IsWalk(fs, d, walk);
    hide ValidKernel; hide Resolve; hide Nftw; hide Valid; hide IsWalk;
    forall i | 0 <= i < |visits| ensures Resolve(fs, visits[i]) == Some(walk[i]) && walk[i] in Subtree(fs, d) {
      assert walk[i] in fs.dirs && Below(fs, walk[i], d) by { assert IsWalk(fs, d, walk); WalkAt(fs, d, walk, i); }
      BelowSameTop(fs, walk[i], d);
      ResolvePath(fs, walk[i]);
    }
    forall e | e in Subtree(fs, d) ensures exists i :: 0 <= i < |visits| && Resolve(fs, visits[i]) == Some(e) {
      WalkHas(fs, d, walk, e);
      var i :| 0 <= i < |walk| && walk[i] == e;
      assert Resolve(fs, visits[i]) == Some(e);
    }
  }

  lemma WalkAt(fs: Tree, d: Inode, walk: seq<Inode>, i: nat)
    requires Valid(fs) && IsWalk(fs, d, walk) && i < |walk|
    ensures walk[i] in fs.dirs && Below(fs, walk[i], d)
  {
  }

  lemma WalkHas(fs: Tree, d: Inode, walk: seq<Inode>, e: Inode)
    requires Valid(fs) && IsWalk(fs, d, walk) && e in fs.dirs && Below(fs, e, d)
    ensures e in walk
  {
  }

  /** Watching a subtree adds exactly the directories at or below its top. */
  lemma WatchSubtreeSynced(m: Monitor, path: string)
    requires Sound(m) && Synced(m)
    ensures Synced(WatchSubtree(m, path))
    ensures Resolve(m.k.fs, path).None? ==> WatchSubtree(m, path) == m
    ensures Resolve(m.k.fs, path).Some? ==>
      WatchSubtree(m, path).k.watches.Values == m.k.watches.Values + Subtree(m.k.fs, Resolve(m.k.fs, path).value)
  {
    hide TraverseTree; hide Synced; hide Valid; hide Resolve; hide ValidWalks; hide ValidWatches; hide RootsApart; hide RootsListed;
    if Resolve(m.k.fs, path).Some? {
      WalkVisits(m.k, path);
      WatchAllSynced(m, Nftw(m.k, path), Subtree(m.k.fs, Resolve(m.k.fs, path).value));
    }
  }

  // ----- building the cache -----

  /** The directories in the trees of the roots listed from index `j` on. */
  ghost function FromRoot(fs: Tree, roots: seq<Option<string>>, j: nat): set<Inode>
    requires Valid(fs) && j <= |roots|
  {
    set d | d in Monitored(fs) && Some(PathOf(fs, TopOf(fs, d))) in roots[j..]
  }

  /** A listed path names a root or nothing, and its subtree is that root's tree. */
  lemma FromRootStep(fs: Tree, roots: seq<Option<string>>, j: nat)
    requires Valid(fs) && RootsApart(roots) && RootsListed(fs, roots) && j < |roots|
    ensures var r := if roots[j].Some? then Resolve(fs, roots[j].value) else None;
      FromRoot(fs, roots, j) == FromRoot(fs, roots, j + 1) + (if r.Some? then Subtree(fs, r.value) else {})
  {
    assert roots[j..] == [roots[j]] + roots[j + 1..];
    if roots[j].Some? {
      var r := Resolve(fs, roots[j].value);
      if r.Some? { RootSubtree(fs, roots, roots[j].value, r.value); }
      hide Valid; hide Resolve; hide RootsApart; hide RootsListed; hide Subtree;
      forall d | d in Monitored(fs) && PathOf(fs, TopOf(fs, d)) == roots[j].value ensures r.Some? {
        TopInTree(fs, d);
      }
    }
  }

  lemma {:induction false} TopInTree(fs: Tree, d: Inode)
    requires Valid(fs) && d in fs.dirs
    ensures TopOf(fs, TopOf(fs, d)) == TopOf(fs, d)
  {
  }

  lemma {:induction false} RootSubtree(fs: Tree, roots: seq<Option<string>>, path: string, r: Inode)
    requires Valid(fs) && RootsApart(roots) && RootsListed(fs, roots) && Some(path) in roots && Resolve(fs, path) == Some(r)
    ensures Subtree(fs, r) == set d | d in Monitored(fs) && PathOf(fs, TopOf(fs, d)) == path
  {
    OnlyRootsListed(fs, roots, r);
    hide RootsApart; hide RootsListed; hide Resolve;
    forall d | d in fs.dirs
      ensures d in Subtree(fs, r) <==> d in Monitored(fs) && PathOf(fs, TopOf(fs, d)) == path
    {
      if Below(fs, d, r) {
        BelowSameTop(fs, d, r);
      } else if InTree(fs, d) && PathOf(fs, TopOf(fs, d)) == path {
        BelowTop(fs, d);
        TopInTree(fs, d);
        PathInjective(fs, TopOf(fs, d), r);
        assert false;
      }
    }
  }

  lemma {:induction false} WatchRootsSynced(m: Monitor, j: nat, s: set<Inode>)
    requires Sound(m) && SyncedOn(m, s) && j <= |m.roots|
    ensures SyncedOn(WatchRoots(m, j), s + FromRoot(m.k.fs, m.roots, j))
    decreases |m.roots| - j
  {
    hide WatchSubtree; hide Synced; hide Valid; hide ValidWalks; hide ValidWatches; hide Subtree; hide Resolve; hide InTree; hide PathOf;
    hide RootsApart; hide RootsListed;
    if j < |m.roots| {
      FromRootStep(m.k.fs, m.roots, j);
      hide FromRoot;
      if m.roots[j].Some? {
        WatchSubtreeSynced(m, m.roots[j].value);
        var m' := WatchSubtree(m, m.roots[j].value);
        WatchRootsSynced(m', j + 1, m'.k.watches.Values);
      } else {
        WatchRootsSynced(m, j + 1, s);
      }
    }
  }

  lemma FromRootAll(fs: Tree, roots: seq<Option<string>>)
    requires Valid(fs) && RootsListed(fs, roots)
    ensures FromRoot(fs, roots, 0) == Monitored(fs)
  {
  }

  lemma FreshSynced(m: Monitor)
    requires Sound(m)
    ensures var m0 := m.(k := NewInstance(m.k), slots := []); Sound(m0) && SyncedOn(m0, {})
  {
  }

  lemma SoundKept(m: Monitor, m': Monitor)
    requires Sound(m) && Watching(m, m')
    ensures Sound(m')
  {
    hide ValidKernel; hide RootsApart; hide RootsListed;
  }

  lemma EmptyPlus(s: set<Inode>)
    ensures {} + s == s
  {
  }

  lemma ReinitializeSynced(m: Monitor)
    requires Sound(m)
    ensures SyncedOn(Reinitialize(m), FromRoot(m.k.fs, m.roots, 0))
  {
    FreshSynced(m);
    hide ValidKernel; hide FromRoot; hide RootsApart; hide RootsListed; hide WatchRoots; hide SyncedOn;
    WatchRootsSynced(m.(k := NewInstance(m.k), slots := []), 0, {});
    EmptyPlus(FromRoot(m.k.fs, m.roots, 0));
  }

  /**
   From any cache at all, rebuilding makes the cache agree: it holds the union
   of the trees of the roots still on the list, each directory once.
   */
  lemma RebuildAgrees(m: Monitor)
    requires Sound(m)
    ensures Sound(Reinitialize(m)) && Agree(Reinitialize(m))
  {
    hide Reinitialize; hide FromRoot; hide RootsApart; hide RootsListed; hide Synced; hide Monitored;
    ReinitializeSynced(m);
    FromRootAll(m.k.fs, m.roots);
    SoundKept(m, Reinitialize(m));
  }
}
