/**
 One operation at a time: starting from agreement, an operation followed by the
 handling of all its events.
 */
module Simulation {
  import opened Options
  import opened Paths
  import opened FileTree
  import opened TreeChanges
  import opened WatchCache
  import opened Inotify
  import opened Handler
  import opened Agreement
  import opened Zapping
  import opened Operations

  // ----- reading the cache -----

  /** The event of a watched directory finds its slot, under the true path. */
  lemma Seen(m: Monitor, d: Inode)
    requires Synced(m) && Watched(m.k, d)
    ensures d in m.k.fs.dirs
    ensures var slot := FindWatch(m.slots, Wd(m.k, d)); slot >= 0 && m.slots[slot].path == PathOf(m.k.fs, d)
  {
  }

  lemma Uncached(m: Monitor, path: string)
    requires Synced(m)
    requires forall d :: Watched(m.k, d) && d in m.k.fs.dirs ==> PathOf(m.k.fs, d) != path
    ensures FindPath(m.slots, path) == -1
  {
    hide Valid; hide ValidWalks; hide WellFormed; hide Flagged; hide View;
    forall w | w in View(m.slots) ensures View(m.slots)[w] != path {
      assert Watched(m.k, m.k.watches[w]);
    }
    ViewPath(m.slots, path);
  }

  // ----- draining -----

  lemma DrainStep(m: Monitor, queue: seq<Event>)
    requires ValidKernel(m.k) && !m.exited && queue != [] && Process(m, queue, false).verdict.Took?
    ensures var o := Process(m, queue, false);
      Drain(System(m, queue)) == Drain(System(o.m, queue[o.verdict.n..] + o.emitted))
  {
    hide Process; hide ValidKernel; hide Follows;
  }

  lemma {:induction false} DrainQuiet(m: Monitor, queue: seq<Event>)
    requires ValidKernel(m.k) && !m.exited && Quiet(queue)
    ensures Drain(System(m, queue)) == System(m, [])
    decreases |queue|
  {
    hide ValidKernel; hide Follows;
    if queue != [] {
      assert Process(m, queue, false) == Outcome(m, Took(1), []);
      DrainStep(m, queue);
      assert queue[1..] + [] == queue[1..];
      DrainQuiet(m, queue[1..]);
    }
  }

  /** An event after which only IN_IGNORED is left ends the handling. */
  lemma DrainLast(m: Monitor, queue: seq<Event>, o: Outcome)
    requires ValidKernel(m.k) && !m.exited && queue != [] && o == Process(m, queue, false)
    requires o.verdict.Took? && !o.m.exited && Quiet(queue[o.verdict.n..] + o.emitted)
    ensures Drain(System(m, queue)) == System(o.m, [])
  {
    DrainStep(m, queue);
    hide Process; hide ValidKernel; hide Follows; hide Drain;
    DrainQuiet(o.m, queue[o.verdict.n..] + o.emitted);
  }

  // ----- the state between the operation and its events -----

  /** Agreement before an operation that can be done, with walks for the trees after it. */
  ghost predicate Ready(m: Monitor, op: Op, walks: map<Inode, seq<Inode>>) {
    match m
    case Monitor(k, _, _, _, exited) =>
      && !exited && Sound(m) && Agree(m)
      && Can(k.fs, op) && ValidWalks(TreeAfter(k.fs, op), walks)
  }

  ghost function Changed(m: Monitor, op: Op, walks: map<Inode, seq<Inode>>): Monitor
    requires Ready(m, op, walks)
  {
    m.(k := KernelAfter(m.k, op, walks))
  }

  /** The monitor once every event of the operation has been handled. */
  ghost function After(m: Monitor, op: Op, walks: map<Inode, seq<Inode>>): Monitor
    requires Ready(m, op, walks)
  {
    KernelAfterValid(m.k, op, walks);
    Drain(System(Changed(m, op, walks), EventsOf(m.k, op))).m
  }

  lemma ReadyFacts(m: Monitor, op: Op, walks: map<Inode, seq<Inode>>)
    requires Ready(m, op, walks)
    ensures ValidKernel(m.k) && Valid(m.k.fs) && Can(m.k.fs, op) && Sound(m) && Agree(m) && Synced(m) && !m.exited
    ensures Changed(m, op, walks).slots == m.slots && Changed(m, op, walks).roots == m.roots && !Changed(m, op, walks).exited
    ensures ValidKernel(Changed(m, op, walks).k) && Changed(m, op, walks).k.fs == TreeAfter(m.k.fs, op)
    ensures After(m, op, walks) == Drain(System(Changed(m, op, walks), EventsOf(m.k, op))).m
  {
    KernelAfterValid(m.k, op, walks);
    hide Drain; hide Valid; hide ValidWalks; hide KernelAfter; hide EventsOf;
  }

  lemma ChangedSound(m: Monitor, op: Op, walks: map<Inode, seq<Inode>>)
    requires Ready(m, op, walks) && !op.RenameAbove?
    ensures Sound(Changed(m, op, walks))
  {
    KernelAfterValid(m.k, op, walks);
    RootsStayListed(m.k.fs, m.roots, op);
    hide ValidKernel; hide RootsListed; hide RootsApart; hide Can; hide TreeAfter;
  }

  lemma RootsStayListed(fs: Tree, roots: seq<Option<string>>, op: Op)
    requires Valid(fs) && Can(fs, op) && RootsListed(fs, roots)
    requires !op.RenameAbove?
    ensures RootsListed(TreeAfter(fs, op), roots)
  {
  }

  lemma FlaggedKept(fs: Tree, fs': Tree, watches: map<int, Inode>, moveSelf: set<int>)
    requires Flagged(fs, watches, moveSelf)
    requires forall w :: w in watches ==>
      watches[w] in fs.dirs && watches[w] in fs'.dirs && fs'.dirs[watches[w]].Root? == fs.dirs[watches[w]].Root?
    ensures Flagged(fs', watches, moveSelf)
  {
  }

  // ----- mkdir -----

  lemma MkdirTree(fs: Tree, d: Inode, p: Inode, name: string)
    requires Valid(fs) && CanAdd(fs, d, p, name)
    ensures var fs' := Add(fs, d, p, name);
      && Valid(fs')
      && Monitored(fs') == Monitored(fs) + (if InTree(fs, p) then {d} else {})
      && Subtree(fs', d) == {d}
      && (forall x :: x in fs.dirs ==> PathOf(fs', x) == PathOf(fs, x) && InTree(fs', x) == InTree(fs, x))
      && PathOf(fs', d) == Join(PathOf(fs, p), name)
  {
    AddValid(fs, d, p, name);
    AddFacts(fs, d, p, name);
    var fs' := Add(fs, d, p, name);
    forall e | e in fs.dirs ensures !Below(fs', e, d) { AddLeaf(fs, d, p, name, e); }
    assert Below(fs', d, d);
    forall x | x in fs.dirs ensures InTree(fs', x) == InTree(fs, x) {
      assert TopOf(fs', x) in fs.dirs;
    }
    assert InTree(fs', d) == InTree(fs, p) by { assert TopOf(fs', d) in fs.dirs; }
    assert fs'.dirs.Keys == fs.dirs.Keys + {d};
    hide Valid; hide PathOf; hide InTree; hide Below; hide Add;
  }

  lemma {:induction false} AddLeaf(fs: Tree, d: Inode, p: Inode, name: string, e: Inode)
    requires Valid(fs) && CanAdd(fs, d, p, name) && Valid(Add(fs, d, p, name)) && e in fs.dirs
    ensures !Below(Add(fs, d, p, name), e, d)
    decreases fs.rank[e]
  {
    assert Placed(fs, e) && Add(fs, d, p, name).dirs[e] == fs.dirs[e];
    if fs.dirs[e].Sub? { AddLeaf(fs, d, p, name, fs.dirs[e].parent); }
  }

  /** No watch ends: the cache stays in step if no watched directory moves. */
  lemma StillSynced(m: Monitor, fs': Tree, walks: map<Inode, seq<Inode>>)
    requires Synced(m) && Valid(fs') && ValidWalks(fs', walks)
    requires forall w :: w in m.k.watches ==>
      var d := m.k.watches[w]; d in fs'.dirs && fs'.dirs[d] == m.k.fs.dirs[d] && InTree(fs', d) && PathOf(fs', d) == PathOf(m.k.fs, d)
    ensures Synced(m.(k := m.k.(fs := fs', walks := walks)))
  {
  }

  lemma MkdirChanged(m: Monitor, op: Op, walks: map<Inode, seq<Inode>>)
    requires Ready(m, op, walks) && op.Mkdir?
    ensures Changed(m, op, walks) == m.(k := m.k.(fs := Add(m.k.fs, op.d, op.p, op.name), walks := walks))
  {
    EndNone(m.k.(fs := Add(m.k.fs, op.d, op.p, op.name), walks := walks));
    hide EndWatches; hide Sound; hide Agree; hide ValidWalks; hide Can;
  }

  lemma MkdirFacts(m: Monitor, op: Op, walks: map<Inode, seq<Inode>>)
    requires Ready(m, op, walks) && op.Mkdir?
    ensures var fs' := Add(m.k.fs, op.d, op.p, op.name);
      && Valid(fs') && ValidWalks(fs', walks) && op.d !in m.k.fs.dirs
      && (forall x :: x in m.k.fs.dirs ==> x in fs'.dirs && fs'.dirs[x] == m.k.fs.dirs[x])
    ensures Synced(m) && m.k.watches.Values == Monitored(m.k.fs)
  {
  }

  lemma SyncedWatched(m: Monitor)
    requires Synced(m)
    ensures forall w: int :: w in m.k.watches ==> m.k.watches[w] in m.k.fs.dirs && InTree(m.k.fs, m.k.watches[w])
  {
  }

  lemma SyncedOnIntro(m: Monitor, s: set<Inode>)
    requires Synced(m) && m.k.watches.Values == s
    ensures SyncedOn(m, s)
  {
  }

  lemma MkdirSynced(m: Monitor, op: Op, walks: map<Inode, seq<Inode>>)
    requires Ready(m, op, walks) && op.Mkdir?
    ensures SyncedOn(Changed(m, op, walks), Monitored(m.k.fs))
  {
    var fs := m.k.fs;
    var fs' := Add(fs, op.d, op.p, op.name);
    MkdirTree(fs, op.d, op.p, op.name);
    MkdirChanged(m, op, walks);
    MkdirFacts(m, op, walks);
    SyncedWatched(m);
    hide *;
    forall w | w in m.k.watches ensures var d := m.k.watches[w];
      d in fs'.dirs && fs'.dirs[d] == fs.dirs[d] && InTree(fs', d) && PathOf(fs', d) == PathOf(fs, d)
    {
    }
    StillSynced(m, fs', walks);
    SyncedOnIntro(Changed(m, op, walks), Monitored(fs));
  }

  lemma MkdirUncached(m: Monitor, op: Op, walks: map<Inode, seq<Inode>>)
    requires Ready(m, op, walks) && op.Mkdir? && Watched(m.k, op.p)
    ensures FindPath(m.slots, Join(PathOf(m.k.fs, op.p), op.name)) == -1
  {
    var full := Join(PathOf(m.k.fs, op.p), op.name);
    var fs' := Add(m.k.fs, op.d, op.p, op.name);
    MkdirTree(m.k.fs, op.d, op.p, op.name);
    forall x | Watched(m.k, x) && x in m.k.fs.dirs ensures PathOf(m.k.fs, x) != full {
      if PathOf(m.k.fs, x) == full { PathInjective(fs', x, op.d); }
    }
    Uncached(m, full);
  }

  lemma MkdirHandled(m: Monitor, op: Op, walks: map<Inode, seq<Inode>>)
    requires Ready(m, op, walks) && op.Mkdir? && Watched(m.k, op.p)
    ensures var m' := Changed(m, op, walks);
      ValidKernel(m'.k) && Process(m', EventsOf(m.k, op), false)
        == Outcome(WatchSubtree(m', Join(PathOf(m.k.fs, op.p), op.name)), Took(1), [])
  {
    Seen(m, op.p);
    MkdirUncached(m, op, walks);
    ChangedSound(m, op, walks);
    hide Valid; hide ValidWalks; hide ValidWatches; hide Synced; hide WatchSubtree; hide PathOf; hide RootsApart; hide RootsListed; hide Watching;
    hide KernelAfter; hide Can; hide Wd; hide Monitored; hide FindPath;
  }

  lemma MkdirAgrees(m: Monitor, op: Op, walks: map<Inode, seq<Inode>>)
    requires Ready(m, op, walks) && op.Mkdir?
    ensures var r := After(m, op, walks); !r.exited && Sound(r) && Agree(r)
  {
    var m' := Changed(m, op, walks);
    var full := Join(PathOf(m.k.fs, op.p), op.name);
    MkdirTree(m.k.fs, op.d, op.p, op.name);
    MkdirSynced(m, op, walks);
    MkdirChanged(m, op, walks);
    ChangedSound(m, op, walks);
    assert Watched(m.k, op.p) <==> InTree(m.k.fs, op.p);
    var queue := EventsOf(m.k, op);
    assert Watched(m.k, op.p) ==> |queue| == 1;
    assert !Watched(m.k, op.p) ==> queue == [];
    if Watched(m.k, op.p) {
      MkdirHandled(m, op, walks);
      ResolvePath(m'.k.fs, op.d);
      hide EventsOf; hide Process; hide Valid; hide ValidWalks; hide Synced; hide WatchSubtree; hide RootsApart; hide RootsListed;
      hide Drain; hide PathOf; hide Monitored; hide Subtree; hide Changed; hide Ready; hide Resolve;
      WatchSubtreeSynced(m', full);
      DrainLast(m', queue, Outcome(WatchSubtree(m', full), Took(1), []));
      SoundKept(m', WatchSubtree(m', full));
    }
  }

  // ----- a root is given up -----

  lemma {:induction false} NonesUpdate(roots: seq<Option<string>>, i: nat)
    requires i < |roots| && roots[i].Some?
    ensures Nones(roots[i := None]) == Nones(roots) + 1 <= |roots|
  {
    var after := roots[i := None];
    NonesBound(roots[1..]);
    if i == 0 {
      assert after[1..] == roots[1..];
    } else {
      assert after[1..] == roots[1..][i - 1 := None];
      NonesUpdate(roots[1..], i - 1);
    }
  }

  lemma {:induction false} NonesBound(roots: seq<Option<string>>)
    ensures Nones(roots) <= |roots|
    ensures Nones(roots) == |roots| <==> forall i :: 0 <= i < |roots| ==> roots[i].None?
  {
    if roots != [] {
      NonesBound(roots[1..]);
      if forall i :: 0 <= i < |roots| ==> roots[i].None? {
        assert forall i :: 0 <= i < |roots[1..]| ==> roots[1..][i] == roots[i + 1];
      } else if roots[0].None? {
        var i :| 0 <= i < |roots| && roots[i].Some?;
        assert roots[1..][i - 1] == roots[i];
      }
    }
  }

  ghost predicate NoRootsLeft(roots: seq<Option<string>>) {
    forall i :: 0 <= i < |roots| ==> roots[i].None?
  }

  /** Giving up a listed root takes it off the list; the program exits exactly when none is left. */
  lemma ZapRootKeeps(m: Monitor, path: string)
    requires RootsApart(m.roots) && m.ignored == Nones(m.roots) && !m.exited && FindRoot(m.roots, path) >= 0
    ensures var m' := ZapRoot(m, path);
      && m'.k == m.k && m'.slots == m.slots
      && RootsApart(m'.roots) && m'.ignored == Nones(m'.roots)
      && (forall p :: Some(p) in m'.roots <==> Some(p) in m.roots && p != path)
      && (m'.exited <==> NoRootsLeft(m'.roots))
  {
    var i := FindRoot(m.roots, path);
    var roots' := m.roots[i := None];
    NonesUpdate(m.roots, i);
    NonesBound(roots');
    forall p | Some(p) in m.roots && p != path ensures Some(p) in roots' {
      var j :| 0 <= j < |m.roots| && m.roots[j] == Some(p);
      assert roots'[j] == Some(p);
    }
    assert AtOrBelow(path, path);
    forall p | Some(p) in roots' ensures Some(p) in m.roots && p != path {
      var j :| 0 <= j < |roots'| && roots'[j] == Some(p);
      assert m.roots[j] == Some(p);
    }
  }

  lemma ZapRootSound(m: Monitor, path: string)
    requires Sound(m) && !m.exited && FindRoot(m.roots, path) >= 0
    requires forall d {:trigger m.k.fs.dirs[d]} :: d in m.k.fs.dirs && m.k.fs.dirs[d].Root? ==> m.k.fs.dirs[d].path != path
    ensures var m' := ZapRoot(m, path);
      m'.k == m.k && m'.slots == m.slots && Sound(m') && (m'.exited <==> NoRootsLeft(m'.roots))
  {
    ZapRootKeeps(m, path);
    hide ValidKernel; hide ZapRoot; hide RootsApart; hide Nones; hide FindRoot; hide NoRootsLeft;
  }

  // ----- a watched directory ends -----

  /** Only watch `w` has ended; its slot is still in the cache. */
  ghost predicate Stale(m: Monitor, w: nat) {
    match m
    case Monitor(k, slots, _, _, _) =>
      && ValidKernel(k) && WellFormed(slots) && w in View(slots)
      && Paired(k.fs, View(slots) - {w}, k.watches) && Flagged(k.fs, k.watches, k.moveSelf)
  }

  lemma StaleEmptied(m: Monitor, w: nat)
    requires Stale(m, w)
    ensures var slot := FindWatch(m.slots, w);
      slot >= 0 && m.slots[slot].path == View(m.slots)[w] && Synced(m.(slots := MarkEmpty(m.slots, slot)))
  {
    ViewFind(m.slots, w);
    MarkEmptyView(m.slots, FindWatch(m.slots, w));
    hide ValidKernel; hide View; hide WellFormed; hide MarkEmpty; hide Paired; hide Flagged;
  }

  lemma EndedPaired(fs: Tree, fs': Tree, view: map<int, string>, watches: map<int, Inode>, w: int)
    requires Valid(fs) && Valid(fs') && Paired(fs, view, watches)
    requires forall v :: v in watches && v != w ==>
      var x := watches[v]; x in fs'.dirs && InTree(fs', x) && PathOf(fs', x) == PathOf(fs, x)
    ensures Paired(fs', view - {w}, watches - {w})
  {
    hide Valid; hide InTree; hide PathOf;
  }

  lemma EndedFlagged(fs: Tree, fs': Tree, watches: map<int, Inode>, moveSelf: set<int>, w: int)
    requires Flagged(fs, watches, moveSelf)
    requires forall v :: v in watches && v != w ==> var x := watches[v]; x in fs.dirs && x in fs'.dirs && fs'.dirs[x] == fs.dirs[x]
    ensures Flagged(fs', watches - {w}, moveSelf - {w})
  {
  }

  lemma SyncedParts(m: Monitor)
    requires Synced(m)
    ensures ValidKernel(m.k) && Valid(m.k.fs) && WellFormed(m.slots) && Paired(m.k.fs, View(m.slots), m.k.watches)
    ensures Flagged(m.k.fs, m.k.watches, m.k.moveSelf)
  {
  }

  lemma StaleParts(m: Monitor, w: nat)
    requires Valid(m.k.fs) && ValidWalks(m.k.fs, m.k.walks) && ValidWatches(m.k.fs, m.k.watches, m.k.nextWd)
    requires WellFormed(m.slots) && w in View(m.slots)
    requires Paired(m.k.fs, View(m.slots) - {w}, m.k.watches) && Flagged(m.k.fs, m.k.watches, m.k.moveSelf)
    ensures Stale(m, w)
  {
  }

  /** The watch on a directory that no longer exists has ended; all others stay in step. */
  lemma EndedStale(m: Monitor, fs': Tree, walks: map<Inode, seq<Inode>>, d: Inode)
    requires Synced(m) && Valid(fs') && ValidWalks(fs', walks) && Watched(m.k, d)
    requires forall x :: x in m.k.fs.dirs && Watched(m.k, x) && x != d ==>
      x in fs'.dirs && fs'.dirs[x] == m.k.fs.dirs[x] && InTree(fs', x) && PathOf(fs', x) == PathOf(m.k.fs, x)
    ensures var w := Wd(m.k, d);
      && Stale(m.(k := EndWatches(m.k.(fs := fs', walks := walks), {w})), w)
      && View(m.slots)[w] == PathOf(m.k.fs, d)
  {
    hide *;
    SyncedParts(m);
    OthersWatch(m.k, d);
    var w := Wd(m.k, d);
    PairedAt(m.k.fs, View(m.slots), m.k.watches, w);
    EndedWatches(m.k.(fs := fs', walks := walks), m.k.fs, w);
    EndedPaired(m.k.fs, fs', View(m.slots), m.k.watches, w);
    EndedFlagged(m.k.fs, fs', m.k.watches, m.k.moveSelf, w);
    StaleParts(m.(k := EndWatches(m.k.(fs := fs', walks := walks), {w})), w);
  }

  /** A directory has one watch; the others are on other directories. */
  lemma OthersWatch(k: Kernel, d: Inode)
    requires ValidKernel(k) && Watched(k, d)
    ensures Wd(k, d) in k.watches && k.watches[Wd(k, d)] == d && ValidWatches(k.fs, k.watches, k.nextWd)
    ensures forall v :: v in k.watches && v != Wd(k, d) ==> k.watches[v] != d && Watched(k, k.watches[v]) && k.watches[v] in k.fs.dirs
  {
    hide Valid; hide ValidWalks;
  }

  lemma EndedWatches(k: Kernel, fs: Tree, w: int)
    requires ValidWatches(fs, k.watches, k.nextWd) && forall v :: v in k.watches && v != w ==> k.watches[v] in k.fs.dirs
    ensures var k' := EndWatches(k, {w});
      && k'.fs == k.fs && k'.walks == k.walks && k'.watches == k.watches - {w} && k'.moveSelf == k.moveSelf - {w} && k'.nextWd == k.nextWd
      && ValidWatches(k'.fs, k'.watches, k'.nextWd)
  {
  }

  lemma PairedAt(fs: Tree, view: map<int, string>, watches: map<int, Inode>, w: int)
    requires Valid(fs) && Paired(fs, view, watches) && w in watches
    ensures w in view && watches[w] in fs.dirs && view[w] == PathOf(fs, watches[w])
  {
  }

  lemma RemoveTree(fs: Tree, d: Inode)
    requires Valid(fs) && CanRemove(fs, d)
    ensures var fs' := Remove(fs, d);
      && Valid(fs') && Monitored(fs') == Monitored(fs) - {d}
      && (forall x :: x in fs.dirs && x != d ==>
            x in fs'.dirs && fs'.dirs[x] == fs.dirs[x] && InTree(fs', x) == InTree(fs, x) && PathOf(fs', x) == PathOf(fs, x))
  {
    RemoveValid(fs, d);
    RemoveFacts(fs, d);
    var fs' := Remove(fs, d);
    hide Valid; hide PathOf; hide TopOf;
    forall x | x in fs.dirs && x != d ensures x in fs'.dirs && fs'.dirs[x] == fs.dirs[x] && InTree(fs', x) == InTree(fs, x) {
      var top := TopOf(fs, x);
      assert top in fs'.dirs && fs'.dirs[top] == fs.dirs[top];
    }
  }

  lemma EndedValues(watches: map<int, Inode>, w: int)
    requires w in watches && forall v :: v in watches && watches[v] == watches[w] ==> v == w
    ensures (watches - {w}).Values == watches.Values - {watches[w]}
  {
    var after := watches - {w};
    forall v | v in watches && v != w ensures watches[v] in after.Values { assert after[v] == watches[v]; }
    forall v | v in after ensures after[v] in watches.Values && after[v] != watches[w] { assert after[v] == watches[v]; }
  }

  lemma RmdirChanged(m: Monitor, op: Op, walks: map<Inode, seq<Inode>>)
    requires Ready(m, op, walks) && op.Rmdir?
    ensures var fs' := Remove(m.k.fs, op.d);
      Changed(m, op, walks).k == EndWatches(m.k.(fs := fs', walks := walks), if Watched(m.k, op.d) then {Wd(m.k, op.d) as int} else {})
  {
    hide EndWatches; hide Sound; hide Agree; hide ValidWalks; hide Can;
  }

  /** The monitor once the end of directory `d` has been handled. */
  ghost function Bereft(m: Monitor, w: nat): Monitor
    requires FindWatch(m.slots, w) >= 0
  {
    var slot := FindWatch(m.slots, w);
    var path := m.slots[slot].path;
    (if FindRoot(m.roots, path) >= 0 then ZapRoot(m, path) else m).(slots := MarkEmpty(m.slots, slot))
  }

  lemma FarewellHandled(m: Monitor, w: nat, queue: seq<Event>)
    requires Stale(m, w) && !m.exited && queue == [DeleteSelf(w), Ignored(w)]
    ensures FindWatch(m.slots, w) >= 0
    ensures var r := Drain(System(m, queue)).m; r == Bereft(m, w) || (r.exited && Bereft(m, w).exited && r.roots == Bereft(m, w).roots && r.k == m.k)
  {
    StaleEmptied(m, w);
    var o := Process(m, queue, false);
    var r := Bereft(m, w);
    hide ValidKernel; hide View; hide WellFormed; hide Paired; hide Flagged; hide MarkEmpty;
    if r.exited {
      assert o.verdict == Discard;
    } else {
      assert o == Outcome(r, Took(1), []);
      assert queue[1..] + [] == [Ignored(w)];
      hide Process; hide Bereft;
      DrainLast(m, queue, o);
    }
  }

  /** The outcome promised: agreement again, or an exit because no root is left, on the list or in the file systems. */
  ghost predicate Settled(m: Monitor) {
    match m
    case Monitor(k, _, roots, _, exited) =>
      if exited then NoRootsLeft(roots) && RootsListed(k.fs, roots) else Sound(m) && Agree(m)
  }

  /** A listed root that is gone can be taken off the list. */
  lemma BereftSound(m: Monitor, w: nat, path: string)
    requires Stale(m, w) && Sound(m) && !m.exited && View(m.slots)[w] == path
    requires forall d {:trigger m.k.fs.dirs[d]} :: d in m.k.fs.dirs && m.k.fs.dirs[d].Root? ==> m.k.fs.dirs[d].path != path
    ensures FindWatch(m.slots, w) >= 0
    ensures var r := Bereft(m, w);
      (r.exited ==> NoRootsLeft(r.roots)) && Sound(r) && SyncedOn(r, m.k.watches.Values)
  {
    StaleEmptied(m, w);
    if FindRoot(m.roots, path) >= 0 { ZapRootSound(m, path); }
    hide ValidKernel; hide View; hide WellFormed; hide Paired; hide Flagged; hide MarkEmpty; hide ZapRoot; hide RootsApart; hide RootsListed; hide Nones;
  }

  lemma OtherRootsPaths(fs: Tree, d: Inode)
    requires Valid(fs) && d in fs.dirs && InTree(fs, d)
    ensures forall e {:trigger fs.dirs[e]} :: e in fs.dirs && e != d && fs.dirs[e].Root? ==> fs.dirs[e].path != PathOf(fs, d)
  {
    forall e | e in fs.dirs && e != d && fs.dirs[e].Root? ensures fs.dirs[e].path != PathOf(fs, d) {
      if fs.dirs[e].path == PathOf(fs, d) { PathInjective(fs, e, d); }
    }
  }

  lemma RmdirStale(m: Monitor, op: Op, walks: map<Inode, seq<Inode>>)
    requires Ready(m, op, walks) && op.Rmdir? && Watched(m.k, op.d)
    ensures var m' := Changed(m, op, walks); var w := Wd(m.k, op.d);
      && Stale(m', w) && View(m'.slots)[w] == PathOf(m.k.fs, op.d)
      && m'.k.watches.Values == Monitored(m'.k.fs)
  {
    RemoveTree(m.k.fs, op.d);
    RmdirChanged(m, op, walks);
    assert forall x :: x in m.k.fs.dirs && Watched(m.k, x) ==> InTree(m.k.fs, x);
    EndedStale(m, Remove(m.k.fs, op.d), walks, op.d);
    EndedValues(m.k.watches, Wd(m.k, op.d));
    hide Changed; hide Valid; hide ValidWalks; hide Monitored; hide Synced; hide Stale; hide View; hide Remove; hide PathOf; hide InTree;
  }

  lemma RmdirUnwatched(m: Monitor, op: Op, walks: map<Inode, seq<Inode>>)
    requires Ready(m, op, walks) && op.Rmdir? && !Watched(m.k, op.d)
    ensures Agree(Changed(m, op, walks))
  {
    hide Valid; hide ValidWalks; hide View; hide PathOf; hide TopOf; hide Remove; hide WellFormed; hide Flagged;
    hide RootsApart; hide RootsListed; hide Nones; hide EndWatches;
    RemoveTree(m.k.fs, op.d);
    RmdirChanged(m, op, walks);
    var fs' := Remove(m.k.fs, op.d);
    EndNone(m.k.(fs := fs', walks := walks));
    assert forall w :: w in m.k.watches ==> m.k.watches[w] != op.d;
    StillSynced(m, fs', walks);
    hide Changed; hide Monitored; hide Synced; hide InTree;
  }

  /** The end of a watched directory, whose path no root has any more, is handled. */
  lemma FarewellSettles(m: Monitor, w: nat, path: string)
    requires Stale(m, w) && Sound(m) && !m.exited && View(m.slots)[w] == path && m.k.watches.Values == Monitored(m.k.fs)
    requires forall e {:trigger m.k.fs.dirs[e]} :: e in m.k.fs.dirs && m.k.fs.dirs[e].Root? ==> m.k.fs.dirs[e].path != path
    ensures Settled(Drain(System(m, [DeleteSelf(w), Ignored(w)])).m)
  {
    BereftSound(m, w, path);
    FarewellHandled(m, w, [DeleteSelf(w), Ignored(w)]);
    hide ValidKernel; hide Stale; hide View; hide PathOf; hide Monitored; hide Synced; hide Drain; hide Nones; hide RootsApart; hide FindRoot; hide FindWatch;
  }

  lemma RmdirTold(m: Monitor, op: Op, walks: map<Inode, seq<Inode>>)
    requires Ready(m, op, walks) && op.Rmdir? && Watched(m.k, op.d)
    ensures Changed(m, op, walks).k.fs == Remove(m.k.fs, op.d)
    ensures EventsOf(m.k, op) == [DeleteSelf(Wd(m.k, op.d)), Ignored(Wd(m.k, op.d))]
    ensures InTree(m.k.fs, op.d) && op.d in m.k.fs.dirs
  {
    RmdirChanged(m, op, walks);
    hide Valid; hide ValidWalks; hide RootsApart; hide RootsListed; hide Wd; hide InTree; hide PathOf; hide Remove; hide Changed;
  }

  lemma RemovedRoots(fs: Tree, d: Inode)
    ensures forall e :: e in Remove(fs, d).dirs ==> e != d && e in fs.dirs && Remove(fs, d).dirs[e] == fs.dirs[e]
  {
  }

  lemma RmdirSettles(m: Monitor, op: Op, walks: map<Inode, seq<Inode>>)
    requires Ready(m, op, walks) && op.Rmdir?
    ensures Settled(After(m, op, walks))
  {
    ReadyFacts(m, op, walks);
    ChangedSound(m, op, walks);
    hide Valid; hide ValidWalks; hide View; hide PathOf; hide InTree; hide Sound; hide Agree; hide Monitored; hide Synced; hide ValidKernel;
    hide Ready; hide Changed; hide Can; hide TreeAfter; hide Wd; hide Stale; hide After; hide Remove;
    if Watched(m.k, op.d) {
      RmdirTold(m, op, walks);
      RmdirStale(m, op, walks);
      OtherRootsPaths(m.k.fs, op.d);
      RemovedRoots(m.k.fs, op.d);
      FarewellSettles(Changed(m, op, walks), Wd(m.k, op.d), PathOf(m.k.fs, op.d));
    } else {
      RmdirUnwatched(m, op, walks);
      DrainQuiet(Changed(m, op, walks), []);
    }
  }

  // ----- files that are not directories -----

  /** An event about something that is not a directory, in a directory that is in the cache. */
  predicate FileEvent(slots: seq<Slot>, ev: Event) {
    (ev.Create? || ev.MovedFrom? || ev.MovedTo?) && !ev.isDir && FindWatch(slots, ev.wd) >= 0
  }

  /** A directory in the cache has moved, but under a path that is not on the list of roots. */
  predicate UnlistedMove(m: Monitor, ev: Event) {
    ev.MoveSelf? && FindWatch(m.slots, ev.wd) >= 0 && FindRoot(m.roots, m.slots[FindWatch(m.slots, ev.wd)].path) == -1
  }

  /** Whatever the cache, such events, and ends of watches, leave everything as it is. */
  lemma {:induction false} DrainIdle(m: Monitor, queue: seq<Event>)
    requires ValidKernel(m.k) && !m.exited
    requires forall i :: 0 <= i < |queue| ==> queue[i].Ignored? || FileEvent(m.slots, queue[i]) || UnlistedMove(m, queue[i])
    ensures Drain(System(m, queue)) == System(m, [])
    decreases |queue|
  {
    hide ValidKernel; hide Follows; hide Drain; hide FindRoot; hide Reinitialize; hide Appeared; hide Left; hide RewriteAll; hide MarkEmpty;
    if queue == [] {
      DrainQuiet(m, queue);
    } else {
      assert Process(m, queue, false) == Outcome(m, Took(1), []);
      hide Process;
      DrainStep(m, queue);
      assert queue[1..] + [] == queue[1..];
      DrainIdle(m, queue[1..]);
    }
  }

  lemma FileChanged(m: Monitor, op: Op, walks: map<Inode, seq<Inode>>)
    requires Ready(m, op, walks) && OfFile(op)
    ensures Changed(m, op, walks) == m.(k := m.k.(walks := walks))
    ensures ValidWalks(m.k.fs, walks)
  {
    EndNone(m.k.(walks := walks));
    hide EndWatches; hide Sound; hide Agree; hide ValidWalks; hide Can;
  }

  ghost predicate FileEventsOnly(slots: seq<Slot>, queue: seq<Event>) {
    forall i :: 0 <= i < |queue| ==> FileEvent(slots, queue[i])
  }

  lemma FileFrom(m: Monitor, src: Dir, cookie: nat)
    requires Synced(m)
    ensures FileEventsOnly(m.slots, FromEvent(m.k, src, cookie, false))
  {
    if src.Sub? && Watched(m.k, src.parent) { Seen(m, src.parent); }
    hide ValidKernel; hide Synced; hide Watched; hide FindWatch; hide Wd;
  }

  lemma FileTo(m: Monitor, loc: Dir, cookie: nat)
    requires Synced(m)
    ensures FileEventsOnly(m.slots, ToEvent(m.k, loc, cookie, false))
  {
    if loc.Sub? && Watched(m.k, loc.parent) { Seen(m, loc.parent); }
    hide ValidKernel; hide Synced; hide Watched; hide FindWatch; hide Wd;
  }

  lemma FileMade(m: Monitor, op: Op)
    requires Synced(m) && Can(m.k.fs, op) && op.MakeFile?
    ensures FileEventsOnly(m.slots, EventsOf(m.k, op))
  {
    if Watched(m.k, op.p) { Seen(m, op.p); }
    hide ValidKernel; hide Synced; hide Watched; hide FindWatch; hide Wd; hide Can;
  }

  lemma FileEvents(m: Monitor, op: Op)
    requires Synced(m) && Can(m.k.fs, op) && OfFile(op)
    ensures FileEventsOnly(m.slots, EventsOf(m.k, op))
  {
    if op.MakeFile? {
      FileMade(m, op);
    } else {
      FileFrom(m, op.source, op.cookie);
      FileTo(m, op.target, op.cookie);
    }
    hide ValidKernel; hide Synced; hide Can; hide FileEvent; hide FromEvent; hide ToEvent;
  }

  /** So making, moving or renaming a plain file changes neither the cache, nor the watches, nor the list of roots. */
  lemma FileSettles(m: Monitor, op: Op, walks: map<Inode, seq<Inode>>)
    requires Ready(m, op, walks) && OfFile(op)
    ensures After(m, op, walks) == m.(k := m.k.(walks := walks))
    ensures Settled(After(m, op, walks))
  {
    FileChanged(m, op, walks);
    ReadyFacts(m, op, walks);
    FileEvents(m, op);
    SyncedWatched(m);
    hide EventsOf; hide Valid; hide ValidWalks; hide Drain; hide Can; hide FileEvent; hide TreeAfter; hide Changed;
    hide View; hide WellFormed; hide Paired; hide Flagged; hide Ready; hide After;
    DrainIdle(Changed(m, op, walks), EventsOf(m.k, op));
    StillSynced(m, m.k.fs, walks);
  }
}
