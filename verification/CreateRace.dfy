/**
 Directories made and removed, and files made, moved and renamed, by other
 processes while the program walks trees
 and handles events, in any interleaving. A walk watches a directory, then lists
 it, entry by entry; events are handled only between walks.
 */
module CreateRace {
  import opened Options
  import opened Paths
  import opened FileTree
  import opened TreeChanges
  import opened WatchCache
  import opened Inotify
  import opened Handler
  import opened Agreement
  import opened Operations
  import opened Simulation

  /** What a walk has still to do: visit a pathname, open it, or read the rest of a listing. */
  datatype Work =
    | Visit(path: string)
    | Open(path: string)
    | Listing(dir: Inode, path: string, names: set<string>)

  datatype State = State(m: Monitor, queue: seq<Event>, work: set<Work>)

  // ----- steps -----

  /** `walks` are the walks of the trees after an operation. */
  datatype Step =
    | Other(op: Op, walks: map<Inode, seq<Inode>>)
    | Watch(path: string)
    | List(path: string)
    | Entry(listing: Work, name: string)
    | Close(listing: Work)
    | Handle

  ghost function Names(fs: Tree, d: Inode): set<string> {
    set e | e in fs.dirs && fs.dirs[e].Sub? && fs.dirs[e].parent == d :: fs.dirs[e].name
  }

  ghost predicate CanStep(s: State, step: Step)
    requires ValidKernel(s.m.k)
  {
    var fs := s.m.k.fs;
    match step
    case Other(op, walks) =>
      && (op.Mkdir? || op.Rmdir? || OfFile(op)) && Can(fs, op) && ValidWalks(TreeAfter(fs, op), walks)
      && (op.Rmdir? ==> !fs.dirs[op.d].Root?)
      && (op.Mkdir? ==> forall w :: w in s.work && w.Listing? ==> w.dir != op.d)  // an open directory keeps its inode number
    case Watch(path) => Visit(path) in s.work
    case List(path) => Open(path) in s.work
    case Entry(listing, name) => listing in s.work && listing.Listing? && (name in listing.names || name in Names(fs, listing.dir))
    case Close(listing) => listing in s.work && listing.Listing? && listing.names == {}
    case Handle => s.work == {} && s.queue != []
  }

  /** The handler's step; the walk it starts for a new directory is left as work. */
  ghost function Handled(s: State): State
    requires ValidKernel(s.m.k) && s.queue != []
  {
    var ev := s.queue[0];
    var slot := if ev.Create? then FindWatch(s.m.slots, ev.wd) else -1;
    if slot >= 0 && ev.isDir then
      var full := Join(s.m.slots[slot].path, ev.name);
      State(s.m, s.queue[1..], if FindPath(s.m.slots, full) == -1 then {Visit(full)} else {})
    else
      var o := Process(s.m, s.queue, false);
      State(o.m, if o.verdict.Took? then s.queue[o.verdict.n..] + o.emitted else [], {})
  }

  ghost function Next(s: State, step: Step): State
    requires ValidKernel(s.m.k) && CanStep(s, step)
  {
    match step
    case Other(op, walks) => State(s.m.(k := KernelAfter(s.m.k, op, walks)), s.queue + EventsOf(s.m.k, op), s.work)
    case Watch(path) =>
      State(TraverseTree(s.m, path), s.queue,
            s.work - {Visit(path)} + (if Resolve(s.m.k.fs, path).Some? then {Open(path)} else {}))
    case List(path) =>
      var r := Resolve(s.m.k.fs, path);
      s.(work := s.work - {Open(path)} + (if r.Some? then {Listing(r.value, path, Names(s.m.k.fs, r.value))} else {}))
    case Entry(listing, name) =>
      s.(work := s.work - {listing} + {listing.(names := listing.names - {name}), Visit(Join(listing.path, name))})
    case Close(listing) => s.(work := s.work - {listing})
    case Handle => Handled(s)
  }

  // ----- the invariant -----

  /** Live entries are true; the others' watches have ended. */
  ghost predicate Entries(fs: Tree, view: map<int, string>, watches: map<int, Inode>)
    requires Valid(fs)
  {
    match fs
    case Tree(dirs, _) =>
      forall w: int :: w in watches ==> w in view && watches[w] in dirs && InTree(fs, watches[w]) && view[w] == PathOf(fs, watches[w])
  }

  /** The events are of watches in the cache, and none of a watch follows its end. */
  ghost predicate EventAt(view: map<int, string>, watches: map<int, Inode>, queue: seq<Event>, i: nat)
    requires i < |queue|
  {
    match queue[i]
    case Create(w, _, _) => w in view && forall j :: 0 <= j < i ==> queue[j] != DeleteSelf(w)
    case MovedFrom(w, _, _, isDir) => !isDir && w in view && forall j :: 0 <= j < i ==> queue[j] != DeleteSelf(w)
    case MovedTo(w, _, _, isDir) => !isDir && w in view && forall j :: 0 <= j < i ==> queue[j] != DeleteSelf(w)
    case DeleteSelf(w) => w in view && w !in watches && forall j :: 0 <= j < |queue| && j != i ==> queue[j] != DeleteSelf(w)
    case Ignored(_) => true
    case _ => false
  }

  ghost predicate Events(view: map<int, string>, watches: map<int, Inode>, queue: seq<Event>) {
      && (forall i {:trigger EventAt(view, watches, queue, i)} :: 0 <= i < |queue| ==> EventAt(view, watches, queue, i))
      && (forall w: int :: w in view && w !in watches ==> w >= 0 && DeleteSelf(w) in queue)
  }

  /** The queue will tell of `d`, and by then no ended watch is cached under its path. */
  ghost predicate Announced(fs: Tree, view: map<int, string>, queue: seq<Event>, w: int, d: Inode, i: int)
    requires Valid(fs) && d in fs.dirs && fs.dirs[d].Sub?
  {
    && 0 <= i < |queue| && w >= 0 && queue[i] == Create(w, fs.dirs[d].name, true)
    && forall j :: i < j < |queue| && queue[j].DeleteSelf? && queue[j].wd in view ==> view[queue[j].wd] != PathOf(fs, d)
  }

  /** Something still to be done will come upon `d`. */
  ghost predicate Covered(fs: Tree, view: map<int, string>, watches: map<int, Inode>, queue: seq<Event>, work: set<Work>, d: Inode)
    requires Valid(fs) && d in fs.dirs
  {
    match fs.dirs[d]
    case Sub(p, name) =>
      || Visit(PathOf(fs, d)) in work
      || (p in fs.dirs && Open(PathOf(fs, p)) in work)
      || (p in fs.dirs && exists names :: Listing(p, PathOf(fs, p), names) in work && name in names)
      || (exists w, i :: w in watches && watches[w] == p && Announced(fs, view, queue, w, d, i))
    case _ => Visit(PathOf(fs, d)) in work
  }

  /** Every unwatched directory whose parent is watched, and every unwatched root, is covered. */
  ghost predicate Coverage(fs: Tree, view: map<int, string>, watches: map<int, Inode>, queue: seq<Event>, work: set<Work>)
    requires Valid(fs)
  {
    forall d {:trigger Covered(fs, view, watches, queue, work, d)} ::
      d in fs.dirs && InTree(fs, d) && d !in watches.Values && (fs.dirs[d].Sub? ==> fs.dirs[d].parent in watches.Values) ==>
        Covered(fs, view, watches, queue, work, d)
  }

  /** A listing of a directory that still exists is under its true path. */
  ghost predicate Listings(fs: Tree, work: set<Work>)
    requires Valid(fs)
  {
    forall l :: l in work && l.Listing? && l.dir in fs.dirs ==> InTree(fs, l.dir) && l.path == PathOf(fs, l.dir)
  }

  ghost predicate Core(fs: Tree, view: map<int, string>, watches: map<int, Inode>, queue: seq<Event>, work: set<Work>) {
    match fs
    case Tree(_, _) =>
      && Valid(fs)
      && Entries(fs, view, watches)
      && Events(view, watches, queue)
      && Coverage(fs, view, watches, queue, work)
      && Listings(fs, work)
  }

  ghost predicate Inv(s: State) {
    match s
    case State(m, queue, work) =>
      && Sound(m) && !m.exited && WellFormed(m.slots)
      && (forall w: int :: w in View(m.slots) ==> w < m.k.nextWd)
      && (forall w: int :: w in View(m.slots) && w !in m.k.watches ==> FindRoot(m.roots, View(m.slots)[w]) == -1)
      && Flagged(m.k.fs, m.k.watches, m.k.moveSelf)
      && Core(m.k.fs, View(m.slots), m.k.watches, queue, work)
  }

  // ----- with nothing left to do, the cache agrees -----

  lemma {:induction false} AllWatched(fs: Tree, view: map<int, string>, watches: map<int, Inode>, d: Inode)
    requires Valid(fs) && Coverage(fs, view, watches, [], {}) && d in fs.dirs && InTree(fs, d)
    ensures d in watches.Values
    decreases fs.rank[d]
  {
    assert Placed(fs, d);
    if fs.dirs[d].Sub? { AllWatched(fs, view, watches, fs.dirs[d].parent); }
    assert !Covered(fs, view, watches, [], {}, d);
  }

  /** Whatever happened before: once the queue is empty and no walk is under way, the cache agrees. */
  lemma QuiescentAgrees(s: State)
    requires Inv(s) && s.queue == [] && s.work == {}
    ensures Agree(s.m)
  {
    var k := s.m.k;
    var view := View(s.m.slots);
    forall d | d in Monitored(k.fs) ensures d in k.watches.Values { AllWatched(k.fs, view, k.watches, d); }
    hide Valid; hide ValidWalks; hide WellFormed; hide Flagged; hide Coverage; hide RootsApart; hide RootsListed; hide View;
    forall d | d in k.watches.Values ensures d in Monitored(k.fs) { var w := WatchOn(k.watches, d); }
    OnlyLive(k.fs, view, k.watches);
    assert Paired(k.fs, view, k.watches);
  }

  lemma OnlyLive(fs: Tree, view: map<int, string>, watches: map<int, Inode>)
    requires Valid(fs) && Events(view, watches, []) && Entries(fs, view, watches)
    ensures view.Keys == watches.Keys
  {
    assert forall w: int :: w in view ==> w in watches;
    assert forall w: int :: w in watches ==> w in view;
  }

  // ----- the start -----

  /** A new inotify instance, an empty cache, and every listed root still to be visited. */
  ghost function Start(m: Monitor): State
    requires ValidKernel(m.k)
  {
    State(m.(k := NewInstance(m.k), slots := []), [], set r | r in m.roots && r.Some? :: Visit(r.value))
  }

  lemma StartInv(m: Monitor)
    requires Sound(m) && !m.exited
    ensures Inv(Start(m))
  {
  }

  // ----- queue lemmas -----

  /** Taking the head off keeps what the queue says, for a cache that only lost entries whose end was at the head. */
  lemma EventsTail(view: map<int, string>, view': map<int, string>, watches: map<int, Inode>, queue: seq<Event>)
    requires queue != [] && Events(view, watches, queue)
    requires if queue[0].DeleteSelf? then view' == view - {queue[0].wd} else view' == view
    ensures Events(view', watches, queue[1..])
  {
    var rest := queue[1..];
    assert EventAt(view, watches, queue, 0);
    forall i | 0 <= i < |rest| ensures EventAt(view', watches, rest, i) {
      assert EventAt(view, watches, queue, i + 1);
      assert rest[i] == queue[i + 1] && forall j :: 0 <= j < |rest| ==> rest[j] == queue[j + 1];
    }
    forall w: int | w in view' && w !in watches ensures w >= 0 && DeleteSelf(w) in rest {
      var j :| 0 <= j < |queue| && queue[j] == DeleteSelf(w);
      assert rest[j - 1] == queue[j];
    }
  }

  lemma AnnouncedTail(fs: Tree, view: map<int, string>, view': map<int, string>, queue: seq<Event>, w: int, d: Inode, i: int)
    requires Valid(fs) && d in fs.dirs && fs.dirs[d].Sub? && i > 0 && Announced(fs, view, queue, w, d, i)
    requires forall v :: v in view' ==> v in view && view'[v] == view[v]
    ensures Announced(fs, view', queue[1..], w, d, i - 1)
  {
  }

  /** Coverage by other means than the head of the queue outlives the head. */
  lemma CoveredTail(fs: Tree, view: map<int, string>, view': map<int, string>, watches: map<int, Inode>, queue: seq<Event>,
                    work: set<Work>, work': set<Work>, d: Inode)
    requires Valid(fs) && d in fs.dirs && queue != [] && work <= work' && Covered(fs, view, watches, queue, work, d)
    requires forall v :: v in view' ==> v in view && view'[v] == view[v]
    ensures Covered(fs, view', watches, queue[1..], work', d)
      || (fs.dirs[d].Sub? && exists w :: w in watches && watches[w] == fs.dirs[d].parent && Announced(fs, view, queue, w, d, 0))
  {
    if fs.dirs[d].Sub? {
      forall w, i | w in watches && watches[w] == fs.dirs[d].parent && Announced(fs, view, queue, w, d, i) && i > 0
        ensures Announced(fs, view', queue[1..], w, d, i - 1)
      {
        AnnouncedTail(fs, view, view', queue, w, d, i);
      }
    }
  }

  // ----- walking -----

  /** Work may be exchanged for other work that covers the same directories. */
  lemma WorkChanges(fs: Tree, view: map<int, string>, watches: map<int, Inode>, queue: seq<Event>, work: set<Work>, work': set<Work>)
    requires Core(fs, view, watches, queue, work) && Listings(fs, work')
    requires forall d :: d in fs.dirs && InTree(fs, d) && d !in watches.Values && Covered(fs, view, watches, queue, work, d) ==>
      Covered(fs, view, watches, queue, work', d)
    ensures Core(fs, view, watches, queue, work')
  {
    hide Valid; hide InTree; hide Events; hide Entries; hide Covered; hide Listings;
  }

  /** A visit to a path that is gone, or to a watched directory, covers no unwatched one. */
  lemma VisitKnown(fs: Tree, view: map<int, string>, watches: map<int, Inode>, queue: seq<Event>, work: set<Work>, path: string)
    requires Core(fs, view, watches, queue, work)
    requires Resolve(fs, path).Some? ==> Resolve(fs, path).value in watches.Values
    ensures Core(fs, view, watches, queue, work - {Visit(path)} + (if Resolve(fs, path).Some? then {Open(path)} else {}))
  {
    var work' := work - {Visit(path)} + (if Resolve(fs, path).Some? then {Open(path)} else {});
    forall d | d in fs.dirs && InTree(fs, d) && d !in watches.Values && Covered(fs, view, watches, queue, work, d)
      ensures Covered(fs, view, watches, queue, work', d)
    {
      ResolvePath(fs, d);
    }
    hide Valid; hide Covered; hide Events; hide Entries; hide Coverage;
    WorkChanges(fs, view, watches, queue, work, work');
  }

  lemma VisitEvents(view: map<int, string>, watches: map<int, Inode>, queue: seq<Event>, w: int, x: Inode, path: string)
    requires Events(view, watches, queue) && w !in view && w !in watches
    ensures Events(view[w := path], watches[w := x], queue)
    ensures forall j :: 0 <= j < |queue| && queue[j].DeleteSelf? ==> queue[j].wd != w
  {
    var (view', watches') := (view[w := path], watches[w := x]);
    forall i | 0 <= i < |queue| ensures EventAt(view', watches', queue, i) { assert EventAt(view, watches, queue, i); }
    forall j | 0 <= j < |queue| && queue[j].DeleteSelf? ensures queue[j].wd != w { assert EventAt(view, watches, queue, j); }
  }

  /** Watching `x` puts its entries in need of cover, and opening it will cover them. */
  lemma VisitNew(fs: Tree, view: map<int, string>, watches: map<int, Inode>, queue: seq<Event>, work: set<Work>, path: string, w: int)
    requires Core(fs, view, watches, queue, work) && w !in view && w !in watches
    requires Resolve(fs, path).Some?
    ensures Core(fs, view[w := path], watches[w := Resolve(fs, path).value], queue, work - {Visit(path)} + {Open(path)})
  {
    var x := Resolve(fs, path).value;
    var (view', watches') := (view[w := path], watches[w := x]);
    var work' := work - {Visit(path)} + {Open(path)};
    VisitEvents(view, watches, queue, w, x, path);
    WatchesAdd(watches, w, x);
    forall d | d in fs.dirs && InTree(fs, d) && d !in watches'.Values && (fs.dirs[d].Sub? ==> fs.dirs[d].parent in watches'.Values)
      ensures Covered(fs, view', watches', queue, work', d)
    {
      assert Placed(fs, d);
      if fs.dirs[d].Sub? && fs.dirs[d].parent == x {
      } else {
        assert Covered(fs, view, watches, queue, work, d);
        ResolvePath(fs, d);
        StillCovered(fs, view, view', watches, watches', queue, work, work', d);
      }
    }
  }

  lemma StillCovered(fs: Tree, view: map<int, string>, view': map<int, string>, watches: map<int, Inode>, watches': map<int, Inode>,
                     queue: seq<Event>, work: set<Work>, work': set<Work>, d: Inode)
    requires Valid(fs) && d in fs.dirs && Covered(fs, view, watches, queue, work, d)
    requires forall w: int :: w in watches ==> w in watches' && watches'[w] == watches[w]
    requires forall j :: 0 <= j < |queue| && queue[j].DeleteSelf? && queue[j].wd in view' ==>
      queue[j].wd in view && view'[queue[j].wd] == view[queue[j].wd]
    requires forall l :: l in work && l != Visit(PathOf(fs, d)) ==> l in work' || (l.Visit? && l.path != PathOf(fs, d))
    requires Visit(PathOf(fs, d)) in work ==> Visit(PathOf(fs, d)) in work'
    ensures Covered(fs, view', watches', queue, work', d)
  {
    if fs.dirs[d].Sub? {
      forall w, i | Announced(fs, view, queue, w, d, i) ensures Announced(fs, view', queue, w, d, i) { }
    }
  }

  /** Opening a directory puts all its present entries on the list to be read. */
  lemma ListCore(fs: Tree, view: map<int, string>, watches: map<int, Inode>, queue: seq<Event>, work: set<Work>, path: string)
    requires Core(fs, view, watches, queue, work)
    ensures var r := Resolve(fs, path);
      Core(fs, view, watches, queue, work - {Open(path)} + (if r.Some? then {Listing(r.value, path, Names(fs, r.value))} else {}))
  {
    var r := Resolve(fs, path);
    var work' := work - {Open(path)} + (if r.Some? then {Listing(r.value, path, Names(fs, r.value))} else {});
    forall d | d in fs.dirs && InTree(fs, d) && d !in watches.Values && Covered(fs, view, watches, queue, work, d)
      ensures Covered(fs, view, watches, queue, work', d)
    {
      if fs.dirs[d].Sub? && fs.dirs[d].parent in fs.dirs && PathOf(fs, fs.dirs[d].parent) == path {
        var p := fs.dirs[d].parent;
        assert InTree(fs, p);
        ResolvePath(fs, p);
        assert fs.dirs[d].name in Names(fs, p);
        assert Listing(p, PathOf(fs, p), Names(fs, p)) in work';
      } else {
        SameButOpen(fs, view, watches, queue, work, work', d, path);
      }
    }
    hide Valid; hide Covered; hide Events; hide Entries; hide Coverage; hide Names;
    WorkChanges(fs, view, watches, queue, work, work');
  }

  lemma SameButOpen(fs: Tree, view: map<int, string>, watches: map<int, Inode>, queue: seq<Event>, work: set<Work>, work': set<Work>, d: Inode, path: string)
    requires Valid(fs) && d in fs.dirs && Covered(fs, view, watches, queue, work, d) && work - {Open(path)} <= work'
    requires fs.dirs[d].Sub? && fs.dirs[d].parent in fs.dirs ==> PathOf(fs, fs.dirs[d].parent) != path
    ensures Covered(fs, view, watches, queue, work', d)
  {
  }

  /** Reading an entry replaces it on the list by a visit to it. */
  lemma EntryCore(fs: Tree, view: map<int, string>, watches: map<int, Inode>, queue: seq<Event>, work: set<Work>, l: Work, name: string)
    requires Core(fs, view, watches, queue, work) && l in work && l.Listing?
    ensures Core(fs, view, watches, queue, work - {l} + {l.(names := l.names - {name}), Visit(Join(l.path, name))})
  {
    var l' := l.(names := l.names - {name});
    var work' := work - {l} + {l', Visit(Join(l.path, name))};
    forall d | d in fs.dirs && InTree(fs, d) && d !in watches.Values && Covered(fs, view, watches, queue, work, d)
      ensures Covered(fs, view, watches, queue, work', d)
    {
      assert forall o :: o in work && o != l ==> o in work';
      if fs.dirs[d].Sub? {
        var p := fs.dirs[d].parent;
        assert Placed(fs, d);
        if l.dir == p && l.path == PathOf(fs, p) && fs.dirs[d].name in l.names {
          assert fs.dirs[d].name != name ==> Listing(p, PathOf(fs, p), l'.names) in work' && fs.dirs[d].name in l'.names;
        }
      }
    }
    hide Valid; hide Covered; hide Events; hide Entries; hide Coverage;
    WorkChanges(fs, view, watches, queue, work, work');
  }

  lemma CloseCore(fs: Tree, view: map<int, string>, watches: map<int, Inode>, queue: seq<Event>, work: set<Work>, l: Work)
    requires Core(fs, view, watches, queue, work) && l in work && l.Listing? && l.names == {}
    ensures Core(fs, view, watches, queue, work - {l})
  {
    var work' := work - {l};
    forall d | d in fs.dirs && InTree(fs, d) && d !in watches.Values && Covered(fs, view, watches, queue, work, d)
      ensures Covered(fs, view, watches, queue, work', d)
    {
      assert forall o :: o in work && o != l ==> o in work';
    }
    hide Valid; hide Covered; hide Events; hide Entries; hide Coverage;
    WorkChanges(fs, view, watches, queue, work, work');
  }

  // ----- other processes -----

  predicate AboutFile(ev: Event) {
    (ev.Create? || ev.MovedFrom? || ev.MovedTo?) && !ev.isDir
  }

  /** Appending events of watches in the cache that have not ended. */
  lemma EventsAppend(view: map<int, string>, watches: map<int, Inode>, queue: seq<Event>, ev: Event)
    requires Events(view, watches, queue) && (ev.Create? || AboutFile(ev)) && ev.wd in view && ev.wd in watches
    ensures Events(view, watches, queue + [ev])
  {
    var queue', w := queue + [ev], ev.wd;
    forall i | 0 <= i < |queue'| ensures EventAt(view, watches, queue', i) {
      if i < |queue| {
        assert EventAt(view, watches, queue, i);
        assert queue'[i] == queue[i] && forall j :: 0 <= j < |queue| ==> queue'[j] == queue[j];
      } else {
        forall j | 0 <= j < i ensures queue'[j] != DeleteSelf(w) { assert EventAt(view, watches, queue, j); }
      }
    }
  }

  lemma EventsAppendEnd(view: map<int, string>, watches: map<int, Inode>, queue: seq<Event>, w: nat)
    requires Events(view, watches, queue) && w in view && w in watches
    ensures Events(view, watches - {w}, queue + [DeleteSelf(w), Ignored(w)])
  {
    var queue' := queue + [DeleteSelf(w), Ignored(w)];
    var n := |queue|;
    assert forall j :: 0 <= j < n ==> queue'[j] == queue[j];
    forall i | 0 <= i < n ensures queue[i] != DeleteSelf(w) { assert EventAt(view, watches, queue, i); }
    forall i | 0 <= i < |queue'| ensures EventAt(view, watches - {w}, queue', i) {
      if i < n { assert EventAt(view, watches, queue, i); }
    }
    forall v: int | v in view && v !in watches - {w} ensures v >= 0 && DeleteSelf(v) in queue' {
      if v == w { assert queue'[n] == DeleteSelf(w); } else { assert DeleteSelf(v) in queue; }
    }
  }

  /** Cover outlives a change of the trees that leaves `d` and its parent's watch alone. */
  lemma CoveredLater(fs: Tree, fs': Tree, view: map<int, string>, watches: map<int, Inode>, watches': map<int, Inode>,
                     queue: seq<Event>, queue': seq<Event>, work: set<Work>, d: Inode)
    requires Valid(fs) && Valid(fs') && d in fs.dirs && d in fs'.dirs && fs'.dirs[d] == fs.dirs[d] && PathOf(fs', d) == PathOf(fs, d)
    requires Covered(fs, view, watches, queue, work, d)
    requires fs.dirs[d].Sub? ==> var p := fs.dirs[d].parent;
      && p in fs.dirs && p in fs'.dirs && PathOf(fs', p) == PathOf(fs, p)
      && (forall w: int :: w in watches && watches[w] == p ==> w in watches' && watches'[w] == p)
    requires queue <= queue'
    requires forall j :: |queue| <= j < |queue'| && queue'[j].DeleteSelf? && queue'[j].wd in view ==> view[queue'[j].wd] != PathOf(fs, d)
    ensures Covered(fs', view, watches', queue', work, d)
  {
    if fs.dirs[d].Sub? {
      forall w, i | Announced(fs, view, queue, w, d, i) ensures Announced(fs', view, queue', w, d, i) {
        assert forall j :: 0 <= j < |queue| ==> queue'[j] == queue[j];
      }
    }
  }

  lemma MkdirCore(fs: Tree, view: map<int, string>, watches: map<int, Inode>, queue: seq<Event>, work: set<Work>,
                  d: Inode, p: Inode, name: string, told: seq<Event>)
    requires Core(fs, view, watches, queue, work) && CanAdd(fs, d, p, name)
    requires forall l :: l in work && l.Listing? ==> l.dir != d
    requires told == [] ==> p !in watches.Values
    requires told != [] ==> |told| == 1 && told[0].Create? && told[0].wd in watches && watches[told[0].wd] == p && told[0] == Create(told[0].wd, name, true)
    ensures Core(Add(fs, d, p, name), view, watches, queue + told, work)
  {
    var fs' := Add(fs, d, p, name);
    var queue' := queue + told;
    MkdirTree(fs, d, p, name);
    if told != [] {
      EventsAppend(view, watches, queue, told[0]);
      assert queue' == queue + [Create(told[0].wd, name, true)];
    } else {
      assert queue' == queue;
    }
    forall x | x in fs'.dirs && InTree(fs', x) && x !in watches.Values && (fs'.dirs[x].Sub? ==> fs'.dirs[x].parent in watches.Values)
      ensures Covered(fs', view, watches, queue', work, x)
    {
      if x == d {
        assert Announced(fs', view, queue', told[0].wd, d, |queue|);
      } else {
        assert Placed(fs, x);
        assert Covered(fs, view, watches, queue, work, x);
        CoveredLater(fs, fs', view, watches, watches, queue, queue', work, x);
      }
    }
    assert Entries(fs', view, watches);
  }

  lemma RmdirCovered(fs: Tree, view: map<int, string>, watches: map<int, Inode>, queue: seq<Event>, work: set<Work>, d: Inode, w: nat, x: Inode)
    requires Core(fs, view, watches, queue, work) && CanRemove(fs, d) && w in watches && watches[w] == d
    requires forall v: int :: v in watches && watches[v] == d ==> v == w
    requires x in fs.dirs && x != d && InTree(fs, x) && x !in watches.Values
    requires fs.dirs[x].Sub? ==> fs.dirs[x].parent in (watches - {w}).Values
    ensures Valid(Remove(fs, d)) && x in Remove(fs, d).dirs
    ensures Covered(Remove(fs, d), view, watches - {w}, queue + [DeleteSelf(w), Ignored(w)], work, x)
  {
    var fs' := Remove(fs, d);
    var watches' := watches - {w};
    RemoveTree(fs, d);
    EndedValues(watches, w);
    assert Placed(fs, x) && Placed(fs', x);
    assert Covered(fs, view, watches, queue, work, x);
    if PathOf(fs, x) == PathOf(fs, d) { PathInjective(fs, x, d); }
    hide Covered; hide Events; hide Valid; hide Coverage; hide Listings;
    CoveredLater(fs, fs', view, watches, watches', queue, queue + [DeleteSelf(w), Ignored(w)], work, x);
  }

  lemma RmdirCore(fs: Tree, view: map<int, string>, watches: map<int, Inode>, queue: seq<Event>, work: set<Work>, d: Inode, w: nat)
    requires Core(fs, view, watches, queue, work) && CanRemove(fs, d) && w in watches && watches[w] == d
    requires forall v: int :: v in watches && watches[v] == d ==> v == w
    ensures Core(Remove(fs, d), view, watches - {w}, queue + [DeleteSelf(w), Ignored(w)], work)
  {
    var fs' := Remove(fs, d);
    var watches' := watches - {w};
    var queue' := queue + [DeleteSelf(w), Ignored(w)];
    RemoveTree(fs, d);
    EventsAppendEnd(view, watches, queue, w);
    EndedValues(watches, w);
    assert Entries(fs', view, watches');
    hide Events;
    forall x | x in fs'.dirs && InTree(fs', x) && x !in watches'.Values && (fs'.dirs[x].Sub? ==> fs'.dirs[x].parent in watches'.Values)
      ensures Covered(fs', view, watches', queue', work, x)
    {
      RmdirCovered(fs, view, watches, queue, work, d, w, x);
    }
  }

  lemma RmdirUnwatchedCore(fs: Tree, view: map<int, string>, watches: map<int, Inode>, queue: seq<Event>, work: set<Work>, d: Inode)
    requires Core(fs, view, watches, queue, work) && CanRemove(fs, d) && d !in watches.Values
    ensures Core(Remove(fs, d), view, watches, queue, work)
  {
    var fs' := Remove(fs, d);
    RemoveTree(fs, d);
    forall x | x in fs'.dirs && InTree(fs', x) && x !in watches.Values && (fs'.dirs[x].Sub? ==> fs'.dirs[x].parent in watches.Values)
      ensures Covered(fs', view, watches, queue, work, x)
    {
      assert Placed(fs, x) && Placed(fs', x);
      assert Covered(fs, view, watches, queue, work, x);
      CoveredLater(fs, fs', view, watches, watches, queue, queue, work, x);
    }
    forall v: int | v in watches ensures watches[v] in fs'.dirs { assert watches[v] in watches.Values; }
    assert Entries(fs', view, watches);
  }

  /** Events about files cover nothing, and uncover nothing. */
  lemma {:induction false} FileCore(fs: Tree, view: map<int, string>, watches: map<int, Inode>, queue: seq<Event>, work: set<Work>, told: seq<Event>)
    requires Core(fs, view, watches, queue, work)
    requires forall i :: 0 <= i < |told| ==> AboutFile(told[i]) && told[i].wd in watches
    ensures Core(fs, view, watches, queue + told, work)
    decreases |told|
  {
    if told == [] {
      assert queue + told == queue;
    } else {
      var before, ev := told[..|told| - 1], told[|told| - 1];
      var queue1 := queue + before;
      FileCore(fs, view, watches, queue, work, before);
      assert queue + told == queue1 + [ev];
      CoreFacts(fs, view, watches, queue1, work);
      EventsAppend(view, watches, queue1, ev);
      hide Events; hide Valid; hide Entries;
      forall d | d in fs.dirs && InTree(fs, d) && d !in watches.Values && (fs.dirs[d].Sub? ==> fs.dirs[d].parent in watches.Values)
        ensures Covered(fs, view, watches, queue1 + [ev], work, d)
      {
        assert Covered(fs, view, watches, queue1, work, d);
        PlacedParent(fs, d);
        CoveredLater(fs, fs, view, watches, watches, queue1, queue1 + [ev], work, d);
      }
    }
  }

  lemma PlacedParent(fs: Tree, d: Inode)
    requires Valid(fs) && d in fs.dirs
    ensures fs.dirs[d].Sub? ==> fs.dirs[d].parent in fs.dirs
  {
    assert Placed(fs, d);
  }

  // ----- handling an event -----

  /** The head told of `d`: it is the entry that the event names. */
  lemma HeadTells(fs: Tree, view: map<int, string>, watches: map<int, Inode>, queue: seq<Event>, w: int, d: Inode)
    requires Valid(fs) && Entries(fs, view, watches) && queue != [] && queue[0].Create?
    requires d in fs.dirs && fs.dirs[d].Sub? && w in watches && watches[w] == fs.dirs[d].parent && Announced(fs, view, queue, w, d, 0)
    ensures queue[0].wd in view && PathOf(fs, d) == Join(view[queue[0].wd], queue[0].name)
  {
    assert Placed(fs, d);
  }

  /** An unwatched directory that the head tells of has a path that is not cached. */
  lemma ToldUncached(fs: Tree, view: map<int, string>, watches: map<int, Inode>, queue: seq<Event>, w: int, d: Inode, v: int)
    requires Core(fs, view, watches, queue, {}) && queue != [] && queue[0].Create?
    requires d in fs.dirs && InTree(fs, d) && d !in watches.Values && fs.dirs[d].Sub?
    requires w in watches && watches[w] == fs.dirs[d].parent && Announced(fs, view, queue, w, d, 0)
    requires v in view
    ensures view[v] != PathOf(fs, d)
  {
    if v in watches {
      assert watches[v] in watches.Values;
      if view[v] == PathOf(fs, d) { PathInjective(fs, watches[v], d); }
    } else {
      assert v >= 0 && DeleteSelf(v) in queue;
      var j :| 0 <= j < |queue| && queue[j] == DeleteSelf(v);
    }
  }

  lemma HandleCore(fs: Tree, view: map<int, string>, view': map<int, string>, watches: map<int, Inode>, queue: seq<Event>, work: set<Work>)
    requires Core(fs, view, watches, queue, {}) && queue != []
    requires if queue[0].DeleteSelf? then view' == view - {queue[0].wd} else view' == view
    requires queue[0].Create? ==> queue[0].wd in view
    requires queue[0].Create? && queue[0].isDir ==> var full := Join(view[queue[0].wd], queue[0].name);
      work == if exists v: int :: v in view && view[v] == full then {} else {Visit(full)}
    requires !(queue[0].Create? && queue[0].isDir) ==> work == {}
    ensures Core(fs, view', watches, queue[1..], work)
  {
    EventsTail(view, view', watches, queue);
    assert EventAt(view, watches, queue, 0);
    forall d | d in fs.dirs && InTree(fs, d) && d !in watches.Values && (fs.dirs[d].Sub? ==> fs.dirs[d].parent in watches.Values)
      ensures Covered(fs, view', watches, queue[1..], work, d)
    {
      assert Covered(fs, view, watches, queue, {}, d);
      CoveredTail(fs, view, view', watches, queue, {}, work, d);
      if !Covered(fs, view', watches, queue[1..], work, d) {
        var w :| w in watches && watches[w] == fs.dirs[d].parent && Announced(fs, view, queue, w, d, 0);
        HeadTells(fs, view, watches, queue, w, d);
        forall v: int | v in view ensures view[v] != PathOf(fs, d) { ToldUncached(fs, view, watches, queue, w, d, v); }
      }
    }
    assert Entries(fs, view', watches);
  }

  // ----- every step keeps the invariant -----

  lemma CoreFacts(fs: Tree, view: map<int, string>, watches: map<int, Inode>, queue: seq<Event>, work: set<Work>)
    requires Core(fs, view, watches, queue, work)
    ensures Valid(fs) && Entries(fs, view, watches) && Events(view, watches, queue)
    ensures watches.Keys <= view.Keys
  {
    assert forall w: int :: w in watches ==> w in view;
  }

  lemma InvFacts(s: State)
    requires Inv(s)
    ensures ValidKernel(s.m.k) && Sound(s.m) && !s.m.exited && WellFormed(s.m.slots)
    ensures Flagged(s.m.k.fs, s.m.k.watches, s.m.k.moveSelf)
    ensures Core(s.m.k.fs, View(s.m.slots), s.m.k.watches, s.queue, s.work)
    ensures forall w: int :: w in View(s.m.slots) ==> w < s.m.k.nextWd
    ensures forall w: int :: w in View(s.m.slots) && w !in s.m.k.watches ==> FindRoot(s.m.roots, View(s.m.slots)[w]) == -1
  {
  }

  lemma InvIntro(s: State)
    requires Sound(s.m) && !s.m.exited && WellFormed(s.m.slots)
    requires Flagged(s.m.k.fs, s.m.k.watches, s.m.k.moveSelf)
    requires Core(s.m.k.fs, View(s.m.slots), s.m.k.watches, s.queue, s.work)
    requires forall w: int :: w in View(s.m.slots) ==> w < s.m.k.nextWd
    requires forall w: int :: w in View(s.m.slots) && w !in s.m.k.watches ==> FindRoot(s.m.roots, View(s.m.slots)[w]) == -1
    ensures Inv(s)
  {
  }

  lemma NoSuchPath(m: Monitor, path: string)
    requires ValidKernel(m.k) && Resolve(m.k.fs, path).None?
    ensures TraverseTree(m, path) == m
  {
    hide Resolve; hide ValidKernel;
  }

  lemma WatchInv(s: State, path: string)
    requires Inv(s) && ValidKernel(s.m.k) && CanStep(s, Watch(path))
    ensures Inv(Next(s, Watch(path)))
  {
    InvFacts(s);
    var fs := s.m.k.fs;
    var view := View(s.m.slots);
    CoreFacts(fs, view, s.m.k.watches, s.queue, s.work);
    var r := Resolve(fs, path);
    var s' := Next(s, Watch(path));
    hide Inv; hide ValidKernel; hide Core; hide Resolve; hide View; hide WellFormed; hide Entries; hide Events; hide Flagged; hide TraverseTree; hide AddEntry;
    if r.Some? && r.value !in s.m.k.watches.Values {
      var w := s.m.k.nextWd;
      TraverseNew(s.m, r.value, path);
      AddEntryView(s.m.slots, w, path);
      VisitNew(fs, view, s.m.k.watches, s.queue, s.work, path, w);
      FlaggedAdd(fs, s.m.k.watches, s.m.k.moveSelf, w, r.value);
      SoundKept(s.m, s'.m);
    } else {
      if r.Some? { TraverseKnown(s.m, r.value, path); } else { NoSuchPath(s.m, path); }
      VisitKnown(fs, view, s.m.k.watches, s.queue, s.work, path);
    }
    InvIntro(s');
  }

  /** Listing steps change the work only. */
  lemma ListingInv(s: State, step: Step)
    requires Inv(s) && ValidKernel(s.m.k) && CanStep(s, step) && (step.List? || step.Entry? || step.Close?)
    ensures Inv(Next(s, step))
  {
    InvFacts(s);
    var fs := s.m.k.fs;
    var view := View(s.m.slots);
    CoreFacts(fs, view, s.m.k.watches, s.queue, s.work);
    hide Inv; hide ValidKernel; hide Core; hide View; hide WellFormed; hide Entries; hide Events; hide Flagged; hide Names; hide Resolve;
    match step {
      case List(path) => ListCore(fs, view, s.m.k.watches, s.queue, s.work, path);
      case Entry(l, name) => EntryCore(fs, view, s.m.k.watches, s.queue, s.work, l, name);
      case Close(l) => CloseCore(fs, view, s.m.k.watches, s.queue, s.work, l);
    }
    InvIntro(Next(s, step));
  }

  lemma OtherSound(m: Monitor, op: Op, walks: map<Inode, seq<Inode>>)
    requires !op.RenameAbove?
    requires Sound(m) && ValidKernel(m.k) && Can(m.k.fs, op) && ValidWalks(TreeAfter(m.k.fs, op), walks)
    ensures Sound(m.(k := KernelAfter(m.k, op, walks)))
  {
    KernelAfterValid(m.k, op, walks);
    RootsStayListed(m.k.fs, m.roots, op);
    hide ValidKernel; hide RootsListed; hide RootsApart; hide Can; hide TreeAfter; hide Nones;
  }

  lemma MkdirInv(s: State, op: Op, walks: map<Inode, seq<Inode>>)
    requires Inv(s) && ValidKernel(s.m.k) && CanStep(s, Other(op, walks)) && op.Mkdir?
    ensures Inv(Next(s, Other(op, walks)))
  {
    InvFacts(s);
    var k := s.m.k;
    var fs' := Add(k.fs, op.d, op.p, op.name);
    OtherSound(s.m, op, walks);
    EndNone(k.(fs := fs', walks := walks));
    var s' := Next(s, Other(op, walks));
    assert s'.m.k == k.(fs := fs', walks := walks);
    assert Flagged(fs', k.watches, k.moveSelf);
    var told := EventsOf(k, op);
    assert s'.queue == s.queue + told;
    hide Inv; hide ValidKernel; hide Core; hide View; hide WellFormed; hide Flagged; hide Add; hide KernelAfter; hide Sound;
    MkdirCore(k.fs, View(s.m.slots), k.watches, s.queue, s.work, op.d, op.p, op.name, told);
    InvIntro(s');
  }

  /** What removing a directory that is not a root does to the kernel. */
  lemma RmdirKernel(k: Kernel, op: Op, walks: map<Inode, seq<Inode>>)
    requires ValidKernel(k) && op.Rmdir? && Can(k.fs, op) && ValidWalks(TreeAfter(k.fs, op), walks)
    requires Flagged(k.fs, k.watches, k.moveSelf)
    ensures var fs' := Remove(k.fs, op.d); var k' := KernelAfter(k, op, walks);
      && k'.fs == fs' && k'.nextWd == k.nextWd
      && Flagged(fs', k'.watches, k'.moveSelf)
      && (Watched(k, op.d) ==> var w := Wd(k, op.d);
            && k'.watches == k.watches - {w} && EventsOf(k, op) == [DeleteSelf(w), Ignored(w)]
            && (forall v: int :: v in k.watches && k.watches[v] == op.d ==> v == w))
      && (!Watched(k, op.d) ==> k'.watches == k.watches && EventsOf(k, op) == [])
  {
    var fs' := Remove(k.fs, op.d);
    if Watched(k, op.d) {
      EndedFlagged(k.fs, fs', k.watches, k.moveSelf, Wd(k, op.d));
    } else {
      EndNone(k.(fs := fs', walks := walks));
      assert forall w: int :: w in k.watches ==> k.watches[w] != op.d;
      FlaggedKept(k.fs, fs', k.watches, k.moveSelf);
    }
    hide Valid; hide ValidWalks; hide Flagged;
  }

  lemma RmdirUnlisted(m: Monitor, view: map<int, string>, d: Inode)
    requires Sound(m) && Entries(m.k.fs, view, m.k.watches) && Watched(m.k, d) && d in m.k.fs.dirs && !m.k.fs.dirs[d].Root?
    ensures FindRoot(m.roots, view[Wd(m.k, d)]) == -1
  {
    assert m.k.watches[Wd(m.k, d)] == d;
    OnlyRootsListed(m.k.fs, m.roots, d);
  }

  lemma CanFacts(s: State, op: Op, walks: map<Inode, seq<Inode>>)
    requires ValidKernel(s.m.k) && CanStep(s, Other(op, walks))
    ensures (op.Mkdir? || op.Rmdir? || OfFile(op)) && Can(s.m.k.fs, op) && ValidWalks(TreeAfter(s.m.k.fs, op), walks)
    ensures op.Rmdir? ==> CanRemove(s.m.k.fs, op.d) && op.d in s.m.k.fs.dirs && !s.m.k.fs.dirs[op.d].Root?
    ensures Next(s, Other(op, walks)) == State(s.m.(k := KernelAfter(s.m.k, op, walks)), s.queue + EventsOf(s.m.k, op), s.work)
  {
  }

  lemma RmdirInv(s: State, op: Op, walks: map<Inode, seq<Inode>>)
    requires Inv(s) && ValidKernel(s.m.k) && CanStep(s, Other(op, walks)) && op.Rmdir?
    ensures Inv(Next(s, Other(op, walks)))
  {
    hide *;
    InvFacts(s);
    CanFacts(s, op, walks);
    var k := s.m.k;
    var view := View(s.m.slots);
    CoreFacts(k.fs, view, k.watches, s.queue, s.work);
    OtherSound(s.m, op, walks);
    RmdirKernel(k, op, walks);
    WatchedMeans(k, op.d);
    if Watched(k, op.d) {
      RmdirCore(k.fs, view, k.watches, s.queue, s.work, op.d, Wd(k, op.d));
      RmdirUnlisted(s.m, view, op.d);
    } else {
      RmdirUnwatchedCore(k.fs, view, k.watches, s.queue, s.work, op.d);
      assert s.queue + EventsOf(k, op) == s.queue;
    }
    InvIntro(Next(s, Other(op, walks)));
  }

  lemma FileTold(k: Kernel, op: Op)
    requires ValidKernel(k) && Can(k.fs, op) && OfFile(op)
    ensures var told := EventsOf(k, op); forall i :: 0 <= i < |told| ==> AboutFile(told[i]) && told[i].wd in k.watches
  {
    hide ValidKernel; hide Watched;
  }

  lemma FileKernel(k: Kernel, op: Op, walks: map<Inode, seq<Inode>>)
    requires ValidKernel(k) && Can(k.fs, op) && OfFile(op)
    ensures KernelAfter(k, op, walks) == k.(walks := walks)
  {
    EndNone(k.(walks := walks));
    hide ValidKernel; hide EndWatches;
  }

  lemma FileInv(s: State, op: Op, walks: map<Inode, seq<Inode>>)
    requires Inv(s) && ValidKernel(s.m.k) && CanStep(s, Other(op, walks)) && OfFile(op)
    ensures Inv(Next(s, Other(op, walks)))
  {
    hide *;
    InvFacts(s);
    CanFacts(s, op, walks);
    NotAbove(op);
    FileKernel(s.m.k, op, walks);
    FileTold(s.m.k, op);
    OtherSound(s.m, op, walks);
    FileCore(s.m.k.fs, View(s.m.slots), s.m.k.watches, s.queue, s.work, EventsOf(s.m.k, op));
    InvIntro(Next(s, Other(op, walks)));
  }

  lemma NotAbove(op: Op)
    requires OfFile(op)
    ensures !op.RenameAbove?
  {
  }

  // ----- handling keeps the invariant -----

  lemma CachedPath(slots: seq<Slot>, path: string)
    requires WellFormed(slots)
    ensures FindPath(slots, path) == -1 <==> !exists w: int :: w in View(slots) && View(slots)[w] == path
  {
    ViewPath(slots, path);
  }

  lemma HeadEvent(view: map<int, string>, watches: map<int, Inode>, queue: seq<Event>)
    requires Events(view, watches, queue) && queue != []
    ensures var ev := queue[0];
      || ((AboutFile(ev) || (ev.Create? && ev.isDir)) && ev.wd in view) || ev.Ignored?
      || (ev.DeleteSelf? && ev.wd in view && ev.wd !in watches)
    ensures AboutFile(queue[0]) ==> queue[0].wd in view && !(queue[0].Create? && queue[0].isDir)
    ensures queue[0].Create? ==> queue[0].isDir || AboutFile(queue[0])
  {
    assert EventAt(view, watches, queue, 0);
  }

  /** What the handler does with the head, for the kinds of event that such runs have. */
  lemma HandledIs(s: State)
    requires ValidKernel(s.m.k) && WellFormed(s.m.slots) && s.queue != [] && !s.m.exited
    requires var ev := s.queue[0];
      || ((AboutFile(ev) || (ev.Create? && ev.isDir)) && ev.wd in View(s.m.slots)) || ev.Ignored?
      || (ev.DeleteSelf? && ev.wd in View(s.m.slots) && FindRoot(s.m.roots, View(s.m.slots)[ev.wd]) == -1)
    ensures var ev := s.queue[0]; var view := View(s.m.slots);
      && Handled(s).queue == s.queue[1..]
      && (AboutFile(ev) ==> Handled(s).m == s.m && Handled(s).work == {})
      && (ev.Create? && ev.isDir ==> Handled(s).m == s.m)
      && (ev.Create? && ev.isDir ==> var full := Join(view[ev.wd], ev.name);
            Handled(s).work == if FindPath(s.m.slots, full) == -1 then {Visit(full)} else {})
      && (ev.Ignored? ==> Handled(s).m == s.m && Handled(s).work == {})
      && (ev.DeleteSelf? ==> FindWatch(s.m.slots, ev.wd) >= 0 && Handled(s).work == {})
      && (ev.DeleteSelf? ==> Handled(s).m == s.m.(slots := MarkEmpty(s.m.slots, FindWatch(s.m.slots, ev.wd))))
  {
    var ev := s.queue[0];
    if !ev.Ignored? { ViewFind(s.m.slots, ev.wd); }
    hide ValidKernel; hide View; hide WellFormed; hide MarkEmpty; hide Reinitialize; hide Left; hide Appeared; hide FindPath; hide RewriteAll; hide ZapRoot;
    hide Follows; hide FindRoot; hide WatchSubtree;
    assert s.queue[1..] + [] == s.queue[1..];
    if ev.Create? && ev.isDir {
    } else if ev.Ignored? || AboutFile(ev) {
      assert Process(s.m, s.queue, false) == Outcome(s.m, Took(1), []);
    } else {
      assert Process(s.m, s.queue, false) == Outcome(s.m.(slots := MarkEmpty(s.m.slots, FindWatch(s.m.slots, ev.wd))), Took(1), []);
    }
  }

  /** In such runs an event never has an unknown watch, so the cache is never rebuilt. */
  lemma HandleInv(s: State)
    requires Inv(s) && ValidKernel(s.m.k) && CanStep(s, Handle)
    ensures Inv(Next(s, Handle))
    ensures Next(s, Handle).m.k == s.m.k
  {
    hide *;
    InvFacts(s);
    HandleCan(s);
    var view := View(s.m.slots);
    var k := s.m.k;
    CoreFacts(k.fs, view, k.watches, s.queue, s.work);
    HeadEvent(view, k.watches, s.queue);
    HandledIs(s);
    var s' := Handled(s);
    var ev := s.queue[0];
    if ev.Create? && ev.isDir { CachedPath(s.m.slots, Join(view[ev.wd], ev.name)); }
    if ev.DeleteSelf? {
      SlotOf(s.m.slots, ev.wd);
      MarkEmptyView(s.m.slots, FindWatch(s.m.slots, ev.wd));
      SoundSlots(s.m, s'.m);
    }
    HandleCore(k.fs, view, View(s'.m.slots), k.watches, s.queue, s'.work);
    InvIntro(s');
  }

  lemma HandleCan(s: State)
    requires ValidKernel(s.m.k) && CanStep(s, Handle)
    ensures s.work == {} && s.queue != [] && Next(s, Handle) == Handled(s)
  {
  }

  lemma SlotOf(slots: seq<Slot>, w: nat)
    requires FindWatch(slots, w) >= 0
    ensures slots[FindWatch(slots, w)].wd == w
  {
  }

  lemma SoundSlots(m: Monitor, m': Monitor)
    requires Sound(m) && m'.k == m.k && m'.roots == m.roots && m'.ignored == m.ignored
    ensures Sound(m')
  {
    hide ValidKernel; hide RootsApart; hide RootsListed; hide Nones;
  }

  /** Every step, of the program or of others, keeps the invariant. */
  lemma StepInv(s: State, step: Step)
    requires Inv(s) && ValidKernel(s.m.k) && CanStep(s, step)
    ensures Inv(Next(s, step))
  {
    hide Inv; hide ValidKernel; hide Next;
    match step {
      case Other(op, walks) =>
        CanFacts(s, op, walks);
        if op.Mkdir? { MkdirInv(s, op, walks); } else if op.Rmdir? { RmdirInv(s, op, walks); } else { FileInv(s, op, walks); }
      case Watch(path) => WatchInv(s, path);
      case Handle => HandleInv(s);
      case _ => ListingInv(s, step);
    }
  }

  // ----- whole runs -----

  ghost predicate IsRun(states: seq<State>, steps: seq<Step>) {
    && |states| == |steps| + 1
    && forall i :: 0 <= i < |steps| ==>
         ValidKernel(states[i].m.k) && CanStep(states[i], steps[i]) && states[i + 1] == Next(states[i], steps[i])
  }

  lemma {:induction false} RunInv(m: Monitor, states: seq<State>, steps: seq<Step>, i: nat)
    requires Sound(m) && !m.exited && IsRun(states, steps) && states[0] == Start(m) && i < |states|
    ensures Inv(states[i])
  {
    hide Inv; hide ValidKernel; hide Start; hide Next; hide CanStep; hide Sound;
    if i == 0 {
      StartInv(m);
    } else {
      RunInv(m, states, steps, i - 1);
      StepInv(states[i - 1], steps[i - 1]);
    }
  }

  /**
   However directories are made and removed, and files made, moved and renamed, while the initial walk, later walks
   and the event handling go on: whenever the queue is empty and no walk is
   under way, the cache holds every directory of the trees exactly once, under
   its true path, and watches nothing else.
   */
  lemma RaceAgrees(m: Monitor, states: seq<State>, steps: seq<Step>, i: nat)
    requires Sound(m) && !m.exited && IsRun(states, steps) && states[0] == Start(m) && i < |states|
    requires states[i].queue == [] && states[i].work == {}
    ensures Agree(states[i].m)
  {
    RunInv(m, states, steps, i);
    QuiescentAgrees(states[i]);
  }
}
