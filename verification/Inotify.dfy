/**
 The kernel's side of inotify: events, watches, and the pathname lookups that
 adding a watch and walking a tree perform.
 */
module Inotify {
  import opened Options
  import opened Paths
  import opened FileTree

  /** The kernel sets one event bit per record; only Overflow carries no watch. */
  datatype Event =
    | Create(wd: nat, name: string, isDir: bool)
    | MovedFrom(wd: nat, cookie: nat, name: string, isDir: bool)
    | MovedTo(wd: nat, cookie: nat, name: string, isDir: bool)
    | DeleteSelf(wd: nat)
    | MoveSelf(wd: nat)
    | Ignored(wd: nat)
    | Unmount(wd: nat)
    | Overflow

  const HEADER: nat := 16

  /** Bytes a record takes in the read buffer; a name is padded with NULs. */
  function Size(e: Event): (n: nat)
    ensures n >= HEADER
  {
    if e.Create? || e.MovedFrom? || e.MovedTo? then HEADER + (|e.name| / HEADER + 1) * HEADER else HEADER
  }

  function Bytes(es: seq<Event>): (n: nat)
    ensures es != [] ==> n >= HEADER
  {
    if es == [] then 0 else Bytes(es[..|es| - 1]) + Size(es[|es| - 1])
  }

  /**
   `walks[d]` is the order in which nftw() visits the directories at or below
   `d`; `moveSelf` holds the watches whose mask has IN_MOVE_SELF.
   */
  datatype Kernel = Kernel(fs: Tree, walks: map<Inode, seq<Inode>>, watches: map<int, Inode>,
                           moveSelf: set<int>, nextWd: nat)

  /** A walk from `d` visits the directories at or below `d`, in any order. */
  ghost predicate IsWalk(fs: Tree, d: Inode, walk: seq<Inode>)
    requires Valid(fs)
  {
    && (forall i :: 0 <= i < |walk| ==> walk[i] in fs.dirs && Below(fs, walk[i], d))
    && (forall e :: e in fs.dirs && Below(fs, e, d) ==> e in walk)
  }

  ghost predicate ValidWalks(fs: Tree, walks: map<Inode, seq<Inode>>)
    requires Valid(fs)
  {
    && fs.dirs.Keys <= walks.Keys
    && forall d {:trigger IsWalk(fs, d, walks[d])} :: d in fs.dirs ==> IsWalk(fs, d, walks[d])
  }

  ghost predicate ValidWatches(fs: Tree, watches: map<int, Inode>, nextWd: nat) {
    && (forall w: int :: w in watches ==> 0 <= w < nextWd && watches[w] in fs.dirs)
    && (forall v, w :: v in watches && w in watches && watches[v] == watches[w] ==> v == w)
  }

  ghost predicate ValidKernel(k: Kernel) {
    match k
    case Kernel(fs, walks, watches, _, nextWd) => Valid(fs) && ValidWalks(fs, walks) && ValidWatches(fs, watches, nextWd)
  }

  /** A later state of the same kernel over the same file systems. */
  ghost predicate Follows(k: Kernel, k': Kernel) {
    match k'
    case Kernel(fs, walks, _, _, _) => ValidKernel(k') && fs == k.fs && walks == k.walks
  }

  lemma WatchOn(watches: map<int, Inode>, d: Inode) returns (w: int)
    requires d in watches.Values
    ensures w in watches && watches[w] == d
  {
    w := KeyOf(watches, d);
  }

  /** The watch on directory `d`, if any. */
  function WdOf(k: Kernel, d: Inode): (r: Option<int>)
    requires ValidKernel(k)
    ensures r.Some? ==> r.value in k.watches && k.watches[r.value] == d
    ensures r.None? ==> d !in k.watches.Values
  {
    if w :| w in k.watches && k.watches[w] == d then Some(w) else None
  }

  /** inotify_add_watch(): a directory already watched keeps its descriptor; ENOENT gives -1. */
  function AddWatch(k: Kernel, path: string, moveSelf: bool): (r: (Kernel, int))
    requires ValidKernel(k)
    ensures Follows(k, r.0)
    ensures r.1 == -1 <==> Resolve(k.fs, path).None?
    ensures r.1 != -1 ==> r.1 >= 0
  {
    match Resolve(k.fs, path)
    case None => (k, -1)
    case Some(d) =>
      match WdOf(k, d)
      case Some(w) => (k.(moveSelf := if moveSelf then k.moveSelf + {w} else k.moveSelf - {w}), w)
      case None =>
        var w := k.nextWd;
        (k.(watches := k.watches[w := d], moveSelf := if moveSelf then k.moveSelf + {w} else k.moveSelf - {w}, nextWd := w + 1), w)
  }

  function DropWatch(k: Kernel, w: int): (r: Kernel)
    requires ValidKernel(k)
    ensures Follows(k, r)
  {
    k.(watches := k.watches - {w}, moveSelf := k.moveSelf - {w})
  }

  /** The kernel once the watches `ws` have ended. */
  ghost function EndWatches(k: Kernel, ws: set<int>): Kernel {
    k.(watches := k.watches - ws, moveSelf := k.moveSelf - ws)
  }

  lemma EndNone(k: Kernel)
    ensures EndWatches(k, {}) == k
  {
  }

  /** The pathnames at which nftw() calls back for directories; none if `path` is gone. */
  function Nftw(k: Kernel, path: string): (r: seq<string>)
    requires ValidKernel(k)
    ensures Resolve(k.fs, path).None? ==> r == []
    ensures Resolve(k.fs, path).Some? ==> var d := Resolve(k.fs, path).value;
      |r| == |k.walks[d]| && forall i :: 0 <= i < |r| ==> k.walks[d][i] in k.fs.dirs && r[i] == PathOf(k.fs, k.walks[d][i])
  {
    match Resolve(k.fs, path)
    case None => []
    case Some(d) =>
      var walk := k.walks[d];
      assert IsWalk(k.fs, d, walk);
      seq(|walk|, i requires 0 <= i < |walk| => PathOf(k.fs, walk[i]))
  }

  /** A new inotify instance: no watches, an empty queue. */
  function NewInstance(k: Kernel): (r: Kernel)
    requires ValidKernel(k)
    ensures Follows(k, r)
  {
    k.(watches := map[], moveSelf := {}, nextWd := 1)
  }
}
