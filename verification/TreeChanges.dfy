/**
 What processes do to the forest: make, remove and rename directories. A rename
 covers every kind at once: inside the trees, into them, out of them, and of a
 root; it may replace an empty directory.
 */
module TreeChanges {
  import opened Options
  import opened Paths
  import opened FileTree

  /** The entry `name` of directory `p`, if there is one. */
  ghost predicate Free(t: Tree, p: Inode, name: string) {
    forall e {:trigger t.dirs[e]} :: e in t.dirs ==> t.dirs[e] != Sub(p, name)
  }

  ghost predicate CanAdd(t: Tree, d: Inode, p: Inode, name: string) {
    d !in t.dirs && p in t.dirs && GoodName(name) && Free(t, p, name)
  }

  ghost predicate CanRemove(t: Tree, d: Inode) {
    d in t.dirs && IsEmpty(t, d)
  }

  /** A directory cannot be moved below itself. A root's place cannot be taken. */
  ghost predicate CanMove(t: Tree, d: Inode, loc: Dir)
    requires Valid(t)
  {
    && d in t.dirs
    && !loc.Root?
    && (loc.Sub? ==>
          && loc.parent in t.dirs && GoodName(loc.name)
          && !Below(t, loc.parent, d)
          && Free(t, loc.parent, loc.name))
  }

  function Add(t: Tree, d: Inode, p: Inode, name: string): Tree
    requires p in t.rank
  {
    Tree(t.dirs[d := Sub(p, name)], t.rank[d := t.rank[p] + 1])
  }

  function Remove(t: Tree, d: Inode): Tree {
    Tree(t.dirs - {d}, t.rank - {d})
  }

  /** The ranks at and below `d` go up, so that `d` may get any parent not below it. */
  function Lifted(t: Tree, d: Inode, loc: Dir): (r: map<Inode, nat>)
    requires Valid(t) && (loc.Sub? ==> loc.parent in t.dirs)
    ensures r.Keys == t.dirs.Keys
  {
    map x | x in t.dirs :: t.rank[x] + if Below(t, x, d) && loc.Sub? then t.rank[loc.parent] + 1 else 0
  }

  function Move(t: Tree, d: Inode, loc: Dir): Tree
    requires Valid(t) && d in t.dirs && (loc.Sub? ==> loc.parent in t.dirs)
  {
    Tree(t.dirs[d := loc], Lifted(t, d, loc))
  }

  /** Where two forests hold the same directories, ancestry and paths agree. */
  lemma {:induction false} SamePaths(t: Tree, t': Tree, x: Inode, d: Inode)
    requires Valid(t) && Valid(t') && x in t.dirs && x in t'.dirs
    requires forall y :: y in t.dirs && y in t'.dirs ==> t.dirs[y] == t'.dirs[y]
    ensures TopOf(t', x) == TopOf(t, x)
    ensures PathOf(t', x) == PathOf(t, x)
    ensures Below(t', x, d) <==> Below(t, x, d)
    decreases t.rank[x]
  {
    assert Placed(t, x) && Placed(t', x);
    if t.dirs[x].Sub? { SamePaths(t, t', t.dirs[x].parent, d); }
  }

  lemma AddValid(t: Tree, d: Inode, p: Inode, name: string)
    requires Valid(t) && CanAdd(t, d, p, name)
    ensures Valid(Add(t, d, p, name))
  {
    var t' := Add(t, d, p, name);
    assert Placed(t, p);
    forall x | x in t'.dirs ensures Placed(t', x) {
      if x != d { assert Placed(t, x); }
    }
    forall x, y | x in t'.dirs && y in t'.dirs ensures Apart(t', x, y) {
      if x != d && y != d { assert Apart(t, x, y); }
    }
  }

  lemma AddFacts(t: Tree, d: Inode, p: Inode, name: string)
    requires Valid(t) && CanAdd(t, d, p, name) && Valid(Add(t, d, p, name))
    ensures var t' := Add(t, d, p, name);
      && PathOf(t', d) == Join(PathOf(t, p), name)
      && TopOf(t', d) == TopOf(t, p)
      && (forall x :: x in t.dirs ==> PathOf(t', x) == PathOf(t, x) && TopOf(t', x) == TopOf(t, x))
  {
    var t' := Add(t, d, p, name);
    forall x | x in t.dirs ensures PathOf(t', x) == PathOf(t, x) && TopOf(t', x) == TopOf(t, x) {
      SamePaths(t, t', x, x);
    }
  }

  lemma RemoveValid(t: Tree, d: Inode)
    requires Valid(t) && CanRemove(t, d)
    ensures Valid(Remove(t, d))
  {
    var t' := Remove(t, d);
    forall x | x in t'.dirs ensures Placed(t', x) {
      assert Placed(t, x) && t.dirs[x] == t'.dirs[x];
    }
    forall x, y | x in t'.dirs && y in t'.dirs ensures Apart(t', x, y) {
      assert Apart(t, x, y);
    }
  }

  lemma RemoveFacts(t: Tree, d: Inode)
    requires Valid(t) && CanRemove(t, d) && Valid(Remove(t, d))
    ensures var t' := Remove(t, d);
      (forall x :: x in t'.dirs ==> PathOf(t', x) == PathOf(t, x) && TopOf(t', x) == TopOf(t, x))
  {
    var t' := Remove(t, d);
    forall x | x in t'.dirs ensures PathOf(t', x) == PathOf(t, x) && TopOf(t', x) == TopOf(t, x) {
      SamePaths(t, t', x, x);
    }
  }

  lemma MoveRank(t: Tree, d: Inode, loc: Dir, x: Inode)
    requires Valid(t) && CanMove(t, d, loc) && x in t.dirs
    requires x == d ==> loc.Sub?
    requires x != d ==> t.dirs[x].Sub? && t.dirs[x].parent in t.dirs
    ensures var p := (if x == d then loc else t.dirs[x]).parent;
      Lifted(t, d, loc)[p] < Lifted(t, d, loc)[x]
  {
    assert Placed(t, x);
    assert Below(t, d, d);
  }

  lemma MoveValid(t: Tree, d: Inode, loc: Dir)
    requires Valid(t) && CanMove(t, d, loc)
    ensures Valid(Move(t, d, loc))
  {
    var t' := Move(t, d, loc);
    forall x | x in t'.dirs ensures Placed(t', x) {
      assert Placed(t, x);
      if t'.dirs[x].Sub? { MoveRank(t, d, loc, x); }
    }
    forall x, y | x in t'.dirs && y in t'.dirs ensures Apart(t', x, y) {
      assert Apart(t, x, y);
    }
  }

  /** After a move, exactly the paths at or below `d` change, and only in that prefix. */
  lemma {:induction false} MovedPath(t: Tree, t': Tree, d: Inode, loc: Dir, x: Inode)
    requires Valid(t) && CanMove(t, d, loc) && Valid(t') && t'.dirs == t.dirs[d := loc]
    requires x in t.dirs
    ensures !Below(t, x, d) ==> TopOf(t', x) == TopOf(t, x) && PathOf(t', x) == PathOf(t, x)
    ensures Below(t, x, d) ==>
      && TopOf(t', x) == TopOf(t', d)
      && AtOrBelow(PathOf(t, x), PathOf(t, d))
      && PathOf(t', x) == PathOf(t', d) + PathOf(t, x)[|PathOf(t, d)|..]
    decreases t.rank[x]
  {
    assert Placed(t, x) && Placed(t', x);
    if x != d && t.dirs[x].Sub? {
      var p := t.dirs[x].parent;
      MovedPath(t, t', d, loc, p);
      if Below(t, x, d) {
        JoinBelow(PathOf(t, p), t.dirs[x].name, PathOf(t, d));
        JoinAppend(PathOf(t', d), PathOf(t, p)[|PathOf(t, d)|..], t.dirs[x].name);
      }
    }
  }

  lemma JoinAppend(a: string, b: string, name: string)
    ensures Join(a + b, name) == a + Join(b, name)
  {
  }

  lemma MovedTop(t: Tree, t': Tree, d: Inode, loc: Dir)
    requires Valid(t) && CanMove(t, d, loc) && Valid(t') && t'.dirs == t.dirs[d := loc]
    ensures loc.Outside? ==> TopOf(t', d) == d && !InTree(t', d)
    ensures loc.Sub? ==> TopOf(t', d) == TopOf(t, loc.parent) && PathOf(t', d) == Join(PathOf(t, loc.parent), loc.name)
  {
    if loc.Sub? { MovedPath(t, t', d, loc, loc.parent); }
  }

  /**
   A rename inside the trees is, on paths, the string rewrite of the renamed
   directory's old path to its new one, for every directory of the trees.
   */
  lemma MoveIsRename(t: Tree, t': Tree, d: Inode, loc: Dir, x: Inode)
    requires Valid(t) && CanMove(t, d, loc) && loc.Sub? && Valid(t') && t'.dirs == t.dirs[d := loc]
    requires x in t.dirs && InTree(t, d) && InTree(t, loc.parent) && InTree(t, x)
    ensures PathOf(t', x) == Renamed(PathOf(t, x), PathOf(t, d), PathOf(t', d))
  {
    MovedPath(t, t', d, loc, x);
    BelowIffPath(t, x, d);
  }

  // ----- a directory above roots is renamed -----

  /** The roots below `oldTop` have new paths; nothing else about the trees changes. */
  function Carried(t: Tree, oldTop: string, newTop: string): Tree {
    t.(dirs := map d | d in t.dirs :: match t.dirs[d]
                                      case Root(path) => Root(Renamed(path, oldTop, newTop))
                                      case other => other)
  }

  /** `oldTop` is no root, and the new place is apart from every root that does not come along. */
  ghost predicate CanCarry(t: Tree, oldTop: string, newTop: string) {
    && GoodRoot(newTop)
    && forall d {:trigger t.dirs[d]} :: d in t.dirs && t.dirs[d].Root? ==>
         && t.dirs[d].path != oldTop
         && (AtOrBelow(t.dirs[d].path, oldTop) || (!AtOrBelow(t.dirs[d].path, newTop) && !AtOrBelow(newTop, t.dirs[d].path)))
  }

  lemma CarriedRoot(t: Tree, oldTop: string, newTop: string, d: Inode)
    requires Valid(t) && CanCarry(t, oldTop, newTop) && d in t.dirs && t.dirs[d].Root?
    ensures GoodRoot(Renamed(t.dirs[d].path, oldTop, newTop))
  {
    assert Placed(t, d);
    var path := t.dirs[d].path;
    if AtOrBelow(path, oldTop) {
      var s := path[|oldTop|..];
      assert path == oldTop + s && s != "";
      assert (newTop + s)[|newTop + s| - 1] == s[|s| - 1] == path[|path| - 1];
    }
  }

  lemma CarriedApart(t: Tree, oldTop: string, newTop: string, d: Inode, e: Inode)
    requires Valid(t) && CanCarry(t, oldTop, newTop) && d in t.dirs && e in t.dirs && d != e && t.dirs[d].Root? && t.dirs[e].Root?
    ensures !AtOrBelow(Renamed(t.dirs[d].path, oldTop, newTop), Renamed(t.dirs[e].path, oldTop, newTop))
  {
    assert Apart(t, d, e);
    var p, q := t.dirs[d].path, t.dirs[e].path;
    var p', q' := Renamed(p, oldTop, newTop), Renamed(q, oldTop, newTop);
    RenamedExact(p, oldTop, newTop);
    RenamedExact(q, oldTop, newTop);
    if AtOrBelow(p, oldTop) && AtOrBelow(q, oldTop) {
      RenamedTogether(p, q, oldTop, newTop);
    } else if AtOrBelow(p, oldTop) && AtOrBelow(p', q') {
      AncestorsComparable(p', q', newTop);
    } else if AtOrBelow(q, oldTop) && AtOrBelow(p', q') {
      AtOrBelowTransitive(p', q', newTop);
    }
  }

  lemma CarriedValid(t: Tree, oldTop: string, newTop: string)
    requires Valid(t) && CanCarry(t, oldTop, newTop)
    ensures Valid(Carried(t, oldTop, newTop))
  {
    var t' := Carried(t, oldTop, newTop);
    forall d | d in t'.dirs ensures Placed(t', d) {
      assert Placed(t, d);
      if t.dirs[d].Root? { CarriedRoot(t, oldTop, newTop, d); }
    }
    forall d, e | d in t'.dirs && e in t'.dirs ensures Apart(t', d, e) {
      assert Apart(t, d, e);
      if d != e && t.dirs[d].Root? && t.dirs[e].Root? { CarriedApart(t, oldTop, newTop, d, e); }
    }
  }

  /** Without a root below, or without a new name, nothing happens to the trees. */
  lemma CarriedNone(t: Tree, oldTop: string, newTop: string)
    requires oldTop == newTop || forall d {:trigger t.dirs[d]} :: d in t.dirs && t.dirs[d].Root? ==> !AtOrBelow(t.dirs[d].path, oldTop)
    ensures Carried(t, oldTop, newTop) == t
  {
    forall d | d in t.dirs && t.dirs[d].Root? ensures Renamed(t.dirs[d].path, oldTop, newTop) == t.dirs[d].path {
      var path := t.dirs[d].path;
      if AtOrBelow(path, oldTop) { assert path == oldTop + path[|oldTop|..]; }
    }
    assert Carried(t, oldTop, newTop).dirs == t.dirs;
  }

  /** With a new name, every root below gets another path. */
  lemma CarriedElsewhere(path: string, oldTop: string, newTop: string)
    requires AtOrBelow(path, oldTop) && oldTop != newTop
    ensures Renamed(path, oldTop, newTop) != path
  {
    var s := path[|oldTop|..];
    assert path == oldTop + s;
    assert (newTop + s)[..|newTop|] == newTop && (oldTop + s)[..|oldTop|] == oldTop;
  }
}
