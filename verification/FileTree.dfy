/**
 The directories of the file systems under watch: a forest of directories.
 A directory is a root that was named on the command line, the top of a tree
 outside all roots, or an entry of another directory.
 */
module FileTree {
  import opened Options
  import opened Paths

  type Inode = nat

  datatype Dir =
    | Root(path: string)
    | Outside
    | Sub(parent: Inode, name: string)

  /** `rank` only witnesses that no directory lies below itself. */
  datatype Tree = Tree(dirs: map<Inode, Dir>, rank: map<Inode, nat>)

  /** `d` has a proper place: a good name in an existing directory of lower rank, or a good root path. */
  ghost predicate Placed(t: Tree, d: Inode)
    requires d in t.dirs
  {
    match t.dirs[d]
    case Root(path) => GoodRoot(path)
    case Outside => true
    case Sub(p, name) => p in t.dirs && p in t.rank && d in t.rank && t.rank[p] < t.rank[d] && GoodName(name)
  }

  /** No two entries of a directory share a name, and no root is nested in another. */
  ghost predicate Apart(t: Tree, d: Inode, e: Inode)
    requires d in t.dirs && e in t.dirs
  {
    match t.dirs[d]
    case Root(path) => d != e && t.dirs[e].Root? ==> !AtOrBelow(path, t.dirs[e].path)
    case Outside => true
    case Sub(_, _) => d != e ==> t.dirs[d] != t.dirs[e]
  }

  ghost predicate Valid(t: Tree) {
    match t
    case Tree(dirs, rank) =>
      && rank.Keys == dirs.Keys
      && (forall d {:trigger Placed(t, d)} :: d in dirs ==> Placed(t, d))
      && (forall d, e {:trigger Apart(t, d, e)} :: d in dirs && e in dirs ==> Apart(t, d, e))
  }

  /** The top of the tree that holds `d`. */
  function TopOf(t: Tree, d: Inode): (top: Inode)
    requires Valid(t) && d in t.dirs
    ensures top in t.dirs && !t.dirs[top].Sub?
    decreases t.rank[d]
  {
    assert Placed(t, d);
    if t.dirs[d].Sub? then TopOf(t, t.dirs[d].parent) else d
  }

  /** `d` lies in the tree of a root. */
  predicate InTree(t: Tree, d: Inode)
    requires Valid(t) && d in t.dirs
  {
    t.dirs[TopOf(t, d)].Root?
  }

  function PathOf(t: Tree, d: Inode): string
    requires Valid(t) && d in t.dirs
    decreases t.rank[d]
  {
    assert Placed(t, d);
    match t.dirs[d]
    case Root(path) => path
    case Outside => ""
    case Sub(parent, name) => Join(PathOf(t, parent), name)
  }

  /** `e` is `d` or lies below it. */
  predicate Below(t: Tree, e: Inode, d: Inode)
    requires Valid(t) && e in t.dirs
    decreases t.rank[e]
  {
    assert Placed(t, e);
    e == d || (t.dirs[e].Sub? && Below(t, t.dirs[e].parent, d))
  }

  predicate IsEmpty(t: Tree, d: Inode) {
    forall e {:trigger t.dirs[e]} :: e in t.dirs ==> t.dirs[e].Outside? || t.dirs[e].Root? || t.dirs[e].parent != d
  }

  // ----- paths and ancestry agree -----

  lemma {:induction false} BelowTop(t: Tree, d: Inode)
    requires Valid(t) && d in t.dirs
    ensures Below(t, d, TopOf(t, d))
    ensures AtOrBelow(PathOf(t, d), PathOf(t, TopOf(t, d)))
    decreases t.rank[d]
  {
    assert Placed(t, d);
    if t.dirs[d].Sub? {
      var p := t.dirs[d].parent;
      BelowTop(t, p);
      JoinBelow(PathOf(t, p), t.dirs[d].name, PathOf(t, TopOf(t, d)));
    }
  }

  lemma {:induction false} BelowSameTop(t: Tree, e: Inode, d: Inode)
    requires Valid(t) && e in t.dirs && d in t.dirs && Below(t, e, d)
    ensures TopOf(t, e) == TopOf(t, d)
    ensures t.rank[d] <= t.rank[e]
    decreases t.rank[e]
  {
    assert Placed(t, e);
    if e != d { BelowSameTop(t, t.dirs[e].parent, d); }
  }

  lemma {:induction false} BelowImpliesPath(t: Tree, e: Inode, d: Inode)
    requires Valid(t) && e in t.dirs && d in t.dirs && Below(t, e, d)
    ensures AtOrBelow(PathOf(t, e), PathOf(t, d))
    decreases t.rank[e]
  {
    assert Placed(t, e);
    if e != d {
      var p := t.dirs[e].parent;
      BelowImpliesPath(t, p, d);
      JoinBelow(PathOf(t, p), t.dirs[e].name, PathOf(t, d));
    }
  }

  /** A root's own path is not below the path of anything but itself. */
  lemma RootPathMinimal(t: Tree, r: Inode, d: Inode)
    requires Valid(t) && r in t.dirs && d in t.dirs && t.dirs[r].Root? && InTree(t, d)
    requires AtOrBelow(PathOf(t, r), PathOf(t, d))
    ensures d == r
  {
    var top := TopOf(t, d);
    BelowTop(t, d);
    AtOrBelowTransitive(PathOf(t, r), PathOf(t, d), PathOf(t, top));
    assert Apart(t, r, top);
    if d != r {
      SubLonger(t, d);
    }
  }

  lemma {:induction false} SubLonger(t: Tree, d: Inode)
    requires Valid(t) && d in t.dirs && t.dirs[d].Sub?
    ensures |PathOf(t, d)| > |PathOf(t, TopOf(t, d))|
    decreases t.rank[d]
  {
    assert Placed(t, d);
    var p := t.dirs[d].parent;
    if t.dirs[p].Sub? { SubLonger(t, p); }
  }

  /** Within the roots' trees, the string test decides ancestry. */
  lemma {:induction false} PathImpliesBelow(t: Tree, e: Inode, d: Inode)
    requires Valid(t) && e in t.dirs && d in t.dirs && InTree(t, e) && InTree(t, d)
    requires AtOrBelow(PathOf(t, e), PathOf(t, d))
    ensures Below(t, e, d)
    decreases t.rank[e]
  {
    assert Placed(t, e);
    match t.dirs[e]
    case Root(_) => RootPathMinimal(t, e, d);
    case Sub(p, n) =>
      BelowJoin(PathOf(t, p), n, PathOf(t, d));
      if AtOrBelow(PathOf(t, p), PathOf(t, d)) {
        PathImpliesBelow(t, p, d);
      } else {
        PathInjective(t, e, d);
      }
  }

  lemma {:induction false} PathInjective(t: Tree, e: Inode, d: Inode)
    requires Valid(t) && e in t.dirs && d in t.dirs && InTree(t, e) && InTree(t, d)
    requires PathOf(t, e) == PathOf(t, d)
    ensures e == d
    decreases t.rank[e]
  {
    assert Placed(t, e) && Placed(t, d);
    if t.dirs[e].Root? {
      RootPathMinimal(t, e, d);
    } else if t.dirs[d].Root? {
      RootPathMinimal(t, d, e);
    } else {
      var (p, q) := (t.dirs[e].parent, t.dirs[d].parent);
      JoinInjective(PathOf(t, p), t.dirs[e].name, PathOf(t, q), t.dirs[d].name);
      PathInjective(t, p, q);
      assert Apart(t, e, d);
    }
  }

  /** The string test of the cache and ancestry in the forest are the same. */
  lemma BelowIffPath(t: Tree, e: Inode, d: Inode)
    requires Valid(t) && e in t.dirs && d in t.dirs && InTree(t, e) && InTree(t, d)
    ensures Below(t, e, d) <==> AtOrBelow(PathOf(t, e), PathOf(t, d))
  {
    if Below(t, e, d) {
      BelowImpliesPath(t, e, d);
    } else if AtOrBelow(PathOf(t, e), PathOf(t, d)) {
      PathImpliesBelow(t, e, d);
    }
  }

  /** Pathname lookup: the directory of the roots' trees that `path` names. */
  function Resolve(t: Tree, path: string): (r: Option<Inode>)
    requires Valid(t)
    ensures r.Some? ==> r.value in t.dirs && InTree(t, r.value) && PathOf(t, r.value) == path
    ensures r.None? ==> forall d :: d in t.dirs && InTree(t, d) ==> PathOf(t, d) != path
  {
    if d :| d in t.dirs && InTree(t, d) && PathOf(t, d) == path then
      assert forall e :: e in t.dirs && InTree(t, e) && PathOf(t, e) == path ==> e == d by {
        forall e | e in t.dirs && InTree(t, e) && PathOf(t, e) == path ensures e == d {
          PathInjective(t, e, d);
        }
      }
      Some(d)
    else None
  }

  lemma ResolvePath(t: Tree, d: Inode)
    requires Valid(t) && d in t.dirs && InTree(t, d)
    ensures Resolve(t, PathOf(t, d)) == Some(d)
  {
    var r := Resolve(t, PathOf(t, d));
    assert r.Some?;
    PathInjective(t, r.value, d);
  }
}
