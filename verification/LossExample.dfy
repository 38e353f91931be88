/** The losing renames do happen: the smallest file systems on which they do. */
module LossExample {
  import opened Options
  import opened Paths
  import opened FileTree
  import opened TreeChanges
  import opened WatchCache
  import opened Inotify
  import opened Handler
  import opened Agreement
  import opened Operations
  import opened Simulation
  import opened Renames
  import opened NestedRoots
  import opened OneOperation

  /** Root "r" with an empty directory "b", and a directory outside. */
  const REPLACED := Tree(map[0 := Root("r"), 1 := Sub(0, "b"), 2 := Outside], map[0 := 0, 1 := 1, 2 := 0])

  /** Two roots, "r" and "s". */
  const TWO_ROOTS := Tree(map[0 := Root("r"), 1 := Root("s")], map[0 := 0, 1 := 0])

  /** A monitor that has just built its cache over `fs`. */
  ghost function Monitoring(fs: Tree, walks: map<Inode, seq<Inode>>, roots: seq<Option<string>>): Monitor
    requires Valid(fs) && ValidWalks(fs, walks)
  {
    Reinitialize(Handler.Monitor(Kernel(fs, walks, map[], {}, 1), [], roots, 0, false))
  }

  lemma {:induction false} SomeWalks(fs: Tree, ds: set<Inode>) returns (walks: map<Inode, seq<Inode>>)
    requires Valid(fs) && ds <= fs.dirs.Keys
    ensures walks.Keys == ds && forall d :: d in ds ==> IsWalk(fs, d, walks[d])
  {
    if ds == {} {
      walks := map[];
    } else {
      var d :| d in ds;
      var rest := SomeWalks(fs, ds - {d});
      var walk := Listed(set e | e in fs.dirs && Below(fs, e, d));
      walks := rest[d := walk];
      assert forall i :: 0 <= i < |walk| ==> walk[i] in walk;
      assert IsWalk(fs, d, walk);
    }
  }

  lemma {:induction false} Listed(s: set<Inode>) returns (es: seq<Inode>)
    ensures forall e :: e in es <==> e in s
  {
    if s == {} {
      es := [];
    } else {
      var e :| e in s;
      var rest := Listed(s - {e});
      es := [e] + rest;
    }
  }

  lemma AllWalks(fs: Tree) returns (walks: map<Inode, seq<Inode>>)
    requires Valid(fs)
    ensures ValidWalks(fs, walks)
  {
    walks := SomeWalks(fs, fs.dirs.Keys);
  }

  lemma MonitoringAgrees(fs: Tree, walks: map<Inode, seq<Inode>>, roots: seq<Option<string>>)
    requires Valid(fs) && ValidWalks(fs, walks) && RootsApart(roots) && RootsListed(fs, roots) && Nones(roots) == 0
    ensures var m := Monitoring(fs, walks, roots); Sound(m) && Agree(m) && !m.exited && m.k.fs == fs
  {
    var m0 := Handler.Monitor(Kernel(fs, walks, map[], {}, 1), [], roots, 0, false);
    assert ValidKernel(m0.k);
    hide Valid; hide ValidWalks; hide RootsApart; hide RootsListed; hide Nones; hide WatchRoots;
    RebuildAgrees(m0);
  }

  lemma ReplacedValid()
    ensures Valid(REPLACED)
    ensures RootsApart([Some("r")]) && RootsListed(REPLACED, [Some("r")]) && Nones([Some("r")]) == 0
  {
  }

  lemma TwoRootsValid()
    ensures Valid(TWO_ROOTS)
    ensures var roots := [Some("r"), Some("s")]; RootsApart(roots) && RootsListed(TWO_ROOTS, roots) && Nones(roots) == 0
  {
    assert "r"[0] != "s"[0] && "r"[..1] == "r" && "s"[..1] == "s";
    assert [Some("r"), Some("s")][1..] == [Some("s")];
  }

  /** Root "a/b", with nothing in it. */
  const DEEP_ROOT := Tree(map[0 := Root("a/b")], map[0 := 0])

  lemma DeepRootValid()
    ensures Valid(DEEP_ROOT)
    ensures RootsApart([Some("a/b")]) && RootsListed(DEEP_ROOT, [Some("a/b")]) && Nones([Some("a/b")]) == 0
  {
  }

  const A_TO_C := RenameAbove("a", "c")

  lemma AToC()
    ensures Valid(DEEP_ROOT) && Can(DEEP_ROOT, A_TO_C) && Uproots(DEEP_ROOT, A_TO_C)
  {
    assert "a/b"[..1] == "a" && "a" != "c";
    assert DEEP_ROOT.dirs[0].Root? && AtOrBelow(DEEP_ROOT.dirs[0].path, "a");
  }

  const ONTO_B := Rename(2, Sub(0, "b"), Some(1), 7)
  const INTO_S := Rename(0, Sub(1, "r"), None, 7)

  lemma OntoB()
    ensures Valid(REPLACED) && Can(REPLACED, ONTO_B) && Replaces(REPLACED, ONTO_B)
  {
  }

  lemma IntoS()
    ensures Valid(TWO_ROOTS) && Can(TWO_ROOTS, INTO_S) && Nests(TWO_ROOTS, INTO_S)
  {
    TwoRootsValid();
    assert TopOf(TWO_ROOTS, 0) == 0 && TopOf(TWO_ROOTS, 1) == 1;
  }

  lemma ReadyIntro(m: Monitor, op: Op, walks: map<Inode, seq<Inode>>)
    requires !m.exited && Sound(m) && Agree(m) && Valid(m.k.fs) && Can(m.k.fs, op) && ValidWalks(TreeAfter(m.k.fs, op), walks)
    ensures Ready(m, op, walks)
  {
  }

  lemma LosesIntro(fs: Tree, op: Op)
    requires Replaces(fs, op) || Nests(fs, op) || Uproots(fs, op)
    ensures Loses(fs, op)
  {
  }

  /** Moving the outside directory onto r/b: it is in the tree, and stays unwatched. */
  lemma ReplacingLoses() returns (m: Monitor, op: Op, walks: map<Inode, seq<Inode>>)
    ensures Ready(m, op, walks) && Replaces(m.k.fs, op) && !Settled(After(m, op, walks))
  {
    hide *;
    ReplacedValid();
    OntoB();
    op := ONTO_B;
    var w := AllWalks(REPLACED);
    m := Monitoring(REPLACED, w, [Some("r")]);
    MonitoringAgrees(REPLACED, w, [Some("r")]);
    walks := AllWalks(TreeAfter(REPLACED, op));
    ReadyIntro(m, op, walks);
    LosesIntro(m.k.fs, op);
    Settles(m, op, walks);
  }

  /** Moving root "r" to s/r. */
  lemma NestingLoses() returns (m: Monitor, op: Op, walks: map<Inode, seq<Inode>>)
    ensures Ready(m, op, walks) && Nests(m.k.fs, op) && !Settled(After(m, op, walks))
  {
    hide *;
    TwoRootsValid();
    IntoS();
    op := INTO_S;
    var roots := [Some("r"), Some("s")];
    var w := AllWalks(TWO_ROOTS);
    m := Monitoring(TWO_ROOTS, w, roots);
    MonitoringAgrees(TWO_ROOTS, w, roots);
    walks := AllWalks(TreeAfter(TWO_ROOTS, op));
    ReadyIntro(m, op, walks);
    LosesIntro(m.k.fs, op);
    Settles(m, op, walks);
  }

  /** Renaming "a" to "c": the root is now "c/b". */
  lemma UprootingLoses() returns (m: Monitor, op: Op, walks: map<Inode, seq<Inode>>)
    ensures Ready(m, op, walks) && Uproots(m.k.fs, op) && !Settled(After(m, op, walks))
  {
    hide *;
    DeepRootValid();
    AToC();
    op := A_TO_C;
    var w := AllWalks(DEEP_ROOT);
    m := Monitoring(DEEP_ROOT, w, [Some("a/b")]);
    MonitoringAgrees(DEEP_ROOT, w, [Some("a/b")]);
    walks := AllWalks(TreeAfter(DEEP_ROOT, op));
    ReadyIntro(m, op, walks);
    LosesIntro(m.k.fs, op);
    Settles(m, op, walks);
  }
}
