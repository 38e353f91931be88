/**
 The order of the display, by position in what is shown, and the order of
 the lists of children, by the order of the registrations.
 */
module NamespaceOrder {

  import opened Namespaces

  // ----- ancestors -----

  lemma {:induction false} UnderTrans(w: World, x: ID, y: ID, z: ID)
    requires Valid(w) && Under(w, x, y) && Under(w, y, z)
    ensures Under(w, x, z)
    decreases if x in w.rank then w.rank[x] else 0
  {
    if x != y && x in w.parent { UnderTrans(w, w.parent[x], y, z); }
  }

  /** Of two ancestors one is an ancestor of the other. */
  lemma {:induction false} Comparable(w: World, x: ID, y: ID, z: ID)
    requires Valid(w) && Under(w, x, y) && Under(w, x, z)
    ensures Under(w, y, z) || Under(w, z, y)
    decreases if x in w.rank then w.rank[x] else 0
  {
    if x != y && x != z && x in w.parent { Comparable(w, w.parent[x], y, z); }
  }

  /** A child is not above what it is owned by. */
  lemma ChildBelow(w: World, c: ID, n: ID)
    requires Valid(w) && OwnedBy(w, c, n) && (n == INVIS || n in w.kind)
    ensures !Under(w, n, c) && Depth(w, c) < Depth(w, n)
  {
    if Under(w, n, c) { UnderDepth(w, n, c); }
  }

  /** With two things below two different children of `n`, nothing is below both. */
  lemma Apart(w: World, x: ID, y: ID, c: ID, d: ID, n: ID)
    requires Valid(w) && OwnedBy(w, c, n) && OwnedBy(w, d, n) && c != d && Under(w, x, c) && Under(w, y, d)
    ensures !Under(w, x, y) && !Under(w, x, d)
  {
    if Under(w, x, y) { UnderTrans(w, x, y, d); }
    if Under(w, x, d) { SiblingsApart(w, x, c, d, n); }
  }

  // ----- one tree -----

  ghost predicate Children(w: World, info: Info, n: ID, children: seq<ID>) {
    forall i :: 0 <= i < |children| ==> children[i] in info.list && OwnedBy(w, children[i], n)
  }

  lemma VisitedUnder(w: World, info: Info, n: ID, i: nat)
    requires Valid(w) && Forest(w, info, {}) && n in info.list && i < |Visited(w, info, n)|
    ensures Visited(w, info, n)[i] in info.list && Under(w, Visited(w, info, n)[i], n)
  {
    var s := Visited(w, info, n);
    hide Visited; hide Forest; hide Under;
    VisitedCount(w, info, n, s[i]);
    assert s[i] in multiset(s);
  }

  lemma VisitedNode(w: World, info: Info, n: ID)
    requires Valid(w) && Forest(w, info, {}) && n in info.list
    ensures (n == INVIS || n in w.kind) && Children(w, info, n, info.list[n].children) && Distinct(info.list[n].children)
    ensures Visited(w, info, n) == [n] + VisitedAll(w, info, n, info.list[n].children)
  {
    assert ChildrenOk(w, info, n);
  }

  lemma VisitedChildren(w: World, info: Info, n: ID, children: seq<ID>)
    requires Valid(w) && Forest(w, info, {}) && n in info.list && Children(w, info, n, children)
    ensures children == [] ==> VisitedAll(w, info, n, children) == []
    ensures children != [] ==> children[0] in info.list && Children(w, info, n, children[1..])
    ensures children != [] ==>
      VisitedAll(w, info, n, children) == Visited(w, info, children[0]) + VisitedAll(w, info, n, children[1..])
  {
    assert forall i :: 0 < i < |children| ==> children[1..][i - 1] == children[i];
  }

  /** Three places in the trees of some children: in which tree, and where in it. */
  lemma {:induction false} Split(w: World, info: Info, n: ID, children: seq<ID>, i: nat, j: nat, k: nat)
    returns (a: nat, b: nat, c: nat, i': nat, j': nat, k': nat)
    requires Valid(w) && Forest(w, info, {}) && n in info.list && Children(w, info, n, children)
    requires i <= j <= k < |VisitedAll(w, info, n, children)|
    ensures a <= b <= c < |children|
    ensures i' < |Visited(w, info, children[a])| && j' < |Visited(w, info, children[b])| && k' < |Visited(w, info, children[c])|
    ensures VisitedAll(w, info, n, children)[i] == Visited(w, info, children[a])[i']
    ensures VisitedAll(w, info, n, children)[j] == Visited(w, info, children[b])[j']
    ensures VisitedAll(w, info, n, children)[k] == Visited(w, info, children[c])[k']
    ensures (a == b ==> j' - i' == j - i) && (b == c ==> k' - j' == k - j)
    decreases |children|
  {
    hide Visited; hide VisitedAll; hide Forest; hide Valid; hide OwnedBy; hide Under;
    VisitedChildren(w, info, n, children);
    var first, rest := Visited(w, info, children[0]), children[1..];
    if k < |first| {
      a, b, c, i', j', k' := 0, 0, 0, i, j, k;
    } else if j < |first| {
      var k0 := k - |first|;
      a, b, c, i', j', k' := Split(w, info, n, rest, k0, k0, k0);
      a, b, c, i', j' := 0, 0, c + 1, i, j;
    } else if i < |first| {
      a, b, c, i', j', k' := Split(w, info, n, rest, j - |first|, j - |first|, k - |first|);
      a, b, c, i' := 0, b + 1, c + 1, i;
    } else {
      a, b, c, i', j', k' := Split(w, info, n, rest, i - |first|, j - |first|, k - |first|);
      a, b, c := a + 1, b + 1, c + 1;
    }
  }

  /** An entry comes before everything below it. */
  lemma {:induction false} OwnerFirst(w: World, info: Info, n: ID, i: nat, j: nat)
    requires Valid(w) && Forest(w, info, {}) && n in info.list && i < j < |Visited(w, info, n)|
    ensures !Under(w, Visited(w, info, n)[i], Visited(w, info, n)[j])
    decreases Depth(w, n)
  {
    hide Visited; hide VisitedAll; hide Forest; hide Valid; hide OwnedBy; hide Depth;
    VisitedNode(w, info, n);
    var s, children := Visited(w, info, n), info.list[n].children;
    if i == 0 {
      var a, _, _, j', _, _ := Split(w, info, n, children, j - 1, j - 1, j - 1);
      VisitedUnder(w, info, children[a], j');
      ChildBelow(w, children[a], n);
      if Under(w, n, s[j]) { UnderTrans(w, n, s[j], children[a]); }
    } else {
      var a, b, _, i', j', _ := Split(w, info, n, children, i - 1, j - 1, j - 1);
      ChildBelow(w, children[a], n);
      if a == b {
        OwnerFirst(w, info, children[a], i', j');
      } else {
        VisitedUnder(w, info, children[a], i');
        VisitedUnder(w, info, children[b], j');
        Apart(w, s[i], s[j], children[a], children[b], n);
      }
    }
  }

  /** What is above an entry below the child `c` of `n`, but not above `n`, is below `c`. */
  lemma WithinChild(w: World, x: ID, y: ID, c: ID, n: ID)
    requires Valid(w) && OwnedBy(w, c, n) && Under(w, y, c) && Under(w, y, x) && !Under(w, n, x)
    ensures Under(w, x, c)
  {
    Comparable(w, y, c, x);
  }

  /** The entries below any `x` are contiguous. */
  lemma {:induction false} Contiguous(w: World, info: Info, n: ID, x: ID, i: nat, j: nat, k: nat)
    requires Valid(w) && Forest(w, info, {}) && n in info.list && i < j < k < |Visited(w, info, n)|
    requires Under(w, Visited(w, info, n)[i], x) && Under(w, Visited(w, info, n)[k], x)
    ensures Under(w, Visited(w, info, n)[j], x)
    decreases Depth(w, n)
  {
    hide Visited; hide VisitedAll; hide Forest; hide Valid; hide OwnedBy; hide Depth;
    VisitedNode(w, info, n);
    var s, children := Visited(w, info, n), info.list[n].children;
    if Under(w, n, x) {
      VisitedUnder(w, info, n, j);
      UnderTrans(w, s[j], n, x);
    } else {
      var a, b, c, i', j', k' := Split(w, info, n, children, i - 1, j - 1, k - 1);
      VisitedUnder(w, info, children[a], i');
      VisitedUnder(w, info, children[c], k');
      WithinChild(w, x, s[i], children[a], n);
      UnderTrans(w, s[k], x, children[a]);
      SiblingsApart(w, s[k], children[a], children[c], n);
      assert a == c;
      ChildBelow(w, children[a], n);
      Contiguous(w, info, children[a], x, i', j', k');
    }
  }

  /** Siblings, with all that is below them, come in the order of their list. */
  lemma {:induction false} SiblingsInOrder(w: World, info: Info, n: ID, p: ID, a: nat, b: nat, i: nat, j: nat)
    requires Valid(w) && Forest(w, info, {}) && n in info.list && p in info.list && a < b < |info.list[p].children|
    requires i < |Visited(w, info, n)| && Under(w, Visited(w, info, n)[i], info.list[p].children[a])
    requires j < |Visited(w, info, n)| && Under(w, Visited(w, info, n)[j], info.list[p].children[b])
    ensures i < j
    decreases Depth(w, n)
  {
    hide Visited; hide VisitedAll; hide Forest; hide Valid; hide OwnedBy; hide Depth; hide Under;
    var s, children := Visited(w, info, n), info.list[p].children;
    VisitedNode(w, info, n);
    VisitedNode(w, info, p);
    VisitedUnder(w, info, n, i);
    VisitedUnder(w, info, n, j);
    var x, y, c, d := s[i], s[j], children[a], children[b];
    Apart(w, x, y, c, d, p);
    if p == n {
      ChildBelow(w, c, n);
      ChildBelow(w, d, n);
      if j <= i {
        var e, f, _, j', i', _ := Split(w, info, n, children, j - 1, i - 1, i - 1);
        VisitedUnder(w, info, children[e], j');
        VisitedUnder(w, info, children[f], i');
        SiblingsApart(w, y, children[e], d, n);
        SiblingsApart(w, x, children[f], c, n);
      }
    } else if Under(w, n, p) {
      AboveNot(w, n, p, x, c);
      AboveNot(w, n, p, y, d);
      SiblingsApart(w, n, c, d, p);
    } else {
      UnderOwner(w, x, c, p);
      UnderOwner(w, y, d, p);
      Comparable(w, x, n, p);
      var q := ChildAbove(w, info, p, n);
      var r := info.list[n].children[q];
      UnderTrans(w, x, p, r);
      UnderTrans(w, y, p, r);
      ChildBelow(w, r, n);
      if j <= i {
        var e, f, _, j', i', _ := Split(w, info, n, info.list[n].children, j - 1, i - 1, i - 1);
        VisitedUnder(w, info, info.list[n].children[e], j');
        VisitedUnder(w, info, info.list[n].children[f], i');
        SiblingsApart(w, y, info.list[n].children[e], r, n);
        SiblingsApart(w, x, info.list[n].children[f], r, n);
        SiblingsInOrder(w, info, r, p, a, b, i', j');
      }
    }
  }

  /** Below `p`, an ancestor of `x` like the child `c` of `p`, is `c` or below it. */
  lemma AboveNot(w: World, n: ID, p: ID, x: ID, c: ID)
    requires Valid(w) && Under(w, n, p) && n != p && OwnedBy(w, c, p) && Under(w, x, n) && Under(w, x, c) && (p == INVIS || p in w.kind)
    ensures Under(w, n, c)
  {
    Comparable(w, x, n, c);
    if Under(w, c, n) && c != n {
      UnderDepth(w, n, p);
      assert Under(w, p, n);
      UnderDepth(w, p, n);
    }
  }

  // ----- the whole display -----

  /** Position by position: owners first, */
  ghost predicate OwnersFirst(w: World, s: seq<ID>)
    requires Valid(w)
  {
    forall i, j :: 0 <= i < j < |s| ==> !Under(w, s[i], s[j])
  }

  /** what is below one ID together, */
  ghost predicate Together(w: World, s: seq<ID>, x: ID)
    requires Valid(w)
  {
    forall i, j, k :: 0 <= i < j < k < |s| && Under(w, s[i], x) && Under(w, s[k], x) ==> Under(w, s[j], x)
  }

  /** and what is at or below `c` before what is at or below `d`. */
  ghost predicate Ahead(w: World, s: seq<ID>, c: ID, d: ID)
    requires Valid(w)
  {
    forall i, j :: 0 <= i < |s| && 0 <= j < |s| && Under(w, s[i], c) && Under(w, s[j], d) ==> i < j
  }

  ghost predicate Preorder(w: World, info: Info, s: seq<ID>)
    requires Valid(w)
  {
    && OwnersFirst(w, s)
    && (forall x :: Together(w, s, x))
    && forall p, a, b :: p in info.list && 0 <= a < b < |info.list[p].children| ==>
      Ahead(w, s, info.list[p].children[a], info.list[p].children[b])
  }

  lemma TreePreorder(w: World, info: Info, n: ID)
    requires Valid(w) && Forest(w, info, {}) && n in info.list
    ensures Preorder(w, info, Visited(w, info, n))
  {
    hide Visited; hide Forest; hide Valid; hide Under;
    var s := Visited(w, info, n);
    forall i, j | 0 <= i < j < |s| ensures !Under(w, s[i], s[j]) {
      OwnerFirst(w, info, n, i, j);
    }
    forall x, i, j, k | 0 <= i < j < k < |s| && Under(w, s[i], x) && Under(w, s[k], x) ensures Under(w, s[j], x) {
      Contiguous(w, info, n, x, i, j, k);
    }
    forall p, a, b, i, j | p in info.list && 0 <= a < b < |info.list[p].children| && 0 <= i < |s| && 0 <= j < |s|
      && Under(w, s[i], info.list[p].children[a]) && Under(w, s[j], info.list[p].children[b])
      ensures i < j
    {
      SiblingsInOrder(w, info, n, p, a, b, i, j);
    }
  }

  /** Below a topmost namespace is nothing that has an ancestor in common with what is below the special entry. */
  lemma Across(w: World, x: ID, y: ID, z: ID, root: ID)
    requires Valid(w) && root in w.kind && IsTop(w, root) && Under(w, x, root) && Under(w, y, INVIS)
    ensures !(Under(w, x, z) && Under(w, y, z))
  {
    if Under(w, x, z) && Under(w, y, z) {
      Comparable(w, x, root, z);
      if Under(w, z, root) { UnderTrans(w, y, z, root); }
      OneAnchor(w, y, root, INVIS);
    }
  }

  /** The first tree below a topmost namespace, the second below the special entry. */
  ghost predicate TwoTrees(w: World, s: seq<ID>, t: seq<ID>, root: ID)
    requires Valid(w)
  {
    && root in w.kind && IsTop(w, root)
    && (forall i :: 0 <= i < |s| ==> Under(w, s[i], root))
    && forall i :: 0 <= i < |t| ==> Under(w, t[i], INVIS)
  }

  lemma JoinedOwnersFirst(w: World, s: seq<ID>, t: seq<ID>, root: ID)
    requires Valid(w) && TwoTrees(w, s, t, root) && OwnersFirst(w, s) && OwnersFirst(w, t)
    ensures OwnersFirst(w, s + t)
  {
    hide Valid;
    forall i, j | 0 <= i < j < |s + t| ensures !Under(w, (s + t)[i], (s + t)[j]) {
      if j >= |s| {
        if i < |s| { Across(w, s[i], t[j - |s|], t[j - |s|], root); } else { assert !Under(w, t[i - |s|], t[j - |s|]); }
      }
    }
  }

  lemma JoinedTogether(w: World, s: seq<ID>, t: seq<ID>, root: ID, x: ID)
    requires Valid(w) && TwoTrees(w, s, t, root) && Together(w, s, x) && Together(w, t, x)
    ensures Together(w, s + t, x)
  {
    hide Valid; hide Under;
    var e := s + t;
    forall i, j, k | 0 <= i < j < k < |e| && Under(w, e[i], x) && Under(w, e[k], x) ensures Under(w, e[j], x) {
      if k >= |s| {
        if i < |s| { Across(w, s[i], t[k - |s|], x, root); } else { assert Under(w, t[j - |s|], x); }
      }
    }
  }

  lemma JoinedAhead(w: World, s: seq<ID>, t: seq<ID>, root: ID, c: ID, d: ID, p: ID)
    requires Valid(w) && TwoTrees(w, s, t, root) && OwnedBy(w, c, p) && OwnedBy(w, d, p) && Ahead(w, s, c, d) && Ahead(w, t, c, d)
    ensures Ahead(w, s + t, c, d)
  {
    hide Valid; hide OwnedBy; hide Under;
    var e := s + t;
    forall i, j | 0 <= i < |e| && 0 <= j < |e| && Under(w, e[i], c) && Under(w, e[j], d) ensures i < j {
      UnderOwner(w, e[i], c, p);
      UnderOwner(w, e[j], d, p);
      if i >= |s| {
        if j < |s| { Across(w, s[j], t[i - |s|], p, root); } else { assert i - |s| < j - |s|; }
      }
    }
  }

  lemma TreesApart(w: World, s: seq<ID>, t: seq<ID>, root: ID)
    requires Valid(w) && TwoTrees(w, s, t, root)
    ensures Ahead(w, s + t, root, INVIS)
  {
    hide Valid;
    forall i, j | 0 <= i < |s + t| && 0 <= j < |s + t| && Under(w, (s + t)[i], root) && Under(w, (s + t)[j], INVIS) ensures i < j {
      if i >= |s| {
        Across(w, (s + t)[i], t[i - |s|], root, root);
      } else if j < |s| {
        Across(w, s[j], (s + t)[j], root, root);
      }
    }
  }

  /**
   With a topmost namespace, the display as a whole has each entry before all
   that is below it, what is below one entry together, siblings in the order
   of their list, and the tree of the root before that of the special entry.
   */
  lemma DisplayPreorder(w: World, info: Info)
    requires Valid(w) && Forest(w, info, {}) && !NoTop(w, info)
    ensures DisplayAll(w, info).Shown?
    ensures Preorder(w, info, DisplayAll(w, info).entries)
    ensures Ahead(w, DisplayAll(w, info).entries, info.root, INVIS)
  {
    var s := Visited(w, info, info.root);
    var t := if INVIS in info.list then Visited(w, info, INVIS) else [];
    TreePreorder(w, info, info.root);
    if INVIS in info.list { TreePreorder(w, info, INVIS); }
    hide Visited; hide Under; hide OwnedBy;
    forall i | 0 <= i < |s| ensures Under(w, s[i], info.root) { VisitedUnder(w, info, info.root, i); }
    forall i | 0 <= i < |t| ensures Under(w, t[i], INVIS) { VisitedUnder(w, info, INVIS, i); }
    JoinedPreorder(w, info, s, t, info.root);
  }

  lemma JoinedPreorder(w: World, info: Info, s: seq<ID>, t: seq<ID>, root: ID)
    requires Valid(w) && Forest(w, info, {}) && TwoTrees(w, s, t, root) && Preorder(w, info, s) && (t == [] || Preorder(w, info, t))
    ensures Preorder(w, info, s + t) && Ahead(w, s + t, root, INVIS)
  {
    hide Valid; hide Under; hide OwnedBy; hide Ahead; hide Together; hide OwnersFirst; hide TwoTrees;
    TreesApart(w, s, t, root);
    if t == [] {
      assert s + t == s;
    } else {
      JoinedOwnersFirst(w, s, t, root);
      forall x ensures Together(w, s + t, x) { JoinedTogether(w, s, t, root, x); }
      forall p, a, b | p in info.list && 0 <= a < b < |info.list[p].children|
        ensures Ahead(w, s + t, info.list[p].children[a], info.list[p].children[b])
      {
        assert ChildrenOk(w, info, p);
        JoinedAhead(w, s, t, root, info.list[p].children[a], info.list[p].children[b], p);
      }
    }
  }

  // ----- the lists of children -----

  /** The lists of children only grow at their ends, and the kinds stay. */
  ghost predicate Grown(info: Info, info': Info) {
    forall p :: p in info.list ==> p in info'.list && info.list[p].children <= info'.list[p].children && info'.list[p].kind == info.list[p].kind
  }

  lemma {:induction false} EntryGrows(w: World, info: Info, n: ID)
    requires Valid(w) && n in w.kind && n !in info.list
    ensures Grown(info, Entry(w, info, n))
    decreases w.rank[n], 0
  {
    if n in w.parent {
      var info1 := info.(list := info.list[n := Attribs(w.kind[n], [], [])]);
      RegisteredGrows(w, info1, w.parent[n], -1);
    }
  }

  lemma {:induction false} RegisteredGrows(w: World, info: Info, n: ID, pid: int)
    requires Valid(w) && n in w.kind
    ensures Grown(info, Registered(w, info, n, pid))
    decreases w.rank[n], 1
  {
    if n !in info.list { EntryGrows(w, info, n); }
  }

  lemma {:induction false} AllGrow(w: World, regs: seq<(ID, int)>, k: nat)
    requires Valid(w) && k <= |regs| && forall i :: 0 <= i < |regs| ==> regs[i].0 in w.kind
    ensures Grown(RegisterAll(w, regs[..k]), RegisterAll(w, regs))
    decreases |regs|
  {
    if k == |regs| {
      assert regs[..k] == regs;
    } else {
      var rest := regs[..|regs| - 1];
      assert rest[..k] == regs[..k];
      AllGrow(w, rest, k);
      RegisteredGrows(w, RegisterAll(w, rest), regs[|regs| - 1].0, regs[|regs| - 1].1);
    }
  }

  /** Of two siblings, the one that was entered by the first `k` registrations, when the other was not, is first. */
  lemma ElderFirst(w: World, regs: seq<(ID, int)>, k: nat, p: ID, a: nat, b: nat)
    requires Valid(w) && k <= |regs| && forall i :: 0 <= i < |regs| ==> regs[i].0 in w.kind
    requires p in RegisterAll(w, regs).list
    requires var children := RegisterAll(w, regs).list[p].children;
      a < |children| && b < |children| && children[a] in RegisterAll(w, regs[..k]).list && children[b] !in RegisterAll(w, regs[..k]).list
    ensures a < b
  {
    var info, info' := RegisterAll(w, regs[..k]), RegisterAll(w, regs);
    AllRegisteredForest(w, regs[..k]);
    AllRegisteredForest(w, regs);
    AllGrow(w, regs, k);
    hide RegisterAll;
    var c, d := info'.list[p].children[a], info'.list[p].children[b];
    assert ChildrenOk(w, info', p) && Attached(w, info, c);
    assert OwnedBy(w, c, p);
    var before := info.list[p].children;
    var i :| 0 <= i < |before| && before[i] == c;
    assert info'.list[p].children[i] == c;
    assert ChildrenOk(w, info, p);
    assert forall i :: 0 <= i < |before| ==> before[i] in info.list && before[i] == info'.list[p].children[i];
  }

  // ----- the root and the kinds -----

  lemma {:induction false} EntryKind(w: World, info: Info, n: ID, x: ID)
    requires Valid(w) && n in w.kind && n !in info.list && x !in info.list && x in Entry(w, info, n).list
    ensures Entry(w, info, n).list[x].kind == if x == INVIS then UserNS else if x in w.kind then w.kind[x] else OtherNS
    decreases w.rank[n]
  {
    var info1 := info.(list := info.list[n := Attribs(w.kind[n], [], [])]);
    if n in w.parent {
      var p := w.parent[n];
      if x == n { RegisteredGrows(w, info1, p, -1); } else if p !in info1.list { EntryKind(w, info1, p, x); }
    }
  }

  /** Every entry has the kind of its namespace, and the special entry is of a user namespace. */
  lemma {:induction false} KindsRecorded(w: World, regs: seq<(ID, int)>, x: ID)
    requires Valid(w) && forall i :: 0 <= i < |regs| ==> regs[i].0 in w.kind
    requires x in RegisterAll(w, regs).list
    ensures x in w.kind || x == INVIS
    ensures RegisterAll(w, regs).list[x].kind == if x == INVIS then UserNS else w.kind[x]
    decreases |regs|
  {
    AllRegisteredForest(w, regs);
    hide Forest;
    var rest, n := regs[..|regs| - 1], regs[|regs| - 1].0;
    var info := RegisterAll(w, rest);
    if x in info.list {
      KindsRecorded(w, rest, x);
      RegisteredGrows(w, info, n, regs[|regs| - 1].1);
    } else {
      EntryKind(w, info, n, x);
    }
  }

  /** Entering `n` makes the topmost namespace above it the root, if that is new. */
  lemma {:induction false} EntryRoot(w: World, info: Info, n: ID, t: ID)
    requires Valid(w) && n in w.kind && n !in info.list && t in w.kind && IsTop(w, t) && Under(w, n, t)
    requires forall x :: x in info.list && Under(w, x, t) && Under(w, n, x) ==> t in info.list
    ensures Entry(w, info, n).root == if t in info.list then info.root else t
    decreases w.rank[n]
  {
    if n in w.parent {
      var info1, p := info.(list := info.list[n := Attribs(w.kind[n], [], [])]), w.parent[n];
      assert Under(w, p, p) && Under(w, n, p) && Under(w, p, t);
      if p !in info1.list {
        forall x | x in info1.list && Under(w, x, t) && Under(w, p, x) ensures t in info1.list {
          if x == n { UnderDepth(w, p, n); }
        }
        EntryRoot(w, info1, p, t);
      }
    }
  }

  /** So the root is the topmost namespace above the last registration that brought a new one. */
  lemma LastTopIsRoot(w: World, regs: seq<(ID, int)>, n: ID, pid: int, t: ID)
    requires Valid(w) && n in w.kind && forall i :: 0 <= i < |regs| ==> regs[i].0 in w.kind
    requires t in w.kind && t !in w.parent && (w.kind[t].UserNS? || w.pidHierarchy) && Under(w, n, t)
    ensures RegisterAll(w, regs + [(n, pid)]).root == if t in RegisterAll(w, regs).list then RegisterAll(w, regs).root else t
  {
    var info := RegisterAll(w, regs);
    AllRegisteredForest(w, regs);
    assert (regs + [(n, pid)])[..|regs|] == regs;
    hide Forest;
    if n in info.list {
      AncestorsListed(w, info, n, t);
    } else {
      forall x | x in info.list && Under(w, x, t) && Under(w, n, x) ensures t in info.list { AncestorsListed(w, info, x, t); }
      EntryRoot(w, info, n, t);
    }
  }

  /** Where no topmost namespace is above, the root stays. */
  lemma {:induction false} NoTopNoRoot(w: World, info: Info, n: ID, pid: int)
    requires Valid(w) && n in w.kind && Under(w, n, INVIS)
    ensures Registered(w, info, n, pid).root == info.root
    decreases w.rank[n]
  {
    if n !in info.list && n in w.parent {
      NoTopNoRoot(w, info.(list := info.list[n := Attribs(w.kind[n], [], [])]), w.parent[n], -1);
    }
  }

  /** An entry whose owner is not visible is a child of the special entry; a topmost one is nobody's. */
  lemma OwnerlessPlaced(w: World, regs: seq<(ID, int)>, x: ID)
    requires Valid(w) && forall i :: 0 <= i < |regs| ==> regs[i].0 in w.kind
    requires x in RegisterAll(w, regs).list && x in w.kind && x !in w.parent
    ensures var list := RegisterAll(w, regs).list;
      if w.kind[x].UserNS? || w.pidHierarchy then forall p :: p in list ==> x !in list[p].children
      else INVIS in list && x in list[INVIS].children
  {
    var info := RegisterAll(w, regs);
    AllRegisteredForest(w, regs);
    hide RegisterAll;
    if w.kind[x].UserNS? || w.pidHierarchy {
      forall p | p in info.list ensures x !in info.list[p].children { assert ChildrenOk(w, info, p); }
    } else {
      assert OwnedBy(w, x, INVIS) && Attached(w, info, x);
    }
  }
}
