/**
 Discovering namespaces and displaying them as a forest. Registering a
 namespace registers its ancestors; namespaces whose owner is not visible hang
 below a special entry; the display walks the tree of the root namespace and
 then that of the special entry.
 */
module Namespaces {

  type ID = nat

  /** The special entry, and also the value of rootNS before any root was found. */
  const INVIS: ID := 0

  datatype Kind = UserNS | PidNS | OtherNS

  datatype Attribs = Attribs(kind: Kind, pids: seq<int>, children: seq<ID>)

  /** `parent` is what the ioctl returns; it fails with EPERM for namespaces not in it. */
  datatype World = World(kind: map<ID, Kind>, parent: map<ID, ID>, rank: map<ID, nat>, limit: nat, pidHierarchy: bool)

  datatype Info = Info(list: map<ID, Attribs>, root: ID)

  const EMPTY := Info(map[], INVIS)

  /** Parents exist and the parent relation is acyclic; no real namespace has the special ID. */
  ghost predicate Valid(w: World) {
    match w
    case World(kind, parent, rank, limit, _) =>
      && INVIS !in kind
      && parent.Keys <= kind.Keys && rank.Keys == kind.Keys
      && (forall n :: n in kind ==> rank[n] < limit)
      && (forall n {:trigger parent[n]} :: n in parent ==> parent[n] in kind && rank[parent[n]] < rank[n])
  }

  /** The ioctl failed for a namespace that has no owner by kind: it is topmost. */
  predicate IsTop(w: World, n: ID)
    requires n in w.kind
  {
    n !in w.parent && (w.kind[n].UserNS? || w.pidHierarchy)
  }

  // ----- registering -----

  function AddChild(info: Info, p: ID, n: ID): Info
    requires p in info.list
  {
    var attribs := info.list[p];
    info.(list := info.list[p := attribs.(children := attribs.children + [n])])
  }

  function Entry(w: World, info: Info, n: ID): (r: Info)
    requires Valid(w) && n in w.kind
    ensures r.list.Keys >= info.list.Keys + {n}
    decreases w.rank[n], 0
  {
    var info1 := info.(list := info.list[n := Attribs(w.kind[n], [], [])]);
    if n !in w.parent then
      if IsTop(w, n) then info1.(root := n)
      else AddChild(if INVIS in info1.list then info1 else info1.(list := info1.list[INVIS := Attribs(UserNS, [], [])]), INVIS, n)
    else
      AddChild(Registered(w, info1, w.parent[n], -1), w.parent[n], n)
  }

  function Registered(w: World, info: Info, n: ID, pid: int): (r: Info)
    requires Valid(w) && n in w.kind
    ensures r.list.Keys >= info.list.Keys + {n}
    decreases w.rank[n], 1
  {
    var info1 := if n in info.list then info else Entry(w, info, n);
    if pid > 0 then
      var attribs := info1.list[n];
      info1.(list := info1.list[n := attribs.(pids := attribs.pids + [pid])])
    else info1
  }

  /** One /proc/PID/ns file after another. */
  function RegisterAll(w: World, regs: seq<(ID, int)>): Info
    requires Valid(w) && forall i :: 0 <= i < |regs| ==> regs[i].0 in w.kind
  {
    if regs == [] then EMPTY
    else Registered(w, RegisterAll(w, regs[..|regs| - 1]), regs[|regs| - 1].0, regs[|regs| - 1].1)
  }

  class NamespaceInfo {
    var nsList: map<ID, Attribs>
    var rootNS: ID

    constructor ()
      ensures State() == EMPTY
    {
      nsList := map[];
      rootNS := INVIS;
    }

    ghost function State(): Info
      reads this
    {
      Info(nsList, rootNS)
    }

    method AddNamespace(w: World, n: ID, pid: int)
      requires Valid(w) && n in w.kind
      modifies this
      ensures State() == Registered(w, old(State()), n, pid)
      decreases w.rank[n], 1
    {
      if n !in nsList {
        AddNamespaceToList(w, n);
      }
      if pid > 0 {
        nsList := nsList[n := nsList[n].(pids := nsList[n].pids + [pid])];
      }
    }

    method AddNamespaceToList(w: World, n: ID)
      requires Valid(w) && n in w.kind
      modifies this
      ensures State() == Entry(w, old(State()), n)
      decreases w.rank[n], 0
    {
      nsList := nsList[n := Attribs(w.kind[n], [], [])];
      if n !in w.parent {
        if w.kind[n].UserNS? || w.pidHierarchy {
          rootNS := n;
        } else {
          if INVIS !in nsList {
            nsList := nsList[INVIS := Attribs(UserNS, [], [])];
          }
          nsList := nsList[INVIS := nsList[INVIS].(children := nsList[INVIS].children + [n])];
        }
      } else {
        var parent := w.parent[n];
        AddNamespace(w, parent, -1);
        nsList := nsList[parent := nsList[parent].(children := nsList[parent].children + [n])];
      }
    }

    method DisplayNamespaceTree(ghost w: World, n: ID) returns (shown: seq<ID>)
      requires Valid(w) && Forest(w, State(), {}) && n in nsList
      ensures shown == Visited(w, State(), n)
      decreases Depth(w, n)
    {
      shown := [n];
      var children := nsList[n].children;
      assert ChildrenOk(w, State(), n);
      for i := 0 to |children|
        invariant shown + VisitedAll(w, State(), n, children[i..]) == Visited(w, State(), n)
      {
        assert OwnedBy(w, children[i], n);
        assert children[i..][0] == children[i] && children[i..][1..] == children[i + 1..];
        var below := DisplayNamespaceTree(w, children[i]);
        shown := shown + below;
      }
    }

    method DisplayNamespaceHierarchies(ghost w: World) returns (d: Display)
      requires Valid(w) && Forest(w, State(), {})
      ensures d == DisplayAll(w, State())
    {
      if rootNS !in nsList { return Crash; }
      var entries := DisplayNamespaceTree(w, rootNS);
      if INVIS in nsList {
        var below := DisplayNamespaceTree(w, INVIS);
        entries := entries + below;
      }
      d := Shown(entries);
    }
  }

  // ----- the forest -----

  /** Whose child `n` is: its parent, or the special entry; a topmost namespace is nobody's. */
  ghost predicate OwnedBy(w: World, n: ID, p: ID) {
    n in w.kind && if n in w.parent then p == w.parent[n] else !IsTop(w, n) && p == INVIS
  }

  ghost predicate Distinct(s: seq<ID>) {
    forall i, j :: 0 <= i < j < |s| ==> s[i] != s[j]
  }

  /** The list of children of `p` is sound: registered, distinct, and owned by `p`. */
  ghost predicate ChildrenOk(w: World, info: Info, p: ID)
    requires p in info.list
  {
    var children := info.list[p].children;
    Distinct(children) && forall i :: 0 <= i < |children| ==> children[i] in info.list && OwnedBy(w, children[i], p)
  }

  /** Whoever owns `n` is registered and has it as a child. */
  ghost predicate Attached(w: World, info: Info, n: ID) {
    forall p :: OwnedBy(w, n, p) ==> p in info.list && n in info.list[p].children
  }

  /** The table is a forest, but for namespaces of `pending`, whose owners are still being registered. */
  ghost predicate Forest(w: World, info: Info, pending: set<ID>) {
    match info
    case Info(list, root) =>
      && (forall n :: n in list ==> n == INVIS || n in w.kind)
      && (forall p {:trigger ChildrenOk(w, info, p)} :: p in list ==> ChildrenOk(w, info, p))
      && (forall n {:trigger Attached(w, info, n)} :: n in list && n !in pending ==> Attached(w, info, n))
      && (forall p, i :: p in list && 0 <= i < |list[p].children| ==> list[p].children[i] !in pending)
      && (if root in w.kind then root in list && IsTop(w, root) else root == INVIS && forall n :: n in list && n in w.kind ==> !IsTop(w, n))
  }

  /** `n` was just entered, as a root or with its owner still to come. */
  lemma Entered(w: World, info: Info, n: ID, pending: set<ID>, root: ID)
    requires Valid(w) && Forest(w, info, pending) && n in w.kind && n !in info.list
    requires root == if IsTop(w, n) then n else info.root
    ensures Forest(w, Info(info.list[n := Attribs(w.kind[n], [], [])], root), if IsTop(w, n) then pending else pending + {n})
  {
    var info' := Info(info.list[n := Attribs(w.kind[n], [], [])], root);
    forall p | p in info'.list ensures ChildrenOk(w, info', p) {
      if p != n { assert ChildrenOk(w, info, p); }
    }
    forall x | x in info'.list && x != n && x !in pending ensures Attached(w, info', x) {
      assert Attached(w, info, x);
      assert OwnedBy(w, x, n) ==> n in info.list;
    }
    forall p, i | p in info'.list && 0 <= i < |info'.list[p].children| ensures info'.list[p].children[i] != n {
      if p != n { assert ChildrenOk(w, info, p); }
    }
    assert IsTop(w, n) ==> Attached(w, info', n);
  }

  lemma SpecialEntered(w: World, info: Info, pending: set<ID>)
    requires Valid(w) && Forest(w, info, pending) && INVIS !in info.list
    ensures Forest(w, info.(list := info.list[INVIS := Attribs(UserNS, [], [])]), pending)
  {
    var info' := info.(list := info.list[INVIS := Attribs(UserNS, [], [])]);
    forall p | p in info'.list ensures ChildrenOk(w, info', p) {
      if p != INVIS { assert ChildrenOk(w, info, p); }
    }
    forall x | x in info'.list && x !in pending ensures Attached(w, info', x) {
      if x != INVIS {
        assert Attached(w, info, x);
        assert OwnedBy(w, x, INVIS) ==> INVIS in info.list;
      }
    }
  }

  /** A pending namespace becomes a child of its owner. */
  lemma Adopted(w: World, info: Info, p: ID, n: ID, pending: set<ID>)
    requires Valid(w) && Forest(w, info, pending + {n}) && n !in pending && n in info.list && p in info.list && OwnedBy(w, n, p)
    ensures Forest(w, AddChild(info, p, n), pending)
  {
    var info' := AddChild(info, p, n);
    assert info'.list.Keys == info.list.Keys;
    var children := info.list[p].children;
    assert info'.list[p].children == children + [n];
    forall q | q in info'.list ensures ChildrenOk(w, info', q) {
      assert ChildrenOk(w, info, q);
    }
    forall x | x in info'.list && x !in pending ensures Attached(w, info', x) {
      if x == n {
        assert (children + [n])[|children|] == n;
      } else {
        assert Attached(w, info, x);
        assert forall y :: y in children ==> y in children + [n];
      }
    }
    forall q, i | q in info'.list && 0 <= i < |info'.list[q].children| ensures info'.list[q].children[i] !in pending {
      if q == p && i < |children| { assert info'.list[p].children[i] == children[i]; }
    }
  }

  /** Registering keeps the forest, with whatever descendants are pending further up the recursion. */
  lemma {:induction false} EntryForest(w: World, info: Info, n: ID, pending: set<ID>)
    requires Valid(w) && Forest(w, info, pending) && n in w.kind && n !in info.list && Younger(w, pending, n)
    ensures Forest(w, Entry(w, info, n), pending)
    decreases w.rank[n], 0
  {
    var info1 := info.(list := info.list[n := Attribs(w.kind[n], [], [])]);
    Entered(w, info, n, pending, if IsTop(w, n) then n else info.root);
    assert n !in pending;
    hide Forest;
    if n !in w.parent {
      if !IsTop(w, n) {
        if INVIS !in info1.list { SpecialEntered(w, info1, pending + {n}); }
        var info2 := if INVIS in info1.list then info1 else info1.(list := info1.list[INVIS := Attribs(UserNS, [], [])]);
        Adopted(w, info2, INVIS, n, pending);
      }
    } else {
      var p := w.parent[n];
      RegisteredForest(w, info1, p, -1, pending + {n});
      Adopted(w, Registered(w, info1, p, -1), p, n, pending);
    }
  }

  /** The pending namespaces are descendants: none is an ancestor of `n` or `n` itself. */
  ghost predicate Younger(w: World, pending: set<ID>, n: ID)
    requires n in w.rank
  {
    forall x :: x in pending ==> x in w.rank && w.rank[n] < w.rank[x]
  }

  lemma {:induction false} RegisteredForest(w: World, info: Info, n: ID, pid: int, pending: set<ID>)
    requires Valid(w) && Forest(w, info, pending) && n in w.kind && Younger(w, pending, n)
    ensures Forest(w, Registered(w, info, n, pid), pending)
    decreases w.rank[n], 1
  {
    if n !in info.list { EntryForest(w, info, n, pending); }
    var info1 := if n in info.list then info else Entry(w, info, n);
    if pid > 0 {
      var info2 := info1.(list := info1.list[n := info1.list[n].(pids := info1.list[n].pids + [pid])]);
      assert info2.list.Keys == info1.list.Keys;
      forall p | p in info2.list ensures ChildrenOk(w, info2, p) { assert ChildrenOk(w, info1, p); }
      forall x | x in info2.list && x !in pending ensures Attached(w, info2, x) { assert Attached(w, info1, x); }
    }
  }

  /**
   After any registrations the table is a forest: closed under visible owners,
   each namespace in exactly one list of children, unless it is topmost.
   */
  lemma {:induction false} AllRegisteredForest(w: World, regs: seq<(ID, int)>)
    requires Valid(w) && forall i :: 0 <= i < |regs| ==> regs[i].0 in w.kind
    ensures Forest(w, RegisterAll(w, regs), {})
    decreases |regs|
  {
    if regs != [] {
      var rest := regs[..|regs| - 1];
      AllRegisteredForest(w, rest);
      RegisteredForest(w, RegisterAll(w, rest), regs[|regs| - 1].0, regs[|regs| - 1].1, {});
    }
  }

  // ----- member processes -----

  /** The PIDs registered for `n`, in order; a PID of -1 stands for none. */
  function PidsOf(regs: seq<(ID, int)>, n: ID): seq<int> {
    if regs == [] then []
    else PidsOf(regs[..|regs| - 1], n)
         + if regs[|regs| - 1].0 == n && regs[|regs| - 1].1 > 0 then [regs[|regs| - 1].1] else []
  }

  /** Entering a namespace and its ancestors adds no PID to any entry. */
  lemma {:induction false} EntryPids(w: World, info: Info, n: ID, x: ID)
    requires Valid(w) && n in w.kind && n !in info.list
    ensures var r := Entry(w, info, n);
      && (x in info.list ==> r.list[x].pids == info.list[x].pids)
      && (x !in info.list && x in r.list ==> r.list[x].pids == [])
    decreases w.rank[n]
  {
    if n in w.parent {
      var info1 := info.(list := info.list[n := Attribs(w.kind[n], [], [])]);
      if w.parent[n] !in info1.list { EntryPids(w, info1, w.parent[n], x); }
    }
  }

  /** Every entry has exactly the PIDs that were registered for it. */
  lemma {:induction false} PidsRecorded(w: World, regs: seq<(ID, int)>, x: ID)
    requires Valid(w) && forall i :: 0 <= i < |regs| ==> regs[i].0 in w.kind
    ensures var r := RegisterAll(w, regs);
      if x in r.list then r.list[x].pids == PidsOf(regs, x) else PidsOf(regs, x) == []
    decreases |regs|
  {
    if regs != [] {
      var rest := regs[..|regs| - 1];
      var (n, pid) := regs[|regs| - 1];
      PidsRecorded(w, rest, x);
      var info := RegisterAll(w, rest);
      if n !in info.list { EntryPids(w, info, n, x); }
    }
  }

  // ----- the display -----

  /** How much further down the display can go from `n`. */
  function Depth(w: World, n: ID): nat
    requires Valid(w)
  {
    if n in w.kind then w.limit - w.rank[n] else w.limit + 1
  }

  /** The entries visited from `n`, in the order of the recursion. */
  ghost function Visited(w: World, info: Info, n: ID): seq<ID>
    requires Valid(w) && Forest(w, info, {}) && n in info.list
    decreases Depth(w, n), 0
  {
    assert ChildrenOk(w, info, n);
    [n] + VisitedAll(w, info, n, info.list[n].children)
  }

  ghost function VisitedAll(w: World, info: Info, n: ID, children: seq<ID>): seq<ID>
    requires Valid(w) && Forest(w, info, {}) && n in info.list
    requires forall i :: 0 <= i < |children| ==> children[i] in info.list && OwnedBy(w, children[i], n)
    decreases Depth(w, n) - 1, |children|
  {
    if children == [] then []
    else assert OwnedBy(w, children[0], n); Visited(w, info, children[0]) + VisitedAll(w, info, n, children[1..])
  }

  /** `x` is `n` or below it. */
  predicate Under(w: World, x: ID, n: ID)
    requires Valid(w)
    decreases if x in w.rank then w.rank[x] else 0
  {
    x == n || (x in w.kind && if x in w.parent then Under(w, w.parent[x], n) else !IsTop(w, x) && n == INVIS)
  }

  lemma {:induction false} UnderDepth(w: World, x: ID, n: ID)
    requires Valid(w) && Under(w, x, n) && (n == INVIS || n in w.kind)
    ensures x == n || Depth(w, x) < Depth(w, n)
    decreases if x in w.rank then w.rank[x] else 0
  {
    if x != n && x in w.parent { UnderDepth(w, w.parent[x], n); }
  }

  /** Nothing is entered for `n` but its ancestors and, for a namespace whose owner is not visible, the special entry. */
  lemma {:induction false} EntryKeys(w: World, info: Info, n: ID, x: ID)
    requires Valid(w) && n in w.kind && n !in info.list && x in Entry(w, info, n).list
    ensures x in info.list || Under(w, n, x)
    decreases w.rank[n]
  {
    if n in w.parent {
      var info1 := info.(list := info.list[n := Attribs(w.kind[n], [], [])]);
      if w.parent[n] !in info1.list { EntryKeys(w, info1, w.parent[n], x); }
    }
  }

  lemma {:induction false} AncestorsListed(w: World, info: Info, n: ID, x: ID)
    requires Valid(w) && Forest(w, info, {}) && n in info.list && Under(w, n, x)
    ensures x in info.list
    decreases if n in w.rank then w.rank[n] else 0
  {
    if n != x {
      var p := if n in w.parent then w.parent[n] else INVIS;
      assert OwnedBy(w, n, p) && Attached(w, info, n);
      if n in w.parent { AncestorsListed(w, info, p, x); }
    }
  }

  /** An entry exists if and only if a registered namespace is it or is below it. */
  lemma {:induction false} ListedExactly(w: World, regs: seq<(ID, int)>, x: ID)
    requires Valid(w) && forall i :: 0 <= i < |regs| ==> regs[i].0 in w.kind
    ensures x in RegisterAll(w, regs).list <==> exists i :: 0 <= i < |regs| && Under(w, regs[i].0, x)
    decreases |regs|
  {
    if regs != [] {
      var rest, n := regs[..|regs| - 1], regs[|regs| - 1].0;
      ListedExactly(w, rest, x);
      AllRegisteredForest(w, regs);
      var info := RegisterAll(w, rest);
      assert forall i :: 0 <= i < |rest| ==> rest[i] == regs[i];
      if x in RegisterAll(w, regs).list && x !in info.list {
        if n !in info.list { EntryKeys(w, info, n, x); }
        assert Under(w, regs[|regs| - 1].0, x);
      }
      if Under(w, n, x) { AncestorsListed(w, RegisterAll(w, regs), n, x); }
    }
  }

  /** Siblings have nothing below them in common. */
  lemma {:induction false} SiblingsApart(w: World, x: ID, c: ID, d: ID, n: ID)
    requires Valid(w) && OwnedBy(w, c, n) && OwnedBy(w, d, n) && Under(w, x, c) && Under(w, x, d)
    ensures c == d
    decreases if x in w.rank then w.rank[x] else 0
  {
    if x == c && c != d {
      if c in w.parent { UnderDepth(w, n, d); }
    } else if x == d && c != d {
      if d in w.parent { UnderDepth(w, n, c); }
    } else if x != c {
      SiblingsApart(w, w.parent[x], c, d, n);
    }
  }

  /** What is registered below `n` is below one of its children. */
  lemma {:induction false} ChildAbove(w: World, info: Info, x: ID, n: ID) returns (i: nat)
    requires Valid(w) && Forest(w, info, {}) && x in info.list && n in info.list && Under(w, x, n) && x != n
    ensures i < |info.list[n].children| && Under(w, x, info.list[n].children[i])
    decreases if x in w.rank then w.rank[x] else 0
  {
    var p := if x in w.parent then w.parent[x] else INVIS;
    assert OwnedBy(w, x, p) && Attached(w, info, x);
    if p == n {
      i :| 0 <= i < |info.list[n].children| && info.list[n].children[i] == x;
    } else {
      i := ChildAbove(w, info, p, n);
    }
  }

  /** From `n`, exactly the registered entries at or below it are visited, each once. */
  lemma {:induction false} VisitedCount(w: World, info: Info, n: ID, x: ID)
    requires Valid(w) && Forest(w, info, {}) && n in info.list
    ensures multiset(Visited(w, info, n))[x] == if x in info.list && Under(w, x, n) then 1 else 0
    decreases Depth(w, n), 0
  {
    assert ChildrenOk(w, info, n);
    var children := info.list[n].children;
    VisitedAllCount(w, info, n, children, x);
    assert multiset([n] + VisitedAll(w, info, n, children)) == multiset{n} + multiset(VisitedAll(w, info, n, children));
    if x == n {
      forall i | 0 <= i < |children| ensures !Under(w, n, children[i]) {
        if Under(w, n, children[i]) { UnderDepth(w, n, children[i]); }
      }
    } else if x in info.list && Under(w, x, n) {
      var i := ChildAbove(w, info, x, n);
    } else {
      forall i | 0 <= i < |children| ensures !(x in info.list && Under(w, x, children[i])) {
        if Under(w, x, children[i]) { UnderOwner(w, x, children[i], n); }
      }
    }
  }

  lemma {:induction false} UnderOwner(w: World, x: ID, c: ID, n: ID)
    requires Valid(w) && Under(w, x, c) && OwnedBy(w, c, n)
    ensures Under(w, x, n)
    decreases if x in w.rank then w.rank[x] else 0
  {
    if x != c { if x in w.parent { UnderOwner(w, w.parent[x], c, n); } }
  }

  /** `x` is below some child in the list. */
  ghost predicate UnderAny(w: World, x: ID, children: seq<ID>)
    requires Valid(w)
  {
    exists i :: 0 <= i < |children| && Under(w, x, children[i])
  }

  lemma UnderFirst(w: World, x: ID, children: seq<ID>, n: ID)
    requires Valid(w) && children != [] && Distinct(children)
    requires forall i :: 0 <= i < |children| ==> OwnedBy(w, children[i], n)
    ensures UnderAny(w, x, children) <==> Under(w, x, children[0]) || UnderAny(w, x, children[1..])
    ensures !(Under(w, x, children[0]) && UnderAny(w, x, children[1..]))
  {
    var rest := children[1..];
    assert forall i :: 0 <= i < |rest| ==> rest[i] == children[i + 1];
    assert UnderAny(w, x, children) ==> Under(w, x, children[0]) || UnderAny(w, x, rest) by {
      if i :| 0 < i < |children| && Under(w, x, children[i]) { assert rest[i - 1] == children[i]; }
    }
    if Under(w, x, children[0]) {
      forall i | 0 <= i < |rest| ensures !Under(w, x, rest[i]) {
        if Under(w, x, rest[i]) { SiblingsApart(w, x, children[0], rest[i], n); }
      }
    }
  }

  lemma {:induction false} VisitedAllCount(w: World, info: Info, n: ID, children: seq<ID>, x: ID)
    requires Valid(w) && Forest(w, info, {}) && n in info.list && Distinct(children)
    requires forall i :: 0 <= i < |children| ==> children[i] in info.list && OwnedBy(w, children[i], n)
    ensures multiset(VisitedAll(w, info, n, children))[x]
      == if x in info.list && UnderAny(w, x, children) then 1 else 0
    decreases Depth(w, n) - 1, |children|
  {
    if children != [] {
      var c, rest := children[0], children[1..];
      assert OwnedBy(w, c, n);
      VisitedCount(w, info, c, x);
      VisitedAllCount(w, info, n, rest, x);
      UnderFirst(w, x, children, n);
    }
  }

  /** The whole display; it crashes when the root it starts from has no entry. */
  datatype Display = Crash | Shown(entries: seq<ID>)

  ghost function DisplayAll(w: World, info: Info): Display
    requires Valid(w) && Forest(w, info, {})
  {
    if info.root !in info.list then Crash
    else Shown(Visited(w, info, info.root) + if INVIS in info.list then Visited(w, info, INVIS) else [])
  }

  /** Every registered entry is shown, and none twice. */
  ghost predicate ShownOnce(info: Info, d: Display) {
    d.Shown? && forall x :: multiset(d.entries)[x] == if x in info.list then 1 else 0
  }

  /** `t` is the only topmost namespace registered. */
  ghost predicate OnlyTop(w: World, info: Info, t: ID) {
    t in info.list && t in w.kind && IsTop(w, t)
    && forall u :: u in info.list && u in w.kind && IsTop(w, u) ==> u == t
  }

  ghost function TimesShown(w: World, info: Info, x: ID): nat
    requires Valid(w)
  {
    if x !in info.list then 0
    else (if Under(w, x, info.root) then 1 else 0) + if INVIS in info.list && Under(w, x, INVIS) then 1 else 0
  }

  lemma DisplayCount(w: World, info: Info, x: ID)
    requires Valid(w) && Forest(w, info, {}) && info.root in info.list
    ensures multiset(DisplayAll(w, info).entries)[x] == TimesShown(w, info, x)
  {
    VisitedCount(w, info, info.root, x);
    if INVIS in info.list { VisitedCount(w, info, INVIS, x); }
  }

  /** Every registered namespace is below a topmost one or below the special entry, not both. */
  lemma {:induction false} Anchored(w: World, info: Info, x: ID, t: ID)
    requires Valid(w) && Forest(w, info, {}) && x in info.list && OnlyTop(w, info, t)
    ensures Under(w, x, INVIS) <==> !Under(w, x, t)
    ensures Under(w, x, INVIS) ==> INVIS in info.list
    decreases if x in w.rank then w.rank[x] else 0
  {
    if x in w.kind {
      if x in w.parent {
        assert OwnedBy(w, x, w.parent[x]) && Attached(w, info, x);
        Anchored(w, info, w.parent[x], t);
      } else if !IsTop(w, x) {
        assert OwnedBy(w, x, INVIS) && Attached(w, info, x);
      } else {
        assert Under(w, x, x);
      }
    }
  }

  lemma OneTopShown(w: World, info: Info, t: ID)
    requires Valid(w) && Forest(w, info, {}) && OnlyTop(w, info, t)
    ensures ShownOnce(info, DisplayAll(w, info))
  {
    assert info.root == t;
    forall x ensures multiset(DisplayAll(w, info).entries)[x] == if x in info.list then 1 else 0 {
      DisplayCount(w, info, x);
      if x in info.list { Anchored(w, info, x, t); }
    }
  }

  lemma ShownOneTop(w: World, info: Info)
    requires Valid(w) && Forest(w, info, {}) && ShownOnce(info, DisplayAll(w, info))
    ensures OnlyTop(w, info, info.root)
  {
    if info.root in w.kind {
      forall u | u in info.list && u in w.kind && IsTop(w, u) ensures u == info.root {
        DisplayCount(w, info, u);
      }
    } else {
      DisplayCount(w, info, INVIS);
    }
  }

  /**
   The display shows every registered entry once if and only if exactly one
   topmost namespace was registered.
   */
  lemma DisplayExact(w: World, info: Info)
    requires Valid(w) && Forest(w, info, {})
    ensures ShownOnce(info, DisplayAll(w, info)) <==> exists t :: OnlyTop(w, info, t)
  {
    if t :| OnlyTop(w, info, t) {
      OneTopShown(w, info, t);
    } else if ShownOnce(info, DisplayAll(w, info)) {
      ShownOneTop(w, info);
    }
  }

  // ----- the other displays -----

  ghost predicate NoTop(w: World, info: Info) {
    forall u :: u in info.list && u in w.kind ==> !IsTop(w, u)
  }

  /** Without a topmost namespace everything is below the special entry. */
  lemma {:induction false} BelowSpecial(w: World, info: Info, x: ID)
    requires Valid(w) && Forest(w, info, {}) && NoTop(w, info) && x in info.list
    ensures Under(w, x, INVIS) && INVIS in info.list
    decreases if x in w.rank then w.rank[x] else 0
  {
    if x in w.kind {
      var p := if x in w.parent then w.parent[x] else INVIS;
      assert OwnedBy(w, x, p) && Attached(w, info, x);
      if x in w.parent { BelowSpecial(w, info, p); }
    }
  }

  /** With none, every entry is shown twice, unless there is no entry: then the display crashes. */
  lemma NoTopShown(w: World, info: Info)
    requires Valid(w) && Forest(w, info, {}) && NoTop(w, info)
    ensures DisplayAll(w, info).Crash? <==> info.list == map[]
    ensures DisplayAll(w, info).Shown? ==>
      forall x :: x in info.list ==> multiset(DisplayAll(w, info).entries)[x] == 2
  {
    assert info.root == INVIS;
    if x :| x in info.list { BelowSpecial(w, info, x); }
    if info.root in info.list {
      forall x | x in info.list ensures multiset(DisplayAll(w, info).entries)[x] == 2 {
        DisplayCount(w, info, x);
        BelowSpecial(w, info, x);
      }
    }
  }

  lemma {:induction false} OneAnchor(w: World, x: ID, t: ID, u: ID)
    requires Valid(w) && t in w.kind && IsTop(w, t) && Under(w, x, t) && Under(w, x, u)
    requires u == INVIS || (u in w.kind && IsTop(w, u))
    ensures t == u
    decreases if x in w.rank then w.rank[x] else 0
  {
    if x in w.parent { OneAnchor(w, w.parent[x], t, u); }
  }

  /**
   With topmost namespaces, the last one registered is the root, and what is
   shown, once each, is the entries below it or below the special entry. The
   trees of the other topmost namespaces are lost.
   */
  lemma OthersLost(w: World, info: Info, x: ID)
    requires Valid(w) && Forest(w, info, {}) && !NoTop(w, info) && x in info.list
    ensures DisplayAll(w, info).Shown? && info.root in w.kind && IsTop(w, info.root)
    ensures multiset(DisplayAll(w, info).entries)[x] == if Under(w, x, info.root) || Under(w, x, INVIS) then 1 else 0
    ensures forall t :: t in w.kind && IsTop(w, t) && t != info.root && Under(w, x, t) ==> x !in DisplayAll(w, info).entries
  {
    DisplayCount(w, info, x);
    if Under(w, x, INVIS) { AncestorsListed(w, info, x, INVIS); }
    if Under(w, x, info.root) && Under(w, x, INVIS) { OneAnchor(w, x, info.root, INVIS); }
    forall t | t in w.kind && IsTop(w, t) && t != info.root && Under(w, x, t) ensures x !in DisplayAll(w, info).entries {
      if Under(w, x, info.root) { OneAnchor(w, x, t, info.root); }
      if Under(w, x, INVIS) { OneAnchor(w, x, t, INVIS); }
    }
  }

  /** One namespace whose owner is not visible, and two topmost user namespaces. */
  const HIDDEN_OWNER := World(map[1 := OtherNS], map[], map[1 := 0], 1, false)
  const TWO_TOPS := World(map[1 := UserNS, 2 := UserNS], map[], map[1 := 0, 2 := 0], 1, false)

  ghost function DisplayOf(w: World, regs: seq<(ID, int)>): Display
    requires Valid(w) && forall i :: 0 <= i < |regs| ==> regs[i].0 in w.kind
  {
    AllRegisteredForest(w, regs);
    DisplayAll(w, RegisterAll(w, regs))
  }

  /** The smallest tables: with nothing registered the display crashes, */
  lemma NothingRegistered(w: World)
    requires Valid(w)
    ensures DisplayOf(w, []).Crash?
  {
    AllRegisteredForest(w, []);
    hide Valid; hide Forest;
  }

  /** the one namespace is shown twice, */
  lemma ShownTwice()
    ensures Valid(HIDDEN_OWNER)
    ensures DisplayOf(HIDDEN_OWNER, [(1, 7)]).Shown? && multiset(DisplayOf(HIDDEN_OWNER, [(1, 7)]).entries)[1] == 2
  {
    assert [(1, 7)][..0] == [];
    var info := RegisterAll(HIDDEN_OWNER, [(1, 7)]);
    assert 1 in info.list && NoTop(HIDDEN_OWNER, info);
    AllRegisteredForest(HIDDEN_OWNER, [(1, 7)]);
    hide Forest; hide DisplayAll; hide RegisterAll; hide NoTop;
    NoTopShown(HIDDEN_OWNER, info);
  }

  lemma TwoTopsTable()
    ensures Valid(TWO_TOPS)
    ensures var info := RegisterAll(TWO_TOPS, [(1, 7), (2, 8)]); 1 in info.list && info.root == 2 && !NoTop(TWO_TOPS, info)
  {
    assert [(1, 7), (2, 8)][..1] == [(1, 7)] && [(1, 7)][..0] == [];
    assert IsTop(TWO_TOPS, 1);
  }

  /** and the first of the two is not shown. */
  lemma FirstLost()
    ensures Valid(TWO_TOPS)
    ensures DisplayOf(TWO_TOPS, [(1, 7), (2, 8)]).Shown? && 1 !in DisplayOf(TWO_TOPS, [(1, 7), (2, 8)]).entries
  {
    TwoTopsTable();
    var info := RegisterAll(TWO_TOPS, [(1, 7), (2, 8)]);
    AllRegisteredForest(TWO_TOPS, [(1, 7), (2, 8)]);
    assert IsTop(TWO_TOPS, 1) && Under(TWO_TOPS, 1, 1);
    hide Forest; hide DisplayAll; hide RegisterAll; hide NoTop;
    OthersLost(TWO_TOPS, info, 1);
  }
}
