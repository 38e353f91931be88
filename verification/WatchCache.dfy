/**
 The watch list cache as a value: a sequence of slots searched linearly, and
 the map from watch descriptors to pathnames that it stands for.
 */
module WatchCache {
  import opened Paths

  /** A slot is unused when its watch descriptor is -1. */
  datatype Slot = Slot(wd: int, path: string)

  const EMPTY := Slot(-1, "")
  const ALLOC_INCR: nat := 200

  /** The first slot at or after `from` with descriptor `wd`, or -1. */
  function FindWatch(slots: seq<Slot>, wd: int, from: nat := 0): (r: int)
    requires from <= |slots|
    ensures r == -1 || from <= r < |slots|
    ensures r >= 0 ==> slots[r].wd == wd && forall j :: from <= j < r ==> slots[j].wd != wd
    ensures r == -1 ==> forall j :: from <= j < |slots| ==> slots[j].wd != wd
    decreases |slots| - from
  {
    if from == |slots| then -1
    else if slots[from].wd == wd then from
    else FindWatch(slots, wd, from + 1)
  }

  /** The first used slot at or after `from` that holds `path`, or -1. */
  function FindPath(slots: seq<Slot>, path: string, from: nat := 0): (r: int)
    requires from <= |slots|
    ensures r == -1 || from <= r < |slots|
    ensures r >= 0 ==> slots[r].wd >= 0 && slots[r].path == path
    ensures r >= 0 ==> forall j :: from <= j < r ==> slots[j].wd < 0 || slots[j].path != path
    ensures r == -1 ==> forall j :: from <= j < |slots| ==> slots[j].wd < 0 || slots[j].path != path
    decreases |slots| - from
  {
    if from == |slots| then -1
    else if slots[from].wd >= 0 && slots[from].path == path then from
    else FindPath(slots, path, from + 1)
  }

  /** The slots after making room: unchanged, or with ALLOC_INCR unused ones more. */
  function WithRoom(slots: seq<Slot>): (r: seq<Slot>)
    ensures |slots| <= |r| && r[..|slots|] == slots
    ensures FindWatch(r, -1) >= 0
  {
    if FindWatch(slots, -1) >= 0 then slots
    else
      var r := slots + seq(ALLOC_INCR, _ => EMPTY);
      assert r[|slots|] == EMPTY;
      r
  }

  function AddEntry(slots: seq<Slot>, wd: int, path: string): seq<Slot> {
    var r := WithRoom(slots);
    r[FindWatch(r, -1) := Slot(wd, path)]
  }

  function MarkEmpty(slots: seq<Slot>, slot: nat): seq<Slot>
    requires slot < |slots|
  {
    slots[slot := EMPTY]
  }

  function RewriteAll(slots: seq<Slot>, oldTop: string, newTop: string): (r: seq<Slot>)
    ensures |r| == |slots|
    ensures forall i :: 0 <= i < |r| ==> r[i] == Slot(slots[i].wd, Renamed(slots[i].path, oldTop, newTop))
  {
    seq(|slots|, i requires 0 <= i < |slots| => Slot(slots[i].wd, Renamed(slots[i].path, oldTop, newTop)))
  }

  // ----- what the slots stand for -----

  ghost predicate WellFormed(slots: seq<Slot>) {
    && (forall i :: 0 <= i < |slots| ==> slots[i].wd >= 0 || slots[i] == EMPTY)
    && (forall i, j :: 0 <= i < j < |slots| && slots[i].wd >= 0 ==> slots[i].wd != slots[j].wd)
  }

  ghost function Wds(slots: seq<Slot>): set<int> {
    set s | s in slots && s.wd >= 0 :: s.wd
  }

  ghost function View(slots: seq<Slot>): map<int, string> {
    map wd | wd in Wds(slots) :: slots[FindWatch(slots, wd)].path
  }

  lemma ViewAt(slots: seq<Slot>, i: nat)
    requires WellFormed(slots) && i < |slots| && slots[i].wd >= 0
    ensures slots[i].wd in View(slots) && View(slots)[slots[i].wd] == slots[i].path
    ensures FindWatch(slots, slots[i].wd) == i
  {
  }

  lemma ViewFind(slots: seq<Slot>, wd: int)
    requires WellFormed(slots) && wd >= 0
    ensures wd in View(slots) <==> FindWatch(slots, wd) >= 0
    ensures wd in View(slots) ==> View(slots)[wd] == slots[FindWatch(slots, wd)].path
  {
  }

  lemma ViewPath(slots: seq<Slot>, path: string)
    requires WellFormed(slots)
    ensures FindPath(slots, path) >= 0 <==> exists wd :: wd in View(slots) && View(slots)[wd] == path
  {
    var i := FindPath(slots, path);
    if i >= 0 { ViewAt(slots, i); }
  }

  /** A map with exactly the used slots' pairs is the view. */
  lemma ViewIs(slots: seq<Slot>, m: map<int, string>)
    requires WellFormed(slots)
    requires forall i :: 0 <= i < |slots| && slots[i].wd >= 0 ==> slots[i].wd in m && m[slots[i].wd] == slots[i].path
    requires forall w :: w in m ==> w >= 0 && FindWatch(slots, w) >= 0
    ensures View(slots) == m
  {
    forall w | w in m ensures w in View(slots) && View(slots)[w] == m[w] { ViewAt(slots, FindWatch(slots, w)); }
    forall w | w in View(slots) ensures w in m { ViewFind(slots, w); }
    hide View; hide WellFormed; hide FindWatch;
  }

  lemma AddEntryShape(slots: seq<Slot>, wd: int, path: string) returns (at: nat)
    requires WellFormed(slots) && wd >= 0 && wd !in View(slots)
    ensures var r := AddEntry(slots, wd, path);
      && WellFormed(r) && |slots| <= |r| && at < |r| && r[at] == Slot(wd, path)
      && (forall i :: 0 <= i < |slots| && i != at ==> r[i] == slots[i])
      && (at < |slots| ==> slots[at].wd < 0)
      && (forall i :: |slots| <= i < |r| && i != at ==> r[i] == EMPTY)
  {
    var room := WithRoom(slots);
    at := FindWatch(room, -1);
    forall i | 0 <= i < |slots| ensures room[i] == slots[i] { assert room[i] == room[..|slots|][i]; }
    forall i | 0 <= i < |slots| ensures slots[i].wd != wd {
      if slots[i].wd == wd { ViewAt(slots, i); assert false; }
    }
  }

  lemma AddEntryView(slots: seq<Slot>, wd: int, path: string)
    requires WellFormed(slots) && wd >= 0 && wd !in View(slots)
    ensures WellFormed(AddEntry(slots, wd, path))
    ensures View(AddEntry(slots, wd, path)) == View(slots)[wd := path]
  {
    var r := AddEntry(slots, wd, path);
    var at := AddEntryShape(slots, wd, path);
    var m := View(slots)[wd := path];
    forall i | 0 <= i < |r| && r[i].wd >= 0 ensures r[i].wd in m && m[r[i].wd] == r[i].path {
      if i != at { ViewAt(slots, i); }
    }
    forall w | w in m ensures w >= 0 && FindWatch(r, w) >= 0 {
      if w != wd {
        ViewFind(slots, w);
        assert r[FindWatch(slots, w)] == slots[FindWatch(slots, w)];
      } else {
        assert r[at].wd == wd;
      }
    }
    ViewIs(r, m);
  }

  lemma MarkEmptyView(slots: seq<Slot>, slot: nat)
    requires WellFormed(slots) && slot < |slots| && slots[slot].wd >= 0
    ensures WellFormed(MarkEmpty(slots, slot))
    ensures View(MarkEmpty(slots, slot)) == View(slots) - {slots[slot].wd}
  {
    var r := MarkEmpty(slots, slot);
    var m := View(slots) - {slots[slot].wd};
    assert WellFormed(r);
    forall i | 0 <= i < |r| && r[i].wd >= 0 ensures r[i].wd in m && m[r[i].wd] == r[i].path {
      ViewAt(slots, i);
    }
    forall w | w in m ensures w >= 0 && FindWatch(r, w) >= 0 {
      ViewFind(slots, w);
      var at := FindWatch(slots, w);
      assert at != slot && r[at] == slots[at];
    }
    hide View; hide WellFormed; hide FindWatch; hide MarkEmpty;
    ViewIs(r, m);
  }

  /** The rewrite touches paths only; unused slots stay as they are. */
  lemma RewriteAllView(slots: seq<Slot>, oldTop: string, newTop: string)
    requires WellFormed(slots) && oldTop != ""
    ensures WellFormed(RewriteAll(slots, oldTop, newTop))
    ensures View(RewriteAll(slots, oldTop, newTop)) == map w | w in View(slots) :: Renamed(View(slots)[w], oldTop, newTop)
  {
    var r := RewriteAll(slots, oldTop, newTop);
    var m := map w | w in View(slots) :: Renamed(View(slots)[w], oldTop, newTop);
    assert WellFormed(r);
    forall i | 0 <= i < |r| && r[i].wd >= 0 ensures r[i].wd in m && m[r[i].wd] == r[i].path {
      ViewAt(slots, i);
    }
    forall w | w in m ensures w >= 0 && FindWatch(r, w) >= 0 {
      ViewFind(slots, w);
      assert r[FindWatch(slots, w)].wd == w;
    }
    ViewIs(r, m);
  }

  /**
   Renaming A to B and back restores every slot exactly when no used slot was
   at or below B, except for those at or below A as well.
   */
  lemma RewriteThereAndBack(slots: seq<Slot>, a: string, b: string)
    requires WellFormed(slots) && a != "" && b != ""
    ensures RewriteAll(RewriteAll(slots, a, b), b, a) == slots <==>
      forall i :: 0 <= i < |slots| && slots[i].wd >= 0 && AtOrBelow(slots[i].path, b) ==> AtOrBelow(slots[i].path, a)
  {
    var back := RewriteAll(RewriteAll(slots, a, b), b, a);
    forall i | 0 <= i < |slots|
      ensures back[i] == slots[i] <==> (AtOrBelow(slots[i].path, b) ==> AtOrBelow(slots[i].path, a))
    {
      RenamedRoundTrip(slots[i].path, a, b);
    }
  }
}
