/**
 Removing a subtree from the cache: exactly the used slots at or below the
 path go, with their kernel watches, and the count is right.
 */
module Zapping {
  import opened Options
  import opened Paths
  import opened FileTree
  import opened WatchCache
  import opened Inotify
  import opened Handler

  ghost predicate Hit(slot: Slot, path: string) {
    slot.wd >= 0 && AtOrBelow(slot.path, path)
  }

  /** The descriptors cached at or below `path`, from slot `j` on. */
  ghost function Hits(slots: seq<Slot>, path: string, j: nat := 0): set<int>
    requires j <= |slots|
  {
    set i | j <= i < |slots| && Hit(slots[i], path) :: slots[i].wd
  }

  /** The slots after every hit from `j` on was emptied. */
  ghost predicate Emptied(slots: seq<Slot>, slots': seq<Slot>, path: string, j: nat) {
    && |slots'| == |slots|
    && forall i :: 0 <= i < |slots| ==> slots'[i] == if j <= i && Hit(slots[i], path) then EMPTY else slots[i]
  }

  ghost predicate Quiet(es: seq<Event>) {
    forall i :: 0 <= i < |es| ==> es[i].Ignored?
  }

  lemma HitsStep(slots: seq<Slot>, path: string, j: nat)
    requires WellFormed(slots) && j < |slots|
    ensures Hits(slots, path, j) == Hits(slots, path, j + 1) + (if Hit(slots[j], path) then {slots[j].wd} else {})
    ensures Hit(slots[j], path) ==> slots[j].wd !in Hits(slots, path, j + 1)
    ensures Hits(MarkEmpty(slots, j), path, j + 1) == Hits(slots, path, j + 1)
    ensures slots[j].wd >= 0 ==> WellFormed(MarkEmpty(slots, j))
  {
    var after := MarkEmpty(slots, j);
    assert forall i :: j < i < |slots| ==> after[i] == slots[i];
  }

  lemma EndStep(k: Kernel, w: int, ws: set<int>)
    requires ValidKernel(k)
    ensures EndWatches(DropWatch(k, w), ws) == EndWatches(k, ws + {w})
  {
  }

  lemma {:induction false} ZapFromExact(z: Zapped, path: string, j: nat)
    requires ValidKernel(z.k) && j <= |z.slots| && WellFormed(z.slots) && z.cnt >= 0 && Quiet(z.emitted)
    ensures var r := ZapFrom(z, path, j);
      && (r.cnt == -1 <==> !(Hits(z.slots, path, j) <= z.k.watches.Keys))
      && (r.cnt != -1 ==>
            && Emptied(z.slots, r.slots, path, j)
            && r.k == EndWatches(z.k, Hits(z.slots, path, j))
            && r.cnt == z.cnt + |Hits(z.slots, path, j)|
            && Quiet(r.emitted))
    decreases |z.slots| - j
  {
    hide ValidKernel; hide DropWatch; hide Hits; hide WellFormed; hide EndWatches;
    if j == |z.slots| {
      NoHits(z.slots, path);
      EndNone(z.k);
    } else {
      HitsStep(z.slots, path, j);
      if Hit(z.slots[j], path) {
        var wd := z.slots[j].wd;
        if wd in z.k.watches {
          var z' := Zapped(DropWatch(z.k, wd), MarkEmpty(z.slots, j), z.cnt + 1, z.emitted + [Ignored(wd)]);
          DropKeys(z.k, wd);
          ZapFromExact(z', path, j + 1);
          EndStep(z.k, wd, Hits(z.slots, path, j + 1));
        }
      } else {
        ZapFromExact(z, path, j + 1);
      }
    }
  }

  lemma NoHits(slots: seq<Slot>, path: string)
    ensures Hits(slots, path, |slots|) == {}
  {
  }

  lemma DropKeys(k: Kernel, w: int)
    requires ValidKernel(k)
    ensures DropWatch(k, w).watches.Keys == k.watches.Keys - {w}
  {
  }

  lemma HitsInView(slots: seq<Slot>, path: string)
    requires WellFormed(slots)
    ensures Hits(slots, path) == set w | w in View(slots) && AtOrBelow(View(slots)[w], path)
  {
  }

  lemma EmptiedView(slots: seq<Slot>, slots': seq<Slot>, path: string)
    requires WellFormed(slots) && Emptied(slots, slots', path, 0)
    ensures WellFormed(slots') && View(slots') == View(slots) - Hits(slots, path)
  {
    var m := View(slots) - Hits(slots, path);
    assert WellFormed(slots');
    forall i | 0 <= i < |slots'| && slots'[i].wd >= 0 ensures slots'[i].wd in m && m[slots'[i].wd] == slots'[i].path {
      ViewAt(slots, i);
      HitsInView(slots, path);
    }
    forall w | w in m ensures w >= 0 && FindWatch(slots', w) >= 0 {
      ViewFind(slots, w);
      assert slots'[FindWatch(slots, w)].wd == w;
    }
    ViewIs(slots', m);
  }

  /**
   Zapping a subtree fails exactly when a watch to remove is not the kernel's.
   Otherwise it empties exactly the used slots at or below the path, drops
   exactly their watches, and returns their number.
   */
  lemma ZapExact(m: Monitor, path: string)
    requires ValidKernel(m.k) && WellFormed(m.slots)
    ensures var z := ZapSubtree(m, path);
      && (z.cnt == -1 <==> !(Hits(m.slots, path) <= m.k.watches.Keys))
      && (z.cnt != -1 ==>
            && Emptied(m.slots, z.slots, path, 0)
            && WellFormed(z.slots) && View(z.slots) == View(m.slots) - Hits(m.slots, path)
            && z.k == EndWatches(m.k, Hits(m.slots, path))
            && z.cnt == |Hits(m.slots, path)|
            && Quiet(z.emitted))
  {
    hide Hits; hide ValidKernel; hide View; hide ZapFrom; hide Emptied;
    ZapFromExact(Zapped(m.k, m.slots, 0, []), path, 0);
    if ZapSubtree(m, path).cnt != -1 { EmptiedView(m.slots, ZapSubtree(m, path).slots, path); }
  }
}
