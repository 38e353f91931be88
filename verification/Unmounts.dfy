/**
 A file system is unmounted: each watched directory on it reports that, and its
 watch ends. The program empties their cache slots, and that is all.
 */
module Unmounts {
  import opened Options
  import opened Paths
  import opened FileTree
  import opened WatchCache
  import opened Inotify
  import opened Handler
  import opened Agreement
  import opened Zapping
  import opened Operations
  import opened Simulation
  import opened Renames

  /** The events for the watches `ws`, in the order in which the kernel takes them down. */
  function UnmountEvents(ws: seq<nat>): seq<Event> {
    if ws == [] then [] else [Unmount(ws[0]), Ignored(ws[0])] + UnmountEvents(ws[1..])
  }

  ghost function WatchSet(ws: seq<nat>): set<int> {
    set i | 0 <= i < |ws| :: ws[i]
  }

  ghost predicate NoneTwice(ws: seq<nat>) {
    forall i, j :: 0 <= i < j < |ws| ==> ws[i] != ws[j]
  }

  lemma ProcessUnmount(m: Monitor, queue: seq<Event>, slot: nat)
    requires ValidKernel(m.k) && queue != [] && queue[0].Unmount? && FindWatch(m.slots, queue[0].wd) == slot
    ensures slot < |m.slots| && Process(m, queue, false) == Outcome(m.(slots := MarkEmpty(m.slots, slot)), Took(1), [])
  {
    hide ValidKernel; hide MarkEmpty; hide Follows; hide Left; hide Appeared; hide Reinitialize; hide RewriteAll; hide FindRoot;
  }

  lemma ProcessIgnored(m: Monitor, queue: seq<Event>)
    requires ValidKernel(m.k) && queue != [] && queue[0].Ignored?
    ensures Process(m, queue, false) == Outcome(m, Took(1), [])
  {
    hide ValidKernel; hide MarkEmpty; hide Follows; hide Left; hide Appeared; hide Reinitialize; hide RewriteAll; hide FindRoot;
  }

  lemma UnmountHandled(m: Monitor, w: nat, rest: seq<Event>)
    requires ValidKernel(m.k) && !m.exited && WellFormed(m.slots) && w in View(m.slots)
    ensures FindWatch(m.slots, w) >= 0
    ensures var slots' := MarkEmpty(m.slots, FindWatch(m.slots, w));
      && WellFormed(slots') && View(slots') == View(m.slots) - {w}
      && Drain(System(m, [Unmount(w), Ignored(w)] + rest)) == Drain(System(m.(slots := slots'), rest))
  {
    hide *;
    ViewFind(m.slots, w);
    SlotOf(m.slots, w);
    MarkEmptyView(m.slots, FindWatch(m.slots, w));
    var queue, queue' := [Unmount(w), Ignored(w)] + rest, [Ignored(w)] + rest;
    var m' := m.(slots := MarkEmpty(m.slots, FindWatch(m.slots, w)));
    ProcessUnmount(m, queue, FindWatch(m.slots, w));
    ProcessIgnored(m', queue');
    DrainStep(m, queue);
    assert queue[1..] + [] == queue';
    DrainStep(m', queue');
    assert queue'[1..] + [] == rest;
  }

  lemma SlotOf(slots: seq<Slot>, w: nat)
    requires FindWatch(slots, w) >= 0
    ensures slots[FindWatch(slots, w)].wd == w
  {
  }

  lemma WatchSetStep(ws: seq<nat>)
    requires ws != [] && NoneTwice(ws)
    ensures WatchSet(ws) == {ws[0] as int} + WatchSet(ws[1..]) && ws[0] !in WatchSet(ws[1..]) && NoneTwice(ws[1..])
  {
    assert forall i :: 0 < i < |ws| ==> ws[i] == ws[1..][i - 1];
  }

  /** Exactly the slots of the reported watches are emptied, whatever the cache and the kernel's watches are. */
  lemma {:induction false} UnmountDrained(m: Monitor, ws: seq<nat>) returns (slots': seq<Slot>)
    requires ValidKernel(m.k) && !m.exited && WellFormed(m.slots) && NoneTwice(ws) && WatchSet(ws) <= View(m.slots).Keys
    ensures Drain(System(m, UnmountEvents(ws))) == System(m.(slots := slots'), [])
    ensures WellFormed(slots') && View(slots') == View(m.slots) - WatchSet(ws)
    decreases |ws|
  {
    hide ValidKernel; hide View; hide WellFormed; hide MarkEmpty; hide Drain; hide WatchSet; hide NoneTwice; hide FindWatch;
    if ws == [] {
      DrainQuiet(m, []);
      assert WatchSet(ws) == {} by { NoWatches(ws); }
      slots' := m.slots;
    } else {
      var w := ws[0];
      WatchSetStep(ws);
      UnmountHandled(m, w, UnmountEvents(ws[1..]));
      slots' := UnmountDrained(m.(slots := MarkEmpty(m.slots, FindWatch(m.slots, w))), ws[1..]);
    }
  }

  lemma NoWatches(ws: seq<nat>)
    requires ws == []
    ensures WatchSet(ws) == {}
  {
  }

  /** `gone` is no longer there; the other directories of `fs` are where they were. */
  ghost predicate Unmounted(fs: Tree, fs': Tree, gone: set<Inode>)
    requires Valid(fs) && Valid(fs')
  {
    forall x {:trigger fs.dirs[x]} :: x in fs.dirs && x !in gone ==>
      x in fs'.dirs && fs'.dirs[x] == fs.dirs[x] && InTree(fs', x) == InTree(fs, x) && PathOf(fs', x) == PathOf(fs, x)
  }

  /** The watches `ws` are those on directories that are gone. */
  ghost predicate WatchesOf(k: Kernel, gone: set<Inode>, ws: set<int>) {
    forall w :: w in k.watches ==> (w in ws <==> k.watches[w] in gone)
  }

  /** The other watches are on directories that are where they were. */
  lemma WatchesStay(m: Monitor, fs': Tree, gone: set<Inode>, ws: set<int>)
    requires Agree(m) && Valid(m.k.fs) && Valid(fs') && Unmounted(m.k.fs, fs', gone) && WatchesOf(m.k, gone, ws)
    ensures forall w :: w in m.k.watches && w !in ws ==> var x := m.k.watches[w];
      x in m.k.fs.dirs && x in fs'.dirs && fs'.dirs[x] == m.k.fs.dirs[x] && InTree(fs', x) && PathOf(fs', x) == PathOf(m.k.fs, x)
    ensures forall w :: w in m.k.watches ==> (w in ws <==> m.k.watches[w] in gone)
  {
    hide Valid; hide ValidKernel; hide InTree; hide PathOf; hide View; hide WellFormed; hide Flagged;
  }

  lemma AgreeParts(m: Monitor)
    requires Agree(m) && Valid(m.k.fs)
    ensures Paired(m.k.fs, View(m.slots), m.k.watches) && Flagged(m.k.fs, m.k.watches, m.k.moveSelf)
    ensures m.k.watches.Values == Monitored(m.k.fs)
  {
    hide Valid; hide ValidKernel; hide Monitored; hide View; hide WellFormed; hide Paired; hide Flagged;
  }

  lemma EndedValid(k: Kernel, fs': Tree, walks: map<Inode, seq<Inode>>, ws: set<int>)
    requires ValidKernel(k) && Valid(fs') && ValidWalks(fs', walks) && forall w :: w in k.watches && w !in ws ==> k.watches[w] in fs'.dirs
    ensures var k' := EndWatches(k.(fs := fs', walks := walks), ws);
      ValidKernel(k') && k'.watches == k.watches - ws && k'.moveSelf == k.moveSelf - ws && k'.fs == fs'
  {
    hide Valid; hide ValidWalks;
  }

  lemma UnmountedKernel(m: Monitor, fs': Tree, walks: map<Inode, seq<Inode>>, gone: set<Inode>, ws: set<int>)
    requires Agree(m) && Valid(m.k.fs) && Valid(fs') && ValidWalks(fs', walks) && Unmounted(m.k.fs, fs', gone)
    requires WatchesOf(m.k, gone, ws)
    ensures var k' := EndWatches(m.k.(fs := fs', walks := walks), ws);
      && ValidKernel(k')
      && Paired(fs', View(m.slots) - ws, k'.watches) && Flagged(fs', k'.watches, k'.moveSelf)
      && k'.watches.Values == Monitored(m.k.fs) - gone
  {
    var fs := m.k.fs;
    hide *;
    AgreeCache(m);
    AgreeParts(m);
    WatchesStay(m, fs', gone, ws);
    EndedValid(m.k, fs', walks, ws);
    DroppedPaired(fs, fs', View(m.slots), m.k.watches, ws);
    DroppedFlagged(fs, fs', m.k.watches, m.k.moveSelf, ws);
    DroppedValues(m.k.watches, ws, gone);
  }

  /**
   After the events of an unmounting what is still cached is true and watched,
   and the list of roots is unchanged. The cache agrees with the trees if and
   only if no directory of the trees came to light below the mount point.
   */
  lemma UnmountSettles(m: Monitor, fs': Tree, walks: map<Inode, seq<Inode>>, gone: set<Inode>, ws: seq<nat>)
    requires Agree(m) && !m.exited && Valid(m.k.fs) && Valid(fs') && ValidWalks(fs', walks) && Unmounted(m.k.fs, fs', gone)
    requires NoneTwice(ws) && WatchSet(ws) <= m.k.watches.Keys && WatchesOf(m.k, gone, WatchSet(ws))
    ensures var m' := m.(k := EndWatches(m.k.(fs := fs', walks := walks), WatchSet(ws)));
      && ValidKernel(m'.k)
      && var r := Drain(System(m', UnmountEvents(ws))).m;
        && r.k == m'.k && r.roots == m.roots && r.ignored == m.ignored && !r.exited
        && SyncedOn(r, Monitored(m.k.fs) - gone)
        && (Agree(r) <==> Monitored(fs') <= Monitored(m.k.fs) - gone)
  {
    var m' := m.(k := EndWatches(m.k.(fs := fs', walks := walks), WatchSet(ws)));
    UnmountedKernel(m, fs', walks, gone, WatchSet(ws));
    AgreeCache(m);
    StaysMonitored(m.k.fs, fs', gone);
    hide *;
    EndedFields(m.k.(fs := fs', walks := walks), WatchSet(ws));
    var slots' := UnmountDrained(m', ws);
    UnmountAgrees(m'.(slots := slots'), Monitored(m.k.fs) - gone);
  }

  lemma EndedFields(k: Kernel, ws: set<int>)
    ensures EndWatches(k, ws).fs == k.fs
  {
  }

  lemma AgreeCache(m: Monitor)
    requires Agree(m)
    ensures WellFormed(m.slots) && View(m.slots).Keys == m.k.watches.Keys && ValidKernel(m.k)
  {
  }

  lemma StaysMonitored(fs: Tree, fs': Tree, gone: set<Inode>)
    requires Valid(fs) && Valid(fs') && Unmounted(fs, fs', gone)
    ensures Monitored(fs) - gone <= Monitored(fs')
  {
    hide Valid; hide InTree; hide PathOf;
  }

  lemma UnmountAgrees(m: Monitor, s: set<Inode>)
    requires ValidKernel(m.k) && Valid(m.k.fs) && WellFormed(m.slots)
    requires Paired(m.k.fs, View(m.slots), m.k.watches) && Flagged(m.k.fs, m.k.watches, m.k.moveSelf)
    requires m.k.watches.Values == s && s <= Monitored(m.k.fs)
    ensures SyncedOn(m, s) && (Agree(m) <==> Monitored(m.k.fs) <= s)
  {
    hide Valid; hide ValidKernel; hide WellFormed; hide Paired; hide Flagged; hide View; hide Monitored;
  }
}
