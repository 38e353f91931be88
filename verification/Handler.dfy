/**
 The monitoring program as a function of its state: what the handler does with
 the next event of a buffer, and what handling a whole queue amounts to.
 */
module Handler {
  import opened Options
  import opened Paths
  import opened FileTree
  import opened WatchCache
  import opened Inotify

  /**
   `roots` are the command-line pathnames, None once no longer monitored, and
   `ignored` counts those; `exited` is set when the program calls exit().
   */
  datatype Monitor = Monitor(k: Kernel, slots: seq<Slot>, roots: seq<Option<string>>, ignored: nat, exited: bool)

  /** What the handler tells the read loop. */
  datatype Verdict =
    | Took(n: nat)  // so many events were consumed
    | NeedMore      // a rename's second half may still be unread
    | Discard       // the rest of the buffer is void

  /** `emitted` are the events that removing watches appends to the queue. */
  datatype Outcome = Outcome(m: Monitor, verdict: Verdict, emitted: seq<Event>)

  function FindRoot(roots: seq<Option<string>>, path: string, from: nat := 0): (r: int)
    requires from <= |roots|
    ensures r == -1 || from <= r < |roots|
    ensures r >= 0 ==> roots[r] == Some(path) && forall j :: from <= j < r ==> roots[j] != Some(path)
    ensures r == -1 ==> forall j :: from <= j < |roots| ==> roots[j] != Some(path)
    decreases |roots| - from
  {
    if from == |roots| then -1
    else if roots[from] == Some(path) then from
    else FindRoot(roots, path, from + 1)
  }

  /** Stop monitoring a root; exit if it is unknown or was the last one. */
  function ZapRoot(m: Monitor, path: string): Monitor {
    var i := FindRoot(m.roots, path);
    if i == -1 then m.(exited := true)
    else m.(roots := m.roots[i := None], ignored := m.ignored + 1, exited := m.ignored + 1 == |m.roots|)
  }

  /** A later state in which only watches and slots may have changed. */
  ghost predicate Watching(m: Monitor, m': Monitor) {
    match m'
    case Monitor(k, _, roots, ignored, exited) =>
      Follows(m.k, k) && roots == m.roots && ignored == m.ignored && exited == m.exited
  }

  /** The nftw() callback for one directory. */
  function TraverseTree(m: Monitor, path: string): (r: Monitor)
    requires ValidKernel(m.k)
    ensures Watching(m, r)
  {
    var (k, wd) := AddWatch(m.k, path, FindRoot(m.roots, path) >= 0);
    if wd == -1 then m
    else if FindWatch(m.slots, wd) >= 0 then m.(k := k)
    else m.(k := k, slots := AddEntry(m.slots, wd, path))
  }

  function WatchAll(m: Monitor, visits: seq<string>): (r: Monitor)
    requires ValidKernel(m.k)
    ensures Watching(m, r)
    decreases |visits|
  {
    hide TraverseTree;
    if visits == [] then m else WatchAll(TraverseTree(m, visits[0]), visits[1..])
  }

  function WatchSubtree(m: Monitor, path: string): (r: Monitor)
    requires ValidKernel(m.k)
    ensures Watching(m, r)
  {
    WatchAll(m, Nftw(m.k, path))
  }

  /** `cnt` is the number of entries zapped, or -1 when removing a watch failed. */
  datatype Zapped = Zapped(k: Kernel, slots: seq<Slot>, cnt: int, emitted: seq<Event>)

  function ZapFrom(z: Zapped, path: string, j: nat): (r: Zapped)
    requires ValidKernel(z.k) && j <= |z.slots|
    ensures Follows(z.k, r.k)
    decreases |z.slots| - j
  {
    if j == |z.slots| then z
    else if z.slots[j].wd >= 0 && AtOrBelow(z.slots[j].path, path) then
      var wd := z.slots[j].wd;
      if wd !in z.k.watches then z.(cnt := -1)
      else ZapFrom(Zapped(DropWatch(z.k, wd), MarkEmpty(z.slots, j), z.cnt + 1, z.emitted + [Ignored(wd)]), path, j + 1)
    else ZapFrom(z, path, j + 1)
  }

  function ZapSubtree(m: Monitor, path: string): (r: Zapped)
    requires ValidKernel(m.k)
    ensures Follows(m.k, r.k)
  {
    ZapFrom(Zapped(m.k, m.slots, 0, []), path, 0)
  }

  function WatchRoots(m: Monitor, j: nat): (r: Monitor)
    requires ValidKernel(m.k) && j <= |m.roots|
    ensures Watching(m, r)
    decreases |m.roots| - j
  {
    if j == |m.roots| then m
    else WatchRoots(if m.roots[j].Some? then WatchSubtree(m, m.roots[j].value) else m, j + 1)
  }

  /** Drop the inotify instance and the cache, and build both again from the roots. */
  function Reinitialize(m: Monitor): (r: Monitor)
    requires ValidKernel(m.k)
    ensures Watching(m, r)
  {
    WatchRoots(m.(k := NewInstance(m.k), slots := []), 0)
  }

  function Rebuild(m: Monitor): (r: Outcome)
    requires ValidKernel(m.k)
    ensures Follows(m.k, r.m.k) && (r.verdict.Discard? || r.verdict == Took(1))
  {
    Outcome(Reinitialize(m), Discard, [])
  }

  /** A directory appeared: watch its subtree, unless its path is cached already. */
  function Appeared(m: Monitor, fullPath: string): (r: Outcome)
    requires ValidKernel(m.k)
    ensures Follows(m.k, r.m.k) && (r.verdict.Discard? || r.verdict == Took(1))
  {
    Outcome(if FindPath(m.slots, fullPath) >= 0 then m else WatchSubtree(m, fullPath), Took(1), [])
  }

  /** A directory left the trees: zap what was at or below it. */
  function Left(m: Monitor, fullPath: string): (r: Outcome)
    requires ValidKernel(m.k)
    ensures Follows(m.k, r.m.k) && (r.verdict.Discard? || r.verdict == Took(1))
  {
    var z := ZapSubtree(m, fullPath);
    var m' := m.(k := z.k, slots := z.slots);
    if z.cnt == -1 then Rebuild(m') else Outcome(m', Took(1), z.emitted)
  }

  /**
   What the handler does with the first event of `buf`, whose further events
   are those it can see. `firstTry` is false when a second read was made for
   the sake of this event.
   */
  function Process(m: Monitor, buf: seq<Event>, firstTry: bool): (r: Outcome)
    requires ValidKernel(m.k) && buf != []
    ensures Follows(m.k, r.m.k)
    ensures r.verdict.Took? ==> 1 <= r.verdict.n <= |buf|
    ensures r.verdict.NeedMore? ==> r.m == m && firstTry && |buf| == 1
  {
    var ev := buf[0];
    if ev.Overflow? then Rebuild(m)
    else if ev.Ignored? then Outcome(m, Took(1), [])
    else
      var slot := FindWatch(m.slots, ev.wd);
      if slot == -1 then Rebuild(m)
      else
        var path := m.slots[slot].path;
        match ev
        case Create(_, name, isDir) =>
          if isDir then Appeared(m, Join(path, name)) else Outcome(m, Took(1), [])
        case MovedTo(_, _, name, isDir) =>
          if isDir then Appeared(m, Join(path, name)) else Outcome(m, Took(1), [])
        case DeleteSelf(_) =>
          var m' := if FindRoot(m.roots, path) >= 0 then ZapRoot(m, path) else m;
          if m'.exited then Outcome(m', Discard, [])
          else Outcome(m'.(slots := MarkEmpty(m.slots, slot)), Took(1), [])
        case MovedFrom(_, cookie, name, isDir) =>
          if !isDir then Outcome(m, Took(1), [])
          else if |buf| > 1 && buf[1].MovedTo? && buf[1].cookie == cookie then
            var slot' := FindWatch(m.slots, buf[1].wd);
            if slot' == -1 then Rebuild(m)
            else Outcome(m.(slots := RewriteAll(m.slots, Join(path, name), Join(m.slots[slot'].path, buf[1].name))), Took(2), [])
          else if |buf| > 1 || !firstTry then Left(m, Join(path, name))
          else Outcome(m, NeedMore, [])
        case Unmount(_) => Outcome(m.(slots := MarkEmpty(m.slots, slot)), Took(1), [])
        case MoveSelf(_) =>
          if FindRoot(m.roots, path) == -1 then Outcome(m, Took(1), [])
          else
            var m' := ZapRoot(m, path);
            if m'.exited then Outcome(m', Discard, []) else Left(m', path)
  }

  // ----- handling a whole queue -----

  datatype System = System(m: Monitor, queue: seq<Event>)

  /** Events other than IN_IGNORED, which removing watches adds. */
  function Active(es: seq<Event>): nat {
    if es == [] then 0 else (if es[0].Ignored? then 0 else 1) + Active(es[1..])
  }

  lemma {:induction false} ActiveConcat(a: seq<Event>, b: seq<Event>)
    ensures Active(a + b) == Active(a) + Active(b)
  {
    if a == [] {
      assert a + b == b;
    } else {
      assert (a + b)[1..] == a[1..] + b;
      ActiveConcat(a[1..], b);
    }
  }

  lemma {:induction false} ZapEmits(z: Zapped, path: string, j: nat)
    requires ValidKernel(z.k) && j <= |z.slots| && Active(z.emitted) == 0
    ensures Active(ZapFrom(z, path, j).emitted) == 0
    decreases |z.slots| - j
  {
    hide DropWatch; hide ValidKernel;
    if j < |z.slots| {
      if z.slots[j].wd >= 0 && AtOrBelow(z.slots[j].path, path) {
        var wd := z.slots[j].wd;
        if wd in z.k.watches {
          ActiveConcat(z.emitted, [Ignored(wd)]);
          ZapEmits(Zapped(DropWatch(z.k, wd), MarkEmpty(z.slots, j), z.cnt + 1, z.emitted + [Ignored(wd)]), path, j + 1);
        }
      } else {
        ZapEmits(z, path, j + 1);
      }
    }
  }

  lemma LeftEmits(m: Monitor, fullPath: string)
    requires ValidKernel(m.k)
    ensures Active(Left(m, fullPath).emitted) == 0
  {
    hide ValidKernel; hide ZapFrom; hide Reinitialize;
    ZapEmits(Zapped(m.k, m.slots, 0, []), fullPath, 0);
  }

  lemma ProcessEmits(m: Monitor, buf: seq<Event>, firstTry: bool)
    requires ValidKernel(m.k) && buf != []
    ensures var o := Process(m, buf, firstTry);
      Active(o.emitted) == 0 && (o.emitted != [] ==> !buf[0].Ignored?)
  {
    hide ValidKernel; hide Left; hide Reinitialize; hide WatchSubtree; hide RewriteAll; hide MarkEmpty;
    var slot := if buf[0].Overflow? then -1 else FindWatch(m.slots, buf[0].wd);
    if slot >= 0 {
      var path := m.slots[slot].path;
      if buf[0].MovedFrom? { LeftEmits(m, Join(path, buf[0].name)); }
      if buf[0].MoveSelf? { LeftEmits(ZapRoot(m, path), path); }
    }
  }

  /** Handling an event leaves fewer events to handle, or as many but a shorter queue. */
  lemma ProcessProgress(m: Monitor, buf: seq<Event>, firstTry: bool)
    requires ValidKernel(m.k) && buf != []
    ensures var o := Process(m, buf, firstTry);
      o.verdict.Took? ==> var rest := buf[o.verdict.n..] + o.emitted;
        Active(rest) < Active(buf) || (Active(rest) == Active(buf) && |rest| < |buf|)
  {
    hide Process; hide ValidKernel; hide Follows;
    var o := Process(m, buf, firstTry);
    ProcessEmits(m, buf, firstTry);
    if o.verdict.Took? {
      ActiveConcat(buf[o.verdict.n..], o.emitted);
      ActiveConcat(buf[..o.verdict.n], buf[o.verdict.n..]);
      assert buf == buf[..o.verdict.n] + buf[o.verdict.n..];
    }
  }

  /** The state once every event of the queue has been handled, one event or pair at a time. */
  function Drain(s: System): (r: System)
    requires ValidKernel(s.m.k)
    ensures Follows(s.m.k, r.m.k)
    ensures r.m.exited || r.queue == []
    decreases Active(s.queue), |s.queue|
  {
    hide Process;
    if s.m.exited || s.queue == [] then s
    else
      var o := Process(s.m, s.queue, false);
      if o.verdict.Took? then
        ProcessProgress(s.m, s.queue, false);
        Drain(System(o.m, s.queue[o.verdict.n..] + o.emitted))
      else System(o.m, [])
  }
}
