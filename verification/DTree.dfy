/**
 The monitoring program itself: the growable array of slots, the list of roots,
 and the loop that reads events in chunks.
 */
module DTree {
  import opened Options
  import opened Paths
  import opened FileTree
  import opened Inotify
  import W = WatchCache
  import H = Handler

  const NAME_MAX: nat := 255
  const EVENT_MAX: nat := HEADER + NAME_MAX + 1
  const READ_BUF_LEN: nat := 100 * EVENT_MAX

  /** Names are no longer than the file system allows. */
  ghost predicate Fits(es: seq<Event>) {
    forall i :: 0 <= i < |es| ==> Size(es[i]) <= EVENT_MAX
  }

  /**
   The handler sees only part of what is queued: whether an event follows is
   all that its answer depends on.
   */
  lemma Lookahead(m: H.Monitor, seen: seq<Event>, full: seq<Event>, firstTry: bool)
    requires ValidKernel(m.k) && seen != [] && seen <= full
    requires !H.Process(m, seen, firstTry).verdict.NeedMore?
    requires |seen| == 1 && !firstTry ==> |full| == 1
    ensures H.Process(m, full, false) == H.Process(m, seen, firstTry)
  {
  }

  lemma BytesOne(es: seq<Event>)
    requires es != []
    ensures Bytes(es[..1]) == Size(es[0])
  {
  }

  lemma BytesTwo(es: seq<Event>)
    requires |es| >= 2
    ensures Bytes(es[..2]) == Size(es[0]) + Size(es[1])
  {
    BytesOne(es);
    assert es[..2][..1] == es[..1];
  }

  lemma DrainTakes(m: H.Monitor, full: seq<Event>)
    requires ValidKernel(m.k) && full != [] && !m.exited
    ensures var o := H.Process(m, full, false);
      H.Drain(H.System(m, full)) ==
        if o.verdict.Took? then H.Drain(H.System(o.m, full[o.verdict.n..] + o.emitted)) else H.System(o.m, [])
  {
    hide H.Process; hide ValidKernel; hide Follows;
  }

  lemma DrainDone(m: H.Monitor)
    requires ValidKernel(m.k)
    ensures H.Drain(H.System(m, [])) == H.System(m, [])
  {
    hide H.Process; hide ValidKernel; hide Follows;
  }

  lemma {:induction false} BytesConcat(a: seq<Event>, b: seq<Event>)
    ensures Bytes(a + b) == Bytes(a) + Bytes(b)
  {
    if b == [] {
      assert a + b == a;
    } else {
      assert (a + b)[..|a + b| - 1] == a + b[..|b| - 1];
      BytesConcat(a, b[..|b| - 1]);
    }
  }

  lemma {:induction false} BytesBound(es: seq<Event>, n: nat)
    requires Fits(es) && n <= |es|
    ensures Bytes(es[..n]) <= n * EVENT_MAX
  {
    if n > 0 {
      BytesBound(es, n - 1);
      assert es[..n][..n - 1] == es[..n - 1];
    }
  }

  /** Fewer events to handle, IN_IGNORED counted last. */
  ghost predicate Fewer(a: seq<Event>, b: seq<Event>) {
    H.Active(a) < H.Active(b) || (H.Active(a) == H.Active(b) && |a| < |b|)
  }

  /** The events of a buffer that start at or after byte `offset`. */
  function From(buf: seq<Event>, offset: int): seq<Event> {
    if buf == [] || offset <= 0 then buf else From(buf[1..], offset - Size(buf[0]))
  }

  lemma {:induction false} FromSkips(buf: seq<Event>, n: nat)
    requires n <= |buf|
    ensures From(buf, Bytes(buf[..n])) == buf[n..]
    decreases n
  {
    if n > 0 {
      assert buf[..n] == [buf[0]] + buf[1..][..n - 1];
      BytesConcat([buf[0]], buf[1..][..n - 1]);
      BytesOne([buf[0]]);
      assert [buf[0]][..1] == [buf[0]];
      FromSkips(buf[1..], n - 1);
    }
  }

  lemma {:induction false} FromEnd(buf: seq<Event>, offset: int)
    requires Bytes(buf) <= offset
    ensures From(buf, offset) == []
    decreases |buf|
  {
    if buf != [] {
      assert buf == [buf[0]] + buf[1..];
      BytesConcat([buf[0]], buf[1..]);
      BytesOne([buf[0]]);
      assert [buf[0]][..1] == [buf[0]];
      FromEnd(buf[1..], offset - Size(buf[0]));
    }
  }

  lemma {:induction false} QuietFits(es: seq<Event>)
    requires H.Active(es) == 0
    ensures Fits(es)
  {
    if es != [] {
      QuietFits(es[1..]);
      assert forall i :: 1 <= i < |es| ==> es[i] == es[1..][i - 1];
    }
  }

  lemma FitsParts(a: seq<Event>, b: seq<Event>)
    requires Fits(a + b)
    ensures Fits(a) && Fits(b)
  {
    assert forall i :: 0 <= i < |a| ==> (a + b)[i] == a[i];
    assert forall i :: 0 <= i < |b| ==> (a + b)[|a| + i] == b[i];
  }

  lemma NoBytes()
    ensures Bytes([]) == 0
  {
  }

  lemma BytesMore(es: seq<Event>)
    requires |es| >= 2
    ensures Bytes(es) > Size(es[0])
  {
  }

  lemma NothingSkipped(buf: seq<Event>, offset: int)
    requires offset <= 0
    ensures From(buf, offset) == buf
  {
  }

  lemma Skipped(buf: seq<Event>, seen: seq<Event>, n: nat)
    requires seen <= buf && n <= |seen|
    ensures From(buf, Bytes(seen[..n])) == buf[n..]
    ensures Bytes(buf) == Bytes(seen[..n]) + Bytes(buf[n..])
  {
    assert seen[..n] == buf[..n];
    FromSkips(buf, n);
    BytesConcat(buf[..n], buf[n..]);
    assert buf[..n] + buf[n..] == buf;
  }

  lemma ExitDiscards(m: H.Monitor, seen: seq<Event>, firstTry: bool)
    requires ValidKernel(m.k) && !m.exited && seen != []
    ensures var o := H.Process(m, seen, firstTry); o.m.exited ==> o.verdict.Discard?
  {
    hide ValidKernel; hide H.ZapSubtree; hide H.WatchAll; hide H.WatchRoots; hide W.RewriteAll; hide W.MarkEmpty; hide Follows;
  }

  lemma StillPrefix(seen: seq<Event>, buf: seq<Event>, queue: seq<Event>)
    requires seen <= buf
    ensures seen <= buf + queue
  {
  }

  lemma RestOf(buf: seq<Event>, queue: seq<Event>, n: nat, emitted: seq<Event>)
    requires n <= |buf| && Fits(buf + queue) && Fits(emitted)
    ensures (buf + queue)[n..] + emitted == buf[n..] + (queue + emitted) && Fits(buf[n..] + (queue + emitted))
  {
    var rest := (buf + queue)[n..];
    forall i | 0 <= i < |rest| + |emitted| ensures Size((rest + emitted)[i]) <= EVENT_MAX {
      if i < |rest| { assert rest[i] == (buf + queue)[n + i]; }
    }
    assert rest + emitted == buf[n..] + (queue + emitted);
  }

  /** Handling part of what was read is a step of handling the whole queue. */
  lemma HandledInOrder(m: H.Monitor, buf: seq<Event>, queue: seq<Event>, seen: seq<Event>, firstTry: bool, o: H.Outcome)
    requires ValidKernel(m.k) && !m.exited && seen != [] && seen <= buf && Fits(buf + queue)
    requires o == H.Process(m, seen, firstTry) && !o.verdict.NeedMore?
    requires |seen| == 1 && !firstTry ==> |buf + queue| == 1
    ensures ValidKernel(o.m.k)
    ensures o.verdict.Took? ==> var rest := buf[o.verdict.n..] + (queue + o.emitted);
      && H.Drain(H.System(m, buf + queue)) == H.Drain(H.System(o.m, rest)) && Fits(rest)
      && (H.Active(rest) < H.Active(buf + queue) || (H.Active(rest) == H.Active(buf + queue) && |rest| < |buf + queue|))
    ensures o.verdict.Discard? ==> H.Drain(H.System(m, buf + queue)) == H.System(o.m, [])
  {
    hide ValidKernel; hide H.Drain; hide H.Process; hide H.Active; hide Fits;
    var full := buf + queue;
    StillPrefix(seen, buf, queue);
    Lookahead(m, seen, full, firstTry);
    DrainTakes(m, full);
    H.ProcessProgress(m, full, false);
    H.ProcessEmits(m, full, false);
    QuietFits(o.emitted);
    if o.verdict.Took? {
      RestOf(buf, queue, o.verdict.n, o.emitted);
    }
  }

  /** A pathname argument: a string of its own, or one that is stored in the cache. */
  datatype PathArg = Text(text: string) | InSlot(slot: nat)

  class Monitor {
    var kernel: Kernel
    var queue: seq<Event>  // unread events of the inotify instance
    var wlCache: array<W.Slot>
    const rootDirPaths: array<Option<string>>
    var ignoreRootDirs: nat
    var exited: bool

    /** Start-up: build the cache for the roots given on the command line. */
    constructor (k: Kernel, roots: seq<string>)
      requires ValidKernel(k)
      ensures fresh(wlCache) && wlCache as object != rootDirPaths && queue == []
      ensures ValidKernel(kernel)
      ensures State() == H.Reinitialize(H.Monitor(k, [], seq(|roots|, i requires 0 <= i < |roots| => Some(roots[i])), 0, false))
    {
      kernel := k;
      queue := [];
      wlCache := new W.Slot[0];
      rootDirPaths := new Option<string>[|roots|](i requires 0 <= i < |roots| => Some(roots[i]));
      ignoreRootDirs := 0;
      exited := false;
      new;
      hide ValidKernel; hide H.WatchRoots;
      assert rootDirPaths[..] == seq(|roots|, i requires 0 <= i < |roots| => Some(roots[i]));
      assert wlCache[..] == [];
      Reinitialize();
    }

    ghost function State(): H.Monitor
      reads this, wlCache, rootDirPaths
    {
      H.Monitor(kernel, wlCache[..], rootDirPaths[..], ignoreRootDirs, exited)
    }

    method FindWatch(wd: int) returns (slot: int)
      ensures slot == W.FindWatch(wlCache[..], wd)
    {
      for j := 0 to wlCache.Length
        invariant forall i :: 0 <= i < j ==> wlCache[i].wd != wd
      {
        if wlCache[j].wd == wd { return j; }
      }
      return -1;
    }

    method MarkCacheSlotEmpty(slot: nat)
      requires slot < wlCache.Length
      modifies wlCache
      ensures wlCache[..] == W.MarkEmpty(old(wlCache[..]), slot)
    {
      wlCache[slot] := W.EMPTY;
    }

    method FindEmptyCacheSlot() returns (slot: nat)
      modifies this`wlCache
      ensures wlCache == old(wlCache) || fresh(wlCache)
      ensures wlCache[..] == W.WithRoom(old(wlCache[..]))
      ensures slot == W.FindWatch(wlCache[..], -1)
    {
      ghost var before := wlCache[..];
      for j := 0 to wlCache.Length
        invariant forall i :: 0 <= i < j ==> wlCache[i].wd != -1
      {
        if wlCache[j].wd == -1 { return j; }
      }
      var size := wlCache.Length;
      var bigger := new W.Slot[size + W.ALLOC_INCR](_ => W.EMPTY);
      for j := 0 to size
        invariant bigger[..j] == before[..j]
        invariant forall i :: j <= i < bigger.Length ==> bigger[i] == W.EMPTY
        invariant wlCache[..] == before
      {
        bigger[j] := wlCache[j];
      }
      wlCache := bigger;
      assert wlCache[..] == before + seq(W.ALLOC_INCR, _ => W.EMPTY);
      return size;
    }

    method AddWatchToCache(wd: int, pathname: string)
      modifies this`wlCache, wlCache
      ensures wlCache == old(wlCache) || fresh(wlCache)
      ensures wlCache[..] == W.AddEntry(old(wlCache[..]), wd, pathname)
    {
      var slot := FindEmptyCacheSlot();
      wlCache[slot] := W.Slot(wd, pathname);
    }

    method PathnameToCacheSlot(pathname: string) returns (slot: int)
      ensures slot == W.FindPath(wlCache[..], pathname)
    {
      for j := 0 to wlCache.Length
        invariant forall i :: 0 <= i < j ==> wlCache[i].wd < 0 || wlCache[i].path != pathname
      {
        if wlCache[j].wd >= 0 && wlCache[j].path == pathname { return j; }
      }
      return -1;
    }

    method FindRootDirPath(path: string) returns (at: int)
      ensures at == H.FindRoot(rootDirPaths[..], path)
    {
      for j := 0 to rootDirPaths.Length
        invariant forall i :: 0 <= i < j ==> rootDirPaths[i] != Some(path)
      {
        if rootDirPaths[j] == Some(path) { return j; }
      }
      return -1;
    }

    method ZapRootDirPath(path: string)
      requires wlCache as object != rootDirPaths
      modifies this`ignoreRootDirs, this`exited, rootDirPaths
      ensures State() == H.ZapRoot(old(State()), path)
    {
      var at := FindRootDirPath(path);
      if at == -1 {
        exited := true;
      } else {
        rootDirPaths[at] := None;
        ignoreRootDirs := ignoreRootDirs + 1;
        exited := ignoreRootDirs == rootDirPaths.Length;
      }
    }

    method TraverseTree(pathname: string)
      requires ValidKernel(kernel) && wlCache as object != rootDirPaths
      modifies this`kernel, this`wlCache, wlCache
      ensures wlCache == old(wlCache) || fresh(wlCache)
      ensures ValidKernel(kernel) && State() == H.TraverseTree(old(State()), pathname)
    {
      var root := FindRootDirPath(pathname);
      var (k, wd) := AddWatch(kernel, pathname, root >= 0);
      if wd == -1 { return; }
      kernel := k;
      var slot := FindWatch(wd);
      if slot >= 0 { return; }
      AddWatchToCache(wd, pathname);
    }

    method WatchDir(pathname: string)
      requires ValidKernel(kernel) && wlCache as object != rootDirPaths
      modifies this`kernel, this`wlCache, wlCache
      ensures wlCache == old(wlCache) || fresh(wlCache)
      ensures ValidKernel(kernel) && State() == H.WatchSubtree(old(State()), pathname)
    {
      hide ValidKernel; hide H.TraverseTree;
      var visits := Nftw(kernel, pathname);
      ghost var goal := H.WatchSubtree(State(), pathname);
      var i := 0;
      while i < |visits|
        invariant 0 <= i <= |visits|
        invariant wlCache == old(wlCache) || fresh(wlCache)
        invariant ValidKernel(kernel) && H.WatchAll(State(), visits[i..]) == goal
      {
        assert visits[i..][1..] == visits[i + 1..];
        TraverseTree(visits[i]);
        i := i + 1;
      }
    }

    method RewriteCachedPaths(oldPathPrefix: string, oldName: string, newPathPrefix: string, newName: string)
      modifies wlCache
      ensures wlCache[..] == W.RewriteAll(old(wlCache[..]), Join(oldPathPrefix, oldName), Join(newPathPrefix, newName))
    {
      var fullPath := Join(oldPathPrefix, oldName);
      var newPrefix := Join(newPathPrefix, newName);
      for j := 0 to wlCache.Length
        invariant forall i :: 0 <= i < j ==> wlCache[i] == W.Slot(old(wlCache[i].wd), Renamed(old(wlCache[i].path), fullPath, newPrefix))
        invariant forall i :: j <= i < wlCache.Length ==> wlCache[i] == old(wlCache[i])
      {
        if AtOrBelow(wlCache[j].path, fullPath) {
          wlCache[j] := W.Slot(wlCache[j].wd, newPrefix + wlCache[j].path[|fullPath|..]);
        }
      }
    }

    /** The string that a pathname argument points to at the moment. */
    function Pointed(path: PathArg): string
      requires path.InSlot? ==> path.slot < wlCache.Length
      reads this`wlCache, wlCache
    {
      match path case Text(text) => text case InSlot(slot) => wlCache[slot].path
    }

    /** The loop may empty the very slot that the argument points into, so it works on a copy. */
    method ZapSubtree(path: PathArg) returns (cnt: int)
      requires ValidKernel(kernel) && (path.InSlot? ==> path.slot < wlCache.Length)
      modifies this`kernel, this`queue, wlCache
      ensures var z := H.ZapSubtree(old(State()), old(Pointed(path)));
        && kernel == z.k && wlCache[..] == z.slots && cnt == z.cnt && queue == old(queue) + z.emitted
    {
      hide ValidKernel; hide DropWatch;
      var pn := Pointed(path);
      ghost var goal := H.ZapSubtree(State(), pn);
      ghost var emitted: seq<Event> := [];
      cnt := 0;
      var j := 0;
      while j < wlCache.Length
        invariant 0 <= j <= wlCache.Length && ValidKernel(kernel)
        invariant queue == old(queue) + emitted
        invariant H.ZapFrom(H.Zapped(kernel, wlCache[..], cnt, emitted), pn, j) == goal
      {
        if wlCache[j].wd >= 0 && AtOrBelow(wlCache[j].path, pn) {
          var wd := wlCache[j].wd;
          if wd !in kernel.watches { return -1; }
          kernel := DropWatch(kernel, wd);
          queue := queue + [Ignored(wd)];
          emitted := emitted + [Ignored(wd)];
          MarkCacheSlotEmpty(j);
          cnt := cnt + 1;
        }
        j := j + 1;
      }
    }

    method Reinitialize()
      requires ValidKernel(kernel) && wlCache as object != rootDirPaths
      modifies this`kernel, this`queue, this`wlCache, wlCache
      ensures fresh(wlCache) && queue == []
      ensures ValidKernel(kernel) && State() == H.Reinitialize(old(State()))
    {
      hide ValidKernel; hide H.WatchSubtree;
      ghost var goal := H.Reinitialize(State());
      kernel := NewInstance(kernel);
      queue := [];
      wlCache := new W.Slot[0];
      assert wlCache[..] == [];
      var j := 0;
      while j < rootDirPaths.Length
        invariant 0 <= j <= rootDirPaths.Length && fresh(wlCache) && ValidKernel(kernel) && queue == []
        invariant rootDirPaths[..] == old(rootDirPaths[..])
        invariant H.WatchRoots(State(), j) == goal
      {
        if rootDirPaths[j].Some? {
          WatchDir(rootDirPaths[j].value);
        }
        j := j + 1;
      }
    }

    /** The handler's answer to the loop: READ_BUF_LEN voids the buffer, -1 asks for another read. */
    ghost predicate Answers(o: H.Outcome, before: seq<Event>, ev: seq<Event>, evLen: int)
      reads this, wlCache, rootDirPaths
    {
      && ValidKernel(kernel) && State() == o.m
      && match o.verdict
         case Took(n) => n <= |ev| && evLen == Bytes(ev[..n]) && queue == before + o.emitted
         case NeedMore => evLen == -1 && queue == before
         case Discard => evLen == READ_BUF_LEN && queue == []
    }

    method Rebuild() returns (evLen: int)
      requires ValidKernel(kernel) && wlCache as object != rootDirPaths
      modifies this`kernel, this`queue, this`wlCache, wlCache
      ensures fresh(wlCache)
      ensures Answers(H.Rebuild(old(State())), old(queue), [], evLen)
    {
      hide ValidKernel; hide H.Reinitialize;
      Reinitialize();
      evLen := READ_BUF_LEN;
    }

    method DirectoryAppeared(ev: Event, fullPath: string, ghost seen: seq<Event>) returns (evLen: int)
      requires ValidKernel(kernel) && wlCache as object != rootDirPaths && seen != [] && seen[0] == ev
      modifies this`kernel, this`wlCache, wlCache
      ensures wlCache == old(wlCache) || fresh(wlCache)
      ensures Answers(H.Appeared(old(State()), fullPath), old(queue), seen, evLen)
    {
      hide ValidKernel; hide H.WatchSubtree;
      BytesOne(seen);
      evLen := Size(ev);
      var slot := PathnameToCacheSlot(fullPath);
      if slot < 0 { WatchDir(fullPath); }
    }

    method DirectoryLeft(ev: Event, fullPath: PathArg, ghost seen: seq<Event>) returns (evLen: int)
      requires ValidKernel(kernel) && wlCache as object != rootDirPaths && seen != [] && seen[0] == ev
      requires fullPath.InSlot? ==> fullPath.slot < wlCache.Length
      modifies this`kernel, this`queue, this`wlCache, wlCache
      ensures wlCache == old(wlCache) || fresh(wlCache)
      ensures Answers(H.Left(old(State()), old(Pointed(fullPath))), old(queue), seen, evLen)
    {
      hide ValidKernel; hide H.ZapSubtree; hide H.Reinitialize;
      BytesOne(seen);
      var cnt := ZapSubtree(fullPath);
      if cnt == -1 {
        evLen := Rebuild();
      } else {
        evLen := Size(ev);
      }
    }

    /** The events the handler may look at: beyond the first, those starting before byte `bufSize`. */
    ghost function Visible(buf: seq<Event>, bufSize: int): (r: seq<Event>)
      requires buf != []
      ensures r != [] && r <= buf
    {
      if Size(buf[0]) < bufSize then buf else buf[..1]
    }

    method DirectoryDeleted(slot: nat) returns (evLen: int)
      requires ValidKernel(kernel) && wlCache as object != rootDirPaths && slot < wlCache.Length && !exited
      modifies this`ignoreRootDirs, this`exited, this`queue, wlCache, rootDirPaths
      ensures var m := old(State()); var path := m.slots[slot].path;
        var m' := if H.FindRoot(m.roots, path) >= 0 then H.ZapRoot(m, path) else m;
        if m'.exited then State() == m' && evLen == READ_BUF_LEN && queue == []
        else State() == m'.(slots := W.MarkEmpty(m.slots, slot)) && evLen == HEADER && queue == old(queue)
    {
      var path := wlCache[slot].path;
      var root := FindRootDirPath(path);
      if root >= 0 { ZapRootDirPath(path); }
      if exited {
        queue := [];
        return READ_BUF_LEN;
      }
      MarkCacheSlotEmpty(slot);
      return HEADER;
    }

    method RootMoved(ev: Event, slot: nat, ghost seen: seq<Event>) returns (evLen: int)
      requires ValidKernel(kernel) && wlCache as object != rootDirPaths && !exited && seen != [] && seen[0] == ev
      requires slot < wlCache.Length && H.FindRoot(rootDirPaths[..], wlCache[slot].path) >= 0
      modifies this, wlCache, rootDirPaths
      ensures wlCache == old(wlCache) || fresh(wlCache)
      ensures var path := old(wlCache[slot].path); var m' := H.ZapRoot(old(State()), path);
        Answers(if m'.exited then H.Outcome(m', H.Discard, []) else H.Left(m', path), old(queue), seen, evLen)
    {
      hide ValidKernel; hide H.Left; hide H.ZapRoot;
      ZapRootDirPath(wlCache[slot].path);
      if exited {
        queue := [];
        return READ_BUF_LEN;
      }
      evLen := DirectoryLeft(ev, InSlot(slot), seen);
    }

    method DirectoryMoved(slot: nat, buf: seq<Event>, bufSize: int, firstTry: bool) returns (evLen: int)
      requires ValidKernel(kernel) && wlCache as object != rootDirPaths && !exited && slot < wlCache.Length
      requires buf != [] && bufSize <= Bytes(buf) && buf[0].MovedFrom? && buf[0].isDir && slot == W.FindWatch(wlCache[..], buf[0].wd)
      modifies this, wlCache, rootDirPaths
      ensures wlCache == old(wlCache) || fresh(wlCache)
      ensures Answers(H.Process(old(State()), Visible(buf, bufSize), firstTry), old(queue), Visible(buf, bufSize), evLen)
    {
      hide ValidKernel; hide H.Left; hide H.Rebuild; hide W.RewriteAll; hide H.Appeared; hide H.ZapRoot;
      ghost var seen := Visible(buf, bufSize);
      BytesOne(buf);
      assert buf[..|buf|] == buf;
      var ev := buf[0];
      evLen := Size(ev);
      if evLen < bufSize && buf[1].MovedTo? && buf[1].cookie == ev.cookie {
        var nextEvCacheSlot := FindWatch(buf[1].wd);
        if nextEvCacheSlot == -1 {
          evLen := Rebuild();
          return;
        }
        BytesTwo(buf);
        RewriteCachedPaths(wlCache[slot].path, ev.name, wlCache[nextEvCacheSlot].path, buf[1].name);
        evLen := evLen + Size(buf[1]);
      } else if evLen < bufSize || !firstTry {
        evLen := DirectoryLeft(ev, Text(Join(wlCache[slot].path, ev.name)), seen);
      } else {
        evLen := -1;
      }
    }

    method ProcessNextInotifyEvent(buf: seq<Event>, bufSize: int, firstTry: bool) returns (evLen: int)
      requires ValidKernel(kernel) && wlCache as object != rootDirPaths && !exited
      requires buf != [] && bufSize <= Bytes(buf)
      modifies this, wlCache, rootDirPaths
      ensures wlCache == old(wlCache) || fresh(wlCache)
      ensures Answers(H.Process(old(State()), Visible(buf, bufSize), firstTry), old(queue), Visible(buf, bufSize), evLen)
    {
      hide ValidKernel; hide H.Appeared; hide H.Left; hide H.Rebuild; hide W.RewriteAll; hide H.ZapRoot; hide W.MarkEmpty;
      ghost var seen := Visible(buf, bufSize);
      var ev := buf[0];
      BytesOne(buf);
      assert seen[..1] == buf[..1];
      if ev.Overflow? {
        evLen := Rebuild();
        return;
      }
      evLen := Size(ev);
      if ev.Ignored? { return; }
      var evCacheSlot := FindWatch(ev.wd);
      if evCacheSlot == -1 {
        evLen := Rebuild();
        return;
      }
      var path := wlCache[evCacheSlot].path;
      if (ev.Create? || ev.MovedTo?) && ev.isDir {
        evLen := DirectoryAppeared(ev, Join(path, ev.name), seen);
      } else if ev.DeleteSelf? {
        evLen := DirectoryDeleted(evCacheSlot);
      } else if ev.MovedFrom? && ev.isDir {
        evLen := DirectoryMoved(evCacheSlot, buf, bufSize, firstTry);
      } else if ev.Unmount? {
        MarkCacheSlotEmpty(evCacheSlot);
      } else if ev.MoveSelf? {
        var root := FindRootDirPath(path);
        if root >= 0 { evLen := RootMoved(ev, evCacheSlot, seen); }
      }
    }

    /** read(): some events from the front of the queue, as many as fit in `room` bytes. */
    method Read(room: nat) returns (chunk: seq<Event>)
      requires queue != [] && Fits(queue) && room >= EVENT_MAX
      modifies this`queue
      ensures chunk != [] && chunk + queue == old(queue) && Bytes(chunk) <= room
    {
      BytesBound(queue, 1);
      var n :| 1 <= n <= |queue| && Bytes(queue[..n]) <= room;
      chunk := queue[..n];
      queue := queue[n..];
    }

    /** Handle the next event or pair of `buf`, of which `left` bytes are still to be handled. */
    method HandleNext(buf: seq<Event>, left: int, firstTry: bool) returns (evLen: int, rest: seq<Event>)
      requires ValidKernel(kernel) && wlCache as object != rootDirPaths && !exited
      requires buf != [] && Fits(buf + queue) && left <= READ_BUF_LEN
      requires left == Bytes(buf) || (left == Bytes(buf) - 1 && |buf| == 1 && !firstTry)
      requires !firstTry && |buf| == 1 ==> queue == []
      modifies this, wlCache, rootDirPaths
      ensures wlCache == old(wlCache) || fresh(wlCache)
      ensures ValidKernel(kernel) && Fits(rest + queue)
      ensures H.Drain(H.System(State(), rest + queue)) == old(H.Drain(H.System(State(), buf + queue)))
      ensures evLen > 0 ==> (exited || Fewer(rest + queue, old(buf + queue))) && if evLen < left then left - evLen == Bytes(rest) else rest == []
      ensures evLen <= 0 ==> rest == buf && queue == old(queue) && firstTry && |buf| == 1
      ensures exited ==> evLen >= left > 0
    {
      hide ValidKernel; hide H.Process; hide H.Drain; hide From;
      assert H.Active([]) == 0;
      hide H.Active;
      FitsParts(buf, queue);
      BytesBound(buf, 1);
      if |buf| >= 2 { BytesMore(buf); }
      BytesOne(buf);
      assert buf[..|buf|] == buf;
      ghost var m, pending, seen := State(), queue, Visible(buf, left);
      ghost var o := H.Process(m, seen, firstTry);
      evLen := ProcessNextInotifyEvent(buf, left, firstTry);
      rest := From(buf, evLen);
      if o.verdict.NeedMore? {
        assert rest == buf by { NothingSkipped(buf, evLen); }
      } else {
        HandledInOrder(m, buf, pending, seen, firstTry, o);
        ExitDiscards(m, seen, firstTry);
        if o.verdict.Took? {
          Skipped(buf, seen, o.verdict.n);
        } else {
          FromEnd(buf, evLen);
          DrainDone(o.m);
          assert rest + queue == [];
        }
      }
    }

    /**
     Read a chunk of events and handle them, reading once more when a rename's
     second half may be missing. However the reads split the events, what
     handling the whole queue leads to stays the same, and less is left to do.
     */
    method ProcessInotifyEvents(readBufferSize: nat)
      requires ValidKernel(kernel) && wlCache as object != rootDirPaths && !exited
      requires queue != [] && Fits(queue)
      requires readBufferSize == 0 || EVENT_MAX <= readBufferSize <= READ_BUF_LEN
      modifies this, wlCache, rootDirPaths
      ensures wlCache == old(wlCache) || fresh(wlCache)
      ensures ValidKernel(kernel) && Fits(queue)
      ensures H.Drain(H.System(State(), queue)) == old(H.Drain(H.System(State(), queue)))
      ensures exited || Fewer(queue, old(queue))
    {
      hide ValidKernel; hide H.Drain; hide H.Active; hide Bytes;
      ghost var goal := H.Drain(H.System(State(), queue));
      ghost var before := queue;
      var firstTry := true;
      var buf := Read(if readBufferSize > 0 then readBufferSize else READ_BUF_LEN);
      var numRead: int := Bytes(buf);
      var evp := 0;
      while evp < numRead
        invariant wlCache == old(wlCache) || fresh(wlCache)
        invariant ValidKernel(kernel) && Fits(buf + queue) && wlCache as object != rootDirPaths
        invariant evp >= 0 && numRead - evp <= READ_BUF_LEN && (evp == 0 ==> numRead > 0)
        invariant exited ==> numRead <= evp
        invariant if evp < numRead
          then numRead - evp == Bytes(buf) || (numRead - evp == Bytes(buf) - 1 && |buf| == 1 && !firstTry)
          else buf == []
        invariant !firstTry && |buf| == 1 ==> queue == []
        invariant H.Drain(H.System(State(), buf + queue)) == goal
        invariant exited || Fewer(buf + queue, before) || (buf + queue == before && evp == 0)
        decreases if exited then 0 else 1, H.Active(buf + queue), |buf + queue|, firstTry
      {
        NoBytes();
        ghost var full := buf + queue;
        var evLen, rest := HandleNext(buf, numRead - evp, firstTry);
        if evLen > 0 {
          evp := evp + evLen;
          buf := rest;
          firstTry := true;
        } else {
          firstTry := false;
          numRead := numRead - evp;
          if queue != [] {
            FitsParts(buf, queue);
            BytesBound(buf, 1);
            assert buf[..1] == buf;
            var more := Read(READ_BUF_LEN - numRead);
            BytesConcat(buf, more);
            assert (buf + more) + queue == full;
            buf := buf + more;
            numRead := numRead + Bytes(more);
          } else {
            numRead := numRead - 1;  // read() was interrupted and returned -1
          }
          evp := 0;
        }
      }
      assert buf + queue == queue;
    }

    /**
     Keep handling until nothing is left to read. The final cache, watches and
     roots are those of handling the events one at a time, whatever the sizes of
     the reads, and the loop ends.
     */
    method HandleAll(readBufferSize: nat)
      requires ValidKernel(kernel) && wlCache as object != rootDirPaths && Fits(queue)
      requires readBufferSize == 0 || EVENT_MAX <= readBufferSize <= READ_BUF_LEN
      modifies this, wlCache, rootDirPaths
      ensures wlCache == old(wlCache) || fresh(wlCache)
      ensures ValidKernel(kernel) && (exited || queue == [])
      ensures State() == old(H.Drain(H.System(State(), queue))).m
    {
      hide ValidKernel; hide H.Process; hide H.Active;
      ghost var goal := H.Drain(H.System(State(), queue));
      while !exited && queue != []
        invariant wlCache == old(wlCache) || fresh(wlCache)
        invariant ValidKernel(kernel) && wlCache as object != rootDirPaths && Fits(queue)
        invariant H.Drain(H.System(State(), queue)) == goal
        decreases !exited, H.Active(queue), |queue|
      {
        ProcessInotifyEvents(readBufferSize);
      }
    }
  }
}
