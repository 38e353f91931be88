/**
 A server's table of polled descriptors: the pass over the ready ones, the
 in-place compaction, and what is opened and closed over whole runs.
 */
module PollTable {
  const MAX_FDS: nat := 200
  const POLLIN := 1

  datatype PollFd = PollFd(fd: int, events: int, revents: int)

  /** recv(), and for data whether send() echoed it. */
  datatype Recv = WouldBlock | RecvFailed | Eof | Data(sent: bool)

  /** What poll() finds and what the calls of that pass return. */
  datatype Poll =
    | Failed
    | TimedOut
    | Ready(revents: seq<int>, accepts: seq<int>, acceptFailed: bool, recvs: seq<Recv>)

  datatype Act = Opened(fd: int) | Closed(fd: int)

  function Without(s: seq<int>, x: int): seq<int> {
    if s == [] then []
    else if s[0] == x then Without(s[1..], x)
    else [s[0]] + Without(s[1..], x)
  }

  function Did(open: seq<int>, act: Act): seq<int> {
    match act
    case Opened(fd) => open + [fd]
    case Closed(fd) => Without(open, fd)
  }

  /** The descriptors open, in the order they were opened, after `acts`. */
  function Apply(open: seq<int>, acts: seq<Act>): seq<int>
    decreases |acts|
  {
    if acts == [] then open else Apply(Did(open, acts[0]), acts[1..])
  }

  /** Only descriptors not open are opened, and only open ones are closed. */
  ghost predicate Legal(open: seq<int>, acts: seq<Act>)
    decreases |acts|
  {
    acts == [] || (May(open, acts[0]) && Legal(Did(open, acts[0]), acts[1..]))
  }

  predicate May(open: seq<int>, act: Act) {
    match act
    case Opened(fd) => fd >= 0 && fd !in open
    case Closed(fd) => fd in open
  }

  // ----- one pass -----

  ghost predicate Distinct(s: seq<int>) {
    forall i, j :: 0 <= i < j < |s| ==> s[i] != s[j]
  }

  /** The table between passes: the listening socket, then the connections. */
  ghost predicate Table(listen: int, table: seq<int>) {
    table != [] && table[0] == listen && Distinct(table) && forall i :: 0 <= i < |table| ==> table[i] >= 0
  }

  /** The kernel reports on every entry, and accept() returns descriptors that are not in use. */
  ghost predicate Possible(table: seq<int>, p: Poll) {
    && p.Ready?
    && |p.revents| == |p.recvs| == |table|
    && Distinct(p.accepts) && forall i :: 0 <= i < |p.accepts| ==> p.accepts[i] >= 0 && p.accepts[i] !in table
  }

  predicate CloseConn(r: Recv) {
    r.RecvFailed? || r.Eof? || r == Data(false)
  }

  function Openings(fds: seq<int>): (r: seq<Act>)
    ensures |r| == |fds|
  {
    seq(|fds|, i requires 0 <= i < |fds| => Opened(fds[i]))
  }

  /** The descriptors opened and closed by the scan from entry `i` on; it stops at an unexpected event. */
  function ScanLog(listen: int, table: seq<int>, p: Poll, i: nat := 0): seq<Act>
    requires p.Ready? && |p.revents| == |p.recvs| == |table| && i <= |table|
    decreases |table| - i
  {
    if i == |table| || (p.revents[i] != 0 && p.revents[i] != POLLIN) then []
    else
      (if p.revents[i] == 0 then []
       else if table[i] == listen then Openings(p.accepts)
       else if CloseConn(p.recvs[i]) then [Closed(table[i])]
       else [])
      + ScanLog(listen, table, p, i + 1)
  }

  predicate Ends(listen: int, table: seq<int>, p: Poll, i: nat := 0)
    requires p.Ready? && |p.revents| == |p.recvs| == |table| && i <= |table|
    decreases |table| - i
  {
    i < |table| &&
    ((p.revents[i] != 0 && p.revents[i] != POLLIN)
     || (p.revents[i] == POLLIN && table[i] == listen && p.acceptFailed)
     || Ends(listen, table, p, i + 1))
  }

  // ----- lemmas about Without, Apply and Legal -----

  lemma {:induction false} WithoutConcat(a: seq<int>, b: seq<int>, x: int)
    ensures Without(a + b, x) == Without(a, x) + Without(b, x)
  {
    if a == [] {
      assert a + b == b;
    } else {
      assert (a + b)[1..] == a[1..] + b;
      WithoutConcat(a[1..], b, x);
    }
  }

  lemma {:induction false} WithoutNone(s: seq<int>, x: int)
    requires x !in s
    ensures Without(s, x) == s
  {
    if s != [] { WithoutNone(s[1..], x); }
  }

  lemma {:induction false} WithoutHas(s: seq<int>, x: int, y: int)
    ensures y in Without(s, x) <==> y in s && y != x
  {
    if s != [] { WithoutHas(s[1..], x, y); }
  }

  lemma WithoutMiddle(a: seq<int>, x: int, b: seq<int>, y: int)
    ensures Without(a + [x] + b, y) == Without(a, y) + (if x == y then [] else [x]) + Without(b, y)
  {
    WithoutConcat(a + [x], b, y);
    WithoutConcat(a, [x], y);
    assert Without([x], y) == if x == y then [] else [x];
  }

  lemma {:induction false} ApplyConcat(open: seq<int>, a: seq<Act>, b: seq<Act>)
    ensures Apply(open, a + b) == Apply(Apply(open, a), b)
    ensures Legal(open, a + b) <==> Legal(open, a) && Legal(Apply(open, a), b)
    decreases |a|
  {
    if a == [] {
      assert a + b == b;
    } else {
      assert (a + b)[1..] == a[1..] + b;
      ApplyConcat(Did(open, a[0]), a[1..], b);
    }
  }

  lemma {:induction false} OpeningsApplied(open: seq<int>, fds: seq<int>)
    requires Distinct(fds) && forall i :: 0 <= i < |fds| ==> fds[i] >= 0 && fds[i] !in open
    ensures Apply(open, Openings(fds)) == open + fds && Legal(open, Openings(fds))
    decreases |fds|
  {
    if fds == [] {
      assert open + fds == open;
    } else {
      var acts := Openings(fds);
      assert acts[1..] == Openings(fds[1..]);
      OpeningsApplied(open + [fds[0]], fds[1..]);
      assert open + [fds[0]] + fds[1..] == open + fds;
    }
  }

  // ----- what a pass keeps -----

  /** Whether the scan closes the connection at entry `i`. */
  predicate Drops(p: Poll, i: nat)
    requires p.Ready? && i < |p.revents| == |p.recvs|
  {
    p.revents[i] == POLLIN && CloseConn(p.recvs[i]) && forall j :: 0 <= j < i ==> p.revents[j] == 0 || p.revents[j] == POLLIN
  }

  /** The connections from entry `i` on that the scan leaves open, in order. */
  function Kept(table: seq<int>, p: Poll, i: nat): seq<int>
    requires p.Ready? && |p.revents| == |p.recvs| == |table| && i <= |table|
    decreases |table| - i
  {
    if i == |table| then [] else (if Drops(p, i) then [] else [table[i]]) + Kept(table, p, i + 1)
  }

  lemma {:induction false} KeptHas(table: seq<int>, p: Poll, i: nat, x: int)
    requires p.Ready? && |p.revents| == |p.recvs| == |table| && i <= |table|
    ensures x in Kept(table, p, i) ==> x in table[i..]
    decreases |table| - i
  {
    if i < |table| { KeptHas(table, p, i + 1, x); }
  }

  lemma {:induction false} KeptAll(table: seq<int>, p: Poll, i: nat, stop: nat)
    requires p.Ready? && |p.revents| == |p.recvs| == |table| && stop <= i <= |table|
    requires stop < |table| && p.revents[stop] != 0 && p.revents[stop] != POLLIN
    ensures Kept(table, p, i) == table[i..]
    decreases |table| - i
  {
    if i < |table| { KeptAll(table, p, i + 1, stop); }
  }

  /** No entry before `i` had an unexpected event. */
  ghost predicate Calm(p: Poll, i: nat)
    requires p.Ready? && i <= |p.revents|
  {
    forall j :: 0 <= j < i ==> p.revents[j] == 0 || p.revents[j] == POLLIN
  }

  /** What the scan does at an entry other than the first. */
  lemma ScanStep(listen: int, table: seq<int>, p: Poll, i: nat)
    requires Table(listen, table) && Possible(table, p) && 0 < i < |table| && Calm(p, i)
    ensures var dropped := Drops(p, i);
      && Kept(table, p, i) == (if dropped then [] else [table[i]]) + Kept(table, p, i + 1)
      && if Calm(p, i + 1) then
           ScanLog(listen, table, p, i) == (if dropped then [Closed(table[i])] else []) + ScanLog(listen, table, p, i + 1)
         else
           ScanLog(listen, table, p, i) == [] && Kept(table, p, i) == table[i..]
  {
    assert table[i] != listen;
    if !Calm(p, i + 1) { KeptAll(table, p, i, i); }
  }

  lemma OthersDiffer(table: seq<int>, i: nat)
    requires Distinct(table) && i < |table|
    ensures table[i] !in table[i + 1..] && table[i..] == [table[i]] + table[i + 1..]
  {
  }

  lemma CloseOne(before: seq<int>, x: int, rest: seq<int>, after: seq<int>, acts: seq<Act>)
    requires x !in before && x !in rest && x !in after
    ensures var open, left := before + ([x] + rest) + after, before + rest + after;
      Apply(open, [Closed(x)] + acts) == Apply(left, acts) && (Legal(open, [Closed(x)] + acts) <==> Legal(left, acts))
  {
    Dropped(before, x, rest + after);
    assert before + ([x] + rest) + after == before + [x] + (rest + after);
    assert before + (rest + after) == before + rest + after;
    assert ([Closed(x)] + acts)[1..] == acts;
    assert (before + [x])[|before|] == x;
    hide Without;
  }

  lemma Dropped(before: seq<int>, x: int, rest: seq<int>)
    requires x !in before && x !in rest
    ensures Without(before + [x] + rest, x) == before + rest
  {
    hide Without;
    WithoutMiddle(before, x, rest, x);
    WithoutNone(before, x);
    WithoutNone(rest, x);
    assert before + [] + rest == before + rest;
  }

  lemma Shifted(before: seq<int>, x: int, rest: seq<int>, after: seq<int>)
    ensures before + ([x] + rest) + after == before + [x] + rest + after
  {
  }

  /** From entry `i > 0` on, the scan only closes connections, and leaves the others in order. */
  lemma {:induction false} RestScanned(listen: int, table: seq<int>, p: Poll, i: nat, before: seq<int>, after: seq<int>)
    requires Table(listen, table) && Possible(table, p) && 0 < i <= |table| && Calm(p, i)
    requires forall x :: x in before || x in after ==> x !in table[i..]
    ensures var acts := ScanLog(listen, table, p, i); var open := before + table[i..] + after;
      Legal(open, acts) && Apply(open, acts) == before + Kept(table, p, i) + after
    decreases |table| - i
  {
    hide Apply; hide Legal; hide Distinct; hide Without; hide Drops; hide Calm;
    if i == |table| {
      assert table[i..] == [];
      Nothing(before + [] + after);
    } else {
      var x, rest := table[i], table[i + 1..];
      OthersDiffer(table, i);
      ScanStep(listen, table, p, i);
      var acts := ScanLog(listen, table, p, i + 1);
      hide ScanLog; hide Kept; hide Table;
      if !Calm(p, i + 1) {
        Nothing(before + table[i..] + after);
      } else if Drops(p, i) {
        CloseOne(before, x, rest, after, acts);
        RestScanned(listen, table, p, i + 1, before, after);
        assert [] + Kept(table, p, i + 1) == Kept(table, p, i + 1);
      } else {
        Shifted(before, x, rest, after);
        Shifted(before, x, Kept(table, p, i + 1), after);
        RestScanned(listen, table, p, i + 1, before + [x], after);
        assert [] + acts == acts;
      }
    }
  }

  lemma Nothing(open: seq<int>)
    ensures Apply(open, []) == open && Legal(open, [])
  {
  }

  /** What accept() returned in this pass; nothing unless the listening socket was ready. */
  function Accepted(p: Poll): seq<int>
    requires p.Ready? && p.revents != []
  {
    if p.revents[0] == POLLIN then p.accepts else []
  }

  /**
   A pass opens and closes only what it may, and afterwards the open descriptors
   are the listening socket, the connections not dropped in their order, and
   the new ones in the order of their acceptance.
   */
  lemma PassExact(listen: int, table: seq<int>, p: Poll)
    requires Table(listen, table) && Possible(table, p)
    ensures var acts := ScanLog(listen, table, p); var after := Apply(table, acts);
      Legal(table, acts) && after == [listen] + Kept(table, p, 1) + Accepted(p) && Table(listen, after)
  {
    var acts := ScanLog(listen, table, p);
    var a := Accepted(p);
    assert table == [listen] + table[1..];
    if p.revents[0] != 0 && p.revents[0] != POLLIN {
      KeptAll(table, p, 1, 0);
      assert table + [] == table;
    } else {
      OpeningsApplied(table, a);
      ApplyConcat(table, Openings(a), ScanLog(listen, table, p, 1));
      assert acts == Openings(a) + ScanLog(listen, table, p, 1);
      RestScanned(listen, table, p, 1, [listen], a);
    }
    KeptTable(listen, table, p);
  }

  lemma {:induction false} KeptHolds(table: seq<int>, p: Poll, i: nat, j: nat)
    requires p.Ready? && |p.revents| == |p.recvs| == |table| && i <= j < |table| && Distinct(table)
    ensures table[j] in Kept(table, p, i) <==> !Drops(p, j)
    decreases |table| - i
  {
    if i == j {
      KeptHas(table, p, i + 1, table[i]);
    } else {
      KeptHolds(table, p, i + 1, j);
    }
  }

  /**
   What becomes of a connection in a pass, told by what recv() and send() gave:
   one that was readable, with nothing unexpected before it, stays open exactly
   when there was nothing to read or the data was echoed; any other stays open.
   */
  lemma ConnectionStays(listen: int, table: seq<int>, p: Poll, i: nat)
    requires Table(listen, table) && Possible(table, p) && 0 < i < |table|
    ensures var after := Apply(table, ScanLog(listen, table, p));
      if p.revents[i] == POLLIN && forall j :: 0 <= j < i ==> p.revents[j] == 0 || p.revents[j] == POLLIN then
        table[i] in after <==> p.recvs[i] == WouldBlock || p.recvs[i] == Data(true)
      else table[i] in after
  {
    PassExact(listen, table, p);
    KeptHolds(table, p, 1, i);
    assert table[i] != listen && table[i] !in Accepted(p);
    hide ScanLog; hide Apply; hide Kept; hide Legal;
  }

  /** A pass ends the server exactly when it meets an unexpected event, or accept() fails otherwise than by having no more. */
  lemma {:induction false} EndsExactly(listen: int, table: seq<int>, p: Poll, i: nat)
    requires Table(listen, table) && Possible(table, p) && i <= |table|
    ensures Ends(listen, table, p, i) <==>
      (exists j :: i <= j < |table| && p.revents[j] != 0 && p.revents[j] != POLLIN)
      || (i == 0 && p.revents[0] == POLLIN && p.acceptFailed)
    decreases |table| - i
  {
    if i < |table| { EndsExactly(listen, table, p, i + 1); }
  }

  lemma {:induction false} KeptDistinct(table: seq<int>, p: Poll, i: nat)
    requires Distinct(table) && p.Ready? && |p.revents| == |p.recvs| == |table| && i <= |table|
    ensures Distinct(Kept(table, p, i))
    decreases |table| - i
  {
    if i < |table| {
      KeptDistinct(table, p, i + 1);
      KeptHas(table, p, i + 1, table[i]);
      var rest := Kept(table, p, i + 1);
      assert forall k :: 0 <= k < |rest| ==> rest[k] in rest;
    }
  }

  lemma KeptTable(listen: int, table: seq<int>, p: Poll)
    requires Table(listen, table) && Possible(table, p)
    ensures Table(listen, [listen] + Kept(table, p, 1) + Accepted(p))
  {
    var kept, a := Kept(table, p, 1), Accepted(p);
    KeptDistinct(table, p, 1);
    forall k | 0 <= k < |kept| ensures kept[k] in table[1..] {
      KeptHas(table, p, 1, kept[k]);
    }
    assert forall k :: 0 <= k < |kept| ==> kept[k] in table && kept[k] != listen;
  }

  // ----- whole runs -----

  function Closings(fds: seq<int>): (r: seq<Act>)
    ensures |r| == |fds|
  {
    seq(|fds|, i requires 0 <= i < |fds| => Closed(fds[i]))
  }

  /** Entries fit below MAX_FDS; compaction reads one entry past the last. */
  ghost predicate Fits(listen: int, table: seq<int>, p: Poll)
    requires Table(listen, table) && Possible(table, p)
  {
    var n := |table| + |Accepted(p)|;
    if AnyDrop(p, |table|) then n < MAX_FDS else n <= MAX_FDS
  }

  /** What the kernel does is possible, and the table is large enough, in every pass of the run. */
  ghost predicate PossibleRun(listen: int, table: seq<int>, polls: seq<Poll>)
    requires Table(listen, table)
    decreases |polls|
  {
    polls == [] || !polls[0].Ready? ||
    (Possible(table, polls[0]) && Fits(listen, table, polls[0]) &&
     (PassExact(listen, table, polls[0]);
      Ends(listen, table, polls[0]) || PossibleRun(listen, Apply(table, ScanLog(listen, table, polls[0])), polls[1..])))
  }

  /**
   Everything opened and closed from a table on; the run ends at an unexpected
   event, a failure, or a timeout, which also stands for the end of `polls`.
   */
  ghost function RunLog(listen: int, table: seq<int>, polls: seq<Poll>): seq<Act>
    requires Table(listen, table) && PossibleRun(listen, table, polls)
    decreases |polls|
  {
    if polls == [] || !polls[0].Ready? then Closings(table)
    else
      PassExact(listen, table, polls[0]);
      var acts := ScanLog(listen, table, polls[0]);
      var after := Apply(table, acts);
      acts + if Ends(listen, table, polls[0]) then Closings(after) else RunLog(listen, after, polls[1..])
  }

  lemma {:induction false} ClosingsApplied(fds: seq<int>)
    requires Distinct(fds)
    ensures Apply(fds, Closings(fds)) == [] && Legal(fds, Closings(fds))
    decreases |fds|
  {
    if fds != [] {
      var acts := Closings(fds);
      assert acts[0] == Closed(fds[0]) && acts[1..] == Closings(fds[1..]);
      WithoutNone(fds[1..], fds[0]);
      assert Did(fds, acts[0]) == [] + fds[1..] == fds[1..];
      ClosingsApplied(fds[1..]);
    }
  }

  /** Over any whole run only open descriptors are closed, and in the end none is left open. */
  lemma {:induction false} RunBalanced(listen: int, table: seq<int>, polls: seq<Poll>)
    requires Table(listen, table) && PossibleRun(listen, table, polls)
    ensures Legal(table, RunLog(listen, table, polls)) && Apply(table, RunLog(listen, table, polls)) == []
    decreases |polls|
  {
    if polls == [] || !polls[0].Ready? {
      ClosingsApplied(table);
    } else {
      PassExact(listen, table, polls[0]);
      var acts := ScanLog(listen, table, polls[0]);
      var after := Apply(table, acts);
      hide Apply; hide Legal; hide ScanLog; hide Possible; hide Fits; hide Ends;
      if Ends(listen, table, polls[0]) {
        ClosingsApplied(after);
        ApplyConcat(table, acts, Closings(after));
      } else {
        RunBalanced(listen, after, polls[1..]);
        ApplyConcat(table, acts, RunLog(listen, after, polls[1..]));
      }
    }
  }

  function Times(acts: seq<Act>, act: Act): nat {
    if acts == [] then 0 else (if acts[0] == act then 1 else 0) + Times(acts[1..], act)
  }

  /** A descriptor is open exactly when it was opened once more than it was closed. */
  lemma {:induction false} OpenCount(open: seq<int>, acts: seq<Act>, fd: int)
    requires Legal(open, acts)
    ensures (if fd in open then 1 else 0) + Times(acts, Opened(fd))
      == Times(acts, Closed(fd)) + if fd in Apply(open, acts) then 1 else 0
    decreases |acts|
  {
    if acts != [] {
      OpenCount(Did(open, acts[0]), acts[1..], fd);
      if acts[0].Closed? { WithoutHas(open, acts[0].fd, fd); }
    }
  }

  /** Each descriptor is closed as often as it was opened, the listening socket counted as opened at the start. */
  lemma EachClosedOnce(listen: int, polls: seq<Poll>, fd: int)
    requires listen >= 0 && PossibleRun(listen, [listen], polls)
    ensures var acts := [Opened(listen)] + RunLog(listen, [listen], polls); Times(acts, Opened(fd)) == Times(acts, Closed(fd))
  {
    var acts := RunLog(listen, [listen], polls);
    RunBalanced(listen, [listen], polls);
    assert ([Opened(listen)] + acts)[1..] == acts && [] + [listen] == [listen];
    OpenCount([], [Opened(listen)] + acts, fd);
  }

  lemma {:induction false} DropOne(before: seq<int>, after: seq<int>, i: nat)
    requires i < |before| == |after| + 1 && before[i] == -1
    requires forall k :: 0 <= k < |after| ==> after[k] == before[if k < i then k else k + 1]
    ensures Without(after, -1) == Without(before, -1)
  {
    if i == 0 {
      assert after == before[1..];
    } else {
      DropOne(before[1..], after[1..], i - 1);
    }
  }

  /** What the scan does at entry `i`, split off the front of its log. */
  ghost function Entry(listen: int, table: seq<int>, p: Poll, i: nat): (r: seq<Act>)
    requires Table(listen, table) && Possible(table, p) && i < |table| && Calm(p, i + 1)
    ensures ScanLog(listen, table, p, i) == r + ScanLog(listen, table, p, i + 1)
    ensures p.revents[i] == 0 ==> r == [] && !Drops(p, i)
  {
    if p.revents[i] == 0 then []
    else if i == 0 then Openings(p.accepts)
    else if Drops(p, i) then [Closed(table[i])]
    else []
  }

  function Descriptors(entries: seq<PollFd>): (r: seq<int>)
    ensures |r| == |entries| && forall i :: 0 <= i < |r| ==> r[i] == entries[i].fd
  {
    seq(|entries|, i requires 0 <= i < |entries| => entries[i].fd)
  }

  /** The entries during the scan, `i` of them visited; connections accepted are at the end. */
  ghost predicate Scanned(entries: seq<PollFd>, table: seq<int>, p: Poll, i: nat, accepts: seq<int>) {
    && Possible(table, p) && |entries| == |table| + |accepts| && i <= |table|
    && (forall k :: 0 <= k < |table| ==> entries[k].fd == if 0 < k < i && Drops(p, k) then -1 else table[k])
    && (forall k :: 0 <= k < |accepts| ==> entries[|table| + k].fd == accepts[k])
    && (forall k :: i <= k < |table| ==> entries[k].revents == p.revents[k])
  }

  lemma Unvisited(entries: seq<PollFd>, table: seq<int>, p: Poll, i: nat, accepts: seq<int>)
    requires Scanned(entries, table, p, i, accepts) && i < |table|
    ensures i < |entries| && entries[i].revents == p.revents[i] && entries[i].fd == table[i]
  {
  }

  lemma Skipped(entries: seq<PollFd>, table: seq<int>, p: Poll, i: nat)
    requires Possible(table, p) && i < |table| && p.revents[i] == 0
    requires Scanned(entries, table, p, i, if i == 0 then [] else Accepted(p))
    ensures Scanned(entries, table, p, i + 1, Accepted(p)) && !Drops(p, i)
  {
  }

  lemma AcceptedScanned(before: seq<PollFd>, after: seq<PollFd>, table: seq<int>, p: Poll)
    requires Possible(table, p) && table != [] && p.revents[0] == POLLIN && Scanned(before, table, p, 0, [])
    requires |after| == |before| + |p.accepts| && after[..|before|] == before
    requires forall k :: 0 <= k < |p.accepts| ==> after[|before| + k].fd == p.accepts[k]
    ensures Scanned(after, table, p, 1, Accepted(p))
  {
    hide Drops;
    assert forall k :: 0 <= k < |before| ==> after[k] == before[k];
  }

  lemma ClosedScanned(before: seq<PollFd>, table: seq<int>, p: Poll, i: nat)
    requires Possible(table, p) && 0 < i < |table| && Drops(p, i) && Scanned(before, table, p, i, Accepted(p))
    ensures i < |before| && Scanned(before[i := before[i].(fd := -1)], table, p, i + 1, Accepted(p))
  {
    hide Drops; hide Accepted;
  }

  lemma LeftScanned(entries: seq<PollFd>, table: seq<int>, p: Poll, i: nat)
    requires Possible(table, p) && 0 < i < |table| && !Drops(p, i) && Scanned(entries, table, p, i, Accepted(p))
    ensures Scanned(entries, table, p, i + 1, Accepted(p))
  {
    hide Drops; hide Accepted;
  }

  /** What the scan does with a readable entry. */
  lemma ReadableEntry(listen: int, table: seq<int>, p: Poll, i: nat)
    requires Table(listen, table) && Possible(table, p) && i < |table| && p.revents[i] == POLLIN && Calm(p, i)
    ensures (table[i] == listen) == (i == 0) && Drops(p, i) == CloseConn(p.recvs[i]) && Calm(p, i + 1)
    ensures Entry(listen, table, p, i) == if i == 0 then Openings(p.accepts) else if Drops(p, i) then [Closed(table[i])] else []
  {
  }

  /** When the listening socket is readable, the new connections fit. */
  lemma Room(listen: int, table: seq<int>, p: Poll, entries: seq<PollFd>, i: nat)
    requires Table(listen, table) && Possible(table, p) && Fits(listen, table, p) && i < |table| && p.revents[i] == POLLIN
    requires Scanned(entries, table, p, i, if i == 0 then [] else Accepted(p))
    ensures i == 0 ==> |entries| + |p.accepts| <= MAX_FDS
  {
  }

  lemma EntryQuiet(listen: int, table: seq<int>, p: Poll, i: nat)
    requires Table(listen, table) && Possible(table, p) && i < |table| && p.revents[i] == 0 && Calm(p, i + 1)
    ensures Entry(listen, table, p, i) == [] && !Drops(p, i)
  {
  }

  /** Some connection before entry `i` is closed by the scan. */
  ghost predicate AnyDrop(p: Poll, i: nat)
    requires p.Ready? && i <= |p.revents| == |p.recvs|
  {
    exists k :: 0 < k < i && Drops(p, k)
  }

  lemma NoDrop(p: Poll)
    requires p.Ready? && |p.revents| == |p.recvs|
    ensures !AnyDrop(p, 0)
  {
  }

  lemma MoreDrops(p: Poll, i: nat)
    requires p.Ready? && i < |p.revents| == |p.recvs|
    ensures AnyDrop(p, i + 1) <==> AnyDrop(p, i) || (i > 0 && Drops(p, i))
  {
  }

  lemma CalmOn(p: Poll, i: nat)
    requires p.Ready? && i < |p.revents| && Calm(p, i)
    ensures Calm(p, i + 1) <==> p.revents[i] == 0 || p.revents[i] == POLLIN
  {
  }

  lemma LogOn(log: seq<Act>, acts: seq<Act>, rest: seq<Act>)
    ensures log + (acts + rest) == log + acts + rest
  {
  }

  lemma EndsStep(listen: int, table: seq<int>, p: Poll, i: nat)
    requires Table(listen, table) && Possible(table, p) && i < |table| && Calm(p, i + 1)
    ensures Ends(listen, table, p, i) == ((i == 0 && p.revents[0] == POLLIN && p.acceptFailed) || Ends(listen, table, p, i + 1))
  {
  }

  lemma ScanStops(listen: int, table: seq<int>, p: Poll, i: nat, entries: seq<PollFd>)
    requires Table(listen, table) && Possible(table, p) && i < |table| && p.revents[i] != 0 && p.revents[i] != POLLIN
    requires Scanned(entries, table, p, i, if i == 0 then [] else Accepted(p))
    ensures ScanLog(listen, table, p, i) == [] && Ends(listen, table, p, i) && (AnyDrop(p, |table|) <==> AnyDrop(p, i))
    ensures Scanned(entries, table, p, |table|, Accepted(p))
  {
  }

  /** What a scan keeps beside the table: what it opened and closed, and its two flags. */
  datatype Tally = Tally(log: seq<Act>, ended: bool, compress: bool)

  /** The tally at entry `i`, when it was `t0` at the start. */
  ghost predicate Tallied(listen: int, table: seq<int>, p: Poll, i: nat, t0: Tally, t: Tally)
    requires Possible(table, p) && i <= |table|
  {
    && t.log + ScanLog(listen, table, p, i) == t0.log + ScanLog(listen, table, p)
    && (t.ended || Ends(listen, table, p, i)) == (t0.ended || Ends(listen, table, p))
    && t.compress == (t0.compress || AnyDrop(p, i))
  }

  /** The tally once the scan is over. */
  ghost predicate Final(listen: int, table: seq<int>, p: Poll, t0: Tally, t: Tally)
    requires Possible(table, p)
  {
    t == Tally(t0.log + ScanLog(listen, table, p), t0.ended || Ends(listen, table, p), t0.compress || AnyDrop(p, |table|))
  }

  lemma TallyStarts(listen: int, table: seq<int>, p: Poll, t0: Tally)
    requires Possible(table, p)
    ensures Tallied(listen, table, p, 0, t0, t0)
  {
    NoDrop(p);
  }

  lemma TallyGoesOn(listen: int, table: seq<int>, p: Poll, i: nat, t0: Tally, t: Tally, t': Tally)
    requires Table(listen, table) && Possible(table, p) && i < |table| && Calm(p, i + 1) && Tallied(listen, table, p, i, t0, t)
    requires t'.log == t.log + Entry(listen, table, p, i)
    requires t'.ended == (t.ended || (i == 0 && p.revents[0] == POLLIN && p.acceptFailed))
    requires t'.compress == (t.compress || (i > 0 && Drops(p, i)))
    ensures Tallied(listen, table, p, i + 1, t0, t')
  {
    EndsStep(listen, table, p, i);
    MoreDrops(p, i);
    LogOn(t.log, Entry(listen, table, p, i), ScanLog(listen, table, p, i + 1));
    hide ScanLog; hide Ends; hide Drops; hide AnyDrop; hide Entry;
  }

  lemma TallyStops(listen: int, table: seq<int>, p: Poll, i: nat, entries: seq<PollFd>, t0: Tally, t: Tally)
    requires Table(listen, table) && Possible(table, p) && i < |table| && p.revents[i] != 0 && p.revents[i] != POLLIN
    requires Scanned(entries, table, p, i, if i == 0 then [] else Accepted(p)) && Tallied(listen, table, p, i, t0, t)
    ensures Scanned(entries, table, p, |table|, Accepted(p)) && Final(listen, table, p, t0, t.(ended := true))
  {
    ScanStops(listen, table, p, i, entries);
    hide ScanLog; hide Ends; hide Drops; hide AnyDrop; hide Scanned;
    assert t.log + [] == t.log;
  }

  lemma TallyEnds(listen: int, table: seq<int>, p: Poll, t0: Tally, t: Tally)
    requires Table(listen, table) && Possible(table, p) && Tallied(listen, table, p, |table|, t0, t)
    ensures Final(listen, table, p, t0, t)
  {
    ScanDone(listen, table, p);
    hide ScanLog; hide Ends; hide AnyDrop;
    assert t.log + [] == t.log;
  }

  lemma ScanDone(listen: int, table: seq<int>, p: Poll)
    requires Table(listen, table) && Possible(table, p)
    ensures ScanLog(listen, table, p, |table|) == [] && !Ends(listen, table, p, |table|)
  {
  }

  lemma {:induction false} MarkedKept(table: seq<int>, p: Poll, i: nat, s: seq<int>)
    requires p.Ready? && |p.revents| == |p.recvs| == |table| && i <= |table| && |s| == |table| - i
    requires forall k :: 0 <= k < |table| ==> table[k] >= 0
    requires forall k :: 0 <= k < |s| ==> s[k] == if Drops(p, i + k) then -1 else table[i + k]
    ensures Without(s, -1) == Kept(table, p, i)
    decreases |s|
  {
    hide Drops;
    if s != [] { MarkedKept(table, p, i + 1, s[1..]); }
  }

  /** `s` is the table after a scan: dropped connections are marked, new ones are at the end. */
  ghost predicate Marks(table: seq<int>, p: Poll, s: seq<int>)
    requires Possible(table, p) && table != []
  {
    && |s| == |table| + |Accepted(p)| && s[|table|..] == Accepted(p)
    && forall k :: 0 <= k < |table| ==> s[k] == if 0 < k && Drops(p, k) then -1 else table[k]
  }

  lemma ScannedMarks(entries: seq<PollFd>, table: seq<int>, p: Poll)
    requires Possible(table, p) && table != [] && Scanned(entries, table, p, |table|, Accepted(p))
    ensures Marks(table, p, Descriptors(entries))
  {
  }

  lemma MarksParts(listen: int, table: seq<int>, p: Poll, s: seq<int>) returns (middle: seq<int>)
    requires Table(listen, table) && Possible(table, p) && Marks(table, p, s)
    ensures s == [listen] + middle + Accepted(p) && listen != -1
    ensures Without(middle, -1) == Kept(table, p, 1) && -1 !in Accepted(p)
  {
    middle := s[1..|table|];
    MarkedKept(table, p, 1, middle);
  }

  lemma WithoutParts(x: int, middle: seq<int>, last: seq<int>)
    requires x != -1 && -1 !in last
    ensures Without([x] + middle + last, -1) == [x] + Without(middle, -1) + last
  {
    hide Without;
    WithoutConcat([x] + middle, last, -1);
    WithoutConcat([x], middle, -1);
    WithoutNone([x], -1);
    WithoutNone(last, -1);
  }

  /** Once its marks are dropped, the scanned table is what the pass should leave. */
  lemma ScannedLeaves(listen: int, table: seq<int>, p: Poll, s: seq<int>)
    requires Table(listen, table) && Possible(table, p) && Marks(table, p, s)
    ensures Without(s, -1) == Apply(table, ScanLog(listen, table, p)) && Table(listen, Without(s, -1))
  {
    PassExact(listen, table, p);
    var middle := MarksParts(listen, table, p, s);
    var a := Accepted(p);
    hide *;
    WithoutParts(listen, middle, a);
  }

  lemma MarksMeanDrops(listen: int, table: seq<int>, p: Poll, s: seq<int>)
    requires Table(listen, table) && Possible(table, p) && Marks(table, p, s)
    ensures s[0] == listen >= 0 && (-1 in s ==> AnyDrop(p, |table|))
  {
  }

  /** What is left to happen after one more pass. */
  lemma RunStep(listen: int, table: seq<int>, polls: seq<Poll>, k: nat, log: seq<Act>, rest: seq<Act>) returns (rest': seq<Act>)
    requires Table(listen, table) && k < |polls| && polls[k].Ready? && PossibleRun(listen, table, polls[k..])
    requires rest == RunLog(listen, table, polls[k..])
    ensures Possible(table, polls[k]) && Fits(listen, table, polls[k])
    ensures var acts := ScanLog(listen, table, polls[k]); var after := Apply(table, acts);
      && Table(listen, after) && log + rest == log + acts + rest'
      && if Ends(listen, table, polls[k]) then rest' == Closings(after)
         else PossibleRun(listen, after, polls[k + 1..]) && rest' == RunLog(listen, after, polls[k + 1..])
  {
    PassExact(listen, table, polls[k]);
    assert polls[k..][0] == polls[k] && polls[k..][1..] == polls[k + 1..];
    var acts := ScanLog(listen, table, polls[k]);
    rest' := rest[|acts|..];
    assert log + rest == log + acts + rest';
  }

  lemma RunEnds(listen: int, table: seq<int>, polls: seq<Poll>, k: nat)
    requires Table(listen, table) && k <= |polls| && (k < |polls| ==> !polls[k].Ready?)
    ensures PossibleRun(listen, table, polls[k..]) && RunLog(listen, table, polls[k..]) == Closings(table)
  {
  }

  lemma TableReal(listen: int, table: seq<int>)
    requires Table(listen, table)
    ensures forall i :: 0 <= i < |table| ==> table[i] >= 0
  {
  }

  class Server {
    const listenSd: int
    const fds: array<PollFd>
    var nfds: nat
    var endServer: bool
    var compressArray: bool
    ghost var log: seq<Act>  // every descriptor opened and closed

    ghost predicate Valid()
      reads this`nfds, fds
    {
      fds.Length == MAX_FDS && 0 < nfds <= MAX_FDS && forall i :: 0 <= i < nfds ==> fds[i].events == POLLIN
    }

    ghost function Fds(): (r: seq<int>)
      requires nfds <= fds.Length
      reads this`nfds, fds
      ensures |r| == nfds
    {
      Descriptors(fds[..nfds])
    }

    constructor (listen: int)
      ensures Valid() && fresh(fds) && listenSd == listen && Fds() == [listen]
      ensures !endServer && compressArray && log == [Opened(listen)]
    {
      listenSd := listen;
      fds := new PollFd[MAX_FDS](_ => PollFd(0, 0, 0));
      nfds := 1;
      endServer := false;
      compressArray := true;
      log := [Opened(listen)];
      new;
      fds[0] := PollFd(listen, POLLIN, 0);
    }

    /** Squeezes the marked entries out of the table, in place. */
    method Compact()
      requires Valid() && (-1 in Fds() ==> nfds < MAX_FDS) && Fds() != [] && Fds()[0] != -1
      modifies this`nfds, fds
      ensures Valid() && Fds() == Without(old(Fds()), -1)
    {
      hide Without; hide Descriptors;
      ghost var before := Fds();
      var i := 0;
      while i < nfds
        invariant Valid() && 0 <= i <= nfds <= old(nfds)
        invariant forall k :: 0 <= k < i ==> fds[k].fd != -1
        invariant Without(Fds(), -1) == Without(before, -1)
        invariant nfds < MAX_FDS || (nfds == |before| && Fds() == before)
        invariant fds[0].fd != -1
        decreases nfds - i
      {
        if fds[i].fd == -1 {
          ghost var marked := Fds();
          Shift(i);
          nfds := nfds - 1;
          DropOne(marked, Fds(), i);
          i := i - 1;
        }
        i := i + 1;
      }
      assert -1 !in Fds();
      WithoutNone(Fds(), -1);
    }

    method Shift(i: nat)
      requires Valid() && i < nfds < MAX_FDS
      modifies fds
      ensures fds[..i] == old(fds[..i])
      ensures forall k :: i <= k < nfds ==> fds[k].fd == old(fds[k + 1].fd)
      ensures forall k :: 0 <= k < nfds ==> fds[k].events == old(fds[k].events)
    {
      for j := i to nfds
        invariant fds[..i] == old(fds[..i])
        invariant forall k :: i <= k < j ==> fds[k].fd == old(fds[k + 1].fd)
        invariant forall k :: j <= k < fds.Length ==> fds[k] == old(fds[k])
        invariant forall k :: 0 <= k < nfds ==> fds[k].events == old(fds[k].events)
      {
        fds[j] := fds[j].(fd := fds[j + 1].fd);
      }
    }

    /** poll() fills in what happened on each entry. */
    method Poll(revents: seq<int>)
      requires Valid() && |revents| == nfds
      modifies fds
      ensures Valid() && Fds() == old(Fds()) && forall k :: 0 <= k < nfds ==> fds[k].revents == revents[k]
    {
      for j := 0 to nfds
        invariant Valid() && Fds() == old(Fds()) && forall k :: 0 <= k < j ==> fds[k].revents == revents[k]
      {
        fds[j] := fds[j].(revents := revents[j]);
      }
    }

    /** accept() until it fails: every new connection goes to the end of the table. */
    method AcceptAll(accepts: seq<int>, acceptFailed: bool)
      requires Valid() && nfds + |accepts| <= MAX_FDS
      modifies this`nfds, this`endServer, this`log, fds
      ensures Valid() && nfds == old(nfds) + |accepts| && fds[..old(nfds)] == old(fds[..nfds])
      ensures forall k :: 0 <= k < |accepts| ==> fds[old(nfds) + k].fd == accepts[k]
      ensures log == old(log) + Openings(accepts) && endServer == (old(endServer) || acceptFailed)
    {
      for j := 0 to |accepts|
        invariant Valid() && nfds == old(nfds) + j && fds[..old(nfds)] == old(fds[..nfds])
        invariant forall k :: 0 <= k < j ==> fds[old(nfds) + k].fd == accepts[k]
        invariant log == old(log) + Openings(accepts)[..j] && endServer == old(endServer)
      {
        fds[nfds] := fds[nfds].(fd := accepts[j], events := POLLIN);
        nfds := nfds + 1;
        log := log + [Opened(accepts[j])];
      }
      if acceptFailed { endServer := true; }
    }

    /** Entry `i` is readable: accept, or receive and perhaps close. */
    method Readable(ghost table: seq<int>, p: Poll, i: nat)
      requires Valid() && Table(listenSd, table) && Possible(table, p) && Fits(listenSd, table, p) && i < |table| <= nfds
      requires Scanned(fds[..nfds], table, p, i, if i == 0 then [] else Accepted(p)) && p.revents[i] == POLLIN && Calm(p, i)
      modifies this`nfds, this`endServer, this`compressArray, this`log, fds
      ensures Valid() && |table| <= nfds && Scanned(fds[..nfds], table, p, i + 1, Accepted(p))
      ensures log == old(log) + Entry(listenSd, table, p, i)
      ensures endServer == (old(endServer) || (i == 0 && p.acceptFailed))
      ensures compressArray == (old(compressArray) || (i > 0 && Drops(p, i)))
    {
      ghost var before := fds[..nfds];
      Unvisited(before, table, p, i, if i == 0 then [] else Accepted(p));
      ReadableEntry(listenSd, table, p, i);
      Room(listenSd, table, p, before, i);
      hide Drops; hide Distinct; hide CloseConn; hide Calm; hide Openings; hide Scanned; hide Entry; hide Accepted; hide Table; hide Fits;
      if fds[i].fd == listenSd {
        AcceptAll(p.accepts, p.acceptFailed);
        AcceptedScanned(before, fds[..nfds], table, p);
      } else if CloseConn(p.recvs[i]) {
        log := log + [Closed(fds[i].fd)];
        fds[i] := fds[i].(fd := -1);
        compressArray := true;
        ClosedScanned(before, table, p, i);
        assert fds[..nfds] == before[i := before[i].(fd := -1)];
      } else {
        LeftScanned(before, table, p, i);
      }
    }

    ghost function Counts(): Tally
      reads this`log, this`endServer, this`compressArray
    {
      Tally(log, endServer, compressArray)
    }

    /** Entry `i`, which reports nothing unexpected. */
    method Visit(ghost table: seq<int>, p: Poll, i: nat, ghost t0: Tally)
      requires Valid() && Table(listenSd, table) && Possible(table, p) && Fits(listenSd, table, p) && i < |table| <= nfds
      requires Scanned(fds[..nfds], table, p, i, if i == 0 then [] else Accepted(p)) && Calm(p, i + 1)
      requires Tallied(listenSd, table, p, i, t0, Counts())
      modifies this`nfds, this`endServer, this`compressArray, this`log, fds
      ensures Valid() && |table| <= nfds && Scanned(fds[..nfds], table, p, i + 1, Accepted(p))
      ensures Tallied(listenSd, table, p, i + 1, t0, Counts())
    {
      ghost var t := Counts();
      Unvisited(fds[..nfds], table, p, i, if i == 0 then [] else Accepted(p));
      CalmOn(p, i);
      if p.revents[i] == 0 { EntryQuiet(listenSd, table, p, i); }
      hide Fits; hide ScanLog; hide Ends; hide Drops; hide Distinct; hide Openings; hide Entry; hide Scanned; hide Accepted; hide Tallied;
      if fds[i].revents == POLLIN {
        Readable(table, p, i);
      } else {
        Skipped(fds[..nfds], table, p, i);
      }
      TallyGoesOn(listenSd, table, p, i, t0, t, Counts());
    }

    method Scan(p: Poll)
      requires Valid() && Table(listenSd, Fds()) && Possible(Fds(), p) && Fits(listenSd, Fds(), p)
      requires forall k :: 0 <= k < nfds ==> fds[k].revents == p.revents[k]
      modifies this`nfds, this`endServer, this`compressArray, this`log, fds
      ensures Valid() && Scanned(fds[..nfds], old(Fds()), p, |old(Fds())|, Accepted(p))
      ensures Final(listenSd, old(Fds()), p, old(Counts()), Counts())
    {
      ghost var table, t0 := Fds(), Counts();
      var currentSize := nfds;
      var i := 0;
      assert Scanned(fds[..nfds], table, p, 0, []) && Calm(p, 0);
      TallyStarts(listenSd, table, p, t0);
      hide Fits; hide Scanned; hide Accepted; hide Descriptors; hide Tallied; hide Final; hide Distinct; hide Table;
      while i < currentSize
        invariant Valid() && 0 <= i <= currentSize == |table| <= nfds && Calm(p, i)
        invariant Scanned(fds[..nfds], table, p, i, if i == 0 then [] else Accepted(p))
        invariant Tallied(listenSd, table, p, i, t0, Counts())
      {
        Unvisited(fds[..nfds], table, p, i, if i == 0 then [] else Accepted(p));
        CalmOn(p, i);
        if fds[i].revents != 0 && fds[i].revents != POLLIN {
          TallyStops(listenSd, table, p, i, fds[..nfds], t0, Counts());
          endServer := true;
          return;
        }
        Visit(table, p, i, t0);
        i := i + 1;
      }
      TallyEnds(listenSd, table, p, t0, Counts());
    }

    method ScanMarks(p: Poll)
      requires Valid() && Table(listenSd, Fds()) && Possible(Fds(), p) && Fits(listenSd, Fds(), p)
      requires forall k :: 0 <= k < nfds ==> fds[k].revents == p.revents[k]
      modifies this`nfds, this`endServer, this`compressArray, this`log, fds
      ensures Valid() && Marks(old(Fds()), p, Fds())
      ensures -1 in Fds() ==> compressArray && nfds < MAX_FDS
      ensures log == old(log) + ScanLog(listenSd, old(Fds()), p)
      ensures endServer == (old(endServer) || Ends(listenSd, old(Fds()), p))
    {
      ghost var table := Fds();
      Scan(p);
      hide ScanLog; hide Ends; hide Drops; hide Distinct; hide Accepted;
      ScannedMarks(fds[..nfds], table, p);
      MarksMeanDrops(listenSd, table, p, Fds());
    }

    /** A pass after poll(): scan, and compaction if an entry was ever marked. */
    method Pass(p: Poll)
      requires Valid() && Table(listenSd, Fds()) && Possible(Fds(), p) && Fits(listenSd, Fds(), p)
      modifies this`nfds, this`endServer, this`compressArray, this`log, fds
      ensures Valid() && Table(listenSd, Fds())
      ensures log == old(log) + ScanLog(listenSd, old(Fds()), p) && Fds() == Apply(old(Fds()), ScanLog(listenSd, old(Fds()), p))
      ensures endServer == (old(endServer) || Ends(listenSd, old(Fds()), p))
    {
      ghost var table := Fds();
      hide Fits;
      Poll(p.revents);
      ScanMarks(p);
      hide ScanLog; hide Apply; hide Ends; hide Drops; hide Distinct; hide Without; hide Accepted;
      hide Marks;
      ScannedLeaves(listenSd, table, p, Fds());
      MarksMeanDrops(listenSd, table, p, Fds());
      if compressArray {
        compressArray := false;
        Compact();
      } else {
        WithoutNone(Fds(), -1);
      }
    }

    /** The server's life, from one listening socket to the last close(). */
    method Serve(polls: seq<Poll>)
      requires Valid() && listenSd >= 0 && Fds() == [listenSd] && !endServer && log == [Opened(listenSd)]
      requires PossibleRun(listenSd, [listenSd], polls)
      modifies this, fds
      ensures log == [Opened(listenSd)] + RunLog(listenSd, [listenSd], polls)
    {
      var k := 0;
      assert polls[0..] == polls;
      ghost var rest := RunLog(listenSd, [listenSd], polls);
      while !endServer
        invariant Valid() && 0 <= k <= |polls| && Table(listenSd, Fds())
        invariant if endServer then rest == Closings(Fds()) else PossibleRun(listenSd, Fds(), polls[k..]) && rest == RunLog(listenSd, Fds(), polls[k..])
        invariant log + rest == [Opened(listenSd)] + RunLog(listenSd, [listenSd], polls)
        decreases |polls| - k
      {
        hide RunLog; hide PossibleRun; hide ScanLog; hide Apply; hide Ends; hide Closings; hide Descriptors; hide Table; hide Possible; hide Fits;
        if k == |polls| || !polls[k].Ready? {
          RunEnds(listenSd, Fds(), polls, k);
          break;
        }
        rest := RunStep(listenSd, Fds(), polls, k, log, rest);
        Pass(polls[k]);
        k := k + 1;
      }
      TableReal(listenSd, Fds());
      CloseAll();
    }

    method CloseAll()
      requires Valid() && forall i :: 0 <= i < nfds ==> Fds()[i] >= 0
      modifies this`log
      ensures log == old(log) + Closings(Fds())
    {
      for i := 0 to nfds
        invariant log == old(log) + Closings(Fds())[..i]
      {
        assert Fds()[i] == fds[i].fd;
        if fds[i].fd >= 0 { log := log + [Closed(fds[i].fd)]; }
      }
    }
  }
}
