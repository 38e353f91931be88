/**
 Reading lines from a descriptor one byte at a time, and through a buffer; the
 buffered reader gives the same lines and leaves the same logical position.
 */
module ReadLine {
  import opened Options

  const RL_MAX_BUF: nat := 10

  /** How the kernel answers one read(): with some bytes, or by failing. */
  datatype Attempt = Bytes(upTo: nat) | Interrupted | Failed

  datatype Errno = NoError | EINTR | EOther | EINVAL

  function Min(a: nat, b: nat): nat { if a < b then a else b }

  // ----- what a line is -----

  /** The length of the first line, with its newline if it has one. */
  function LineLen(s: seq<char>): (r: nat)
    ensures r <= |s| && (r == 0 <==> s == [])
  {
    if s == [] then 0 else if s[0] == '\n' then 1 else 1 + LineLen(s[1..])
  }

  /** Nothing before the end of the line is a newline, and what follows is a new line. */
  lemma {:induction false} LineEnds(s: seq<char>)
    ensures forall i :: 0 <= i < LineLen(s) - 1 ==> s[i] != '\n'
    ensures LineLen(s) < |s| ==> s[LineLen(s) - 1] == '\n'
  {
    if s != [] && s[0] != '\n' { LineEnds(s[1..]); }
  }

  lemma {:induction false} LineAfter(taken: seq<char>, rest: seq<char>)
    requires '\n' !in taken
    ensures LineLen(taken + rest) == |taken| + LineLen(rest)
  {
    if taken == [] {
      assert taken + rest == rest;
    } else {
      assert (taken + rest)[1..] == taken[1..] + rest;
      LineAfter(taken[1..], rest);
    }
  }

  /**
   The results of a series of calls: `rooms[i]` is what call i has room for, or
   None when its buffer is of size 0. A call with room, even for no byte, takes
   a whole line off the stream.
   */
  function Lines(s: seq<char>, rooms: seq<Option<nat>>): seq<Option<seq<char>>>
    decreases |rooms|
  {
    if rooms == [] then []
    else if rooms[0].None? then [None] + Lines(s, rooms[1..])
    else [Some(s[..Min(rooms[0].value, LineLen(s))])] + Lines(s[LineLen(s)..], rooms[1..])
  }

  function Left(s: seq<char>, rooms: seq<Option<nat>>): seq<char>
    decreases |rooms|
  {
    if rooms == [] then s else Left(if rooms[0].None? then s else s[LineLen(s)..], rooms[1..])
  }

  function Flatten(lines: seq<Option<seq<char>>>): seq<char> {
    if lines == [] then [] else (if lines[0].None? then [] else lines[0].value) + Flatten(lines[1..])
  }

  lemma FlattenFirst(line: seq<char>, lines: seq<Option<seq<char>>>, left: seq<char>)
    ensures Flatten([Some(line)] + lines) + left == line + (Flatten(lines) + left)
  {
    assert ([Some(line)] + lines)[1..] == lines;
  }

  /** With room for every line, the lines and what is left make up the stream. */
  lemma {:induction false} LinesComplete(s: seq<char>, rooms: seq<Option<nat>>)
    requires forall i :: 0 <= i < |rooms| ==> rooms[i].Some? && rooms[i].value >= |s|
    ensures Flatten(Lines(s, rooms)) + Left(s, rooms) == s
    decreases |rooms|
  {
    if rooms == [] {
      assert [] + s == s;
    } else {
      var rest := s[LineLen(s)..];
      LinesComplete(rest, rooms[1..]);
      FlattenFirst(s[..LineLen(s)], Lines(rest, rooms[1..]), Left(rest, rooms[1..]));
    }
  }

  // ----- the descriptor -----

  /** Does this answer end a call? Being interrupted ends only the buffered one's. */
  predicate Ends(a: Attempt, buffered: bool) {
    if buffered then !a.Bytes? else a.Failed?
  }

  /** From `before` to `after` only reads have been made that do not end a call. */
  ghost predicate WentOn(before: seq<Attempt>, after: seq<Attempt>, buffered: bool) {
    && |after| <= |before| && after == before[|before| - |after|..]
    && forall i :: 0 <= i < |before| - |after| ==> !Ends(before[i], buffered)
  }

  /** The same, but for the last read, which does. */
  ghost predicate Broke(before: seq<Attempt>, after: seq<Attempt>, buffered: bool) {
    exists a :: Ends(a, buffered) && WentOn(before, [a] + after, buffered)
  }

  /** No read will end a call. */
  ghost predicate Steady(script: seq<Attempt>, buffered: bool) {
    forall i :: 0 <= i < |script| ==> !Ends(script[i], buffered)
  }

  lemma SteadyStays(before: seq<Attempt>, after: seq<Attempt>, buffered: bool)
    requires Steady(before, buffered)
    ensures !Broke(before, after, buffered) && (WentOn(before, after, buffered) ==> Steady(after, buffered))
  {
    forall a | WentOn(before, [a] + after, buffered) ensures a in before {
      assert ([a] + after)[0] == before[|before| - |after| - 1];
    }
  }

  lemma NoReads(script: seq<Attempt>, buffered: bool)
    ensures WentOn(script, script, buffered)
  {
  }

  lemma OneRead(before: seq<Attempt>, now: seq<Attempt>, buffered: bool)
    requires WentOn(before, now, buffered) && now != []
    ensures if Ends(now[0], buffered) then Broke(before, now[1..], buffered) else WentOn(before, now[1..], buffered)
  {
    assert now == [now[0]] + now[1..];
  }

  class File {
    var rest: seq<char>
    var script: seq<Attempt>  // answers to the next reads; afterwards read() gives all it can

    /** read(): at least one byte and at most `max`, unless it fails or the stream has ended. */
    method Read(buf: array<char>, max: nat) returns (n: int, errno: Errno)
      requires 0 < max <= buf.Length
      modifies this, buf
      ensures script == if old(script) == [] then [] else old(script[1..])
      ensures n == -1 <==> old(script) != [] && !old(script[0]).Bytes?
      ensures n == -1 ==> errno == (if old(script[0]).Interrupted? then EINTR else EOther)
      ensures n == -1 ==> rest == old(rest) && buf[..] == old(buf[..])
      ensures n != -1 ==> 0 <= n <= max && n <= |old(rest)| && (n == 0 <==> old(rest) == [])
      ensures n != -1 ==> rest == old(rest[n..]) && forall i :: 0 <= i < n ==> buf[i] == old(rest[i])
    {
      var attempt := if script == [] then Bytes(max) else script[0];
      if script != [] { script := script[1..]; }
      if !attempt.Bytes? { return -1, if attempt.Interrupted? then EINTR else EOther; }
      n, errno := Min(Min(max, |rest|), if attempt.upTo == 0 then 1 else attempt.upTo), NoError;
      var chunk := rest[..n];
      rest := rest[n..];
      for i := 0 to n
        invariant forall j :: 0 <= j < i ==> buf[j] == chunk[j]
        invariant rest == old(rest[n..]) && script == if old(script) == [] then [] else old(script[1..])
      {
        buf[i] := chunk[i];
      }
    }
  }

  // ----- the two readers -----

  /** The first `t` bytes of the line have been read, with no newline yet. */
  ghost predicate Reading(stream: seq<char>, t: nat, rest: seq<char>) {
    t <= |stream| && rest == stream[t..] && '\n' !in stream[..t]
  }

  /** A call with room for `cap` bytes took the whole first line off the stream, and returned what there was room for. */
  ghost predicate TookLine(stream: seq<char>, cap: nat, line: seq<char>, rest: seq<char>) {
    line == stream[..Min(cap, LineLen(stream))] && rest == stream[LineLen(stream)..]
  }

  /** Some of the first line is gone, but no newline. */
  ghost predicate PartLost(stream: seq<char>, rest: seq<char>) {
    exists t: nat :: Reading(stream, t, rest)
  }

  lemma LosePart(stream: seq<char>, t: nat, rest: seq<char>)
    requires Reading(stream, t, rest)
    ensures PartLost(stream, rest)
  {
  }

  lemma StartReading(stream: seq<char>)
    ensures Reading(stream, 0, stream)
  {
  }

  lemma StreamEnds(stream: seq<char>, t: nat, cap: nat, line: seq<char>)
    requires Reading(stream, t, []) && line == stream[..Min(cap, t)]
    ensures TookLine(stream, cap, line, [])
  {
    LineAfter(stream, []);
    assert stream[..t] == stream && stream + [] == stream;
  }

  /** The next byte ends the line if it is a newline. */
  lemma OneMore(stream: seq<char>, t: nat, rest: seq<char>, cap: nat)
    requires Reading(stream, t, rest) && rest != []
    ensures t < |stream| && stream[t] == rest[0]
    ensures if rest[0] == '\n' then TookLine(stream, cap, stream[..Min(cap, t + 1)], rest[1..]) else Reading(stream, t + 1, rest[1..])
  {
    assert stream[..t] + stream[t..] == stream && stream[..t + 1] == stream[..t] + [rest[0]];
    LineAfter(stream[..t], stream[t..]);
  }

  /** Stores byte `t` of the stream unless the room is used up. */
  method Keep(buffer: array<char>, cnt: nat, cap: nat, ghost stream: seq<char>, ghost t: nat, c: char) returns (cnt': nat)
    requires cap <= buffer.Length && t < |stream| && stream[t] == c && cnt == Min(cap, t) && buffer[..cnt] == stream[..cnt]
    modifies buffer
    ensures cnt' == Min(cap, t + 1) && buffer[..cnt'] == stream[..cnt']
  {
    cnt' := cnt;
    if cnt < cap {
      buffer[cnt] := c;
      cnt' := cnt + 1;
    }
  }

  /** One byte at a time; an interrupted read is restarted. */
  method ReadLine(fd: File, buffer: array?<char>, n: nat) returns (totRead: int)
    requires buffer != null ==> n <= buffer.Length
    modifies fd, buffer
    ensures n == 0 || buffer == null ==> totRead == -1 && fd.rest == old(fd.rest) && fd.script == old(fd.script)
    ensures totRead != -1 ==> n > 0 && buffer != null && 0 <= totRead < n && TookLine(old(fd.rest), n - 1, buffer[..totRead], fd.rest)
    ensures totRead > 0 ==> buffer[totRead] == '\0'
    ensures n > 0 && buffer != null ==>
      if totRead == -1 then Broke(old(fd.script), fd.script, false) else WentOn(old(fd.script), fd.script, false)
  {
    if n == 0 || buffer == null { return -1; }
    totRead := 0;
    var ch := new char[1];
    ghost var stream, t, rest := fd.rest, 0, fd.rest;
    StartReading(stream);
    NoReads(fd.script, false);
    hide LineLen; hide Reading; hide TookLine; hide WentOn; hide Broke;
    while true
      invariant fresh(ch)
      invariant rest == fd.rest && Reading(stream, t, rest) && t <= |stream|
      invariant totRead == Min(n - 1, t) && buffer[..totRead] == stream[..totRead]
      invariant WentOn(old(fd.script), fd.script, false)
      decreases |fd.rest| + |fd.script|
    {
      if fd.script != [] { OneRead(old(fd.script), fd.script, false); }
      var numRead, errno := fd.Read(ch, 1);
      if numRead == -1 {
        if errno == EINTR { continue; }
        return -1;
      } else if numRead == 0 {
        StreamEnds(stream, t, n - 1, buffer[..totRead]);
        if totRead == 0 { return 0; }
        break;
      } else {
        OneMore(stream, t, rest, n - 1);
        totRead := Keep(buffer, totRead, n - 1, stream, t, ch[0]);
        rest, t := rest[1..], t + 1;
        if ch[0] == '\n' { break; }
      }
    }
    ghost var line := buffer[..totRead];
    buffer[totRead] := '\0';
    assert buffer[..totRead] == line;
  }

  function Between(buf: seq<char>, next: int, len: int): seq<char> {
    if 0 <= next < len <= |buf| then buf[next..len] else []
  }

  function Logical(buf: seq<char>, next: int, len: int, rest: seq<char>): seq<char> {
    Between(buf, next, len) + rest
  }

  class ReadLineBuf {
    const fd: File
    const buf: array<char>
    var next: int
    var len: int

    ghost predicate Valid()
      reads this
    {
      buf.Length == RL_MAX_BUF && 0 <= next && len <= RL_MAX_BUF
    }

    /** The bytes fetched but not yet returned. */
    ghost function Unread(): seq<char>
      requires Valid()
      reads this, buf
    {
      Between(buf[..], next, len)
    }

    /** The logical position: what the next calls will see. */
    ghost function Stream(): seq<char>
      requires Valid()
      reads this, buf, fd
    {
      Logical(buf[..], next, len, fd.rest)
    }

    constructor (file: File)
      ensures Valid() && fresh(buf) && fd == file && Stream() == file.rest
    {
      fd := file;
      buf := new char[RL_MAX_BUF];
      next, len := 0, 0;
    }

    /** The next byte, from a new buffer if this one is used up; 0 at the end of the stream, -1 when read() fails. */
    method Fetch() returns (status: int, c: char)
      requires Valid()
      modifies this, buf, fd
      ensures Valid() && status in {-1, 0, 1}
      ensures status == -1 ==> Unread() == [] && Stream() == old(Stream()) == fd.rest
      ensures if status == -1 then old(fd.script) != [] && Ends(old(fd.script[0]), true) && fd.script == old(fd.script[1..])
              else fd.script == old(fd.script) || (old(fd.script) != [] && !Ends(old(fd.script[0]), true) && fd.script == old(fd.script[1..]))
      ensures status == 0 ==> Stream() == old(Stream()) == []
      ensures status == 1 ==> old(Stream()) != [] && c == old(Stream())[0] && Stream() == old(Stream())[1..]
    {
      c := '\0';
      if next >= len {
        var errno;
        len, errno := fd.Read(buf, RL_MAX_BUF);
        if len == -1 { return -1, c; }
        if len == 0 { return 0, c; }
        next := 0;
      }
      c := buf[next];
      next := next + 1;
      status := 1;
    }

    /** Through the buffer; any failed read is the caller's problem, and what it had fetched of the line is lost. */
    method ReadLineBuf(buffer: array?<char>, n: nat) returns (cnt: int)
      requires Valid() && buffer != buf && (buffer != null ==> n <= buffer.Length)
      modifies this, buf, fd, buffer
      ensures Valid()
      ensures n == 0 || buffer == null ==> cnt == -1 && Stream() == old(Stream()) && fd.script == old(fd.script)
      ensures cnt != -1 ==> n > 0 && buffer != null && 0 <= cnt <= n && TookLine(old(Stream()), n, buffer[..cnt], Stream())
      ensures n > 0 && buffer != null && cnt == -1 ==> Unread() == [] && PartLost(old(Stream()), fd.rest)
      ensures n > 0 && buffer != null ==>
        if cnt == -1 then Broke(old(fd.script), fd.script, true) else WentOn(old(fd.script), fd.script, true)
    {
      if n == 0 || buffer == null { return -1; }
      hide TookLine; hide PartLost; hide WentOn; hide Broke;
      cnt := FetchLine(buffer, n);
    }

    /** Fetches characters up to the next newline. */
    method FetchLine(buffer: array<char>, n: nat) returns (cnt: int)
      requires Valid() && buffer != buf && n <= buffer.Length
      modifies this, buf, fd, buffer
      ensures Valid() && -1 <= cnt <= n
      ensures if cnt == -1 then Unread() == [] && PartLost(old(Stream()), fd.rest) && Broke(old(fd.script), fd.script, true)
              else TookLine(old(Stream()), n, buffer[..cnt], Stream()) && WentOn(old(fd.script), fd.script, true)
    {
      cnt := 0;
      ghost var stream, t := Stream(), 0;
      ghost var rest := stream;
      StartReading(stream);
      NoReads(fd.script, true);
      hide LineLen; hide Reading; hide TookLine; hide PartLost; hide WentOn; hide Broke; hide Logical; hide Between;
      while true
        invariant Valid()
        invariant rest == Stream() && Reading(stream, t, rest) && t <= |stream|
        invariant cnt == Min(n, t) && buffer[..cnt] == stream[..cnt]
        invariant WentOn(old(fd.script), fd.script, true)
        decreases |Stream()|
      {
        if fd.script != [] { OneRead(old(fd.script), fd.script, true); }
        var status, c := Fetch();
        if status == -1 {
          LosePart(stream, t, rest);
          return -1;
        }
        if status == 0 {
          StreamEnds(stream, t, n, buffer[..cnt]);
          return;
        }
        OneMore(stream, t, rest, n);
        cnt := Keep(buffer, cnt, n, stream, t, c);
        rest, t := rest[1..], t + 1;
        if c == '\n' { return; }
      }
    }
  }

  // ----- a series of calls -----

  /** `lines` are the results of the first calls, which leave `rest`. */
  ghost predicate Reached(stream: seq<char>, rooms: seq<Option<nat>>, lines: seq<Option<seq<char>>>, rest: seq<char>) {
    && |lines| <= |rooms|
    && lines + Lines(rest, rooms[|lines|..]) == Lines(stream, rooms)
    && Left(rest, rooms[|lines|..]) == Left(stream, rooms)
  }

  /** What call `i` should return and leave. */
  ghost predicate Called(room: Option<nat>, before: seq<char>, line: Option<seq<char>>, after: seq<char>) {
    match room
    case None => line == None && after == before
    case Some(cap) => line.Some? && TookLine(before, cap, line.value, after)
  }

  lemma LinesStep(before: seq<char>, rooms: seq<Option<nat>>, i: nat, line: Option<seq<char>>, after: seq<char>)
    requires i < |rooms| && Called(rooms[i], before, line, after)
    ensures Lines(before, rooms[i..]) == [line] + Lines(after, rooms[i + 1..])
    ensures Left(before, rooms[i..]) == Left(after, rooms[i + 1..])
  {
    hide LineLen; hide Min;
    assert rooms[i..][1..] == rooms[i + 1..];
  }

  lemma NextLine(stream: seq<char>, rooms: seq<Option<nat>>, lines: seq<Option<seq<char>>>, before: seq<char>, line: Option<seq<char>>, after: seq<char>)
    requires Reached(stream, rooms, lines, before) && |lines| < |rooms| && Called(rooms[|lines|], before, line, after)
    ensures Reached(stream, rooms, lines + [line], after)
  {
    LinesStep(before, rooms, |lines|, line, after);
    hide Lines; hide Left; hide Called;
    assert lines + ([line] + Lines(after, rooms[|lines| + 1..])) == lines + [line] + Lines(after, rooms[|lines| + 1..]);
  }

  /** What buffers of the given sizes have room for, `nul` bytes of each being kept for a null byte. */
  function Rooms(sizes: seq<nat>, nul: nat): (r: seq<Option<nat>>)
    requires nul <= 1
    ensures |r| == |sizes| && forall i :: 0 <= i < |r| ==> r[i] == if sizes[i] == 0 then None else Some(sizes[i] - nul)
  {
    seq(|sizes|, i requires 0 <= i < |sizes| => if sizes[i] == 0 then None else Some(sizes[i] - nul))
  }

  /** What the calls return in the caller's buffer; None for -1. */
  method ReadLines(fd: File, buffer: array<char>, sizes: seq<nat>) returns (lines: seq<Option<seq<char>>>)
    requires Steady(fd.script, false) && forall i :: 0 <= i < |sizes| ==> sizes[i] <= buffer.Length
    modifies fd, buffer
    ensures lines == Lines(old(fd.rest), Rooms(sizes, 1)) && fd.rest == Left(old(fd.rest), Rooms(sizes, 1))
  {
    lines := [];
    ghost var stream, rooms := fd.rest, Rooms(sizes, 1);
    for k := 0 to |sizes|
      invariant Steady(fd.script, false) && Reached(stream, rooms, lines, fd.rest)
      invariant |lines| == k
    {
      hide Reached; hide TookLine; hide WentOn; hide Broke; hide Steady;
      ghost var before, script := fd.rest, fd.script;
      var totRead := ReadLine(fd, buffer, sizes[k]);
      SteadyStays(script, fd.script, false);
      var line := if totRead == -1 then None else Some(buffer[..totRead]);
      NextLine(stream, rooms, lines, before, line, fd.rest);
      lines := lines + [line];
    }
  }

  method ReadLinesBuf(rlbuf: ReadLineBuf, buffer: array<char>, sizes: seq<nat>) returns (lines: seq<Option<seq<char>>>)
    requires rlbuf.Valid() && buffer != rlbuf.buf && Steady(rlbuf.fd.script, true)
    requires forall i :: 0 <= i < |sizes| ==> sizes[i] <= buffer.Length
    modifies rlbuf, rlbuf.buf, rlbuf.fd, buffer
    ensures rlbuf.Valid()
    ensures lines == Lines(old(rlbuf.Stream()), Rooms(sizes, 0)) && rlbuf.Stream() == Left(old(rlbuf.Stream()), Rooms(sizes, 0))
  {
    lines := [];
    ghost var stream, rooms := rlbuf.Stream(), Rooms(sizes, 0);
    for k := 0 to |sizes|
      invariant rlbuf.Valid() && Steady(rlbuf.fd.script, true) && Reached(stream, rooms, lines, rlbuf.Stream())
      invariant |lines| == k
    {
      hide Reached; hide TookLine; hide WentOn; hide Broke; hide Steady;
      ghost var before, script := rlbuf.Stream(), rlbuf.fd.script;
      var cnt := rlbuf.ReadLineBuf(buffer, sizes[k]);
      SteadyStays(script, rlbuf.fd.script, true);
      var line := if cnt == -1 then None else Some(buffer[..cnt]);
      NextLine(stream, rooms, lines, before, line, rlbuf.Stream());
      lines := lines + [line];
    }
  }

  /** The sizes with one byte less each. */
  function Less(sizes: seq<nat>): (r: seq<nat>)
    requires forall i :: 0 <= i < |sizes| ==> sizes[i] >= 1
    ensures |r| == |sizes| && forall i :: 0 <= i < |r| ==> r[i] == sizes[i] - 1
  {
    seq(|sizes|, i requires 0 <= i < |sizes| => sizes[i] - 1)
  }

  lemma {:induction false} NoneExactly(s: seq<char>, rooms: seq<Option<nat>>)
    ensures |Lines(s, rooms)| == |rooms| && forall i :: 0 <= i < |rooms| ==> (Lines(s, rooms)[i].None? <==> rooms[i].None?)
    decreases |rooms|
  {
    if rooms != [] {
      NoneExactly(if rooms[0].None? then s else s[LineLen(s)..], rooms[1..]);
      assert forall i :: 0 < i < |rooms| ==> rooms[i] == rooms[1..][i - 1];
    }
  }

  /**
   The buffered reader with sizes one less gives the same results and leaves the
   same position as the simple one if and only if every size is at least 2: with
   size 1 the simple one takes a line and returns 0, where the buffered one fails.
   */
  lemma BufferedRefines(s: seq<char>, sizes: seq<nat>)
    requires forall i :: 0 <= i < |sizes| ==> sizes[i] >= 1
    ensures (var simple, buffered := Rooms(sizes, 1), Rooms(Less(sizes), 0);
      Lines(s, simple) == Lines(s, buffered) && Left(s, simple) == Left(s, buffered)) <==> forall i :: 0 <= i < |sizes| ==> sizes[i] >= 2
  {
    var simple, buffered := Rooms(sizes, 1), Rooms(Less(sizes), 0);
    if forall i :: 0 <= i < |sizes| ==> sizes[i] >= 2 {
      assert simple == buffered;
    } else {
      var i :| 0 <= i < |sizes| && sizes[i] < 2;
      NoneExactly(s, simple);
      NoneExactly(s, buffered);
      assert simple[i].Some? && buffered[i].None?;
    }
  }
}
