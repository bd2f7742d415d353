/** readline twice: reading one byte per call of read, and through a buffer of its own.
    Both deliver the same lines, however read cuts the stream into pieces. */
module LineReader {
  const MAXLINE := 4096

  // ----- lines -----------------------------------------------------------------------------

  /** The first line of s, when there is room for that many bytes. */
  function Line(s: string, room: nat): (line: string)
    ensures |line| <= room && |line| <= |s|
  {
    if room == 0 || s == "" then ""
    else if s[0] == '\n' then "\n"
    else [s[0]] + Line(s[1..], room - 1)
  }

  /** The bytes of a buffer of maxlen that a line may fill: one is for the terminator. */
  function Room(maxlen: nat): nat {
    if maxlen == 0 then 0 else maxlen - 1
  }

  predicate EndsInNewline(line: string) {
    line != "" && line[|line| - 1] == '\n'
  }

  /** A line of s is a prefix without an earlier newline, and stops for a reason: a
      newline, no room, or the end of the stream. */
  ghost predicate IsLine(line: string, s: string, room: nat) {
    && line <= s && |line| <= room
    && (forall i :: 0 <= i < |line| - 1 ==> line[i] != '\n')
    && (EndsInNewline(line) || |line| == room || line == s)
  }

  lemma {:induction false} LineIsLine(s: string, room: nat)
    ensures IsLine(Line(s, room), s, room)
  {
    if room > 0 && s != "" && s[0] != '\n' {
      LineIsLine(s[1..], room - 1);
      var rest := Line(s[1..], room - 1);
      var line := Line(s, room);
      assert line == [s[0]] + rest;
      forall i | 0 <= i < |line| - 1
        ensures line[i] != '\n'
      {
        assert line[i] == if i == 0 then s[0] else rest[i - 1];
      }
    }
  }

  /** There is one such line. */
  lemma LineIsUnique(s: string, room: nat, line: string)
    requires IsLine(line, s, room)
    ensures line == Line(s, room)
  {
    LineIsLine(s, room);
    SamePrefix(line, Line(s, room), s, room);
    SamePrefix(Line(s, room), line, s, room);
  }

  lemma SamePrefix(left: string, right: string, s: string, room: nat)
    requires IsLine(left, s, room) && IsLine(right, s, room)
    ensures |left| >= |right|
  {
  }

  lemma {:induction false} LineGrows(s: string, room: nat, k: nat)
    requires k < |s| && k < room && forall i :: 0 <= i < k ==> s[i] != '\n'
    ensures Line(s, room) == s[..k] + Line(s[k..], room - k)
  {
    if k > 0 {
      LineGrows(s[1..], room - 1, k - 1);
      assert s[1..][k - 1..] == s[k..] && [s[0]] + s[1..][..k - 1] == s[..k];
    }
  }

  /** The lines that count calls deliver. */
  function Lines(s: string, maxlen: nat, count: nat): (lines: seq<string>)
    ensures |lines| == count
    decreases count
  {
    if count == 0 then []
    else
      LineIsLine(s, Room(maxlen));
      var line := Line(s, Room(maxlen));
      [line] + Lines(s[|line|..], maxlen, count - 1)
  }

  function Concat(lines: seq<string>): string {
    if lines == [] then "" else lines[0] + Concat(lines[1..])
  }

  lemma LineIsTaken(s: string, room: nat)
    ensures s == Line(s, room) + s[|Line(s, room)|..]
    ensures room > 0 && s != "" ==> Line(s, room) != ""
  {
  }

  lemma PrefixJoins(line: string, front: string, rest: string)
    requires front <= rest
    ensures line + front <= line + rest
  {
  }

  lemma ConcatNext(line: string, rest: seq<string>)
    ensures Concat([line] + rest) == line + Concat(rest)
  {
  }

  lemma LinesNext(s: string, maxlen: nat, count: nat)
    requires count > 0
    ensures var line := Line(s, Room(maxlen)); Lines(s, maxlen, count) == [line] + Lines(s[|line|..], maxlen, count - 1)
  {
  }

  /** Together the lines are the first part of the stream, and with room for a byte and
      as many calls as bytes they are all of it. */
  lemma {:induction false} LinesJoin(s: string, maxlen: nat, count: nat)
    ensures Concat(Lines(s, maxlen, count)) <= s
    ensures maxlen >= 2 && count >= |s| ==> Concat(Lines(s, maxlen, count)) == s
    decreases count
  {
    hide Line, IsLine, Lines, Concat;
    if count == 0 {
      NoLines(s, maxlen);
    } else {
      var line := Line(s, Room(maxlen));
      var rest := s[|line|..];
      LineIsTaken(s, Room(maxlen));
      LinesJoin(rest, maxlen, count - 1);
      LinesNext(s, maxlen, count);
      ConcatNext(line, Lines(rest, maxlen, count - 1));
      PrefixJoins(line, Concat(Lines(rest, maxlen, count - 1)), rest);
    }
  }

  lemma NoLines(s: string, maxlen: nat)
    ensures Concat(Lines(s, maxlen, 0)) == ""
  {
  }

  // ----- the descriptor -----------------------------------------------------------------------

  /** What the next call of read does: fail with EINTR, fail otherwise, or find at most
      this many bytes ready. */
  datatype Event = Interrupt | Failure | Ready(bytes: nat)

  /** An open file: the bytes not yet read, and what the coming calls do; behind the plan
      read finds everything. */
  class Descriptor {
    var stream: string
    var plan: seq<Event>

    constructor (stream: string, plan: seq<Event>)
      ensures this.stream == stream && this.plan == plan
    {
      this.stream, this.plan := stream, plan;
    }

    /** read: up to size bytes, at least one unless the stream has ended; rc is their
        number, or -1 and whether errno is EINTR. */
    method Read(size: nat) returns (rc: int, data: string, eintr: bool)
      requires size > 0
      modifies this
      ensures rc == -1 ==> stream == old(stream) && old(plan) != [] && eintr == old(plan)[0].Interrupt?
      ensures rc == -1 <==> old(plan) != [] && !old(plan)[0].Ready?
      ensures rc != -1 ==> rc == |data| <= size && old(stream) == data + stream
      ensures rc == 0 ==> stream == ""
      ensures plan == if old(plan) == [] then [] else old(plan)[1..]
    {
      var most := size;
      rc, data, eintr := 0, "", false;
      if plan != [] {
        var event := plan[0];
        plan := plan[1..];
        if !event.Ready? {
          return -1, "", event.Interrupt?;
        }
        if event.bytes < most {
          most := if event.bytes == 0 then 1 else event.bytes;
        }
      }
      rc := if |stream| < most then |stream| else most;
      data := stream[..rc];
      stream := stream[rc..];
    }
  }

  /** The error that ends a call: the simple form gives up on EINTR too. */
  predicate Fatal(e: Event, simple: bool) {
    e.Failure? || (simple && e.Interrupt?)
  }

  /** after is what is left of the plan, and no call of read used up was a fatal one. */
  ghost predicate Survived(before: seq<Event>, after: seq<Event>, simple: bool) {
    && |after| <= |before| && after == before[|before| - |after|..]
    && forall i :: 0 <= i < |before| - |after| ==> !Fatal(before[i], simple)
  }

  /** The last call of read used up was a fatal one, and the only one. */
  ghost predicate BrokeOff(before: seq<Event>, after: seq<Event>, simple: bool) {
    && |after| < |before| && after == before[|before| - |after|..]
    && Fatal(before[|before| - |after| - 1], simple)
    && forall i :: 0 <= i < |before| - |after| - 1 ==> !Fatal(before[i], simple)
  }

  lemma PlanStarts(plan: seq<Event>, simple: bool)
    ensures Survived(plan, plan, simple)
  {
  }

  lemma PlanGoesOn(before: seq<Event>, plan: seq<Event>, simple: bool)
    requires Survived(before, plan, simple) && plan != []
    ensures if Fatal(plan[0], simple) then BrokeOff(before, plan[1..], simple) else Survived(before, plan[1..], simple)
  {
  }

  lemma PlanJoins(before: seq<Event>, plan: seq<Event>, after: seq<Event>, simple: bool)
    requires Survived(before, plan, simple)
    ensures Survived(plan, after, simple) ==> Survived(before, after, simple)
    ensures BrokeOff(plan, after, simple) ==> BrokeOff(before, after, simple)
  {
    var m, n := |before| - |plan|, |before| - |after|;
    if Survived(plan, after, simple) || BrokeOff(plan, after, simple) {
      assert before[n..] == plan[n - m..];
      assert forall i :: m <= i < n ==> before[i] == plan[i - m];
    }
  }

  predicate NoFailure(plan: seq<Event>) {
    forall i :: 0 <= i < |plan| ==> !plan[i].Failure?
  }

  predicate AllReady(plan: seq<Event>) {
    forall i :: 0 <= i < |plan| ==> plan[i].Ready?
  }

  /** What a call leaves in the caller's buffer: the line, its terminator, and the rest as
      it was. */
  ghost predicate Holds(after: string, line: string, before: string) {
    |after| == |before| > |line| && after == line + ['\0'] + before[|line| + 1..]
  }

  // ----- filling the caller's buffer ----------------------------------------------------------

  /** k bytes of s are stored, no newline among them, and rest is still to come. */
  ghost predicate Storing(s: string, room: nat, k: int, rest: string, after: string, before: string) {
    && 0 <= k <= |s| && k <= room < |before| && rest == s[k..] && after == s[..k] + before[k..]
    && forall i :: 0 <= i < k ==> s[i] != '\n'
  }

  /** The line of s is in the buffer, and rest is what follows it. */
  ghost predicate Stored(s: string, room: nat, rest: string, after: string, before: string) {
    var line := Line(s, room);
    s == line + rest && Holds(after, line, before)
  }

  lemma ByteStored(s: string, room: nat, k: int, rest: string, after: string, before: string)
    requires Storing(s, room, k, rest, after, before) && rest != "" && k < room
    ensures rest[0] != '\n' ==> Storing(s, room, k + 1, rest[1..], after[k := rest[0]], before)
    ensures rest[0] == '\n' ==>
      && Stored(s, room, rest[1..], after[k := rest[0]][k + 1 := '\0'], before)
      && EndsInNewline(Line(s, room)) && |Line(s, room)| == k + 1
  {
    LineGrows(s, room, k);
    assert s[k..][1..] == s[k + 1..] && s[..k + 1] == s[..k] + [s[k]];
  }

  lemma StoringStops(s: string, room: nat, k: int, rest: string, after: string, before: string)
    requires Storing(s, room, k, rest, after, before) && (rest == "" || k == room)
    ensures Stored(s, room, rest, after[k := '\0'], before)
    ensures !EndsInNewline(Line(s, room)) && |Line(s, room)| == k
  {
    LineIsUnique(s, room, s[..k]);
  }

  lemma StoringStarts(s: string, room: nat, before: string)
    requires room < |before|
    ensures Storing(s, room, 0, s, before, before)
  {
  }

  lemma NothingStored(s: string, room: nat, rest: string, after: string, before: string)
    requires Storing(s, room, 0, rest, after, before)
    ensures rest == s && after == before
  {
  }

  lemma ReadyRest(plan: seq<Event>)
    ensures AllReady(plan) && plan != [] ==> plan[0].Ready? && AllReady(plan[1..])
  {
  }

  /** Stores one character. */
  method Poke(vptr: array<char>, i: nat, c: char)
    requires i < vptr.Length
    modifies vptr
    ensures vptr[..] == old(vptr[..])[i := c]
  {
    vptr[i] := c;
  }

  /** The bytes of s that are no longer in rest, and no others, are stored. */
  ghost predicate Interrupted(s: string, room: nat, rest: string, after: string, before: string) {
    Storing(s, room, |s| - |rest|, rest, after, before)
  }

  lemma StoringBreaks(s: string, room: nat, k: int, rest: string, after: string, before: string)
    requires Storing(s, room, k, rest, after, before)
    ensures Interrupted(s, room, rest, after, before)
  {
  }

  // ----- what the calls return ------------------------------------------------------------------

  /** The count that the simple form returns for a stream s. */
  function SimpleCount(s: string, maxlen: nat): nat {
    var line := Line(s, Room(maxlen));
    if s == "" && maxlen > 1 then 0 else |line| + (if EndsInNewline(line) then 0 else 1)
  }

  /** The count that the buffered form returns. */
  function BufferedCount(s: string, maxlen: nat): nat {
    var line := Line(s, Room(maxlen));
    |line| + (if EndsInNewline(line) || |s| < Room(maxlen) then 0 else 1)
  }

  /** The simple form returns the length of the line exactly if the line ends in a newline
      or there is nothing to read; the buffered form also if the stream ends with room to
      spare. */
  lemma CountsAreLengths(s: string, maxlen: nat)
    ensures SimpleCount(s, maxlen) == |Line(s, Room(maxlen))|
      <==> EndsInNewline(Line(s, Room(maxlen))) || (s == "" && maxlen > 1)
    ensures BufferedCount(s, maxlen) == |Line(s, Room(maxlen))|
      <==> EndsInNewline(Line(s, Room(maxlen))) || |s| < Room(maxlen)
  {
  }

  /** The two forms return the same exactly if the stream is empty, the line ends in a
      newline, or the stream fills the buffer. */
  lemma CountsAgree(s: string, maxlen: nat)
    ensures SimpleCount(s, maxlen) == BufferedCount(s, maxlen)
      <==> s == "" || EndsInNewline(Line(s, Room(maxlen))) || |s| >= Room(maxlen)
  {
  }

  /** A stream of two letters: three and two. */
  lemma CountsDiffer()
    ensures Line("ab", 9) == "ab" && SimpleCount("ab", 10) == 3 && BufferedCount("ab", 10) == 2
  {
    LineIsUnique("ab", 9, "ab");
  }

  // ----- one byte per call ------------------------------------------------------------------------

  /** server/readline.c. On an error the bytes read by then are in the buffer, without a
      terminator, and gone from the stream. */
  method SimpleReadline(fd: Descriptor, vptr: array<char>, maxlen: nat) returns (n: int)
    requires vptr.Length > Room(maxlen)
    modifies fd, vptr
    ensures AllReady(old(fd.plan)) ==> n != -1 && AllReady(fd.plan)
    ensures if n == -1 then BrokeOff(old(fd.plan), fd.plan, true) else Survived(old(fd.plan), fd.plan, true)
    ensures n == -1 || n == SimpleCount(old(fd.stream), maxlen)
    ensures n == 0 ==> old(fd.stream) == "" == fd.stream && vptr[..] == old(vptr[..])
    ensures n > 0 ==> Stored(old(fd.stream), Room(maxlen), fd.stream, vptr[..], old(vptr[..]))
    ensures n == -1 ==> Interrupted(old(fd.stream), Room(maxlen), fd.stream, vptr[..], old(vptr[..]))
  {
    hide Line, Stored, Storing, Interrupted, AllReady, EndsInNewline, Survived, BrokeOff;
    ghost var s, room, cells := fd.stream, Room(maxlen), vptr[..];
    PlanStarts(fd.plan, true);
    StoringStarts(s, room, cells);
    n := 1;
    while n < maxlen
      invariant 1 <= n && (n <= maxlen || n == 1)
      invariant Storing(s, room, n - 1, fd.stream, vptr[..], cells)
      invariant AllReady(old(fd.plan)) ==> AllReady(fd.plan)
      invariant Survived(old(fd.plan), fd.plan, true)
    {
      ghost var rest, before := fd.stream, vptr[..];
      ReadyRest(fd.plan);
      if fd.plan != [] {
        PlanGoesOn(old(fd.plan), fd.plan, true);
      }
      var rc, data, eintr := fd.Read(1);
      if rc == 1 {
        ByteStored(s, room, n - 1, rest, before, cells);
        Poke(vptr, n - 1, data[0]);
        assert rest[0] == data[0] && rest[1..] == fd.stream;
        if data[0] == '\n' {
          Poke(vptr, n, '\0');
          return;
        }
      } else if rc == 0 {
        if n == 1 {
          NothingStored(s, room, fd.stream, vptr[..], cells);
          return 0;
        }
        break;
      } else {
        StoringBreaks(s, room, n - 1, fd.stream, vptr[..], cells);
        return -1;
      }
      n := n + 1;
    }
    StoringStops(s, room, n - 1, fd.stream, vptr[..], cells);
    Poke(vptr, n - 1, '\0');
  }

  lemma StoredLine(s: string, room: nat, rest: string, after: string, before: string)
    requires Stored(s, room, rest, after, before)
    ensures var line := Line(s, room); |line| < |after| && after[..|line|] == line && after[|line|] == '\0' && rest == s[|line|..]
    ensures EndsInNewline(Line(s, room)) ==> after[|Line(s, room)| - 1] == '\n'
  {
  }

  /** The lines that count calls of the simple form store. */
  method SimpleLines(fd: Descriptor, vptr: array<char>, maxlen: nat, count: nat) returns (lines: seq<string>)
    requires vptr.Length > Room(maxlen) && AllReady(fd.plan)
    modifies fd, vptr
    ensures lines == Lines(old(fd.stream), maxlen, count)
  {
    hide Line, Stored, Interrupted, AllReady, Lines;
    lines := [];
    for k := 0 to count
      invariant AllReady(fd.plan)
      invariant lines + Lines(fd.stream, maxlen, count - k) == Lines(old(fd.stream), maxlen, count)
    {
      ghost var s, before := fd.stream, vptr[..];
      var n := SimpleReadline(fd, vptr, maxlen);
      LinesNext(s, maxlen, count - k);
      if n == 0 {
        NoLine(Room(maxlen));
        lines := lines + [""];
      } else {
        StoredLine(s, Room(maxlen), fd.stream, vptr[..], before);
        lines := lines + [if vptr[n - 1] == '\n' then vptr[..n] else vptr[..n - 1]];
      }
    }
    NoMoreLines(fd.stream, maxlen);
  }

  /** How a caller finds the line again from the count of the buffered form. */
  lemma LineOfCount(s: string, maxlen: nat, rest: string, after: string, before: string, n: nat)
    requires Stored(s, Room(maxlen), rest, after, before) && n == BufferedCount(s, maxlen)
    ensures n <= |after| && (n > Room(maxlen) ==> n > 0) && rest == s[|Line(s, Room(maxlen))|..]
    ensures Line(s, Room(maxlen)) == if n <= Room(maxlen) then after[..n] else after[..n - 1]
  {
    hide Line;
    StoredLine(s, Room(maxlen), rest, after, before);
    LineIsLine(s, Room(maxlen));
  }

  lemma NoLine(room: nat)
    ensures Line("", room) == "" && ""[0..] == ""
  {
  }

  lemma NoMoreLines(s: string, maxlen: nat)
    ensures Lines(s, maxlen, 0) == []
  {
  }

  // ----- through a buffer ----------------------------------------------------------------------------

  /** lib/readline.c, for one descriptor: the static variables read_cnt, read_ptr and
      read_buf. */
  class Reader {
    const fd: Descriptor
    const buf: array<char>
    var cnt: int
    var ptr: int

    ghost predicate Valid()
      reads this
    {
      buf.Length == MAXLINE && cnt <= MAXLINE && (cnt > 0 ==> 0 <= ptr && ptr + cnt <= MAXLINE)
    }

    /** What the caller has not got yet: the bytes buffered, and the stream behind them. */
    ghost function Rest(): string
      reads this, buf, fd
      requires Valid()
    {
      (if cnt > 0 then buf[ptr..ptr + cnt] else "") + fd.stream
    }

    constructor (fd: Descriptor)
      ensures Valid() && this.fd == fd && fresh(buf) && Rest() == fd.stream && fd.plan == old(fd.plan)
    {
      this.fd := fd;
      buf := new char[MAXLINE];
      cnt, ptr := 0, 0;
    }

    /** read has put data into the buffer. */
    method Fill(data: string)
      requires |data| <= buf.Length
      modifies buf
      ensures buf[..|data|] == data
    {
      forall i | 0 <= i < |data| {
        buf[i] := data[i];
      }
    }

    /** The loop around read: once it is through, the buffer holds a byte (1), or the
        stream has ended (0), or read has failed (-1). */
    method Refill() returns (rc: int)
      requires Valid() && cnt <= 0
      modifies this, buf, fd
      ensures Valid() && Rest() == old(Rest())
      ensures rc == (if cnt > 0 then 1 else if cnt == 0 then 0 else -1)
      ensures rc == 0 ==> Rest() == ""
      ensures NoFailure(old(fd.plan)) ==> rc != -1 && NoFailure(fd.plan)
      ensures if rc == -1 then BrokeOff(old(fd.plan), fd.plan, false) else Survived(old(fd.plan), fd.plan, false)
    {
      hide NoFailure, Survived, BrokeOff;
      PlanStarts(fd.plan, false);
      while true
        invariant Valid() && cnt <= 0 && Rest() == old(Rest())
        invariant NoFailure(old(fd.plan)) ==> NoFailure(fd.plan)
        invariant Survived(old(fd.plan), fd.plan, false)
        decreases |fd.plan|
      {
        PlanRest(fd.plan);
        if fd.plan != [] {
          PlanGoesOn(old(fd.plan), fd.plan, false);
        }
        var n, data, eintr := fd.Read(MAXLINE);
        cnt := n;
        if n < 0 {
          if eintr {
            continue;
          }
          return -1;
        }
        if n == 0 {
          return 0;
        }
        Fill(data);
        ptr := 0;
        return 1;
      }
    }

    /** One byte: 1, or 0 at the end of the stream, or -1 for an error other than EINTR. */
    method MyRead() returns (rc: int, c: char)
      requires Valid()
      modifies this, buf, fd
      ensures Valid()
      ensures rc == 1 || rc == 0 || rc == -1
      ensures rc == 1 ==> old(Rest()) == [c] + Rest()
      ensures rc == 0 ==> old(Rest()) == "" == Rest()
      ensures rc == -1 ==> Rest() == old(Rest())
      ensures NoFailure(old(fd.plan)) ==> rc != -1 && NoFailure(fd.plan)
      ensures if rc == -1 then BrokeOff(old(fd.plan), fd.plan, false) else Survived(old(fd.plan), fd.plan, false)
    {
      hide NoFailure, Survived, BrokeOff;
      PlanStarts(fd.plan, false);
      c := '\0';
      if cnt <= 0 {
        rc := Refill();
        if rc != 1 {
          return;
        }
      }
      c := Take();
      rc := 1;
    }

    /** Takes the next byte out of the buffer. */
    method Take() returns (c: char)
      requires Valid() && cnt > 0
      modifies this
      ensures Valid() && old(Rest()) == [c] + Rest() && fd.plan == old(fd.plan)
    {
      assert buf[ptr..ptr + cnt] == [buf[ptr]] + buf[ptr + 1..ptr + cnt];
      cnt := cnt - 1;
      c := buf[ptr];
      ptr := ptr + 1;
    }

    /** On an error the bytes taken by then are in the caller's buffer, without a
        terminator, and gone from what is left. */
    method Readline(vptr: array<char>, maxlen: nat) returns (n: int)
      requires Valid() && vptr.Length > Room(maxlen) && vptr != buf
      modifies this, buf, fd, vptr
      ensures Valid()
      ensures NoFailure(old(fd.plan)) ==> n != -1 && NoFailure(fd.plan)
      ensures if n == -1 then BrokeOff(old(fd.plan), fd.plan, false) else Survived(old(fd.plan), fd.plan, false)
      ensures n == -1 || n == BufferedCount(old(Rest()), maxlen)
      ensures n >= 0 ==> Stored(old(Rest()), Room(maxlen), Rest(), vptr[..], old(vptr[..]))
      ensures n == -1 ==> Interrupted(old(Rest()), Room(maxlen), Rest(), vptr[..], old(vptr[..]))
    {
      hide Line, Stored, Storing, Interrupted, NoFailure, EndsInNewline, Valid, Rest, Survived, BrokeOff;
      PlanStarts(fd.plan, false);
      ghost var s, room, cells := Rest(), Room(maxlen), vptr[..];
      StoringStarts(s, room, cells);
      n := 1;
      while n < maxlen
        invariant Valid() && 1 <= n && (n <= maxlen || n == 1)
        invariant Storing(s, room, n - 1, Rest(), vptr[..], cells)
        invariant NoFailure(old(fd.plan)) ==> NoFailure(fd.plan)
        invariant Survived(old(fd.plan), fd.plan, false)
      {
        ghost var rest, plan := Rest(), fd.plan;
        var rc, c := MyRead();
        PlanJoins(old(fd.plan), plan, fd.plan, false);
        if rc == 1 {
          ByteStored(s, room, n - 1, rest, vptr[..], cells);
          Poke(vptr, n - 1, c);
          assert rest[0] == c && rest[1..] == Rest();
          if c == '\n' {
            Poke(vptr, n, '\0');
            return;
          }
        } else if rc == 0 {
          StoringStops(s, room, n - 1, rest, vptr[..], cells);
          Poke(vptr, n - 1, '\0');
          return n - 1;
        } else {
          StoringBreaks(s, room, n - 1, Rest(), vptr[..], cells);
          return -1;
        }
        n := n + 1;
      }
      StoringStops(s, room, n - 1, Rest(), vptr[..], cells);
      Poke(vptr, n - 1, '\0');
    }

    /** The lines that count calls of the buffered form store: the same. */
    method BufferedLines(vptr: array<char>, maxlen: nat, count: nat) returns (lines: seq<string>)
      requires Valid() && vptr.Length > Room(maxlen) && vptr != buf && NoFailure(fd.plan)
      modifies this, buf, fd, vptr
      ensures Valid() && lines == Lines(old(Rest()), maxlen, count)
    {
      hide Line, Stored, Interrupted, NoFailure, Lines, Valid, Rest, BufferedCount;
      lines := [];
      for k := 0 to count
        invariant Valid() && NoFailure(fd.plan)
        invariant lines + Lines(Rest(), maxlen, count - k) == Lines(old(Rest()), maxlen, count)
      {
        ghost var s, before := Rest(), vptr[..];
        var n := Readline(vptr, maxlen);
        LinesNext(s, maxlen, count - k);
        LineOfCount(s, maxlen, Rest(), vptr[..], before, n);
        lines := lines + [if n <= Room(maxlen) then vptr[..n] else vptr[..n - 1]];
      }
      NoMoreLines(Rest(), maxlen);
    }
  }

  lemma PlanRest(plan: seq<Event>)
    ensures NoFailure(plan) && plan != [] ==> !plan[0].Failure? && NoFailure(plan[1..])
  {
  }
}
