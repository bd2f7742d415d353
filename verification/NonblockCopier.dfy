/** The nonblocking client: stdin is copied to a socket and the socket to stdout through
    two fixed buffers. What select and the calls return is up to the environment. */
module NonblockCopier {
  const MAXLINE := 4096

  /** A buffer with its two pointers: cells[out..end] has been read and not yet written. */
  datatype Buffer = Buffer(cells: seq<int>, out: int, end: int)

  /** What read finds: bytes, of which it takes as many as there is room for and none of
      which mean end of file; or EWOULDBLOCK; or another error. */
  datatype Input = Bytes(bytes: seq<int>) | NoInput | InputError

  /** write takes at most limit bytes; or EWOULDBLOCK; or another error. */
  datatype Output = Accepts(limit: nat) | NoOutput | OutputError

  datatype Status = Going | Returned | Premature | Failed

  /** The variables of str_cli, the number of FINs sent, and the bytes that went through
      each of the four ends. */
  datatype State = State(
    to: Buffer, fr: Buffer, stdineof: bool, status: Status, fins: nat,
    stdin: seq<int>, sockOut: seq<int>, sockIn: seq<int>, stdout: seq<int>)

  /** One turn of the loop: which descriptors select reports, and what the calls find. */
  datatype Round = Round(
    stdinReady: bool, sockReady: bool, stdoutReady: bool, sockWritable: bool,
    stdin: Input, sock: Input, stdout: Output, sockOut: Output)

  // ----- the steps ------------------------------------------------------------------------

  predicate BufferOk(b: Buffer) {
    |b.cells| == MAXLINE && 0 <= b.out <= b.end <= MAXLINE && (b.out == b.end ==> b.end == 0)
  }

  function Pending(b: Buffer): seq<int>
    requires BufferOk(b)
  {
    b.cells[b.out..b.end]
  }

  /** What read stores of the bytes it finds. */
  function Taken(b: Buffer, bytes: seq<int>): (r: seq<int>)
    requires BufferOk(b)
    ensures |r| <= MAXLINE - b.end && (b.end < MAXLINE ==> (r == [] <==> bytes == []))
  {
    if |bytes| <= MAXLINE - b.end then bytes else bytes[..MAXLINE - b.end]
  }

  function Stored(b: Buffer, bytes: seq<int>): Buffer
    requires BufferOk(b) && |bytes| <= MAXLINE - b.end
  {
    Buffer(b.cells[..b.end] + bytes + b.cells[b.end + |bytes|..], b.out, b.end + |bytes|)
  }

  /** How much write takes. */
  function Accepted(b: Buffer, limit: nat): (n: nat)
    requires BufferOk(b)
    ensures n <= b.end - b.out
  {
    if limit <= b.end - b.out then limit else b.end - b.out
  }

  /** Both pointers go back to the beginning once all is written. */
  function Written(b: Buffer, n: nat): Buffer
    requires BufferOk(b) && n <= b.end - b.out
  {
    if b.out + n == b.end then b.(out := 0, end := 0) else b.(out := b.out + n)
  }

  predicate Sound(s: State) {
    BufferOk(s.to) && BufferOk(s.fr)
  }

  function FromStdin(s: State, input: Input): (t: State)
    requires Sound(s)
    ensures Sound(t)
  {
    match input
    case NoInput => s
    case InputError => s.(status := Failed)
    case Bytes(bytes) =>
      var got := Taken(s.to, bytes);
      if got == [] then s.(stdineof := true, fins := if s.to.out == s.to.end then s.fins + 1 else s.fins)
      else s.(to := Stored(s.to, got), stdin := s.stdin + got)
  }

  function FromSocket(s: State, input: Input): (t: State)
    requires Sound(s)
    ensures Sound(t)
  {
    match input
    case NoInput => s
    case InputError => s.(status := Failed)
    case Bytes(bytes) =>
      var got := Taken(s.fr, bytes);
      if got == [] then s.(status := if s.stdineof then Returned else Premature)
      else s.(fr := Stored(s.fr, got), sockIn := s.sockIn + got)
  }

  function ToStdout(s: State, output: Output): (t: State)
    requires Sound(s)
    ensures Sound(t)
  {
    match output
    case NoOutput => s
    case OutputError => s.(status := Failed)
    case Accepts(limit) =>
      var n := Accepted(s.fr, limit);
      s.(fr := Written(s.fr, n), stdout := s.stdout + Pending(s.fr)[..n])
  }

  function ToSocket(s: State, output: Output): (t: State)
    requires Sound(s)
    ensures Sound(t)
  {
    match output
    case NoOutput => s
    case OutputError => s.(status := Failed)
    case Accepts(limit) =>
      var n := Accepted(s.to, limit);
      s.(to := Written(s.to, n), sockOut := s.sockOut + Pending(s.to)[..n],
         fins := if s.to.out + n == s.to.end && s.stdineof then s.fins + 1 else s.fins)
  }

  /** What the loop asks select for. */
  predicate Watched(s: State, r: Round) {
    && (r.stdinReady ==> !s.stdineof && s.to.end < MAXLINE)
    && (r.sockReady ==> s.fr.end < MAXLINE)
    && (r.stdoutReady ==> s.fr.out != s.fr.end)
    && (r.sockWritable ==> s.to.out != s.to.end)
  }

  predicate Arrives(input: Input) {
    input.Bytes? && input.bytes != []
  }

  // ----- the invariant -------------------------------------------------------------------------

  /** Nothing is lost, duplicated or reordered; and FIN is sent once, when stdin has ended
      and everything from it is written. */
  predicate Inv(s: State) {
    && Sound(s)
    && s.stdin == s.sockOut + Pending(s.to)
    && s.sockIn == s.stdout + Pending(s.fr)
    && s.fins == (if s.stdineof && s.to.out == s.to.end then 1 else 0)
    && (s.status.Returned? ==> s.stdineof)
  }

  lemma StoredPending(b: Buffer, bytes: seq<int>)
    requires BufferOk(b) && 0 < |bytes| <= MAXLINE - b.end
    ensures BufferOk(Stored(b, bytes)) && Pending(Stored(b, bytes)) == Pending(b) + bytes
  {
  }

  lemma FromStdinKeepsInv(s: State, input: Input)
    requires Inv(s) && s.status.Going? && !s.stdineof && s.to.end < MAXLINE
    ensures Inv(FromStdin(s, input))
  {
    hide Stored, Pending;
    if Arrives(input) {
      StoredPending(s.to, Taken(s.to, input.bytes));
    }
  }

  lemma FromSocketKeepsInv(s: State, input: Input)
    requires Inv(s) && s.status.Going? && s.fr.end < MAXLINE
    ensures Inv(FromSocket(s, input))
  {
    hide Stored, Pending;
    if Arrives(input) {
      StoredPending(s.fr, Taken(s.fr, input.bytes));
    }
  }

  lemma ToStdoutKeepsInv(s: State, output: Output)
    requires Inv(s) && s.status.Going?
    ensures Inv(ToStdout(s, output))
  {
  }

  lemma ToSocketKeepsInv(s: State, output: Output)
    requires Inv(s) && s.status.Going? && s.to.out != s.to.end
    ensures Inv(ToSocket(s, output))
  {
  }

  // ----- turns and runs ---------------------------------------------------------------------------

  /** The two reads of a turn. */
  function Reads(s: State, r: Round): (t: State)
    requires Sound(s)
    ensures Sound(t)
  {
    var s1 := if r.stdinReady then FromStdin(s, r.stdin) else s;
    if s1.status.Going? && r.sockReady then FromSocket(s1, r.sock) else s1
  }

  /** One turn of the loop: bytes just read are tried on the other side at once. */
  function Turn(s: State, r: Round): (t: State)
    requires Sound(s)
    ensures Sound(t)
  {
    var s2 := Reads(s, r);
    var tryOut := r.stdoutReady || (r.sockReady && Arrives(r.sock));
    var s3 := if s2.status.Going? && tryOut && s2.fr.out != s2.fr.end then ToStdout(s2, r.stdout) else s2;
    var trySock := r.sockWritable || (r.stdinReady && Arrives(r.stdin));
    if s3.status.Going? && trySock && s3.to.out != s3.to.end then ToSocket(s3, r.sockOut) else s3
  }

  lemma ReadsKeepInv(s: State, r: Round)
    requires Inv(s) && s.status.Going? && Watched(s, r)
    ensures Inv(Reads(s, r))
  {
    hide Pending;
    if r.stdinReady {
      FromStdinKeepsInv(s, r.stdin);
      var s1 := FromStdin(s, r.stdin);
      if s1.status.Going? && r.sockReady {
        FromSocketKeepsInv(s1, r.sock);
      }
    } else if r.sockReady {
      FromSocketKeepsInv(s, r.sock);
    }
  }

  lemma TurnKeepsInv(s: State, r: Round)
    requires Inv(s) && s.status.Going? && Watched(s, r)
    ensures Inv(Turn(s, r))
  {
    hide Pending, FromStdin, FromSocket, ToStdout, ToSocket, Reads;
    ReadsKeepInv(s, r);
    var s2 := Reads(s, r);
    if s2.status.Going? {
      ToStdoutKeepsInv(s2, r.stdout);
    }
    var tryOut := r.stdoutReady || (r.sockReady && Arrives(r.sock));
    var s3 := if s2.status.Going? && tryOut && s2.fr.out != s2.fr.end then ToStdout(s2, r.stdout) else s2;
    if s3.status.Going? && s3.to.out != s3.to.end {
      ToSocketKeepsInv(s3, r.sockOut);
    }
  }

  /** Turns that select cannot report, and turns after the end, change nothing. */
  function Run(s: State, rounds: seq<Round>): State
    requires Inv(s)
    decreases |rounds|
  {
    if rounds == [] || !s.status.Going? then s
    else if !Watched(s, rounds[0]) then Run(s, rounds[1..])
    else TurnKeepsInv(s, rounds[0]); Run(Turn(s, rounds[0]), rounds[1..])
  }

  /** For every behaviour of the environment: what the socket got is the first part of
      what stdin gave, what stdout got the first part of what the socket gave, and the
      buffers hold the rest; at most one FIN is sent, and none before stdin has ended and
      all of it is written. */
  lemma {:induction false} RunIsSafe(s: State, rounds: seq<Round>)
    requires Inv(s)
    ensures var t := Run(s, rounds);
      && Inv(t) && t.sockOut <= t.stdin && t.stdout <= t.sockIn
      && t.fins <= 1 && (t.fins == 1 <==> t.stdineof && t.sockOut == t.stdin)
    decreases |rounds|
  {
    hide Pending, Turn;
    if rounds == [] || !s.status.Going? {
      PendingLength(s.to);
    } else if !Watched(s, rounds[0]) {
      RunIsSafe(s, rounds[1..]);
    } else {
      TurnKeepsInv(s, rounds[0]);
      RunIsSafe(Turn(s, rounds[0]), rounds[1..]);
    }
  }

  lemma PendingLength(b: Buffer)
    requires BufferOk(b)
    ensures |Pending(b)| == b.end - b.out
  {
  }

  /** The ends only grow, and after the end of stdin nothing more is taken from it. */
  predicate Follows(s: State, t: State) {
    && s.stdin <= t.stdin && s.sockOut <= t.sockOut && s.sockIn <= t.sockIn && s.stdout <= t.stdout
    && (s.stdineof ==> t.stdineof && t.stdin == s.stdin)
  }

  lemma FollowsOn(s: State, t: State, u: State)
    requires Follows(s, t) && Follows(t, u)
    ensures Follows(s, u)
  {
  }

  lemma StepsFollow(s: State, input: Input, output: Output)
    requires Sound(s)
    ensures !s.stdineof ==> Follows(s, FromStdin(s, input))
    ensures Follows(s, FromSocket(s, input)) && Follows(s, ToStdout(s, output)) && Follows(s, ToSocket(s, output))
  {
    hide Pending, Stored, Written, Taken, Accepted;
  }

  lemma TurnFollows(s: State, r: Round)
    requires Sound(s) && Watched(s, r)
    ensures Follows(s, Turn(s, r))
  {
    hide FromStdin, FromSocket, ToStdout, ToSocket, Follows, Sound;
    var s1 := if r.stdinReady then FromStdin(s, r.stdin) else s;
    var s2 := Reads(s, r);
    Unmoved(s);
    StepsFollow(s, r.stdin, r.stdout);
    StepsFollow(s1, r.sock, r.stdout);
    Unmoved(s1);
    FollowsOn(s, s1, s2);
    Unmoved(s2);
    StepsFollow(s2, r.sock, r.stdout);
    var tryOut := r.stdoutReady || (r.sockReady && Arrives(r.sock));
    var s3 := if s2.status.Going? && tryOut && s2.fr.out != s2.fr.end then ToStdout(s2, r.stdout) else s2;
    FollowsOn(s, s2, s3);
    Unmoved(s3);
    StepsFollow(s3, r.sock, r.sockOut);
    FollowsOn(s, s3, Turn(s, r));
  }

  lemma Unmoved(s: State)
    ensures Follows(s, s)
  {
  }

  lemma {:induction false} RunFollows(s: State, rounds: seq<Round>)
    requires Inv(s)
    ensures Follows(s, Run(s, rounds))
    decreases |rounds|
  {
    hide Turn, Watched, Pending, Follows;
    Unmoved(s);
    if rounds != [] && s.status.Going? {
      if Watched(s, rounds[0]) {
        TurnKeepsInv(s, rounds[0]);
        TurnFollows(s, rounds[0]);
        RunFollows(Turn(s, rounds[0]), rounds[1..]);
        FollowsOn(s, Turn(s, rounds[0]), Run(s, rounds));
      } else {
        RunFollows(s, rounds[1..]);
      }
    }
  }

  /** Behind the FIN not one more byte goes to the socket. */
  lemma NothingAfterFin(s: State, rounds: seq<Round>)
    requires Inv(s) && s.fins == 1
    ensures Run(s, rounds).sockOut == s.sockOut && Run(s, rounds).fins == 1
  {
    hide Turn, Watched;
    RunFollows(s, rounds);
    RunIsSafe(s, rounds);
    PendingLength(s.to);
  }

  /** select is never asked to wait for nothing. */
  lemma SomethingIsWatched(s: State)
    requires Inv(s)
    ensures s.fr.end < MAXLINE || s.fr.out != s.fr.end
  {
  }

  // ----- one turn, counted in bytes ------------------------------------------------------------------

  function Min(a: int, b: int): int {
    if a <= b then a else b
  }

  /** The first bytes of what is found, as many as there is room for. */
  function Got(ready: bool, input: Input, room: nat): seq<int> {
    if ready && input.Bytes? then input.bytes[..Min(|input.bytes|, room)] else []
  }

  predicate Ends(ready: bool, input: Input) {
    ready && input == Bytes([])
  }

  predicate Fails(ready: bool, input: Input) {
    ready && input.InputError?
  }

  /** What the reads of a turn leave: bytes in the order in which they were found, or the
      end of stdin; and what of the socket ends the program. */
  lemma ReadsCount(s: State, r: Round)
    requires Inv(s) && s.status.Going? && Watched(s, r)
    ensures var t := Reads(s, r);
      && t.stdout == s.stdout && t.sockOut == s.sockOut
      && t.stdin == s.stdin + Got(r.stdinReady, r.stdin, MAXLINE - s.to.end)
      && (t.stdineof <==> s.stdineof || Ends(r.stdinReady, r.stdin))
      && t.sockIn == s.sockIn + (if Fails(r.stdinReady, r.stdin) then [] else Got(r.sockReady, r.sock, MAXLINE - s.fr.end))
      && t.status ==
           if Fails(r.stdinReady, r.stdin) || Fails(r.sockReady, r.sock) then Failed
           else if Ends(r.sockReady, r.sock) then (if t.stdineof then Returned else Premature)
           else Going
  {
    hide Got, FromStdin, FromSocket;
    if r.stdinReady {
      StdinCounts(s, r.stdin);
    }
    NothingGot(r.stdin, r.sock);
    var t := if r.stdinReady then FromStdin(s, r.stdin) else s;
    if t.status.Going? && r.sockReady {
      SocketCounts(t, r.sock);
    }
  }

  lemma StdinCounts(s: State, input: Input)
    requires Sound(s) && s.status.Going? && !s.stdineof && s.to.end < MAXLINE
    ensures var t := FromStdin(s, input);
      && t.stdin == s.stdin + Got(true, input, MAXLINE - s.to.end) && (t.stdineof <==> input == Bytes([]))
      && t.sockIn == s.sockIn && t.stdout == s.stdout && t.sockOut == s.sockOut && t.fr == s.fr
      && t.status == if input.InputError? then Failed else Going
  {
    hide Stored;
  }

  lemma SocketCounts(s: State, input: Input)
    requires Sound(s) && s.status.Going? && s.fr.end < MAXLINE
    ensures var t := FromSocket(s, input);
      && t.sockIn == s.sockIn + Got(true, input, MAXLINE - s.fr.end)
      && t.stdin == s.stdin && t.stdineof == s.stdineof && t.stdout == s.stdout && t.sockOut == s.sockOut
      && t.status == if input.InputError? then Failed
                     else if input == Bytes([]) then (if s.stdineof then Returned else Premature) else Going
  {
    hide Stored;
  }

  lemma NothingGot(stdin: Input, sock: Input)
    ensures forall room: nat :: Got(false, stdin, room) == [] && Got(false, sock, room) == []
  {
  }

  /** What one write takes of what is waiting: as many bytes as it accepts. */
  function Took(tried: bool, waiting: seq<int>, output: Output): seq<int> {
    if tried && output.Accepts? then waiting[..Min(output.limit, |waiting|)] else []
  }

  /** What the writes of a turn do, behind its reads: stdout is tried if select says so or
      if the socket has just given bytes, the socket if select says so or if stdin has;
      each takes the first bytes that wait. */
  lemma WritesCount(s: State, r: Round)
    requires Inv(s) && s.status.Going? && Watched(s, r) && Reads(s, r).status.Going?
    ensures var read, t := Reads(s, r), Turn(s, r);
      var outTried := r.stdoutReady || (r.sockReady && Arrives(r.sock));
      var sockTried := r.sockWritable || (r.stdinReady && Arrives(r.stdin));
      var outWaits, sockWaits := Pending(read.fr), Pending(read.to);
      var outFails := outTried && outWaits != [] && r.stdout.OutputError?;
      && t.stdin == read.stdin && t.sockIn == read.sockIn && t.stdineof == read.stdineof
      && t.stdout == s.stdout + Took(outTried, outWaits, r.stdout)
      && t.sockOut == s.sockOut + Took(!outFails && sockTried, sockWaits, r.sockOut)
      && t.status == if outFails || (sockTried && sockWaits != [] && r.sockOut.OutputError?) then Failed else Going
  {
    hide Pending, Reads, ToStdout, ToSocket, Took;
    var read := Reads(s, r);
    ReadsCount(s, r);
    var outTried := r.stdoutReady || (r.sockReady && Arrives(r.sock));
    var sockTried := r.sockWritable || (r.stdinReady && Arrives(r.stdin));
    OutCounts(read, outTried, r.stdout);
    var s3 := if outTried && read.fr.out != read.fr.end then ToStdout(read, r.stdout) else read;
    SockCounts(s3, sockTried, r.sockOut);
  }

  lemma OutCounts(s: State, tried: bool, output: Output)
    requires Sound(s) && s.status.Going?
    ensures var t := if tried && s.fr.out != s.fr.end then ToStdout(s, output) else s;
      && t.stdout == s.stdout + Took(tried, Pending(s.fr), output) && t.to == s.to
      && t.stdin == s.stdin && t.sockIn == s.sockIn && t.sockOut == s.sockOut && t.stdineof == s.stdineof
      && t.status == if tried && Pending(s.fr) != [] && output.OutputError? then Failed else Going
  {
    PendingLength(s.fr);
    NothingTaken(s.fr);
    hide Pending, Written;
  }

  lemma SockCounts(s: State, tried: bool, output: Output)
    requires Sound(s)
    ensures var t := if s.status.Going? && tried && s.to.out != s.to.end then ToSocket(s, output) else s;
      && t.sockOut == s.sockOut + Took(s.status.Going? && tried, Pending(s.to), output)
      && t.stdin == s.stdin && t.sockIn == s.sockIn && t.stdout == s.stdout && t.stdineof == s.stdineof
      && t.status == if s.status.Going? && tried && Pending(s.to) != [] && output.OutputError? then Failed else s.status
  {
    PendingLength(s.to);
    NothingTaken(s.to);
    hide Pending, Written;
  }

  lemma NothingTaken(b: Buffer)
    requires BufferOk(b)
    ensures Pending(b) == [] <==> b.out == b.end
    ensures forall output :: Took(true, [], output) == []
  {
  }

  /** What select is asked: stdin until it has ended and while there is room, the socket
      while there is room, and either output while something waits for it. */
  lemma WhatIsWatched(s: State)
    requires Inv(s)
    ensures Watched(s, Quiet().(stdinReady := true)) <==> !s.stdineof && s.to.end < 4096
    ensures Watched(s, Quiet().(sockReady := true)) <==> s.fr.end < 4096
    ensures Watched(s, Quiet().(stdoutReady := true)) <==> Pending(s.fr) != []
    ensures Watched(s, Quiet().(sockWritable := true)) <==> Pending(s.to) != []
  {
    PendingLength(s.fr);
    PendingLength(s.to);
  }

  /** In the turn that ends the loop with a return, stdin has ended and the socket ends
      now; everything from the socket has reached stdout exactly if the second buffer was
      empty when the turn began. */
  lemma RepliesComplete(s: State, r: Round)
    requires Inv(s) && s.status.Going? && Watched(s, r) && Turn(s, r).status.Returned?
    ensures r.sockReady && r.sock == Bytes([])
    ensures Turn(s, r).stdout == Turn(s, r).sockIn <==> s.fr.out == s.fr.end
  {
    PendingLength(s.fr);
    hide Pending;
  }

  /** stdout takes whatever it is offered. */
  predicate Willing(r: Round) {
    r.stdout.Accepts? && r.stdout.limit >= MAXLINE
  }

  lemma WillingTurn(s: State, r: Round)
    requires Inv(s) && s.status.Going? && Watched(s, r) && Willing(r) && s.fr.out == s.fr.end
    ensures Turn(s, r).fr.out == Turn(s, r).fr.end
  {
    hide Pending;
  }

  /** With such a stdout no reply is ever dropped: whenever and however the run ends,
      stdout has everything that came from the socket. */
  lemma {:induction false} WillingStdoutGetsAll(s: State, rounds: seq<Round>)
    requires Inv(s) && s.fr.out == s.fr.end
    requires forall i :: 0 <= i < |rounds| ==> Willing(rounds[i])
    ensures Run(s, rounds).stdout == Run(s, rounds).sockIn
    decreases |rounds|
  {
    hide Pending, Turn, Watched;
    if rounds == [] || !s.status.Going? {
      PendingLength(s.fr);
    } else if Watched(s, rounds[0]) {
      TurnKeepsInv(s, rounds[0]);
      WillingTurn(s, rounds[0]);
      WillingStdoutGetsAll(Turn(s, rounds[0]), rounds[1..]);
    } else {
      WillingStdoutGetsAll(s, rounds[1..]);
    }
  }

  /** In the same turn everything from stdin has reached the socket, and the FIN has been
      sent, exactly if the first buffer was empty when the turn began. */
  lemma RequestsComplete(s: State, r: Round)
    requires Inv(s) && s.status.Going? && Watched(s, r) && Turn(s, r).status.Returned?
    ensures var t := Turn(s, r);
      (t.sockOut == t.stdin <==> s.to.out == s.to.end) && (t.fins == 1 <==> s.to.out == s.to.end)
  {
    hide Pending, Stored, Written;
    TurnKeepsInv(s, r);
    PendingLength(Turn(s, r).to);
  }

  /** The socket takes whatever it is offered. */
  predicate WillingSocket(r: Round) {
    r.sockOut.Accepts? && r.sockOut.limit >= MAXLINE
  }

  /** Of such a turn nothing is left in the first buffer, unless the turn ends the program
      for another reason than a return. */
  lemma WillingSocketTurn(s: State, r: Round)
    requires Inv(s) && s.status.Going? && Watched(s, r) && WillingSocket(r) && s.to.out == s.to.end
    ensures var t := Turn(s, r); t.status.Going? || t.status.Returned? ==> t.to.out == t.to.end
  {
    hide Pending;
  }

  /** With such a socket everything read from stdin is delivered, whenever the run stops
      and also when str_cli returns; only an error or a server that ends too early can
      leave something behind. */
  lemma {:induction false} WillingSocketGetsAll(s: State, rounds: seq<Round>)
    requires Inv(s) && s.to.out == s.to.end
    requires forall i :: 0 <= i < |rounds| ==> WillingSocket(rounds[i])
    ensures var t := Run(s, rounds);
      t.status.Going? || t.status.Returned? ==> t.sockOut == t.stdin && (t.stdineof <==> t.fins == 1)
    decreases |rounds|
  {
    hide Pending, Turn, Watched;
    if rounds == [] || !s.status.Going? {
      PendingLength(s.to);
    } else if Watched(s, rounds[0]) {
      TurnKeepsInv(s, rounds[0]);
      WillingSocketTurn(s, rounds[0]);
      if Turn(s, rounds[0]).status.Going? || Turn(s, rounds[0]).status.Returned? {
        WillingSocketGetsAll(Turn(s, rounds[0]), rounds[1..]);
      }
    } else {
      WillingSocketGetsAll(s, rounds[1..]);
    }
  }

  function Initial(to: seq<int>, fr: seq<int>): State
    requires |to| == MAXLINE == |fr|
  {
    State(Buffer(to, 0, 0), Buffer(fr, 0, 0), false, Going, 0, [], [], [], [])
  }

  function Quiet(): Round {
    Round(false, false, false, false, NoInput, NoInput, NoOutput, NoOutput)
  }

  /** It need not be: here stdin ends, a byte comes back while stdout would block, the
      server closes, and the byte is dropped. */
  lemma ReplyDropped(to: seq<int>, fr: seq<int>)
    requires |to| == MAXLINE == |fr|
    ensures
      var rounds := [
        Quiet().(stdinReady := true, stdin := Bytes([])),
        Quiet().(sockReady := true, sock := Bytes([7])),
        Quiet().(sockReady := true, sock := Bytes([]))];
      var t := Run(Initial(to, fr), rounds);
      t.status.Returned? && t.sockIn == [7] && t.stdout == []
  {
    var r1 := Quiet().(stdinReady := true, stdin := Bytes([]));
    var r2 := Quiet().(sockReady := true, sock := Bytes([7]));
    var r3 := Quiet().(sockReady := true, sock := Bytes([]));
    var s0 := Initial(to, fr);
    var s1 := Turn(s0, r1);
    TurnKeepsInv(s0, r1);
    var s2 := Turn(s1, r2);
    TurnKeepsInv(s1, r2);
    var s3 := Turn(s2, r3);
    TurnKeepsInv(s2, r3);
    assert Run(s2, [r3]) == Run(s3, []) == s3;
    assert [r2, r3][1..] == [r3];
    assert Run(s1, [r2, r3]) == Run(s2, [r3]);
    assert [r1, r2, r3][1..] == [r2, r3];
  }

  /** Nor need the requests be: here the server closes before the socket takes the byte. */
  lemma RequestDropped(to: seq<int>, fr: seq<int>)
    requires |to| == MAXLINE == |fr|
    ensures
      var rounds := [
        Quiet().(stdinReady := true, stdin := Bytes([7])),
        Quiet().(stdinReady := true, stdin := Bytes([])),
        Quiet().(sockReady := true, sock := Bytes([]))];
      var t := Run(Initial(to, fr), rounds);
      t.status.Returned? && t.stdin == [7] && t.sockOut == [] && t.fins == 0
  {
    var r1 := Quiet().(stdinReady := true, stdin := Bytes([7]));
    var r2 := Quiet().(stdinReady := true, stdin := Bytes([]));
    var r3 := Quiet().(sockReady := true, sock := Bytes([]));
    var s0 := Initial(to, fr);
    var s1 := Turn(s0, r1);
    TurnKeepsInv(s0, r1);
    var s2 := Turn(s1, r2);
    TurnKeepsInv(s1, r2);
    var s3 := Turn(s2, r3);
    TurnKeepsInv(s2, r3);
    assert Run(s2, [r3]) == Run(s3, []) == s3;
    assert [r2, r3][1..] == [r3];
    assert Run(s1, [r2, r3]) == Run(s2, [r3]);
    assert [r1, r2, r3][1..] == [r2, r3];
  }

  // ----- the program ----------------------------------------------------------------------------------

  /** read of at most room bytes into buffer from at on. */
  method Read(buffer: array<int>, at: nat, bytes: seq<int>) returns (n: nat)
    requires at <= buffer.Length == MAXLINE
    modifies buffer
    ensures n == if |bytes| <= MAXLINE - at then |bytes| else MAXLINE - at
    ensures buffer[..] == old(buffer[..at]) + bytes[..n] + old(buffer[at + n..])
  {
    n := if |bytes| <= buffer.Length - at then |bytes| else buffer.Length - at;
    forall k | 0 <= k < n {
      buffer[at + k] := bytes[k];
    }
  }

  /** What Read leaves is the buffer with the bytes taken. */
  lemma ReadStores(b: Buffer, bytes: seq<int>, n: nat, cells: seq<int>)
    requires BufferOk(b) && b.end + n <= MAXLINE
    requires n == if |bytes| <= MAXLINE - b.end then |bytes| else MAXLINE - b.end
    requires cells == b.cells[..b.end] + bytes[..n] + b.cells[b.end + n..]
    ensures bytes[..n] == Taken(b, bytes) && |Taken(b, bytes)| == n
    ensures Buffer(cells, b.out, b.end + n) == Stored(b, Taken(b, bytes))
    ensures n == 0 ==> cells == b.cells
  {
  }

  class Client {
    const to: array<int>
    const fr: array<int>
    var toiptr: int
    var tooptr: int
    var friptr: int
    var froptr: int
    var stdineof: bool
    var status: Status
    ghost var fins: nat
    ghost var stdin: seq<int>
    ghost var sockOut: seq<int>
    ghost var sockIn: seq<int>
    ghost var stdout: seq<int>

    ghost function Look(): State
      reads this, to, fr
    {
      State(Buffer(to[..], tooptr, toiptr), Buffer(fr[..], froptr, friptr), stdineof, status, fins,
            stdin, sockOut, sockIn, stdout)
    }

    ghost predicate Valid()
      reads this, to, fr
    {
      to != fr && to.Length == MAXLINE == fr.Length && Sound(Look())
    }

    constructor ()
      ensures Valid() && fresh(to) && fresh(fr) && Look() == Initial(to[..], fr[..]) && Inv(Look())
    {
      to := new int[MAXLINE];
      fr := new int[MAXLINE];
      toiptr, tooptr, friptr, froptr := 0, 0, 0, 0;
      stdineof, status, fins := false, Going, 0;
      stdin, sockOut, sockIn, stdout := [], [], [], [];
    }

    method ReadStdin(input: Input)
      requires Valid()
      modifies this, to
      ensures Valid() && Look() == FromStdin(old(Look()), input)
    {
      hide Stored, Taken;
      if input.InputError? {
        status := Failed;
      } else if input.Bytes? {
        var n := Read(to, toiptr, input.bytes);
        ghost var got := Taken(old(Look()).to, input.bytes);
        ReadStores(old(Look()).to, input.bytes, n, to[..]);
        if n == 0 {
          stdineof := true;
          if tooptr == toiptr {
            fins := fins + 1;
          }
        } else {
          toiptr := toiptr + n;
          stdin := stdin + got;
        }
      }
    }

    method ReadSocket(input: Input)
      requires Valid()
      modifies this, fr
      ensures Valid() && Look() == FromSocket(old(Look()), input)
    {
      hide Stored, Taken;
      if input.InputError? {
        status := Failed;
      } else if input.Bytes? {
        var n := Read(fr, friptr, input.bytes);
        ghost var got := Taken(old(Look()).fr, input.bytes);
        ReadStores(old(Look()).fr, input.bytes, n, fr[..]);
        if n == 0 {
          status := if stdineof then Returned else Premature;
        } else {
          friptr := friptr + n;
          sockIn := sockIn + got;
        }
      }
    }

    method WriteStdout(output: Output)
      requires Valid()
      modifies this
      ensures Valid() && Look() == ToStdout(old(Look()), output)
    {
      if output.OutputError? {
        status := Failed;
      } else if output.Accepts? {
        var nwritten := if output.limit <= friptr - froptr then output.limit else friptr - froptr;
        stdout := stdout + Pending(Look().fr)[..nwritten];
        froptr := froptr + nwritten;
        if froptr == friptr {
          froptr, friptr := 0, 0;
        }
      }
    }

    method WriteSocket(output: Output)
      requires Valid()
      modifies this
      ensures Valid() && Look() == ToSocket(old(Look()), output)
    {
      if output.OutputError? {
        status := Failed;
      } else if output.Accepts? {
        var nwritten := if output.limit <= toiptr - tooptr then output.limit else toiptr - tooptr;
        sockOut := sockOut + Pending(Look().to)[..nwritten];
        tooptr := tooptr + nwritten;
        if tooptr == toiptr {
          toiptr, tooptr := 0, 0;
          if stdineof {
            fins := fins + 1;
          }
        }
      }
    }

    /** The body of the loop, once select has returned. */
    method Once(r: Round)
      requires Valid() && status.Going? && Watched(Look(), r)
      modifies this, to, fr
      ensures Valid() && Look() == Turn(old(Look()), r)
    {
      hide FromStdin, FromSocket, ToStdout, ToSocket, BufferOk;
      var tryOut, trySock := r.stdoutReady, r.sockWritable;
      if r.stdinReady {
        ReadStdin(r.stdin);
        trySock := trySock || Arrives(r.stdin);
        if !status.Going? {
          return;
        }
      }
      if r.sockReady {
        ReadSocket(r.sock);
        tryOut := tryOut || Arrives(r.sock);
        if !status.Going? {
          return;
        }
      }
      if tryOut && froptr != friptr {
        WriteStdout(r.stdout);
        if !status.Going? {
          return;
        }
      }
      if trySock && tooptr != toiptr {
        WriteSocket(r.sockOut);
      }
    }

    predicate CanReport(r: Round)
      reads this, to, fr
      ensures CanReport(r) == Watched(Look(), r)
    {
      && (r.stdinReady ==> !stdineof && toiptr < MAXLINE)
      && (r.sockReady ==> friptr < MAXLINE)
      && (r.stdoutReady ==> froptr != friptr)
      && (r.sockWritable ==> tooptr != toiptr)
    }

    /** str_cli, for what the environment does in these turns. */
    method StrCli(rounds: seq<Round>)
      requires Valid() && Inv(Look())
      modifies this, to, fr
      ensures Valid() && Look() == Run(old(Look()), rounds)
      ensures sockOut <= stdin && stdout <= sockIn && fins <= 1
      ensures fins == 1 <==> stdineof && sockOut == stdin
    {
      hide Turn, Pending, BufferOk;
      RunIsSafe(Look(), rounds);
      var n := 0;
      while n < |rounds| && status.Going?
        invariant n <= |rounds| && Valid() && Inv(Look())
        invariant Run(Look(), rounds[n..]) == Run(old(Look()), rounds)
      {
        assert rounds[n..][0] == rounds[n] && rounds[n..][1..] == rounds[n + 1..];
        if CanReport(rounds[n]) {
          TurnKeepsInv(Look(), rounds[n]);
          Once(rounds[n]);
        }
        n := n + 1;
      }
    }
  }
}
