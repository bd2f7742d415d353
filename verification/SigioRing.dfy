/** The signal-driven echo server: the main loop and the SIGIO handler share a ring of
    datagrams. A schedule says when datagrams arrive at the socket, and between which
    steps of the main loop a pending signal is delivered. */
module SigioRing {
  const QSIZE := 8

  datatype Datagram = Datagram(data: seq<int>, sender: seq<int>)

  /** Where the main loop stands: at the test of nqueue and at the decrement SIGIO is
      blocked, everywhere else the handler may run. */
  datatype Pc = Testing | Suspended | Sending | Sent | Stepping | Stepped | Releasing

  /** The shared variables; the kernel's side, namely the datagrams that wait at the
      socket and whether SIGIO is pending; and what has arrived at the socket, been read
      from it, and been sent so far. */
  datatype State = State(
    ring: seq<Datagram>, iget: int, iput: int, nqueue: int, cntread: seq<nat>, pc: Pc,
    socket: seq<Datagram>, pending: bool,
    arrived: seq<Datagram>, received: seq<Datagram>, sent: seq<Datagram>)

  datatype Outcome = Running(state: State) | Overflow | Broken

  /** A step of the main loop; the arrival of a datagram, which makes SIGIO pending; or the
      delivery of SIGIO, with the datagrams that arrive while the handler still reads, and
      whether recvfrom then fails with an error other than EWOULDBLOCK. */
  datatype Event = Main | Arrive(d: Datagram) | Signal(during: seq<Datagram>, fails: bool)

  // ----- the steps ---------------------------------------------------------------------

  predicate Open(pc: Pc) {
    !pc.Testing? && !pc.Releasing?
  }

  /** One step of the main loop; sigsuspend returns only behind the handler. */
  function MainStep(s: State): State
    requires |s.ring| == QSIZE && (s.pc.Sending? ==> 0 <= s.iget < QSIZE)
  {
    match s.pc
    case Testing => s.(pc := if s.nqueue == 0 then Suspended else Sending)
    case Suspended => s
    case Sending => s.(sent := s.sent + [s.ring[s.iget]], pc := Sent)
    case Sent => s.(iget := s.iget + 1, pc := Stepping)
    case Stepping => s.(iget := if s.iget >= QSIZE then 0 else s.iget, pc := Stepped)
    case Stepped => s.(pc := Releasing)
    case Releasing => s.(nqueue := s.nqueue - 1, pc := Testing)
  }

  /** recvfrom of the first waiting datagram. */
  function Receive(s: State): State
    requires |s.ring| == QSIZE && 0 <= s.iput < QSIZE && s.socket != []
  {
    s.(ring := s.ring[s.iput := s.socket[0]], nqueue := s.nqueue + 1,
       iput := if s.iput + 1 >= QSIZE then 0 else s.iput + 1,
       received := s.received + [s.socket[0]], socket := s.socket[1..])
  }

  /** The loop of the handler, with nread datagrams read by this signal. */
  function Handle(s: State, fails: bool, nread: nat): Outcome
    requires |s.ring| == QSIZE && 0 <= s.iput < QSIZE && |s.cntread| == QSIZE + 1 && nread <= s.nqueue
    decreases |s.socket|
  {
    if s.nqueue >= QSIZE then Overflow
    else if s.socket != [] then Handle(Receive(s), fails, nread + 1)
    else if fails then Broken
    else Running(s.(cntread := s.cntread[nread := s.cntread[nread] + 1],
                    pc := if s.pc.Suspended? then Testing else s.pc))
  }

  /** A datagram reaches the socket; the signal it raises stays pending while blocked. */
  function Arrived(s: State, d: Datagram): State {
    s.(socket := s.socket + [d], arrived := s.arrived + [d], pending := true)
  }

  /** The signal is taken; what arrives during the handler raises it again. */
  function Interrupted(s: State, during: seq<Datagram>): State {
    s.(socket := s.socket + during, arrived := s.arrived + during, pending := during != [])
  }

  // ----- the invariant --------------------------------------------------------------------

  /** How many datagrams have left the ring. */
  function Released(s: State): int {
    |s.received| - s.nqueue
  }

  /** Between Sendto and the decrement the sent datagram is still counted. */
  function Lag(pc: Pc): int {
    if pc.Sent? || pc.Stepping? || pc.Stepped? || pc.Releasing? then 1 else 0
  }

  /** Between the bump of iget and the decrement iget is one ahead. */
  function Ahead(pc: Pc): int {
    if pc.Stepping? || pc.Stepped? || pc.Releasing? then 1 else 0
  }

  function Slot(k: int): (i: int)
    ensures 0 <= i < QSIZE
  {
    k % QSIZE
  }

  lemma NextSlot(k: int)
    ensures Slot(k + 1) == if Slot(k) + 1 >= QSIZE then 0 else Slot(k) + 1
  {
  }

  lemma SlotsDiffer(j: int, k: int)
    requires j < k < j + QSIZE
    ensures Slot(j) != Slot(k)
  {
  }

  /** Datagram number k of those received lives in slot k mod QSIZE while it is queued. */
  ghost predicate Stored(s: State)
    requires |s.ring| == QSIZE && 0 <= s.nqueue <= |s.received|
  {
    forall k {:trigger s.received[k]} :: Released(s) <= k < |s.received| ==> s.ring[Slot(k)] == s.received[k]
  }

  /** The histogram accounts for every datagram read. */
  function Counted(cntread: seq<nat>): nat {
    if cntread == [] then 0 else Counted(cntread[..|cntread| - 1]) + (|cntread| - 1) * cntread[|cntread| - 1]
  }

  /** What holds between the handler's own steps too. */
  ghost predicate RingInv(s: State) {
    && |s.ring| == QSIZE && |s.cntread| == QSIZE + 1
    && 0 <= s.nqueue <= QSIZE && s.nqueue <= |s.received|
    && s.iput == Slot(|s.received|)
    && s.iget == (if s.pc.Stepping? then Slot(Released(s)) + 1 else Slot(Released(s) + Ahead(s.pc)))
    && (s.pc.Suspended? || s.pc.Testing? || s.nqueue >= 1)
    && Stored(s)
    && s.sent == s.received[..Released(s) + Lag(s.pc)]
    && s.arrived == s.received + s.socket
  }

  ghost predicate Inv(s: State) {
    && RingInv(s) && s.nqueue < QSIZE
    && Counted(s.cntread) == |s.received| && s.cntread[QSIZE] == 0
    && (s.socket != [] ==> s.pending)
    && (s.pc.Suspended? ==> s.nqueue == 0)
  }

  function Initial(ring: seq<Datagram>): State {
    State(ring, 0, 0, 0, seq(QSIZE + 1, _ => 0), Testing, [], false, [], [], [])
  }

  lemma NothingCounted(n: nat)
    ensures Counted(seq(n, _ => 0)) == 0
  {
    if n > 0 {
      NothingCounted(n - 1);
      assert seq<nat>(n, _ => 0)[..n - 1] == seq<nat>(n - 1, _ => 0);
    }
  }

  lemma InitialHolds(ring: seq<Datagram>)
    requires |ring| == QSIZE
    ensures Inv(Initial(ring))
  {
    NothingCounted(QSIZE + 1);
  }

  lemma MainKeepsInv(s: State)
    requires Inv(s)
    ensures Inv(MainStep(s))
  {
    hide Counted, Slot;
    NextSlot(Released(s));
  }

  /** A datagram read by the handler joins the queue, and no queued one is touched. */
  lemma ReceiveKeepsRing(s: State)
    requires RingInv(s) && s.nqueue < QSIZE && Open(s.pc) && s.socket != []
    ensures RingInv(Receive(s))
    ensures forall k :: Released(s) <= k < |s.received| ==> Receive(s).ring[Slot(k)] == s.ring[Slot(k)]
  {
    hide Counted, Slot;
    NextSlot(|s.received|);
    assert s.received + [s.socket[0]] + s.socket[1..] == s.received + s.socket;
    forall k | Released(s) <= k < |s.received|
      ensures Slot(k) != Slot(|s.received|)
    {
      SlotsDiffer(k, |s.received|);
    }
  }

  lemma {:induction false} OneMore(c: seq<nat>, n: nat)
    requires n < |c|
    ensures Counted(c[n := c[n] + 1]) == Counted(c) + n
  {
    var last := |c| - 1;
    if n < last {
      OneMore(c[..last], n);
      assert c[n := c[n] + 1][..last] == c[..last][n := c[n] + 1];
    } else {
      assert c[n := c[n] + 1][..last] == c[..last];
    }
  }

  lemma {:induction false} HandleKeepsInv(s: State, fails: bool, nread: nat)
    requires RingInv(s) && Open(s.pc) && nread <= s.nqueue
    requires Counted(s.cntread) + nread == |s.received| && s.cntread[QSIZE] == 0
    ensures Handle(s, fails, nread).Overflow? <==> s.nqueue + |s.socket| >= QSIZE
    ensures Handle(s, fails, nread).Running? <==> s.nqueue + |s.socket| < QSIZE && !fails
    ensures Handle(s, fails, nread).Running? ==>
      var t := Handle(s, fails, nread).state;
      && Inv(t) && t.sent == s.sent && t.received == t.arrived == s.arrived && t.socket == [] && t.iget == s.iget
      && t.nqueue == s.nqueue + |s.socket|
      && t.pc == (if s.pc.Suspended? then Testing else s.pc)
      && forall k :: Released(s) <= k < |s.received| ==> t.ring[Slot(k)] == s.ring[Slot(k)]
    decreases |s.socket|
  {
    hide Counted, Slot;
    if s.nqueue >= QSIZE {
    } else if s.socket != [] {
      ReceiveKeepsRing(s);
      HandleKeepsInv(Receive(s), fails, nread + 1);
    } else {
      OneMore(s.cntread, nread);
    }
  }

  // ----- whole runs ---------------------------------------------------------------------------

  /** SIGIO is delivered only if it is pending and not blocked. */
  predicate Enabled(s: State, e: Event) {
    e.Signal? ==> s.pending && Open(s.pc)
  }

  ghost function Step(s: State, e: Event): Outcome
    requires Inv(s)
  {
    match e
    case Main => Running(MainStep(s))
    case Arrive(d) => Running(Arrived(s, d))
    case Signal(during, fails) => if Enabled(s, e) then Handle(Interrupted(s, during), fails, 0) else Running(s)
  }

  lemma InterruptedRing(s: State, during: seq<Datagram>)
    requires Inv(s)
    ensures RingInv(Interrupted(s, during))
  {
    assert s.received + s.socket + during == s.received + (s.socket + during);
  }

  lemma ArrivedKeepsInv(s: State, d: Datagram)
    requires Inv(s)
    ensures Inv(Arrived(s, d))
  {
    assert s.received + s.socket + [d] == s.received + (s.socket + [d]);
  }

  lemma StepKeepsInv(s: State, e: Event)
    requires Inv(s)
    ensures Step(s, e).Running? ==> Inv(Step(s, e).state)
    ensures Step(s, e).Overflow? <==> e.Signal? && Enabled(s, e) && s.nqueue + |s.socket| + |e.during| >= QSIZE
  {
    hide Stored, Counted, Slot, MainStep;
    match e
    case Main => MainKeepsInv(s);
    case Arrive(d) => ArrivedKeepsInv(s, d);
    case Signal(during, fails) =>
      if Enabled(s, e) {
        InterruptedRing(s, during);
        HandleKeepsInv(Interrupted(s, during), fails, 0);
      }
  }

  ghost function Run(s: State, schedule: seq<Event>): Outcome
    requires Inv(s)
    decreases |schedule|
  {
    if schedule == [] then Running(s)
    else
      StepKeepsInv(s, schedule[0]);
      var next := Step(s, schedule[0]);
      if next.Running? then Run(next.state, schedule[1..]) else next
  }

  /** For every schedule: the replies are the first of the receipts, each once and in
      order; at most the seven queued ones are outstanding; what was not received yet
      still waits at the socket, with SIGIO pending; and iput is nqueue behind iget, less
      the one that is sent but not yet counted out. */
  lemma {:induction false} RunIsFifo(s: State, schedule: seq<Event>)
    requires Inv(s) && Run(s, schedule).Running?
    ensures
      var t := Run(s, schedule).state;
      && Inv(t) && s.arrived <= t.arrived && s.sent <= t.sent <= t.received
      && t.arrived == t.received + t.socket && (t.socket != [] ==> t.pending)
      && |t.received| - |t.sent| == t.nqueue - Lag(t.pc) < QSIZE
      && (t.iget + t.nqueue - Ahead(t.pc)) % QSIZE == t.iput
      && Counted(t.cntread) == |t.received|
    decreases |schedule|
  {
    hide Stored, Counted, MainStep, Handle;
    if schedule == [] {
      IndexesTrack(s);
    } else {
      StepKeepsInv(s, schedule[0]);
      StepGrows(s, schedule[0]);
      RunIsFifo(Step(s, schedule[0]).state, schedule[1..]);
    }
  }

  lemma IndexesTrack(s: State)
    requires Inv(s)
    ensures (s.iget + s.nqueue - Ahead(s.pc)) % QSIZE == s.iput
  {
    hide Stored, Counted, Slot;
    SlotPlus(Released(s), s.nqueue);
    SlotPlus(Released(s) + Ahead(s.pc), s.nqueue - Ahead(s.pc));
  }

  lemma SlotPlus(k: int, n: int)
    ensures (Slot(k) + n) % QSIZE == Slot(k + n)
  {
  }

  lemma StepGrows(s: State, e: Event)
    requires Inv(s) && Step(s, e).Running?
    ensures s.arrived <= Step(s, e).state.arrived && s.sent <= Step(s, e).state.sent
  {
    hide Stored, Counted, Slot;
    if e.Signal? && Enabled(s, e) {
      InterruptedRing(s, e.during);
      HandleKeepsInv(Interrupted(s, e.during), e.fails, 0);
    }
  }

  /** The suspended loop sleeps until the handler has run, and while SIGIO is blocked, at
      the test and at the decrement, a signal waits. */
  lemma Waits(s: State, during: seq<Datagram>, fails: bool)
    requires Inv(s)
    ensures s.pc.Suspended? ==> Step(s, Main) == Running(s)
    ensures s.pc.Testing? || s.pc.Releasing? ==> Step(s, Signal(during, fails)) == Running(s)
  {
  }

  /** No signal overwrites the datagram that is being sent. */
  lemma SendingSlotIsKept(s: State, e: Event)
    requires Inv(s) && s.pc.Sending? && e.Signal? && Step(s, e).Running?
    ensures Inv(Step(s, e).state) && 0 <= s.iget < QSIZE && |s.sent| < |s.received|
    ensures Step(s, e).state.iget == s.iget && Step(s, e).state.ring[s.iget] == s.ring[s.iget] == s.received[|s.sent|]
    ensures MainStep(Step(s, e).state).sent == s.sent + [s.received[|s.sent|]]
  {
    hide Counted, Slot;
    if Enabled(s, e) {
      InterruptedRing(s, e.during);
      HandleKeepsInv(Interrupted(s, e.during), e.fails, 0);
    }
    assert s.ring[Slot(Released(s))] == s.received[Released(s)];
  }

  /** t has an empty queue, and every datagram that s had received is sent. */
  ghost predicate Answered(s: State, t: State) {
    && Inv(t) && t.nqueue == 0 && t.pc.Testing?
    && t.sent == t.received == s.received && t.arrived == s.arrived
  }

  ghost function MainRun(s: State, n: nat): State
    requires Inv(s)
    decreases n
  {
    if n == 0 then s else MainKeepsInv(s); MainRun(MainStep(s), n - 1)
  }

  /** Left alone, the main loop answers everything that was received. */
  lemma {:induction false} QueueDrains(s: State)
    requires Inv(s) && s.pc.Testing?
    ensures Answered(s, MainRun(s, 6 * s.nqueue))
    decreases s.nqueue
  {
    if s.nqueue > 0 {
      OneTurn(s);
      var t := MainRun(s, 6);
      QueueDrains(t);
      RunsJoin(s, 6, 6 * t.nqueue);
    }
  }

  lemma OneTurn(s: State)
    requires Inv(s) && s.pc.Testing? && s.nqueue > 0
    ensures var t := MainRun(s, 6); Inv(t) && t.pc.Testing? && t.nqueue == s.nqueue - 1 && t.received == s.received && t.arrived == s.arrived
  {
    hide Inv;
    var s1 := Turn(s, 6);
    var s2 := Turn(s1, 5);
    var s3 := Turn(s2, 4);
    var s4 := Turn(s3, 3);
    var s5 := Turn(s4, 2);
    var s6 := Turn(s5, 1);
  }

  lemma Turn(s: State, n: nat) returns (t: State)
    requires Inv(s) && n > 0
    ensures Inv(t) && MainRun(s, n) == MainRun(t, n - 1) && t.received == s.received && t.arrived == s.arrived
    ensures match s.pc
      case Testing => t.nqueue == s.nqueue && t.pc == if s.nqueue == 0 then Suspended else Sending
      case Suspended => t == s
      case Sending => t.nqueue == s.nqueue && t.pc.Sent?
      case Sent => t.nqueue == s.nqueue && t.pc.Stepping?
      case Stepping => t.nqueue == s.nqueue && t.pc.Stepped?
      case Stepped => t.nqueue == s.nqueue && t.pc.Releasing?
      case Releasing => t.nqueue == s.nqueue - 1 && t.pc.Testing?
  {
    hide Stored, Counted, Slot;
    MainKeepsInv(s);
    t := MainStep(s);
  }

  lemma {:induction false} RunsJoin(s: State, m: nat, n: nat)
    requires Inv(s)
    decreases m
    ensures Inv(MainRun(s, m)) && MainRun(MainRun(s, m), n) == MainRun(s, m + n)
  {
    if m > 0 {
      MainKeepsInv(s);
      RunsJoin(MainStep(s), m - 1, n);
    }
  }

  /** No wakeup is lost between the test of nqueue and sigsuspend: a datagram that has
      arrived by then has SIGIO pending, the suspended loop is woken by it, and everything
      that arrived is answered. */
  lemma NoLostWakeup(s: State) returns (u: State)
    requires Inv(s) && (s.pc.Testing? || s.pc.Suspended?) && s.nqueue == 0 && 0 < |s.socket| < QSIZE
    ensures s.pending && Inv(MainStep(s)) && MainStep(s).pc.Suspended?
    ensures Step(MainStep(s), Signal([], false)) == Running(u) && Inv(u) && u.pc.Testing? && u.arrived == s.arrived
    ensures MainRun(u, 6 * u.nqueue).sent == s.arrived
  {
    hide Stored, Counted, Slot;
    MainKeepsInv(s);
    var t := MainStep(s);
    InterruptedRing(t, []);
    HandleOpens(t);
    u := Handle(Interrupted(t, []), false, 0).state;
    QueueDrains(u);
  }

  lemma HandleOpens(t: State)
    requires Inv(t) && t.pc.Suspended? && t.nqueue + |t.socket| < QSIZE && t.pending
    ensures RingInv(Interrupted(t, []))
    ensures Handle(Interrupted(t, []), false, 0).Running?
    ensures var u := Handle(Interrupted(t, []), false, 0).state;
            Inv(u) && u.pc.Testing? && u.received == u.arrived == t.arrived
  {
    hide Stored, Counted, Slot;
    InterruptedRing(t, []);
    HandleKeepsInv(Interrupted(t, []), false, 0);
  }

  /** Everything that has arrived is sent. */
  predicate AllSent(s: State) {
    s.socket == [] && s.nqueue == Lag(s.pc)
  }

  lemma AllSentIsAnswered(s: State)
    requires Inv(s)
    ensures AllSent(s) <==> s.sent == s.arrived
  {
    hide Stored, Counted, Slot;
    assert AllSent(s) ==> s.received[..|s.received|] == s.received == s.received + s.socket;
  }

  /** How many steps of a turn are done: test, send, and so on. */
  function Progress(pc: Pc): nat {
    match pc
    case Testing => 0
    case Suspended => 1
    case Sending => 1
    case Sent => 2
    case Stepping => 3
    case Stepped => 4
    case Releasing => 5
  }

  /** At most this many steps are left: six for each datagram, and three to receive them. */
  function StepsLeft(s: State): int {
    6 * (s.nqueue + |s.socket|) - Progress(s.pc) + if s.socket != [] then 3 else 0
  }

  /** The handler goes first whenever it may. */
  function Next(s: State): Event {
    if s.socket != [] && Open(s.pc) then Signal([], false) else Main
  }

  lemma NextSignal(s: State) returns (t: State)
    requires Inv(s) && s.nqueue + |s.socket| < QSIZE && s.socket != [] && Open(s.pc)
    ensures Step(s, Signal([], false)) == Running(t) && Inv(t) && t.nqueue + |t.socket| < QSIZE && t.arrived == s.arrived
    ensures 0 < StepsLeft(s) && StepsLeft(t) < StepsLeft(s)
  {
    hide Stored, Counted, Slot, MainStep;
    InterruptedRing(s, []);
    HandleKeepsInv(Interrupted(s, []), false, 0);
    t := Handle(Interrupted(s, []), false, 0).state;
  }

  lemma NextMain(s: State) returns (t: State)
    requires Inv(s) && s.nqueue + |s.socket| < QSIZE && !AllSent(s) && (s.socket == [] || !Open(s.pc))
    ensures Step(s, Main) == Running(t) && Inv(t) && t.nqueue + |t.socket| < QSIZE && t.arrived == s.arrived
    ensures 0 < StepsLeft(s) && StepsLeft(t) < StepsLeft(s)
  {
    hide Stored, Counted, Slot, Handle;
    MainKeepsInv(s);
    t := MainStep(s);
  }

  /** From every state in which queue and socket together are below eight, wherever the
      main loop stands: within 45 steps everything that has arrived is sent. */
  lemma ArrivalsAreAnswered(s: State) returns (schedule: seq<Event>)
    requires Inv(s) && s.nqueue + |s.socket| < QSIZE
    ensures |schedule| <= 45 && forall i :: 0 <= i < |schedule| ==> schedule[i] == Main || schedule[i] == Signal([], false)
    ensures Run(s, schedule).Running? && Run(s, schedule).state.sent == Run(s, schedule).state.arrived == s.arrived
  {
    schedule := DrainFrom(s);
  }

  lemma {:induction false} DrainFrom(s: State) returns (schedule: seq<Event>)
    requires Inv(s) && s.nqueue + |s.socket| < QSIZE
    ensures |schedule| <= if StepsLeft(s) < 0 then 0 else StepsLeft(s)
    ensures forall i :: 0 <= i < |schedule| ==> schedule[i] == Main || schedule[i] == Signal([], false)
    ensures Run(s, schedule).Running? && Run(s, schedule).state.sent == Run(s, schedule).state.arrived == s.arrived
    decreases StepsLeft(s)
  {
    hide Inv, Step, StepsLeft, AllSent;
    AllSentIsAnswered(s);
    if AllSent(s) {
      schedule := [];
    } else {
      var t;
      if Next(s).Signal? {
        t := NextSignal(s);
      } else {
        t := NextMain(s);
      }
      var rest := DrainFrom(t);
      schedule := [Next(s)] + rest;
      assert schedule[1..] == rest;
    }
  }

  /** Eight datagrams are too many for the eight slots: the first wakes the loop, seven
      more arrive during the handler, and the program quits with the socket empty. */
  lemma EightOverflow(ring: seq<Datagram>, d: Datagram)
    requires |ring| == QSIZE
    ensures Inv(Initial(ring))
    ensures Run(Initial(ring), [Arrive(d), Main, Signal(seq(7, _ => d), false)]).Overflow?
  {
    hide Stored, Counted, Slot;
    var s := Initial(ring);
    var during := seq(7, _ => d);
    InitialHolds(ring);
    StepKeepsInv(s, Arrive(d));
    var t := Arrived(s, d);
    StepKeepsInv(t, Main);
    var u := MainStep(t);
    StepKeepsInv(u, Signal(during, false));
    assert Step(u, Signal(during, false)).Overflow?;
    assert [Main, Signal(during, false)][1..] == [Signal(during, false)];
    assert Run(t, [Main, Signal(during, false)]) == Run(u, [Signal(during, false)]);
    assert [Arrive(d), Main, Signal(during, false)][1..] == [Main, Signal(during, false)];
  }

  // ----- the program --------------------------------------------------------------------------

  /** How a call ended: err_quit and err_sys end the program. */
  datatype Exit = Alive | ReceiveOverflow | ReceiveError

  /** The outcome o of the specification is what happened: exit, in state s. */
  predicate Ended(o: Outcome, exit: Exit, s: State) {
    match o
    case Running(t) => exit.Alive? && s == t
    case Overflow => exit.ReceiveOverflow?
    case Broken => exit.ReceiveError?
  }

  lemma EndedInOverflow(o: Outcome, s: State)
    requires o == Overflow
    ensures Ended(o, ReceiveOverflow, s)
  {
  }

  lemma HandleTurns(s: State, fails: bool, nread: nat)
    requires RingInv(s) && nread <= s.nqueue
    ensures s.nqueue >= QSIZE ==> Handle(s, fails, nread) == Overflow
    ensures s.nqueue < QSIZE && s.socket != [] ==> Handle(s, fails, nread) == Handle(Receive(s), fails, nread + 1)
  {
  }

  class Echo {
    const ring: array<Datagram>
    const cntread: array<nat>
    var iget: int
    var iput: int
    var nqueue: int
    var pc: Pc
    /** The kernel's side. */
    var socket: seq<Datagram>
    var pending: bool
    ghost var arrived: seq<Datagram>
    ghost var received: seq<Datagram>
    ghost var sent: seq<Datagram>

    ghost function Look(): State
      reads this, ring, cntread
    {
      State(ring[..], iget, iput, nqueue, cntread[..], pc, socket, pending, arrived, received, sent)
    }

    constructor (buffers: seq<Datagram>)
      requires |buffers| == QSIZE
      ensures Look() == Initial(buffers) && Inv(Look()) && fresh(ring) && fresh(cntread)
    {
      ring := new Datagram[QSIZE](i requires 0 <= i < QSIZE => buffers[i]);
      cntread := new nat[QSIZE + 1](_ => 0);
      iget, iput, nqueue, pc := 0, 0, 0, Testing;
      socket, pending := [], false;
      arrived, received, sent := [], [], [];
      new;
      assert ring[..] == buffers;
      InitialHolds(buffers);
    }

    /** A datagram reaches the socket. */
    method Deposit(d: Datagram)
      modifies this
      ensures Look() == Arrived(old(Look()), d)
    {
      socket, arrived, pending := socket + [d], arrived + [d], true;
    }

    /** recvfrom into the slot at iput. */
    method Read()
      requires RingInv(Look()) && nqueue < QSIZE && Open(pc) && socket != []
      modifies this, ring
      ensures Look() == Receive(old(Look())) && RingInv(Look())
    {
      hide Stored, Counted, Slot;
      ReceiveKeepsRing(Look());
      ring[iput] := socket[0];
      received := received + [socket[0]];
      socket := socket[1..];
      nqueue := nqueue + 1;
      iput := iput + 1;
      if iput >= QSIZE {
        iput := 0;
      }
    }

    /** The handler: it reads until the socket is empty, and gives up at a full queue. */
    method SigIo(during: seq<Datagram>, fails: bool) returns (exit: Exit)
      requires Inv(Look()) && Open(pc)
      modifies this, ring, cntread
      ensures Ended(Handle(Interrupted(old(Look()), during), fails, 0), exit, Look())
    {
      hide Stored, Counted, Slot, Handle, Ended;
      ghost var s := Interrupted(Look(), during);
      InterruptedRing(Look(), during);
      socket, arrived, pending := socket + during, arrived + during, during != [];
      var nread := 0;
      while true
        invariant 0 <= nread <= nqueue && Open(pc)
        invariant RingInv(Look())
        invariant Handle(Look(), fails, nread) == Handle(s, fails, 0)
        decreases |socket|
      {
        HandleTurns(Look(), fails, nread);
        if nqueue >= QSIZE {
          EndedInOverflow(Handle(Look(), fails, nread), Look());
          return ReceiveOverflow;
        }
        if socket == [] {
          break;
        }
        Read();
        nread := nread + 1;
      }
      exit := Leave(nread, fails);
    }

    /** What the handler does once the socket is empty. */
    method Leave(nread: nat, fails: bool) returns (exit: Exit)
      requires RingInv(Look()) && nread <= nqueue < QSIZE && socket == []
      modifies this, cntread
      ensures Ended(Handle(old(Look()), fails, nread), exit, Look())
    {
      hide Stored, Counted, Slot;
      if fails {
        return ReceiveError;
      }
      cntread[nread] := cntread[nread] + 1;
      if pc.Suspended? {
        pc := Testing;
      }
      exit := Alive;
    }

    /** The next step of the main loop. */
    method GoOn()
      requires Inv(Look())
      modifies this
      ensures Look() == MainStep(old(Look()))
    {
      hide Stored, Counted, Slot;
      match pc
      case Testing => pc := if nqueue == 0 then Suspended else Sending;
      case Suspended =>
      case Sending =>
        sent := sent + [ring[iget]];
        pc := Sent;
      case Sent =>
        iget := iget + 1;
        pc := Stepping;
      case Stepping =>
        if iget >= QSIZE {
          iget := 0;
        }
        pc := Stepped;
      case Stepped => pc := Releasing;
      case Releasing =>
        nqueue := nqueue - 1;
        pc := Testing;
    }

    /** The program under a schedule: while it is alive its replies are the first of its
        receipts. */
    method Serve(schedule: seq<Event>) returns (exit: Exit)
      requires Inv(Look())
      modifies this, ring, cntread
      ensures Ended(Run(old(Look()), schedule), exit, Look())
      ensures exit.Alive? ==> Inv(Look()) && sent <= received && |received| - |sent| < QSIZE
      ensures exit.Alive? ==> arrived == received + socket && (socket != [] ==> pending)
    {
      hide Stored, Counted, Slot, MainStep, Handle;
      exit := Alive;
      for n := 0 to |schedule|
        invariant exit.Alive? && Inv(Look())
        invariant Run(Look(), schedule[n..]) == Run(old(Look()), schedule)
      {
        StepKeepsInv(Look(), schedule[n]);
        assert schedule[n..][1..] == schedule[n + 1..];
        match schedule[n]
        case Main => GoOn();
        case Arrive(d) => Deposit(d);
        case Signal(during, fails) =>
          if pending && Open(pc) {
            exit := SigIo(during, fails);
            if !exit.Alive? {
              return;
            }
          }
      }
      RunIsFifo(Look(), []);
    }
  }
}
