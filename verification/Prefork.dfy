/** The preforked server that passes descriptors: the parent's table of children, and the
    children at the other ends of their stream pipes, interleaved in any order. The k-th
    connection accepted is number k. */
module Prefork {
  /** A child is in read_fd, serves a connection, or has closed it and is about to write. */
  datatype Worker = Waiting | Serving(conn: nat) | Closed

  /** One line of the parent's table (status, count), the pipe in both directions (tokens
      with their connections, reply bytes), and the child. given and served record what
      the parent wrote and what the child finished. */
  datatype Child = Child(
    status: int, count: nat, pipe: seq<nat>, replies: nat, worker: Worker, given: seq<nat>, served: seq<nat>)

  /** Where the parent stands: at select; behind it with the descriptors found ready; or
      in the loop over the children. */
  datatype Pc = Selecting | Selected(listen: bool, ready: set<nat>, nsel: int) | Scanning(i: nat, ready: set<nat>, nsel: int)

  datatype State = State(kids: seq<Child>, navail: int, accepted: nat, pc: Pc)

  /** select returns; the parent goes on; child i goes on. */
  datatype Event = Select(listen: bool, ready: set<nat>) | Parent | Kid(i: nat)

  datatype Outcome = Running(state: State) | NoAvailableChildren

  // ----- the steps -----------------------------------------------------------------------

  /** The first child with status 0, or the number of children. */
  function FirstAvailable(kids: seq<Child>): (i: nat)
    ensures i <= |kids| && (i < |kids| ==> kids[i].status == 0)
    ensures forall j :: 0 <= j < i ==> kids[j].status != 0
  {
    if kids == [] then 0
    else if kids[0].status == 0 then 0
    else
      assert forall j :: 0 < j < |kids| ==> kids[j] == kids[1..][j - 1];
      1 + FirstAvailable(kids[1..])
  }

  /** select waits on listenfd only while navail is positive, and returns with something. */
  predicate Watched(s: State, listen: bool, ready: set<nat>) {
    && s.pc.Selecting?
    && (listen ==> s.navail > 0)
    && (forall i :: i in ready ==> i < |s.kids| && s.kids[i].replies > 0)
    && (listen || ready != {})
  }

  function Give(k: Child, conn: nat): Child {
    k.(status := 1, count := k.count + 1, pipe := k.pipe + [conn], given := k.given + [conn])
  }

  function TakeReply(k: Child): Child
    requires k.replies > 0
  {
    k.(status := 0, replies := k.replies - 1)
  }

  function KidStep(k: Child): Child {
    match k.worker
    case Waiting => if k.pipe == [] then k else k.(pipe := k.pipe[1..], worker := Serving(k.pipe[0]))
    case Serving(c) => k.(served := k.served + [c], worker := Closed)
    case Closed => k.(replies := k.replies + 1, worker := Waiting)
  }

  /** What the parent does next; a reply that it goes to read must be there. */
  function ParentStep(s: State): Outcome
    requires s.pc.Scanning? && s.pc.i < |s.kids| && s.pc.i in s.pc.ready ==> s.kids[s.pc.i].replies > 0
  {
    match s.pc
    case Selecting => Running(s)
    case Selected(listen, ready, nsel) =>
      if !listen then Running(s.(pc := Scanning(0, ready, nsel)))
      else
        var i := FirstAvailable(s.kids);
        if i == |s.kids| then NoAvailableChildren
        else
          Running(State(s.kids[i := Give(s.kids[i], s.accepted)], s.navail - 1, s.accepted + 1,
                        if nsel - 1 == 0 then Selecting else Scanning(0, ready, nsel - 1)))
    case Scanning(i, ready, nsel) =>
      if i >= |s.kids| then Running(s.(pc := Selecting))
      else if i !in ready then Running(s.(pc := Scanning(i + 1, ready, nsel)))
      else
        Running(State(s.kids[i := TakeReply(s.kids[i])], s.navail + 1, s.accepted,
                      if nsel - 1 == 0 then Selecting else Scanning(i + 1, ready, nsel - 1)))
  }

  // ----- the invariant ----------------------------------------------------------------------

  function Held(w: Worker): seq<nat> {
    if w.Serving? then [w.conn] else []
  }

  function Busy(k: Child): nat {
    |k.pipe| + (if k.worker.Waiting? then 0 else 1) + k.replies
  }

  /** status counts the one token the child may hold, wherever it is; and what was given
      is what is served, being served and still in the pipe, in this order. */
  ghost predicate KidInv(k: Child) {
    && 0 <= k.status <= 1 && Busy(k) == k.status
    && k.given == k.served + Held(k.worker) + k.pipe
    && k.count == |k.given|
  }

  function Available(kids: seq<Child>): nat {
    if kids == [] then 0 else (if kids[0].status == 0 then 1 else 0) + Available(kids[1..])
  }

  function Given(kids: seq<Child>): multiset<nat> {
    if kids == [] then multiset{} else multiset(kids[0].given) + Given(kids[1..])
  }

  /** 0, 1, .. n - 1, each once. */
  function Upto(n: nat): multiset<nat> {
    if n == 0 then multiset{} else Upto(n - 1) + multiset{n - 1}
  }

  /** The descriptors select found ready and the parent has not looked at yet. */
  function Left(ready: set<nat>, i: nat): set<nat> {
    set k | k in ready && i <= k
  }

  ghost predicate PcInv(s: State) {
    match s.pc
    case Selecting => true
    case Selected(listen, ready, nsel) =>
      && (listen ==> s.navail > 0) && nsel == (if listen then 1 else 0) + |ready| && nsel > 0
      && forall k :: k in ready ==> k < |s.kids| && s.kids[k].replies > 0
    case Scanning(i, ready, nsel) =>
      && nsel == |Left(ready, i)| > 0
      && forall k :: k in ready && i <= k ==> k < |s.kids| && s.kids[k].replies > 0
  }

  ghost predicate Inv(s: State) {
    && (forall i :: 0 <= i < |s.kids| ==> KidInv(s.kids[i]))
    && s.navail == Available(s.kids)
    && Given(s.kids) == Upto(s.accepted)
    && PcInv(s)
  }

  lemma {:induction false} AvailableSet(kids: seq<Child>, i: nat, k: Child)
    requires i < |kids|
    ensures Available(kids[i := k])
      == Available(kids) - (if kids[i].status == 0 then 1 else 0) + (if k.status == 0 then 1 else 0)
  {
    if i == 0 {
      assert kids[i := k][1..] == kids[1..];
    } else {
      AvailableSet(kids[1..], i - 1, k);
      assert kids[i := k][1..] == kids[1..][i - 1 := k];
    }
  }

  lemma {:induction false} GivenSet(kids: seq<Child>, i: nat, k: Child, more: multiset<nat>)
    requires i < |kids| && multiset(k.given) == multiset(kids[i].given) + more
    ensures Given(kids[i := k]) == Given(kids) + more
  {
    if i == 0 {
      assert kids[i := k][1..] == kids[1..];
    } else {
      GivenSet(kids[1..], i - 1, k, more);
      assert kids[i := k][1..] == kids[1..][i - 1 := k];
    }
  }

  /** While navail is positive the search of the table finds a child. */
  lemma {:induction false} SomeAvailable(kids: seq<Child>)
    ensures Available(kids) > 0 <==> FirstAvailable(kids) < |kids|
  {
    if kids != [] {
      SomeAvailable(kids[1..]);
    }
  }

  lemma LeftSteps(ready: set<nat>, i: nat)
    ensures Left(ready, 0) == ready
    ensures i !in ready ==> Left(ready, i) == Left(ready, i + 1)
    ensures i in ready ==> |Left(ready, i)| == |Left(ready, i + 1)| + 1
  {
    if i in ready {
      assert Left(ready, i) == Left(ready, i + 1) + {i};
    }
  }

  /** A step of one child, or of the parent on behalf of one child. */
  lemma KidChanges(s: State, i: nat, k: Child, more: multiset<nat>)
    requires Inv(s) && i < |s.kids| && KidInv(k)
    requires multiset(k.given) == multiset(s.kids[i].given) + more
    ensures var kids := s.kids[i := k]; forall j :: 0 <= j < |kids| ==> KidInv(kids[j])
    ensures Available(s.kids[i := k])
      == Available(s.kids) - (if s.kids[i].status == 0 then 1 else 0) + (if k.status == 0 then 1 else 0)
    ensures Given(s.kids[i := k]) == Given(s.kids) + more
  {
    hide KidInv;
    AvailableSet(s.kids, i, k);
    GivenSet(s.kids, i, k, more);
  }

  lemma GivingIsSound(k: Child, conn: nat)
    requires KidInv(k) && k.status == 0
    ensures KidInv(Give(k, conn)) && multiset(Give(k, conn).given) == multiset(k.given) + multiset{conn}
    ensures Give(k, conn).replies == k.replies == 0
  {
  }

  /** A child moves its one token along: pipe, work, reply. */
  lemma KidMoves(k: Child)
    requires KidInv(k)
    ensures KidInv(KidStep(k)) && KidStep(k).given == k.given && KidStep(k).status == k.status
    ensures KidStep(k).replies >= k.replies
  {
  }

  lemma ReplyFreesChild(k: Child)
    requires KidInv(k) && k.replies > 0
    ensures k.status == 1 && KidInv(TakeReply(k)) && TakeReply(k).given == k.given
  {
  }

  lemma SelectKeepsInv(s: State, listen: bool, ready: set<nat>)
    requires Inv(s) && Watched(s, listen, ready)
    ensures Inv(s.(pc := Selected(listen, ready, (if listen then 1 else 0) + |ready|)))
  {
  }

  lemma AcceptKeepsInv(s: State)
    requires Inv(s) && s.pc.Selected?
    ensures ParentStep(s).Running? && Inv(ParentStep(s).state)
  {
    hide KidInv, Available, Given, FirstAvailable, Left;
    SomeAvailable(s.kids);
    LeftSteps(s.pc.ready, 0);
    var i := FirstAvailable(s.kids);
    if s.pc.listen {
      GivingIsSound(s.kids[i], s.accepted);
      KidChanges(s, i, Give(s.kids[i], s.accepted), multiset{s.accepted});
    }
  }

  lemma ScanKeepsInv(s: State)
    requires Inv(s) && s.pc.Scanning?
    ensures s.pc.i < |s.kids| && (s.pc.i in s.pc.ready ==> s.kids[s.pc.i].replies > 0)
    ensures ParentStep(s).Running? && Inv(ParentStep(s).state)
  {
    hide KidInv, Available, Given, Upto;
    var i, ready := s.pc.i, s.pc.ready;
    var k :| k in Left(ready, i);
    hide Left;
    LeftSteps(ready, i);
    if i in ready {
      ReplyFreesChild(s.kids[i]);
      KidChanges(s, i, TakeReply(s.kids[i]), multiset{});
    }
  }

  lemma KidKeepsInv(s: State, i: nat)
    requires Inv(s) && i < |s.kids|
    ensures Inv(s.(kids := s.kids[i := KidStep(s.kids[i])]))
  {
    hide KidInv, Available, Given, Upto, KidStep, Left;
    KidMoves(s.kids[i]);
    KidChanges(s, i, KidStep(s.kids[i]), multiset{});
  }

  // ----- whole runs -----------------------------------------------------------------------------

  /** An event that cannot happen yet changes nothing. */
  ghost function Step(s: State, e: Event): Outcome
    requires Inv(s)
  {
    match e
    case Select(listen, ready) =>
      Running(if Watched(s, listen, ready) then s.(pc := Selected(listen, ready, (if listen then 1 else 0) + |ready|)) else s)
    case Parent =>
      if s.pc.Scanning? then ScanKeepsInv(s); ParentStep(s) else ParentStep(s)
    case Kid(i) => Running(if i < |s.kids| then s.(kids := s.kids[i := KidStep(s.kids[i])]) else s)
  }

  lemma StepKeepsInv(s: State, e: Event)
    requires Inv(s)
    ensures Step(s, e).Running? && Inv(Step(s, e).state)
    ensures |Step(s, e).state.kids| == |s.kids|
  {
    hide Inv, KidStep, Give, TakeReply, Available, Given;
    match e
    case Select(listen, ready) =>
      if Watched(s, listen, ready) {
        SelectKeepsInv(s, listen, ready);
      }
    case Parent =>
      if s.pc.Selected? {
        AcceptKeepsInv(s);
      } else if s.pc.Scanning? {
        ScanKeepsInv(s);
      }
    case Kid(i) =>
      if i < |s.kids| {
        KidKeepsInv(s, i);
      }
  }

  ghost function Run(s: State, schedule: seq<Event>): Outcome
    requires Inv(s)
    decreases |schedule|
  {
    if schedule == [] then Running(s)
    else StepKeepsInv(s, schedule[0]); Run(Step(s, schedule[0]).state, schedule[1..])
  }

  lemma RunTurns(s: State, schedule: seq<Event>)
    requires Inv(s) && schedule != []
    ensures Step(s, schedule[0]).Running? && Inv(Step(s, schedule[0]).state)
    ensures Run(s, schedule) == Run(Step(s, schedule[0]).state, schedule[1..])
  {
    hide Inv, Step;
    StepKeepsInv(s, schedule[0]);
  }

  function NewChild(): Child {
    Child(0, 0, [], 0, Waiting, [], [])
  }

  function Initial(n: nat): State {
    State(seq(n, _ => NewChild()), n, 0, Selecting)
  }

  lemma {:induction false} NewChildren(n: nat)
    ensures Available(seq(n, _ => NewChild())) == n && Given(seq(n, _ => NewChild())) == multiset{}
  {
    if n > 0 {
      NewChildren(n - 1);
      assert seq(n, _ => NewChild())[1..] == seq(n - 1, _ => NewChild());
    }
  }

  lemma InitialHolds(n: nat)
    ensures Inv(Initial(n))
  {
    NewChildren(n);
  }

  /** In every interleaving "no available children" is never reached, and the invariant
      holds. */
  lemma {:induction false} RunIsSafe(s: State, schedule: seq<Event>)
    requires Inv(s)
    ensures Run(s, schedule).Running? && Inv(Run(s, schedule).state)
    decreases |schedule|
  {
    hide Inv, Step;
    if schedule != [] {
      StepKeepsInv(s, schedule[0]);
      RunIsSafe(Step(s, schedule[0]).state, schedule[1..]);
    }
  }

  // ----- what the invariant says about connections -----------------------------------------------

  lemma {:induction false} UptoOnce(n: nat, c: nat)
    ensures Upto(n)[c] == if c < n then 1 else 0
  {
    if n > 0 {
      UptoOnce(n - 1, c);
    }
  }

  /** How often connection c was given, over all children. */
  function Times(kids: seq<Child>, c: nat): nat {
    if kids == [] then 0 else multiset(kids[0].given)[c] + Times(kids[1..], c)
  }

  lemma {:induction false} GivenTimes(kids: seq<Child>, c: nat)
    ensures Given(kids)[c] == Times(kids, c)
  {
    if kids != [] {
      GivenTimes(kids[1..], c);
    }
  }

  lemma {:induction false} OnceMeansOneChild(kids: seq<Child>, c: nat)
    requires Times(kids, c) <= 1
    ensures Times(kids, c) == 1 <==> exists i :: 0 <= i < |kids| && c in kids[i].given
    ensures forall i, j :: 0 <= i < |kids| && 0 <= j < |kids| && c in kids[i].given && c in kids[j].given ==> i == j
    ensures forall i :: 0 <= i < |kids| ==> multiset(kids[i].given)[c] <= 1
  {
    if kids != [] {
      OnceMeansOneChild(kids[1..], c);
      assert c in kids[0].given <==> c in multiset(kids[0].given);
      forall i | 0 < i < |kids|
        ensures kids[i] == kids[1..][i - 1]
      {
      }
      if c in kids[0].given {
        assert Times(kids[1..], c) == 0;
      } else if Times(kids, c) == 1 {
        var i :| 0 <= i < |kids[1..]| && c in kids[1..][i].given;
        assert c in kids[i + 1].given;
      }
    }
  }

  /** Every accepted connection goes to exactly one child, once. */
  lemma OneChildEach(s: State, c: nat)
    requires Inv(s)
    ensures c < s.accepted <==> exists i :: 0 <= i < |s.kids| && c in s.kids[i].given
    ensures forall i, j :: 0 <= i < |s.kids| && 0 <= j < |s.kids| && c in s.kids[i].given && c in s.kids[j].given ==> i == j
    ensures forall i :: 0 <= i < |s.kids| ==> multiset(s.kids[i].given)[c] <= 1
  {
    UptoOnce(s.accepted, c);
    GivenTimes(s.kids, c);
    OnceMeansOneChild(s.kids, c);
  }

  /** A child holds at most one connection, and none while its status is 0. */
  lemma OneTokenEach(s: State, i: nat)
    requires Inv(s) && i < |s.kids|
    ensures |s.kids[i].pipe| + |Held(s.kids[i].worker)| <= s.kids[i].status <= 1
    ensures s.kids[i].status == 0 ==> s.kids[i].given == s.kids[i].served
  {
  }

  // ----- every connection is served ------------------------------------------------------------------

  /** How many steps a child is at most away from having served the first n connections
      given to it. */
  function Owed(k: Child, n: nat): nat {
    if |k.served| >= n then 0 else if k.worker.Serving? then 1 else 2
  }

  /** Every step of the child brings it nearer, and no other step takes it back. */
  lemma KidOwesLess(k: Child, n: nat)
    requires KidInv(k) && n <= |k.given|
    ensures Owed(KidStep(k), n) <= if Owed(k, n) == 0 then 0 else Owed(k, n) - 1
  {
  }

  /** Whatever happens, the first n connections given to child i stay the same, and it
      comes no further away from having served them. */
  lemma OthersOweNoMore(s: State, e: Event, i: nat, n: nat)
    requires Inv(s) && i < |s.kids| && n <= |s.kids[i].given|
    ensures Step(s, e).Running? && i < |Step(s, e).state.kids|
    ensures var k := Step(s, e).state.kids[i];
            s.kids[i].given <= k.given && Owed(k, n) <= if e == Kid(i) && Owed(s.kids[i], n) > 0 then Owed(s.kids[i], n) - 1 else Owed(s.kids[i], n)
  {
    hide PcInv, Available, Given, Upto;
    StepKeepsInv(s, e);
    KidMoves(s.kids[i]);
    KidOwesLess(s.kids[i], n);
  }

  function Turns(schedule: seq<Event>, i: nat): nat {
    if schedule == [] then 0 else (if schedule[0] == Kid(i) then 1 else 0) + Turns(schedule[1..], i)
  }

  lemma {:induction false} TurnsServe(s: State, schedule: seq<Event>, i: nat, n: nat)
    requires Inv(s) && i < |s.kids| && n <= |s.kids[i].given| && Owed(s.kids[i], n) <= Turns(schedule, i)
    ensures var t := Run(s, schedule);
            t.Running? && |t.state.kids| == |s.kids| && s.kids[i].given <= t.state.kids[i].given && |t.state.kids[i].served| >= n
    decreases |schedule|
  {
    hide Inv, Step, Owed;
    if schedule == [] {
      NothingOwed(s.kids[i], n);
    } else {
      StepKeepsInv(s, schedule[0]);
      OthersOweNoMore(s, schedule[0], i, n);
      TurnsServe(Step(s, schedule[0]).state, schedule[1..], i, n);
    }
  }

  lemma NothingOwed(k: Child, n: nat)
    requires Owed(k, n) == 0
    ensures |k.served| >= n
  {
  }

  /** No accepted connection is left waiting: from any state, under every schedule in which
      each child has two turns, what has been accepted so far is served at its end, by the
      child it was given to. */
  lemma AcceptedIsServed(s: State, schedule: seq<Event>, c: nat)
    requires Inv(s) && c < s.accepted && forall i :: 0 <= i < |s.kids| ==> Turns(schedule, i) >= 2
    ensures var t := Run(s, schedule);
            t.Running? && |t.state.kids| == |s.kids| && exists i :: 0 <= i < |s.kids| && c in s.kids[i].given && c in t.state.kids[i].served
  {
    hide Inv, Given, Available;
    OneChildEach(s, c);
    var i :| 0 <= i < |s.kids| && c in s.kids[i].given;
    var n := |s.kids[i].given|;
    TurnsServe(s, schedule, i, n);
    RunIsSafe(s, schedule);
    ServedFirst(Run(s, schedule).state, i);
    var j :| 0 <= j < n && s.kids[i].given[j] == c;
    assert Run(s, schedule).state.kids[i].served[j] == c;
  }

  /** A child serves in the order in which it is given. */
  lemma ServedFirst(s: State, i: nat)
    requires Inv(s) && i < |s.kids|
    ensures s.kids[i].served <= s.kids[i].given
  {
  }

  // ----- what one round of the parent does -----------------------------------------------------------

  function Parents(n: nat): seq<Event> {
    seq(n, _ => Parent)
  }

  lemma ParentsNext(s: State, n: nat)
    requires Inv(s) && n > 0
    ensures Step(s, Parent).Running? && Inv(Step(s, Parent).state)
    ensures Run(s, Parents(n)) == Run(Step(s, Parent).state, Parents(n - 1))
  {
    hide Inv, Step;
    assert Parents(n)[0] == Parent && Parents(n)[1..] == Parents(n - 1);
    RunTurns(s, Parents(n));
  }

  /** Of every child in ready from i on one reply is read and the child is available again;
      the other children are as they were. */
  ghost predicate Collected(s: State, t: State, ready: set<nat>, i: nat) {
    && |t.kids| == |s.kids| && t.accepted == s.accepted && t.pc.Selecting?
    && t.navail == s.navail + |Left(ready, i)|
    && (forall k :: 0 <= k < |s.kids| ==>
         t.kids[k] == if k in ready && i <= k then s.kids[k].(status := 0, replies := t.kids[k].replies) else s.kids[k])
    && forall k :: k in ready && i <= k < |s.kids| ==> t.kids[k].replies + 1 == s.kids[k].replies
  }

  lemma CollectedLast(s: State)
    requires Inv(s) && s.pc.Scanning? && Step(s, Parent).Running? && Step(s, Parent).state.pc.Selecting?
    ensures Collected(s, Step(s, Parent).state, s.pc.ready, s.pc.i)
  {
    hide KidInv, Available, Given, Upto;
    ScanKeepsInv(s);
    LeftSteps(s.pc.ready, s.pc.i);
    assert forall k :: k in s.pc.ready && s.pc.i + 1 <= k ==> k in Left(s.pc.ready, s.pc.i + 1);
  }

  lemma CollectedMore(s: State, u: State, t: State)
    requires Inv(s) && s.pc.Scanning? && Step(s, Parent) == Running(u)
    requires u.pc.Scanning? && Collected(u, t, u.pc.ready, u.pc.i)
    ensures Collected(s, t, s.pc.ready, s.pc.i)
  {
    hide KidInv, Available, Given, Upto;
    ScanKeepsInv(s);
    LeftSteps(s.pc.ready, s.pc.i);
  }

  lemma SelectingStays(s: State, n: nat)
    requires Inv(s) && s.pc.Selecting?
    ensures Run(s, Parents(n)) == Running(s)
  {
    hide Inv;
    if n > 0 {
      ParentsNext(s, n);
      SelectingStays(s, n - 1);
    }
  }

  lemma {:induction false} ScanCollects(s: State, n: nat)
    requires Inv(s) && s.pc.Scanning? && s.pc.i + n >= |s.kids| && n > 0
    ensures Run(s, Parents(n)).Running? && Inv(Run(s, Parents(n)).state)
    ensures Collected(s, Run(s, Parents(n)).state, s.pc.ready, s.pc.i)
    decreases n
  {
    hide Inv, Collected, TakeReply;
    ParentsNext(s, n);
    var u := Step(s, Parent).state;
    ScanGoesOn(s);
    if u.pc.Selecting? {
      CollectedLast(s);
      SelectingStays(u, n - 1);
    } else {
      ScanCollects(u, n - 1);
      CollectedMore(s, u, Run(u, Parents(n - 1)).state);
    }
  }

  lemma ScanGoesOn(s: State)
    requires Inv(s) && s.pc.Scanning?
    ensures s.pc.i < |s.kids| && Step(s, Parent).Running? && Inv(Step(s, Parent).state)
    ensures var u := Step(s, Parent).state;
      |u.kids| == |s.kids| && (u.pc.Selecting? || (u.pc.Scanning? && u.pc.i == s.pc.i + 1 && u.pc.i < |u.kids|))
  {
    hide KidInv, Available, Given, Upto;
    ScanKeepsInv(s);
    var u := Step(s, Parent).state;
    if u.pc.Scanning? {
      var k :| k in Left(u.pc.ready, u.pc.i);
    }
  }

  /** select has returned with replies alone: the parent reads one of every child that is
      ready, marks those available, and is back at select. */
  lemma RepliesAreRead(s: State, ready: set<nat>)
    requires Inv(s) && Watched(s, false, ready)
    ensures var t := Run(s, [Select(false, ready)] + Parents(|s.kids| + 1));
      && t.Running? && Inv(t.state) && t.state.pc.Selecting? && |t.state.kids| == |s.kids|
      && t.state.accepted == s.accepted && t.state.navail == s.navail + |ready|
      && (forall k :: k in ready ==> k < |s.kids|)
      && (forall k :: 0 <= k < |s.kids| && k !in ready ==> t.state.kids[k] == s.kids[k])
      && (forall k :: k in ready ==>
           t.state.kids[k] == s.kids[k].(status := 0, replies := t.state.kids[k].replies)
           && t.state.kids[k].replies + 1 == s.kids[k].replies)
  {
    hide KidInv, Available, Given, Upto, ParentStep;
    var schedule := [Select(false, ready)] + Parents(|s.kids| + 1);
    SelectKeepsInv(s, false, ready);
    var u := s.(pc := Selected(false, ready, |ready|));
    assert schedule[1..] == Parents(|s.kids| + 1);
    RunTurns(s, schedule);
    ParentsNext(u, |s.kids| + 1);
    var v := u.(pc := Scanning(0, ready, |ready|));
    PassesOn(u);
    var k :| k in ready;
    ScanCollects(v, |s.kids|);
    LeftSteps(ready, 0);
  }

  lemma PassesOn(u: State)
    requires Inv(u) && u.pc.Selected? && !u.pc.listen
    ensures Step(u, Parent) == Running(u.(pc := Scanning(0, u.pc.ready, u.pc.nsel)))
  {
  }

  /** select has returned with a connection alone: the first child with status 0 is given
      it, and the parent is back at select. */
  lemma ConnectionIsGiven(s: State)
    requires Inv(s) && s.pc.Selecting? && s.navail > 0
    ensures Watched(s, true, {})
    ensures var t := Run(s, [Select(true, {}), Parent]);
      && t.Running? && Inv(t.state) && t.state.pc.Selecting? && |t.state.kids| == |s.kids|
      && t.state.accepted == s.accepted + 1 && t.state.navail == s.navail - 1
      && exists i :: 0 <= i < |s.kids| && s.kids[i].status == 0 && (forall j :: 0 <= j < i ==> s.kids[j].status != 0)
           && t.state.kids == s.kids[i := s.kids[i].(status := 1, count := s.kids[i].count + 1,
                pipe := s.kids[i].pipe + [s.accepted], given := s.kids[i].given + [s.accepted])]
  {
    hide KidInv, Available, Given, Upto, FirstAvailable;
    SelectKeepsInv(s, true, {});
    var u := s.(pc := Selected(true, {}, 1));
    AcceptKeepsInv(u);
    var schedule := [Select(true, {}), Parent];
    assert schedule[1..] == [Parent] && [Parent][1..] == [];
    RunTurns(s, schedule);
    RunTurns(u, [Parent]);
    SomeAvailable(s.kids);
    var i := FirstAvailable(s.kids);
    assert ParentStep(u).state.kids == s.kids[i := Give(s.kids[i], s.accepted)];
  }

  // ----- everyone becomes available ---------------------------------------------------------------------

  lemma {:induction false} RunsJoin(s: State, first: seq<Event>, second: seq<Event>)
    requires Inv(s)
    ensures Run(s, first).Running? && Inv(Run(s, first).state)
    ensures Run(s, first + second) == Run(Run(s, first).state, second)
    decreases |first|
  {
    hide Inv, Step;
    RunIsSafe(s, first);
    if first == [] {
      assert first + second == second;
    } else {
      RunTurns(s, first);
      RunTurns(s, first + second);
      assert (first + second)[0] == first[0] && (first + second)[1..] == first[1..] + second;
      RunsJoin(Step(s, first[0]).state, first[1..], second);
    }
  }

  /** The child has nothing left to do but has perhaps a reply under way. */
  predicate Idle(k: Child) {
    k.pipe == [] && k.worker.Waiting? && k.replies == k.status
  }

  lemma KidFinishes(k: Child)
    requires KidInv(k)
    ensures KidInv(KidStep(k)) && KidInv(KidStep(KidStep(k))) && Idle(KidStep(KidStep(KidStep(k))))
  {
  }

  function ThreeTurns(n: nat): seq<Event> {
    if n == 0 then [] else ThreeTurns(n - 1) + [Kid(n - 1), Kid(n - 1), Kid(n - 1)]
  }

  lemma OneKidFinishes(s: State, i: nat)
    requires Inv(s) && i < |s.kids|
    ensures var t := Run(s, [Kid(i), Kid(i), Kid(i)]);
      t == Running(s.(kids := s.kids[i := KidStep(KidStep(KidStep(s.kids[i])))]))
      && Inv(t.state) && Idle(t.state.kids[i])
  {
    hide PcInv, Available, Given, Upto, KidStep, Idle;
    KidFinishes(s.kids[i]);
    var three := [Kid(i), Kid(i), Kid(i)];
    assert three[1..] == [Kid(i), Kid(i)] && three[1..][1..] == [Kid(i)] && [Kid(i)][1..] == [];
    StepKeepsInv(s, Kid(i));
    var t := Step(s, Kid(i)).state;
    StepKeepsInv(t, Kid(i));
    var u := Step(t, Kid(i)).state;
    StepKeepsInv(u, Kid(i));
    RunTurns(s, three);
    RunTurns(t, [Kid(i), Kid(i)]);
    RunTurns(u, [Kid(i)]);
    assert Step(u, Kid(i)).state.kids == s.kids[i := KidStep(KidStep(KidStep(s.kids[i])))];
  }

  lemma {:induction false} KidsFinish(s: State, n: nat)
    requires Inv(s) && n <= |s.kids|
    ensures |ThreeTurns(n)| == 3 * n
    ensures var t := Run(s, ThreeTurns(n));
      && t.Running? && Inv(t.state) && t.state.pc == s.pc && t.state.accepted == s.accepted && |t.state.kids| == |s.kids|
      && forall i :: 0 <= i < n ==> Idle(t.state.kids[i])
  {
    hide Inv, KidStep, Idle, Step;
    if n > 0 {
      KidsFinish(s, n - 1);
      var t := Run(s, ThreeTurns(n - 1)).state;
      RunsJoin(s, ThreeTurns(n - 1), [Kid(n - 1), Kid(n - 1), Kid(n - 1)]);
      OneKidFinishes(t, n - 1);
    }
  }

  /** The parent comes back to select, having accepted what it was told of. */
  lemma ParentReturns(s: State) returns (n: nat)
    requires Inv(s)
    ensures n <= |s.kids| + 1
    ensures var t := Run(s, Parents(n)); t.Running? && Inv(t.state) && t.state.pc.Selecting? && |t.state.kids| == |s.kids|
  {
    hide KidInv, Available, Given, Upto, ParentStep;
    match s.pc
    case Selecting => n := 0;
    case Selected(_, _, _) =>
      StepKeepsInv(s, Parent);
      var u := Step(s, Parent).state;
      BehindSelected(s);
      if u.pc.Selecting? {
        n := 1;
        ParentsNext(s, 1);
      } else {
        n := |s.kids| + 1;
        ParentsNext(s, n);
        ScanCollects(u, |s.kids|);
      }
    case Scanning(_, _, _) =>
      ScanGoesOn(s);
      n := |s.kids|;
      ScanCollects(s, n);
  }

  lemma BehindSelected(s: State)
    requires Inv(s) && s.pc.Selected? && Step(s, Parent).Running? && Inv(Step(s, Parent).state)
    ensures var u := Step(s, Parent).state;
      |u.kids| == |s.kids| && (u.pc.Selecting? || (u.pc.Scanning? && u.pc.i == 0 && |u.kids| > 0))
  {
    var u := Step(s, Parent).state;
    if u.pc.Scanning? {
      ScanGoesOn(u);
    }
  }

  /** Every child with a reply under way. */
  function Replying(s: State): set<nat> {
    set k | 0 <= k < |s.kids| && s.kids[k].replies > 0
  }

  lemma {:induction false} NobodyBusy(kids: seq<Child>)
    requires forall i :: 0 <= i < |kids| ==> kids[i].status == 0
    ensures Available(kids) == |kids|
  {
    if kids != [] {
      NobodyBusy(kids[1..]);
    }
  }

  /** From every state the parent reads all that is under way and every child is available
      again, within a bounded number of steps. */
  lemma EveryoneIsFreed(s: State) returns (schedule: seq<Event>)
    requires Inv(s)
    ensures |schedule| <= 5 * |s.kids| + 3
    ensures var t := Run(s, schedule);
      t.Running? && Inv(t.state) && t.state.pc.Selecting? && |t.state.kids| == |s.kids| == Available(t.state.kids) == t.state.navail
  {
    hide KidInv, KidStep, Step, Available, Given, Upto;
    var n := ParentReturns(s);
    var t := Run(s, Parents(n)).state;
    RunsJoin(s, Parents(n), ThreeTurns(|s.kids|));
    KidsFinish(t, |s.kids|);
    var u := Run(t, ThreeTurns(|s.kids|)).state;
    schedule := Parents(n) + ThreeTurns(|s.kids|);
    var ready := Replying(u);
    if ready == {} {
      IdleIsFree(u, u, ready);
    } else {
      var last := [Select(false, ready)] + Parents(|s.kids| + 1);
      RepliesAreRead(u, ready);
      RunsJoin(s, schedule, last);
      IdleIsFree(u, Run(u, last).state, ready);
      schedule := schedule + last;
    }
  }

  lemma IdleIsFree(u: State, t: State, ready: set<nat>)
    requires Inv(u) && Inv(t) && |t.kids| == |u.kids| && ready == Replying(u)
    requires forall i :: 0 <= i < |u.kids| ==> Idle(u.kids[i])
    requires forall k :: 0 <= k < |u.kids| ==> if k in ready then t.kids[k].status == 0 else t.kids[k] == u.kids[k]
    ensures Available(t.kids) == |t.kids| == t.navail
  {
    hide Available, Given, Upto;
    NobodyBusy(t.kids);
  }

  function Counts(kids: seq<Child>): nat {
    if kids == [] then 0 else kids[0].count + Counts(kids[1..])
  }

  lemma {:induction false} CountsAreGiven(kids: seq<Child>)
    requires forall i :: 0 <= i < |kids| ==> kids[i].count == |kids[i].given|
    ensures Counts(kids) == |Given(kids)|
  {
    if kids != [] {
      CountsAreGiven(kids[1..]);
    }
  }

  lemma {:induction false} UptoSize(n: nat)
    ensures |Upto(n)| == n
  {
    if n > 0 {
      UptoSize(n - 1);
    }
  }

  /** The counts that SIGINT prints add up to the connections accepted. */
  lemma CountsAddUp(s: State)
    requires Inv(s)
    ensures Counts(s.kids) == s.accepted
  {
    assert forall i :: 0 <= i < |s.kids| ==> KidInv(s.kids[i]);
    CountsAreGiven(s.kids);
    UptoSize(s.accepted);
  }

  /** Nobody waits for nobody: when no child can go on and no reply waits for the parent,
      every child is available, so that the parent listens. */
  lemma {:induction false} NoStall(kids: seq<Child>)
    requires forall i :: 0 <= i < |kids| ==> KidInv(kids[i]) && KidStep(kids[i]) == kids[i] && kids[i].replies == 0
    ensures Available(kids) == |kids|
  {
    if kids != [] {
      NoStall(kids[1..]);
      BusyMoves(kids[0]);
    }
  }

  lemma BusyMoves(k: Child)
    requires KidInv(k) && k.replies == 0
    ensures k.status == 1 ==> KidStep(k) != k
  {
  }

  // ----- the program ------------------------------------------------------------------------------

  class Server {
    const cptr: array<Child>
    var navail: int
    var pc: Pc
    var accepted: nat

    ghost function Look(): State
      reads this, cptr
    {
      State(cptr[..], navail, accepted, pc)
    }

    constructor (nchildren: nat)
      ensures Look() == Initial(nchildren) && Inv(Look()) && fresh(cptr)
    {
      cptr := new Child[nchildren](_ => NewChild());
      navail, accepted, pc := nchildren, 0, Selecting;
      new;
      assert cptr[..] == seq(nchildren, _ => NewChild());
      InitialHolds(nchildren);
    }

    /** The search of the table; its result may be cptr.Length. */
    method Find() returns (i: nat)
      ensures i == FirstAvailable(cptr[..])
    {
      i := 0;
      while i < cptr.Length
        invariant i <= cptr.Length && forall j :: 0 <= j < i ==> cptr[j].status != 0
      {
        if cptr[i].status == 0 {
          break;
        }
        i := i + 1;
      }
      assert FirstAvailable(cptr[..]) >= i by {
        assert forall j :: 0 <= j < i ==> cptr[..][j].status != 0;
      }
    }

    /** select has returned with these descriptors. */
    method Select(listen: bool, ready: set<nat>)
      requires Inv(Look()) && Watched(Look(), listen, ready)
      modifies this
      ensures Look() == old(Look()).(pc := Selected(listen, ready, (if listen then 1 else 0) + |ready|))
    {
      pc := Selected(listen, ready, (if listen then 1 else 0) + |ready|);
    }

    /** Accept, mark a child as busy, pass the descriptor; false is "no available
        children", which does not happen. */
    method Accept() returns (ok: bool)
      requires Inv(Look()) && pc.Selected?
      modifies this, cptr
      ensures ok && Running(Look()) == ParentStep(old(Look()))
    {
      hide KidInv, Available, Given, FirstAvailable;
      AcceptKeepsInv(Look());
      var nsel := pc.nsel;
      if pc.listen {
        var i := Find();
        if i == cptr.Length {
          return false;
        }
        cptr[i] := Give(cptr[i], accepted);
        navail := navail - 1;
        accepted := accepted + 1;
        nsel := nsel - 1;
        if nsel == 0 {
          pc := Selecting;
          return true;
        }
      }
      pc := Scanning(0, pc.ready, nsel);
      ok := true;
    }

    /** One turn of the loop that collects the replies. */
    method Scan()
      requires Inv(Look()) && pc.Scanning?
      requires pc.i < cptr.Length && (pc.i in pc.ready ==> cptr[pc.i].replies > 0)
      modifies this, cptr
      ensures Running(Look()) == ParentStep(old(Look()))
    {
      hide KidInv, Available, Given, FirstAvailable;
      var i, nsel := pc.i, pc.nsel;
      if i in pc.ready {
        cptr[i] := TakeReply(cptr[i]);
        navail := navail + 1;
        nsel := nsel - 1;
        if nsel == 0 {
          pc := Selecting;
          return;
        }
      }
      pc := Scanning(i + 1, pc.ready, nsel);
    }

    /** One step of child_main in child i. */
    method Work(i: nat)
      requires i < cptr.Length
      modifies cptr
      ensures Look() == old(Look()).(kids := old(cptr[..])[i := KidStep(old(cptr[i]))])
    {
      var k := cptr[i];
      match k.worker
      case Waiting =>
        if k.pipe != [] {
          cptr[i] := k.(pipe := k.pipe[1..], worker := Serving(k.pipe[0]));
        }
      case Serving(conn) => cptr[i] := k.(served := k.served + [conn], worker := Closed);
      case Closed => cptr[i] := k.(replies := k.replies + 1, worker := Waiting);
    }

    /** The parent and its children under a schedule. */
    method Serve(schedule: seq<Event>)
      requires Inv(Look())
      modifies this, cptr
      ensures Running(Look()) == Run(old(Look()), schedule)
      ensures Inv(Look()) && Counts(cptr[..]) == accepted
    {
      hide Inv, KidStep, Give, TakeReply, FirstAvailable;
      for n := 0 to |schedule|
        invariant Inv(Look()) && Run(Look(), schedule[n..]) == Run(old(Look()), schedule)
      {
        ghost var before := Look();
        StepKeepsInv(before, schedule[n]);
        match schedule[n] {
          case Select(listen, ready) =>
            if pc.Selecting? && CanReturn(listen, ready) {
              Select(listen, ready);
            }
          case Parent =>
            if pc.Selected? {
              var ok := Accept();
            } else if pc.Scanning? {
              ScanKeepsInv(before);
              Scan();
            }
          case Kid(i) =>
            if i < cptr.Length {
              Work(i);
            }
        }
        assert Running(Look()) == Step(before, schedule[n]);
        assert schedule[n..][0] == schedule[n] && schedule[n..][1..] == schedule[n + 1..];
        RunTurns(before, schedule[n..]);
      }
      CountsAddUp(Look());
    }

    predicate CanReturn(listen: bool, ready: set<nat>)
      requires pc.Selecting?
      reads this, cptr
      ensures CanReturn(listen, ready) == Watched(Look(), listen, ready)
    {
      && (listen ==> navail > 0)
      && (forall i :: i in ready ==> i < cptr.Length && cptr[i].replies > 0)
      && (listen || ready != {})
    }
  }
}
