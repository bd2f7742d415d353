/** The messages of a round, with the answers that go back: which of them the server and
    the client of one seat exchange while the server takes a step. */
module Messages {
  import opened Tiles
  import opened Seats
  import opened Snapshots
  import opened Play
  import opened Options
  import DiscardText

  /** One message of the server and what the player answers, or a message of the client. */
  datatype Exchange =
    | YourTurn
    | Sent(tiles: seq<Mj>)                            // the tiles of one draw
    | HuVerdict(can: bool, yes: bool)                 // "can hu" or "cannot hu"
    | QuietGangVerdict(can: bool, yes: bool)
    | Chosen(index: nat)                              // the discard, by its cell
    | DiscardLine(line: string)                       // the discard of another player
    | Announced
    | Offered(offer: Offer, yes: bool)                // hu, gang, pong or eat
    | Named(e1: int, e2: int, eatable: bool)          // two cells, and the verdict on them
    | NoOneWants

  /** What each client is sent behind the deal: its hand, and the numbers of its flowers. */
  datatype FirstHand = FirstHand(tiles: seq<Mj>, numbers: seq<int>)

  function Numbers(flowers: seq<Mj>): seq<int> {
    seq(|flowers|, i requires 0 <= i < |flowers| => flowers[i].number)
  }

  ghost predicate HandOf(v: View, hand: FirstHand) {
    |v.decks| == 20 && hand.tiles == v.decks[..16] && hand.numbers == Numbers(v.flowers)
  }

  /** The offers that can be made to seat q after a discard of seat p, in their order. */
  function OffersTo(p: nat, q: nat): seq<Offer> {
    var k := (q + 4 - p % 4) % 4;
    if k == 0 then []
    else if k == 1 then [HuOffer(k), GangOffer(k), PongOffer(k), EatOffer]
    else [HuOffer(k), GangOffer(k), PongOffer(k)]
  }

  /** The questions asked among some offers: those that are possible, up to the one that
      is accepted. */
  ghost function Asked(s: Snap, p: nat, claim: Option<Offer>, os: seq<Offer>): (talk: seq<Exchange>)
    ensures |talk| <= |os|
  {
    if os == [] then []
    else
      var rest := Asked(s, p, claim, os[1..]);
      if Possible(s, p, os[0]) && (claim.None? || Rank(os[0]) <= Rank(claim.value))
      then [Offered(os[0], claim == Some(os[0]))] + rest
      else rest
  }

  /** Cells that cannot be eaten with. */
  ghost predicate AllWrong(talk: seq<Exchange>) {
    forall i :: 0 <= i < |talk| ==> talk[i].Named? && !talk[i].eatable
  }

  /** The dialogue about the cells to eat with: refused answers, and then e1 and e2. */
  ghost predicate EndsEating(talk: seq<Exchange>, e1: nat, e2: nat) {
    talk != [] && talk[|talk| - 1] == Named(e1, e2, true) && AllWrong(talk[..|talk| - 1])
  }

  /** What seat q hears behind the questions. */
  ghost predicate Outcome(s: Snap, t: Snap, p: nat, claim: Option<Offer>, q: nat, talk: seq<Exchange>) {
    match claim
    case None => talk == if q == p then [NoOneWants] else []
    case Some(HuOffer(_)) => talk == []
    case Some(EatOffer) =>
      if q == OfferedTo(p, EatOffer) then exists e1: nat, e2: nat :: EatOf(s, t, q, e1, e2) && EndsEating(talk, e1, e2)
      else talk == [Announced]
    case Some(o) => talk == if q == OfferedTo(p, o) then [] else [Announced]
  }

  ghost predicate ReactionTalk(s: Snap, t: Snap, p: nat, claim: Option<Offer>, q: nat, talk: seq<Exchange>) {
    var asked := Asked(s, p, claim, OffersTo(p, q));
    asked <= talk && Outcome(s, t, p, claim, q, talk[|asked|..])
  }

  /** From the win test to the discard: the question about a quiet gang belongs to a turn
      of one's own. */
  ghost function DiscardTalk(s: Snap, p: nat, called: bool, index: nat): seq<Exchange> {
    [HuVerdict(SelfHuOf(s, p), false)] +
    (if called then [] else [QuietGangVerdict(QuietGangOf(s, p), false)]) +
    [Chosen(index)]
  }

  function DrawTalk(called: bool, tiles: seq<Mj>): seq<Exchange> {
    if called then [Sent(tiles)] else [YourTurn, Sent(tiles)]
  }

  /** talk is what the server and the client of seat q exchange in the step from c to d. */
  ghost predicate Talk(c: Config, d: Config, q: nat, talk: seq<Exchange>) {
    match c.phase
    case ToDraw(p, called) =>
      if q == p then exists k: nat :: DrawOf(c.snap, d.snap, p, k) && talk == DrawTalk(called, c.snap.rest[..k + 1])
      else talk == []
    case ToDiscard(p, called) =>
      if d.phase.Over? then talk == if q == p then [HuVerdict(true, true)] else []
      else if q == p then exists index: nat :: DiscardOf(c.snap, d.snap, p, index) && talk == DiscardTalk(c.snap, p, called, index)
      else p < 4 && Playable(d.snap.discarded) && talk == [DiscardLine(DiscardText.Broadcast(p, d.snap.discarded))]
    case Thrown(p, accepts) =>
      exists claim :: Reaction(c.snap, d, p, accepts, claim) && ReactionTalk(c.snap, d.snap, p, claim, q, talk)
    case Over(_) => false
  }

  /** Every step of a run comes with such an exchange for every seat. */
  lemma StepsTalk(c: Config, d: Config, q: nat) returns (talk: seq<Exchange>)
    requires Inv(c) && Step(c, d)
    ensures Talk(c, d, q, talk)
  {
    hide Inv, Reaction, SelfHuOf, QuietGangOf;
    StepKeepsInv(c, d);
    match c.phase
    case ToDraw(p, called) =>
      var k: nat :| DrawOf(c.snap, d.snap, p, k);
      talk := if q == p then DrawTalk(called, c.snap.rest[..k + 1]) else [];
    case ToDiscard(p, called) =>
      if d.phase.Over? {
        talk := if q == p then [HuVerdict(true, true)] else [];
      } else {
        var index: nat :| DiscardOf(c.snap, d.snap, p, index);
        ThrownTile(d);
        talk := if q == p then DiscardTalk(c.snap, p, called, index)
                else [DiscardLine(DiscardText.Broadcast(p, d.snap.discarded))];
      }
    case Thrown(p, accepts) =>
      var claim :| Reaction(c.snap, d, p, accepts, claim);
      var rest := OutcomeExists(c.snap, d, p, accepts, claim, q);
      var asked := Asked(c.snap, p, claim, OffersTo(p, q));
      talk := asked + rest;
      assert talk[|asked|..] == rest;
    case Over(_) =>
  }

  lemma ThrownTile(c: Config)
    requires Inv(c) && c.phase.Thrown?
    ensures c.phase.seat < 4 && Playable(c.snap.discarded)
  {
  }

  lemma OutcomeExists(s: Snap, d: Config, p: nat, accepts: set<Offer>, claim: Option<Offer>, q: nat)
    returns (talk: seq<Exchange>)
    requires Reaction(s, d, p, accepts, claim)
    ensures Outcome(s, d.snap, p, claim, q, talk)
  {
    hide FirstAccepted, Claimed, Sunk, EatOf;
    match claim
    case None => talk := if q == p then [NoOneWants] else [];
    case Some(HuOffer(_)) => talk := [];
    case Some(EatOffer) =>
      if q == OfferedTo(p, EatOffer) {
        var e1: nat, e2: nat :| EatOf(s, d.snap, q, e1, e2);
        talk := [Named(e1, e2, true)];
        assert EndsEating(talk, e1, e2);
      } else {
        talk := [Announced];
      }
    case Some(o) => talk := if q == OfferedTo(p, o) then [] else [Announced];
  }

  // ----- the questions to one seat -------------------------------------------------------------

  ghost predicate AllRefused(talk: seq<Exchange>) {
    forall i :: 0 <= i < |talk| ==> talk[i].Offered? && !talk[i].yes
  }

  /** A seat that does not claim says no to everything it is asked. */
  lemma {:induction false} OthersRefuse(s: Snap, p: nat, claim: Option<Offer>, os: seq<Offer>)
    requires claim.Some? ==> claim.value !in os
    ensures AllRefused(Asked(s, p, claim, os))
  {
    hide Possible;
    if os != [] {
      OthersRefuse(s, p, claim, os[1..]);
    }
  }

  ghost predicate RanksRise(os: seq<Offer>) {
    forall i, j :: 0 <= i < j < |os| ==> Rank(os[i]) < Rank(os[j])
  }

  lemma NothingAskedLater(s: Snap, p: nat, o: Offer, os: seq<Offer>)
    requires forall i :: 0 <= i < |os| ==> Rank(os[i]) > Rank(o)
    ensures Asked(s, p, Some(o), os) == []
  {
    hide Possible;
  }

  /** The claimant says no until it is offered its claim, and is then asked no more. */
  lemma {:induction false} ClaimantAccepts(s: Snap, p: nat, o: Offer, os: seq<Offer>)
    requires RanksRise(os) && o in os && Possible(s, p, o)
    ensures var talk := Asked(s, p, Some(o), os);
            talk != [] && talk[|talk| - 1] == Offered(o, true) && AllRefused(talk[..|talk| - 1])
  {
    hide Possible;
    if os[0] == o {
      NothingAskedLater(s, p, o, os[1..]);
    } else {
      ClaimantAccepts(s, p, o, os[1..]);
      var rest := Asked(s, p, Some(o), os[1..]);
      var talk := Asked(s, p, Some(o), os);
      if talk != rest {
        assert talk == [Offered(os[0], false)] + rest;
        assert talk[..|talk| - 1] == [Offered(os[0], false)] + rest[..|rest| - 1];
      }
    }
  }

  lemma OffersInOrder(p: nat, q: nat)
    ensures RanksRise(OffersTo(p, q))
  {
  }

  /** Exactly the offers that name seat q are made to it. */
  lemma OffersReachTheirSeat(p: nat, q: nat, o: Offer)
    requires p < 4 && q < 4 && IsOffer(o)
    ensures o in OffersTo(p, q) <==> OfferedTo(p, o) == q
  {
  }

  /** The others hear of a discard in words, of a claim by its announcement, and the
      discarder that no one wants the tile. */
  lemma EveryoneIsTold(c: Config, d: Config, q: nat, talk: seq<Exchange>) returns (claim: Option<Offer>)
    requires Talk(c, d, q, talk) && q < 4
    ensures c.phase.ToDiscard? && d.phase.Thrown? && q != c.phase.seat ==>
      && c.phase.seat < 4 && Playable(d.snap.discarded)
      && talk == [DiscardLine(DiscardText.Broadcast(c.phase.seat, d.snap.discarded))]
    ensures c.phase.Thrown? ==>
      && Reaction(c.snap, d, c.phase.seat, c.phase.accepts, claim)
      && (claim.None? && q == c.phase.seat ==> talk != [] && talk[|talk| - 1] == NoOneWants)
      && (claim.Some? && !claim.value.HuOffer? && q != OfferedTo(c.phase.seat, claim.value) ==>
            talk != [] && talk[|talk| - 1] == Announced)
  {
    hide Reaction, Asked, OffersTo, EatOf, SelfHuOf, QuietGangOf;
    claim := None;
    if c.phase.Thrown? {
      claim :| Reaction(c.snap, d, c.phase.seat, c.phase.accepts, claim)
        && ReactionTalk(c.snap, d.snap, c.phase.seat, claim, q, talk);
      var rest := talk[|Asked(c.snap, c.phase.seat, claim, OffersTo(c.phase.seat, q))|..];
      assert rest != [] ==> rest[|rest| - 1] == talk[|talk| - 1];
    }
  }

  // ----- what the server writes ------------------------------------------------------------------

  /** Nothing is written to any of the four seats. */
  function Silent(): (heard: seq<seq<Exchange>>)
    ensures |heard| == 4 && forall q :: 0 <= q < 4 ==> heard[q] == []
  {
    [[], [], [], []]
  }

  /** What is written to the four seats is what they are to hear in the step. */
  ghost predicate AllTalk(c: Config, d: Config, heard: seq<seq<Exchange>>) {
    |heard| == 4 && forall q :: 0 <= q < 4 ==> Talk(c, d, q, heard[q])
  }

  /** For every step of the history the messages written in it are recorded. */
  ghost predicate Recorded(history: seq<Config>, talks: seq<seq<seq<Exchange>>>) {
    |history| == |talks| + 1 && forall j :: 0 <= j < |talks| ==> AllTalk(history[j], history[j + 1], talks[j])
  }

  lemma RecordedGrows(history: seq<Config>, talks: seq<seq<seq<Exchange>>>, d: Config, heard: seq<seq<Exchange>>)
    requires Recorded(history, talks) && AllTalk(history[|history| - 1], d, heard)
    ensures Recorded(history + [d], talks + [heard])
  {
    hide AllTalk;
  }

  /** The refusals among some offers of a rank below the given one. */
  ghost function Refused(s: Snap, p: nat, rank: int, os: seq<Offer>): seq<Exchange> {
    if os == [] then []
    else
      var rest := Refused(s, p, rank, os[1..]);
      if Possible(s, p, os[0]) && Rank(os[0]) < rank then [Offered(os[0], false)] + rest else rest
  }

  lemma NothingRefused(s: Snap, p: nat, rank: int, os: seq<Offer>)
    requires forall i :: 0 <= i < |os| ==> Rank(os[i]) >= rank
    ensures Refused(s, p, rank, os) == []
  {
    hide Possible;
  }

  lemma {:induction false} RefusedNext(s: Snap, p: nat, o: Offer, os: seq<Offer>)
    requires RanksRise(os) && IsOffer(o) && forall i :: 0 <= i < |os| ==> IsOffer(os[i])
    ensures Refused(s, p, Rank(o) + 1, os)
      == Refused(s, p, Rank(o), os) + (if o in os && Possible(s, p, o) then [Offered(o, false)] else [])
  {
    hide Possible;
    if os != [] {
      RankTells(o);
      if Rank(os[0]) < Rank(o) {
        RefusedNext(s, p, o, os[1..]);
      } else {
        NothingRefused(s, p, Rank(o), os);
        NothingRefused(s, p, Rank(o) + 1, os[1..]);
      }
    }
  }

  lemma {:induction false} RefusedIsAsked(s: Snap, p: nat, os: seq<Offer>)
    requires forall i :: 0 <= i < |os| ==> IsOffer(os[i])
    ensures Refused(s, p, 11, os) == Asked(s, p, None, os)
  {
    hide Possible;
    if os != [] {
      RankTells(os[0]);
      RefusedIsAsked(s, p, os[1..]);
    }
  }

  lemma {:induction false} ClaimIsAsked(s: Snap, p: nat, o: Offer, os: seq<Offer>)
    requires RanksRise(os) && IsOffer(o) && forall i :: 0 <= i < |os| ==> IsOffer(os[i])
    ensures Asked(s, p, Some(o), os)
      == Refused(s, p, Rank(o), os) + (if o in os && Possible(s, p, o) then [Offered(o, true)] else [])
  {
    hide Possible;
    if os != [] {
      RankTells(o);
      if Rank(os[0]) < Rank(o) {
        ClaimIsAsked(s, p, o, os[1..]);
      } else {
        NothingRefused(s, p, Rank(o), os);
        NothingAskedLater(s, p, o, os[1..]);
      }
    }
  }

  lemma AllAreOffers(p: nat, q: nat)
    requires p < 4 && q < 4
    ensures forall i :: 0 <= i < |OffersTo(p, q)| ==> IsOffer(OffersTo(p, q)[i])
  {
  }

  /** What the four seats have heard when all offers below a rank were refused. */
  ghost function HeardRefusals(s: Snap, p: nat, rank: int): (heard: seq<seq<Exchange>>)
    ensures |heard| == 4
  {
    seq(4, q requires 0 <= q < 4 => Refused(s, p, rank, OffersTo(p, q)))
  }

  /** What they have heard when the claim is settled. */
  ghost function HeardQuestions(s: Snap, p: nat, claim: Option<Offer>): (heard: seq<seq<Exchange>>)
    ensures |heard| == 4
  {
    seq(4, q requires 0 <= q < 4 => Asked(s, p, claim, OffersTo(p, q)))
  }

  lemma NothingHeard(s: Snap, p: nat)
    requires p < 4
    ensures HeardRefusals(s, p, 1) == Silent()
  {
    forall q | 0 <= q < 4
      ensures Refused(s, p, 1, OffersTo(p, q)) == []
    {
      AllAreOffers(p, q);
      forall i | 0 <= i < |OffersTo(p, q)|
        ensures Rank(OffersTo(p, q)[i]) >= 1
      {
        RankTells(OffersTo(p, q)[i]);
      }
      NothingRefused(s, p, 1, OffersTo(p, q));
    }
  }

  /** All offers refused: nobody claims. */
  lemma AllHeard(s: Snap, p: nat)
    requires p < 4
    ensures HeardRefusals(s, p, 11) == HeardQuestions(s, p, None)
  {
    hide OffersTo, Refused, Asked;
    forall q | 0 <= q < 4
      ensures Refused(s, p, 11, OffersTo(p, q)) == Asked(s, p, None, OffersTo(p, q))
    {
      AllAreOffers(p, q);
      RefusedIsAsked(s, p, OffersTo(p, q));
    }
  }

  /** One seat heard more. */
  lemma OneHeardMore(heard: seq<seq<Exchange>>, grown: seq<seq<Exchange>>, q: nat, more: seq<Exchange>)
    requires |heard| == 4 == |grown| && q < 4
    requires forall r :: 0 <= r < 4 ==> grown[r] == heard[r] + (if r == q then more else [])
    ensures grown == heard[q := heard[q] + more]
  {
    forall r | 0 <= r < 4
      ensures grown[r] == heard[q := heard[q] + more][r]
    {
      assert heard[r] + [] == heard[r];
    }
  }

  /** One more offer, made to its seat if it is possible. */
  lemma OneMoreOffer(s: Snap, p: nat, o: Offer)
    requires p < 4 && IsOffer(o)
    ensures var heard := HeardRefusals(s, p, Rank(o));
            var q := OfferedTo(p, o);
            if Possible(s, p, o) then
              && HeardRefusals(s, p, Rank(o) + 1) == heard[q := heard[q] + [Offered(o, false)]]
              && HeardQuestions(s, p, Some(o)) == heard[q := heard[q] + [Offered(o, true)]]
            else HeardRefusals(s, p, Rank(o) + 1) == heard
  {
    hide OffersTo, Refused, Asked, Possible, RanksRise;
    var q := OfferedTo(p, o);
    var refused, accepted := if Possible(s, p, o) then [Offered(o, false)] else [], if Possible(s, p, o) then [Offered(o, true)] else [];
    forall r | 0 <= r < 4
      ensures Refused(s, p, Rank(o) + 1, OffersTo(p, r)) == Refused(s, p, Rank(o), OffersTo(p, r)) + (if r == q then refused else [])
      ensures Asked(s, p, Some(o), OffersTo(p, r)) == Refused(s, p, Rank(o), OffersTo(p, r)) + (if r == q then accepted else [])
    {
      AllAreOffers(p, r);
      OffersInOrder(p, r);
      OffersReachTheirSeat(p, r, o);
      RefusedNext(s, p, o, OffersTo(p, r));
      ClaimIsAsked(s, p, o, OffersTo(p, r));
    }
    OneHeardMore(HeardRefusals(s, p, Rank(o)), HeardRefusals(s, p, Rank(o) + 1), q, refused);
    OneHeardMore(HeardRefusals(s, p, Rank(o)), HeardQuestions(s, p, Some(o)), q, accepted);
    assert HeardRefusals(s, p, Rank(o))[q] + [] == HeardRefusals(s, p, Rank(o))[q];
  }

  /** The questions, and behind them what each seat is to hear of the outcome. */
  lemma ReactionWritten(s: Snap, d: Config, p: nat, accepts: set<Offer>, claim: Option<Offer>,
                        rests: seq<seq<Exchange>>, heard: seq<seq<Exchange>>)
    requires Reaction(s, d, p, accepts, claim) && |rests| == 4 == |heard|
    requires forall q :: 0 <= q < 4 ==> heard[q] == HeardQuestions(s, p, claim)[q] + rests[q]
    requires forall q :: 0 <= q < 4 ==> Outcome(s, d.snap, p, claim, q, rests[q])
    ensures AllTalk(Config(s, Thrown(p, accepts)), d, heard)
  {
    hide Reaction, Outcome, OffersTo, Asked;
    forall q | 0 <= q < 4
      ensures ReactionTalk(s, d.snap, p, claim, q, heard[q])
    {
      assert heard[q][|HeardQuestions(s, p, claim)[q]|..] == rests[q];
    }
  }

  /** What has been written in a turn behind the win test. */
  ghost function AfterWinTest(s: Snap, p: nat): (heard: seq<seq<Exchange>>)
    requires p < 4
    ensures |heard| == 4
  {
    Silent()[p := [HuVerdict(SelfHuOf(s, p), false)]]
  }

  /** What has been written in a turn when the discard is due. */
  ghost function BeforeDiscard(s: Snap, p: nat, called: bool): (heard: seq<seq<Exchange>>)
    requires p < 4
    ensures |heard| == 4
  {
    var heard := AfterWinTest(s, p);
    if called then heard else heard[p := heard[p] + [QuietGangVerdict(QuietGangOf(s, p), false)]]
  }

  /** The messages of a draw, one behind the other. */
  lemma DrawSaid(p: nat, tiles: seq<Mj>)
    requires p < 4
    ensures var told := Silent()[p := Silent()[p] + [YourTurn]];
            told[p := told[p] + [Sent(tiles)]] == Silent()[p := DrawTalk(false, tiles)]
    ensures Silent()[p := Silent()[p] + [Sent(tiles)]] == Silent()[p := DrawTalk(true, tiles)]
  {
    var told := Silent()[p := Silent()[p] + [YourTurn]];
    assert told[p] + [Sent(tiles)] == DrawTalk(false, tiles);
    assert Silent()[p] + [Sent(tiles)] == DrawTalk(true, tiles);
  }

  /** The verdict alone, so far. */
  lemma WinTestSaid(p: nat, e: Exchange)
    requires p < 4
    ensures Silent()[p := Silent()[p] + [e]] == Silent()[p := [e]]
  {
    assert Silent()[p] + [e] == [e];
  }

  lemma DrawWritten(c: Config, d: Config, p: nat, called: bool, tiles: seq<Mj>, heard: seq<seq<Exchange>>)
    requires c.phase == ToDraw(p, called) && d.phase == ToDiscard(p, called) && p < 4
    requires Drawn(c.snap, d.snap, p, tiles) && heard == Silent()[p := DrawTalk(called, tiles)]
    ensures AllTalk(c, d, heard)
  {
    hide DrawOf;
  }

  lemma WinWritten(c: Config, p: nat, called: bool, heard: seq<seq<Exchange>>)
    requires c.phase == ToDiscard(p, called) && p < 4 && heard == Silent()[p := [HuVerdict(true, true)]]
    ensures AllTalk(c, Config(c.snap, Over(p)), heard)
  {
  }

  lemma AskedNothing(s: Snap, p: nat)
    requires p < 4
    ensures BeforeDiscard(s, p, true) == AfterWinTest(s, p)
  {
  }

  /** The discarder has chosen, and the others are told a line. */
  ghost function ToldDiscard(heard: seq<seq<Exchange>>, p: nat, index: nat, line: Exchange): (told: seq<seq<Exchange>>)
    requires |heard| == 4 && p < 4
    ensures |told| == 4
    ensures forall r :: 0 <= r < 4 ==> told[r] == heard[r] + [if r == p then Chosen(index) else line]
  {
    var chosen := heard[p := heard[p] + [Chosen(index)]];
    var first := chosen[SeatAfter(p, 1) := chosen[SeatAfter(p, 1)] + [line]];
    var second := first[SeatAfter(p, 2) := first[SeatAfter(p, 2)] + [line]];
    second[SeatAfter(p, 3) := second[SeatAfter(p, 3)] + [line]]
  }

  /** The line tells which tile it was. */
  lemma DiscardWritten(c: Config, d: Config, p: nat, called: bool, index: nat) returns (line: Exchange)
    requires Inv(c) && Step(c, d) && c.phase == ToDiscard(p, called) && d.phase.Thrown? && d.phase.seat == p < 4
    requires DiscardOf(c.snap, d.snap, p, index)
    ensures Playable(d.snap.discarded) && line == DiscardLine(DiscardText.Broadcast(p, d.snap.discarded))
    ensures AllTalk(c, d, ToldDiscard(BeforeDiscard(c.snap, p, called), p, index, line))
  {
    hide Inv, Step, DiscardOf, SelfHuOf, QuietGangOf, DiscardText.Broadcast, ToldDiscard;
    StepKeepsInv(c, d);
    ThrownTile(d);
    line := DiscardLine(DiscardText.Broadcast(p, d.snap.discarded));
    var told := ToldDiscard(BeforeDiscard(c.snap, p, called), p, index, line);
    assert told[p] == DiscardTalk(c.snap, p, called, index);
    assert forall r :: 0 <= r < 4 && r != p ==> told[r] == [line];
  }

  /** The announcement to the three others. */
  ghost function AnnouncedTo(heard: seq<seq<Exchange>>, q: nat): (told: seq<seq<Exchange>>)
    requires |heard| == 4 && q < 4
    ensures |told| == 4
    ensures forall r :: 0 <= r < 4 ==> told[r] == if r == q then heard[r] else heard[r] + [Announced]
  {
    var first := heard[SeatAfter(q, 1) := heard[SeatAfter(q, 1)] + [Announced]];
    var second := first[SeatAfter(q, 2) := first[SeatAfter(q, 2)] + [Announced]];
    second[SeatAfter(q, 3) := second[SeatAfter(q, 3)] + [Announced]]
  }

  /** What seat q hears in a turn in which seat p gangs quietly. */
  ghost function GangTalk(s: Snap, p: nat, q: nat): seq<Exchange> {
    if q == p then [HuVerdict(SelfHuOf(s, p), false), QuietGangVerdict(true, true)] else [Announced]
  }

  /** The verdicts and the announcement are what the four seats hear of a quiet gang. */
  lemma GangWritten(s: Snap, p: nat, q: nat)
    requires p < 4 && q < 4
    ensures var heard := AfterWinTest(s, p);
            AnnouncedTo(heard[p := heard[p] + [QuietGangVerdict(true, true)]], p)[q] == GangTalk(s, p, q)
  {
    hide AnnouncedTo, SelfHuOf;
    assert [] + [Announced] == [Announced];
  }

  /** The turn of seat p in c has stopped behind a quiet gang, with five copies of a tile on
      the table. */
  ghost predicate Stall(c: Config, t: Snap, p: nat, heard: seq<seq<Exchange>>) {
    && p < 4 && c.phase == ToDiscard(p, false)
    && |c.snap.seats| == 4 && MayGang(c.snap.seats[p]) && GangedQuietly(c.snap, t, p)
    && !Conserved(t) && TableBag(t)[c.snap.seats[p].decks[c.snap.seats[p].nc]] == 5
    && |heard| == 4 && forall q :: 0 <= q < 4 ==> heard[q] == GangTalk(c.snap, p, q)
  }

  lemma GangStalls(c: Config, t: Snap, p: nat, asked: seq<seq<Exchange>>)
    requires Inv(c) && p < 4 && c.phase == ToDiscard(p, false)
    requires |c.snap.seats| == 4 && MayGang(c.snap.seats[p]) && GangedQuietly(c.snap, t, p)
    requires asked == AfterWinTest(c.snap, p)[p := AfterWinTest(c.snap, p)[p] + [QuietGangVerdict(true, true)]]
    ensures |asked| == 4 && Stall(c, t, p, AnnouncedTo(asked, p))
  {
    hide MayGang, QuietlyGanged, AfterWinTest, AnnouncedTo, Conserved, GangTalk, TableBag;
    QuietGangBreaksTheSet(c.snap, t, p);
    forall q | 0 <= q < 4
      ensures AnnouncedTo(asked, p)[q] == GangTalk(c.snap, p, q)
    {
      GangWritten(c.snap, p, q);
    }
  }

  // ----- how a round can stop ----------------------------------------------------------------------

  /** Why the process leaves the behaviour its source defines, if it does. */
  datatype Halt =
    | Running
    | OffTheWall                     // a draw indexes shuffled_mjs past its end
    | BadDiscard(index: int)         // a discard names no tile of the hand
    | OutOfCells(e1: int, e2: int)   // an eat answer names a cell that decks does not have
    | MisplacedEat                   // an eat leaves a hole that the next question counts
    | QuietGang                      // the server waits for a discard, and the client for a tile
    | Disconnected                   // the player leaves in the middle of the eat dialogue

  /** What each of them means for a round whose last state is c, when t is what lies on the
      table and heard is what has been written since. */
  ghost predicate Ending(c: Config, t: Snap, heard: seq<seq<Exchange>>, halt: Halt) {
    match halt
    case Running => false
    case OffTheWall => c.phase.ToDraw? && t.rest == [] && forall k :: 0 <= k < |c.snap.rest| ==> Flower(c.snap.rest[k])
    case BadDiscard(index) =>
      && c.phase.ToDiscard? && c.phase.seat < 4 == |c.snap.seats| && t == c.snap
      && !NamesTile(c.snap.seats[c.phase.seat], index)
    case OutOfCells(e1, e2) => Eating(c, t, heard) && !(0 <= e1 < 20 && 0 <= e2 < 20)
    case MisplacedEat => BrokenHand(c, t)
    case QuietGang => c.phase.ToDiscard? && Stall(c, t, c.phase.seat, heard)
    case Disconnected => Eating(c, t, heard)
  }

  /** The eat dialogue goes on: no tile has moved, and all answers were wrong. */
  ghost predicate Eating(c: Config, t: Snap, heard: seq<seq<Exchange>>) {
    && c.phase.Thrown? && t == c.snap
    && exists wrong :: AllWrong(wrong) && heard == HeardWhileEating(c.snap, c.phase.seat, wrong)
  }

  /** A draw fails only if nothing but flowers was left, and then takes them all. */
  lemma EndsOffTheWall(c: Config, t: Snap, p: nat, heard: seq<seq<Exchange>>)
    requires c.phase.ToDraw? && DrawOutcome(c.snap, t, p, false) && t.rest == []
    ensures Ending(c, t, heard, OffTheWall)
  {
  }

  lemma EndsBadDiscard(c: Config, index: int, heard: seq<seq<Exchange>>)
    requires Inv(c) && c.phase.ToDiscard? && !(0 <= index <= c.snap.seats[c.phase.seat].nc)
    ensures Ending(c, c.snap, heard, BadDiscard(index))
  {
    hide Conserved;
    HoldingHand(c.snap, c.phase.seat);
    BadDiscardHasNoCounter(c.snap.seats[c.phase.seat], index);
  }

  lemma EndsDialogue(c: Config, wrong: seq<Exchange>, e1: int, e2: int)
    requires c.phase.Thrown? && AllWrong(wrong)
    ensures var heard := HeardWhileEating(c.snap, c.phase.seat, wrong);
      && Ending(c, c.snap, heard, Disconnected)
      && (!(0 <= e1 < 20 && 0 <= e2 < 20) ==> Ending(c, c.snap, heard, OutOfCells(e1, e2)))
  {
    hide AllWrong, HeardWhileEating;
  }

  lemma HuWritten(s: Snap, d: Config, p: nat, accepts: set<Offer>, k: nat)
    requires Reaction(s, d, p, accepts, Some(HuOffer(k)))
    ensures AllTalk(Config(s, Thrown(p, accepts)), d, HeardQuestions(s, p, Some(HuOffer(k))))
  {
    hide Reaction, Asked, OffersTo, AllTalk;
    var heard := HeardQuestions(s, p, Some(HuOffer(k)));
    assert forall q :: 0 <= q < 4 ==> heard[q] == heard[q] + [];
    ReactionWritten(s, d, p, accepts, Some(HuOffer(k)), Silent(), heard);
  }

  lemma SinkWritten(s: Snap, d: Config, p: nat, accepts: set<Offer>)
    requires p < 4 && Reaction(s, d, p, accepts, None)
    ensures var heard := HeardQuestions(s, p, None);
            AllTalk(Config(s, Thrown(p, accepts)), d, heard[p := heard[p] + [NoOneWants]])
  {
    hide Reaction, Asked, OffersTo, AllTalk;
    var heard := HeardQuestions(s, p, None);
    assert forall q :: 0 <= q < 4 ==> heard[q] == heard[q] + [];
    ReactionWritten(s, d, p, accepts, None, Silent()[p := [NoOneWants]], heard[p := heard[p] + [NoOneWants]]);
  }

  /** A claim that is carried out: the claimant has its own dialogue, and the others are
      told. */
  lemma ClaimWritten(s: Snap, d: Config, p: nat, accepts: set<Offer>, o: Offer, own: seq<Exchange>)
    requires !o.HuOffer? && Reaction(s, d, p, accepts, Some(o))
    requires Outcome(s, d.snap, p, Some(o), OfferedTo(p, o), own)
    ensures var heard := HeardQuestions(s, p, Some(o));
            var q := OfferedTo(p, o);
            AllTalk(Config(s, Thrown(p, accepts)), d, AnnouncedTo(heard[q := heard[q] + own], q))
  {
    hide Reaction, Asked, OffersTo, AllTalk, EatOf;
    var heard := HeardQuestions(s, p, Some(o));
    var q := OfferedTo(p, o);
    var rests := seq(4, r => if r == q then own else [Announced]);
    ReactionWritten(s, d, p, accepts, Some(o), rests, AnnouncedTo(heard[q := heard[q] + own], q));
  }

  lemma MeldWritten(s: Snap, d: Config, p: nat, accepts: set<Offer>, o: Offer)
    requires (o.GangOffer? || o.PongOffer?) && Reaction(s, d, p, accepts, Some(o))
    ensures var heard := HeardQuestions(s, p, Some(o));
            AllTalk(Config(s, Thrown(p, accepts)), d, AnnouncedTo(heard, OfferedTo(p, o)))
  {
    hide Reaction, Asked, OffersTo, AllTalk, AnnouncedTo;
    var heard := HeardQuestions(s, p, Some(o));
    var q := OfferedTo(p, o);
    ClaimWritten(s, d, p, accepts, o, []);
    assert heard[q] + [] == heard[q];
    assert heard[q := heard[q] + []] == heard;
  }

  lemma EatOutcome(s: Snap, t: Snap, p: nat, e1: nat, e2: nat, wrong: seq<Exchange>)
    requires EatOf(s, t, SeatAfter(p, 1), e1, e2)
    requires AllWrong(wrong)
    ensures Outcome(s, t, p, Some(EatOffer), SeatAfter(p, 1), wrong + [Named(e1, e2, true)])
  {
    hide EatOf;
    assert EndsEating(wrong + [Named(e1, e2, true)], e1, e2);
  }

  /** What has been heard when the next player has named these cells. */
  ghost function HeardWhileEating(s: Snap, p: nat, named: seq<Exchange>): (heard: seq<seq<Exchange>>)
    ensures |heard| == 4
  {
    var asked := HeardQuestions(s, p, Some(EatOffer));
    asked[SeatAfter(p, 1) := asked[SeatAfter(p, 1)] + named]
  }

  lemma NoneWrong(s: Snap, p: nat)
    ensures AllWrong([]) && HeardWhileEating(s, p, []) == HeardQuestions(s, p, Some(EatOffer))
  {
    var asked := HeardQuestions(s, p, Some(EatOffer));
    assert asked[SeatAfter(p, 1)] + [] == asked[SeatAfter(p, 1)];
  }

  lemma OneMoreNamed(s: Snap, p: nat, wrong: seq<Exchange>, e1: int, e2: int, eatable: bool)
    requires AllWrong(wrong)
    ensures var heard := HeardWhileEating(s, p, wrong);
            var more := [Named(e1, e2, eatable)];
            heard[SeatAfter(p, 1) := heard[SeatAfter(p, 1)] + more] == HeardWhileEating(s, p, wrong + more)
    ensures !eatable ==> AllWrong(wrong + [Named(e1, e2, eatable)])
  {
    var asked := HeardQuestions(s, p, Some(EatOffer));
    assert asked[SeatAfter(p, 1)] + wrong + [Named(e1, e2, eatable)] == asked[SeatAfter(p, 1)] + (wrong + [Named(e1, e2, eatable)]);
  }

  lemma EatWritten(s: Snap, d: Config, p: nat, accepts: set<Offer>, e1: nat, e2: nat, wrong: seq<Exchange>)
    requires Reaction(s, d, p, accepts, Some(EatOffer)) && EatOf(s, d.snap, SeatAfter(p, 1), e1, e2) && AllWrong(wrong)
    ensures AllTalk(Config(s, Thrown(p, accepts)), d,
                    AnnouncedTo(HeardWhileEating(s, p, wrong + [Named(e1, e2, true)]), SeatAfter(p, 1)))
  {
    hide Reaction, AllTalk, AnnouncedTo, EatOf;
    EatOutcome(s, d.snap, p, e1, e2, wrong);
    ClaimWritten(s, d, p, accepts, EatOffer, wrong + [Named(e1, e2, true)]);
  }
}
