/** Wall, first seat and answers leave no choice: there is one way to play a round. */
module Determined {
  import opened Tiles
  import opened Winning
  import opened Melds
  import opened Seats
  import opened Snapshots
  import opened Dealing
  import opened Play
  import opened Options
  import opened Messages
  import opened Answering
  import Replica

  // ----- one step --------------------------------------------------------------------------

  lemma DrawUnique(s: Snap, t: Snap, t': Snap, p: nat)
    requires DrawStep(s, t, p) && DrawStep(s, t', p)
    ensures t == t'
  {
    hide Flower;
    var k: nat :| DrawOf(s, t, p, k);
    var k': nat :| DrawOf(s, t', p, k');
  }

  lemma DiscardUnique(s: Snap, t: Snap, t': Snap, p: nat, index: nat)
    requires DiscardOf(s, t, p, index) && DiscardOf(s, t', p, index)
    ensures t == t'
  {
    hide Threw;
    Replica.ThrewUnique(s.seats[p], t.seats[p], t'.seats[p], index);
  }

  lemma ClaimedUnique(s: Snap, t: Snap, t': Snap, q: nat, c: nat)
    requires Claimed(s, t, q, c) && Claimed(s, t', q, c)
    ensures t == t'
  {
    hide Melded;
    Replica.MeldedUnique(s.seats[q], t.seats[q], t'.seats[q], s.discarded, c);
  }

  lemma EatenUnique(s: Snap, t: Snap, t': Snap, q: nat, e1: nat, e2: nat)
    requires AllWaiting(s) && Playable(s.discarded) && q < 4 && e1 != e2
    requires Eaten(s, t, q, e1, e2) && Eaten(s, t', q, e1, e2)
    ensures t == t'
  {
    hide Ate, Playable;
    HandOfWaiting(s, q);
    Replica.AteUnique(s.seats[q], t.seats[q], t'.seats[q], s.discarded, e1, e2);
  }

  lemma EatUnique(s: Snap, t: Snap, t': Snap, q: nat, attempts: seq<(int, int)>)
    requires AllWaiting(s) && Playable(s.discarded) && q < 4
    requires EatsAsNamed(s, t, q, attempts) && EatsAsNamed(s, t', q, attempts)
    ensures t == t'
  {
    hide Decisive, NoneDecisive, Eaten, CompletesRun, AllWaiting, Playable, Misplaces;
    var i: nat :| FirstDecisive(s, q, attempts, i) && EatsWith(s, t, q, attempts[i]);
    var j: nat :| FirstDecisive(s, q, attempts, j) && EatsWith(s, t', q, attempts[j]);
    DecisiveUnique(s, q, attempts, i, j);
    EatenUnique(s, t, t', q, attempts[i].0, attempts[i].1);
  }

  lemma CarriedUnique(c: Config, d: Config, d': Config, claim: Option<Offer>, a: Answers, n: nat)
    requires Inv(c) && c.phase.Thrown? && Reaction(c.snap, d, c.phase.seat, c.phase.accepts, claim)
    requires Reaction(c.snap, d', c.phase.seat, c.phase.accepts, claim)
    requires Obeys(c, d, a, n) && Obeys(c, d', a, n)
    ensures d == d'
  {
    hide FirstAccepted, Claimed, EatStep, EatsAsNamed, Conserved, AllWaiting, Playable;
    match claim
    case None =>
    case Some(HuOffer(_)) =>
    case Some(GangOffer(_)) => ClaimedUnique(c.snap, d.snap, d'.snap, OfferedTo(c.phase.seat, claim.value), 3);
    case Some(PongOffer(_)) => ClaimedUnique(c.snap, d.snap, d'.snap, OfferedTo(c.phase.seat, claim.value), 2);
    case Some(EatOffer) => EatUnique(c.snap, d.snap, d'.snap, SeatAfter(c.phase.seat, 1), a.attempts(n));
  }

  /** From every state that a round can reach, the answers lead to one next state at most. */
  lemma StepIsDetermined(c: Config, d: Config, d': Config, a: Answers, n: nat)
    requires Inv(c) && Step(c, d) && Step(c, d') && Obeys(c, d, a, n) && Obeys(c, d', a, n)
    ensures d == d'
  {
    hide Inv, DrawStep, DiscardStep, DiscardOf, DeclaresHu, DeclaresGang, Reaction, FirstAccepted, EatsAsNamed;
    match c.phase
    case ToDraw(p, _) => DrawUnique(c.snap, d.snap, d'.snap, p);
    case ToDiscard(p, _) =>
      if !DeclaresHu(c, a, n) {
        DiscardUnique(c.snap, d.snap, d'.snap, p, a.index(n));
      }
    case Thrown(p, accepts) =>
      var claim :| Reaction(c.snap, d, p, accepts, claim);
      var claim' :| Reaction(c.snap, d', p, accepts, claim');
      SameClaim(c, d, d', claim, claim');
      CarriedUnique(c, d, d', claim, a, n);
    case Over(_) =>
  }

  lemma SameClaim(c: Config, d: Config, d': Config, x: Option<Offer>, y: Option<Offer>)
    requires c.phase.Thrown? && Reaction(c.snap, d, c.phase.seat, c.phase.accepts, x)
    requires Reaction(c.snap, d', c.phase.seat, c.phase.accepts, y)
    ensures x == y
  {
    hide FirstAccepted, Carried;
    ClaimUnique(c.snap, c.phase.seat, c.phase.accepts, x, y);
  }

  /** Two runs from the same table with the same answers go through the same states. */
  lemma {:induction false} RunsAgree(run: seq<Config>, run': seq<Config>, a: Answers, i: nat)
    requires LegalRun(run) && LegalRun(run') && Obeyed(run, a) && Obeyed(run', a) && run[0] == run'[0]
    requires i < |run| && i < |run'|
    ensures run[i] == run'[i]
  {
    hide Inv, Step, Obeys;
    if i > 0 {
      RunsAgree(run, run', a, i - 1);
      RunKeepsInv(run, i - 1);
      StepIsDetermined(run[i - 1], run[i], run'[i], a, i - 1);
    }
  }

  // ----- the end ------------------------------------------------------------------------------

  lemma NothingToDraw(s: Snap, t: Snap, p: nat)
    requires forall k :: 0 <= k < |s.rest| ==> Flower(s.rest[k])
    ensures !DrawStep(s, t, p)
  {
  }

  lemma NoSuchDiscard(c: Config, d: Config, a: Answers, n: nat)
    requires Inv(c) && c.phase.ToDiscard? && !DeclaresHu(c, a, n)
    requires DeclaresGang(c, a, n) || (c.phase.seat < 4 == |c.snap.seats| && !NamesTile(c.snap.seats[c.phase.seat], a.index(n)))
    ensures !Obeys(c, d, a, n)
  {
    hide DeclaresHu, DeclaresGang, NamesTile, Conserved;
    HoldingHand(c.snap, c.phase.seat);
    BadDiscardHasNoCounter(c.snap.seats[c.phase.seat], a.index(n));
  }

  /** What kind of state a round can end in, for each reason. */
  lemma PhaseOfEnd(c: Config, t: Snap, heard: seq<seq<Exchange>>, halt: Halt, a: Answers, n: nat)
    requires EndsAt(c, t, heard, halt, a, n)
    ensures halt.Running? ==> c.phase.Over? || c.phase.ToDraw?
    ensures halt.OffTheWall? ==> c.phase.ToDraw?
    ensures halt.BadDiscard? || halt.QuietGang? ==> c.phase.ToDiscard?
    ensures halt.OutOfCells? || halt.MisplacedEat? || halt.Disconnected? ==> c.phase.Thrown?
  {
    hide FirstAccepted, Conserved, TableBag, MayGang, GangedQuietly, NamesTile, NoneDecisive, FirstDecisive, SelfHuOf, QuietGangOf;
  }

  /** What completes a run and is well placed lies in decks and is not misplaced. */
  lemma EatIsInside(s: Snap, t: Snap, q: nat, e: (int, int))
    requires AllWaiting(s) && q < 4 && EatsWith(s, t, q, e)
    ensures 0 <= e.0 < 20 && 0 <= e.1 < 20 && forall u :: !MisplacesWith(s, u, q, e)
  {
    hide Ate, CompletesRun;
    WaitingHand(s, q);
  }

  lemma NoSuchEat(c: Config, t: Snap, d: Config, heard: seq<seq<Exchange>>, halt: Halt, a: Answers, n: nat)
    requires Inv(c) && c.phase.Thrown? && EndsAt(c, t, heard, halt, a, n)
    ensures !Obeys(c, d, a, n)
  {
    hide Conserved, AllWaiting, MisplacesWith, EatsWith, Decisive, NoneDecisive, EndsAt;
    var q, attempts := SeatAfter(c.phase.seat, 1), a.attempts(n);
    EatIsDue(c, t, heard, halt, a, n);
    if EatsAsNamed(c.snap, d.snap, q, attempts) {
      var i: nat :| FirstDecisive(c.snap, q, attempts, i) && EatsWith(c.snap, d.snap, q, attempts[i]);
      EatIsInside(c.snap, d.snap, q, attempts[i]);
      if halt.Disconnected? {
        LeftAlone(c, t, heard, halt, a, n);
        NotDecided(c.snap, q, attempts, i);
      } else {
        var j := Decided(c, t, heard, halt, a, n);
        DecisiveUnique(c.snap, q, attempts, i, j);
      }
    }
  }

  lemma EatIsDue(c: Config, t: Snap, heard: seq<seq<Exchange>>, halt: Halt, a: Answers, n: nat)
    requires c.phase.Thrown? && EndsAt(c, t, heard, halt, a, n)
    ensures EatIsClaimed(c) && !halt.Running? && Ending(c, t, heard, halt) && Stops(c, t, halt, a, n)
  {
    hide FirstAccepted, Stall, BrokenHand, Eating, FirstDecisive, NoneDecisive, MisplacesWith;
  }

  lemma NoSuchDraw(c: Config, t: Snap, d: Config, heard: seq<seq<Exchange>>, halt: Halt, a: Answers, n: nat)
    requires c.phase.ToDraw? && EndsAt(c, t, heard, halt, a, n)
    ensures !Step(c, d)
  {
    hide DrawStep, Eating, BrokenHand, Stall, EatIsClaimed, FirstDecisive, NoneDecisive, Flower;
    PhaseOfEnd(c, t, heard, halt, a, n);
    NothingToDraw(c.snap, d.snap, c.phase.seat);
  }

  lemma DiscardIsDue(c: Config, t: Snap, heard: seq<seq<Exchange>>, halt: Halt, a: Answers, n: nat)
    requires c.phase.ToDiscard? && EndsAt(c, t, heard, halt, a, n)
    ensures halt.BadDiscard? || halt.QuietGang?
    ensures halt.BadDiscard? ==>
      && !DeclaresHu(c, a, n) && !DeclaresGang(c, a, n) && halt.index == a.index(n) && t == c.snap
      && c.phase.seat < 4 == |c.snap.seats| && !NamesTile(c.snap.seats[c.phase.seat], a.index(n))
    ensures halt.QuietGang? ==> DeclaresGang(c, a, n) && !DeclaresHu(c, a, n) && Stall(c, t, c.phase.seat, heard)
  {
    hide DeclaresHu, NamesTile, Eating, BrokenHand, Stall, EatIsClaimed, FirstDecisive, NoneDecisive;
    PhaseOfEnd(c, t, heard, halt, a, n);
  }

  lemma NoSuchTurn(c: Config, t: Snap, d: Config, heard: seq<seq<Exchange>>, halt: Halt, a: Answers, n: nat)
    requires Inv(c) && c.phase.ToDiscard? && EndsAt(c, t, heard, halt, a, n)
    ensures !Obeys(c, d, a, n)
  {
    hide Inv, EndsAt, DeclaresHu, DeclaresGang, NamesTile, Stall, Obeys;
    DiscardIsDue(c, t, heard, halt, a, n);
    NoSuchDiscard(c, d, a, n);
  }

  /** No step leads on from where a round has ended. */
  lemma EndIsEnd(c: Config, t: Snap, heard: seq<seq<Exchange>>, halt: Halt, a: Answers, n: nat, d: Config)
    requires Inv(c) && EndsAt(c, t, heard, halt, a, n)
    ensures !(Step(c, d) && Obeys(c, d, a, n))
  {
    hide Inv, EndsAt, Step, Obeys;
    match c.phase
    case ToDraw(_, _) => NoSuchDraw(c, t, d, heard, halt, a, n);
    case ToDiscard(_, _) => NoSuchTurn(c, t, d, heard, halt, a, n);
    case Thrown(_, _) => NoSuchEat(c, t, d, heard, halt, a, n);
    case Over(_) => NothingBehindWin(c, d);
  }

  lemma NothingBehindWin(c: Config, d: Config)
    requires c.phase.Over?
    ensures !Step(c, d)
  {
  }

  lemma LastInv(run: seq<Config>)
    requires LegalRun(run)
    ensures run != [] && Inv(run[|run| - 1])
  {
    hide Inv, Step;
    RunKeepsInv(run, |run| - 1);
  }

  /** In one and the same state a round ends in one way, and leaves one table; of a wall
      that has come to its end only that it is empty is said here. */
  lemma EndsAlike(c: Config, a: Answers, n: nat, t: Snap, heard: seq<seq<Exchange>>, halt: Halt,
                  t': Snap, heard': seq<seq<Exchange>>, halt': Halt)
    requires Inv(c) && EndsAt(c, t, heard, halt, a, n) && EndsAt(c, t', heard', halt', a, n)
    ensures halt == halt' && (halt.OffTheWall? || t == t')
  {
    hide Inv, EndsAt, Ending, Stops, Stall, DeclaresHu, DeclaresGang, NamesTile, EatIsClaimed;
    match c.phase
    case ToDraw(_, _) => DrawEndsAlike(c, a, n, t, heard, halt, t', heard', halt');
    case ToDiscard(_, _) =>
      DiscardIsDue(c, t, heard, halt, a, n);
      DiscardIsDue(c, t', heard', halt', a, n);
      if halt.QuietGang? {
        GangsAlike(c, t, heard, t', heard');
      }
    case Thrown(_, _) =>
      EatIsDue(c, t, heard, halt, a, n);
      EatIsDue(c, t', heard', halt', a, n);
      EatEndsAlike(c, a, n, t, heard, halt, t', heard', halt');
    case Over(_) =>
      WinEnds(c, t, heard, halt, a, n);
      WinEnds(c, t', heard', halt', a, n);
  }

  lemma WinEnds(c: Config, t: Snap, heard: seq<seq<Exchange>>, halt: Halt, a: Answers, n: nat)
    requires c.phase.Over? && EndsAt(c, t, heard, halt, a, n)
    ensures halt.Running? && t == c.snap
  {
    hide Eating, BrokenHand, Stall, EatIsClaimed, FirstDecisive, NoneDecisive;
    PhaseOfEnd(c, t, heard, halt, a, n);
  }

  lemma DrawEndsAlike(c: Config, a: Answers, n: nat, t: Snap, heard: seq<seq<Exchange>>, halt: Halt,
                      t': Snap, heard': seq<seq<Exchange>>, halt': Halt)
    requires c.phase.ToDraw? && EndsAt(c, t, heard, halt, a, n) && EndsAt(c, t', heard', halt', a, n)
    ensures halt == halt' && (halt.OffTheWall? || t == t')
  {
    hide Eating, Stall, EatIsClaimed, FirstDecisive, NoneDecisive, Flower;
    PhaseOfEnd(c, t, heard, halt, a, n);
    PhaseOfEnd(c, t', heard', halt', a, n);
  }

  lemma GangsAlike(c: Config, t: Snap, heard: seq<seq<Exchange>>, t': Snap, heard': seq<seq<Exchange>>)
    requires c.phase.ToDiscard? && Stall(c, t, c.phase.seat, heard) && Stall(c, t', c.phase.seat, heard')
    ensures t == t'
  {
    hide QuietlyGanged, MayGang, Conserved, TableBag, GangTalk;
    var p := c.phase.seat;
    var j := GangedCopies(c.snap.seats[p]);
    Replica.QuietlyGangedUnique(c.snap.seats[p], t.seats[p], t'.seats[p]);
  }

  lemma EatEndsAlike(c: Config, a: Answers, n: nat, t: Snap, heard: seq<seq<Exchange>>, halt: Halt,
                     t': Snap, heard': seq<seq<Exchange>>, halt': Halt)
    requires Inv(c) && c.phase.Thrown? && Ending(c, t, heard, halt) && Ending(c, t', heard', halt')
    requires Stops(c, t, halt, a, n) && Stops(c, t', halt', a, n)
    ensures halt == halt' && t == t'
  {
    hide EatIsClaimed, Conserved, AllWaiting, Playable, MisplacesWith, Decisive, NoneDecisive, Ending, Stops;
    var q, attempts := SeatAfter(c.phase.seat, 1), a.attempts(n);
    if halt.Disconnected? {
      LeftAlone(c, t, heard, halt, a, n);
    }
    if halt'.Disconnected? {
      LeftAlone(c, t', heard', halt', a, n);
    }
    if !halt.Disconnected? {
      var i := Decided(c, t, heard, halt, a, n);
      if halt'.Disconnected? {
        NotDecided(c.snap, q, attempts, i);
      } else {
        var j := Decided(c, t', heard', halt', a, n);
        DecisiveUnique(c.snap, q, attempts, i, j);
        if halt.MisplacedEat? {
          MisplacedInside(c.snap, t, q, attempts[i]);
          if halt'.MisplacedEat? {
            MisplacedUnique(c.snap, t, t', q, attempts[i]);
          }
        } else if halt'.MisplacedEat? {
          MisplacedInside(c.snap, t', q, attempts[i]);
        }
      }
    } else if !halt'.Disconnected? {
      var j := Decided(c, t', heard', halt', a, n);
      NotDecided(c.snap, q, attempts, j);
    }
  }

  lemma LeftAlone(c: Config, t: Snap, heard: seq<seq<Exchange>>, halt: Halt, a: Answers, n: nat)
    requires c.phase.Thrown? && halt.Disconnected? && Ending(c, t, heard, halt) && Stops(c, t, halt, a, n)
    ensures t == c.snap && NoneDecisive(c.snap, SeatAfter(c.phase.seat, 1), a.attempts(n), |a.attempts(n)|)
  {
    hide EatIsClaimed, AllWrong, HeardWhileEating, Decisive;
  }

  lemma NotDecided(s: Snap, q: nat, attempts: seq<(int, int)>, i: nat)
    requires FirstDecisive(s, q, attempts, i)
    ensures !NoneDecisive(s, q, attempts, |attempts|)
  {
    hide Decisive;
  }

  /** The answer that ended the dialogue, when the player did not leave. */
  lemma Decided(c: Config, t: Snap, heard: seq<seq<Exchange>>, halt: Halt, a: Answers, n: nat) returns (i: nat)
    requires c.phase.Thrown? && !halt.Disconnected? && Ending(c, t, heard, halt) && Stops(c, t, halt, a, n)
    ensures FirstDecisive(c.snap, SeatAfter(c.phase.seat, 1), a.attempts(n), i)
    ensures halt.OutOfCells? || halt.MisplacedEat?
    ensures halt.OutOfCells? ==> a.attempts(n)[i] == (halt.e1, halt.e2) && !(0 <= halt.e1 < 20 && 0 <= halt.e2 < 20) && t == c.snap
    ensures halt.MisplacedEat? ==> MisplacesWith(c.snap, t, SeatAfter(c.phase.seat, 1), a.attempts(n)[i])
  {
    hide EatIsClaimed, Decisive, NoneDecisive, MisplacesWith, AllWrong, HeardWhileEating, BrokenHand, Stall;
    var q, attempts := SeatAfter(c.phase.seat, 1), a.attempts(n);
    match halt
    case OutOfCells(e1, e2) => i :| FirstDecisive(c.snap, q, attempts, i) && attempts[i] == (e1, e2);
    case MisplacedEat => i :| FirstDecisive(c.snap, q, attempts, i) && MisplacesWith(c.snap, t, q, attempts[i]);
    case _ =>
  }

  lemma MisplacedInside(s: Snap, t: Snap, q: nat, e: (int, int))
    requires MisplacesWith(s, t, q, e)
    ensures 0 <= e.0 < 20 && 0 <= e.1 < 20
  {
    hide Ate, CompletesRun, Misplaces, Waiting;
  }

  lemma MisplacedUnique(s: Snap, t: Snap, t': Snap, q: nat, e: (int, int))
    requires AllWaiting(s) && Playable(s.discarded) && MisplacesWith(s, t, q, e) && MisplacesWith(s, t', q, e)
    ensures t == t'
  {
    hide Eaten, AllWaiting, CompletesRun, Misplaces, Waiting, Playable;
    EatenUnique(s, t, t', q, e.0, e.1);
  }

  // ----- the round --------------------------------------------------------------------------------

  /** A whole round is determined by the wall, the seat that begins and what the players
      answer: all states that it goes through, how it ends, and the table it leaves. */
  lemma RoundIsDetermined(w: seq<Mj>, start: nat, a: Answers,
                          run: seq<Config>, t: Snap, heard: seq<seq<Exchange>>, halt: Halt,
                          run': seq<Config>, t': Snap, heard': seq<seq<Exchange>>, halt': Halt)
    requires Complete(run, t, heard, halt, a) && DealtFrom(w, start, run[0].snap) && run[0].phase == ToDraw(start, false)
    requires Complete(run', t', heard', halt', a) && DealtFrom(w, start, run'[0].snap) && run'[0].phase == ToDraw(start, false)
    ensures run == run' && halt == halt' && (halt.OffTheWall? || t == t')
  {
    hide DealtFrom, LegalRun, Obeyed, EndsAt, Step, Obeys, Inv;
    LastInv(run);
    LastInv(run');
    DealIsDetermined(w, start, run[0].snap, run'[0].snap);
    assert run[0] == run'[0];
    forall i | 0 <= i < |run| && i < |run'|
      ensures run[i] == run'[i]
    {
      RunsAgree(run, run', a, i);
    }
    if |run| < |run'| {
      GoesFurther(run', a, |run| - 1);
      EndIsEnd(run[|run| - 1], t, heard, halt, a, |run| - 1, run'[|run|]);
    }
    if |run'| < |run| {
      GoesFurther(run, a, |run'| - 1);
      EndIsEnd(run'[|run'| - 1], t', heard', halt', a, |run'| - 1, run[|run'|]);
    }
    EndsAlike(run[|run| - 1], a, |run| - 1, t, heard, halt, t', heard', halt');
  }

  lemma GoesFurther(run: seq<Config>, a: Answers, n: nat)
    requires LegalRun(run) && Obeyed(run, a) && n + 1 < |run|
    ensures Step(run[n], run[n + 1]) && Obeys(run[n], run[n + 1], a, n)
  {
    hide Step, Obeys, Inv;
  }
}
