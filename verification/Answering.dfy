/** What the players answer, and the one way in which a round goes on behind it. */
module Answering {
  import opened Tiles
  import opened Winning
  import opened Melds
  import opened Seats
  import opened Snapshots
  import opened Play
  import opened Options
  import opened Messages

  /** The answers to the questions asked in the n-th state of a round: to a win and to a
      quiet gang of one's own; the cell to discard; the offers that would be accepted for
      the tile then thrown; and the pairs of cells named one after the other to eat with. */
  datatype Answers = Answers(
    hu: nat -> bool, quiet: nat -> bool, index: nat -> int, accepts: nat -> set<Offer>,
    attempts: nat -> seq<(int, int)>)

  function NoAnswers(): Answers {
    Answers(_ => false, _ => false, _ => 0, _ => {}, _ => [])
  }

  /** The seat that is to discard can win and says so. */
  ghost predicate DeclaresHu(c: Config, a: Answers, n: nat) {
    c.phase.ToDiscard? && SelfHuOf(c.snap, c.phase.seat) && a.hu(n)
  }

  /** It does not, but in its own turn it can gang quietly and says so. */
  ghost predicate DeclaresGang(c: Config, a: Answers, n: nat) {
    && c.phase.ToDiscard? && !c.phase.called && !DeclaresHu(c, a, n)
    && QuietGangOf(c.snap, c.phase.seat) && a.quiet(n)
  }

  // ----- eat answers ----------------------------------------------------------------------

  /** An answer that ends the dialogue: a cell that decks does not have, or two cells that
      complete a run with the discard. */
  ghost predicate Decisive(s: Snap, q: nat, e: (int, int)) {
    !(0 <= e.0 < 20 && 0 <= e.1 < 20) || EatAnswer(s, q, e.0, e.1)
  }

  ghost predicate NoneDecisive(s: Snap, q: nat, attempts: seq<(int, int)>, n: nat) {
    n <= |attempts| && forall i :: 0 <= i < n ==> !Decisive(s, q, attempts[i])
  }

  /** Attempt i is the first one that ends the dialogue. */
  ghost predicate FirstDecisive(s: Snap, q: nat, attempts: seq<(int, int)>, i: nat) {
    i < |attempts| && Decisive(s, q, attempts[i]) && NoneDecisive(s, q, attempts, i)
  }

  lemma DecisiveUnique(s: Snap, q: nat, attempts: seq<(int, int)>, i: nat, j: nat)
    requires FirstDecisive(s, q, attempts, i) && FirstDecisive(s, q, attempts, j)
    ensures i == j
  {
    hide Decisive;
  }

  /** Seat q eats with the first two cells named that complete a run. */
  ghost predicate EatsAsNamed(s: Snap, t: Snap, q: nat, attempts: seq<(int, int)>) {
    exists i: nat :: FirstDecisive(s, q, attempts, i) && EatsWith(s, t, q, attempts[i])
  }

  ghost predicate EatsWith(s: Snap, t: Snap, q: nat, e: (int, int)) {
    0 <= e.0 && 0 <= e.1 && EatOf(s, t, q, e.0, e.1)
  }

  ghost predicate MisplacesWith(s: Snap, t: Snap, q: nat, e: (int, int)) {
    0 <= e.0 && 0 <= e.1 && MisplacedAnswer(s, q, e.0, e.1) && Eaten(s, t, q, e.0, e.1)
  }

  /** What the dialogue comes to: the first answer that names a cell outside decks or
      completes a run decides; without one the player has left. */
  ghost predicate DialogueComesTo(s: Snap, t: Snap, q: nat, attempts: seq<(int, int)>, halt: Halt) {
    && q < 4 == |s.seats|
    && (NoneDecisive(s, q, attempts, |attempts|) <==> halt.Disconnected?)
    && (halt.Disconnected? ==> t == s)
    && forall i: nat :: FirstDecisive(s, q, attempts, i) ==> AnswerComesTo(s, t, q, attempts[i], halt)
  }

  ghost predicate AnswerComesTo(s: Snap, t: Snap, q: nat, e: (int, int), halt: Halt)
    requires q < 4 == |s.seats|
  {
    if !(0 <= e.0 < 20 && 0 <= e.1 < 20) then halt == OutOfCells(e.0, e.1) && t == s
    else if Misplaces(s.seats[q].nc, e.0, e.1) then halt.MisplacedEat? && MisplacesWith(s, t, q, e)
    else halt.Running? && EatsWith(s, t, q, e)
  }

  lemma AnswerDecides(s: Snap, t: Snap, q: nat, attempts: seq<(int, int)>, i: nat, halt: Halt)
    requires q < 4 == |s.seats| && FirstDecisive(s, q, attempts, i) && AnswerComesTo(s, t, q, attempts[i], halt)
    ensures DialogueComesTo(s, t, q, attempts, halt)
  {
    hide Decisive, MisplacesWith, EatsWith;
    forall j: nat | FirstDecisive(s, q, attempts, j)
      ensures AnswerComesTo(s, t, q, attempts[j], halt)
    {
      DecisiveUnique(s, q, attempts, i, j);
    }
  }

  lemma NobodyDecides(s: Snap, q: nat, attempts: seq<(int, int)>)
    requires q < 4 == |s.seats| && NoneDecisive(s, q, attempts, |attempts|)
    ensures DialogueComesTo(s, s, q, attempts, Disconnected)
  {
    hide Decisive, AnswerComesTo;
  }

  /** The claim that is carried out is to eat. */
  ghost predicate EatIsClaimed(c: Config) {
    c.phase.Thrown? && FirstAccepted(c.snap, c.phase.seat, c.phase.accepts, Some(EatOffer))
  }

  // ----- steps and endings ------------------------------------------------------------------

  /** The step from c to d is the one that the answers given in the n-th state lead to. */
  ghost predicate Obeys(c: Config, d: Config, a: Answers, n: nat) {
    match c.phase
    case ToDraw(_, _) => true
    case ToDiscard(p, _) =>
      if DeclaresHu(c, a, n) then d.phase == Over(p)
      else
        && !DeclaresGang(c, a, n) && d.phase == Thrown(p, a.accepts(n))
        && 0 <= a.index(n) && DiscardOf(c.snap, d.snap, p, a.index(n))
    case Thrown(p, _) => EatIsClaimed(c) ==> EatsAsNamed(c.snap, d.snap, SeatAfter(p, 1), a.attempts(n))
    case Over(_) => false
  }

  ghost predicate Obeyed(run: seq<Config>, a: Answers) {
    forall n {:trigger run[n]} :: 0 <= n < |run| - 1 ==> Obeys(run[n], run[n + 1], a, n)
  }

  lemma ObeyedGrows(run: seq<Config>, d: Config, a: Answers)
    requires run != [] && Obeyed(run, a) && Obeys(run[|run| - 1], d, a, |run| - 1)
    ensures Obeyed(run + [d], a)
  {
    hide Obeys;
    var more := run + [d];
    forall n | 0 <= n < |more| - 1
      ensures Obeys(more[n], more[n + 1], a, n)
    {
      assert more[n] == run[n];
      if n < |run| - 1 {
        assert more[n + 1] == run[n + 1];
      }
    }
  }

  /** The round stops in c, in its n-th state, because of these answers. */
  ghost predicate Stops(c: Config, t: Snap, halt: Halt, a: Answers, n: nat) {
    match halt
    case Running => false
    case OffTheWall => true
    case BadDiscard(index) => c.phase.ToDiscard? && !DeclaresHu(c, a, n) && !DeclaresGang(c, a, n) && index == a.index(n)
    case QuietGang => DeclaresGang(c, a, n)
    case OutOfCells(e1, e2) =>
      && EatIsClaimed(c)
      && exists i: nat :: FirstDecisive(c.snap, SeatAfter(c.phase.seat, 1), a.attempts(n), i) && a.attempts(n)[i] == (e1, e2)
    case MisplacedEat =>
      && EatIsClaimed(c)
      && exists i: nat ::
           && FirstDecisive(c.snap, SeatAfter(c.phase.seat, 1), a.attempts(n), i)
           && MisplacesWith(c.snap, t, SeatAfter(c.phase.seat, 1), a.attempts(n)[i])
    case Disconnected =>
      EatIsClaimed(c) && NoneDecisive(c.snap, SeatAfter(c.phase.seat, 1), a.attempts(n), |a.attempts(n)|)
  }

  /** Nothing more is to be played: someone has won, or the wall is empty when a seat's own
      turn would begin. */
  ghost predicate RoundOver(c: Config) {
    c.phase.Over? || (c.phase.ToDraw? && !c.phase.called && c.snap.rest == [])
  }

  /** A round whose last state, its n-th, is c ends there, and leaves the table t. */
  ghost predicate EndsAt(c: Config, t: Snap, heard: seq<seq<Exchange>>, halt: Halt, a: Answers, n: nat) {
    if halt.Running? then t == c.snap && RoundOver(c)
    else Ending(c, t, heard, halt) && Stops(c, t, halt, a, n) && (halt.OffTheWall? ==> DrawIsDue(c))
  }

  /** A round from its beginning to its end, or to where it stops. */
  ghost predicate Complete(run: seq<Config>, t: Snap, heard: seq<seq<Exchange>>, halt: Halt, a: Answers) {
    LegalRun(run) && Obeyed(run, a) && EndsAt(run[|run| - 1], t, heard, halt, a, |run| - 1)
  }

  lemma DrawObeys(c: Config, d: Config, t: Snap, a: Answers, n: nat)
    requires c.phase.ToDraw?
    ensures Obeys(c, d, a, n) && Stops(c, t, OffTheWall, a, n)
  {
  }

  lemma HuObeys(c: Config, a: Answers, n: nat)
    requires DeclaresHu(c, a, n)
    ensures Obeys(c, Config(c.snap, Over(c.phase.seat)), a, n)
  {
  }

  lemma DiscardObeys(c: Config, d: Config, a: Answers, n: nat)
    requires c.phase.ToDiscard? && !DeclaresHu(c, a, n) && !DeclaresGang(c, a, n)
    requires 0 <= a.index(n) && DiscardOf(c.snap, d.snap, c.phase.seat, a.index(n))
    requires d.phase == Thrown(c.phase.seat, a.accepts(n))
    ensures Obeys(c, d, a, n)
  {
    hide DiscardOf;
  }

  /** The first offer accepted is one. */
  lemma ClaimUnique(s: Snap, p: nat, accepts: set<Offer>, x: Option<Offer>, y: Option<Offer>)
    requires FirstAccepted(s, p, accepts, x) && FirstAccepted(s, p, accepts, y)
    ensures x == y
  {
    hide Accepted;
    if x.Some? && y.Some? {
      RankTells(x.value);
      RankTells(y.value);
    } else if x.Some? {
      RankTells(x.value);
    } else if y.Some? {
      RankTells(y.value);
    }
  }

  lemma ClaimObeys(c: Config, d: Config, claim: Option<Offer>, a: Answers, n: nat)
    requires c.phase.Thrown? && FirstAccepted(c.snap, c.phase.seat, c.phase.accepts, claim) && claim != Some(EatOffer)
    ensures Obeys(c, d, a, n)
  {
    hide FirstAccepted;
    if EatIsClaimed(c) {
      ClaimUnique(c.snap, c.phase.seat, c.phase.accepts, claim, Some(EatOffer));
    }
  }

  lemma EatObeys(c: Config, d: Config, a: Answers, n: nat, i: nat)
    requires c.phase.Thrown? && FirstDecisive(c.snap, SeatAfter(c.phase.seat, 1), a.attempts(n), i)
    requires EatsWith(c.snap, d.snap, SeatAfter(c.phase.seat, 1), a.attempts(n)[i])
    ensures Obeys(c, d, a, n)
  {
    hide FirstDecisive, EatsWith;
  }

  lemma GangStops(c: Config, t: Snap, a: Answers, n: nat)
    requires DeclaresGang(c, a, n)
    ensures Stops(c, t, QuietGang, a, n)
  {
  }

  lemma BadDiscardStops(c: Config, t: Snap, a: Answers, n: nat)
    requires c.phase.ToDiscard? && !DeclaresHu(c, a, n) && !DeclaresGang(c, a, n)
    ensures Stops(c, t, BadDiscard(a.index(n)), a, n)
  {
  }

  /** The dialogue at its i-th answer, with no decisive one before. */
  lemma DialogueStops(c: Config, t: Snap, a: Answers, n: nat, i: nat)
    requires EatIsClaimed(c) && NoneDecisive(c.snap, SeatAfter(c.phase.seat, 1), a.attempts(n), i)
    ensures i == |a.attempts(n)| ==> Stops(c, t, Disconnected, a, n)
    ensures i < |a.attempts(n)| ==>
      var e, q := a.attempts(n)[i], SeatAfter(c.phase.seat, 1);
      && (!Decisive(c.snap, q, e) ==> NoneDecisive(c.snap, q, a.attempts(n), i + 1))
      && (Decisive(c.snap, q, e) ==> FirstDecisive(c.snap, q, a.attempts(n), i))
      && (!(0 <= e.0 < 20 && 0 <= e.1 < 20) ==> Stops(c, t, OutOfCells(e.0, e.1), a, n))
      && (Decisive(c.snap, q, e) && MisplacesWith(c.snap, t, q, e) ==> Stops(c, t, MisplacedEat, a, n))
  {
    hide EatAnswer, MisplacesWith, EatIsClaimed;
    if i < |a.attempts(n)| {
      var e := a.attempts(n)[i];
      assert e == (e.0, e.1);
    }
  }

  lemma DialogueStarts(s: Snap, q: nat, attempts: seq<(int, int)>)
    ensures NoneDecisive(s, q, attempts, 0)
  {
  }

  lemma IsMisplaced(s: Snap, t: Snap, q: nat, e1: nat, e2: nat)
    requires EatAnswer(s, q, e1, e2) && Misplaces(s.seats[q].nc, e1, e2) && |t.seats| == 4
    requires t == s.(seats := s.seats[q := t.seats[q]], discarded := NULL_MJ)
    requires AteFrom(s.seats[q], t.seats[q], s.discarded, e1, e2)
    ensures Decisive(s, q, (e1, e2)) && MisplacesWith(s, t, q, (e1, e2))
  {
    hide Ate, Waiting, CompletesRun, Misplaces;
  }

  lemma NoGangWhenCalled(c: Config, a: Answers, n: nat)
    requires c.phase.ToDiscard? && c.phase.called
    ensures !DeclaresGang(c, a, n)
  {
  }

  lemma GangIsDeclared(c: Config, a: Answers, n: nat)
    requires c.phase.ToDiscard? && !c.phase.called && !DeclaresHu(c, a, n)
    ensures DeclaresGang(c, a, n) <==> QuietGangOf(c.snap, c.phase.seat) && a.quiet(n)
  {
  }
}
