/** The rules of a round as a state machine, with what every run of it keeps. The
    server's methods are proved to make only these steps (module Table). */
module Play {
  import opened Tiles
  import opened Winning
  import opened Melds
  import opened Wall
  import opened Seats
  import opened Snapshots
  import opened Options

  /** What a player can be offered after a discard, by distance from the discarder. */
  datatype Offer = HuOffer(k: nat) | GangOffer(k: nat) | PongOffer(k: nat) | EatOffer

  /** Where a round stands. A seat draws and discards because its turn has come or because
      it was called there by an accepted claim. Once a seat has thrown a tile, accepts are
      the offers that the players would say yes to. */
  datatype Phase =
    | ToDraw(seat: nat, called: bool)
    | ToDiscard(seat: nat, called: bool)
    | Thrown(seat: nat, accepts: set<Offer>)
    | Over(winner: nat)

  datatype Config = Config(snap: Snap, phase: Phase)

  ghost predicate DiscardStep(s: Snap, t: Snap, p: nat) {
    exists index: nat :: DiscardOf(s, t, p, index)
  }

  ghost predicate DiscardOf(s: Snap, t: Snap, p: nat, index: nat) {
    Discarded(s, t, p, index) && index <= s.seats[p].nc
  }

  /** Seat q eats with two tiles that the swaps handle rightly. */
  ghost predicate EatStep(s: Snap, t: Snap, q: nat) {
    exists e1: nat, e2: nat :: EatOf(s, t, q, e1, e2)
  }

  ghost predicate EatOf(s: Snap, t: Snap, q: nat, e1: nat, e2: nat) {
    && Eaten(s, t, q, e1, e2) && e1 != e2 && s.seats[q].nc >= 4
    && CompletesRun(s.seats[q].decks[e1], s.seats[q].decks[e2], s.discarded)
    && !Misplaces(s.seats[q].nc, e1, e2)
  }

  /** Seat p declares the hand it is to discard from. */
  ghost predicate SelfHuOf(s: Snap, p: nat) {
    |s.seats| == 4 && p < 4 && WinningTiles(Bag(s.seats[p].decks))
  }

  // ----- who may claim a discard ------------------------------------------------------

  predicate IsOffer(o: Offer) {
    o.EatOffer? || 1 <= o.k <= 3
  }

  /** The order in which othersreaction makes its offers. */
  function Rank(o: Offer): int {
    match o
    case HuOffer(k) => k
    case GangOffer(k) => 3 + k
    case PongOffer(k) => 6 + k
    case EatOffer => 10
  }

  /** The seat an offer is made to after a discard of seat p. */
  function OfferedTo(p: nat, o: Offer): (q: nat)
    ensures q < 4
  {
    SeatAfter(p, if o.EatOffer? then 1 else o.k)
  }

  ghost predicate Possible(s: Snap, p: nat, o: Offer) {
    && |s.seats| == 4
    && var tiles := Bag(s.seats[OfferedTo(p, o)].decks);
       match o
       case HuOffer(_) => WinningTiles(tiles + multiset{s.discarded})
       case GangOffer(_) => tiles[s.discarded] >= 3
       case PongOffer(_) => tiles[s.discarded] >= 2
       case EatOffer => CanEat(tiles, s.discarded)
  }

  /** The offer is possible and the player it is made to accepts. */
  ghost predicate Accepted(s: Snap, p: nat, o: Offer, accepts: set<Offer>) {
    Possible(s, p, o) && o in accepts
  }

  /** No offer of a smaller rank is accepted. */
  ghost predicate NoneBefore(s: Snap, p: nat, accepts: set<Offer>, rank: int) {
    forall o :: IsOffer(o) && Rank(o) < rank ==> !Accepted(s, p, o, accepts)
  }

  /** claim is the first offer accepted, in the order of asking. */
  ghost predicate FirstAccepted(s: Snap, p: nat, accepts: set<Offer>, claim: Option<Offer>) {
    match claim
    case None => NoneBefore(s, p, accepts, 11)
    case Some(o) => IsOffer(o) && Accepted(s, p, o, accepts) && NoneBefore(s, p, accepts, Rank(o))
  }

  /** Different offers have different ranks. */
  lemma RankTells(o: Offer)
    requires IsOffer(o)
    ensures 1 <= Rank(o) <= 10
    ensures forall o' :: IsOffer(o') ==> 1 <= Rank(o') <= 10 && (Rank(o') == Rank(o) ==> o' == o)
  {
  }

  /** What each offer asks of the seat it is made to, k places further. */
  lemma WhatIsPossible(s: Snap, p: nat, k: nat)
    requires |s.seats| == 4
    ensures Possible(s, p, HuOffer(k)) <==> WinningTiles(Bag(s.seats[(p + k) % 4].decks) + multiset{s.discarded})
    ensures Possible(s, p, GangOffer(k)) <==> Bag(s.seats[(p + k) % 4].decks)[s.discarded] >= 3
    ensures Possible(s, p, PongOffer(k)) <==> Bag(s.seats[(p + k) % 4].decks)[s.discarded] >= 2
    ensures Possible(s, p, EatOffer) <==>
      s.discarded.suit != DAZI && exists x, y ::
        x in Bag(s.seats[(p + 1) % 4].decks) && y in Bag(s.seats[(p + 1) % 4].decks) && CompletesRun(x, y, s.discarded)
  {
    hide WinningTiles, Bag, CompletesRun;
  }

  /** The order of asking, spelled out: hu of the three others, then gang, then pong, each
      by distance, and last eat. */
  ghost predicate FirstInOrder(s: Snap, p: nat, accepts: set<Offer>, claim: Option<Offer>) {
    var noHu := forall j :: 1 <= j <= 3 ==> !Accepted(s, p, HuOffer(j), accepts);
    var noGang := forall j :: 1 <= j <= 3 ==> !Accepted(s, p, GangOffer(j), accepts);
    var noPong := forall j :: 1 <= j <= 3 ==> !Accepted(s, p, PongOffer(j), accepts);
    match claim
    case None => noHu && noGang && noPong && !Accepted(s, p, EatOffer, accepts)
    case Some(HuOffer(k)) =>
      1 <= k <= 3 && Accepted(s, p, HuOffer(k), accepts) && forall j :: 1 <= j < k ==> !Accepted(s, p, HuOffer(j), accepts)
    case Some(GangOffer(k)) =>
      && noHu
      && 1 <= k <= 3 && Accepted(s, p, GangOffer(k), accepts) && forall j :: 1 <= j < k ==> !Accepted(s, p, GangOffer(j), accepts)
    case Some(PongOffer(k)) =>
      && noHu && noGang
      && 1 <= k <= 3 && Accepted(s, p, PongOffer(k), accepts) && forall j :: 1 <= j < k ==> !Accepted(s, p, PongOffer(j), accepts)
    case Some(EatOffer) => noHu && noGang && noPong && Accepted(s, p, EatOffer, accepts)
  }

  lemma ClaimsInOrder(s: Snap, p: nat, accepts: set<Offer>, claim: Option<Offer>)
    ensures FirstAccepted(s, p, accepts, claim) <==> FirstInOrder(s, p, accepts, claim)
  {
    hide Accepted;
    OffersByRank(s, p, accepts, if claim.None? then 11 else Rank(claim.value));
  }

  lemma OffersByRank(s: Snap, p: nat, accepts: set<Offer>, rank: int)
    ensures NoneBefore(s, p, accepts, rank) <==>
      && (forall j :: 1 <= j <= 3 && j < rank ==> !Accepted(s, p, HuOffer(j), accepts))
      && (forall j :: 1 <= j <= 3 && 3 + j < rank ==> !Accepted(s, p, GangOffer(j), accepts))
      && (forall j :: 1 <= j <= 3 && 6 + j < rank ==> !Accepted(s, p, PongOffer(j), accepts))
      && (10 < rank ==> !Accepted(s, p, EatOffer, accepts))
  {
    hide Accepted;
  }

  /** A pong leaves a hand to discard from, a gang a tile to draw. */
  function AfterClaim(q: nat, c: nat): Phase {
    if c == 2 then ToDiscard(q, true) else ToDraw(q, true)
  }

  /** The first offer accepted is carried out; without one the discard sinks and the
      next player draws. */
  ghost predicate Carried(s: Snap, d: Config, p: nat, claim: Option<Offer>) {
    match claim
    case None => d.phase == ToDraw(SeatAfter(p, 1), false) && Sunk(s, d.snap, p)
    case Some(o) =>
      var q := OfferedTo(p, o);
      match o
      case HuOffer(_) => d == Config(s, Over(q))
      case GangOffer(_) => d.phase == AfterClaim(q, 3) && Claimed(s, d.snap, q, 3)
      case PongOffer(_) => d.phase == AfterClaim(q, 2) && Claimed(s, d.snap, q, 2)
      case EatOffer => d.phase == ToDiscard(q, true) && EatStep(s, d.snap, q)
  }

  ghost predicate Reaction(s: Snap, d: Config, p: nat, accepts: set<Offer>, claim: Option<Offer>) {
    FirstAccepted(s, p, accepts, claim) && Carried(s, d, p, claim)
  }

  /** One step of a round. */
  ghost predicate Step(c: Config, d: Config) {
    match c.phase
    case ToDraw(p, called) =>
      d.phase == ToDiscard(p, called) && DrawStep(c.snap, d.snap, p)
    case ToDiscard(p, _) =>
      || (d.phase.Thrown? && d.phase.seat == p && DiscardStep(c.snap, d.snap, p))
      || (d == Config(c.snap, Over(p)) && SelfHuOf(c.snap, p))
    case Thrown(p, accepts) =>
      exists claim :: Reaction(c.snap, d, p, accepts, claim)
    case Over(_) => false
  }

  function Afterwards(p: nat, claim: Option<Offer>): Phase {
    match claim
    case None => ToDraw((p + 1) % 4, false)
    case Some(HuOffer(k)) => Over((p + k) % 4)
    case Some(GangOffer(k)) => ToDraw((p + k) % 4, true)
    case Some(PongOffer(k)) => ToDiscard((p + k) % 4, true)
    case Some(EatOffer) => ToDiscard((p + 1) % 4, true)
  }

  /** Who goes on after each step, by places around the table. */
  lemma WhoseTurn(c: Config, d: Config)
    requires Step(c, d)
    ensures c.phase.ToDraw? ==> d.phase == ToDiscard(c.phase.seat, c.phase.called)
    ensures c.phase.ToDiscard? ==> d.phase == Over(c.phase.seat) || (d.phase.Thrown? && d.phase.seat == c.phase.seat)
    ensures c.phase.Thrown? ==>
      exists claim :: FirstAccepted(c.snap, c.phase.seat, c.phase.accepts, claim) && d.phase == Afterwards(c.phase.seat, claim)
    ensures !c.phase.Over?
  {
    hide FirstAccepted, DrawStep, DiscardStep, EatStep, Claimed, Sunk, SelfHuOf;
    if c.phase.Thrown? {
      var claim :| Reaction(c.snap, d, c.phase.seat, c.phase.accepts, claim);
    }
  }

  /** What holds in every state of every round. */
  ghost predicate Inv(c: Config) {
    && Conserved(c.snap)
    && match c.phase
       case ToDraw(p, _) => p < 4 && AllWaiting(c.snap) && c.snap.discarded == NULL_MJ
       case ToDiscard(p, _) => Turn(c.snap, p)
       case Thrown(p, _) => p < 4 && AllWaiting(c.snap) && Playable(c.snap.discarded)
       case Over(w) => Won(c.snap, w) && (Turn(c.snap, w) || (AllWaiting(c.snap) && Playable(c.snap.discarded)))
  }

  lemma DrawKeeps(s: Snap, t: Snap, p: nat)
    requires Conserved(s) && AllWaiting(s) && p < 4 && s.discarded == NULL_MJ && DrawStep(s, t, p)
    ensures Conserved(t) && Turn(t, p)
  {
    hide Waiting, Holding, TheSet, TableBag, Drew, DrawOf;
    var k: nat :| DrawOf(s, t, p, k);
    DrewFits(s, t, p, k);
    DrewIsTurn(s, t, p, k);
    DrewConserves(s, t, p, k);
  }

  lemma DrewFits(s: Snap, t: Snap, p: nat, k: nat)
    requires Conserved(s) && AllWaiting(s) && DrawOf(s, t, p, k)
    ensures Drew(s, t, p, k) && k < |s.rest| && Playable(s.rest[k])
    ensures s.seats[p].nc < |s.seats[p].decks| && s.seats[p].decks[s.seats[p].nc] == NULL_MJ
  {
    RestIsReal(s, k);
  }

  lemma DiscardKeeps(s: Snap, t: Snap, p: nat)
    requires Conserved(s) && Turn(s, p) && DiscardStep(s, t, p)
    ensures Conserved(t) && AllWaiting(t) && Playable(t.discarded)
  {
    hide TheSet, TableBag, Waiting, SortedHand;
    var index: nat :| DiscardOf(s, t, p, index);
    DiscardedWaits(s, t, p, index);
    DiscardedConserves(s, t, p, index);
  }

  /** A claim is only possible with room for it. */
  lemma ClaimRoom(s: Snap, q: nat, c: nat)
    requires AllWaiting(s) && q < 4 && 2 <= c <= Bag(s.seats[q].decks)[s.discarded]
    ensures s.seats[q].nc >= 4 && |s.seats[q].door| <= 16
    ensures s.seats[q].nc <= |s.seats[q].decks|
    ensures Bag(s.seats[q].decks) == multiset(s.seats[q].decks[..s.seats[q].nc])
  {
    BagOfHand(s.seats[q].decks, s.seats[q].nc);
    MeldRoom(s.seats[q], s.discarded, c);
  }

  lemma ClaimKeeps(s: Snap, t: Snap, q: nat, c: nat)
    requires Conserved(s) && AllWaiting(s) && q < 4 && Playable(s.discarded) && 2 <= c <= 3 && Claimed(s, t, q, c)
    requires Bag(s.seats[q].decks)[s.discarded] >= c
    ensures Conserved(t) && t.discarded == NULL_MJ && if c == 2 then Turn(t, q) else AllWaiting(t)
  {
    hide TheSet, TableBag, Waiting, Holding, Melded, Bag;
    ClaimRoom(s, q, c);
    ClaimedSettles(s, t, q, c);
    ClaimedConserves(s, t, q, c);
  }

  lemma EatKeeps(s: Snap, t: Snap, q: nat)
    requires Conserved(s) && AllWaiting(s) && q < 4 && Playable(s.discarded) && EatStep(s, t, q)
    ensures Conserved(t) && Turn(t, q)
  {
    hide TheSet, TableBag, Holding, Ate, SortedHand;
    var e1: nat, e2: nat :| EatOf(s, t, q, e1, e2);
    EatenSettles(s, t, q, e1, e2);
    EatenKeepsAll(s, t, q, e1, e2);
  }

  lemma EatenKeepsAll(s: Snap, t: Snap, q: nat, e1: nat, e2: nat)
    requires Conserved(s) && AllWaiting(s) && q < 4 && Playable(s.discarded)
    requires EatOf(s, t, q, e1, e2)
    ensures Conserved(t)
  {
    hide TheSet, TableBag, Ate;
    EatenConserves(s, t, q, e1, e2);
  }

  lemma SinkKeeps(s: Snap, t: Snap, p: nat)
    requires Conserved(s) && AllWaiting(s) && Playable(s.discarded) && Sunk(s, t, p)
    ensures Conserved(t) && AllWaiting(t) && t.discarded == NULL_MJ
  {
    hide TheSet, TableBag, Waiting;
    SunkWaits(s, t, p);
    SunkConserves(s, t, p);
  }

  lemma SelfHuKeeps(s: Snap, p: nat)
    requires Turn(s, p) && SelfHuOf(s, p)
    ensures Won(s, p)
  {
  }

  lemma ReactionKeeps(s: Snap, d: Config, p: nat, o: Offer)
    requires Inv(Config(s, Thrown(p, {}))) && Possible(s, p, o) && Carried(s, d, p, Some(o))
    ensures Inv(d)
  {
    hide Conserved, AllWaiting, Turn, Claimed, EatStep, WinningTiles, Bag, CanEat;
    var q := OfferedTo(p, o);
    match o
    case HuOffer(_) => HuKeeps(s, q);
    case GangOffer(_) => ClaimKeeps(s, d.snap, q, 3);
    case PongOffer(_) => ClaimKeeps(s, d.snap, q, 2);
    case EatOffer => EatKeeps(s, d.snap, q);
  }

  lemma HuKeeps(s: Snap, q: nat)
    requires AllWaiting(s) && Playable(s.discarded) && q < 4
    requires WinningTiles(Bag(s.seats[q].decks) + multiset{s.discarded})
    ensures Won(s, q)
  {
  }

  /** Every rule keeps the invariant. */
  lemma StepKeepsInv(c: Config, d: Config)
    requires Inv(c) && Step(c, d)
    ensures Inv(d)
  {
    hide Conserved, AllWaiting, Turn, DrawStep, DiscardStep, Possible, Carried, SelfHuOf, Won, NoneBefore;
    match c.phase
    case ToDraw(p, _) =>
      DrawKeeps(c.snap, d.snap, p);
    case ToDiscard(p, _) =>
      if d.phase.Thrown? {
        DiscardKeeps(c.snap, d.snap, p);
        TurnIsSeat(c.snap, p);
      } else {
        SelfHuKeeps(c.snap, p);
      }
    case Thrown(p, accepts) =>
      var claim :| Reaction(c.snap, d, p, accepts, claim);
      match claim {
        case None => SinkCarried(c.snap, d, p);
        case Some(o) => ReactionKeeps(c.snap, d, p, o);
      }
    case Over(_) =>
  }

  lemma SinkCarried(s: Snap, d: Config, p: nat)
    requires Inv(Config(s, Thrown(p, {}))) && Carried(s, d, p, None)
    ensures Inv(d)
  {
    hide Conserved, AllWaiting;
    SinkKeeps(s, d.snap, p);
  }

  lemma TurnIsSeat(s: Snap, p: nat)
    requires Turn(s, p)
    ensures p < 4
  {
  }

  // ----- runs -----------------------------------------------------------------------

  /** A run of the rules, from a dealt table on. */
  ghost predicate LegalRun(run: seq<Config>) {
    && run != []
    && run[0].phase.ToDraw? && !run[0].phase.called && Inv(run[0])
    && forall i :: 0 <= i < |run| - 1 ==> Step(run[i], run[i + 1])
  }

  /** Safety over whole rounds: in every state of every run no tile is lost and the
      seats have the shape that the phase calls for. */
  lemma {:induction false} RunKeepsInv(run: seq<Config>, i: nat)
    requires LegalRun(run) && i < |run|
    ensures Inv(run[i])
  {
    hide Inv, Step;
    if i != 0 {
      RunKeepsInv(run, i - 1);
      StepKeepsInv(run[i - 1], run[i]);
    }
  }

  lemma RunGrows(run: seq<Config>, d: Config)
    requires LegalRun(run) && Step(run[|run| - 1], d)
    ensures LegalRun(run + [d])
  {
    hide Inv, Step;
  }

  /** What the buffers of a seat hold is bounded by their sizes. */
  ghost predicate FitsBuffers(v: View) {
    1 <= v.nc <= 16 && v.nc % 3 == 1 && |v.door| <= 20 && |v.flowers| <= 8 && |v.sea| <= 144
  }

  lemma InvIsShaped(c: Config, q: nat)
    requires Inv(c) && q < 4
    ensures |c.snap.seats| == 4 && Shape(c.snap.seats[q])
  {
    hide TheSet, TableBag, WinningTiles, Hand, SortedHand, Bag, Playable;
  }

  lemma ShapeFits(s: Snap, q: nat)
    requires Conserved(s) && q < 4 && Shape(s.seats[q])
    ensures FitsBuffers(s.seats[q])
  {
    SeaHasRoom(s, q);
    SeatIsPart(s, q);
    var f := s.seats[q].flowers;
    assert multiset(f) <= SeatBag(s.seats[q]);
    AtMostEightFlowers(multiset(f), TableBag(s)) by {
      assert forall m :: m in multiset(f) ==> m in f;
    }
  }

  /** Consequences in every state of every run: the full set of 144 tiles lies on the
      table, no buffer is overrun, and a declared winner has a winning hand. */
  lemma RunIsSafe(run: seq<Config>, i: nat, q: nat)
    requires LegalRun(run) && i < |run| && q < 4
    ensures |run[i].snap.seats| == 4 && TheSet(TableBag(run[i].snap)) && FitsBuffers(run[i].snap.seats[q])
    ensures run[i].phase.Over? ==> Won(run[i].snap, run[i].phase.winner)
  {
    hide LegalRun, Step, TheSet, TableBag, Shape, FitsBuffers, AllWaiting, Turn, Won;
    RunKeepsInv(run, i);
    InvIsShaped(run[i], q);
    ShapeFits(run[i].snap, q);
  }

  // ----- every round ends ----------------------------------------------------------

  /** Tiles left to draw, capacity left to meld, and how far the turn has got. */
  ghost function Energy(c: Config): nat {
    if |c.snap.seats| != 4 then 0 else
    3 * |c.snap.rest| + Capacity(c.snap) +
    match c.phase
    case ToDraw(_, _) => 0
    case ToDiscard(_, _) => 2
    case Thrown(_, _) => 1
    case Over(_) => 0
  }

  lemma ClaimSpends(s: Snap, t: Snap, q: nat, c: nat)
    requires |s.seats| == 4 && Claimed(s, t, q, c)
    ensures |t.seats| == 4 && Capacity(t) + 3 == Capacity(s) && t.rest == s.rest
  {
  }

  lemma EatSpends(s: Snap, t: Snap, q: nat)
    requires |s.seats| == 4 && EatStep(s, t, q)
    ensures |t.seats| == 4 && Capacity(t) + 3 == Capacity(s) && t.rest == s.rest
  {
  }

  /** Every step spends energy: a claim costs capacity, a draw a tile of the wall. */
  lemma StepSpends(c: Config, d: Config)
    requires |c.snap.seats| == 4 && Step(c, d)
    ensures |d.snap.seats| == 4 && Energy(d) < Energy(c)
  {
    hide FirstAccepted, Carried, SelfHuOf, DiscardStep;
    match c.phase
    case ToDraw(p, _) =>
      var k: nat :| DrawOf(c.snap, d.snap, p, k);
    case ToDiscard(p, _) =>
      if d.phase.Thrown? {
        DiscardKeepsCapacity(c.snap, d.snap, p);
      }
    case Thrown(p, accepts) =>
      var claim :| Reaction(c.snap, d, p, accepts, claim);
      CarriedSpends(c.snap, d, p, claim);
    case Over(_) =>
  }

  lemma CarriedSpends(s: Snap, d: Config, p: nat, claim: Option<Offer>)
    requires |s.seats| == 4 && Carried(s, d, p, claim)
    ensures |d.snap.seats| == 4 && Energy(d) <= 3 * |s.rest| + Capacity(s)
  {
    hide Claimed, EatStep;
    match claim
    case None =>
    case Some(HuOffer(_)) =>
    case Some(GangOffer(_)) => ClaimSpends(s, d.snap, OfferedTo(p, claim.value), 3);
    case Some(PongOffer(_)) => ClaimSpends(s, d.snap, OfferedTo(p, claim.value), 2);
    case Some(EatOffer) => EatSpends(s, d.snap, OfferedTo(p, claim.value));
  }

  lemma DiscardKeepsCapacity(s: Snap, t: Snap, p: nat)
    requires |s.seats| == 4 && DiscardStep(s, t, p)
    ensures |t.seats| == 4 && Capacity(t) == Capacity(s) && t.rest == s.rest
  {
  }

  /** So a round takes a bounded number of steps, whatever the players answer. */
  lemma {:induction false} RunIsShort(run: seq<Config>)
    requires LegalRun(run)
    ensures |run[|run| - 1].snap.seats| == |run[0].snap.seats| == 4
    ensures |run| + Energy(run[|run| - 1]) <= 1 + Energy(run[0])
  {
    hide Inv, Step, Energy;
    FirstHasSeats(run);
    var n := |run| - 1;
    if n != 0 {
      assert LegalRun(run[..n]);
      RunIsShort(run[..n]);
      StepSpends(run[n - 1], run[n]);
    }
  }

  /** A legal run has led to c. */
  ghost predicate Reaches(run: seq<Config>, c: Config) {
    LegalRun(run) && run[|run| - 1] == c
  }

  lemma GoesOn(run: seq<Config>, c: Config, d: Config)
    requires Reaches(run, c) && Step(c, d)
    ensures Reaches(run + [d], d) && Energy(d) < Energy(c)
  {
    hide Step, Inv, Energy;
    RunIsShort(run);
    StepSpends(c, d);
    RunGrows(run, d);
  }

  lemma ReachedInv(run: seq<Config>, c: Config)
    requires Reaches(run, c)
    ensures Inv(c)
  {
    hide Step, Inv;
    RunKeepsInv(run, |run| - 1);
  }

  lemma ReachedRun(run: seq<Config>, c: Config)
    requires Reaches(run, c)
    ensures LegalRun(run)
  {
  }

  /** A round is not over here: a draw is due that was called for, or tiles are left. */
  ghost predicate DrawIsDue(c: Config) {
    c.phase.ToDraw? && (c.phase.called || c.snap.rest != [])
  }

  lemma DueWhenCalled(run: seq<Config>, c: Config)
    requires Reaches(run, c) && c.phase.ToDraw? && c.phase.called
    ensures run != [] && DrawIsDue(run[|run| - 1])
  {
  }

  lemma ReachedSeats(run: seq<Config>, c: Config)
    requires Reaches(run, c)
    ensures |c.snap.seats| == 4
  {
    hide LegalRun;
    RunIsShort(run);
  }

  lemma LastReached(run: seq<Config>, c: Config)
    requires Reaches(run, c)
    ensures run != [] && run[|run| - 1] == c
  {
  }

  lemma FirstHasSeats(run: seq<Config>)
    requires LegalRun(run)
    ensures |run[0].snap.seats| == 4
  {
  }

  // ----- how the operations of the server are steps ------------------------------------

  lemma DrawIsStep(c: Config, d: Config, p: nat, called: bool, tiles: seq<Mj>)
    requires c.phase == ToDraw(p, called) && d.phase == ToDiscard(p, called) && Drawn(c.snap, d.snap, p, tiles)
    ensures Step(c, d)
  {
    hide DrawOf;
  }

  /** A seat whose turn it is holds one tile more than its capacity. */
  lemma HoldingHand(s: Snap, p: nat)
    requires Turn(s, p)
    ensures p < 4 && s.discarded == NULL_MJ && |s.seats| == 4 && Holding(s.seats[p])
    ensures 1 <= s.seats[p].nc <= 16 && |s.seats[p].decks| == 20
    ensures AllPlayable(s.seats[p].decks[..s.seats[p].nc + 1])
    ensures SelfHuOf(s, p) <==> WinningTiles(multiset(s.seats[p].decks[..s.seats[p].nc + 1]))
  {
    BagOfHand(s.seats[p].decks, s.seats[p].nc + 1);
  }

  /** Seat p could gang quietly: three tiles of its hand equal the one in cell nc. */
  ghost predicate QuietGangOf(s: Snap, p: nat) {
    && |s.seats| == 4 && p < 4 && s.seats[p].nc < |s.seats[p].decks|
    && multiset(s.seats[p].decks[..s.seats[p].nc])[s.seats[p].decks[s.seats[p].nc]] >= 3
  }

  /** Behind a draw in one's own turn the hand before it is still sorted: what the question
      asks for is then all that a quiet gang needs. */
  lemma DrawnToSorted(s: Snap, t: Snap, p: nat)
    requires Conserved(s) && AllWaiting(s) && DrawStep(s, t, p)
    ensures p < 4 == |t.seats| && JustDrawn(t.seats[p])
    ensures QuietGangOf(t, p) <==> MayGang(t.seats[p])
  {
    hide TheSet, TableBag;
    var k: nat :| DrawOf(s, t, p, k);
    DrewFits(s, t, p, k);
    var v, w := s.seats[p], t.seats[p];
    assert Waiting(v);
    assert w.decks[v.nc := NULL_MJ] == v.decks;
    assert forall i :: 0 <= i < |w.flowers| ==> Flower(w.flowers[i]);
  }

  lemma JustDrew(c: Config, t: Snap, p: nat)
    requires Inv(c) && c.phase.ToDraw? && c.phase.seat == p && DrawOutcome(c.snap, t, p, true)
    ensures p < 4 == |t.seats| && JustDrawn(t.seats[p]) && (QuietGangOf(t, p) <==> MayGang(t.seats[p]))
  {
    hide Conserved, AllWaiting, JustDrawn, MayGang, QuietGangOf;
    DrawnToSorted(c.snap, t, p);
  }

  lemma HandCells(cells: seq<Mj>, nc: nat)
    requires nc < |cells| && AllPlayable(cells[..nc + 1])
    ensures AllPlayable(cells[..nc]) && Playable(cells[nc])
  {
    assert cells[..nc + 1][nc] == cells[nc];
    assert forall i :: 0 <= i < nc ==> cells[..nc][i] == cells[..nc + 1][i];
  }

  /** The cell that an answer names exists, and its tile has one of the 34 counters. */
  predicate NamesTile(v: View, index: int) {
    0 <= index < |v.decks| && 0 <= Slot(v.decks[index]) < 34
  }

  /** A discard can be counted by the next question exactly if its cell number is in the
      hand; behind the hand the cells are empty. */
  lemma BadDiscardHasNoCounter(v: View, index: int)
    requires Holding(v)
    ensures NamesTile(v, index) <==> 0 <= index <= v.nc
    ensures v.nc < index < 20 ==> v.decks[index] == NULL_MJ
  {
  }

  /** With two tiles left, cell 2 is empty. */
  lemma BadDiscardExample(v: View)
    requires v.decks == [Mj(TONG, 1), Mj(TONG, 2)] + seq(18, _ => NULL_MJ)
    requires v.nc == 1 && v.door == [] && v.flowers == []
    ensures Holding(v) && !NamesTile(v, 2)
  {
  }

  lemma SelfHuIsStep(s: Snap, p: nat, called: bool)
    requires SelfHuOf(s, p)
    ensures Step(Config(s, ToDiscard(p, called)), Config(s, Over(p)))
  {
  }

  lemma DiscardIsStep(c: Config, d: Config, p: nat, index: nat)
    requires c.phase.ToDiscard? && c.phase.seat == p && d.phase.Thrown? && d.phase.seat == p && p < 4
    requires |c.snap.seats| == 4 && |d.snap.seats| == 4 && index <= c.snap.seats[p].nc && index < |c.snap.seats[p].decks|
    requires d.snap == c.snap.(seats := c.snap.seats[p := d.snap.seats[p]], discarded := c.snap.seats[p].decks[index])
    requires Threw(c.snap.seats[p], d.snap.seats[p], index)
    ensures DiscardOf(c.snap, d.snap, p, index) && Step(c, d)
  {
    hide Threw;
    assert DiscardOf(c.snap, d.snap, p, index);
  }

  /** A waiting seat's tiles are its first nc cells. */
  lemma WaitingHand(s: Snap, q: nat)
    requires AllWaiting(s) && q < 4
    ensures |s.seats| == 4 && 1 <= s.seats[q].nc <= 16 && |s.seats[q].decks| == 20
    ensures AllPlayable(s.seats[q].decks[..s.seats[q].nc])
    ensures Bag(s.seats[q].decks) == multiset(s.seats[q].decks[..s.seats[q].nc])
  {
    BagOfHand(s.seats[q].decks, s.seats[q].nc);
  }

  lemma SeaFits(s: Snap, p: nat)
    requires Conserved(s) && p < 4
    ensures |s.seats| == 4 && |s.seats[p].sea| < 150
  {
    SeaHasRoom(s, p);
  }

  /** Carrying out the first offer accepted is a step. */
  lemma ReactionIsStep(c: Config, d: Config, claim: Option<Offer>)
    requires c.phase.Thrown? && FirstAccepted(c.snap, c.phase.seat, c.phase.accepts, claim)
    requires Carried(c.snap, d, c.phase.seat, claim)
    ensures Reaction(c.snap, d, c.phase.seat, c.phase.accepts, claim) && Step(c, d)
  {
    hide FirstAccepted, Carried;
    assert Reaction(c.snap, d, c.phase.seat, c.phase.accepts, claim);
  }

  /** An accepted pong or gang finds the copies it needs. */
  lemma ClaimIsPossible(s: Snap, p: nat, accepts: set<Offer>, k: nat, c: nat)
    requires 2 <= c <= 3 && FirstAccepted(s, p, accepts, Some(if c == 2 then PongOffer(k) else GangOffer(k)))
    ensures |s.seats| == 4 && Bag(s.seats[SeatAfter(p, k)].decks)[s.discarded] >= c
  {
  }

  lemma ClaimHand(s: Snap, q: nat, c: nat)
    requires AllWaiting(s) && q < 4 && 2 <= c <= Bag(s.seats[q].decks)[s.discarded]
    ensures SortedHand(s.seats[q].decks, s.seats[q].nc) && |s.seats[q].decks| == 20
    ensures multiset(s.seats[q].decks[..s.seats[q].nc])[s.discarded] >= c
  {
    WaitingHand(s, q);
  }

  /** Cells e1 and e2 of the waiting seat q complete a run with the discard. */
  ghost predicate EatAnswer(s: Snap, q: nat, e1: nat, e2: nat) {
    && |s.seats| == 4 && q < 4
    && var v := s.seats[q];
       && Waiting(v) && 4 <= v.nc <= 16 && |v.decks| == 20
       && e1 < v.nc && e2 < v.nc && e1 != e2
       && CompletesRun(v.decks[e1], v.decks[e2], s.discarded)
  }

  /** An eatable answer that the swaps misplace. */
  ghost predicate MisplacedAnswer(s: Snap, q: nat, e1: int, e2: int) {
    0 <= e1 && 0 <= e2 && EatAnswer(s, q, e1, e2) && Misplaces(s.seats[q].nc, e1, e2)
  }

  /** From c on the next player has eaten with an answer that the swaps misplace: no tile is
      lost, but the first cell of the hand is empty, and the win test that follows finds no
      counter for it. */
  ghost predicate BrokenHand(c: Config, t: Snap) {
    && c.phase.Thrown? && |t.seats| == 4 && Conserved(t)
    && var q := SeatAfter(c.phase.seat, 1);
       && (exists e1: nat, e2: nat :: MisplacedAnswer(c.snap, q, e1, e2) && Eaten(c.snap, t, q, e1, e2))
       && t.seats[q].nc >= 1 && t.seats[q].decks != [] && !NamesTile(t.seats[q], 0)
  }

  lemma MisplacedBreaksHand(c: Config, t: Snap, e1: nat, e2: nat)
    requires Inv(c) && c.phase.Thrown? && |t.seats| == 4
    requires var q := SeatAfter(c.phase.seat, 1);
      && MisplacedAnswer(c.snap, q, e1, e2)
      && t == c.snap.(seats := c.snap.seats[q := t.seats[q]], discarded := NULL_MJ)
      && AteFrom(c.snap.seats[q], t.seats[q], c.snap.discarded, e1, e2)
    ensures BrokenHand(c, t)
  {
    hide Conserved, AllWaiting, CompletesRun, Waiting, AteFrom;
    var s, q := c.snap, SeatAfter(c.phase.seat, 1);
    HandOfWaiting(s, q);
    MisplacedBreaksSeat(s.seats[q], t.seats[q], s.discarded, e1, e2);
    hide Misplaces, Ate, Hand;
    assert Eaten(s, t, q, e1, e2);
    EatenConserves(s, t, q, e1, e2);
  }

  lemma MisplacedBreaksSeat(v: View, w: View, d: Mj, e1: nat, e2: nat)
    requires AteFrom(v, w, d, e1, e2) && Hand(v.decks, v.nc) && v.nc >= 4 && Misplaces(v.nc, e1, e2)
    ensures e1 < v.nc <= |v.decks| && e2 < v.nc && Ate(v, w, d, e1, e2)
    ensures w.nc >= 1 && w.decks != [] && !NamesTile(w, 0)
  {
    hide EatSwapped;
    MisplacedEatHasNoCounter(v.decks, w.decks, v.nc, e1, e2);
  }

  lemma HandOfWaiting(s: Snap, q: nat)
    requires AllWaiting(s) && q < 4
    ensures |s.seats| == 4 && Hand(s.seats[q].decks, s.seats[q].nc) && |s.seats[q].decks| == 20
    ensures s.seats[q].nc >= 4 ==> |s.seats[q].door| <= 16
  {
  }

  /** The cells a player may name hold tiles or nothing; two that complete a run with
      the discard are different tiles of the hand. */
  lemma EatCellsAreTiles(s: Snap, q: nat, e1: nat, e2: nat)
    requires AllWaiting(s) && Playable(s.discarded) && q < 4 && e1 < 20 && e2 < 20
    ensures |s.seats| == 4 && |s.seats[q].decks| == 20
    ensures InKeyRange(s.seats[q].decks[e1]) && InKeyRange(s.seats[q].decks[e2]) && InKeyRange(s.discarded)
    ensures CompletesRun(s.seats[q].decks[e1], s.seats[q].decks[e2], s.discarded) <==> EatAnswer(s, q, e1, e2)
  {
  }

  lemma EatIsCarried(s: Snap, d: Config, p: nat, e1: nat, e2: nat)
    requires d.phase == ToDiscard(SeatAfter(p, 1), true) && |s.seats| == 4 && |d.snap.seats| == 4
    requires var v := s.seats[SeatAfter(p, 1)];
      && 4 <= v.nc <= |v.decks| && e1 < v.nc && e2 < v.nc && e1 != e2
      && d.snap == s.(seats := s.seats[SeatAfter(p, 1) := d.snap.seats[SeatAfter(p, 1)]], discarded := NULL_MJ)
      && AteFrom(v, d.snap.seats[SeatAfter(p, 1)], s.discarded, e1, e2)
      && CompletesRun(v.decks[e1], v.decks[e2], s.discarded)
      && !Misplaces(v.nc, e1, e2)
    ensures EatOf(s, d.snap, SeatAfter(p, 1), e1, e2) && Carried(s, d, p, Some(EatOffer))
  {
    hide Ate, CompletesRun;
    assert EatOf(s, d.snap, SeatAfter(p, 1), e1, e2);
  }

  /** An eatable answer that would be misplaced is sound in the other order. */
  lemma OtherOrderIsSound(x: Mj, y: Mj, d: Mj, nc: nat, e1: nat, e2: nat)
    requires CompletesRun(x, y, d) && e1 < nc && e2 < nc && Misplaces(nc, e1, e2)
    ensures CompletesRun(y, x, d) && !Misplaces(nc, e2, e1)
  {
  }

  /** A dealt table starts a run. */
  lemma FirstState(s: Snap, start: nat)
    requires Conserved(s) && AllWaiting(s) && s.discarded == NULL_MJ && start < 4
    ensures Reaches([Config(s, ToDraw(start, false))], Config(s, ToDraw(start, false)))
  {
    hide Conserved, AllWaiting, Step;
  }
}
