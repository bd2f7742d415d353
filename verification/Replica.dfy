/** The client's copy of its seat, and the proof that it never differs from the
    server's. */
module Replica {
  import opened Tiles
  import opened Winning
  import opened Melds
  import opened Wall
  import opened Seats
  import opened Snapshots
  import opened Dealing
  import opened Play
  import opened Options
  import opened Messages
  import DiscardText
  import QuickSort

  // ----- the relations that describe a seat determine it ----------------------------------

  lemma MeldedUnique(v: View, w: View, w': View, d: Mj, c: nat)
    requires Melded(v, w, d, c) && Melded(v, w', d, c)
    ensures w == w'
  {
    hide Hand, SortedHand, Bag;
    SameBag(Bag(w.decks), Bag(w'.decks), Copies(d, c), Bag(v.decks));
    SortedHandUnique(w.decks, w'.decks, v.nc - c);
  }

  lemma SameBag(a: multiset<Mj>, b: multiset<Mj>, x: multiset<Mj>, sum: multiset<Mj>)
    requires a + x == sum && b + x == sum
    ensures a == b
  {
    assert a == sum - x && b == sum - x;
  }

  lemma ThrewUnique(v: View, w: View, w': View, index: nat)
    requires index < |v.decks| && Threw(v, w, index) && Threw(v, w', index)
    ensures w == w'
  {
    hide Hand, SortedHand, Bag;
    SameBag(Bag(w.decks), Bag(w'.decks), multiset{v.decks[index]}, Bag(v.decks));
    SortedHandUnique(w.decks, w'.decks, v.nc);
  }

  lemma QuietlyGangedUnique(v: View, w: View, w': View)
    requires QuietlyGanged(v, w) && QuietlyGanged(v, w') && v.decks[v.nc] != NULL_MJ
    ensures w == w'
  {
    hide Hand, SortedHand, Bag;
    var s, s', d := w.decks, w'.decks, v.decks[v.nc];
    SameBag(Bag(s), Bag(s'), Copies(d, 3), Bag(v.decks));
    WithoutDrawn(s, v.nc);
    WithoutDrawn(s', v.nc);
    SameBag(Bag(s[v.nc := NULL_MJ]), Bag(s'[v.nc := NULL_MJ]), multiset{d}, Bag(s));
    SortedHandUnique(s[v.nc := NULL_MJ], s'[v.nc := NULL_MJ], w.nc);
    assert s == s[v.nc := NULL_MJ][v.nc := d] && s' == s'[v.nc := NULL_MJ][v.nc := d];
  }

  lemma WithoutDrawn(s: seq<Mj>, i: nat)
    requires i < |s| && s[i] != NULL_MJ
    ensures Bag(s[i := NULL_MJ]) + multiset{s[i]} == Bag(s)
  {
  }

  /** Even a misplaced eat leaves both programs with the same cells. */
  lemma AteUnique(v: View, w: View, w': View, d: Mj, e1: nat, e2: nat)
    requires 3 <= v.nc <= |v.decks| && e1 < v.nc && e2 < v.nc && e1 != e2
    requires Hand(v.decks, v.nc) && Playable(d)
    requires Ate(v, w, d, e1, e2) && Ate(v, w', d, e1, e2)
    ensures w == w'
  {
    hide Hand, EatSwapped, QuickSort.Sorted, QuickSort.OnlyRangeRearranged, Playable;
    SwappedCellsDistinguished(v.decks, v.nc, e1, e2);
    SameFront(EatSwapped(v.decks, v.nc, e1, e2), w.decks, w'.decks, v.nc - 2);
    HandCell(v.decks, v.nc, e1);
    HandCell(v.decks, v.nc, e2);
    SameDoor(v.door, w.door, w'.door, [v.decks[e1], v.decks[e2], d]);
  }

  lemma HandCell(s: seq<Mj>, nc: nat, i: nat)
    requires Hand(s, nc) && i < nc
    ensures Playable(s[i])
  {
  }

  lemma SameDoor(v: seq<Mj>, w: seq<Mj>, w': seq<Mj>, added: seq<Mj>)
    requires |w| == |w'| == |v| + |added| && w[..|v|] == v == w'[..|v|] && AllPlayable(added)
    requires multiset(w[|v|..]) == multiset(added) == multiset(w'[|v|..])
    requires QuickSort.Sorted(w[|v|..], Key) && QuickSort.Sorted(w'[|v|..], Key)
    ensures w == w'
  {
    hide QuickSort.Sorted;
    KeysDistinguish(added);
    QuickSort.DistinguishesPermuted(added, w[|v|..], Key);
    QuickSort.SortedUnique(w[|v|..], w'[|v|..], Key);
    assert w == v + w[|v|..] && w' == v + w'[|v|..];
  }

  lemma SwappedCellsDistinguished(s: seq<Mj>, nc: nat, e1: nat, e2: nat)
    requires Hand(s, nc) && 3 <= nc <= |s| && e1 < nc && e2 < nc && e1 != e2
    ensures |EatSwapped(s, nc, e1, e2)| == |s|
    ensures QuickSort.Distinguishes(Key, EatSwapped(s, nc, e1, e2)[0..nc - 2])
  {
    var r := EatSwapped(s, nc, e1, e2);
    var front := r[0..nc - 2];
    forall k | 0 <= k < |front|
      ensures Playable(front[k]) || front[k] == NULL_MJ
    {
    }
    forall i, j | 0 <= i < |front| && 0 <= j < |front| && Key(front[i]) == Key(front[j])
      ensures front[i] == front[j]
    {
      KeyOrdersAsCompare(front[i], front[j]);
    }
  }

  lemma SameFront(x: seq<Mj>, s: seq<Mj>, t: seq<Mj>, n: nat)
    requires n <= |x| && QuickSort.Distinguishes(Key, x[0..n])
    requires QuickSort.OnlyRangeRearranged(x, s, 0, n - 1) && QuickSort.Sorted(s[..n], Key)
    requires QuickSort.OnlyRangeRearranged(x, t, 0, n - 1) && QuickSort.Sorted(t[..n], Key)
    ensures s == t
  {
    assert s[0..n] == s[..n] && t[0..n] == t[..n];
    QuickSort.DistinguishesPermuted(x[0..n], s[..n], Key);
    QuickSort.SortedUnique(s[..n], t[..n], Key);
    assert s == s[..n] + s[n..] && t == t[..n] + t[n..];
    assert s[n..] == x[n..] == t[n..];
  }

  // ----- what one message does to the client ----------------------------------------------------

  /** Where the client reads its next message: in its main loop, in client_draw, at the win
      test, at the question about a quiet gang, at its choice of a discard, or in the eat
      dialogue. called tells whether a claim led there. */
  datatype Mode =
    | Listening
    | Drawing(called: bool)
    | Deciding(called: bool)
    | AskedQuietGang
    | Choosing
    | Eating

  /** What a client holds: its seat, the last discard it has heard of, and its mode. */
  datatype Client = Client(view: View, discarded: Mj, mode: Mode)

  /** client_draw on the tiles that the server sends one by one. */
  ghost predicate ClientDrew(x: Client, y: Client, tiles: seq<Mj>) {
    && tiles != [] && x.view.nc < |x.view.decks|
    && y.view == x.view.(decks := x.view.decks[x.view.nc := tiles[|tiles| - 1]],
                         flowers := x.view.flowers + tiles[..|tiles| - 1])
  }

  /** client_discard of the cell whose index goes to the server. */
  ghost predicate ClientThrew(x: Client, y: Client, index: nat) {
    index < |x.view.decks| && Threw(x.view, y.view, index) && y.discarded == x.view.decks[index]
  }

  ghost predicate ClientMelded(x: Client, y: Client, c: nat) {
    Melded(x.view, y.view, x.discarded, c)
  }

  ghost predicate ClientAte(x: Client, y: Client, e1: nat, e2: nat) {
    AteFrom(x.view, y.view, x.discarded, e1, e2)
  }

  /** The client can take this message: its program reads it where it is, and what it then
      does stays within its buffers. */
  ghost predicate CanReceive(x: Client, e: Exchange) {
    match e
    case YourTurn => x.mode.Listening?
    case Sent(tiles) =>
      && x.mode.Drawing? && |x.view.decks| == 20 && x.view.nc < 20
      && tiles != [] && |x.view.flowers| + |tiles| <= 9
      && (forall i :: 0 <= i < |tiles| - 1 ==> tiles[i].suit == FLOWER) && tiles[|tiles| - 1].suit != FLOWER
    case HuVerdict(can, yes) => x.mode.Deciding? && (yes ==> can)
    case QuietGangVerdict(can, yes) => x.mode.AskedQuietGang? && (yes ==> can && MayGang(x.view))
    case Chosen(index) =>
      x.mode.Choosing? && |x.view.decks| == 20 && index <= x.view.nc && 1 <= x.view.nc < 20 && Hand(x.view.decks, x.view.nc + 1)
    case DiscardLine(line) => x.mode.Listening?
    case Announced => x.mode.Listening?
    case Offered(offer, yes) =>
      && x.mode.Listening?
      && (yes && offer.GangOffer? ==> CanMeld(x, 3)) && (yes && offer.PongOffer? ==> CanMeld(x, 2))
    case Named(e1, e2, eatable) => x.mode.Eating? && (eatable ==> CanEatWith(x, e1, e2))
    case NoOneWants => x.mode.Listening? && |x.view.sea| < 150
  }

  ghost predicate CanMeld(x: Client, c: nat) {
    && |x.view.decks| == 20 && SortedHand(x.view.decks, x.view.nc) && Playable(x.discarded)
    && 4 <= x.view.nc && |x.view.door| <= 16
    && multiset(x.view.decks[..x.view.nc])[x.discarded] >= c
  }

  ghost predicate CanEatWith(x: Client, e1: int, e2: int) {
    && |x.view.decks| == 20 && Hand(x.view.decks, x.view.nc) && 4 <= x.view.nc && |x.view.door| <= 17
    && 0 <= e1 < x.view.nc && 0 <= e2 < x.view.nc && e1 != e2
  }

  function AfterVerdict(called: bool, won: bool): Mode {
    if won then Listening else if called then Choosing else AskedQuietGang
  }

  /** What the client makes of one message. */
  ghost predicate Received(x: Client, y: Client, e: Exchange) {
    match e
    case YourTurn => y == x.(mode := Drawing(false))
    case Sent(tiles) =>
      x.mode.Drawing? && ClientDrew(x, y, tiles) && y.discarded == x.discarded && y.mode == Deciding(x.mode.called)
    case HuVerdict(can, yes) => x.mode.Deciding? && y == x.(mode := AfterVerdict(x.mode.called, can && yes))
    case QuietGangVerdict(can, yes) =>
      if can && yes then QuietlyGanged(x.view, y.view) && y.discarded == NULL_MJ && y.mode == Drawing(false)
      else y == x.(mode := Choosing)
    case Chosen(index) => ClientThrew(x, y, index) && y.mode.Listening?
    case DiscardLine(line) => y == x.(discarded := DiscardText.Parse(line, x.discarded))
    case Announced => y == x
    case Offered(offer, yes) =>
      if !yes then y == x
      else
        (match offer
         case HuOffer(_) => y == x
         case GangOffer(_) => ClientMelded(x, y, 3) && y.mode == Drawing(true)
         case PongOffer(_) => ClientMelded(x, y, 2) && y.mode == Deciding(true)
         case EatOffer => y == x.(mode := Eating))
    case Named(e1, e2, eatable) =>
      if !eatable then y == x
      else 0 <= e1 && 0 <= e2 && ClientAte(x, y, e1, e2) && y.mode == Deciding(true)
    case NoOneWants => y == x.(view := x.view.(sea := x.view.sea + [x.discarded]))
  }

  // ----- in step with the server --------------------------------------------------------------------

  function ModeOf(phase: Phase, q: nat): Mode {
    match phase
    case ToDraw(p, called) => if q == p && called then Drawing(true) else Listening
    case ToDiscard(p, called) => if q == p then Deciding(called) else Listening
    case _ => Listening
  }

  /** The client's copy is the server's seat, cell by cell; it reads where the server goes
      on writing; and while a discard lies open it knows which tile it is. */
  ghost predicate InSync(c: Config, q: nat, x: Client) {
    && |c.snap.seats| == 4 && q < 4
    && x.view == c.snap.seats[q]
    && x.mode == ModeOf(c.phase, q)
    && (c.phase.Thrown? ==> x.discarded == c.snap.discarded)
  }

  /** However the client goes on from x, it can take every message of talk, and behind the
      last it is in step with d. */
  ghost predicate Keeps(d: Config, q: nat, x: Client, talk: seq<Exchange>)
    decreases |talk|
  {
    if talk == [] then InSync(d, q, x)
    else CanReceive(x, talk[0]) && forall y :: Received(x, y, talk[0]) ==> Keeps(d, q, y, talk[1..])
  }

  /** Refused questions leave the client as it was. */
  lemma {:induction false} RefusalsKeep(d: Config, q: nat, x: Client, refused: seq<Exchange>, rest: seq<Exchange>)
    requires AllRefused(refused) && x.mode.Listening? && Keeps(d, q, x, rest)
    ensures Keeps(d, q, x, refused + rest)
    decreases |refused|
  {
    hide InSync;
    if refused == [] {
      assert refused + rest == rest;
    } else {
      RefusalsKeep(d, q, x, refused[1..], rest);
      assert (refused + rest)[0] == refused[0] && (refused + rest)[1..] == refused[1..] + rest;
    }
  }

  /** So do cells that cannot be eaten with. */
  lemma {:induction false} WrongCellsKeep(d: Config, q: nat, x: Client, wrong: seq<Exchange>, rest: seq<Exchange>)
    requires AllWrong(wrong) && x.mode.Eating? && Keeps(d, q, x, rest)
    ensures Keeps(d, q, x, wrong + rest)
    decreases |wrong|
  {
    hide InSync;
    if wrong == [] {
      assert wrong + rest == rest;
    } else {
      WrongCellsKeep(d, q, x, wrong[1..], rest);
      assert (wrong + rest)[0] == wrong[0] && (wrong + rest)[1..] == wrong[1..] + rest;
    }
  }

  // ----- a draw ------------------------------------------------------------------------------------------

  /** The flower row has room for the flowers of a draw. */
  lemma DrawFitsClient(s: Snap, t: Snap, p: nat, k: nat)
    requires Conserved(s) && AllWaiting(s) && DrawOf(s, t, p, k)
    ensures |s.seats[p].decks| == 20 && s.seats[p].nc < 20 && |s.seats[p].flowers| + k + 1 <= 9
    ensures forall i :: 0 <= i < k ==> s.rest[i].suit == FLOWER
    ensures s.rest[k].suit != FLOWER
  {
    hide TheSet, TableBag, Bag, SortedHand;
    RestIsReal(s, k);
    ShapeFits(s, p);
    assert Waiting(s.seats[p]);
    if k > 0 {
      RoomForFlower(s, p, k - 1);
    }
  }

  lemma DrawKeepsSync(c: Config, d: Config, p: nat, called: bool, k: nat, x: Client)
    requires Inv(c) && c.phase == ToDraw(p, called) && d.phase == ToDiscard(p, called)
    requires DrawOf(c.snap, d.snap, p, k) && InSync(c, p, x)
    ensures Keeps(d, p, x, DrawTalk(called, c.snap.rest[..k + 1]))
  {
    hide Conserved, AllWaiting;
    var tiles := c.snap.rest[..k + 1];
    DrawFitsClient(c.snap, d.snap, p, k);
    var z := if called then x else x.(mode := Drawing(false));
    forall y | Received(z, y, Sent(tiles))
      ensures InSync(d, p, y)
    {
      assert tiles[..k] == c.snap.rest[..k];
    }
    assert Keeps(d, p, z, [Sent(tiles)]);
    assert [YourTurn, Sent(tiles)][1..] == [Sent(tiles)];
  }

  // ----- a discard and a win --------------------------------------------------------------------------

  lemma ChosenKeepsSync(c: Config, d: Config, p: nat, index: nat, z: Client)
    requires Inv(c) && c.phase.ToDiscard? && c.phase.seat == p && d.phase.Thrown? && d.phase.seat == p
    requires DiscardOf(c.snap, d.snap, p, index)
    requires z.view == c.snap.seats[p] && z.mode.Choosing?
    ensures Keeps(d, p, z, [Chosen(index)])
  {
    hide Conserved, Threw;
    HoldingHand(c.snap, p);
    assert Holding(c.snap.seats[p]);
    forall y | Received(z, y, Chosen(index))
      ensures InSync(d, p, y)
    {
      ThrewUnique(z.view, y.view, d.snap.seats[p], index);
    }
  }

  lemma DiscardKeepsSync(c: Config, d: Config, p: nat, called: bool, index: nat, x: Client)
    requires Inv(c) && c.phase == ToDiscard(p, called) && d.phase.Thrown? && d.phase.seat == p
    requires DiscardOf(c.snap, d.snap, p, index) && InSync(c, p, x)
    ensures Keeps(d, p, x, DiscardTalk(c.snap, p, called, index))
  {
    hide Inv, InSync, DiscardOf, SelfHuOf, QuietGangOf;
    SyncedSeat(c, p, x);
    var z := x.(mode := Choosing);
    ChosenKeepsSync(c, d, p, index, z);
    var verdict, quiet := HuVerdict(SelfHuOf(c.snap, p), false), QuietGangVerdict(QuietGangOf(c.snap, p), false);
    if called {
      assert DiscardTalk(c.snap, p, called, index) == [verdict, Chosen(index)];
      assert [verdict, Chosen(index)][1..] == [Chosen(index)];
    } else {
      var w := x.(mode := AskedQuietGang);
      assert [quiet, Chosen(index)][1..] == [Chosen(index)];
      assert Keeps(d, p, w, [quiet, Chosen(index)]);
      assert DiscardTalk(c.snap, p, called, index) == [verdict, quiet, Chosen(index)];
      assert [verdict, quiet, Chosen(index)][1..] == [quiet, Chosen(index)];
    }
  }

  lemma SyncedSeat(c: Config, q: nat, x: Client)
    requires InSync(c, q, x)
    ensures |c.snap.seats| == 4 && q < 4 && x.view == c.snap.seats[q] && x.mode == ModeOf(c.phase, q)
  {
  }

  /** The others hear which tile it was. */
  lemma HeardKeepsSync(c: Config, d: Config, p: nat, index: nat, q: nat, x: Client)
    requires c.phase.ToDiscard? && c.phase.seat == p < 4 && d.phase.Thrown? && q != p
    requires DiscardOf(c.snap, d.snap, p, index) && InSync(c, q, x) && Playable(d.snap.discarded)
    ensures Keeps(d, q, x, [DiscardLine(DiscardText.Broadcast(p, d.snap.discarded))])
  {
    hide DiscardText.Parse, DiscardText.Broadcast, Threw;
    DiscardText.ParseReadsBroadcast(p, d.snap.discarded, x.discarded);
  }

  // ----- the reaction to a discard ----------------------------------------------------------------------

  lemma MeldKeepsSync(s: Snap, d: Config, p: nat, accepts: set<Offer>, k: nat, c: nat, x: Client)
    requires Inv(Config(s, Thrown(p, accepts))) && 2 <= c <= 3
    requires Reaction(s, d, p, accepts, Some(if c == 2 then PongOffer(k) else GangOffer(k)))
    requires InSync(Config(s, Thrown(p, accepts)), SeatAfter(p, k), x)
    ensures Keeps(d, SeatAfter(p, k), x, [Offered(if c == 2 then PongOffer(k) else GangOffer(k), true)])
  {
    hide Conserved, AllWaiting, FirstAccepted, Melded, SortedHand;
    var q := SeatAfter(p, k);
    var offer := if c == 2 then PongOffer(k) else GangOffer(k);
    ClaimIsPossible(s, p, accepts, k, c);
    ClaimRoom(s, q, c);
    ClaimHand(s, q, c);
    forall y | Received(x, y, Offered(offer, true))
      ensures InSync(d, q, y)
    {
      MeldedUnique(x.view, y.view, d.snap.seats[q], s.discarded, c);
    }
  }

  lemma EatenKeepsSync(s: Snap, d: Config, p: nat, accepts: set<Offer>, e1: nat, e2: nat, x: Client, z: Client)
    requires Inv(Config(s, Thrown(p, accepts))) && d.phase == ToDiscard(SeatAfter(p, 1), true)
    requires EatOf(s, d.snap, SeatAfter(p, 1), e1, e2)
    requires InSync(Config(s, Thrown(p, accepts)), SeatAfter(p, 1), x) && z == x.(mode := Eating)
    ensures Keeps(d, SeatAfter(p, 1), z, [Named(e1, e2, true)])
  {
    hide Conserved, Ate;
    var q := SeatAfter(p, 1);
    HandOfWaiting(s, q);
    forall y | Received(z, y, Named(e1, e2, true))
      ensures InSync(d, q, y)
    {
      AteUnique(z.view, y.view, d.snap.seats[q], s.discarded, e1, e2);
    }
  }

  /** The claimant: it refuses what it is offered first, accepts its claim, and for an eat
      names cells until two are right. */
  lemma ClaimantKeepsSync(s: Snap, d: Config, p: nat, accepts: set<Offer>, o: Offer, x: Client, talk: seq<Exchange>)
    requires Inv(Config(s, Thrown(p, accepts))) && Reaction(s, d, p, accepts, Some(o))
    requires InSync(Config(s, Thrown(p, accepts)), OfferedTo(p, o), x)
    requires ReactionTalk(s, d.snap, p, Some(o), OfferedTo(p, o), talk)
    ensures Keeps(d, OfferedTo(p, o), x, talk)
  {
    hide Conserved, AllWaiting, InSync, NoneBefore, Possible, Claimed, EatOf, Received, Keeps, CanReceive, OffersTo, RanksRise, Asked;
    var q := OfferedTo(p, o);
    var os := OffersTo(p, q);
    OffersInOrder(p, q);
    OffersReachTheirSeat(p, q, o);
    ClaimantAccepts(s, p, o, os);
    SyncedSeat(Config(s, Thrown(p, accepts)), q, x);
    var asked := Asked(s, p, Some(o), os);
    var refused, accepted := asked[..|asked| - 1], Offered(o, true);
    var rest := talk[|asked|..];
    assert asked == refused + [accepted];
    assert talk == refused + ([accepted] + rest);
    match o {
      case HuOffer(k) =>
        assert [accepted] + rest == [accepted];
        HuKeepsSync(s, d, p, accepts, o, x);
      case GangOffer(k) =>
        assert [accepted] + rest == [accepted];
        MeldKeepsSync(s, d, p, accepts, k, 3, x);
      case PongOffer(k) =>
        assert [accepted] + rest == [accepted];
        MeldKeepsSync(s, d, p, accepts, k, 2, x);
      case EatOffer =>
        EatTalkKeepsSync(s, d, p, accepts, x, rest);
    }
    RefusalsKeep(d, q, x, refused, [accepted] + rest);
  }

  lemma HuKeepsSync(s: Snap, d: Config, p: nat, accepts: set<Offer>, o: Offer, x: Client)
    requires o.HuOffer? && Carried(s, d, p, Some(o)) && InSync(Config(s, Thrown(p, accepts)), OfferedTo(p, o), x)
    ensures Keeps(d, OfferedTo(p, o), x, [Offered(o, true)])
  {
  }

  lemma EatTalkKeepsSync(s: Snap, d: Config, p: nat, accepts: set<Offer>, x: Client, rest: seq<Exchange>)
    requires Inv(Config(s, Thrown(p, accepts))) && Reaction(s, d, p, accepts, Some(EatOffer))
    requires InSync(Config(s, Thrown(p, accepts)), OfferedTo(p, EatOffer), x)
    requires Outcome(s, d.snap, p, Some(EatOffer), OfferedTo(p, EatOffer), rest)
    ensures Keeps(d, OfferedTo(p, EatOffer), x, [Offered(EatOffer, true)] + rest)
  {
    hide Inv, InSync, FirstAccepted, EatStep, EatOf;
    var q := OfferedTo(p, EatOffer);
    var e1: nat, e2: nat :| EatOf(s, d.snap, q, e1, e2) && EndsEating(rest, e1, e2);
    var z := x.(mode := Eating);
    SyncedSeat(Config(s, Thrown(p, accepts)), q, x);
    EatenKeepsSync(s, d, p, accepts, e1, e2, x, z);
    var wrong := rest[..|rest| - 1];
    assert rest == wrong + [Named(e1, e2, true)];
    WrongCellsKeep(d, q, z, wrong, [Named(e1, e2, true)]);
    assert ([Offered(EatOffer, true)] + rest)[1..] == rest;
  }

  /** The other seats: they refuse what they are offered, and keep their copy. */
  lemma BystanderKeepsSync(s: Snap, d: Config, p: nat, accepts: set<Offer>, claim: Option<Offer>, q: nat, x: Client,
                           talk: seq<Exchange>)
    requires Inv(Config(s, Thrown(p, accepts))) && Reaction(s, d, p, accepts, claim)
    requires InSync(Config(s, Thrown(p, accepts)), q, x) && (claim.Some? ==> q != OfferedTo(p, claim.value))
    requires ReactionTalk(s, d.snap, p, claim, q, talk)
    ensures Keeps(d, q, x, talk)
  {
    hide Conserved, AllWaiting, NoneBefore, Possible, OffersTo, Received, Keeps, CanReceive, Melded, EatOf, Asked;
    var os := OffersTo(p, q);
    if claim.Some? {
      OffersReachTheirSeat(p, q, claim.value);
    }
    OthersRefuse(s, p, claim, os);
    var asked := Asked(s, p, claim, os);
    var rest := talk[|asked|..];
    OutcomeKeepsSync(s, d, p, accepts, claim, q, x, rest);
    RefusalsKeep(d, q, x, asked, rest);
    assert talk == asked + rest;
  }

  lemma OutcomeKeepsSync(s: Snap, d: Config, p: nat, accepts: set<Offer>, claim: Option<Offer>, q: nat, x: Client,
                         rest: seq<Exchange>)
    requires Inv(Config(s, Thrown(p, accepts))) && Carried(s, d, p, claim)
    requires InSync(Config(s, Thrown(p, accepts)), q, x) && (claim.Some? ==> q != OfferedTo(p, claim.value))
    requires Outcome(s, d.snap, p, claim, q, rest)
    ensures Keeps(d, q, x, rest)
  {
    hide Conserved, AllWaiting, Melded, CanReceive, Received;
    SeaFits(s, q);
    match claim
    case None =>
      if q == p {
        SinkKeepsSync(s, d, p, accepts, x);
      }
    case Some(HuOffer(_)) =>
    case Some(EatOffer) =>
      EatenElsewhere(s, d, p, q);
      AnnouncedKeepsSync(d, q, x);
    case Some(o) => AnnouncedKeepsSync(d, q, x);
  }

  lemma EatenElsewhere(s: Snap, d: Config, p: nat, q: nat)
    requires EatStep(s, d.snap, OfferedTo(p, EatOffer)) && q != OfferedTo(p, EatOffer) && q < 4 == |s.seats|
    ensures |d.snap.seats| == 4 && d.snap.seats[q] == s.seats[q]
  {
    hide Ate, CompletesRun;
    var e1: nat, e2: nat :| EatOf(s, d.snap, OfferedTo(p, EatOffer), e1, e2);
  }

  lemma AnnouncedKeepsSync(d: Config, q: nat, x: Client)
    requires InSync(d, q, x) && x.mode.Listening?
    ensures Keeps(d, q, x, [Announced])
  {
  }

  lemma SinkKeepsSync(s: Snap, d: Config, p: nat, accepts: set<Offer>, x: Client)
    requires Carried(s, d, p, None) && InSync(Config(s, Thrown(p, accepts)), p, x) && |s.seats[p].sea| < 150
    ensures Keeps(d, p, x, [NoOneWants])
  {
  }

  // ----- every step ------------------------------------------------------------------------------------------

  /** One step: from a synchronised client, whatever the server and the client exchange in
      it, the client can take every message, and it is synchronised again. */
  lemma StaysInSync(c: Config, d: Config, q: nat, x: Client, talk: seq<Exchange>)
    requires Inv(c) && Step(c, d) && InSync(c, q, x) && Talk(c, d, q, talk)
    ensures Keeps(d, q, x, talk)
  {
    hide Conserved, AllWaiting, Turn, DiscardOf, Reaction, ReactionTalk, SelfHuOf, QuietGangOf, Keeps;
    match c.phase
    case ToDraw(p, called) =>
      if q == p {
        var k: nat :| DrawOf(c.snap, d.snap, p, k) && talk == DrawTalk(called, c.snap.rest[..k + 1]);
        DrawKeepsSync(c, d, p, called, k, x);
      } else {
        var k: nat :| DrawOf(c.snap, d.snap, p, k);
        DrawnElsewhere(c, d, p, k, q, x);
      }
    case ToDiscard(p, called) =>
      if d.phase.Over? {
        WonKeepsSync(c, d, p, q, x);
      } else if q == p {
        var index: nat :| DiscardOf(c.snap, d.snap, p, index) && talk == DiscardTalk(c.snap, p, called, index);
        DiscardKeepsSync(c, d, p, called, index, x);
      } else {
        var index: nat :| DiscardOf(c.snap, d.snap, p, index);
        HeardKeepsSync(c, d, p, index, q, x);
      }
    case Thrown(p, accepts) =>
      var claim :| Reaction(c.snap, d, p, accepts, claim) && ReactionTalk(c.snap, d.snap, p, claim, q, talk);
      if claim.Some? && q == OfferedTo(p, claim.value) {
        ClaimantKeepsSync(c.snap, d, p, accepts, claim.value, x, talk);
      } else {
        BystanderKeepsSync(c.snap, d, p, accepts, claim, q, x, talk);
      }
    case Over(_) =>
  }

  lemma DrawnElsewhere(c: Config, d: Config, p: nat, k: nat, q: nat, x: Client)
    requires c.phase.ToDraw? && c.phase.seat == p && d.phase.ToDiscard? && d.phase.seat == p && q != p
    requires DrawOf(c.snap, d.snap, p, k) && InSync(c, q, x)
    ensures Keeps(d, q, x, [])
  {
  }

  lemma WonKeepsSync(c: Config, d: Config, p: nat, q: nat, x: Client)
    requires c.phase.ToDiscard? && c.phase.seat == p && d == Config(c.snap, Over(p)) && InSync(c, q, x)
    ensures Keeps(d, q, x, if q == p then [HuVerdict(true, true)] else [])
  {
    if q == p {
      var z := x.(mode := Listening);
      assert Keeps(d, q, z, []);
      assert [HuVerdict(true, true)][1..] == [];
      assert forall y :: Received(x, y, HuVerdict(true, true)) ==> y == z;
    }
  }

  // ----- behind a quiet gang ----------------------------------------------------------------------

  /** Where the clients stand when the turn of seat p has stopped in a quiet gang. */
  ghost predicate StandsStill(t: Snap, p: nat, q: nat, x: Client) {
    |t.seats| == 4 && q < 4 && x.view == t.seats[q] && x.mode == if q == p then Drawing(false) else Listening
  }

  /** The server then waits for a cell number, and every client for a message: no client
      ever sends one. */
  lemma NothingIsChosen(t: Snap, p: nat, q: nat, x: Client, index: nat)
    requires StandsStill(t, p, q, x)
    ensures !CanReceive(x, Chosen(index))
  {
  }

  /** The ganging client, behind the win test. */
  lemma GangingStandsStill(c: Config, t: Snap, p: nat, x: Client, y: Client)
    requires p < 4 == |c.snap.seats| && MayGang(c.snap.seats[p]) && GangedQuietly(c.snap, t, p)
    requires x.view == c.snap.seats[p] && Received(x, y, QuietGangVerdict(true, true))
    ensures StandsStill(t, p, p, y)
  {
    hide QuietlyGanged, MayGang;
    var j := GangedCopies(c.snap.seats[p]);
    QuietlyGangedUnique(x.view, y.view, t.seats[p]);
  }

  // ----- whole runs --------------------------------------------------------------------------------------------

  /** The client went from x to y on these messages. */
  ghost predicate Followed(x: Client, talk: seq<Exchange>, y: Client)
    decreases |talk|
  {
    if talk == [] then x == y else exists z :: Received(x, z, talk[0]) && Followed(z, talk[1..], y)
  }

  lemma {:induction false} FollowedInSync(d: Config, q: nat, x: Client, talk: seq<Exchange>, y: Client)
    requires Keeps(d, q, x, talk) && Followed(x, talk, y)
    ensures InSync(d, q, y)
    decreases |talk|
  {
    hide InSync, Received, CanReceive;
    if talk != [] {
      var z :| Received(x, z, talk[0]) && Followed(z, talk[1..], y);
      FollowedInSync(d, q, z, talk[1..], y);
    }
  }

  /** What a client of seat q does over a run: the messages of each step, and where they
      take it. */
  ghost predicate Plays(run: seq<Config>, q: nat, talks: seq<seq<Exchange>>, xs: seq<Client>) {
    && |run| == |xs| == |talks| + 1
    && forall j :: 0 <= j < |talks| ==> Talk(run[j], run[j + 1], q, talks[j]) && Followed(xs[j], talks[j], xs[j + 1])
  }

  /** Simulation over whole rounds: a client that starts with its seat's tiles and follows
      its messages has the server's copy of its seat in every state of every run. */
  lemma {:induction false} ClientSimulatesSeat(run: seq<Config>, q: nat, talks: seq<seq<Exchange>>, xs: seq<Client>, i: nat)
    requires LegalRun(run) && Plays(run, q, talks, xs) && InSync(run[0], q, xs[0]) && i < |run|
    ensures InSync(run[i], q, xs[i])
  {
    hide Inv, Step, InSync, Talk, Followed, Keeps;
    if i != 0 {
      ClientSimulatesSeat(run, q, talks, xs, i - 1);
      RunKeepsInv(run, i - 1);
      StaysInSync(run[i - 1], run[i], q, xs[i - 1], talks[i - 1]);
      FollowedInSync(run[i], q, xs[i - 1], talks[i - 1], xs[i]);
    }
  }

  /** What get_decks makes of the messages that follow the deal is the server's seat. */
  lemma DealStartsInSync(c: Config, q: nat, hand: FirstHand)
    requires Inv(c) && FreshRound(c.snap) && c.phase.ToDraw? && !c.phase.called && q < 4 && HandOf(c.snap.seats[q], hand)
    ensures |hand.tiles| == 16 && |hand.numbers| <= 8
    ensures InSync(c, q, Client(AfterGetDecks(hand.tiles, hand.numbers), NULL_MJ, Listening))
  {
    hide Conserved;
    var v, numbers := c.snap.seats[q], hand.numbers;
    ShapeFits(c.snap, q);
    assert v.decks == v.decks[..16] + seq(4, _ => NULL_MJ);
    assert v.flowers == seq(|numbers|, i requires 0 <= i < |numbers| => Mj(FLOWER, numbers[i]));
  }

  ghost function AfterGetDecks(tiles: seq<Mj>, numbers: seq<int>): View {
    EmptyView().(decks := tiles + seq(4, _ => NULL_MJ),
                 flowers := seq(|numbers|, i requires 0 <= i < |numbers| => Mj(FLOWER, numbers[i])))
  }

  /** The hand side of an eat: swaps, sort and capacity. */
  ghost predicate ClosedEaten(v: View, w: View, e1: nat, e2: nat) {
    && e1 < v.nc <= |v.decks| && e2 < v.nc && v.nc >= 4
    && w == v.(decks := w.decks, nc := v.nc - 3)
    && QuickSort.OnlyRangeRearranged(EatSwapped(v.decks, v.nc, e1, e2), w.decks, 0, v.nc - 3)
    && v.nc - 2 <= |w.decks| && QuickSort.Sorted(w.decks[..v.nc - 2], Key)
  }

  lemma IsAte(v: View, laid: View, w: View, d: Mj, e1: nat, e2: nat, sorted: seq<Mj>)
    requires laid == v.(door := v.door + sorted) && ClosedEaten(laid, w, e1, e2)
    requires |sorted| == 3 && QuickSort.Sorted(sorted, Key)
    requires multiset(sorted) == multiset([v.decks[e1], v.decks[e2], d])
    ensures AteFrom(v, w, d, e1, e2)
  {
    hide EatSwapped, QuickSort.Sorted, QuickSort.OnlyRangeRearranged;
    assert w.door[..|v.door|] == v.door && w.door[|v.door|..] == sorted;
  }

  // ----- the client's own methods ----------------------------------------------------------------

  /** The client's globals. */
  class Seat {
    const decks: array<Mj>
    const flowers: array<Mj>
    const door: array<Mj>
    const sea: array<Mj>
    var flowerIndex: nat
    var doorIndex: nat
    var seaIndex: nat
    var normalCapacity: nat
    var discarded: Mj
    var mode: Mode

    ghost function Repr(): set<object> {
      {this, decks, flowers, door, sea}
    }

    ghost predicate Valid()
      reads this
    {
      && decks.Length == 20 && flowers.Length == 8 && door.Length == 20 && sea.Length == 150
      && decks != flowers && decks != door && decks != sea
      && flowers != door && flowers != sea && door != sea
      && flowerIndex <= 8 && doorIndex <= 20 && seaIndex <= 150 && normalCapacity <= 16
    }

    ghost function Look(): Client
      requires Valid()
      reads this, Repr()
    {
      Client(View(decks[..], flowers[..flowerIndex], door[..doorIndex], sea[..seaIndex], normalCapacity), discarded, mode)
    }

    /** The state of the globals after client_game_init. */
    constructor ()
      ensures Valid() && fresh(Repr())
      ensures Look() == Client(EmptyView(), NULL_MJ, Listening)
    {
      decks := new Mj[20](_ => NULL_MJ);
      flowers := new Mj[8](_ => NULL_MJ);
      door := new Mj[20](_ => NULL_MJ);
      sea := new Mj[150](_ => NULL_MJ);
      flowerIndex, doorIndex, seaIndex, normalCapacity, discarded, mode := 0, 0, 0, 16, NULL_MJ, Listening;
    }

    /** get_decks: sixteen tile messages, then the numbers of the flowers. */
    method GetDecks(tiles: seq<Mj>, numbers: seq<int>)
      requires Valid() && Look() == Client(EmptyView(), NULL_MJ, Listening) && |tiles| == 16 && |numbers| <= 8
      modifies Repr()
      ensures Valid()
      ensures Look() == Client(AfterGetDecks(tiles, numbers), NULL_MJ, Listening)
    {
      for i := 0 to 16
        invariant Valid() && flowerIndex == 0 && doorIndex == 0 && seaIndex == 0 && normalCapacity == 16 && discarded == NULL_MJ && mode == Listening
        invariant forall k :: 0 <= k < 20 ==> decks[k] == if k < i then tiles[k] else NULL_MJ
      {
        decks[i] := tiles[i];
      }
      for i := 0 to |numbers|
        invariant Valid() && flowerIndex == i && doorIndex == 0 && seaIndex == 0 && normalCapacity == 16 && discarded == NULL_MJ && mode == Listening
        invariant decks[..] == tiles + seq(4, _ => NULL_MJ)
        invariant forall k :: 0 <= k < i ==> flowers[k] == Mj(FLOWER, numbers[k])
      {
        flowers[flowerIndex] := Mj(FLOWER, numbers[i]);
        flowerIndex := flowerIndex + 1;
      }
    }

    /** client_draw: reads tiles until one is not a flower. */
    method Draw(tiles: seq<Mj>)
      requires Valid() && tiles != [] && flowerIndex + |tiles| <= 9
      requires forall i :: 0 <= i < |tiles| - 1 ==> tiles[i].suit == FLOWER
      requires tiles[|tiles| - 1].suit != FLOWER
      modifies this`flowerIndex, decks, flowers
      ensures Valid() && ClientDrew(old(Look()), Look(), tiles)
    {
      ghost var x := Look();
      var nc := normalCapacity;
      decks[nc] := tiles[0];
      var read := 1;
      while decks[nc].suit == FLOWER
        invariant 1 <= read <= |tiles| && flowerIndex == |x.view.flowers| + read - 1
        invariant decks[..] == x.view.decks[nc := tiles[read - 1]]
        invariant flowers[..flowerIndex] == x.view.flowers + tiles[..read - 1]
        decreases |tiles| - read
      {
        flowers[flowerIndex] := decks[nc];
        flowerIndex := flowerIndex + 1;
        decks[nc] := tiles[read];
        read := read + 1;
      }
    }

    predicate NoCellBefore(typed: seq<int>, n: nat)
      requires n <= |typed|
      reads this`normalCapacity
    {
      forall i :: 0 <= i < n ==> !(0 <= typed[i] <= normalCapacity)
    }

    /** The player types numbers until one is a cell of the hand: no other is sent. */
    method ChooseDiscard(typed: seq<int>) returns (choice: Option<nat>)
      requires Valid()
      ensures choice.None? ==> NoCellBefore(typed, |typed|)
      ensures choice.Some? ==> choice.value <= normalCapacity
      ensures choice.Some? ==> exists n :: 0 <= n < |typed| && typed[n] == choice.value && NoCellBefore(typed, n)
    {
      for n := 0 to |typed|
        invariant NoCellBefore(typed, n)
      {
        if 0 <= typed[n] <= normalCapacity {
          return Some(typed[n]);
        }
      }
      choice := None;
    }

    /** client_discard of a cell the player was allowed to choose. */
    method Throw(index: nat)
      requires Valid() && 1 <= normalCapacity && index <= normalCapacity && Hand(decks[..], normalCapacity + 1)
      modifies this`discarded, decks
      ensures Valid() && ClientThrew(old(Look()), Look(), index)
    {
      hide Hand, SortedHand, Bag;
      discarded := decks[index];
      ThrowAway(decks, normalCapacity, index);
    }

    /** A discard of another player: from the broadcast of any tile by any player the
        client learns that tile. */
    method Hear(line: string)
      requires Valid()
      modifies this`discarded
      ensures Valid() && Look() == old(Look()).(discarded := discarded)
      ensures forall player, m | player < 4 && Playable(m) && line == DiscardText.Broadcast(player, m) :: discarded == m
      ensures discarded == DiscardText.Parse(line, old(discarded))
    {
      hide DiscardText.Parse, DiscardText.Broadcast;
      forall player: nat, m | player < 4 && Playable(m) && line == DiscardText.Broadcast(player, m)
        ensures DiscardText.Parse(line, discarded) == m
      {
        DiscardText.ParseReadsBroadcast(player, m, discarded);
      }
      discarded := DiscardText.Parse(line, discarded);
    }

    /** "no one wants it." */
    method Sink()
      requires Valid() && seaIndex < 150
      modifies this`seaIndex, sea
      ensures Valid() && Received(old(Look()), Look(), NoOneWants)
    {
      sea[seaIndex] := discarded;
      seaIndex := seaIndex + 1;
    }

    method LayDoor(d: Mj, count: nat)
      requires Valid() && doorIndex + count <= 20
      modifies this`doorIndex, door
      ensures Valid() && doorIndex == old(doorIndex) + count
      ensures door[..doorIndex] == old(door[..doorIndex]) + seq(count, _ => d)
    {
      for i := 0 to count
        invariant Valid() && doorIndex == old(doorIndex) + i
        invariant door[..doorIndex] == old(door[..doorIndex]) + seq(i, _ => d)
      {
        door[doorIndex] := d;
        doorIndex := doorIndex + 1;
      }
    }

    /** An accepted pong (c == 2) or gang (c == 3): the door first, then the hand. */
    method Meld(c: nat)
      requires Valid() && SortedHand(decks[..], normalCapacity) && Playable(discarded) && 2 <= c <= 3
      requires 4 <= normalCapacity && doorIndex <= 16
      requires multiset(decks[..normalCapacity])[discarded] >= c
      modifies decks, door, this`doorIndex, this`normalCapacity, this`discarded
      ensures Valid() && ClientMelded(old(Look()), Look(), c)
    {
      hide Nulled, Bag, Hand, CopiesAt, Holed;
      ghost var v := Look().view;
      var nc := normalCapacity;
      ghost var d := discarded;
      ghost var j := CopiesStandTogether(v.decks, nc, d, c);
      NothingDrawn(v.decks, nc);
      CopiesFitIn(v.decks, nc, d, j, c);
      LayDoor(discarded, c + 1);
      EmptyCopies(decks, nc, discarded, c, j);
      ghost var holed := decks[..];
      NulledIsHoled(v.decks, nc, j, c);
      normalCapacity := normalCapacity - 3;
      discarded := NULL_MJ;
      CloseHoles(decks, nc, c, j);
      assert decks[..][nc := NULL_MJ] == decks[..];
      IsMelded(v, Look().view, holed, d, c, j);
    }

    /** The accepted branch of client_quiet_gang. */
    method QuietGang()
      requires Valid() && MayGang(Look().view)
      modifies decks, door, this`doorIndex, this`normalCapacity, this`discarded
      ensures Valid() && QuietlyGanged(old(Look()).view, Look().view) && discarded == NULL_MJ
    {
      hide Nulled, Bag, Hand, SortedHand, CopiesAt, Holed, MayGang;
      ghost var v := Look().view;
      var nc, d := normalCapacity, decks[normalCapacity];
      ghost var j := GangedCopies(v);
      CopiesFitIn(v.decks, nc, d, j, 3);
      LayDoor(d, 4);
      EmptyCopies(decks, nc, d, 3, j);
      BagOfNulled(v.decks, d, j, 3);
      normalCapacity := normalCapacity - 3;
      discarded := NULL_MJ;
      CloseHoles(decks, nc, 3, j);
    }

    method LayThree(sorted: seq<Mj>)
      requires Valid() && |sorted| == 3 && doorIndex <= 17
      modifies this`doorIndex, door
      ensures Valid() && Look() == old(Look()).(view := old(Look()).view.(door := old(Look()).view.door + sorted))
    {
      door[doorIndex] := sorted[0];
      doorIndex := doorIndex + 1;
      door[doorIndex] := sorted[1];
      doorIndex := doorIndex + 1;
      door[doorIndex] := sorted[2];
      doorIndex := doorIndex + 1;
    }

    method CloseEaten(e1: nat, e2: nat)
      requires Valid() && Hand(decks[..], normalCapacity) && 4 <= normalCapacity
      requires e1 < normalCapacity && e2 < normalCapacity && e1 != e2
      modifies decks, this`normalCapacity
      ensures Valid() && Look() == old(Look()).(view := Look().view)
      ensures ClosedEaten(old(Look()).view, Look().view, e1, e2)
    {
      hide EatSwapped, QuickSort.Sorted, QuickSort.OnlyRangeRearranged, Bag, Hand, SortedHand;
      EatCells(decks, normalCapacity, e1, e2);
      normalCapacity := normalCapacity - 3;
    }

    /** An eat that the server found eatable. */
    method Eat(e1: nat, e2: nat)
      requires Valid() && Hand(decks[..], normalCapacity) && 4 <= normalCapacity && doorIndex <= 17
      requires e1 < normalCapacity && e2 < normalCapacity && e1 != e2
      modifies decks, door, this`doorIndex, this`normalCapacity
      ensures Valid() && ClientAte(old(Look()), Look(), e1, e2)
    {
      hide ClosedEaten, QuickSort.Sorted, Hand, AteFrom;
      ghost var v := Look().view;
      var sorted := SortThree(decks[e1], decks[e2], discarded);
      LayThree(sorted);
      ghost var laid := Look().view;
      CloseEaten(e1, e2);
      IsAte(v, laid, Look().view, discarded, e1, e2, sorted);
    }

    /** The dispatch on a message, and what is done for it. */
    method Receive(e: Exchange)
      requires Valid() && CanReceive(Look(), e)
      modifies Repr()
      ensures Valid() && Received(old(Look()), Look(), e)
    {
      hide Threw, Melded, Ate, QuietlyGanged, MayGang, DiscardText.Parse, DiscardText.Broadcast, SortedHand;
      match e
      case YourTurn =>
        mode := Drawing(false);
      case Sent(tiles) =>
        Draw(tiles);
        mode := Deciding(mode.called);
      case HuVerdict(can, yes) =>
        mode := AfterVerdict(mode.called, can && yes);
      case QuietGangVerdict(can, yes) =>
        if can && yes {
          QuietGang();
          mode := Drawing(false);
        } else {
          mode := Choosing;
        }
      case Chosen(index) =>
        Throw(index);
        mode := Listening;
      case DiscardLine(line) =>
        Hear(line);
      case Announced =>
      case Offered(offer, yes) =>
        if yes {
          match offer
          case HuOffer(_) =>
          case GangOffer(_) =>
            MeldOpened(3);
            mode := Drawing(true);
          case PongOffer(_) =>
            MeldOpened(2);
            mode := Deciding(true);
          case EatOffer =>
            mode := Eating;
        }
      case Named(e1, e2, eatable) =>
        if eatable {
          Eat(e1, e2);
          mode := Deciding(true);
        }
      case NoOneWants =>
        Sink();
    }

    /** A pong or gang that the client can carry out. */
    method MeldOpened(c: nat)
      requires Valid() && 2 <= c <= 3 && CanMeld(Look(), c)
      modifies decks, door, this`doorIndex, this`normalCapacity, this`discarded
      ensures Valid() && ClientMelded(old(Look()), Look(), c)
    {
      hide Melded, SortedHand;
      Meld(c);
    }

    /** The client during one step of the server: it takes every message as it comes. */
    method Follow(talk: seq<Exchange>, ghost c: Config, ghost d: Config, ghost q: nat)
      requires Valid() && Inv(c) && Step(c, d) && Talk(c, d, q, talk) && InSync(c, q, Look())
      modifies Repr()
      ensures Valid() && InSync(d, q, Look())
    {
      hide Inv, Step, Talk, InSync, CanReceive, Received;
      StaysInSync(c, d, q, Look(), talk);
      assert talk[0..] == talk;
      for i := 0 to |talk|
        invariant Valid() && Keeps(d, q, Look(), talk[i..])
      {
        assert talk[i..][0] == talk[i] && talk[i..][1..] == talk[i + 1..];
        Receive(talk[i]);
      }
    }

    /** The client in the turn that stops in a quiet gang of seat p. */
    method FollowGang(talk: seq<Exchange>, ghost c: Config, ghost t: Snap, ghost p: nat, ghost q: nat, ghost heard: seq<seq<Exchange>>)
      requires Valid() && q < 4 && Stall(c, t, p, heard) && talk == heard[q] && InSync(c, q, Look())
      modifies Repr()
      ensures Valid() && StandsStill(t, p, q, Look())
    {
      hide QuietlyGanged, MayGang, TableBag, SelfHuOf;
      Receive(talk[0]);
      if |talk| == 2 {
        ghost var x := Look();
        Receive(talk[1]);
        GangingStandsStill(c, t, p, x, Look());
      }
    }

    /** The client over a whole run of the server: in every state of it, the client is in
        step with its seat. states records where it has been. */
    method FollowRun(talks: seq<seq<Exchange>>, ghost run: seq<Config>, ghost q: nat) returns (ghost states: seq<Client>)
      requires Valid() && LegalRun(run) && |run| == |talks| + 1 && InSync(run[0], q, Look())
      requires forall j :: 0 <= j < |talks| ==> Talk(run[j], run[j + 1], q, talks[j])
      modifies Repr()
      ensures Valid() && |states| == |run| && states[|run| - 1] == Look()
      ensures forall i :: 0 <= i < |run| ==> InSync(run[i], q, states[i])
    {
      hide Inv, Step, Talk, InSync;
      states := [Look()];
      for j := 0 to |talks|
        invariant Valid() && |states| == j + 1 && states[j] == Look()
        invariant forall i :: 0 <= i <= j ==> InSync(run[i], q, states[i])
      {
        RunKeepsInv(run, j);
        Follow(talks[j], run[j], run[j + 1], q);
        states := states + [Look()];
      }
    }
  }
}
