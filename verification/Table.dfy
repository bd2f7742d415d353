/** The server's globals and one round of the game on them. What the players
    answer and what rand() returns are parameters; what the clients see is in Replica. */
module Table {
  import opened Tiles
  import opened Winning
  import opened Melds
  import opened Wall
  import opened Seats
  import opened Snapshots
  import opened Dealing
  import opened Play
  import opened Options
  import opened Messages
  import opened Answering
  import DiscardText
  import QuickSort

  class Server {
    const wall: array<Mj>
    const players: seq<Player>
    var take: nat
    var discarded: Mj
    var winner: int
    /** What the players are going to answer. */
    var answers: Answers
    /** The states the round has gone through. */
    ghost var history: seq<Config>
    /** What has been written to the four seats, with what they answered: behind the deal, in
        each step since, and in the step under way. */
    var hands: seq<FirstHand>
    var talks: seq<seq<seq<Exchange>>>
    var heard: seq<seq<Exchange>>

    /** Everything the seats are made of. */
    ghost function Cells(): set<object> {
      set i, o | 0 <= i < |players| && o in players[i].Repr() :: o
    }

    /** No two seats share a buffer. */
    ghost predicate Framed() {
      && |players| == 4
      && (forall i :: 0 <= i < 4 ==> players[i].Framed() && this !in players[i].Repr() && wall !in players[i].Repr())
      && (forall i, j :: 0 <= i < 4 && 0 <= j < 4 && i != j ==> players[i].Repr() !! players[j].Repr())
    }

    /** The shape main gives to the table, whatever lies on it. */
    ghost predicate Built() {
      && |players| == 4 && wall.Length == SIZE && Framed()
      && this !in Cells() && wall !in Cells()
    }

    ghost predicate Valid()
      reads this`take, Cells()
    {
      Built() && take <= SIZE && forall i :: 0 <= i < 4 ==> players[i].Valid()
    }

    ghost function Seats(): (seats: seq<View>)
      requires Valid()
      reads this`take, Cells()
      ensures |seats| == 4 && forall i :: 0 <= i < 4 ==> seats[i] == players[i].Look()
    {
      [players[0].Look(), players[1].Look(), players[2].Look(), players[3].Look()]
    }

    /** Two-state frame of every step that touches one seat. */
    twostate lemma OneSeat(p: nat)
      requires old(Valid()) && Valid() && p < 4
      requires forall i :: 0 <= i < 4 && i != p ==> players[i].Look() == old(players[i].Look())
      ensures Seats() == old(Seats())[p := players[p].Look()]
    {
      hide Framed, Seats;
    }

    ghost function Look(): Snap
      requires Valid()
      reads this`take, this`discarded, wall, Cells()
    {
      Snap(wall[take..], Seats(), discarded)
    }

    // ----- one seat changes, the others do not ---------------------------------------

    method Take(p: nat, i: nat)
      requires Valid() && p < 4 && i < 20 && take < SIZE
      modifies Cells(), this`take
      ensures Valid() && take == old(take) + 1
      ensures Look() == Took(old(Look()), p, i)
    {
      hide Seats;
      players[p].Fill(i, wall[take]);
      take := take + 1;
      OneSeat(p);
    }

    method StashFlower(p: nat, i: nat)
      requires Valid() && p < 4 && i < 20 && |Look().seats[p].flowers| < 8
      modifies Cells()
      ensures Valid()
      ensures Look() == Stashed(old(Look()), p, i)
    {
      hide Seats;
      players[p].StashFlower(i);
      OneSeat(p);
    }

    method PushSea(p: nat)
      requires Valid() && p < 4 && |Look().seats[p].sea| < 150
      modifies Cells(), this`discarded
      ensures Valid() && Sunk(old(Look()), Look(), p)
    {
      hide Seats;
      players[p].PushSea(discarded);
      discarded := NULL_MJ;
      OneSeat(p);
    }

    method Meld(p: nat, c: nat)
      requires Valid() && p < 4 && 2 <= c <= 3 && Playable(discarded)
      requires SortedHand(players[p].decks[..], players[p].normalCapacity)
      requires players[p].normalCapacity >= 4 && players[p].doorIndex <= 16
      requires multiset(players[p].decks[..players[p].normalCapacity])[discarded] >= c
      modifies Cells(), this`discarded
      ensures Valid()
      ensures Look() == old(Look()).(seats := old(Look()).seats[p := players[p].Look()], discarded := NULL_MJ)
      ensures Melded(old(players[p].Look()), players[p].Look(), old(discarded), c)
    {
      hide Melded, SortedHand, Seats;
      players[p].Meld(discarded, c);
      discarded := NULL_MJ;
      OneSeat(p);
    }

    method Throw(p: nat, index: nat)
      requires Valid() && p < 4 && discarded == NULL_MJ
      requires Holding(players[p].Look()) && index <= players[p].normalCapacity
      modifies Cells(), this`discarded
      ensures Valid()
      ensures Look() == old(Look()).(seats := old(Look()).seats[p := players[p].Look()], discarded := old(players[p].decks[index]))
      ensures Threw(old(players[p].Look()), players[p].Look(), index)
    {
      hide Seats, Threw, Holding;
      discarded := players[p].Throw(index);
      OneSeat(p);
    }

    method EatWith(p: nat, e1: nat, e2: nat, sorted: seq<Mj>)
      requires Valid() && p < 4
      requires Waiting(players[p].Look()) && players[p].normalCapacity >= 4
      requires e1 < players[p].normalCapacity && e2 < players[p].normalCapacity && e1 != e2
      requires players[p].decks.Length == 20
      requires |sorted| == 3 && QuickSort.Sorted(sorted, Key)
      requires multiset(sorted) == multiset([players[p].decks[e1], players[p].decks[e2], discarded])
      modifies Cells(), this`discarded
      ensures Valid()
      ensures Look() == old(Look()).(seats := old(Look()).seats[p := players[p].Look()], discarded := NULL_MJ)
      ensures AteFrom(old(players[p].Look()), players[p].Look(), old(discarded), e1, e2)
    {
      hide Seats, AteFrom, Ate, Waiting, QuickSort.Sorted, QuickSort.OnlyRangeRearranged, EatSwapped;
      players[p].Eat(discarded, e1, e2, sorted);
      discarded := NULL_MJ;
      OneSeat(p);
    }

    // ----- draw -------------------------------------------------------------------------

    /** One round of draw's loop: the flower in the cell goes aside and is replaced. */
    method ReplaceFlower(p: nat, cell: nat, ghost s: Snap, ghost k: nat)
      requires Valid() && p < 4 && take < SIZE
      requires Conserved(s) && AllWaiting(s) && Drew(s, Look(), p, k)
      requires cell == s.seats[p].nc && cell < 20 && players[p].decks[cell].suit == FLOWER
      modifies this`take, Cells()
      ensures Valid() && take == old(take) + 1 && Drew(s, Look(), p, k + 1)
    {
      hide Framed, Cells, Seats, Conserved, Waiting, Drew;
      ghost var t := Look();
      DrewFlower(s, t, p, k);
      NextDraw(s, t, p, k);
      StashFlower(p, cell);
      Take(p, cell);
    }

    /** draw: takes flowers aside until another tile comes; running off the wall is
        the one way it fails. tiles are sent to the client one by one. */
    method Draw(p: nat) returns (ok: bool, tiles: seq<Mj>)
      requires Valid() && p < 4 && Conserved(Look()) && AllWaiting(Look()) && discarded == NULL_MJ
      modifies this`take, Cells()
      ensures Valid() && DrawOutcome(old(Look()), Look(), p, ok)
      ensures ok ==> Turn(Look(), p) && Conserved(Look()) && Capacity(Look()) == Capacity(old(Look()))
      ensures if ok then take > old(take) && Drawn(old(Look()), Look(), p, tiles) else take == SIZE
    {
      hide Framed, Cells, Seats, Conserved, Waiting, Turn, Drew, DrawOutcome, Drawn;
      ghost var s := Look();
      tiles := [];
      if take == SIZE {
        NothingToDraw(s, s, p);
        return false, tiles;
      }
      var cell := players[p].normalCapacity;
      ghost var k := 0;
      FirstDraw(s, p);
      Take(p, cell);
      DrewCell(s, Look(), p, k);
      tiles := [players[p].decks[cell]];
      while players[p].decks[cell].suit == FLOWER
        invariant Valid() && take > old(take) && Drew(s, Look(), p, k)
        invariant k < |s.rest| && tiles == s.rest[..k + 1]
        decreases SIZE - take
      {
        if take == SIZE {
          DrawFails(s, Look(), p, k);
          return false, tiles;
        }
        ReplaceFlower(p, cell, s, k);
        k := k + 1;
        DrewCell(s, Look(), p, k);
        tiles := tiles + [players[p].decks[cell]];
      }
      DrawSucceeds(s, Look(), p, k);
      ok := true;
    }

    // ----- the deal ----------------------------------------------------------------------

    /** One grab of four tiles. */
    method DealFour(ghost w: seq<Mj>, start: nat, time: nat, add: nat)
      requires Valid() && time < 4 && add < 4
      requires DealtUpTo(w, Look(), start, time * 16 + add * 4) && Conserved(Look()) && start < 4
      modifies this`take, Cells()
      ensures Valid() && DealtUpTo(w, Look(), start, time * 16 + add * 4 + 4) && Conserved(Look())
    {
      hide Framed, Cells, Seats, DealtUpTo, Conserved, SeatAfter;
      for grab := 0 to 4
        invariant Valid() && DealtUpTo(w, Look(), start, time * 16 + add * 4 + grab) && Conserved(Look())
      {
        DealStep(w, Look(), start, time, add, grab);
        TookConserves(Look(), SeatAfter(start, add), time * 4 + grab);
        Take(SeatAfter(start, add), time * 4 + grab);
      }
    }

    /** The first loop of deal: sixteen tiles each, four at a time. */
    method DealTiles(ghost w: seq<Mj>, start: nat)
      requires Valid() && start < 4 && DealtUpTo(w, Look(), start, 0) && Conserved(Look())
      modifies this`take, Cells()
      ensures Valid() && DealtUpTo(w, Look(), start, 64) && Conserved(Look())
    {
      hide Framed, Cells, Seats, DealtUpTo, Conserved;
      for time := 0 to 4
        invariant Valid() && DealtUpTo(w, Look(), start, time * 16) && Conserved(Look())
      {
        for add := 0 to 4
          invariant Valid() && DealtUpTo(w, Look(), start, time * 16 + add * 4) && Conserved(Look())
        {
          DealFour(w, start, time, add);
        }
      }
    }

    /** has_flower: every flower met in the hand of seat p is put aside and replaced,
        perhaps by another flower. */
    method HasFlower(p: nat, ghost s0: Snap, ghost start: nat, ghost add: nat) returns (count: nat)
      requires Valid() && p == SeatAfter(start, add) && Dealt(Look()) && FlowerTotal(Look()) <= 8
      requires Look() == Ticks(s0, start, 20 * add)
      modifies this`take, Cells()
      ensures Valid() && Dealt(Look()) && Look() == Ticks(s0, start, 20 * add + 20)
      ensures forall q :: 0 <= q < 4 && q != p ==> Look().seats[q] == old(Look()).seats[q]
      ensures FlowerTotal(Look()) == FlowerTotal(old(Look())) + count <= 8
      ensures count == 0 ==> Clean(Look().seats[p]) && Look() == old(Look())
    {
      hide Framed, Cells, Seats, Conserved, FlowerTotal, DealtSeat, Tick, SeatAfter;
      count := 0;
      ghost var s := Look();
      for i := 0 to 20
        invariant Valid() && Dealt(Look()) && Look() == Ticks(s0, start, 20 * add + i)
        invariant forall q :: 0 <= q < 4 && q != p ==> Look().seats[q] == s.seats[q]
        invariant FlowerTotal(Look()) == FlowerTotal(s) + count <= 8
        invariant count == 0 ==> Look() == s && forall c :: 0 <= c < i ==> s.seats[p].decks[c].suit != FLOWER
      {
        DealtShape(Look(), p);
        TickAt(Look(), start, add, i);
        if players[p].decks[i].suit == FLOWER {
          FlowersLeft(Look(), p, i);
          FlowerReplaced(Look(), p, i);
          count := count + 1;
          StashFlower(p, i);
          Take(p, i);
        }
      }
    }

    /** One visit of the regrab loop; n is the new no_flower_count. */
    method VisitSeat(start: nat, noFlowerCount: nat, add: nat, ghost s0: Snap) returns (n: nat)
      requires Valid() && Look() == Ticks(s0, start, 20 * add)
      requires Valid() && start < 4 && Dealt(Look()) && FlowerTotal(Look()) <= 8 && noFlowerCount <= add
      requires CleanVisits(Look().seats, start, add - noFlowerCount, add)
      modifies this`take, Cells()
      ensures Valid() && Dealt(Look()) && FlowerTotal(Look()) <= 8 && n <= add + 1
      ensures Look() == Ticks(s0, start, 20 * (add + 1))
      ensures CleanVisits(Look().seats, start, add + 1 - n, add + 1)
      ensures n == 0 ==> FlowerTotal(Look()) > FlowerTotal(old(Look()))
      ensures n != 0 ==> FlowerTotal(Look()) == FlowerTotal(old(Look())) && n == noFlowerCount + 1
    {
      hide Framed, Cells, Seats, Dealt, FlowerTotal, SeatAfter, Clean, CleanVisits, Ticks;
      var count := HasFlower(SeatAfter(start, add), s0, start, add);
      if count > 0 {
        n := 0;
        NoVisits(Look().seats, start, add + 1);
      } else {
        n := noFlowerCount + 1;
        OneMoreVisit(Look().seats, start, add - noFlowerCount, add);
      }
    }

    /** The regrab loop of deal. It ends because each visit that finds a flower puts
        one of the eight aside, and then no hand holds a flower. */
    method ReplaceFlowers(start: nat) returns (ghost looks: nat)
      requires Valid() && start < 4 && Dealt(Look()) && FlowerTotal(Look()) <= 8
      modifies this`take, Cells()
      ensures Valid() && Dealt(Look()) && FlowerTotal(Look()) <= 8
      ensures forall q :: 0 <= q < 4 ==> Clean(Look().seats[q])
      ensures Look() == Ticks(old(Look()), start, looks)
    {
      hide Framed, Cells, Seats, Dealt, FlowerTotal, SeatAfter, Clean, CleanVisits, Tick;
      ghost var s0 := Look();
      var noFlowerCount, add := 0, 0;
      NoVisits(Look().seats, start, 0);
      while noFlowerCount < 4
        invariant Valid() && Dealt(Look()) && FlowerTotal(Look()) <= 8
        invariant noFlowerCount <= 4 && noFlowerCount <= add
        invariant CleanVisits(Look().seats, start, add - noFlowerCount, add)
        invariant Look() == Ticks(s0, start, 20 * add)
        decreases 8 - FlowerTotal(Look()), 4 - noFlowerCount
      {
        noFlowerCount := VisitSeat(start, noFlowerCount, add, s0);
        add := add + 1;
      }
      AllVisited(Look().seats, start, add - 4);
      looks := 20 * add;
    }

    /** The four sorts that end the deal. */
    method SortHands()
      requires Valid() && Dealt(Look()) && forall q :: 0 <= q < 4 ==> Clean(Look().seats[q])
      modifies Cells()
      ensures Valid() && SortedDeal(old(Look()), Look())
    {
      hide Framed, Cells, Seats, Dealt, Clean, SeatSorted, Hand;
      ghost var s := Look();
      DealtHands(s);
      for q := 0 to 4
        invariant Valid() && |Look().seats| == 4
        invariant Look() == s.(seats := Look().seats)
        invariant forall r :: 0 <= r < q ==> SeatSorted(s.seats[r], Look().seats[r])
        invariant forall r :: q <= r < 4 ==> Look().seats[r] == s.seats[r]
      {
        SortSeat(q);
      }
    }

    method SortSeat(p: nat)
      requires Valid() && p < 4 && Hand(Look().seats[p].decks, 16)
      modifies Cells()
      ensures Valid()
      ensures Look() == old(Look()).(seats := old(Look()).seats[p := players[p].Look()])
      ensures SeatSorted(old(Look()).seats[p], Look().seats[p])
    {
      hide Seats, Hand, SortedHand;
      SortHand(players[p].decks, 16);
      OneSeat(p);
    }

    /** What the messages of one hand say. */
    method ReadHand(p: nat) returns (hand: FirstHand)
      requires Valid() && p < 4
      ensures HandOf(players[p].Look(), hand)
    {
      var tiles, numbers := [], [];
      for j := 0 to 16
        invariant tiles == players[p].decks[..j]
      {
        tiles := tiles + [players[p].decks[j]];
      }
      for j := 0 to players[p].flowerIndex
        invariant numbers == Numbers(players[p].flowers[..j])
      {
        numbers := numbers + [players[p].flowers[j].number];
      }
      hand := FirstHand(tiles, numbers);
    }

    /** The messages behind the deal: every client is sent its hand. */
    method SendHands()
      requires Valid()
      modifies this`hands
      ensures Valid() && Look() == old(Look()) && HandsSent(Look())
    {
      hide Framed, Cells, Seats, HandOf;
      hands := [];
      for i := 0 to 4
        invariant Valid() && Look() == old(Look()) && |hands| == i
        invariant forall q :: 0 <= q < i ==> HandOf(Look().seats[q], hands[q])
      {
        var hand := ReadHand(i);
        hands := hands + [hand];
      }
    }

    ghost predicate HandsSent(s: Snap)
      reads this`hands
    {
      |s.seats| == 4 == |hands| && forall q :: 0 <= q < 4 ==> HandOf(s.seats[q], hands[q])
    }

    /** deal, after game_init and shuffle. */
    method Deal(start: nat)
      requires Valid() && start < 4 && DealtUpTo(wall[..], Look(), start, 0) && TheSet(multiset(wall[..]))
      modifies this`take, this`hands, Cells()
      ensures Valid() && Conserved(Look()) && FreshRound(Look()) && take <= 72 && HandsSent(Look())
      ensures DealtFrom(wall[..], start, Look())
    {
      hide Framed, Cells, Seats, DealtUpTo, Conserved, Dealt, FreshRound, SortedDeal, Clean, HandOf, Ticks;
      ghost var w := wall[..];
      FreshDeal(w, Look(), start);
      DealTiles(w, start);
      AllDealt(w, Look(), start);
      ghost var dealt := Look();
      ghost var looks := ReplaceFlowers(start);
      ghost var s := Look();
      DealtWall(s);
      SortHands();
      SortedDealWaits(s, Look());
      assert DealtBy(w, start, dealt, looks, Look());
      SendHands();
    }

    // ----- the record of a round ------------------------------------------------------------

    /** The history is a run of the rules, each step the one that the answers lead to, with
        the messages of the step. */
    ghost predicate Logged()
      reads this`answers, this`history, this`talks
    {
      LegalRun(history) && Recorded(history, talks) && Obeyed(history, answers)
    }

    /** The round has come, by the rules of Play, to the present table and this phase. */
    ghost predicate At(phase: Phase)
      reads this`take, this`discarded, this`answers, this`history, this`talks, wall, Cells()
    {
      Valid() && Logged() && Reaches(history, Config(Look(), phase))
    }

    /** What the round ends in is what halt says. */
    ghost predicate Ended(halt: Halt)
      reads this`take, this`discarded, this`answers, this`history, this`talks, this`heard, wall, Cells()
    {
      && Valid() && history != [] && Ending(history[|history| - 1], Look(), heard, halt)
      && Stops(history[|history| - 1], Look(), halt, answers, |talks|)
    }

    /** A message to seat q, with what is answered to it. */
    method Write(q: nat, e: Exchange)
      requires Valid() && q < 4 && |heard| == 4
      modifies this`heard
      ensures heard == old(heard)[q := old(heard)[q] + [e]]
      ensures Valid() && Look() == old(Look())
    {
      hide Framed, Cells, Seats;
      heard := heard[q := heard[q] + [e]];
    }

    method Advance(ghost c: Config, ghost phase: Phase)
      requires Valid() && Logged() && Reaches(history, c)
      requires Step(c, Config(Look(), phase)) && AllTalk(c, Config(Look(), phase), heard)
      requires Obeys(c, Config(Look(), phase), answers, |talks|)
      modifies this`history, this`talks, this`heard
      ensures old(history) <= history && heard == Silent()
      ensures At(phase) && Look() == old(Look()) && Energy(Config(Look(), phase)) < Energy(c)
    {
      hide Step, Reaches, Energy, Framed, Cells, Seats, AllTalk, LegalRun, Silent, Obeyed, Obeys;
      ghost var d := Config(Look(), phase);
      GoesOn(history, c, d);
      ReachedRun(history + [d], d);
      LastReached(history, c);
      RecordedGrows(history, talks, d, heard);
      ObeyedGrows(history, d, answers);
      history := history + [d];
      talks := talks + [heard];
      heard := Silent();
    }

    // ----- one seat's turn --------------------------------------------------------------------

    /** The messages of a draw. */
    method TellDraw(p: nat, called: bool, tiles: seq<Mj>)
      requires Valid() && p < 4 && heard == Silent()
      modifies this`heard
      ensures heard == Silent()[p := DrawTalk(called, tiles)]
      ensures Valid() && Look() == old(Look())
    {
      hide Framed, Cells, Seats, DrawTalk, Silent;
      DrawSaid(p, tiles);
      if !called {
        Write(p, YourTurn);
      }
      Write(p, Sent(tiles));
    }

    /** draw, as a step of the round; "your turn" is said unless a claim led here. Or the
        wall has come to its end. */
    method DrawTurn(p: nat, called: bool) returns (ok: bool)
      requires At(ToDraw(p, called)) && p < 4 && heard == Silent()
      modifies this`take, this`history, this`talks, this`heard, Cells()
      ensures old(history) <= history && Logged()
      ensures Valid() && DrawOutcome(old(Look()), Look(), p, ok)
      ensures !ok ==> Ended(OffTheWall) && history == old(history)
      ensures ok ==> take > old(take) && At(ToDiscard(p, called)) && heard == Silent()
      ensures ok && QuietGangOf(Look(), p) ==> MayGang(Look().seats[p])
      ensures ok ==> Energy(Config(Look(), ToDiscard(p, called))) < Energy(old(Config(Look(), ToDraw(p, called))))
    {
      hide Framed, Cells, Seats, Reaches, Energy, Step, Conserved, AllWaiting, DrawOutcome, Turn, Drawn, Logged, QuietGangOf, MayGang, JustDrawn, Ending;
      hide AllTalk, DrawTalk, Silent, Obeys, Stops;
      ghost var c := Config(Look(), ToDraw(p, called));
      ReachedInv(history, c);
      LastReached(history, c);
      var tiles;
      ok, tiles := Draw(p);
      if ok {
        JustDrew(c, Look(), p);
        ghost var d := Config(Look(), ToDiscard(p, called));
        DrawIsStep(c, d, p, called, tiles);
        DrawWritten(c, d, p, called, tiles, Silent()[p := DrawTalk(called, tiles)]);
        DrawObeys(c, d, d.snap, answers, |talks|);
        TellDraw(p, called, tiles);
        assert Config(Look(), ToDiscard(p, called)) == d;
        Advance(c, d.phase);
      } else {
        EndsOffTheWall(c, Look(), p, heard);
        DrawObeys(c, c, Look(), answers, |talks|);
      }
    }

    /** The question is_hu asks of the hand. */
    method CanHu(p: nat) returns (canHu: bool)
      requires Valid() && Turn(Look(), p)
      ensures Valid() && Look() == old(Look())
      ensures canHu <==> SelfHuOf(Look(), p)
    {
      hide Seats, Turn, SelfHuOf, WinningTiles;
      HoldingHand(Look(), p);
      canHu := HuCheck(players[p].decks, players[p].normalCapacity);
    }

    /** is_hu: offers a win exactly when the hand wins, and ends the round if accepted. */
    method IsHu(p: nat, called: bool) returns (hu: bool)
      requires At(ToDiscard(p, called)) && p < 4 && winner == -1 && heard == Silent()
      modifies this`winner, this`history, this`talks, this`heard
      ensures old(history) <= history && Logged()
      ensures hu <==> DeclaresHu(old(Config(Look(), ToDiscard(p, called))), answers, old(|talks|))
      ensures hu ==> SelfHuOf(old(Look()), p) && winner == p && At(Over(p)) && heard == Silent()
      ensures !hu ==> winner == -1 && At(ToDiscard(p, called)) && Look() == old(Look())
      ensures !hu ==> heard == AfterWinTest(Look(), p) && talks == old(talks)
    {
      hide Framed, Cells, Seats, Reaches, Energy, Step, Conserved, SelfHuOf, Turn, Logged, AllTalk, Obeys;
      ghost var c := Config(Look(), ToDiscard(p, called));
      ReachedInv(history, c);
      var canHu := CanHu(p);
      hu := canHu && answers.hu(|talks|);
      WinTestSaid(p, HuVerdict(canHu, hu));
      Write(p, HuVerdict(canHu, hu));
      if hu {
        SelfHuIsStep(Look(), p, called);
        WinWritten(c, p, called, heard);
        HuObeys(c, answers, |talks|);
        Advance(c, Over(p));
        winner := p;
      }
    }

    /** The question quiet_gang asks of the hand. */
    method CanQuietGang(p: nat) returns (possible: bool)
      requires Valid() && Turn(Look(), p)
      ensures Valid() && Look() == old(Look())
      ensures possible <==> QuietGangOf(Look(), p)
    {
      hide Seats, Turn, SelfHuOf;
      HoldingHand(Look(), p);
      var nc := players[p].normalCapacity;
      HandCells(players[p].decks[..], nc);
      possible := IsSetPossible(players[p].decks, nc, players[p].decks[nc], 3);
    }

    /** The question of quiet_gang, asked in a turn of one's own, and its answer. */
    method AskQuietGang(p: nat) returns (accepted: bool)
      requires At(ToDiscard(p, false)) && p < 4 && heard == AfterWinTest(Look(), p)
      modifies this`heard
      ensures At(ToDiscard(p, false)) && Look() == old(Look())
      ensures accepted <==> QuietGangOf(Look(), p) && answers.quiet(|talks|)
      ensures heard == if accepted then old(heard)[p := old(heard)[p] + [QuietGangVerdict(true, true)]]
                       else BeforeDiscard(Look(), p, false)
    {
      hide Framed, Cells, Seats, Reaches, Energy, Step, Conserved, SelfHuOf, QuietGangOf, Logged, AfterWinTest;
      ReachedInv(history, Config(Look(), ToDiscard(p, false)));
      var possible := CanQuietGang(p);
      accepted := possible && answers.quiet(|talks|);
      Write(p, QuietGangVerdict(possible, accepted));
    }

    /** The accepted branch of quiet_gang: its effect, and the announcement. */
    method GangQuietly(p: nat)
      requires Valid() && p < 4 && MayGang(players[p].Look()) && |heard| == 4
      modifies Cells(), this`heard
      ensures Valid() && GangedQuietly(old(Look()), Look(), p)
      ensures heard == AnnouncedTo(old(heard), p)
    {
      hide Seats, MayGang, QuietlyGanged, AnnouncedTo;
      players[p].QuietGang();
      OneSeat(p);
      Announce(p);
    }

    /** The turn of a seat that gangs quietly. */
    method QuietGangTurn(p: nat)
      requires At(ToDiscard(p, false)) && p < 4 && MayGang(Look().seats[p])
      requires DeclaresGang(Config(Look(), ToDiscard(p, false)), answers, |talks|)
      requires heard == AfterWinTest(Look(), p)[p := AfterWinTest(Look(), p)[p] + [QuietGangVerdict(true, true)]]
      modifies Cells(), this`heard
      ensures Logged() && Valid() && Ended(QuietGang)
    {
      hide Framed, Cells, Seats, Reaches, MayGang, GangedQuietly, Logged, AfterWinTest, AnnouncedTo, Inv, Stall, DeclaresGang, Stops;
      ghost var c, asked := Config(Look(), ToDiscard(p, false)), heard;
      ReachedInv(history, c);
      LastReached(history, c);
      GangQuietly(p);
      GangStalls(c, Look(), p, asked);
      GangStops(c, Look(), answers, |talks|);
    }

    /** broadcast_discard_mj, behind the answer of the discarder. */
    method TellDiscard(p: nat, index: nat, line: Exchange)
      requires Valid() && p < 4 && |heard| == 4
      modifies this`heard
      ensures heard == ToldDiscard(old(heard), p, index, line)
      ensures Valid() && Look() == old(Look())
    {
      hide Framed, Cells, Seats;
      Write(p, Chosen(index));
      Write(SeatAfter(p, 1), line);
      Write(SeatAfter(p, 2), line);
      Write(SeatAfter(p, 3), line);
    }

    /** discard of whatever cell the answer names; accepts is what the others are going to
        say to it. An answer outside the hand names no tile: the cell is empty or not one
        of decks. */
    method Discard(p: nat, called: bool) returns (accepts: set<Offer>, halt: Halt)
      requires At(ToDiscard(p, called)) && p < 4 && heard == BeforeDiscard(Look(), p, called)
      requires !DeclaresHu(Config(Look(), ToDiscard(p, called)), answers, |talks|)
      requires !DeclaresGang(Config(Look(), ToDiscard(p, called)), answers, |talks|)
      modifies this`discarded, this`history, this`talks, this`heard, Cells()
      ensures old(history) <= history && Logged()
      ensures Valid() && (halt.Running? || (halt.BadDiscard? && Ended(halt)))
      ensures halt.Running? <==> 0 <= answers.index(old(|talks|)) <= old(players[p].normalCapacity)
      ensures halt.Running? ==> accepts == answers.accepts(old(|talks|)) && Discarded(old(Look()), Look(), p, answers.index(old(|talks|)))
      ensures halt.Running? ==> At(Thrown(p, accepts)) && heard == Silent()
      ensures halt.Running? ==>
        Energy(Config(Look(), Thrown(p, accepts))) < Energy(old(Config(Look(), ToDiscard(p, called))))
    {
      hide Framed, Cells, Seats, Reaches, Energy, Step, Conserved, Threw, Logged, AllTalk, BeforeDiscard, ToldDiscard;
      hide DiscardText.Broadcast, Ending, DeclaresHu, DeclaresGang, Obeys, Stops;
      ghost var c := Config(Look(), ToDiscard(p, called));
      ReachedInv(history, c);
      HoldingHand(Look(), p);
      var index := answers.index(|talks|);
      if index < 0 || index > players[p].normalCapacity {
        LastReached(history, c);
        EndsBadDiscard(c, index, heard);
        BadDiscardStops(c, Look(), answers, |talks|);
        return {}, BadDiscard(index);
      }
      Throw(p, index);
      accepts := answers.accepts(|talks|);
      DiscardIsStep(c, Config(Look(), Thrown(p, accepts)), p, index);
      ghost var told := DiscardWritten(c, Config(Look(), Thrown(p, accepts)), p, called, index);
      var line := DiscardLine(DiscardText.Broadcast(p, discarded));
      DiscardObeys(c, Config(Look(), Thrown(p, accepts)), answers, |talks|);
      TellDiscard(p, index, line);
      Advance(c, Thrown(p, accepts));
      halt := Running;
    }

    // ----- the others' reaction -------------------------------------------------------------

    /** Whether an offer can be made. */
    method CanOffer(p: nat, o: Offer) returns (possible: bool)
      requires Valid() && AllWaiting(Look()) && Playable(discarded) && IsOffer(o)
      ensures Valid() && Look() == old(Look())
      ensures possible <==> Possible(Look(), p, o)
    {
      hide Seats, WinningTiles, CanEat, Bag, AllWaiting;
      var q := OfferedTo(p, o);
      WaitingHand(Look(), q);
      var deck, nc := players[q].decks, players[q].normalCapacity;
      match o {
        case HuOffer(_) => possible := IsAddHuPossible(deck, nc, discarded);
        case GangOffer(_) => possible := IsSetPossible(deck, nc, discarded, 3);
        case PongOffer(_) => possible := IsSetPossible(deck, nc, discarded, 2);
        case EatOffer => possible := IsEatPossible(deck, nc, discarded);
      }
    }

    /** One question to one player, and the answer to it if it is asked. */
    method Ask(p: nat, o: Offer, accepts: set<Offer>) returns (taken: bool)
      requires Valid() && AllWaiting(Look()) && Playable(discarded) && IsOffer(o)
      requires p < 4 && heard == HeardRefusals(Look(), p, Rank(o))
      modifies this`heard
      ensures Valid() && Look() == old(Look())
      ensures taken <==> Accepted(Look(), p, o, accepts)
      ensures heard == if taken then HeardQuestions(Look(), p, Some(o)) else HeardRefusals(Look(), p, Rank(o) + 1)
    {
      hide Framed, Cells, Seats, Possible, AllWaiting, HeardRefusals, HeardQuestions;
      OneMoreOffer(Look(), p, o);
      var possible := CanOffer(p, o);
      taken := possible && o in accepts;
      if possible {
        Write(OfferedTo(p, o), Offered(o, taken));
      }
    }

    /** The questions of othersreaction in their order: hu, gang, pong of the three
        other players in turn, then eat of the next player. */
    method FindClaim(p: nat, accepts: set<Offer>) returns (claim: Option<Offer>)
      requires Valid() && AllWaiting(Look()) && Playable(discarded) && p < 4 && heard == Silent()
      modifies this`heard
      ensures Valid() && Look() == old(Look())
      ensures FirstAccepted(Look(), p, accepts, claim)
      ensures heard == HeardQuestions(Look(), p, claim)
    {
      hide Framed, Cells, Seats, AllWaiting, Accepted, HeardRefusals, HeardQuestions;
      ghost var s := Look();
      NothingHeard(s, p);
      for k := 1 to 4
        invariant Valid() && Look() == s
        invariant NoneBefore(s, p, accepts, k) && heard == HeardRefusals(s, p, k)
      {
        var taken := Ask(p, HuOffer(k), accepts);
        if taken {
          return Some(HuOffer(k));
        }
        RankTells(HuOffer(k));
      }
      for k := 1 to 4
        invariant Valid() && Look() == s
        invariant NoneBefore(s, p, accepts, 3 + k) && heard == HeardRefusals(s, p, 3 + k)
      {
        var taken := Ask(p, GangOffer(k), accepts);
        if taken {
          return Some(GangOffer(k));
        }
        RankTells(GangOffer(k));
      }
      for k := 1 to 4
        invariant Valid() && Look() == s
        invariant NoneBefore(s, p, accepts, 6 + k) && heard == HeardRefusals(s, p, 6 + k)
      {
        var taken := Ask(p, PongOffer(k), accepts);
        if taken {
          return Some(PongOffer(k));
        }
        RankTells(PongOffer(k));
      }
      var taken := Ask(p, EatOffer, accepts);
      claim := if taken then Some(EatOffer) else None;
      RankTells(EatOffer);
      AllHeard(s, p);
    }

    // ----- what an accepted offer does --------------------------------------------------------

    /** The announcement of a claim to the three others. */
    method Announce(q: nat)
      requires Valid() && q < 4 && |heard| == 4
      modifies this`heard
      ensures heard == AnnouncedTo(old(heard), q)
      ensures Valid() && Look() == old(Look())
    {
      hide Framed, Cells, Seats;
      Write(SeatAfter(q, 1), Announced);
      Write(SeatAfter(q, 2), Announced);
      Write(SeatAfter(q, 3), Announced);
    }

    /** No one wants it: the discard goes to the sea of the seat that threw it. */
    method Sink(p: nat, ghost accepts: set<Offer>)
      requires At(Thrown(p, accepts)) && p < 4 && FirstAccepted(Look(), p, accepts, None)
      requires heard == HeardQuestions(Look(), p, None)
      modifies this`discarded, this`history, this`talks, this`heard, Cells()
      ensures old(history) <= history
      ensures At(ToDraw(SeatAfter(p, 1), false)) && heard == Silent()
    {
      hide Framed, Cells, Seats, Reaches, Energy, Step, Conserved, AllWaiting, Sunk, FirstAccepted;
      hide Logged, AllTalk, HeardQuestions, Reaction, Obeys;
      ghost var c := Config(Look(), Thrown(p, accepts));
      ReachedInv(history, c);
      SeaFits(Look(), p);
      Write(p, NoOneWants);
      PushSea(p);
      ReactionIsStep(c, Config(Look(), ToDraw(SeatAfter(p, 1), false)), None);
      ClaimObeys(c, Config(Look(), ToDraw(SeatAfter(p, 1), false)), None, answers, |talks|);
      SinkWritten(c.snap, Config(Look(), ToDraw(SeatAfter(p, 1), false)), p, accepts);
      Advance(c, ToDraw(SeatAfter(p, 1), false));
    }

    /** The k-th next player completes a winning hand with the discard. */
    method ClaimHu(p: nat, k: nat, ghost accepts: set<Offer>) returns (now: nat)
      requires At(Thrown(p, accepts)) && FirstAccepted(Look(), p, accepts, Some(HuOffer(k)))
      requires heard == HeardQuestions(Look(), p, Some(HuOffer(k)))
      modifies this`winner, this`history, this`talks, this`heard
      ensures old(history) <= history
      ensures now == SeatAfter(p, k) && winner == now && At(Over(now)) && heard == Silent()
    {
      hide Framed, Cells, Seats, Reaches, Energy, Step, FirstAccepted, Logged, AllTalk, HeardQuestions, Reaction, Obeys;
      ghost var c := Config(Look(), Thrown(p, accepts));
      now := SeatAfter(p, k);
      ReactionIsStep(c, Config(Look(), Over(now)), Some(HuOffer(k)));
      ClaimObeys(c, Config(Look(), Over(now)), Some(HuOffer(k)), answers, |talks|);
      HuWritten(c.snap, Config(Look(), Over(now)), p, accepts, k);
      Advance(c, Over(now));
      winner := now;
    }

    /** An accepted pong (c == 2) or gang (c == 3) of the k-th next player. */
    method ClaimSet(p: nat, k: nat, c: nat, ghost accepts: set<Offer>) returns (now: nat)
      requires At(Thrown(p, accepts)) && 2 <= c <= 3
      requires FirstAccepted(Look(), p, accepts, Some(if c == 2 then PongOffer(k) else GangOffer(k)))
      requires heard == HeardQuestions(Look(), p, Some(if c == 2 then PongOffer(k) else GangOffer(k)))
      modifies this`discarded, this`history, this`talks, this`heard, Cells()
      ensures old(history) <= history
      ensures now == SeatAfter(p, k) && At(AfterClaim(now, c)) && heard == Silent()
      ensures Energy(Config(Look(), AfterClaim(now, c))) < Energy(old(Config(Look(), Thrown(p, accepts))))
    {
      hide Framed, Cells, Seats, Reaches, Energy, Step, Conserved, AllWaiting, Melded, SortedHand, Bag, FirstAccepted;
      hide Logged, AllTalk, HeardQuestions, AnnouncedTo, Reaction, Obeys;
      ghost var from := Config(Look(), Thrown(p, accepts));
      ghost var offer := if c == 2 then PongOffer(k) else GangOffer(k);
      ReachedInv(history, from);
      now := SeatAfter(p, k);
      ClaimIsPossible(from.snap, p, accepts, k, c);
      ClaimRoom(from.snap, now, c);
      ClaimHand(from.snap, now, c);
      Meld(now, c);
      Announce(now);
      ReactionIsStep(from, Config(Look(), AfterClaim(now, c)), Some(offer));
      ClaimObeys(from, Config(Look(), AfterClaim(now, c)), Some(offer), answers, |talks|);
      MeldWritten(from.snap, Config(Look(), AfterClaim(now, c)), p, accepts, offer);
      Advance(from, AfterClaim(now, c));
    }

    /** One eat answer tested. */
    method TestAnswer(q: nat, e1: nat, e2: nat) returns (eatable: bool, sorted: seq<Mj>)
      requires Valid() && q < 4 && e1 < 20 && e2 < 20
      requires InKeyRange(players[q].decks[e1]) && InKeyRange(players[q].decks[e2]) && InKeyRange(discarded)
      ensures Valid() && Look() == old(Look())
      ensures eatable <==> CompletesRun(players[q].decks[e1], players[q].decks[e2], discarded)
      ensures |sorted| == 3 && QuickSort.Sorted(sorted, Key)
      ensures multiset(sorted) == multiset([players[q].decks[e1], players[q].decks[e2], discarded])
    {
      hide Seats, CompletesRun, QuickSort.Sorted;
      eatable, sorted := EatTest(players[q].decks[e1], players[q].decks[e2], discarded);
    }

    /** An eatable answer that the swaps handle rightly, behind the wrong ones. */
    method AcceptEat(p: nat, ghost accepts: set<Offer>, e1: nat, e2: nat, sorted: seq<Mj>, ghost wrong: seq<Exchange>,
                     ghost i: nat)
      returns (now: nat)
      requires At(Thrown(p, accepts)) && FirstAccepted(Look(), p, accepts, Some(EatOffer))
      requires FirstDecisive(Look(), SeatAfter(p, 1), answers.attempts(|talks|), i) && answers.attempts(|talks|)[i] == (e1, e2)
      requires EatAnswer(Look(), SeatAfter(p, 1), e1, e2) && !Misplaces(players[SeatAfter(p, 1)].normalCapacity, e1, e2)
      requires |sorted| == 3 && QuickSort.Sorted(sorted, Key)
      requires multiset(sorted) == multiset([players[SeatAfter(p, 1)].decks[e1], players[SeatAfter(p, 1)].decks[e2], discarded])
      requires AllWrong(wrong) && heard == HeardWhileEating(Look(), p, wrong + [Named(e1, e2, true)])
      modifies this`discarded, this`history, this`talks, this`heard, Cells()
      ensures old(history) <= history
      ensures now == SeatAfter(p, 1) && At(ToDiscard(now, true)) && heard == Silent()
      ensures EatsWith(old(Look()), Look(), now, (e1, e2))
      ensures Energy(Config(Look(), ToDiscard(now, true))) < Energy(old(Config(Look(), Thrown(p, accepts))))
    {
      hide Framed, Cells, Seats, Reaches, Energy, Step, CompletesRun, EatOf, Ate, AteFrom;
      hide QuickSort.Sorted, Waiting, FirstAccepted, Carried, Misplaces;
      hide Logged, AllTalk, AllWrong, HeardWhileEating, AnnouncedTo, Reaction, Obeys, FirstDecisive;
      ghost var from := Config(Look(), Thrown(p, accepts));
      now := SeatAfter(p, 1);
      EatWith(now, e1, e2, sorted);
      Announce(now);
      EatIsCarried(from.snap, Config(Look(), ToDiscard(now, true)), p, e1, e2);
      ReactionIsStep(from, Config(Look(), ToDiscard(now, true)), Some(EatOffer));
      EatObeys(from, Config(Look(), ToDiscard(now, true)), answers, |talks|, i);
      EatWritten(from.snap, Config(Look(), ToDiscard(now, true)), p, accepts, e1, e2, wrong);
      Advance(from, ToDiscard(now, true));
    }

    /** An eatable answer that the swaps misplace is carried out all the same. */
    method MisplaceEat(p: nat, ghost accepts: set<Offer>, e1: nat, e2: nat, sorted: seq<Mj>, ghost i: nat)
      requires At(Thrown(p, accepts)) && FirstAccepted(Look(), p, accepts, Some(EatOffer))
      requires NoneDecisive(Look(), SeatAfter(p, 1), answers.attempts(|talks|), i)
      requires i < |answers.attempts(|talks|)| && answers.attempts(|talks|)[i] == (e1, e2)
      requires EatAnswer(Look(), SeatAfter(p, 1), e1, e2) && Misplaces(players[SeatAfter(p, 1)].normalCapacity, e1, e2)
      requires |sorted| == 3 && QuickSort.Sorted(sorted, Key)
      requires multiset(sorted) == multiset([players[SeatAfter(p, 1)].decks[e1], players[SeatAfter(p, 1)].decks[e2], discarded])
      requires |heard| == 4
      modifies this`discarded, this`heard, Cells()
      ensures Logged() && Valid() && Ended(MisplacedEat)
      ensures MisplacesWith(old(Look()), Look(), SeatAfter(p, 1), (e1, e2))
    {
      hide Framed, Cells, Seats, Reaches, Inv, CompletesRun, Ate, AteFrom, QuickSort.Sorted, Waiting, Misplaces, Logged, BrokenHand, AnnouncedTo;
      hide FirstAccepted, NoneDecisive, FirstDecisive, Stops, MisplacesWith;
      ghost var from := Config(Look(), Thrown(p, accepts));
      ReachedInv(history, from);
      LastReached(history, from);
      EatWith(SeatAfter(p, 1), e1, e2, sorted);
      Announce(SeatAfter(p, 1));
      MisplacedBreaksHand(from, Look(), e1, e2);
      IsMisplaced(from.snap, Look(), SeatAfter(p, 1), e1, e2);
      DialogueStops(from, Look(), answers, |talks|, i);
    }

    /** One answer in the eat dialogue, and the verdict on it. */
    method HearAnswer(p: nat, ghost accepts: set<Offer>, e1: nat, e2: nat, ghost wrong: seq<Exchange>)
      returns (eatable: bool, sorted: seq<Mj>)
      requires At(Thrown(p, accepts)) && e1 < 20 && e2 < 20
      requires AllWrong(wrong) && heard == HeardWhileEating(Look(), p, wrong)
      modifies this`heard
      ensures At(Thrown(p, accepts)) && Look() == old(Look())
      ensures eatable <==> EatAnswer(Look(), SeatAfter(p, 1), e1, e2)
      ensures heard == HeardWhileEating(Look(), p, wrong + [Named(e1, e2, eatable)])
      ensures !eatable ==> AllWrong(wrong + [Named(e1, e2, eatable)])
      ensures |sorted| == 3 && QuickSort.Sorted(sorted, Key)
      ensures multiset(sorted) == multiset([players[SeatAfter(p, 1)].decks[e1], players[SeatAfter(p, 1)].decks[e2], discarded])
    {
      hide Framed, Cells, Seats, Reaches, Logged, AllWaiting, Conserved, CompletesRun;
      hide QuickSort.Sorted, EatAnswer, AllWrong, HeardWhileEating;
      ReachedInv(history, Config(Look(), Thrown(p, accepts)));
      EatCellsAreTiles(Look(), SeatAfter(p, 1), e1, e2);
      eatable, sorted := TestAnswer(SeatAfter(p, 1), e1, e2);
      OneMoreNamed(Look(), p, wrong, e1, e2, eatable);
      Write(SeatAfter(p, 1), Named(e1, e2, eatable));
    }

    /** One answer with two cells of decks: it ends the dialogue if they complete a run. */
    method TakeAnswer(p: nat, ghost accepts: set<Offer>, e1: nat, e2: nat, ghost wrong: seq<Exchange>, ghost i: nat)
      returns (done: bool, halt: Halt)
      requires At(Thrown(p, accepts)) && FirstAccepted(Look(), p, accepts, Some(EatOffer)) && e1 < 20 && e2 < 20
      requires NoneDecisive(Look(), SeatAfter(p, 1), answers.attempts(|talks|), i)
      requires i < |answers.attempts(|talks|)| && answers.attempts(|talks|)[i] == (e1, e2)
      requires AllWrong(wrong) && heard == HeardWhileEating(Look(), p, wrong)
      modifies this`discarded, this`history, this`talks, this`heard, Cells()
      ensures old(history) <= history && Logged() && Valid()
      ensures done ==> DialogueComesTo(old(Look()), Look(), SeatAfter(p, 1), answers.attempts(old(|talks|)), halt)
      ensures done ==> halt.Running? || (halt.MisplacedEat? && Ended(halt))
      ensures done && halt.Running? ==> At(ToDiscard(SeatAfter(p, 1), true)) && heard == Silent()
      ensures done && halt.Running? ==>
        Energy(Config(Look(), ToDiscard(SeatAfter(p, 1), true))) < Energy(old(Config(Look(), Thrown(p, accepts))))
      ensures !done ==> At(Thrown(p, accepts)) && Look() == old(Look()) && history == old(history) && talks == old(talks)
      ensures !done ==> AllWrong(wrong + [Named(e1, e2, false)]) && heard == HeardWhileEating(Look(), p, wrong + [Named(e1, e2, false)])
      ensures !done ==> NoneDecisive(Look(), SeatAfter(p, 1), answers.attempts(|talks|), i + 1)
    {
      hide Framed, Cells, Seats, Reaches, Energy, Logged, Ended, Stops, Misplaces;
      hide QuickSort.Sorted, FirstAccepted, EatAnswer, AllWrong, HeardWhileEating, HeardQuestions;
      hide NoneDecisive, FirstDecisive, DialogueComesTo, EatsWith, MisplacesWith;
      ghost var s, from := Look(), Config(Look(), Thrown(p, accepts));
      ghost var attempts := answers.attempts(|talks|);
      ReachedSeats(history, from);
      DialogueStops(from, s, answers, |talks|, i);
      var eatable, sorted := HearAnswer(p, accepts, e1, e2, wrong);
      done, halt := eatable, Running;
      if eatable {
        if Misplaces(players[SeatAfter(p, 1)].normalCapacity, e1, e2) {
          MisplaceEat(p, accepts, e1, e2, sorted, i);
          halt := MisplacedEat;
        } else {
          var now := AcceptEat(p, accepts, e1, e2, sorted, wrong, i);
        }
        AnswerDecides(s, Look(), SeatAfter(p, 1), attempts, i, halt);
      }
    }

    /** The eat dialogue with the next player, whose answers are cell numbers: it goes on
        until two cells are eatable, or the player leaves. */
    method EatDialogue(p: nat, ghost accepts: set<Offer>) returns (now: nat, halt: Halt)
      requires At(Thrown(p, accepts)) && FirstAccepted(Look(), p, accepts, Some(EatOffer))
      requires heard == HeardQuestions(Look(), p, Some(EatOffer))
      modifies this`discarded, this`history, this`talks, this`heard, Cells()
      ensures old(history) <= history && Logged()
      ensures Valid() && now == SeatAfter(p, 1) && !halt.QuietGang? && !halt.OffTheWall? && (halt.Running? || Ended(halt))
      ensures DialogueComesTo(old(Look()), Look(), now, answers.attempts(old(|talks|)), halt)
      ensures halt.Running? ==> At(ToDiscard(now, true)) && heard == Silent()
      ensures halt.Running? ==> Energy(Config(Look(), ToDiscard(now, true))) < Energy(old(Config(Look(), Thrown(p, accepts))))
    {
      hide Framed, Cells, Seats, Reaches, Energy, Logged, Ending, Stops;
      hide FirstAccepted, EatAnswer, AllWrong, HeardWhileEating, HeardQuestions;
      hide NoneDecisive, FirstDecisive, DialogueComesTo, MisplacesWith, EatsWith;
      ghost var s, from := Look(), Config(Look(), Thrown(p, accepts));
      var attempts := answers.attempts(|talks|);
      now := SeatAfter(p, 1);
      ghost var wrong: seq<Exchange> := [];
      LastReached(history, from);
      ReachedSeats(history, from);
      NoneWrong(s, p);
      DialogueStarts(s, now, attempts);
      for i := 0 to |attempts|
        invariant At(Thrown(p, accepts)) && Look() == s && history == old(history) && talks == old(talks)
        invariant AllWrong(wrong) && heard == HeardWhileEating(s, p, wrong)
        invariant NoneDecisive(s, now, attempts, i)
      {
        var e1, e2 := attempts[i].0, attempts[i].1;
        if e1 < 0 || e1 >= 20 || e2 < 0 || e2 >= 20 {
          EndsDialogue(from, wrong, e1, e2);
          DialogueStops(from, s, answers, |talks|, i);
          AnswerDecides(s, s, now, attempts, i, OutOfCells(e1, e2));
          return now, OutOfCells(e1, e2);
        }
        assert attempts[i] == (e1, e2);
        var done;
        done, halt := TakeAnswer(p, accepts, e1, e2, wrong, i);
        if done {
          return;
        }
        wrong := wrong + [Named(e1, e2, false)];
      }
      EndsDialogue(from, wrong, 0, 0);
      DialogueStops(from, s, answers, |talks|, |attempts|);
      NobodyDecides(s, now, attempts);
      return now, Disconnected;
    }

    /** An accepted gang of the k-th next player, with the draw that it calls for. */
    method ClaimGang(p: nat, k: nat, ghost accepts: set<Offer>) returns (ok: bool, now: nat)
      requires At(Thrown(p, accepts)) && FirstAccepted(Look(), p, accepts, Some(GangOffer(k)))
      requires heard == HeardQuestions(Look(), p, Some(GangOffer(k)))
      modifies this`take, this`discarded, this`history, this`talks, this`heard, Cells()
      ensures old(history) <= history && Logged() && Valid()
      ensures now == SeatAfter(p, k) && (ok ==> take >= old(take))
      ensures ok ==> At(ToDiscard(now, true)) && heard == Silent()
      ensures ok ==> Energy(Config(Look(), ToDiscard(now, true))) < Energy(old(Config(Look(), Thrown(p, accepts))))
      ensures !ok ==> Ended(OffTheWall) && history != [] && DrawIsDue(history[|history| - 1])
    {
      hide Framed, Cells, Seats, Reaches, Energy, FirstAccepted, Logged, Ended, HeardQuestions, DrawIsDue, DrawOutcome, QuietGangOf, MayGang;
      now := ClaimSet(p, k, 3, accepts);
      DueWhenCalled(history, Config(Look(), ToDraw(now, true)));
      ok := DrawTurn(now, true);
    }

    /** othersreaction: asks the others about the discard of seat p and carries out the
        first offer accepted, which may lead to another discard and reaction. hu is what
        the C function returns: nested results are dropped, so a round may be over
        although hu is false. now is the value-result argument. */
    method OthersReaction(p: nat, accepts: set<Offer>) returns (hu: bool, now: nat, halt: Halt)
      requires At(Thrown(p, accepts)) && p < 4 && winner == -1 && heard == Silent()
      modifies this`take, this`discarded, this`winner, this`history, this`talks, this`heard, Cells()
      ensures old(history) <= history && Logged()
      ensures Valid() && now < 4 && !halt.QuietGang? && (halt.Running? || Ended(halt))
      ensures halt.OffTheWall? ==> history != [] && DrawIsDue(history[|history| - 1])
      ensures halt.Running? && winner == -1 ==> !hu && At(ToDraw(SeatAfter(now, 1), false)) && heard == Silent()
      ensures halt.Running? && winner != -1 ==> 0 <= winner < 4 && At(Over(winner))
      ensures halt.Running? ==> take >= old(take)
      decreases Energy(Config(Look(), Thrown(p, accepts)))
    {
      hide Framed, Cells, Seats, Reaches, Energy, Conserved, AllWaiting, DrawOutcome, FirstAccepted, Logged, Ended, HeardQuestions, DialogueComesTo, DrawIsDue;
      ReachedInv(history, Config(Look(), Thrown(p, accepts)));
      var claim := FindClaim(p, accepts);
      hu, now, halt := false, p, Running;
      match claim {
        case None =>
          Sink(p, accepts);
        case Some(HuOffer(k)) =>
          now := ClaimHu(p, k, accepts);
          hu := true;
        case Some(GangOffer(k)) =>
          var ok;
          ok, now := ClaimGang(p, k, accepts);
          if !ok {
            halt := OffTheWall;
            return;
          }
          hu, now, halt := PlayOn(now);
        case Some(PongOffer(k)) =>
          now := ClaimSet(p, k, 2, accepts);
          hu, now, halt := PlayOn(now);
        case Some(EatOffer) =>
          now, halt := EatDialogue(p, accepts);
          if halt != Running {
            return;
          }
          hu, now, halt := PlayOn(now);
      }
    }

    /** The tail shared by the gang, pong and eat branches. */
    method PlayOn(p: nat) returns (hu: bool, now: nat, halt: Halt)
      requires At(ToDiscard(p, true)) && p < 4 && winner == -1 && heard == Silent()
      modifies this`take, this`discarded, this`winner, this`history, this`talks, this`heard, Cells()
      ensures old(history) <= history && Logged()
      ensures Valid() && now < 4 && !halt.QuietGang? && (halt.Running? || Ended(halt))
      ensures halt.OffTheWall? ==> history != [] && DrawIsDue(history[|history| - 1])
      ensures halt.Running? && winner == -1 ==> !hu && At(ToDraw(SeatAfter(now, 1), false)) && heard == Silent()
      ensures halt.Running? && winner != -1 ==> 0 <= winner < 4 && At(Over(winner))
      ensures halt.Running? ==> take >= old(take)
      decreases Energy(Config(Look(), ToDiscard(p, true)))
    {
      hide Framed, Cells, Seats, Reaches, Energy, Logged, Ended, SelfHuOf, DeclaresHu, BeforeDiscard;
      now, halt := p, Running;
      hu := IsHu(p, true);
      if hu {
        return;
      }
      var accepts;
      NoGangWhenCalled(Config(Look(), ToDiscard(p, true)), answers, |talks|);
      AskedNothing(Look(), p);
      accepts, halt := Discard(p, true);
      if halt != Running {
        return;
      }
      var nested;
      nested, now, halt := OthersReaction(p, accepts);
      hu := false;
    }

    // ----- a round -----------------------------------------------------------------------------

    static method Invite() returns (players: seq<Player>)
      ensures |players| == 4
      ensures forall i :: 0 <= i < 4 ==> players[i].Framed() && fresh(players[i].Repr())
      ensures forall i, j :: 0 <= i < 4 && 0 <= j < 4 && i != j ==> players[i].Repr() !! players[j].Repr()
    {
      hide EmptyView;
      players := [];
      for n := 0 to 4
        invariant |players| == n
        invariant forall i :: 0 <= i < n ==> players[i].Framed() && fresh(players[i].Repr())
        invariant forall i, j :: 0 <= i < n && 0 <= j < n && i != j ==> players[i].Repr() !! players[j].Repr()
      {
        var p := new Player();
        assert forall i :: 0 <= i < n ==> players[i].Repr() !! p.Repr();
        players := players + [p];
      }
    }

    constructor ()
      ensures Built() && fresh(wall) && fresh(Cells())
    {
      var invited := Invite();
      players := invited;
      wall := new Mj[SIZE](_ => NULL_MJ);
      take, discarded, winner, answers, history, hands, talks, heard := 0, NULL_MJ, -1, NoAnswers(), [], [], [], Silent();
    }

    method GameInit()
      requires Built()
      modifies this, Cells()
      ensures Valid() && winner == -1 && take == 0 && discarded == NULL_MJ
      ensures forall i :: 0 <= i < 4 ==> Look().seats[i] == EmptyView()
    {
      hide EmptyView;
      winner, take, discarded := -1, 0, NULL_MJ;
      for i := 0 to 4
        invariant winner == -1 && take == 0 && discarded == NULL_MJ
        invariant forall j :: 0 <= j < i ==> players[j].Valid()
        invariant forall j :: 0 <= j < i ==> players[j].Look() == EmptyView()
      {
        players[i].Reset();
      }
    }

    method ShuffleWall(start: nat, rand: seq<int>)
      requires |rand| == SIZE && Valid() && start < 4 && take == 0 && discarded == NULL_MJ
      requires forall i :: 0 <= i < 4 ==> Look().seats[i] == EmptyView()
      modifies wall
      ensures Valid() && DealtUpTo(wall[..], Look(), start, 0) && TheSet(multiset(wall[..])) && Shuffled(wall[..], rand)
    {
      hide DealtUpTo, TheSet, Shuffled, EmptyView;
      ghost var s := Look();
      Shuffle(wall, rand);
      assert Look().seats == s.seats;
      BeforeDeal(wall[..], Look(), start);
    }

    /** first is the dealt table that rand() and the first seat lead to, and the clients have
        been told of it. */
    ghost predicate BegunWith(first: Config, start: nat, rand: seq<int>)
      reads this`hands, wall
    {
      && FreshRound(first.snap) && first.phase == ToDraw(start, false) && HandsSent(first.snap)
      && Shuffled(wall[..], rand) && DealtFrom(wall[..], start, first.snap)
    }

    /** game_init, shuffle and deal. */
    method StartRound(start: nat, rand: seq<int>, replies: Answers)
      requires Built() && start < 4 && |rand| == SIZE
      modifies this, wall, Cells()
      ensures At(ToDraw(start, false)) && winner == -1
      ensures history == [Config(Look(), ToDraw(start, false))] && BegunWith(history[0], start, rand)
      ensures answers == replies && heard == Silent() && take <= 72
    {
      hide Framed, Cells, Seats, DealtUpTo, TheSet, Shuffled, DealtFrom, Conserved, FreshRound, HandsSent, EmptyView, AllWaiting;
      GameInit();
      ShuffleWall(start, rand);
      Deal(start);
      FreshWaits(Look());
      BeginRecord(start, replies);
    }

    /** The record of a round begins with the dealt table. */
    method BeginRecord(start: nat, replies: Answers)
      requires Valid() && Conserved(Look()) && AllWaiting(Look()) && discarded == NULL_MJ && start < 4
      modifies this`answers, this`history, this`talks, this`heard
      ensures At(ToDraw(start, false)) && answers == replies && heard == Silent()
      ensures history == [Config(Look(), ToDraw(start, false))] && Look() == old(Look())
    {
      hide Framed, Cells, Seats, Conserved, AllWaiting;
      answers := replies;
      history, talks, heard := [Config(Look(), ToDraw(start, false))], [], Silent();
      FirstState(Look(), start);
    }

    /** draw_n_discard. */
    method DrawNDiscard(p: nat) returns (hu: bool, accepts: set<Offer>, halt: Halt)
      requires At(ToDraw(p, false)) && p < 4 && winner == -1 && heard == Silent()
      modifies this`take, this`discarded, this`winner, this`history, this`talks, this`heard, Cells()
      ensures old(history) <= history && Logged() && Valid() && (halt.Running? || Ended(halt))
      ensures hu ==> halt.Running? && winner == p && At(Over(p))
      ensures !hu ==> winner == -1
      ensures !hu && halt.Running? ==> At(Thrown(p, accepts)) && heard == Silent() && take > old(take)
      ensures halt.OffTheWall? && old(take) < SIZE ==> history != [] && DrawIsDue(history[|history| - 1])
      ensures !halt.MisplacedEat?
    {
      hide Framed, Cells, Seats, Reaches, Energy, DrawOutcome, Logged, Ended, SelfHuOf, QuietGangOf, MayGang, JustDrawn, AfterWinTest, DeclaresHu;
      LastReached(history, Config(Look(), ToDraw(p, false)));
      hu, accepts, halt := false, {}, OffTheWall;
      var ok := DrawTurn(p, false);
      if !ok {
        return;
      }
      halt := Running;
      hu := IsHu(p, false);
      if hu {
        return;
      }
      var quiet := AskQuietGang(p);
      GangIsDeclared(Config(Look(), ToDiscard(p, false)), answers, |talks|);
      if quiet {
        QuietGangTurn(p);
        halt := QuietGang;
      } else {
        accepts, halt := Discard(p, false);
      }
    }

    /** The loop of game over the turns, from the dealt table on. */
    method PlayOut(start: nat) returns (halt: Halt)
      requires At(ToDraw(start, false)) && start < 4 && winner == -1 && take < SIZE && heard == Silent()
      modifies this`take, this`discarded, this`winner, this`history, this`talks, this`heard, Cells()
      ensures old(history) <= history && Logged() && Valid()
      ensures halt.OffTheWall? ==> history != [] && DrawIsDue(history[|history| - 1])
      ensures halt.Running? && winner == -1 ==> take == SIZE && exists p: nat :: p < 4 && At(ToDraw(p, false))
      ensures halt.Running? && winner != -1 ==> 0 <= winner < 4 && At(Over(winner))
      ensures halt.Running? || Ended(halt)
    {
      hide Framed, Cells, Seats, Reaches, Energy, DrawOutcome, Logged, Ended, SelfHuOf;
      hide QuietGangOf, MayGang, JustDrawn, AfterWinTest, DrawIsDue;
      ghost var before := history;
      var p := start;
      while winner == -1
        invariant Valid() && p < 4
        invariant before <= history && Logged()
        invariant winner == -1 ==> take < SIZE
        invariant winner == -1 ==> At(ToDraw(p, false)) && heard == Silent()
        invariant winner != -1 ==> 0 <= winner < 4 && At(Over(winner))
        decreases winner == -1, SIZE - take
      {
        var hu, accepts;
        hu, accepts, halt := DrawNDiscard(p);
        if hu {
          break;
        }
        if halt != Running {
          return;
        }
        var now;
        hu, now, halt := OthersReaction(p, accepts);
        if halt != Running {
          return;
        }
        if hu {
          break;
        }
        p := SeatAfter(now, 1);
        if take == SIZE {
          break;
        }
      }
      halt := Running;
    }

    /** Where the loop ends the round is over, or has stopped. */
    lemma RoundEnds(halt: Halt)
      requires Valid() && Logged()
      requires halt.Running? && winner == -1 ==> take == SIZE && exists p: nat :: p < 4 && At(ToDraw(p, false))
      requires halt.Running? && winner != -1 ==> 0 <= winner < 4 && At(Over(winner))
      requires halt.Running? || Ended(halt)
      requires halt.OffTheWall? ==> history != [] && DrawIsDue(history[|history| - 1])
      ensures Complete(history, Look(), heard, halt, answers)
    {
      hide Framed, Cells, Seats, Reaches, LegalRun, Obeyed, Ending, Stops, DrawIsDue;
      if halt.Running? {
        if winner == -1 {
          var p: nat :| p < 4 && At(ToDraw(p, false));
          LastReached(history, Config(Look(), ToDraw(p, false)));
        } else {
          LastReached(history, Config(Look(), Over(winner)));
        }
      }
    }

    /** One round of game. If it does not leave defined behaviour, it follows the rules of
        Play from a dealt table to a win, after which no tile moves, or until the
        wall is empty. What it does is determined by rand, start and the replies. */
    method PlayRound(start: nat, rand: seq<int>, replies: Answers) returns (halt: Halt)
      requires Built() && start < 4 && |rand| == SIZE
      modifies this, wall, Cells()
      ensures halt.Running? && winner == -1 ==> take == SIZE && exists p: nat :: p < 4 && At(ToDraw(p, false))
      ensures halt.Running? && winner != -1 ==> 0 <= winner < 4 && At(Over(winner))
      ensures Logged() && history != [] && BegunWith(history[0], start, rand)
      ensures halt.Running? || Ended(halt)
      ensures answers == replies && Valid() && Complete(history, Look(), heard, halt, replies)
    {
      hide Framed, Cells, Seats, Reaches, Logged, Ended, BegunWith, DrawIsDue, Complete;
      StartRound(start, rand, replies);
      ghost var first := history[0];
      halt := PlayOut(start);
      RoundEnds(halt);
      assert history[0] == first;
    }
  }
}
