/** The deal as a value: which tile goes where, and why replacing flowers ends. */
module Dealing {
  import opened Tiles
  import opened Winning
  import opened Melds
  import opened Wall
  import opened Seats
  import opened Snapshots

  // ----- sixteen tiles to each seat ---------------------------------------------

  /** The place on the wall of the tile that seat q gets into cell c: rounds of four
      tiles to each of the four seats, from seat start on. */
  function DealIndex(start: nat, q: nat, c: nat): nat
    requires start < 4 && q < 4
  {
    c / 4 * 16 + (q + 4 - start) % 4 * 4 + c % 4
  }

  /** No two cells share a tile. */
  lemma DealIndexInjective(start: nat, q: nat, c: nat, q': nat, c': nat)
    requires start < 4 && q < 4 && q' < 4 && DealIndex(start, q, c) == DealIndex(start, q', c')
    ensures q == q' && c == c'
  {
    var i := DealIndex(start, q, c);
    DealIndexDecodes(start, q, c);
    DealIndexDecodes(start, q', c');
  }

  lemma DealIndexDecodes(start: nat, q: nat, c: nat)
    requires start < 4 && q < 4
    ensures var i := DealIndex(start, q, c); i / 16 == c / 4 && i % 4 == c % 4 && SeatAfter(start, i % 16 / 4) == q
  {
    var add := (q + 4 - start) % 4;
    assert DealIndex(start, q, c) == 16 * (c / 4) + (4 * add + c % 4);
    assert DealIndex(start, q, c) % 16 == 4 * add + c % 4;
    assert DealIndex(start, q, c) == 4 * (4 * (c / 4) + add) + c % 4;
  }

  lemma DealIndexOfStep(start: nat, time: nat, add: nat, grab: nat)
    requires start < 4 && add < 4 && grab < 4
    ensures DealIndex(start, SeatAfter(start, add), time * 4 + grab) == time * 16 + add * 4 + grab
  {
  }

  /** The first n tiles of the wall w are dealt, into cells empty before. */
  ghost predicate DealtUpTo(w: seq<Mj>, s: Snap, start: nat, n: nat) {
    && start < 4 && |w| == SIZE && n <= 64 && |s.seats| == 4
    && s.rest == w[n..] && s.discarded == NULL_MJ
    && forall q :: 0 <= q < 4 ==> SeatDealt(w, s.seats[q], start, q, n)
  }

  ghost predicate SeatDealt(w: seq<Mj>, v: View, start: nat, q: nat, n: nat)
    requires start < 4 && q < 4 && |w| == SIZE && n <= 64
  {
    && v.nc == 16 && v.flowers == [] && v.door == [] && v.sea == [] && |v.decks| == 20
    && (forall c :: 16 <= c < 20 ==> v.decks[c] == NULL_MJ)
    && forall c :: 0 <= c < 16 ==> v.decks[c] == if DealIndex(start, q, c) < n then w[DealIndex(start, q, c)] else NULL_MJ
  }

  lemma DealStep(w: seq<Mj>, s: Snap, start: nat, time: nat, add: nat, grab: nat)
    requires time < 4 && add < 4 && grab < 4 && start < 4
    requires DealtUpTo(w, s, start, time * 16 + add * 4 + grab)
    ensures |s.seats[SeatAfter(start, add)].decks| == 20 && s.rest != []
    ensures s.seats[SeatAfter(start, add)].decks[time * 4 + grab] == NULL_MJ
    ensures DealtUpTo(w, Took(s, SeatAfter(start, add), time * 4 + grab), start, time * 16 + add * 4 + grab + 1)
  {
    var n, p, i := time * 16 + add * 4 + grab, SeatAfter(start, add), time * 4 + grab;
    DealIndexOfStep(start, time, add, grab);
    assert SeatDealt(w, s.seats[p], start, p, n);
    forall q | 0 <= q < 4
      ensures SeatDealt(w, Took(s, p, i).seats[q], start, q, n + 1)
    {
      assert SeatDealt(w, s.seats[q], start, q, n);
      forall c | 0 <= c < 16 && DealIndex(start, q, c) == n
        ensures q == p && c == i
      {
        DealIndexInjective(start, q, c, p, i);
      }
    }
  }

  /** A tile taken into an empty cell stays on the table. */
  lemma TookConserves(s: Snap, p: nat, i: nat)
    requires Conserved(s) && p < 4 && i < |s.seats[p].decks| && s.seats[p].decks[i] == NULL_MJ && s.rest != []
    ensures Conserved(Took(s, p, i))
  {
    hide Bag, TheSet;
    var v := s.seats[p];
    RestIsTile(s);
    BagOfFilled(v.decks, i, s.rest[0]);
    DrewBags(s.rest, 0, v.flowers, Bag(v.decks), multiset(v.door), multiset(v.sea), Pending(s.discarded));
    assert v.flowers + s.rest[..0] == v.flowers;
    ExchangeConserves(s, Took(s, p, i), p);
  }

  // ----- flowers replaced ---------------------------------------------------------------

  ghost function FlowerTotal(s: Snap): nat
    requires |s.seats| == 4
  {
    |s.seats[0].flowers| + |s.seats[1].flowers| + |s.seats[2].flowers| + |s.seats[3].flowers|
  }

  /** A seat after the deal: sixteen tiles, flowers perhaps among them. */
  ghost predicate DealtSeat(v: View) {
    && v.nc == 16 && v.door == [] && v.sea == [] && |v.decks| == 20
    && (forall c :: 0 <= c < 16 ==> v.decks[c] != NULL_MJ)
    && (forall c :: 16 <= c < 20 ==> v.decks[c] == NULL_MJ)
    && (forall i :: 0 <= i < |v.flowers| ==> Flower(v.flowers[i]))
  }

  ghost predicate Dealt(s: Snap) {
    && Conserved(s) && s.discarded == NULL_MJ
    && (forall q :: 0 <= q < 4 ==> DealtSeat(s.seats[q]))
    && |s.rest| + FlowerTotal(s) == 80
  }

  ghost predicate Clean(v: View) {
    forall c :: 0 <= c < |v.decks| ==> v.decks[c].suit != FLOWER
  }

  /** Every tile in a hand is a real one. */
  lemma HandIsReal(s: Snap, p: nat, i: nat)
    requires Conserved(s) && p < 4 && i < |s.seats[p].decks| && s.seats[p].decks[i] != NULL_MJ
    ensures s.seats[p].decks[i] in Bag(s.seats[p].decks)
    ensures Playable(s.seats[p].decks[i]) || Flower(s.seats[p].decks[i])
  {
    var m := s.seats[p].decks[i];
    assert m in multiset(s.seats[p].decks);
    SeatIsPart(s, p);
    assert m in TableBag(s);
  }

  /** The flowers of a seat, with one more tile of its hand perhaps. */
  ghost function Share(v: View, extra: multiset<Mj>): multiset<Mj> {
    multiset(v.flowers) + extra
  }

  lemma ShareIsHeld(v: View, extra: multiset<Mj>)
    requires extra <= Bag(v.decks)
    ensures Share(v, extra) <= SeatBag(v)
  {
  }

  lemma SharesAreHeld(r: multiset<Mj>, u: multiset<Mj>, v: multiset<Mj>, w: multiset<Mj>, x: multiset<Mj>,
                      a: multiset<Mj>, b: multiset<Mj>, c: multiset<Mj>, d: multiset<Mj>)
    requires a <= u && b <= v && c <= w && d <= x
    ensures a + b + c + d <= r + (u + v + w + x)
  {
  }

  /** While a flower is still in a hand, fewer than eight have been put aside. */
  lemma FlowersLeft(s: Snap, p: nat, i: nat)
    requires Dealt(s) && p < 4 && i < 20 && s.seats[p].decks[i].suit == FLOWER
    ensures FlowerTotal(s) < 8 && |s.seats[p].flowers| < 8 && |s.rest| > 72
    ensures Flower(s.seats[p].decks[i])
  {
    hide TheSet, TableBag, Bag, FlowerTotal;
    HandIsReal(s, p, i);
    FewerThanEight(s, p, s.seats[p].decks[i]);
    PartOfTotal(s, p);
  }

  lemma PartOfTotal(s: Snap, p: nat)
    requires |s.seats| == 4 && p < 4
    ensures |s.seats[p].flowers| <= FlowerTotal(s)
  {
  }

  lemma FewerThanEight(s: Snap, p: nat, m: Mj)
    requires Conserved(s) && p < 4 && m in Bag(s.seats[p].decks) && Flower(m)
    requires forall q :: 0 <= q < 4 ==> DealtSeat(s.seats[q])
    ensures FlowerTotal(s) < 8
  {
    hide SeatBag, Bag, TheSet;
    var one := multiset{m};
    var none: multiset<Mj> := multiset{};
    var a := Share(s.seats[0], if p == 0 then one else none);
    var b := Share(s.seats[1], if p == 1 then one else none);
    var c := Share(s.seats[2], if p == 2 then one else none);
    var d := Share(s.seats[3], if p == 3 then one else none);
    ShareIsHeld(s.seats[0], if p == 0 then one else none);
    ShareIsHeld(s.seats[1], if p == 1 then one else none);
    ShareIsHeld(s.seats[2], if p == 2 then one else none);
    ShareIsHeld(s.seats[3], if p == 3 then one else none);
    SharesAreHeld(multiset(s.rest) + Pending(s.discarded),
                  SeatBag(s.seats[0]), SeatBag(s.seats[1]), SeatBag(s.seats[2]), SeatBag(s.seats[3]), a, b, c, d);
    forall x | x in a + b + c + d
      ensures Flower(x)
    {
      assert x in a || x in b || x in c || x in d;
      assert x == m || x in s.seats[0].flowers || x in s.seats[1].flowers || x in s.seats[2].flowers || x in s.seats[3].flowers;
    }
    AtMostEightFlowers(a + b + c + d, TableBag(s));
    assert |a + b + c + d| == FlowerTotal(s) + 1;
  }

  /** Replacing one flower keeps everything and puts one more aside. */
  lemma FlowerReplaced(s: Snap, p: nat, i: nat)
    requires Dealt(s) && p < 4 && i < 20 && s.seats[p].decks[i].suit == FLOWER
    ensures s.rest != [] && |s.seats[p].decks| == 20
    ensures Dealt(Took(Stashed(s, p, i), p, i))
    ensures FlowerTotal(Took(Stashed(s, p, i), p, i)) == FlowerTotal(s) + 1
  {
    hide TheSet, TableBag, Flower, FlowerTotal;
    FlowersLeft(s, p, i);
    RestIsTile(s);
    ReplacedConserves(s, p, i);
    ReplacedSeat(s.seats[p], i, s.rest[0]);
    ReplacedTotal(s, p, i);
  }

  lemma RestIsTile(s: Snap)
    requires Conserved(s) && s.rest != []
    ensures s.rest[0] != NULL_MJ
  {
    RestIsReal(s, 0);
  }

  lemma ReplacedTotal(s: Snap, p: nat, i: nat)
    requires |s.seats| == 4 && p < 4 && i < |s.seats[p].decks| && s.rest != []
    ensures FlowerTotal(Took(Stashed(s, p, i), p, i)) == FlowerTotal(s) + 1
  {
  }

  lemma ReplacedSeat(v: View, i: nat, m: Mj)
    requires DealtSeat(v) && i < 20 && Flower(v.decks[i]) && m != NULL_MJ
    ensures DealtSeat(v.(decks := v.decks[i := m], flowers := v.flowers + [v.decks[i]]))
  {
  }

  lemma ReplacedConserves(s: Snap, p: nat, i: nat)
    requires Conserved(s) && p < 4 && i < |s.seats[p].decks| && s.seats[p].decks[i] != NULL_MJ && s.rest != []
    ensures Conserved(Took(Stashed(s, p, i), p, i))
  {
    hide TheSet, Bag;
    var v := s.seats[p];
    var m := v.decks[i];
    RestIsTile(s);
    BagOfReplaced(v.decks, i, s.rest[0]);
    assert s.rest == [s.rest[0]] + s.rest[1..];
    ReplacedBags(multiset(s.rest[1..]), multiset{s.rest[0]}, multiset{m}, Bag(v.decks), Bag(v.decks[i := s.rest[0]]),
                 multiset(v.door), multiset(v.flowers), multiset(v.sea), Pending(s.discarded));
    assert multiset(v.flowers + [m]) == multiset(v.flowers) + multiset{m};
    ExchangeConserves(s, Took(Stashed(s, p, i), p, i), p);
  }

  lemma BagOfReplaced(s: seq<Mj>, i: nat, m: Mj)
    requires i < |s| && s[i] != NULL_MJ && m != NULL_MJ
    ensures Bag(s[i := m]) + multiset{s[i]} == Bag(s) + multiset{m}
  {
  }

  lemma ReplacedBags(rest: multiset<Mj>, taken: multiset<Mj>, gone: multiset<Mj>, hand: multiset<Mj>, after: multiset<Mj>,
                     door: multiset<Mj>, flowers: multiset<Mj>, sea: multiset<Mj>, pending: multiset<Mj>)
    requires after + gone == hand + taken
    ensures rest + pending + (after + door + (flowers + gone) + sea)
      == (taken + rest) + pending + (hand + door + flowers + sea)
  {
    assert rest + pending + (after + door + (flowers + gone) + sea) == (after + gone) + (rest + pending + door + flowers + sea);
  }

  /** A clean seat holds sixteen playable tiles. */
  lemma CleanHand(s: Snap, p: nat)
    requires Dealt(s) && p < 4 && Clean(s.seats[p])
    ensures Hand(s.seats[p].decks, 16)
  {
    forall c | 0 <= c < 16
      ensures Playable(s.seats[p].decks[c])
    {
      HandIsReal(s, p, c);
    }
  }

  /** The visits from one number to another found their seats clean, and they still are. */
  ghost predicate CleanVisits(seats: seq<View>, start: nat, first: nat, last: nat) {
    |seats| == 4 && forall visit: nat :: first <= visit < last ==> Clean(seats[SeatAfter(start, visit)])
  }

  lemma NoVisits(seats: seq<View>, start: nat, add: nat)
    requires |seats| == 4
    ensures CleanVisits(seats, start, add, add)
  {
  }

  lemma OneMoreVisit(seats: seq<View>, start: nat, first: nat, last: nat)
    requires CleanVisits(seats, start, first, last) && Clean(seats[SeatAfter(start, last)])
    ensures CleanVisits(seats, start, first, last + 1)
  {
  }

  /** Four visits in a row cover the four seats. */
  lemma AllVisited(seats: seq<View>, start: nat, first: nat)
    requires CleanVisits(seats, start, first, first + 4)
    ensures forall q :: 0 <= q < 4 ==> Clean(seats[q])
  {
    hide Clean;
    forall q | 0 <= q < 4
      ensures Clean(seats[q])
    {
      var visit := first + 3 - (start + first + 3 + 4 - q) % 4;
      assert SeatAfter(start, visit) == q;
    }
  }

  // ----- the deal from beginning to end --------------------------------------------

  /** Before the deal every tile is on the wall. */
  lemma FreshDeal(w: seq<Mj>, s: Snap, start: nat)
    requires DealtUpTo(w, s, start, 0) && TheSet(multiset(w))
    ensures Conserved(s)
  {
    hide TheSet, SeatBag;
    EmptySeat(s.seats[0], w, start, 0);
    EmptySeat(s.seats[1], w, start, 1);
    EmptySeat(s.seats[2], w, start, 2);
    EmptySeat(s.seats[3], w, start, 3);
    assert w[0..] == w;
    assert TableBag(s) == multiset(w);
  }

  lemma EmptySeat(v: View, w: seq<Mj>, start: nat, q: nat)
    requires start < 4 && q < 4 && |w| == SIZE && SeatDealt(w, v, start, q, 0)
    ensures SeatBag(v) == multiset{}
  {
  }

  /** After it every seat has its sixteen tiles. */
  lemma AllDealt(w: seq<Mj>, s: Snap, start: nat)
    requires DealtUpTo(w, s, start, 64) && Conserved(s) && TheSet(multiset(w))
    ensures Dealt(s) && FlowerTotal(s) == 0
  {
    hide TableBag, TheSet;
    forall q | 0 <= q < 4
      ensures DealtSeat(s.seats[q]) && s.seats[q].flowers == []
    {
      assert SeatDealt(w, s.seats[q], start, q, 64);
      forall c | 0 <= c < 16
        ensures s.seats[q].decks[c] != NULL_MJ
      {
        assert 0 <= DealIndex(start, q, c) < 64;
        WallTileIsReal(w, DealIndex(start, q, c));
      }
    }
  }

  lemma WallTileIsReal(w: seq<Mj>, k: nat)
    requires TheSet(multiset(w)) && k < |w|
    ensures w[k] != NULL_MJ
  {
    assert w[k] in multiset(w);
  }

  /** The sort of one hand moves its tiles about. */
  ghost predicate SeatSorted(v: View, w: View) {
    && w == v.(decks := w.decks)
    && |w.decks| == |v.decks|
    && SortedHand(w.decks, 16)
    && Bag(w.decks) == Bag(v.decks)
  }

  ghost predicate SortedDeal(s: Snap, t: Snap) {
    && |s.seats| == 4 && |t.seats| == 4 && t == s.(seats := t.seats)
    && forall q :: 0 <= q < 4 ==> SeatSorted(s.seats[q], t.seats[q])
  }

  lemma DealtHands(s: Snap)
    requires Dealt(s) && forall q :: 0 <= q < 4 ==> Clean(s.seats[q])
    ensures |s.seats| == 4 && forall q :: 0 <= q < 4 ==> Hand(s.seats[q].decks, 16)
  {
    hide Clean, Hand, TableBag, TheSet, DealtSeat;
    forall q | 0 <= q < 4
      ensures Hand(s.seats[q].decks, 16)
    {
      CleanHand(s, q);
    }
  }

  /** At most eight tiles were drawn beyond the sixty-four. */
  lemma DealtWall(s: Snap)
    requires Dealt(s) && FlowerTotal(s) <= 8
    ensures |s.rest| >= 72
  {
  }

  /** How a round starts: sixteen sorted tiles each, nothing melded or thrown away yet. */
  ghost predicate FreshRound(s: Snap) {
    && AllWaiting(s) && s.discarded == NULL_MJ
    && forall q :: 0 <= q < 4 ==> s.seats[q].nc == 16 && s.seats[q].door == [] && s.seats[q].sea == []
  }

  lemma FreshWaits(s: Snap)
    requires FreshRound(s)
    ensures AllWaiting(s) && s.discarded == NULL_MJ
  {
  }

  lemma SortedDealWaits(s: Snap, t: Snap)
    requires Dealt(s) && SortedDeal(s, t)
    ensures Conserved(t) && FreshRound(t)
  {
    hide TheSet, Bag;
    forall q | 0 <= q < 4
      ensures Waiting(t.seats[q]) && SeatBag(t.seats[q]) == SeatBag(s.seats[q])
    {
      assert DealtSeat(s.seats[q]) && SeatSorted(s.seats[q], t.seats[q]);
    }
    assert TableBag(t) == TableBag(s);
  }

  /** The table that game_init and shuffle leave. */
  lemma BeforeDeal(w: seq<Mj>, s: Snap, start: nat)
    requires |w| == SIZE && start < 4 && s.rest == w[0..] && s.discarded == NULL_MJ && |s.seats| == 4
    requires forall q :: 0 <= q < 4 ==> s.seats[q] == EmptyView()
    ensures DealtUpTo(w, s, start, 0)
  {
  }

  // ----- which tile goes to whom -----------------------------------------------------------

  /** The t-th look at a cell: seats from start on around the table, and in each the cells
      from the first to the last. A flower there is put aside, and the next tile of the wall
      takes its place. */
  ghost function Tick(s: Snap, start: nat, t: nat): (r: Snap) {
    var p, i := SeatAfter(start, t / 20), t % 20;
    if |s.seats| == 4 && |s.seats[p].decks| == 20 && s.seats[p].decks[i].suit == FLOWER && s.rest != [] then
      Took(Stashed(s, p, i), p, i)
    else s
  }

  ghost function Ticks(s: Snap, start: nat, n: nat): Snap {
    if n == 0 then s else Tick(Ticks(s, start, n - 1), start, n - 1)
  }

  lemma TickAt(s: Snap, start: nat, add: nat, i: nat)
    requires i < 20 && |s.seats| == 4 && |s.seats[SeatAfter(start, add)].decks| == 20 && s.rest != []
    ensures Tick(s, start, 20 * add + i) ==
      if s.seats[SeatAfter(start, add)].decks[i].suit == FLOWER then
        Took(Stashed(s, SeatAfter(start, add), i), SeatAfter(start, add), i)
      else s
  {
    assert (20 * add + i) / 20 == add && (20 * add + i) % 20 == i;
  }

  lemma DealtShape(s: Snap, p: nat)
    requires Dealt(s) && FlowerTotal(s) <= 8 && p < 4
    ensures |s.seats| == 4 && |s.seats[p].decks| == 20 && s.rest != []
  {
  }

  ghost predicate AllClean(s: Snap) {
    |s.seats| == 4 && forall q :: 0 <= q < 4 ==> Clean(s.seats[q])
  }

  /** What deal makes of the wall w when seat start begins: the sixty-four tiles in turn,
      so many looks for flowers that none is left, and the sorts. */
  ghost predicate DealtFrom(w: seq<Mj>, start: nat, s: Snap) {
    exists dealt, n: nat :: DealtBy(w, start, dealt, n, s)
  }

  ghost predicate DealtBy(w: seq<Mj>, start: nat, dealt: Snap, n: nat, s: Snap) {
    DealtUpTo(w, dealt, start, 64) && AllClean(Ticks(dealt, start, n)) && SortedDeal(Ticks(dealt, start, n), s)
  }

  lemma {:induction false} CleanStays(s: Snap, start: nat, n: nat, m: nat)
    requires AllClean(Ticks(s, start, n)) && n <= m
    ensures Ticks(s, start, m) == Ticks(s, start, n)
    decreases m
  {
    if n < m {
      CleanStays(s, start, n, m - 1);
      var t, p := Ticks(s, start, n), SeatAfter(start, (m - 1) / 20);
      assert Clean(t.seats[p]);
    }
  }

  lemma SeatDealtUnique(w: seq<Mj>, v: View, v': View, start: nat, q: nat)
    requires start < 4 && q < 4 && |w| == SIZE && SeatDealt(w, v, start, q, 64) && SeatDealt(w, v', start, q, 64)
    ensures v == v'
  {
    assert forall c :: 0 <= c < 20 ==> v.decks[c] == v'.decks[c];
    assert v.decks == v'.decks;
  }

  lemma DealtUnique(w: seq<Mj>, s: Snap, s': Snap, start: nat)
    requires DealtUpTo(w, s, start, 64) && DealtUpTo(w, s', start, 64)
    ensures s == s'
  {
    hide SeatDealt;
    forall q | 0 <= q < 4
      ensures s.seats[q] == s'.seats[q]
    {
      SeatDealtUnique(w, s.seats[q], s'.seats[q], start, q);
    }
    assert s.seats == s'.seats;
  }

  lemma SortedDealUnique(t: Snap, s: Snap, s': Snap)
    requires SortedDeal(t, s) && SortedDeal(t, s')
    ensures s == s'
  {
    hide SortedHand, Bag;
    forall q | 0 <= q < 4
      ensures s.seats[q] == s'.seats[q]
    {
      assert SeatSorted(t.seats[q], s.seats[q]) && SeatSorted(t.seats[q], s'.seats[q]);
      SortedHandUnique(s.seats[q].decks, s'.seats[q].decks, 16);
    }
    assert s.seats == s'.seats;
  }

  /** The wall and the first seat determine the deal: every hand cell by cell, every flower
      row in its order, and what is left of the wall. */
  lemma DealIsDetermined(w: seq<Mj>, start: nat, s: Snap, s': Snap)
    requires DealtFrom(w, start, s) && DealtFrom(w, start, s')
    ensures s == s'
  {
    hide DealtUpTo, SortedDeal, Tick, Clean;
    var dealt, n: nat :| DealtBy(w, start, dealt, n, s);
    var dealt', n': nat :| DealtBy(w, start, dealt', n', s');
    DealtUnique(w, dealt, dealt', start);
    CleanStays(dealt, start, n, if n <= n' then n' else n);
    CleanStays(dealt, start, n', if n <= n' then n' else n);
    SortedDealUnique(Ticks(dealt, start, n), s, s');
  }

  // ----- the same in terms of the wall -------------------------------------------------------------

  /** The sixteen tiles of the wall for the k-th seat: four in each of four rounds. */
  ghost function TilesFor(w: seq<Mj>, k: nat): (tiles: seq<Mj>)
    requires k < 4 && |w| >= 64
    ensures |tiles| == 16
  {
    seq(16, c requires 0 <= c < 16 => w[16 * (c / 4) + 4 * k + c % 4])
  }

  lemma DealtTiles(w: seq<Mj>, s: Snap, start: nat, k: nat)
    requires DealtUpTo(w, s, start, 64) && k < 4
    ensures var v := s.seats[SeatAfter(start, k)];
      && v.decks == TilesFor(w, k) + seq(4, _ => NULL_MJ) && v.flowers == [] && v.door == [] && v.sea == [] && v.nc == 16
      && s.rest == w[64..]
  {
    var q := SeatAfter(start, k);
    assert SeatDealt(w, s.seats[q], start, q, 64);
    assert (q + 4 - start) % 4 == k;
    forall c | 0 <= c < 16
      ensures DealIndex(start, q, c) == 16 * (c / 4) + 4 * k + c % 4
    {
    }
  }

  lemma BagOfDealt(tiles: seq<Mj>)
    requires |tiles| == 16 && forall c :: 0 <= c < 16 ==> tiles[c] != NULL_MJ
    ensures Bag(tiles + seq(4, _ => NULL_MJ)) == multiset(tiles)
  {
    EmptyCells(seq(4, _ => NULL_MJ));
    BagOfConcat(tiles, seq(4, _ => NULL_MJ));
    assert NULL_MJ !in tiles;
  }

  /** Without a flower among the first sixty-four, the k-th seat from start on holds exactly
      its sixteen tiles of the wall, and the wall goes on with the sixty-fifth. */
  lemma DealWithoutFlowers(w: seq<Mj>, start: nat, s: Snap, k: nat)
    requires DealtFrom(w, start, s) && k < 4 && TheSet(multiset(w))
    requires forall i :: 0 <= i < 64 ==> w[i].suit != FLOWER
    ensures |w| == SIZE && |s.seats| == 4 && s.rest == w[64..]
    ensures var v := s.seats[SeatAfter(start, k)]; Bag(v.decks) == multiset(TilesFor(w, k)) && v.flowers == []
  {
    hide TheSet, Tick, Bag, SortedHand;
    var dealt, n: nat :| DealtBy(w, start, dealt, n, s);
    forall q | 0 <= q < 4
      ensures Clean(dealt.seats[q])
    {
      assert SeatDealt(w, dealt.seats[q], start, q, 64);
    }
    CleanStays(dealt, start, 0, n);
    DealtTiles(w, dealt, start, k);
    forall c | 0 <= c < 16
      ensures TilesFor(w, k)[c] != NULL_MJ
    {
      WallTileIsReal(w, 16 * (c / 4) + 4 * k + c % 4);
    }
    BagOfDealt(TilesFor(w, k));
    assert SeatSorted(dealt.seats[SeatAfter(start, k)], s.seats[SeatAfter(start, k)]);
  }

  // ----- the order in which flowers are replaced --------------------------------------------------

  ghost predicate Sized(s: Snap) {
    |s.seats| == 4 && forall q :: 0 <= q < 4 ==> |s.seats[q].decks| == 20
  }

  /** The cell that the t-th look is at. */
  ghost function CellAt(s: Snap, start: nat, t: nat): Mj
    requires Sized(s)
  {
    s.seats[SeatAfter(start, t / 20)].decks[t % 20]
  }

  /** Flowers lie only in the cells of these looks, of the first eighty. */
  ghost predicate FlowersIn(s: Snap, start: nat, places: set<nat>) {
    Sized(s) && forall t :: 0 <= t < 80 && CellAt(s, start, t).suit == FLOWER ==> t in places
  }

  lemma EightyLooks(t: nat)
    ensures t / 20 == 4 * (t / 80) + t % 80 / 20 && t % 20 == t % 80 % 20
  {
    var m, u := t / 80, t % 80;
    assert t == 20 * (4 * m + u / 20) + u % 20;
  }

  lemma SeatAgain(start: nat, m: nat, x: nat)
    ensures SeatAfter(start, 4 * m + x) == SeatAfter(start, x)
  {
    assert start + (4 * m + x) == 4 * m + (start + x);
  }

  /** Eighty looks lead around the table. */
  lemma LookAgain(s: Snap, start: nat, t: nat)
    requires Sized(s)
    ensures CellAt(s, start, t) == CellAt(s, start, t % 80)
  {
    hide SeatAfter;
    EightyLooks(t);
    SeatAgain(start, t / 80, t % 80 / 20);
  }

  lemma {:induction false} NothingToReplace(s: Snap, start: nat, a: nat, b: nat, places: set<nat>)
    requires a <= b && FlowersIn(Ticks(s, start, a), start, places) && forall t :: a <= t < b ==> t % 80 !in places
    ensures Ticks(s, start, b) == Ticks(s, start, a)
    decreases b
  {
    if a < b {
      NothingToReplace(s, start, a, b - 1, places);
      LookAgain(Ticks(s, start, a), start, b - 1);
    }
  }

  ghost function Replaced(s: Snap, start: nat, t: nat): Snap
    requires Sized(s) && s.rest != []
  {
    Took(Stashed(s, SeatAfter(start, t / 20), t % 20), SeatAfter(start, t / 20), t % 20)
  }

  lemma OneReplaced(s: Snap, start: nat, t: nat, places: set<nat>)
    requires FlowersIn(s, start, places) && s.rest != [] && CellAt(s, start, t).suit == FLOWER
    ensures Tick(s, start, t) == Replaced(s, start, t)
    ensures FlowersIn(Replaced(s, start, t), start, if s.rest[0].suit == FLOWER then places + {t % 80} else places - {t % 80})
  {
    var r := Replaced(s, start, t);
    forall u | 0 <= u < 80
      ensures u == t % 80 ==> CellAt(r, start, u) == s.rest[0]
      ensures u != t % 80 ==> CellAt(r, start, u) == CellAt(s, start, u)
    {
      LookAgain(r, start, t);
      LooksDiffer(start, u, t);
    }
  }

  lemma LooksDiffer(start: nat, u: nat, t: nat)
    requires u < 80
    ensures SeatAfter(start, u / 20) == SeatAfter(start, t / 20) && u % 20 == t % 20 <==> u == t % 80
  {
    EightyLooks(t);
    SeatAgain(start, t / 80, t % 80 / 20);
    PlacesAround(start, u / 20, t % 80 / 20);
    hide SeatAfter;
    assert u == 20 * (u / 20) + u % 20 && t % 80 == 20 * (t % 80 / 20) + t % 80 % 20;
  }

  lemma PlacesAround(start: nat, x: nat, y: nat)
    requires x < 4 && y < 4
    ensures SeatAfter(start, x) == SeatAfter(start, y) <==> x == y
  {
  }

  lemma CleanWithout(s: Snap, start: nat)
    requires FlowersIn(s, start, {}) && start < 4
    ensures AllClean(s)
  {
    forall q, i | 0 <= q < 4 && 0 <= i < 20
      ensures s.seats[q].decks[i].suit != FLOWER
    {
      var k := (q + 4 - start) % 4;
      var t := 20 * k + i;
      assert t / 20 == k && t % 20 == i && SeatAfter(start, k) == q;
      assert CellAt(s, start, t).suit != FLOWER;
    }
  }

  /** The place on the wall of the tile that goes into cell c of the k-th seat. */
  function WallPlace(k: nat, c: nat): (i: nat)
    ensures k < 4 && c < 16 ==> i < 64
  {
    16 * (c / 4) + 4 * k + c % 4
  }

  lemma DealtCell(w: seq<Mj>, dealt: Snap, start: nat, t: nat)
    requires DealtUpTo(w, dealt, start, 64) && t < 80
    ensures |w| == SIZE && Sized(dealt)
    ensures CellAt(dealt, start, t) == if t % 20 < 16 then w[WallPlace(t / 20, t % 20)] else NULL_MJ
  {
    DealtWallSize(w, dealt, start);
    hide DealtUpTo;
    DealtTiles(w, dealt, start, t / 20);
  }

  lemma FlowersDealt(w: seq<Mj>, dealt: Snap, start: nat, k: nat, c: nat, k': nat, c': nat)
    requires DealtUpTo(w, dealt, start, 64) && k < 4 && k' < 4 && c < 16 && c' < 16
    requires forall i :: 0 <= i < 64 && w[i].suit == FLOWER ==> i == WallPlace(k, c) || i == WallPlace(k', c')
    ensures FlowersIn(dealt, start, {20 * k + c, 20 * k' + c'})
    ensures CellAt(dealt, start, 20 * k + c) == w[WallPlace(k, c)] && CellAt(dealt, start, 20 * k' + c') == w[WallPlace(k', c')]
  {
    hide DealtUpTo, WallPlace, CellAt, SeatAfter;
    LookOf(k, c);
    LookOf(k', c');
    DealtCell(w, dealt, start, 20 * k + c);
    DealtCell(w, dealt, start, 20 * k' + c');
    forall t | 0 <= t < 80 && CellAt(dealt, start, t).suit == FLOWER
      ensures t == 20 * k + c || t == 20 * k' + c'
    {
      DealtCell(w, dealt, start, t);
      var i := WallPlace(t / 20, t % 20);
      if i == WallPlace(k, c) {
        PlacesDiffer(t / 20, t % 20, k, c);
      } else {
        PlacesDiffer(t / 20, t % 20, k', c');
      }
    }
  }

  lemma LookOf(k: nat, c: nat)
    requires c < 20
    ensures (20 * k + c) / 20 == k && (20 * k + c) % 20 == c
  {
  }

  lemma DealtWallSize(w: seq<Mj>, dealt: Snap, start: nat)
    requires DealtUpTo(w, dealt, start, 64)
    ensures |w| == SIZE && Sized(dealt) && dealt.rest == w[64..]
  {
    forall q | 0 <= q < 4
      ensures |dealt.seats[q].decks| == 20
    {
      assert SeatDealt(w, dealt.seats[q], start, q, 64);
    }
  }

  lemma PlacesDiffer(k: nat, c: nat, k': nat, c': nat)
    requires k < 4 && k' < 4 && c < 16 && c' < 16 && WallPlace(k, c) == WallPlace(k', c')
    ensures k == k' && c == c'
  {
    assert WallPlace(k, c) == 16 * (c / 4) + (4 * k + c % 4) && WallPlace(k', c') == 16 * (c' / 4) + (4 * k' + c' % 4);
    assert c / 4 == c' / 4 && 4 * k + c % 4 == 4 * k' + c' % 4;
  }

  /** Two flowers among the first sixty-four, the first with a seat nearer to start: its cell
      takes the sixty-fifth tile, the other's the sixty-sixth. If the sixty-fifth is a flower
      again, the other's turn comes first, and then the sixty-seventh takes its place. */
  lemma FlowersInTurn(w: seq<Mj>, start: nat, s: Snap, k: nat, c: nat, k': nat, c': nat)
    requires DealtFrom(w, start, s) && TwoFlowers(w, k, c, k', c')
    ensures |s.seats| == 4 && s.rest == if w[64].suit == FLOWER then w[67..] else w[66..]
    ensures var v, v' := s.seats[SeatAfter(start, k)], s.seats[SeatAfter(start, k')];
      && v'.flowers == [w[WallPlace(k', c')]] && Bag(v'.decks) == Bag(TilesFor(w, k')[c' := w[65]] + seq(4, _ => NULL_MJ))
      && v.flowers == (if w[64].suit == FLOWER then [w[WallPlace(k, c)], w[64]] else [w[WallPlace(k, c)]])
      && Bag(v.decks) == Bag(TilesFor(w, k)[c := if w[64].suit == FLOWER then w[66] else w[64]] + seq(4, _ => NULL_MJ))
  {
    hide Bag, SortedHand, DealtUpTo, Tick, Clean, WallPlace;
    var dealt, n: nat :| DealtBy(w, start, dealt, n, s);
    var m, t := InTurn(w, start, dealt, k, c, k', c');
    CleanStays(dealt, start, n, if n <= m then m else n);
    CleanStays(dealt, start, m, if n <= m then m else n);
    assert SeatSorted(t.seats[SeatAfter(start, k)], s.seats[SeatAfter(start, k)]);
    assert SeatSorted(t.seats[SeatAfter(start, k')], s.seats[SeatAfter(start, k')]);
  }

  ghost predicate TwoFlowers(w: seq<Mj>, k: nat, c: nat, k': nat, c': nat) {
    && k < k' < 4 && c < 16 && c' < 16 && |w| == SIZE
    && (forall i :: 0 <= i < 64 ==> (w[i].suit == FLOWER <==> i == WallPlace(k, c) || i == WallPlace(k', c')))
    && w[65].suit != FLOWER && (w[64].suit == FLOWER ==> w[66].suit != FLOWER)
  }

  /** A seat with one tile of its sixteen replaced. */
  ghost predicate HasTiles(v: View, w: seq<Mj>, k: nat, c: nat, tile: Mj, flowers: seq<Mj>)
    requires k < 4 && c < 16 && |w| == SIZE
  {
    v.decks == TilesFor(w, k)[c := tile] + seq(4, _ => NULL_MJ) && v.flowers == flowers
  }

  lemma TileReplaced(v: View, w: seq<Mj>, k: nat, c: nat, old_: Mj, tile: Mj, flowers: seq<Mj>)
    requires k < 4 && c < 16 && |w| == SIZE && HasTiles(v, w, k, c, old_, flowers)
    ensures HasTiles(v.(decks := v.decks[c := tile], flowers := v.flowers + [v.decks[c]]), w, k, c, tile, flowers + [old_])
  {
    assert TilesFor(w, k)[c := old_][c := tile] == TilesFor(w, k)[c := tile];
    assert (TilesFor(w, k)[c := old_] + seq(4, _ => NULL_MJ))[c := tile] == TilesFor(w, k)[c := tile] + seq(4, _ => NULL_MJ);
  }

  /** The table before any look, as far as the two seats go. */
  lemma BeforeLooks(w: seq<Mj>, start: nat, dealt: Snap, k: nat, c: nat, k': nat, c': nat)
    requires DealtUpTo(w, dealt, start, 64) && TwoFlowers(w, k, c, k', c')
    ensures Sized(dealt) && dealt.rest == w[64..] && FlowersIn(dealt, start, {20 * k + c, 20 * k' + c'})
    ensures CellAt(dealt, start, 20 * k + c).suit == FLOWER && CellAt(dealt, start, 20 * k' + c').suit == FLOWER
    ensures HasTiles(dealt.seats[SeatAfter(start, k)], w, k, c, w[WallPlace(k, c)], [])
    ensures HasTiles(dealt.seats[SeatAfter(start, k')], w, k', c', w[WallPlace(k', c')], [])
  {
    hide DealtUpTo, WallPlace, FlowersIn, CellAt, HasTiles;
    DealtWallSize(w, dealt, start);
    FlowersDealt(w, dealt, start, k, c, k', c');
    TilesBefore(w, start, dealt, k, c);
    TilesBefore(w, start, dealt, k', c');
  }

  lemma TilesBefore(w: seq<Mj>, start: nat, dealt: Snap, k: nat, c: nat)
    requires DealtUpTo(w, dealt, start, 64) && k < 4 && c < 16
    ensures |w| == SIZE && Sized(dealt) && HasTiles(dealt.seats[SeatAfter(start, k)], w, k, c, w[WallPlace(k, c)], [])
  {
    DealtWallSize(w, dealt, start);
    hide DealtUpTo;
    DealtTiles(w, dealt, start, k);
    assert TilesFor(w, k)[c := w[WallPlace(k, c)]] == TilesFor(w, k);
  }

  lemma ReplacedShape(s: Snap, p: nat, i: nat)
    requires Sized(s) && s.rest != [] && p < 4 && i < 20
    ensures var v, r := s.seats[p], Took(Stashed(s, p, i), p, i);
      r == s.(rest := s.rest[1..],
              seats := s.seats[p := v.(decks := v.decks[i := s.rest[0]], flowers := v.flowers + [v.decks[i]])])
  {
    var v := s.seats[p];
    assert Stashed(s, p, i).seats[p] == v.(flowers := v.flowers + [v.decks[i]]);
  }

  /** One flower replaced, at a look at cell c of the k-th seat. */
  lemma SeatReplaced(w: seq<Mj>, s: Snap, start: nat, t: nat, k: nat, c: nat, k': nat, old_: Mj, flowers: seq<Mj>, left: nat)
    requires Sized(s) && k < 4 && k' < 4 && k != k' && c < 16 && |w| == SIZE && left < SIZE && s.rest == w[left..]
    requires t % 80 == 20 * k + c && HasTiles(s.seats[SeatAfter(start, k)], w, k, c, old_, flowers)
    ensures var r := Replaced(s, start, t);
      && Sized(r) && r.rest == w[left + 1..] && r.seats[SeatAfter(start, k')] == s.seats[SeatAfter(start, k')]
      && HasTiles(r.seats[SeatAfter(start, k)], w, k, c, w[left], flowers + [old_])
  {
    hide HasTiles, Took, Stashed;
    LookOf(k, c);
    LookPlace(start, t);
    ReplacedShape(s, SeatAfter(start, k), c);
    if k < k' {
      OtherSeat(start, k, k');
    } else {
      OtherSeat(start, k', k);
    }
    TileReplaced(s.seats[SeatAfter(start, k)], w, k, c, old_, w[left], flowers);
    CellHeld(s.seats[SeatAfter(start, k)], w, k, c, old_, flowers);
  }

  lemma LookPlace(start: nat, t: nat)
    ensures SeatAfter(start, t / 20) == SeatAfter(start, t % 80 / 20) && t % 20 == t % 80 % 20
  {
    hide SeatAfter;
    EightyLooks(t);
    SeatAgain(start, t / 80, t % 80 / 20);
  }

  lemma CellHeld(v: View, w: seq<Mj>, k: nat, c: nat, tile: Mj, flowers: seq<Mj>)
    requires k < 4 && c < 16 && |w| == SIZE && HasTiles(v, w, k, c, tile, flowers)
    ensures v.decks[c] == tile
  {
  }

  lemma FirstInTurn(w: seq<Mj>, start: nat, dealt: Snap, k: nat, c: nat, k': nat, c': nat) returns (one: Snap)
    requires DealtUpTo(w, dealt, start, 64) && TwoFlowers(w, k, c, k', c')
    ensures one == Ticks(dealt, start, 20 * k + c + 1) && Sized(one) && one.rest == w[65..]
    ensures FlowersIn(one, start, {20 * k + c, 20 * k' + c'})
    ensures CellAt(one, start, 20 * k + c) == w[64] && CellAt(one, start, 20 * k' + c').suit == FLOWER
    ensures HasTiles(one.seats[SeatAfter(start, k)], w, k, c, w[64], [w[WallPlace(k, c)]])
    ensures HasTiles(one.seats[SeatAfter(start, k')], w, k', c', w[WallPlace(k', c')], [])
  {
    hide DealtUpTo, Tick, FlowersIn, HasTiles, WallPlace;
    var x, y := 20 * k + c, 20 * k' + c';
    BeforeLooks(w, start, dealt, k, c, k', c');
    NothingToReplace(dealt, start, 0, x, {x, y});
    OneReplaced(dealt, start, x, {x, y});
    SeatReplaced(w, dealt, start, x, k, c, k', w[WallPlace(k, c)], [], 64);
    assert [] + [w[WallPlace(k, c)]] == [w[WallPlace(k, c)]];
    one := Replaced(dealt, start, x);
    NowIn(one, start, if w[64].suit == FLOWER then {x, y} + {x} else {x, y} - {x}, {x, y});
    CellsReplaced(dealt, start, x, x);
    CellsReplaced(dealt, start, x, y);
  }

  lemma CellsReplaced(s: Snap, start: nat, t: nat, u: nat)
    requires Sized(s) && s.rest != [] && u < 80
    ensures Sized(Replaced(s, start, t))
    ensures CellAt(Replaced(s, start, t), start, u) == if u == t % 80 then s.rest[0] else CellAt(s, start, u)
  {
    LooksDiffer(start, u, t);
  }

  lemma InTurn(w: seq<Mj>, start: nat, dealt: Snap, k: nat, c: nat, k': nat, c': nat) returns (m: nat, t: Snap)
    requires DealtUpTo(w, dealt, start, 64) && TwoFlowers(w, k, c, k', c')
    ensures t == Ticks(dealt, start, m) && AllClean(t)
    ensures t.rest == if w[64].suit == FLOWER then w[67..] else w[66..]
    ensures HasTiles(t.seats[SeatAfter(start, k')], w, k', c', w[65], [w[WallPlace(k', c')]])
    ensures if w[64].suit == FLOWER then HasTiles(t.seats[SeatAfter(start, k)], w, k, c, w[66], [w[WallPlace(k, c)], w[64]])
            else HasTiles(t.seats[SeatAfter(start, k)], w, k, c, w[64], [w[WallPlace(k, c)]])
  {
    hide DealtUpTo, Tick, AllClean, FlowersIn, HasTiles, WallPlace;
    var x, y := 20 * k + c, 20 * k' + c';
    var one := FirstInTurn(w, start, dealt, k, c, k', c');
    NothingToReplace(dealt, start, x + 1, y, {x, y});
    OneReplaced(one, start, y, {x, y});
    SeatReplaced(w, one, start, y, k', c', k, w[WallPlace(k', c')], [], 65);
    assert [] + [w[WallPlace(k', c')]] == [w[WallPlace(k', c')]];
    var two := Replaced(one, start, y);
    assert two == Ticks(dealt, start, y + 1);
    OnlyFirst(w, one, two, start, x, y);
    t, m := two, y + 1;
    if w[64].suit == FLOWER {
      m := x + 80 + 1;
      t := AgainInTurn(w, start, dealt, two, k, c, k', y);
    }
    DealtStart(w, dealt, start);
    CleanWithout(t, start);
  }

  lemma DealtStart(w: seq<Mj>, dealt: Snap, start: nat)
    requires DealtUpTo(w, dealt, start, 64)
    ensures start < 4
  {
  }

  lemma AgainInTurn(w: seq<Mj>, start: nat, dealt: Snap, two: Snap, k: nat, c: nat, k': nat, y: nat) returns (t: Snap)
    requires k < k' < 4 && c < 16 && |w| == SIZE && 20 * k + c < y < 80 && w[64].suit == FLOWER && w[66].suit != FLOWER
    requires two == Ticks(dealt, start, y + 1) && FlowersIn(two, start, {20 * k + c}) && two.rest == w[66..] && Sized(two)
    requires CellAt(two, start, 20 * k + c) == w[64]
    requires HasTiles(two.seats[SeatAfter(start, k)], w, k, c, w[64], [w[WallPlace(k, c)]])
    ensures t == Ticks(dealt, start, 20 * k + c + 81) && Sized(t) && FlowersIn(t, start, {}) && t.rest == w[67..]
    ensures HasTiles(t.seats[SeatAfter(start, k)], w, k, c, w[66], [w[WallPlace(k, c)], w[64]])
    ensures t.seats[SeatAfter(start, k')] == two.seats[SeatAfter(start, k')]
  {
    hide Tick, FlowersIn, HasTiles, WallPlace;
    var x := 20 * k + c;
    Later(x, y);
    NothingToReplace(dealt, start, y + 1, x + 80, {x});
    LookAgain(two, start, x + 80);
    OneReplaced(two, start, x + 80, {x});
    SeatReplaced(w, two, start, x + 80, k, c, k', w[64], [w[WallPlace(k, c)]], 66);
    assert [w[WallPlace(k, c)]] + [w[64]] == [w[WallPlace(k, c)], w[64]];
    t := Replaced(two, start, x + 80);
    NowIn(t, start, {x} - {x}, {});
  }

  lemma NowIn(s: Snap, start: nat, places: set<nat>, more: set<nat>)
    requires FlowersIn(s, start, places) && places <= more
    ensures FlowersIn(s, start, more)
  {
  }

  lemma OtherSeat(start: nat, k: nat, k': nat)
    requires k < k' < 4
    ensures SeatAfter(start, k) != SeatAfter(start, k')
  {
  }

  lemma Later(x: nat, y: nat)
    requires x < y < 80
    ensures forall t :: y + 1 <= t < x + 80 ==> t % 80 != x
  {
  }

  lemma OnlyFirst(w: seq<Mj>, one: Snap, two: Snap, start: nat, x: nat, y: nat)
    requires |w| == SIZE && x < y < 80 && one.rest == w[65..] && w[65].suit != FLOWER
    requires Sized(one) && CellAt(one, start, x) == w[64] && FlowersIn(one, start, {x, y}) && two == Replaced(one, start, y)
    requires FlowersIn(two, start, {x, y} - {y})
    ensures FlowersIn(two, start, if w[64].suit == FLOWER then {x} else {}) && CellAt(two, start, x) == w[64]
  {
    LooksDiffer(start, x, y);
    assert CellAt(two, start, x) == w[64];
    assert {x, y} - {y} == {x};
  }
}
