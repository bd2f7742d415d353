/** The whole table as a value, and the laws every step of a round keeps. */
module Snapshots {
  import opened Tiles
  import opened Winning
  import opened Melds
  import opened Wall
  import opened Seats

  /** rest is the part of the wall still to be taken. */
  datatype Snap = Snap(rest: seq<Mj>, seats: seq<View>, discarded: Mj)

  ghost function Pending(d: Mj): multiset<Mj> {
    if d == NULL_MJ then multiset{} else multiset{d}
  }

  /** Every tile on the table, wherever it lies. */
  ghost function TableBag(s: Snap): multiset<Mj>
    requires |s.seats| == 4
  {
    multiset(s.rest) + Pending(s.discarded) +
    (SeatBag(s.seats[0]) + SeatBag(s.seats[1]) + SeatBag(s.seats[2]) + SeatBag(s.seats[3]))
  }

  /** No tile is lost, doubled or invented. */
  ghost predicate Conserved(s: Snap) {
    |s.seats| == 4 && TheSet(TableBag(s))
  }

  ghost predicate AllWaiting(s: Snap) {
    |s.seats| == 4 && forall i :: 0 <= i < 4 ==> Waiting(s.seats[i])
  }

  /** Seat p is about to discard, the others wait, and no discard is pending. */
  ghost predicate Turn(s: Snap, p: nat) {
    && |s.seats| == 4 && p < 4 && s.discarded == NULL_MJ
    && Holding(s.seats[p])
    && forall i :: 0 <= i < 4 && i != p ==> Waiting(s.seats[i])
  }

  /** Seat w holds a winning hand, or waits for the pending discard to complete one. */
  ghost predicate Won(s: Snap, w: int) {
    && |s.seats| == 4 && 0 <= w < 4
    && var v := s.seats[w];
       || (Holding(v) && s.discarded == NULL_MJ && WinningTiles(Bag(v.decks)))
       || (Waiting(v) && Playable(s.discarded) && WinningTiles(Bag(v.decks) + multiset{s.discarded}))
  }

  ghost function Capacity(s: Snap): nat
    requires |s.seats| == 4
  {
    s.seats[0].nc + s.seats[1].nc + s.seats[2].nc + s.seats[3].nc
  }

  // ----- accounting ---------------------------------------------------------------

  /** What one seat, the wall and the pending discard exchange stays on the table. */
  lemma ExchangeConserves(s: Snap, t: Snap, p: nat)
    requires |s.seats| == 4 && p < 4 && |t.seats| == 4 && t.seats == s.seats[p := t.seats[p]]
    requires multiset(t.rest) + Pending(t.discarded) + SeatBag(t.seats[p])
      == multiset(s.rest) + Pending(s.discarded) + SeatBag(s.seats[p])
    ensures TableBag(t) == TableBag(s)
  {
    hide SeatBag, Pending;
    var a := multiset(s.rest) + Pending(s.discarded);
    var b := multiset(t.rest) + Pending(t.discarded);
    SumExchange(a, b, SeatBag(s.seats[p]), SeatBag(t.seats[p]));
    SumSplit(a, SeatBag(s.seats[0]), SeatBag(s.seats[1]), SeatBag(s.seats[2]), SeatBag(s.seats[3]));
    SumSplit(b, SeatBag(t.seats[0]), SeatBag(t.seats[1]), SeatBag(t.seats[2]), SeatBag(t.seats[3]));
  }

  lemma SumExchange(a: multiset<Mj>, b: multiset<Mj>, x: multiset<Mj>, y: multiset<Mj>)
    requires b + y == a + x
    ensures forall m: Mj :: b[m] + y[m] == a[m] + x[m]
  {
    forall m: Mj
      ensures b[m] + y[m] == a[m] + x[m]
    {
      assert (b + y)[m] == (a + x)[m];
    }
  }

  lemma SumSplit(a: multiset<Mj>, u: multiset<Mj>, v: multiset<Mj>, w: multiset<Mj>, x: multiset<Mj>)
    ensures forall m: Mj :: (a + (u + v + w + x))[m] == a[m] + u[m] + v[m] + w[m] + x[m]
  {
  }

  /** A seat's share is part of the set, so it holds no empty tiles and few flowers. */
  lemma SeatIsPart(s: Snap, p: nat)
    requires Conserved(s) && p < 4
    ensures SeatBag(s.seats[p]) + multiset(s.rest) <= TableBag(s)
    ensures |SeatBag(s.seats[p])| <= SIZE
  {
    hide SeatBag, Allotted;
    SumIncludes(multiset(s.rest), Pending(s.discarded),
                SeatBag(s.seats[0]), SeatBag(s.seats[1]), SeatBag(s.seats[2]), SeatBag(s.seats[3]));
    SubBagSize(SeatBag(s.seats[p]), TableBag(s));
  }

  lemma SumIncludes(r: multiset<Mj>, d: multiset<Mj>,
                    u: multiset<Mj>, v: multiset<Mj>, w: multiset<Mj>, x: multiset<Mj>)
    ensures u + r <= r + d + (u + v + w + x) && v + r <= r + d + (u + v + w + x)
    ensures w + r <= r + d + (u + v + w + x) && x + r <= r + d + (u + v + w + x)
  {
  }

  /** The tiles still on the wall are real tiles. */
  lemma RestIsReal(s: Snap, k: nat)
    requires Conserved(s) && k < |s.rest|
    ensures Playable(s.rest[k]) || Flower(s.rest[k])
  {
    assert s.rest[k] in multiset(s.rest);
    assert TableBag(s)[s.rest[k]] >= multiset(s.rest)[s.rest[k]];
  }

  /** The sea never fills its 150 cells. */
  lemma SeaHasRoom(s: Snap, p: nat)
    requires Conserved(s) && p < 4
    ensures |s.seats[p].sea| <= SIZE
  {
    SeatIsPart(s, p);
    SubBagSize(multiset(s.seats[p].sea), SeatBag(s.seats[p]));
  }

  // ----- the steps -------------------------------------------------------------------

  /** Seat p took flowers rest[..k] aside and then the tile rest[k] into cell nc. */
  ghost predicate Drew(s: Snap, t: Snap, p: nat, k: nat) {
    && |s.seats| == 4 && |t.seats| == 4 && p < 4 && k < |s.rest|
    && s.seats[p].nc < |s.seats[p].decks| == |t.seats[p].decks|
    && (forall i :: 0 <= i < k ==> Flower(s.rest[i]))
    && var v := s.seats[p];
       t == s.(rest := s.rest[k + 1..],
               seats := s.seats[p := v.(decks := v.decks[v.nc := s.rest[k]], flowers := v.flowers + s.rest[..k])])
  }

  /** The next tile of the wall goes to cell i of seat p. */
  ghost function Took(s: Snap, p: nat, i: nat): Snap
    requires p < |s.seats| && i < |s.seats[p].decks| && s.rest != []
  {
    var v := s.seats[p];
    s.(rest := s.rest[1..], seats := s.seats[p := v.(decks := v.decks[i := s.rest[0]])])
  }

  /** Cell i of seat p is copied to its flowers. */
  ghost function Stashed(s: Snap, p: nat, i: nat): Snap
    requires p < |s.seats| && i < |s.seats[p].decks|
  {
    var v := s.seats[p];
    s.(seats := s.seats[p := v.(flowers := v.flowers + [v.decks[i]])])
  }

  lemma FirstDraw(s: Snap, p: nat)
    requires AllWaiting(s) && p < 4 && s.rest != []
    ensures 1 <= s.seats[p].nc <= 16 && |s.seats[p].decks| == 20
    ensures Drew(s, Took(s, p, s.seats[p].nc), p, 0)
  {
    assert s.seats[p].flowers + s.rest[..0] == s.seats[p].flowers;
  }

  lemma NextDraw(s: Snap, t: Snap, p: nat, k: nat)
    requires Drew(s, t, p, k) && Flower(s.rest[k]) && t.rest != []
    ensures Drew(s, Took(Stashed(t, p, s.seats[p].nc), p, s.seats[p].nc), p, k + 1)
  {
    var v := s.seats[p];
    var nc := v.nc;
    assert t.seats[p].decks[nc] == s.rest[k];
    assert v.decks[nc := s.rest[k]][nc := s.rest[k + 1]] == v.decks[nc := s.rest[k + 1]];
    assert v.flowers + s.rest[..k] + [s.rest[k]] == v.flowers + s.rest[..k + 1];
    assert s.rest[k + 1..][1..] == s.rest[k + 1 + 1..];
    var w := v.(decks := v.decks[nc := s.rest[k + 1]], flowers := v.flowers + s.rest[..k + 1]);
    assert Took(Stashed(t, p, nc), p, nc).seats[p] == w;
    assert Took(Stashed(t, p, nc), p, nc).seats == s.seats[p := w];
  }

  /** A draw of the first tile that is not a flower. */
  ghost predicate DrawStep(s: Snap, t: Snap, p: nat) {
    exists k: nat :: DrawOf(s, t, p, k)
  }

  ghost predicate DrawOf(s: Snap, t: Snap, p: nat, k: nat) {
    Drew(s, t, p, k) && !Flower(s.rest[k])
  }

  /** What a call of draw does: it succeeds exactly when a tile other than a flower is
      left on the wall, and then takes the first of those and all flowers before it. */
  ghost predicate DrawOutcome(s: Snap, t: Snap, p: nat, ok: bool) {
    && (ok <==> exists k :: 0 <= k < |s.rest| && !Flower(s.rest[k]))
    && (ok ==> DrawStep(s, t, p))
  }

  /** The tiles of such a draw, in the order in which they left the wall. */
  ghost predicate Drawn(s: Snap, t: Snap, p: nat, tiles: seq<Mj>) {
    exists k: nat :: DrawOf(s, t, p, k) && tiles == s.rest[..k + 1]
  }

  lemma DrewCell(s: Snap, t: Snap, p: nat, k: nat)
    requires Drew(s, t, p, k)
    ensures k < |s.rest| && |t.seats| == 4 && s.seats[p].nc < |t.seats[p].decks|
    ensures t.seats[p].decks[s.seats[p].nc] == s.rest[k] && s.rest[..k + 1] == s.rest[..k] + [s.rest[k]]
  {
  }

  lemma DrawSucceeds(s: Snap, t: Snap, p: nat, k: nat)
    requires Conserved(s) && AllWaiting(s) && p < 4 && s.discarded == NULL_MJ
    requires Drew(s, t, p, k) && s.seats[p].nc < |t.seats[p].decks| && t.seats[p].decks[s.seats[p].nc].suit != FLOWER
    ensures Drawn(s, t, p, s.rest[..k + 1]) && DrawOutcome(s, t, p, true) && Turn(t, p) && Conserved(t) && Capacity(t) == Capacity(s)
  {
    RestIsReal(s, k);
    DrewConserves(s, t, p, k);
    DrewIsTurn(s, t, p, k);
    assert DrawOf(s, t, p, k);
  }

  lemma NothingToDraw(s: Snap, t: Snap, p: nat)
    requires s.rest == []
    ensures DrawOutcome(s, t, p, false)
  {
  }

  lemma DrawFails(s: Snap, t: Snap, p: nat, k: nat)
    requires Conserved(s) && Drew(s, t, p, k) && t.rest == []
    requires t.seats[p].decks[s.seats[p].nc].suit == FLOWER
    ensures DrawOutcome(s, t, p, false)
  {
    RestIsReal(s, k);
  }

  /** One more flower can be stashed. */
  lemma DrewFlower(s: Snap, t: Snap, p: nat, k: nat)
    requires Conserved(s) && Drew(s, t, p, k) && Waiting(s.seats[p])
    requires t.seats[p].decks[s.seats[p].nc].suit == FLOWER
    ensures |s.seats| == 4 && k < |s.rest| && Flower(s.rest[k]) && |t.seats[p].flowers| < 8
  {
    RestIsReal(s, k);
    RoomForFlower(s, p, k);
  }

  lemma DrewConserves(s: Snap, t: Snap, p: nat, k: nat)
    requires Conserved(s) && Drew(s, t, p, k) && s.seats[p].decks[s.seats[p].nc] == NULL_MJ
    ensures Conserved(t)
  {
    var v, w := s.seats[p], t.seats[p];
    RestIsReal(s, k);
    BagOfFilled(v.decks, v.nc, s.rest[k]);
    DrewBags(s.rest, k, v.flowers, Bag(v.decks), multiset(v.door), multiset(v.sea), Pending(s.discarded));
    ExchangeConserves(s, t, p);
  }

  lemma DrewBags(rest: seq<Mj>, k: nat, flowers: seq<Mj>, hand: multiset<Mj>, door: multiset<Mj>,
                 sea: multiset<Mj>, pending: multiset<Mj>)
    requires k < |rest|
    ensures multiset(rest[k + 1..]) + pending + (hand + multiset{rest[k]} + door + multiset(flowers + rest[..k]) + sea)
      == multiset(rest) + pending + (hand + door + multiset(flowers) + sea)
  {
    assert rest == rest[..k] + [rest[k]] + rest[k + 1..];
    assert multiset(flowers + rest[..k]) == multiset(flowers) + multiset(rest[..k]);
  }

  /** There is room for one more flower as long as all tiles are accounted for. */
  lemma RoomForFlower(s: Snap, p: nat, k: nat)
    requires Conserved(s) && p < 4 && k < |s.rest|
    requires forall i :: 0 <= i <= k ==> Flower(s.rest[i])
    requires forall i :: 0 <= i < |s.seats[p].flowers| ==> Flower(s.seats[p].flowers[i])
    ensures |s.seats[p].flowers| + k < 8
  {
    hide SeatBag, TableBag, Bag;
    var f := s.seats[p].flowers;
    var front := s.rest[..k + 1];
    assert s.rest == front + s.rest[k + 1..];
    FlowersAreHeld(s.seats[p]);
    SeatIsPart(s, p);
    var all := multiset(f) + multiset(front);
    assert all <= TableBag(s);
    assert forall m :: m in all ==> m in f || m in front;
    AtMostEightFlowers(all, TableBag(s));
    assert |all| == |f| + |front|;
  }

  lemma FlowersAreHeld(v: View)
    ensures multiset(v.flowers) <= SeatBag(v)
  {
  }

  /** A tile drawn behind the flowers makes it seat p's turn. */
  lemma DrewIsTurn(s: Snap, t: Snap, p: nat, k: nat)
    requires AllWaiting(s) && p < 4 && s.discarded == NULL_MJ
    requires Drew(s, t, p, k) && Playable(s.rest[k])
    ensures Turn(t, p) && Capacity(t) == Capacity(s)
  {
  }

  /** Seat p threw cell index, which is now the pending discard. */
  ghost predicate Discarded(s: Snap, t: Snap, p: nat, index: nat) {
    && |s.seats| == 4 && |t.seats| == 4 && p < 4 && index < |s.seats[p].decks|
    && t == s.(seats := s.seats[p := t.seats[p]], discarded := s.seats[p].decks[index])
    && Threw(s.seats[p], t.seats[p], index)
  }

  lemma DiscardedConserves(s: Snap, t: Snap, p: nat, index: nat)
    requires Conserved(s) && s.discarded == NULL_MJ && Discarded(s, t, p, index)
    requires s.seats[p].decks[index] != NULL_MJ
    ensures Conserved(t)
  {
    ThrewBag(s.seats[p], t.seats[p], index);
    ExchangeConserves(s, t, p);
  }

  lemma DiscardedWaits(s: Snap, t: Snap, p: nat, index: nat)
    requires Turn(s, p) && index <= s.seats[p].nc && Discarded(s, t, p, index)
    ensures AllWaiting(t) && Playable(t.discarded) && Capacity(t) == Capacity(s)
  {
  }

  /** Seat p melded the pending discard with c copies from its hand. */
  ghost predicate Claimed(s: Snap, t: Snap, p: nat, c: nat) {
    && |s.seats| == 4 && |t.seats| == 4 && p < 4
    && t == s.(seats := s.seats[p := t.seats[p]], discarded := NULL_MJ)
    && Melded(s.seats[p], t.seats[p], s.discarded, c)
  }

  lemma ClaimedConserves(s: Snap, t: Snap, p: nat, c: nat)
    requires Conserved(s) && s.discarded != NULL_MJ && Claimed(s, t, p, c)
    ensures Conserved(t)
  {
    MeldedBag(s.seats[p], t.seats[p], s.discarded, c);
    ExchangeConserves(s, t, p);
  }

  /** A pong leads to a turn, a gang to a draw; either spends three of capacity. */
  lemma ClaimedSettles(s: Snap, t: Snap, p: nat, c: nat)
    requires AllWaiting(s) && 2 <= c <= 3 && p < 4 && s.seats[p].nc >= 4 && Claimed(s, t, p, c)
    ensures t.discarded == NULL_MJ && Capacity(t) + 3 == Capacity(s)
    ensures if c == 2 then Turn(t, p) else AllWaiting(t)
  {
    hide Waiting, Holding, SortedHand, Bag;
    MeldedSeat(s.seats[p], t.seats[p], s.discarded, c);
  }

  /** Seat p ate the pending discard with cells e1 and e2. */
  ghost predicate Eaten(s: Snap, t: Snap, p: nat, e1: nat, e2: nat) {
    && |s.seats| == 4 && |t.seats| == 4 && p < 4
    && e1 < s.seats[p].nc <= |s.seats[p].decks| && e2 < s.seats[p].nc && s.seats[p].nc >= 3
    && t == s.(seats := s.seats[p := t.seats[p]], discarded := NULL_MJ)
    && Ate(s.seats[p], t.seats[p], s.discarded, e1, e2)
  }

  lemma EatenConserves(s: Snap, t: Snap, p: nat, e1: nat, e2: nat)
    requires Conserved(s) && s.discarded != NULL_MJ && Eaten(s, t, p, e1, e2)
    requires Hand(s.seats[p].decks, s.seats[p].nc) && s.seats[p].nc >= 4 && e1 != e2
    ensures Conserved(t)
  {
    AteBag(s.seats[p], t.seats[p], s.discarded, e1, e2);
    ExchangeConserves(s, t, p);
  }

  lemma EatenSettles(s: Snap, t: Snap, p: nat, e1: nat, e2: nat)
    requires AllWaiting(s) && p < 4 && s.seats[p].nc >= 4 && e1 != e2 && Eaten(s, t, p, e1, e2)
    ensures Capacity(t) + 3 == Capacity(s)
    ensures Turn(t, p) <==> !Misplaces(s.seats[p].nc, e1, e2)
  {
    hide Waiting, Holding, EatSwapped, Bag;
    AteSeat(s.seats[p], t.seats[p], s.discarded, e1, e2);
  }

  /** The unclaimed discard joins the sea of the seat that threw it. */
  ghost predicate Sunk(s: Snap, t: Snap, p: nat) {
    && |s.seats| == 4 && p < 4
    && t == s.(seats := s.seats[p := s.seats[p].(sea := s.seats[p].sea + [s.discarded])], discarded := NULL_MJ)
  }

  lemma SunkConserves(s: Snap, t: Snap, p: nat)
    requires Conserved(s) && s.discarded != NULL_MJ && Sunk(s, t, p)
    ensures Conserved(t)
  {
    assert multiset(t.seats[p].sea) == multiset(s.seats[p].sea) + multiset{s.discarded};
    ExchangeConserves(s, t, p);
  }

  lemma SunkWaits(s: Snap, t: Snap, p: nat)
    requires AllWaiting(s) && Sunk(s, t, p)
    ensures AllWaiting(t) && t.discarded == NULL_MJ
  {
  }

  /** Seat p gangs quietly. */
  ghost predicate GangedQuietly(s: Snap, t: Snap, p: nat) {
    && |s.seats| == 4 && |t.seats| == 4 && p < 4
    && t == s.(seats := s.seats[p := t.seats[p]])
    && QuietlyGanged(s.seats[p], t.seats[p])
  }

  /** Every quiet gang leaves five copies of a tile on the table. */
  lemma QuietGangBreaksTheSet(s: Snap, t: Snap, p: nat)
    requires Conserved(s) && p < 4 && MayGang(s.seats[p]) && GangedQuietly(s, t, p)
    ensures var d := s.seats[p].decks[s.seats[p].nc];
            TableBag(t) == TableBag(s) + multiset{d} && TableBag(t)[d] == 5 && !Conserved(t)
  {
    hide SeatBag, TheSet, QuietlyGanged, MayGang;
    var j := GangedCopies(s.seats[p]);
    var d := s.seats[p].decks[s.seats[p].nc];
    GangDoubles(s.seats[p], t.seats[p]);
    var a := multiset(s.rest) + Pending(s.discarded);
    SumSplit(a, SeatBag(s.seats[0]), SeatBag(s.seats[1]), SeatBag(s.seats[2]), SeatBag(s.seats[3]));
    SumSplit(a, SeatBag(t.seats[0]), SeatBag(t.seats[1]), SeatBag(t.seats[2]), SeatBag(t.seats[3]));
    FifthCopy(TableBag(s), d);
  }
}
