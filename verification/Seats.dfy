/** `struct player`: one seat of the server's table and what happens to it alone. */
module Seats {
  import opened Tiles
  import opened Winning
  import opened Melds
  import QuickSort

  /** What a seat holds: all twenty deck cells, and the used part of the rest. */
  datatype View = View(decks: seq<Mj>, flowers: seq<Mj>, door: seq<Mj>, sea: seq<Mj>, nc: nat)

  /** A seat before the deal. */
  ghost function EmptyView(): View {
    View(seq(20, _ => NULL_MJ), [], [], [], 16)
  }

  /** The seat that many places further around the table. */
  function SeatAfter(p: nat, k: nat): (q: nat)
    ensures q < 4
  {
    (p + k) % 4
  }

  /** Seat 0 follows seat 3, and four places lead back. */
  lemma AroundTheTable(p: nat, k: nat)
    requires p < 4
    ensures SeatAfter(p, 0) == p && SeatAfter(p, k + 1) == if SeatAfter(p, k) == 3 then 0 else SeatAfter(p, k) + 1
  {
  }

  ghost function SeatBag(v: View): multiset<Mj> {
    Bag(v.decks) + multiset(v.door) + multiset(v.flowers) + multiset(v.sea)
  }

  /** Each meld takes three from the capacity and puts at most four on the door. */
  ghost predicate Shape(v: View) {
    && |v.decks| == 20
    && 1 <= v.nc <= 16 && v.nc % 3 == 1
    && 3 * |v.door| <= 4 * (16 - v.nc)
    && forall i :: 0 <= i < |v.flowers| ==> Flower(v.flowers[i])
  }

  /** The seat waits with a sorted hand of nc tiles. */
  ghost predicate Waiting(v: View) {
    Shape(v) && SortedHand(v.decks, v.nc)
  }

  /** The seat is to discard one of nc + 1 tiles. */
  ghost predicate Holding(v: View) {
    Shape(v) && Hand(v.decks, v.nc + 1)
  }

  // ----- what each operation does to a seat ---------------------------------------

  /** c copies of d left the hand and joined d on the door; the rest is sorted. */
  ghost predicate Melded(v: View, w: View, d: Mj, c: nat) {
    && w.nc + 3 == v.nc >= c
    && SortedHand(w.decks, v.nc - c)
    && |w.decks| == |v.decks|
    && Bag(w.decks) + Copies(d, c) == Bag(v.decks)
    && w.door == v.door + seq(c + 1, _ => d)
    && w.flowers == v.flowers && w.sea == v.sea
  }

  lemma NothingDrawn(s: seq<Mj>, nc: nat)
    requires Hand(s, nc) && nc < |s|
    ensures s[nc] == NULL_MJ && s[nc := NULL_MJ] == s
  {
  }

  lemma IsMelded(v: View, w: View, holed: seq<Mj>, d: Mj, c: nat, j: nat)
    requires w.nc + 3 == v.nc >= c && d != NULL_MJ
    requires SortedHand(w.decks, v.nc - c) && |w.decks| == |v.decks|
    requires j + c <= |v.decks| && forall k :: j <= k < j + c ==> v.decks[k] == d
    requires holed == Nulled(v.decks, j, c) && Bag(w.decks) == Bag(holed)
    requires w.door == v.door + seq(c + 1, _ => d)
    requires w.flowers == v.flowers && w.sea == v.sea
    ensures Melded(v, w, d, c)
  {
    BagOfNulled(v.decks, d, j, c);
  }

  /** A tile lies in cell nc, drawn to a sorted hand. */
  ghost predicate JustDrawn(v: View) {
    Shape(v) && SortedHand(v.decks[v.nc := NULL_MJ], v.nc) && Playable(v.decks[v.nc])
  }

  /** The condition of a quiet gang: three tiles of the hand equal the one drawn. */
  ghost predicate MayGang(v: View) {
    JustDrawn(v) && multiset(v.decks[..v.nc])[v.decks[v.nc]] >= 3
  }

  /** Three copies of the drawn tile left the hand and four joined the door; the drawn tile
      is still in its cell. */
  ghost predicate QuietlyGanged(v: View, w: View) {
    && v.nc < |v.decks| == |w.decks| && w.nc + 3 == v.nc
    && var d := v.decks[v.nc];
       && w.decks[v.nc] == d && SortedHand(w.decks[v.nc := NULL_MJ], w.nc)
       && Bag(w.decks) + Copies(d, 3) == Bag(v.decks)
       && w.door == v.door + seq(4, _ => d)
       && w.flowers == v.flowers && w.sea == v.sea
  }

  /** The copies of a quiet gang stand together, and there is room for it. */
  lemma GangedCopies(v: View) returns (j: nat)
    requires MayGang(v)
    ensures |v.decks| == 20 && 4 <= v.nc <= 16 && |v.door| <= 16 && Playable(v.decks[v.nc]) && v.decks[v.nc] != NULL_MJ
    ensures CopiesAt(v.decks, v.nc, v.decks[v.nc], j, 3) && Hand(v.decks[v.nc := NULL_MJ], v.nc)
    ensures Holed(Nulled(v.decks, j, 3), v.nc, j, 3) && Nulled(v.decks, j, 3)[v.nc] == v.decks[v.nc]
  {
    hide Nulled, Holed;
    var s := v.decks[v.nc := NULL_MJ];
    assert s[..v.nc] == v.decks[..v.nc];
    j := CopiesStandTogether(s, v.nc, v.decks[v.nc], 3);
    NulledIsHoled(v.decks, v.nc, j, 3);
  }

  /** So a quiet gang puts one copy too many on the table. */
  lemma GangDoubles(v: View, w: View)
    requires QuietlyGanged(v, w) && v.decks[v.nc] != NULL_MJ
    ensures SeatBag(w) == SeatBag(v) + multiset{v.decks[v.nc]}
  {
    var d := v.decks[v.nc];
    BagOfCopies(seq(4, _ => d), d);
    assert Copies(d, 4) == Copies(d, 3) + multiset{d};
    HandToDoor(v, w, Copies(d, 3), multiset{d});
  }

  /** Cells e1 and e2 left the hand and lie, sorted with d, on the door. */
  ghost predicate Ate(v: View, w: View, d: Mj, e1: nat, e2: nat)
    requires e1 < v.nc <= |v.decks| && e2 < v.nc && v.nc >= 3
  {
    && w.nc + 3 == v.nc
    && QuickSort.OnlyRangeRearranged(EatSwapped(v.decks, v.nc, e1, e2), w.decks, 0, v.nc - 3)
    && QuickSort.Sorted(w.decks[..v.nc - 2], Key)
    && |w.door| == |v.door| + 3 && w.door[..|v.door|] == v.door
    && multiset(w.door[|v.door|..]) == multiset([v.decks[e1], v.decks[e2], d])
    && QuickSort.Sorted(w.door[|v.door|..], Key)
    && w.flowers == v.flowers && w.sea == v.sea
  }

  /** The cells are two of the hand, and the seat ate with them. */
  ghost predicate AteFrom(v: View, w: View, d: Mj, e1: nat, e2: nat) {
    e1 < v.nc <= |v.decks| && e2 < v.nc && v.nc >= 3 && Ate(v, w, d, e1, e2)
  }

  /** Cell index was thrown away and the rest sorted. */
  ghost predicate Threw(v: View, w: View, index: nat)
    requires index < |v.decks|
  {
    && w == v.(decks := w.decks)
    && SortedHand(w.decks, v.nc)
    && |w.decks| == |v.decks|
    && Bag(w.decks) + multiset{v.decks[index]} == Bag(v.decks)
  }

  /** Tiles leave the hand, and with an extra one they join the door. */
  lemma HandToDoor(v: View, w: View, moved: multiset<Mj>, extra: multiset<Mj>)
    requires Bag(w.decks) + moved == Bag(v.decks)
    requires multiset(w.door) == multiset(v.door) + (moved + extra)
    requires w.flowers == v.flowers && w.sea == v.sea
    ensures SeatBag(w) == SeatBag(v) + extra
  {
  }

  /** Melding moves the discard, and nothing else, into the seat. */
  lemma MeldedSeat(v: View, w: View, d: Mj, c: nat)
    requires Waiting(v) && Melded(v, w, d, c) && 2 <= c <= 3 && v.nc >= 4
    ensures SeatBag(w) == SeatBag(v) + multiset{d}
    ensures if c == 2 then Holding(w) else Waiting(w)
  {
    MeldedBag(v, w, d, c);
  }

  lemma MeldedBag(v: View, w: View, d: Mj, c: nat)
    requires Melded(v, w, d, c)
    ensures SeatBag(w) == SeatBag(v) + multiset{d}
  {
    BagOfCopies(seq(c + 1, _ => d), d);
    assert Copies(d, c + 1) == Copies(d, c) + multiset{d};
    HandToDoor(v, w, Copies(d, c), multiset{d});
  }

  /** Eating moves the discard into the seat, and leaves a hand to discard from
      exactly when the answer is not one that the swaps misplace. */
  lemma AteSeat(v: View, w: View, d: Mj, e1: nat, e2: nat)
    requires Waiting(v) && v.nc >= 4 && e1 < v.nc && e2 < v.nc && e1 != e2
    requires Ate(v, w, d, e1, e2)
    ensures SeatBag(w) == SeatBag(v) + multiset{d}
    ensures Holding(w) <==> !Misplaces(v.nc, e1, e2)
  {
    AteBag(v, w, d, e1, e2);
    AteShape(v, w, d, e1, e2);
  }

  lemma AteShape(v: View, w: View, d: Mj, e1: nat, e2: nat)
    requires Waiting(v) && v.nc >= 4 && e1 < v.nc && e2 < v.nc && e1 != e2
    requires Ate(v, w, d, e1, e2)
    ensures Holding(w) <==> !Misplaces(v.nc, e1, e2)
  {
    hide Hand, EatSwapped, QuickSort.Sorted, QuickSort.OnlyRangeRearranged, Playable;
    EatenShape(v.decks, w.decks, v.nc, e1, e2);
  }

  lemma AteBag(v: View, w: View, d: Mj, e1: nat, e2: nat)
    requires Hand(v.decks, v.nc) && v.nc >= 4 && e1 < v.nc && e2 < v.nc && e1 != e2
    requires Ate(v, w, d, e1, e2)
    ensures SeatBag(w) == SeatBag(v) + multiset{d}
  {
    hide EatSwapped, QuickSort.Sorted, QuickSort.OnlyRangeRearranged, Playable, Bag, SeatBag;
    EatenBag(v.decks, w.decks, v.nc, e1, e2);
    AteDoor(v.door, w.door, v.decks[e1], v.decks[e2], d);
    HandToDoor(v, w, multiset{v.decks[e1], v.decks[e2]}, multiset{d});
  }

  lemma AteDoor(before: seq<Mj>, after: seq<Mj>, x: Mj, y: Mj, d: Mj)
    requires |after| == |before| + 3 && after[..|before|] == before
    requires multiset(after[|before|..]) == multiset([x, y, d])
    ensures multiset(after) == multiset(before) + (multiset{x, y} + multiset{d})
  {
    assert after == before + after[|before|..];
    assert [x, y, d] == [x, y] + [d];
  }

  lemma ThrewBag(v: View, w: View, index: nat)
    requires index < |v.decks| && Threw(v, w, index)
    ensures SeatBag(w) + multiset{v.decks[index]} == SeatBag(v)
  {
  }

  // ----- the seat itself --------------------------------------------------------------

  class Player {
    const decks: array<Mj>
    const flowers: array<Mj>
    const door: array<Mj>
    const sea: array<Mj>
    var flowerIndex: nat
    var doorIndex: nat
    var seaIndex: nat
    var normalCapacity: nat

    ghost function Repr(): set<object> {
      {this, decks, flowers, door, sea}
    }

    /** Four different buffers of the declared lengths. */
    ghost predicate Framed() {
      && decks.Length == 20 && flowers.Length == 8 && door.Length == 20 && sea.Length == 150
      && decks != flowers && decks != door && decks != sea
      && flowers != door && flowers != sea && door != sea
    }

    ghost predicate Valid()
      reads this
    {
      Framed() && flowerIndex <= 8 && doorIndex <= 20 && seaIndex <= 150 && normalCapacity <= 16
    }

    ghost function Look(): View
      requires Valid()
      reads this, Repr()
    {
      View(decks[..], flowers[..flowerIndex], door[..doorIndex], sea[..seaIndex], normalCapacity)
    }

    /** player_init, with what player_gameinfo_init leaves. */
    constructor ()
      ensures Valid() && fresh(Repr())
      ensures Look() == EmptyView()
    {
      decks := new Mj[20](_ => NULL_MJ);
      flowers := new Mj[8](_ => NULL_MJ);
      door := new Mj[20](_ => NULL_MJ);
      sea := new Mj[150](_ => NULL_MJ);
      flowerIndex, doorIndex, seaIndex, normalCapacity := 0, 0, 0, 16;
    }

    /** player_gameinfo_init */
    method Reset()
      requires Framed()
      modifies Repr()
      ensures Valid()
      ensures Look() == EmptyView()
    {
      flowerIndex, doorIndex, seaIndex, normalCapacity := 0, 0, 0, 16;
      forall i | 0 <= i < 20 {
        decks[i] := NULL_MJ;
      }
      forall i | 0 <= i < 8 {
        flowers[i] := NULL_MJ;
      }
      forall i | 0 <= i < 20 {
        door[i] := NULL_MJ;
      }
      forall i | 0 <= i < 150 {
        sea[i] := NULL_MJ;
      }
    }

    /** The deal and draw fill a cell. */
    method Fill(i: nat, m: Mj)
      requires Valid() && i < 20
      modifies decks
      ensures Valid() && Look() == old(Look()).(decks := old(Look()).decks[i := m])
    {
      decks[i] := m;
    }

    /** A flower found in cell i goes to the flower row. */
    method StashFlower(i: nat)
      requires Valid() && i < 20 && flowerIndex < 8
      modifies flowers, this`flowerIndex
      ensures Valid() && Look() == old(Look()).(flowers := old(Look()).flowers + [old(decks[i])])
    {
      flowers[flowerIndex] := decks[i];
      flowerIndex := flowerIndex + 1;
    }

    method PushDoor(m: Mj)
      requires Valid() && doorIndex < 20
      modifies door, this`doorIndex
      ensures Valid() && doorIndex == old(doorIndex) + 1
      ensures Look() == old(Look()).(door := old(Look()).door + [m])
    {
      door[doorIndex] := m;
      doorIndex := doorIndex + 1;
    }

    method PushSea(m: Mj)
      requires Valid() && seaIndex < 150
      modifies sea, this`seaIndex
      ensures Valid() && Look() == old(Look()).(sea := old(Look()).sea + [m])
    {
      sea[seaIndex] := m;
      seaIndex := seaIndex + 1;
    }

    /** The first scan of a pong or gang: it empties the first c copies of d and
        puts one tile on the door for each. */
    method MoveCopies(d: Mj, c: nat, ghost j: nat)
      requires Valid() && 1 <= c && doorIndex + c <= 20
      requires CopiesAt(decks[..], normalCapacity, d, j, c) && d != NULL_MJ
      modifies decks, door, this`doorIndex
      ensures Valid()
      ensures Look() == old(Look()).(decks := Nulled(old(Look()).decks, j, c),
                                     door := old(Look()).door + seq(c, _ => d))
    {
      hide Nulled, CopiesAt;
      ghost var v := Look();
      var need := c;
      CopiesFitIn(v.decks, normalCapacity, d, j, c);
      NulledMore(v.decks, j, 0);
      for i := 0 to normalCapacity
        invariant 1 <= need <= c && (i <= j ==> need == c) && (i > j ==> need == c - (i - j))
        invariant doorIndex == |v.door| + (c - need)
        invariant decks[..] == Nulled(v.decks, j, c - need)
        invariant door[..doorIndex] == v.door + seq(c - need, _ => d)
      {
        ScanMeetsCopies(v.decks, normalCapacity, d, j, c, c - need, i);
        if Compare(d, decks[i]) == 0 {
          NulledMore(v.decks, j, c - need);
          door[doorIndex] := d;
          doorIndex := doorIndex + 1;
          decks[i] := NULL_MJ;
          need := need - 1;
          assert decks[..] == Nulled(v.decks, j, c - need - 1)[i := NULL_MJ];
          if need == 0 {
            break;
          }
        }
      }
    }

    /** The door side of an accepted pong (c == 2) or gang (c == 3) of the discard d. */
    method LayMeld(d: Mj, c: nat, ghost j: nat)
      requires Valid() && 1 <= c && doorIndex + c + 1 <= 20
      requires CopiesAt(decks[..], normalCapacity, d, j, c) && d != NULL_MJ
      modifies decks, door, this`doorIndex
      ensures Valid()
      ensures decks[..] == Nulled(old(decks[..]), j, c)
      ensures door[..doorIndex] == old(door[..doorIndex]) + seq(c + 1, _ => d)
    {
      PushDoor(d);
      MoveCopies(d, c, j);
      assert [d] + seq(c, _ => d) == seq(c + 1, _ => d);
    }

    method Meld(d: Mj, c: nat)
      requires Valid() && SortedHand(decks[..], normalCapacity) && Playable(d) && 2 <= c <= 3
      requires 4 <= normalCapacity && doorIndex <= 16
      requires multiset(decks[..normalCapacity])[d] >= c
      modifies decks, door, this`doorIndex, this`normalCapacity
      ensures Valid() && Melded(old(Look()), Look(), d, c)
    {
      hide Nulled, Bag, Hand, CopiesAt, Holed;
      ghost var v := Look();
      var nc := normalCapacity;
      ghost var j := CopiesStandTogether(v.decks, nc, d, c);
      NothingDrawn(v.decks, nc);
      CopiesFitIn(v.decks, nc, d, j, c);
      LayMeld(d, c, j);
      ghost var holed := decks[..];
      NulledIsHoled(v.decks, nc, j, c);
      CloseHoles(decks, nc, c, j);
      assert decks[..][nc := NULL_MJ] == decks[..];
      normalCapacity := normalCapacity - 3;
      IsMelded(v, Look(), holed, d, c, j);
    }

    /** The accepted branch of quiet_gang. Cell nc is never emptied: four copies go to the
        door and three leave the hand. */
    method QuietGang()
      requires Valid() && MayGang(Look())
      modifies decks, door, this`doorIndex, this`normalCapacity
      ensures Valid() && QuietlyGanged(old(Look()), Look())
    {
      hide Nulled, Bag, Hand, SortedHand, CopiesAt, Holed, MayGang;
      ghost var v := Look();
      var nc, d := normalCapacity, decks[normalCapacity];
      ghost var j := GangedCopies(v);
      CopiesFitIn(v.decks, nc, d, j, 3);
      LayMeld(d, 3, j);
      ghost var holed := decks[..];
      CloseHoles(decks, nc, 3, j);
      normalCapacity := normalCapacity - 3;
      BagOfNulled(v.decks, d, j, 3);
    }

    /** discard and the cell part of client_discard: cell index leaves the hand. */
    method Throw(index: nat) returns (d: Mj)
      requires Valid() && Holding(Look()) && index <= normalCapacity
      modifies decks
      ensures Valid() && d == old(decks[index]) && Playable(d)
      ensures Threw(old(Look()), Look(), index)
    {
      d := decks[index];
      ThrowAway(decks, normalCapacity, index);
    }

    method PushThree(sorted: seq<Mj>)
      requires Valid() && |sorted| == 3 && doorIndex <= 17
      modifies door, this`doorIndex
      ensures Valid() && Look() == old(Look()).(door := old(Look()).door + sorted)
    {
      PushDoor(sorted[0]);
      PushDoor(sorted[1]);
      PushDoor(sorted[2]);
    }

    /** An accepted eat answer. */
    method Eat(d: Mj, e1: nat, e2: nat, sorted: seq<Mj>)
      requires Valid() && Waiting(Look()) && normalCapacity >= 4
      requires e1 < normalCapacity && e2 < normalCapacity && e1 != e2
      requires |sorted| == 3 && QuickSort.Sorted(sorted, Key)
      requires multiset(sorted) == multiset([decks[e1], decks[e2], d])
      modifies decks, door, this`doorIndex, this`normalCapacity
      ensures Valid() && AteFrom(old(Look()), Look(), d, e1, e2)
    {
      ghost var v := Look();
      PushThree(sorted);
      EatCells(decks, normalCapacity, e1, e2);
      normalCapacity := normalCapacity - 3;
      ghost var w := Look();
      assert w.door == v.door + sorted;
      assert w.door[|v.door|..] == sorted;
    }
  }

  /** A seat that can meld has room for it in the hand and on the door. */
  lemma MeldRoom(v: View, d: Mj, c: nat)
    requires Waiting(v) && 2 <= c <= multiset(v.decks[..v.nc])[d]
    ensures v.nc >= 4 && |v.door| <= 16
  {
  }

  /** A hand that may gang: 1, 1, 1 and 2 TONG, and the fourth 1 drawn. */
  lemma GangExample(v: View)
    requires v.decks == [Mj(TONG, 1), Mj(TONG, 1), Mj(TONG, 1), Mj(TONG, 2), Mj(TONG, 1)] + seq(15, _ => NULL_MJ)
    requires v.nc == 4 && v.door == [] && v.flowers == []
    ensures MayGang(v)
  {
    assert v.decks[..4] == [Mj(TONG, 1), Mj(TONG, 1), Mj(TONG, 1), Mj(TONG, 2)];
  }
}
