/** shuffle: the 144 tiles in the order of random priorities. */
module Wall {
  import opened Tiles
  import QuickSort

  /** A tile with the priority it is shuffled by. */
  datatype Stamped = Stamped(tile: Mj, priority: int)

  const SIZE := 144

  // ----- the full set of tiles -------------------------------------------------

  function Allotted(m: Mj): nat {
    if Playable(m) then 4 else if Flower(m) then 1 else 0
  }

  /** Four of each playable kind and one of each flower, 144 tiles in all. */
  ghost predicate TheSet(bag: multiset<Mj>) {
    |bag| == SIZE && forall m :: bag[m] == Allotted(m)
  }

  /** With one more of any playable kind a bag is no longer the set: it has five. */
  lemma FifthCopy(bag: multiset<Mj>, d: Mj)
    requires TheSet(bag) && Playable(d)
    ensures (bag + multiset{d})[d] == 5 && !TheSet(bag + multiset{d})
  {
  }

  /** after is before plus some copies of the first kinds of a suit. */
  ghost predicate Adds(before: multiset<Mj>, after: multiset<Mj>, suit: int, kinds: nat, copies: nat) {
    forall m: Mj :: after[m] == before[m] + if m.suit == suit && 1 <= m.number <= kinds then copies else 0
  }

  lemma SubBagSize(part: multiset<Mj>, whole: multiset<Mj>)
    requires part <= whole
    ensures |part| <= |whole|
  {
    assert whole == part + (whole - part);
  }

  /** No more than eight flowers can lie anywhere. */
  lemma AtMostEightFlowers(flowers: multiset<Mj>, bag: multiset<Mj>)
    requires TheSet(bag) && flowers <= bag
    requires forall m :: m in flowers ==> Flower(m)
    ensures |flowers| <= 8
  {
    var all := multiset(seq(8, i => Mj(FLOWER, i + 1)));
    forall m | m in flowers
      ensures flowers[m] <= all[m]
    {
      assert Flower(m);
      assert seq(8, i => Mj(FLOWER, i + 1))[m.number - 1] == m;
    }
    assert flowers <= all;
    SubBagSize(flowers, all);
  }

  // ----- building and shuffling ---------------------------------------------------

  ghost function TilesOf(s: seq<Stamped>): seq<Mj> {
    seq(|s|, i requires 0 <= i < |s| => s[i].tile)
  }

  /** Reordering stamped tiles reorders the tiles. */
  lemma {:induction false} ReorderedTiles(s: seq<Stamped>, t: seq<Stamped>)
    requires multiset(s) == multiset(t)
    ensures multiset(TilesOf(s)) == multiset(TilesOf(t))
    decreases |s|
  {
    assert |multiset(s)| == |s| && |multiset(t)| == |t|;
    if s != [] {
      hide TilesOf;
      assert s[0] in multiset(t);
      var k :| 0 <= k < |t| && t[k] == s[0];
      TakenOut(s, 0);
      TakenOut(t, k);
      ReorderedTiles(s[..0] + s[1..], t[..k] + t[k + 1..]);
    }
  }

  lemma TakenOut(s: seq<Stamped>, k: nat)
    requires k < |s|
    ensures multiset(s[..k] + s[k + 1..]) == multiset(s) - multiset{s[k]}
    ensures multiset(TilesOf(s)) == multiset(TilesOf(s[..k] + s[k + 1..])) + multiset{s[k].tile}
  {
    assert s == s[..k] + [s[k]] + s[k + 1..];
    var a, b := TilesOf(s[..k]), TilesOf(s[k + 1..]);
    assert TilesOf(s) == a + [s[k].tile] + b;
    assert TilesOf(s[..k] + s[k + 1..]) == a + b;
  }

  ghost function Span(kinds: nat, copies: nat): nat {
    if kinds == 0 then 0 else Span(kinds - 1, copies) + copies
  }

  lemma {:induction false} SpanIsProduct(kinds: nat, copies: nat)
    ensures Span(kinds, copies) == kinds * copies
  {
    if kinds != 0 {
      SpanIsProduct(kinds - 1, copies);
      assert kinds * copies == (kinds - 1) * copies + copies;
    }
  }

  lemma {:induction false} SpanGrows(few: nat, many: nat, copies: nat)
    requires few <= many
    ensures Span(few, copies) <= Span(many, copies)
    decreases many
  {
    if few < many {
      SpanGrows(few, many - 1, copies);
    }
  }

  /** The tiles of one of the five loops, in the order in which it stacks them. */
  ghost function Stacked(suit: int, kinds: nat, copies: nat): (tiles: seq<Mj>)
    ensures |tiles| == Span(kinds, copies)
  {
    if kinds == 0 then [] else Stacked(suit, kinds - 1, copies) + seq(copies, _ => Mj(suit, kinds))
  }

  /** These tiles are stacked, each stamped with what rand() returned for it. */
  ghost predicate StampedBy(s: seq<Stamped>, tiles: seq<Mj>, rand: seq<int>) {
    |s| == |tiles| <= |rand| && forall k :: 0 <= k < |s| ==> s[k] == Stamped(tiles[k], rand[k])
  }

  lemma OneMoreStamped(s: seq<Stamped>, tiles: seq<Mj>, rand: seq<int>, tile: Mj)
    requires StampedBy(s, tiles, rand) && |s| < |rand|
    ensures StampedBy(s + [Stamped(tile, rand[|s|])], tiles + [tile], rand)
  {
  }

  /** One of the five loops of shuffle; rand holds what rand() returns, call by call. */
  method Stack(mjs: array<Stamped>, now: nat, suit: int, kinds: nat, copies: nat, rand: seq<int>, ghost tiles: seq<Mj>)
    returns (next: nat)
    requires now + Span(kinds, copies) <= mjs.Length == |rand| && StampedBy(mjs[..now], tiles, rand)
    modifies mjs
    ensures next == now + Span(kinds, copies)
    ensures StampedBy(mjs[..next], tiles + Stacked(suit, kinds, copies), rand)
  {
    hide StampedBy;
    next := now;
    assert tiles + [] == tiles;
    for i := 1 to kinds + 1
      invariant next == now + Span(i - 1, copies) <= mjs.Length
      invariant StampedBy(mjs[..next], tiles + Stacked(suit, i - 1, copies), rand)
    {
      SpanGrows(i, kinds, copies);
      next := StackCopies(mjs, next, Mj(suit, i), copies, rand, tiles + Stacked(suit, i - 1, copies));
      assert tiles + Stacked(suit, i - 1, copies) + seq(copies, _ => Mj(suit, i)) == tiles + Stacked(suit, i, copies);
    }
  }

  method StackCopies(mjs: array<Stamped>, now: nat, tile: Mj, copies: nat, rand: seq<int>, ghost tiles: seq<Mj>)
    returns (next: nat)
    requires now + copies <= mjs.Length == |rand| && StampedBy(mjs[..now], tiles, rand)
    modifies mjs
    ensures next == now + copies
    ensures StampedBy(mjs[..next], tiles + seq(copies, _ => tile), rand)
  {
    hide StampedBy;
    next := now;
    assert tiles + seq(0, _ => tile) == tiles;
    for j := 0 to copies
      invariant next == now + j
      invariant StampedBy(mjs[..next], tiles + seq(j, _ => tile), rand)
    {
      ghost var s := mjs[..next];
      OneMoreStamped(s, tiles + seq(j, _ => tile), rand, tile);
      mjs[next] := Stamped(tile, rand[next]);
      next := next + 1;
      assert mjs[..next] == s + [Stamped(tile, rand[next - 1])];
      assert tiles + seq(j, _ => tile) + [tile] == tiles + seq(j + 1, _ => tile);
    }
  }

  /** The whole set in the order in which shuffle stacks it. */
  ghost function AllStacked(): seq<Mj> {
    Stacked(TONG, 9, 4) + Stacked(TIAO, 9, 4) + Stacked(WAN, 9, 4) + Stacked(DAZI, 7, 4) + Stacked(FLOWER, 8, 1)
  }

  lemma {:induction false} StackedAt(suit: int, kinds: nat, copies: nat, i: nat, j: nat)
    requires i < kinds && j < copies
    ensures i * copies + j < |Stacked(suit, kinds, copies)| && Stacked(suit, kinds, copies)[i * copies + j] == Mj(suit, i + 1)
  {
    SpanIsProduct(kinds - 1, copies);
    if i < kinds - 1 {
      StackedAt(suit, kinds - 1, copies, i, j);
    }
  }

  /** Four of each number in turn: dots, bamboo, characters, honours; then the flowers. */
  lemma StackedInOrder(i: nat, j: nat)
    requires j < 4
    ensures |AllStacked()| == SIZE
    ensures i < 9 ==> AllStacked()[4 * i + j] == Mj(TONG, i + 1)
    ensures i < 9 ==> AllStacked()[36 + 4 * i + j] == Mj(TIAO, i + 1)
    ensures i < 9 ==> AllStacked()[72 + 4 * i + j] == Mj(WAN, i + 1)
    ensures i < 7 ==> AllStacked()[108 + 4 * i + j] == Mj(DAZI, i + 1)
    ensures i < 8 ==> AllStacked()[136 + i] == Mj(FLOWER, i + 1)
  {
    hide Stacked;
    AllStackedIsTheSet();
    SpanIsProduct(9, 4);
    SpanIsProduct(7, 4);
    SpanIsProduct(8, 1);
    if i < 9 {
      StackedAt(TONG, 9, 4, i, j);
      StackedAt(TIAO, 9, 4, i, j);
      StackedAt(WAN, 9, 4, i, j);
    }
    if i < 7 {
      StackedAt(DAZI, 7, 4, i, j);
    }
    if i < 8 {
      StackedAt(FLOWER, 8, 1, i, 0);
    }
  }

  lemma {:induction false} CopiesCounted(tile: Mj, copies: nat)
    ensures multiset(seq(copies, _ => tile)) == multiset{}[tile := copies]
  {
    if copies > 0 {
      CopiesCounted(tile, copies - 1);
      assert seq(copies, _ => tile) == seq(copies - 1, _ => tile) + [tile];
    }
  }

  /** One loop adds so many copies of each of its kinds to what is stacked. */
  lemma {:induction false} StackedAdds(tiles: seq<Mj>, suit: int, kinds: nat, copies: nat)
    ensures Adds(multiset(tiles), multiset(tiles + Stacked(suit, kinds, copies)), suit, kinds, copies)
  {
    var before := tiles + Stacked(suit, kinds, copies);
    if kinds == 0 {
      assert before == tiles;
    } else {
      StackedAdds(tiles, suit, kinds - 1, copies);
      CopiesCounted(Mj(suit, kinds), copies);
      var rest := tiles + Stacked(suit, kinds - 1, copies);
      assert before == rest + seq(copies, _ => Mj(suit, kinds));
      AddsOneKind(multiset(tiles), multiset(rest), multiset(before), suit, kinds, copies);
    }
  }

  lemma AddsOneKind(a: multiset<Mj>, b: multiset<Mj>, c: multiset<Mj>, suit: int, i: nat, copies: nat)
    requires i >= 1 && Adds(a, b, suit, i - 1, copies) && c == b + multiset{}[Mj(suit, i) := copies]
    ensures Adds(a, c, suit, i, copies)
  {
  }

  /** The five loops stack the set: four of each of the 34 kinds, one of each flower. */
  lemma AllStackedIsTheSet()
    ensures |AllStacked()| == SIZE && TheSet(multiset(AllStacked()))
  {
    hide Stacked;
    SpanIsProduct(9, 4);
    SpanIsProduct(7, 4);
    SpanIsProduct(8, 1);
    var tong := [] + Stacked(TONG, 9, 4);
    var tiao := tong + Stacked(TIAO, 9, 4);
    var wan := tiao + Stacked(WAN, 9, 4);
    var dazi := wan + Stacked(DAZI, 7, 4);
    StackedAdds([], TONG, 9, 4);
    StackedAdds(tong, TIAO, 9, 4);
    StackedAdds(tiao, WAN, 9, 4);
    StackedAdds(wan, DAZI, 7, 4);
    StackedAdds(dazi, FLOWER, 8, 1);
    assert AllStacked() == dazi + Stacked(FLOWER, 8, 1);
    assert |multiset(AllStacked())| == |AllStacked()|;
  }

  method StackAll(rand: seq<int>) returns (mjs: array<Stamped>)
    requires |rand| == SIZE
    ensures fresh(mjs) && mjs.Length == SIZE
    ensures StampedBy(mjs[..], AllStacked(), rand)
  {
    hide StampedBy, Stacked;
    mjs := new Stamped[SIZE](_ => Stamped(NULL_MJ, 0));
    SpanIsProduct(9, 4);
    SpanIsProduct(7, 4);
    SpanIsProduct(8, 1);
    NothingStamped(rand);
    assert mjs[..0] == [];
    ghost var tiles: seq<Mj> := [];
    var now := Stack(mjs, 0, TONG, 9, 4, rand, tiles);
    tiles := tiles + Stacked(TONG, 9, 4);
    now := Stack(mjs, now, TIAO, 9, 4, rand, tiles);
    tiles := tiles + Stacked(TIAO, 9, 4);
    now := Stack(mjs, now, WAN, 9, 4, rand, tiles);
    tiles := tiles + Stacked(WAN, 9, 4);
    now := Stack(mjs, now, DAZI, 7, 4, rand, tiles);
    tiles := tiles + Stacked(DAZI, 7, 4);
    now := Stack(mjs, now, FLOWER, 8, 1, rand, tiles);
    assert mjs[..now] == mjs[..];
    assert tiles + Stacked(FLOWER, 8, 1) == AllStacked();
  }

  lemma NothingStamped(rand: seq<int>)
    ensures StampedBy([], [], rand)
  {
  }

  /** In the order of the stamps. */
  ghost predicate InOrder(s: seq<Stamped>) {
    forall i, j :: 0 <= i < j < |s| ==> s[i].priority <= s[j].priority
  }

  ghost predicate ShuffleOf(stacked: seq<Stamped>, shuffled: seq<Stamped>, wall: seq<Mj>, rand: seq<int>) {
    && StampedBy(stacked, AllStacked(), rand)
    && multiset(shuffled) == multiset(stacked) && InOrder(shuffled) && wall == TilesOf(shuffled)
  }

  /** The wall is the set, stamped tile by tile with what rand() returned, in the order of
      the stamps. */
  ghost predicate Shuffled(wall: seq<Mj>, rand: seq<int>) {
    exists stacked, shuffled :: ShuffleOf(stacked, shuffled, wall, rand)
  }

  /** So it is the set. */
  lemma ShuffledIsTheSet(wall: seq<Mj>, rand: seq<int>)
    requires Shuffled(wall, rand)
    ensures TheSet(multiset(wall)) && |wall| == SIZE
  {
    hide TheSet, InOrder, Stacked;
    var a, s :| ShuffleOf(a, s, wall, rand);
    AllStackedIsTheSet();
    ReorderedTiles(a, s);
    assert TilesOf(a) == AllStacked();
    assert |multiset(s)| == |multiset(a)|;
  }

  method Shuffle(wall: array<Mj>, rand: seq<int>)
    requires wall.Length == SIZE == |rand|
    modifies wall
    ensures TheSet(multiset(wall[..])) && Shuffled(wall[..], rand)
  {
    hide TheSet, StampedBy;
    var mjs := StackAll(rand);
    ghost var stacked := mjs[..];
    QuickSort.SortWhole(mjs, (s: Stamped) => s.priority);
    ghost var shuffled := mjs[..];
    SortedIsInOrder(shuffled);
    forall k | 0 <= k < SIZE {
      wall[k] := mjs[k].tile;
    }
    assert wall[..] == TilesOf(shuffled);
    assert ShuffleOf(stacked, shuffled, wall[..], rand);
    ShuffledIsTheSet(wall[..], rand);
  }

  lemma SortedIsInOrder(s: seq<Stamped>)
    requires QuickSort.Sorted(s, (x: Stamped) => x.priority)
    ensures InOrder(s)
  {
  }

  /** Different random numbers leave no choice. */
  lemma ShuffledUnique(wall: seq<Mj>, wall': seq<Mj>, rand: seq<int>)
    requires Shuffled(wall, rand) && Shuffled(wall', rand)
    requires forall i, j :: 0 <= i < j < |rand| ==> rand[i] != rand[j]
    ensures wall == wall'
  {
    hide Stacked, AllStacked, TilesOf;
    var a, s :| ShuffleOf(a, s, wall, rand);
    var a', s' :| ShuffleOf(a', s', wall', rand);
    assert a == a';
    var key := (x: Stamped) => x.priority;
    assert QuickSort.Distinguishes(key, a);
    QuickSort.DistinguishesPermuted(a, s, key);
    QuickSort.SortedUnique(s, s', key);
  }
}
