/** hu_recursive_check, hu_check and the is_*_possible questions: which hands win
    and which discards a hand can claim. */
module Winning {
  import opened Tiles

  // ----- the 34 counters -------------------------------------------------------

  /** The counter a tile belongs to. */
  function Slot(t: Mj): int {
    (t.suit - 1) * 9 + t.number - 1
  }

  function TileAt(k: int): Mj {
    if k < 9 then Mj(TONG, k + 1)
    else if k < 18 then Mj(TIAO, k - 8)
    else if k < 27 then Mj(WAN, k - 17)
    else Mj(DAZI, k - 26)
  }

  lemma SlotOfTileAt(k: int)
    requires 0 <= k < 34
    ensures Playable(TileAt(k)) && Slot(TileAt(k)) == k
  {
  }

  lemma TileAtSlot(t: Mj)
    requires Playable(t)
    ensures 0 <= Slot(t) < 34 && TileAt(Slot(t)) == t
  {
  }

  // ----- what a winning hand is --------------------------------------------------

  /** The two shapes of a meld, by the counter of its lowest tile: three equal
      tiles, or three consecutive ones of a numbered suit. */
  datatype Meld = Triplet(at: int) | Run(at: int)

  predicate Legal(m: Meld) {
    match m
    case Triplet(i) => 0 <= i < 34
    case Run(i) => 0 <= i < 7 || 9 <= i < 16 || 18 <= i < 25
  }

  function MeldTiles(m: Meld): multiset<Mj> {
    var t := TileAt(m.at);
    match m
    case Triplet(_) => multiset{t, t, t}
    case Run(_) => multiset{t, Mj(t.suit, t.number + 1), Mj(t.suit, t.number + 2)}
  }

  ghost predicate AllLegal(melds: seq<Meld>) {
    forall i :: 0 <= i < |melds| ==> Legal(melds[i])
  }

  function TilesOf(melds: seq<Meld>): multiset<Mj> {
    if melds == [] then multiset{} else MeldTiles(melds[0]) + TilesOf(melds[1..])
  }

  /** The tiles are exactly one pair plus melds. */
  ghost predicate PairPlusMelds(tiles: multiset<Mj>, pair: Mj, melds: seq<Meld>) {
    Playable(pair) && AllLegal(melds) && tiles == multiset{pair, pair} + TilesOf(melds)
  }

  ghost predicate WinningTiles(tiles: multiset<Mj>) {
    exists pair, melds :: PairPlusMelds(tiles, pair, melds)
  }

  // ----- the same as the rules of the game say it --------------------------------------

  datatype Group = Group(a: Mj, b: Mj, c: Mj)

  /** Three equal tiles, or three consecutive ones of bamboo, dots or characters. */
  predicate IsGroup(g: Group) {
    && Playable(g.a) && Playable(g.b) && Playable(g.c)
    && (g.a == g.b == g.c || (g.a.suit != DAZI && InRow(g.a, g.b, g.c)))
  }

  ghost predicate AllGroups(groups: seq<Group>) {
    forall i :: 0 <= i < |groups| ==> IsGroup(groups[i])
  }

  function TilesOfGroups(groups: seq<Group>): multiset<Mj> {
    if groups == [] then multiset{}
    else multiset{groups[0].a, groups[0].b, groups[0].c} + TilesOfGroups(groups[1..])
  }

  /** The legal melds, by the counters of their tiles, are exactly these groups. */
  function MeldOf(g: Group): Meld {
    if g.a == g.b then Triplet(Slot(g.a)) else Run(Slot(g.a))
  }

  lemma TripletIsMeld(t: Mj)
    requires Playable(t)
    ensures Legal(Triplet(Slot(t))) && MeldTiles(Triplet(Slot(t))) == multiset{t, t, t}
  {
    hide TileAt;
    TileAtSlot(t);
  }

  lemma RunIsMeld(t: Mj)
    requires Playable(t) && t.suit != DAZI && t.number <= 7
    ensures Legal(Run(Slot(t)))
    ensures MeldTiles(Run(Slot(t))) == multiset{t, Mj(t.suit, t.number + 1), Mj(t.suit, t.number + 2)}
  {
    hide TileAt, MeldTiles;
    TileAtSlot(t);
    RunTilesFrom(Slot(t), t);
  }

  lemma RunTilesFrom(i: int, t: Mj)
    requires TileAt(i) == t
    ensures MeldTiles(Run(i)) == multiset{t, Mj(t.suit, t.number + 1), Mj(t.suit, t.number + 2)}
  {
    hide TileAt;
  }

  lemma GroupIsMeld(g: Group)
    requires IsGroup(g)
    ensures Legal(MeldOf(g)) && MeldTiles(MeldOf(g)) == multiset{g.a, g.b, g.c}
  {
    hide MeldTiles, Legal, Slot;
    if g.a == g.b {
      TripletIsMeld(g.a);
    } else {
      RunIsMeld(g.a);
      assert g.b == Mj(g.a.suit, g.a.number + 1) && g.c == Mj(g.a.suit, g.a.number + 2);
    }
  }

  function GroupOf(m: Meld): Group {
    var t := TileAt(m.at);
    if m.Triplet? then Group(t, t, t) else Group(t, Mj(t.suit, t.number + 1), Mj(t.suit, t.number + 2))
  }

  lemma MeldIsGroup(m: Meld)
    requires Legal(m)
    ensures var g := GroupOf(m); IsGroup(g) && MeldTiles(m) == multiset{g.a, g.b, g.c}
  {
    SlotOfTileAt(m.at);
  }

  lemma {:induction false} GroupsAreMelds(groups: seq<Group>) returns (melds: seq<Meld>)
    requires AllGroups(groups)
    ensures AllLegal(melds) && TilesOf(melds) == TilesOfGroups(groups)
  {
    hide IsGroup, Legal, MeldTiles, MeldOf;
    melds := [];
    if groups != [] {
      var rest := GroupsAreMelds(groups[1..]);
      GroupIsMeld(groups[0]);
      melds := [MeldOf(groups[0])] + rest;
    }
  }

  lemma {:induction false} MeldsAreGroups(melds: seq<Meld>) returns (groups: seq<Group>)
    requires AllLegal(melds)
    ensures AllGroups(groups) && TilesOfGroups(groups) == TilesOf(melds)
  {
    hide IsGroup, Legal, MeldTiles, GroupOf;
    groups := [];
    if melds != [] {
      var rest := MeldsAreGroups(melds[1..]);
      MeldIsGroup(melds[0]);
      groups := [GroupOf(melds[0])] + rest;
    }
  }

  /** The tiles are exactly a pair of equal tiles and groups. */
  ghost predicate PairPlusGroups(tiles: multiset<Mj>, pair: Mj, groups: seq<Group>) {
    Playable(pair) && AllGroups(groups) && tiles == multiset{pair, pair} + TilesOfGroups(groups)
  }

  /** A hand wins exactly if it is a pair plus groups. */
  lemma WinningMeans(tiles: multiset<Mj>)
    ensures WinningTiles(tiles) <==> exists pair, groups :: PairPlusGroups(tiles, pair, groups)
  {
    hide AllLegal, AllGroups;
    if WinningTiles(tiles) {
      var pair, melds :| PairPlusMelds(tiles, pair, melds);
      var groups := MeldsAreGroups(melds);
      assert PairPlusGroups(tiles, pair, groups);
    }
    if exists pair, groups :: PairPlusGroups(tiles, pair, groups) {
      var pair, groups :| PairPlusGroups(tiles, pair, groups);
      var melds := GroupsAreMelds(groups);
      assert PairPlusMelds(tiles, pair, melds);
    }
  }

  // ----- the same in terms of counters ---------------------------------------------

  /** How often the meld uses counter k. */
  function Use(m: Meld, k: int): nat {
    match m
    case Triplet(i) => if k == i then 3 else 0
    case Run(i) => if i <= k <= i + 2 then 1 else 0
  }

  function Uses(melds: seq<Meld>, k: int): nat {
    if melds == [] then 0 else Use(melds[0], k) + Uses(melds[1..], k)
  }

  ghost predicate MadeOf(count: seq<int>, melds: seq<Meld>)
    requires |count| == 34
  {
    AllLegal(melds) && forall k :: 0 <= k < 34 ==> count[k] == Uses(melds, k)
  }

  /** The counts divide into melds with nothing left over. */
  ghost predicate Splits(count: seq<int>)
    requires |count| == 34
  {
    exists melds :: MadeOf(count, melds)
  }

  ghost function Total(count: seq<int>): int {
    if count == [] then 0 else count[0] + Total(count[1..])
  }

  ghost predicate Natural(count: seq<int>) {
    forall k :: 0 <= k < |count| ==> 0 <= count[k]
  }

  lemma {:induction false} TotalOfUpdate(count: seq<int>, k: nat, v: int)
    requires k < |count|
    ensures Total(count[k := v]) == Total(count) - count[k] + v
  {
    if k == 0 {
      assert count[0 := v][1..] == count[1..];
    } else {
      TotalOfUpdate(count[1..], k - 1, v);
      assert count[k := v][1..] == count[1..][k - 1 := v];
    }
  }

  lemma {:induction false} TotalBounds(count: seq<int>, k: nat)
    requires Natural(count) && k < |count|
    ensures 0 <= count[k] <= Total(count)
    decreases |count|
  {
    if |count| > 1 {
      TotalBounds(count[1..], if k == 0 then 0 else k - 1);
    }
  }

  lemma {:induction false} ZerosTotal(count: seq<int>)
    requires forall k :: 0 <= k < |count| ==> count[k] == 0
    ensures Total(count) == 0
  {
    if count != [] {
      ZerosTotal(count[1..]);
    }
  }

  lemma NothingLeftSplits(count: seq<int>)
    requires |count| == 34 && Natural(count) && Total(count) == 0
    ensures Splits(count)
  {
    forall k | 0 <= k < 34
      ensures count[k] == Uses([], k)
    {
      TotalBounds(count, k);
    }
    assert MadeOf(count, []);
  }

  // ----- taking one meld out ----------------------------------------------------

  ghost predicate Fits(count: seq<int>, m: Meld)
    requires |count| == 34
  {
    && Legal(m)
    && match m
       case Triplet(i) => count[i] >= 3
       case Run(i) => count[i] >= 1 && count[i + 1] >= 1 && count[i + 2] >= 1
  }

  ghost function Less(count: seq<int>, i: int, n: int): (rest: seq<int>)
    requires 0 <= i < |count|
    ensures |rest| == |count|
  {
    count[i := count[i] - n]
  }

  lemma LessTotal(count: seq<int>, i: int, n: int)
    requires 0 <= i < |count|
    ensures Total(Less(count, i, n)) == Total(count) - n
  {
    TotalOfUpdate(count, i, count[i] - n);
  }

  /** The counts that remain, written as the program writes them. */
  ghost function TakeOut(count: seq<int>, m: Meld): (rest: seq<int>)
    requires |count| == 34 && Legal(m)
    ensures |rest| == 34
  {
    match m
    case Triplet(i) => Less(count, i, 3)
    case Run(i) => Less(Less(Less(count, i, 1), i + 1, 1), i + 2, 1)
  }

  lemma TakeOutUses(count: seq<int>, m: Meld)
    requires |count| == 34 && Legal(m)
    ensures forall k :: 0 <= k < 34 ==> TakeOut(count, m)[k] == count[k] - Use(m, k)
  {
  }

  lemma TakeOutTotal(count: seq<int>, m: Meld)
    requires |count| == 34 && Legal(m)
    ensures Total(TakeOut(count, m)) == Total(count) - 3
  {
    hide Total;
    var i := m.at;
    match m {
      case Triplet(_) =>
        LessTotal(count, i, 3);
      case Run(_) =>
        LessTotal(count, i, 1);
        LessTotal(Less(count, i, 1), i + 1, 1);
        LessTotal(Less(Less(count, i, 1), i + 1, 1), i + 2, 1);
    }
  }

  /** A meld that fits leaves natural counts that add up to three less. */
  lemma TakeOutFits(count: seq<int>, m: Meld)
    requires |count| == 34 && Natural(count) && Fits(count, m)
    ensures Natural(TakeOut(count, m))
    ensures 0 <= Total(TakeOut(count, m)) == Total(count) - 3
  {
    TakeOutTotal(count, m);
    TakeOutUses(count, m);
    TotalBounds(TakeOut(count, m), 0);
  }

  /** Putting the meld back keeps a split a split. */
  lemma SplitGrows(count: seq<int>, m: Meld)
    requires |count| == 34 && Legal(m) && Splits(TakeOut(count, m))
    ensures Splits(count)
  {
    TakeOutUses(count, m);
    var rest :| MadeOf(TakeOut(count, m), rest);
    var melds := [m] + rest;
    assert melds[1..] == rest;
    assert MadeOf(count, melds);
  }

  /** A nonempty split has a meld whose removal leaves a split. */
  lemma SplitShrinks(count: seq<int>) returns (m: Meld)
    requires |count| == 34 && Splits(count) && Total(count) != 0
    ensures Fits(count, m) && Splits(TakeOut(count, m))
  {
    var melds :| MadeOf(count, melds);
    if melds == [] {
      ZerosTotal(count);
      assert false;
    }
    m := melds[0];
    TakeOutUses(count, m);
    assert count[m.at] == Uses(melds, m.at);
    assert MadeOf(TakeOut(count, m), melds[1..]);
  }

  // ----- the backtracking search ----------------------------------------------------

  /** No meld that starts before counter i leads to a split. */
  ghost predicate DeadBefore(count: seq<int>, i: int)
    requires |count| == 34
  {
    forall m :: Fits(count, m) && m.at < i ==> !Splits(TakeOut(count, m))
  }

  /** The guard the program tests before it takes a run. */
  predicate RunGuard(count: seq<int>, i: int)
    requires |count| == 34 && 0 <= i < 34
  {
    && i < 27 && count[i] >= 1
    && i + 1 < 27 && count[i + 1] >= 1
    && i + 2 < 27 && count[i + 2] >= 1
    && i / 9 == (i + 1) / 9 && i / 9 == (i + 2) / 9
  }

  lemma RunGuardIsFits(count: seq<int>, i: int)
    requires |count| == 34 && 0 <= i < 34
    ensures RunGuard(count, i) <==> Fits(count, Run(i))
  {
  }

  method HuRecursiveCheck(count: array<int>, n: int) returns (hu: bool)
    requires count.Length == 34 && Natural(count[..]) && Total(count[..]) == n
    modifies count
    ensures hu <==> Splits(old(count[..]))
    ensures !hu ==> count[..] == old(count[..])
    decreases n, 1
  {
    if n == 0 {
      NothingLeftSplits(count[..]);
      return true;
    }
    for i := 0 to 34
      invariant count[..] == old(count[..])
      invariant DeadBefore(count[..], i)
    {
      RunGuardIsFits(count[..], i);
      if RunGuard(count[..], i) {
        hu := TryMeld(count, n, Run(i));
        if hu {
          return true;
        }
      }
      if count[i] >= 3 {
        hu := TryMeld(count, n, Triplet(i));
        if hu {
          return true;
        }
      }
      assert forall m: Meld :: m.at == i ==> m == Run(i) || m == Triplet(i);
    }
    if Splits(old(count[..])) {
      ghost var m := SplitShrinks(old(count[..]));
      assert false;
    }
    return false;
  }

  /** Takes the meld out, searches on, and puts it back if that fails. */
  method TryMeld(count: array<int>, n: int, m: Meld) returns (hu: bool)
    requires count.Length == 34 && Natural(count[..]) && Total(count[..]) == n
    requires Fits(count[..], m)
    modifies count
    ensures hu <==> Splits(TakeOut(old(count[..]), m))
    ensures hu ==> Splits(old(count[..]))
    ensures !hu ==> count[..] == old(count[..])
    decreases n, 0
  {
    ghost var before := count[..];
    TakeOutFits(before, m);
    var i := m.at;
    match m {
      case Run(_) =>
        count[i] := count[i] - 1;
        count[i + 1] := count[i + 1] - 1;
        count[i + 2] := count[i + 2] - 1;
      case Triplet(_) =>
        count[i] := count[i] - 3;
    }
    assert count[..] == TakeOut(before, m);
    hu := HuRecursiveCheck(count, n - 3);
    if hu {
      SplitGrows(before, m);
      return;
    }
    match m {
      case Run(_) =>
        count[i] := count[i] + 1;
        count[i + 1] := count[i + 1] + 1;
        count[i + 2] := count[i + 2] + 1;
      case Triplet(_) =>
        count[i] := count[i] + 3;
    }
    assert count[..] == before;
  }

  // ----- from tiles to counters -------------------------------------------------------

  ghost predicate AllPlayable(cells: seq<Mj>) {
    forall i :: 0 <= i < |cells| ==> Playable(cells[i])
  }

  /** The counters record how often each kind occurs. */
  ghost predicate Counts(count: seq<int>, tiles: multiset<Mj>) {
    |count| == 34 && forall k :: 0 <= k < 34 ==> count[k] == tiles[TileAt(k)]
  }

  lemma RunTiles(i: int)
    requires Legal(Run(i))
    ensures MeldTiles(Run(i)) == multiset{TileAt(i), TileAt(i + 1), TileAt(i + 2)}
  {
  }

  lemma SameTileSameSlot(i: int, k: int)
    requires 0 <= i < 34 && 0 <= k < 34
    ensures TileAt(i) == TileAt(k) <==> i == k
  {
  }

  lemma RunTilesCount(i: int, k: int)
    requires Legal(Run(i)) && 0 <= k < 34
    ensures MeldTiles(Run(i))[TileAt(k)] == Use(Run(i), k)
  {
    RunTiles(i);
    hide TileAt, MeldTiles;
    SameTileSameSlot(i, k);
    SameTileSameSlot(i + 1, k);
    SameTileSameSlot(i + 2, k);
    CountOfThree(TileAt(i), TileAt(i + 1), TileAt(i + 2), TileAt(k));
  }

  lemma TripletTilesCount(i: int, k: int)
    requires Legal(Triplet(i)) && 0 <= k < 34
    ensures MeldTiles(Triplet(i))[TileAt(k)] == Use(Triplet(i), k)
  {
  }

  lemma MeldTilesCount(m: Meld, k: int)
    requires Legal(m) && 0 <= k < 34
    ensures MeldTiles(m)[TileAt(k)] == Use(m, k)
  {
    hide TileAt, MeldTiles, Use;
    match m
    case Triplet(i) => TripletTilesCount(i, k);
    case Run(i) => RunTilesCount(i, k);
  }

  lemma {:induction false} TilesOfCount(melds: seq<Meld>, k: int)
    requires AllLegal(melds) && 0 <= k < 34
    ensures TilesOf(melds)[TileAt(k)] == Uses(melds, k)
  {
    hide TileAt, MeldTiles, Use;
    if melds != [] {
      MeldTilesCount(melds[0], k);
      TilesOfCount(melds[1..], k);
    }
  }

  lemma MeldTilesPlayable(m: Meld, t: Mj)
    requires Legal(m) && t in MeldTiles(m)
    ensures Playable(t)
  {
  }

  lemma {:induction false} TilesOfPlayable(melds: seq<Meld>, t: Mj)
    requires AllLegal(melds) && t in TilesOf(melds)
    ensures Playable(t)
  {
    hide MeldTiles, Playable;
    if t in MeldTiles(melds[0]) {
      MeldTilesPlayable(melds[0], t);
    } else {
      TilesOfPlayable(melds[1..], t);
    }
  }

  ghost predicate Pairs(count: seq<int>, p: int)
    requires |count| == 34
  {
    0 <= p < 34 && count[p] >= 2 && Splits(count[p := count[p] - 2])
  }

  /** Winning tiles are exactly those whose counts, less some pair, split. */
  lemma WinningByCounts(count: seq<int>, tiles: multiset<Mj>)
    requires Counts(count, tiles) && forall t :: t in tiles ==> Playable(t)
    ensures WinningTiles(tiles) <==> exists p :: Pairs(count, p)
  {
    if WinningTiles(tiles) {
      var pair, melds :| PairPlusMelds(tiles, pair, melds);
      PairFromTiles(count, tiles, pair, melds);
    }
    if p :| Pairs(count, p) {
      TilesFromPair(count, tiles, p);
    }
  }

  lemma PairFromTiles(count: seq<int>, tiles: multiset<Mj>, pair: Mj, melds: seq<Meld>)
    requires Counts(count, tiles) && PairPlusMelds(tiles, pair, melds)
    ensures Pairs(count, Slot(pair))
  {
    hide TileAt, Slot, TilesOf, Uses;
    var p := Slot(pair);
    TileAtSlot(pair);
    var rest := count[p := count[p] - 2];
    forall k | 0 <= k < 34
      ensures rest[k] == Uses(melds, k)
    {
      SlotOfTileAt(k);
      TilesOfCount(melds, k);
    }
    assert MadeOf(rest, melds);
    TilesOfCount(melds, p);
  }

  lemma TilesFromPair(count: seq<int>, tiles: multiset<Mj>, p: int)
    requires Counts(count, tiles) && forall t :: t in tiles ==> Playable(t)
    requires Pairs(count, p)
    ensures WinningTiles(tiles)
  {
    var pair := TileAt(p);
    SlotOfTileAt(p);
    var melds :| MadeOf(count[p := count[p] - 2], melds);
    var made := multiset{pair, pair} + TilesOf(melds);
    forall t
      ensures tiles[t] == made[t]
    {
      if Playable(t) {
        TileAtSlot(t);
        TilesOfCount(melds, Slot(t));
      } else if t in TilesOf(melds) {
        TilesOfPlayable(melds, t);
      }
    }
    assert tiles == made;
    assert PairPlusMelds(tiles, pair, melds);
  }

  /** The counting loop with which every question starts. */
  method CountCells(cells: array<Mj>, n: nat) returns (count: array<int>)
    requires n <= cells.Length && AllPlayable(cells[..n])
    ensures fresh(count) && count.Length == 34
    ensures Counts(count[..], multiset(cells[..n])) && Total(count[..]) == n
  {
    hide Slot, TileAt, Total, Playable;
    count := new int[34](_ => 0);
    ZerosTotal(count[..]);
    for j := 0 to n
      invariant Counts(count[..], multiset(cells[..j])) && Total(count[..]) == j
    {
      CountOne(count[..], multiset(cells[..j]), cells[j]);
      assert cells[..n][j] == cells[j];
      count[Slot(cells[j])] := count[Slot(cells[j])] + 1;
      assert cells[..j + 1] == cells[..j] + [cells[j]];
    }
  }

  lemma CountOne(count: seq<int>, tiles: multiset<Mj>, t: Mj)
    requires Counts(count, tiles) && Playable(t)
    ensures 0 <= Slot(t) < 34
    ensures Counts(count[Slot(t) := count[Slot(t)] + 1], tiles + multiset{t})
    ensures Total(count[Slot(t) := count[Slot(t)] + 1]) == Total(count) + 1
  {
    TileAtSlot(t);
    TotalOfUpdate(count, Slot(t), count[Slot(t)] + 1);
    forall k | 0 <= k < 34
      ensures k != Slot(t) ==> TileAt(k) != t
    {
      SlotOfTileAt(k);
    }
  }

  /** Tries every pair, as hu_check and is_add_hu_possible both do. */
  method PairSearch(count: array<int>, n: int) returns (hu: bool)
    requires count.Length == 34 && Natural(count[..]) && Total(count[..]) == n + 2
    modifies count
    ensures hu <==> exists p :: Pairs(old(count[..]), p)
  {
    for i := 0 to 34
      invariant count[..] == old(count[..])
      invariant forall p :: Pairs(count[..], p) ==> i <= p
    {
      if count[i] >= 2 {
        ghost var before := count[..];
        TotalOfUpdate(before, i, before[i] - 2);
        count[i] := count[i] - 2;
        assert count[..] == before[i := before[i] - 2];
        hu := HuRecursiveCheck(count, n);
        if hu {
          assert Pairs(before, i);
          return true;
        }
        count[i] := count[i] + 2;
        assert count[..] == before;
      }
    }
    return false;
  }

  // ----- the questions asked of a hand ---------------------------------------------------

  /** hu_check works on a copy, so the real hand is not in its frame. */
  method HuCheck(decks: array<Mj>, nc: nat) returns (hu: bool)
    requires 1 <= nc <= 16 && nc < decks.Length && AllPlayable(decks[..nc + 1])
    ensures hu <==> WinningTiles(multiset(decks[..nc + 1]))
  {
    var carbon := new Mj[17](_ => NULL_MJ);
    forall k | 0 <= k <= nc {
      carbon[k] := decks[k];
    }
    ghost var hand := decks[..nc + 1];
    assert carbon[..nc + 1] == hand;
    Insert(carbon, nc);
    PermutedStaysPlayable(hand, carbon[..nc + 1]);
    var count := CountCells(carbon, nc + 1);
    WinningByCounts(count[..], multiset(hand));
    hu := PairSearch(count, nc - 1);
  }

  lemma PermutedStaysPlayable(s: seq<Mj>, t: seq<Mj>)
    requires multiset(s) == multiset(t) && AllPlayable(s)
    ensures AllPlayable(t) && forall x :: x in multiset(s) ==> Playable(x)
  {
    forall x | x in multiset(s)
      ensures Playable(x)
    {
      assert x in s;
    }
    forall i | 0 <= i < |t|
      ensures Playable(t[i])
    {
      assert t[i] in multiset(t);
    }
  }

  /** The insertion loop of hu_check; only the order of the copy changes. */
  method Insert(carbon: array<Mj>, nc: nat)
    requires 1 <= nc < carbon.Length
    modifies carbon
    ensures multiset(carbon[..nc + 1]) == multiset(old(carbon[..nc + 1]))
  {
    ghost var s := carbon[..];
    var gotten := carbon[nc];
    var insertIndex: int := nc - 1;
    while insertIndex != -1 && Compare(carbon[insertIndex], gotten) == -1
      invariant -1 <= insertIndex < nc
      invariant forall k :: 0 <= k <= insertIndex ==> carbon[k] == s[k]
      invariant forall k :: insertIndex + 2 <= k <= nc ==> carbon[k] == s[k - 1]
    {
      carbon[insertIndex + 1] := carbon[insertIndex];
      insertIndex := insertIndex - 1;
    }
    insertIndex := insertIndex + 1;
    carbon[insertIndex] := gotten;
    Inserted(s, carbon[..], nc, insertIndex);
  }

  lemma Inserted(s: seq<Mj>, t: seq<Mj>, nc: nat, at: nat)
    requires at <= nc < |s| == |t| && t[at] == s[nc]
    requires forall k :: 0 <= k < at ==> t[k] == s[k]
    requires forall k :: at < k <= nc ==> t[k] == s[k - 1]
    ensures multiset(t[..nc + 1]) == multiset(s[..nc + 1])
  {
    assert t[..nc + 1] == s[..at] + [s[nc]] + s[at..nc];
    assert s[..nc + 1] == s[..at] + s[at..nc] + [s[nc]];
  }

  method IsAddHuPossible(deck: array<Mj>, nc: nat, discarded: Mj) returns (possible: bool)
    requires 1 <= nc <= deck.Length && AllPlayable(deck[..nc]) && Playable(discarded)
    ensures possible <==> WinningTiles(multiset(deck[..nc]) + multiset{discarded})
  {
    var count := CountCells(deck, nc);
    CountOne(count[..], multiset(deck[..nc]), discarded);
    count[Slot(discarded)] := count[Slot(discarded)] + 1;
    PermutedStaysPlayable(deck[..nc], deck[..nc]);
    WinningByCounts(count[..], multiset(deck[..nc]) + multiset{discarded});
    possible := PairSearch(count, nc - 1);
  }

  /** Claiming a discard and drawing the same tile win alike. */
  lemma AddHuAgreesWithHuCheck(hand: seq<Mj>, nc: nat, discarded: Mj)
    requires nc < |hand|
    ensures WinningTiles(multiset(hand[..nc]) + multiset{discarded})
      <==> WinningTiles(multiset(hand[nc := discarded][..nc + 1]))
  {
    assert hand[nc := discarded][..nc + 1] == hand[..nc] + [discarded];
  }

  method IsSetPossible(deck: array<Mj>, nc: nat, discarded: Mj, copies: nat) returns (possible: bool)
    requires nc <= deck.Length && AllPlayable(deck[..nc]) && Playable(discarded)
    ensures possible <==> multiset(deck[..nc])[discarded] >= copies
  {
    var count := CountCells(deck, nc);
    TileAtSlot(discarded);
    possible := count[Slot(discarded)] >= copies;
  }

  predicate InRow(a: Mj, b: Mj, c: Mj) {
    a.suit == b.suit == c.suit && b.number == a.number + 1 && c.number == b.number + 1
  }

  /** x and y complete the discard, in whatever order, to three consecutive tiles. */
  predicate CompletesRun(x: Mj, y: Mj, d: Mj) {
    || InRow(d, x, y) || InRow(d, y, x)
    || InRow(x, d, y) || InRow(y, d, x)
    || InRow(x, y, d) || InRow(y, x, d)
  }

  ghost predicate CanEat(tiles: multiset<Mj>, discarded: Mj) {
    discarded.suit != DAZI && exists x, y :: x in tiles && y in tiles && CompletesRun(x, y, discarded)
  }

  /** The neighbour test of is_eat_possible, for the counter delta away. */
  method HasNeighbour(count: array<int>, target: int, delta: int, ghost tiles: multiset<Mj>, ghost d: Mj)
    returns (held: bool)
    requires Counts(count[..], tiles) && Playable(d) && d.suit != DAZI && -2 <= delta <= 2
    requires target == Slot(d) && forall t :: t in tiles ==> Playable(t)
    ensures held <==> Mj(d.suit, d.number + delta) in tiles
  {
    held := 0 <= target + delta < 34 && count[target + delta] >= 1 && target / 9 == (target + delta) / 9;
    SameBlock(d, delta);
    ghost var t := Mj(d.suit, d.number + delta);
    if Playable(t) {
      CountOf(count[..], tiles, t);
    }
  }

  lemma CountOf(count: seq<int>, tiles: multiset<Mj>, t: Mj)
    requires Counts(count, tiles) && Playable(t)
    ensures 0 <= Slot(t) < 34 && count[Slot(t)] == tiles[t]
  {
  }

  lemma SameBlock(d: Mj, delta: int)
    requires Playable(d) && d.suit != DAZI && -2 <= delta <= 2
    ensures Playable(Mj(d.suit, d.number + delta)) <==>
      0 <= Slot(d) + delta < 34 && Slot(d) / 9 == (Slot(d) + delta) / 9
  {
  }

  lemma EatByNeighbours(tiles: multiset<Mj>, d: Mj)
    requires Playable(d) && d.suit != DAZI
    ensures CanEat(tiles, d) <==>
      || (Mj(d.suit, d.number + 1) in tiles && Mj(d.suit, d.number + 2) in tiles)
      || (Mj(d.suit, d.number + 1) in tiles && Mj(d.suit, d.number - 1) in tiles)
      || (Mj(d.suit, d.number - 2) in tiles && Mj(d.suit, d.number - 1) in tiles)
  {
  }

  method IsEatPossible(deck: array<Mj>, nc: nat, discarded: Mj) returns (possible: bool)
    requires nc <= deck.Length && AllPlayable(deck[..nc]) && Playable(discarded)
    ensures possible <==> CanEat(multiset(deck[..nc]), discarded)
  {
    if discarded.suit == DAZI {
      return false;
    }
    var count := CountCells(deck, nc);
    var target := Slot(discarded);
    ghost var tiles := multiset(deck[..nc]);
    PermutedStaysPlayable(deck[..nc], deck[..nc]);
    EatByNeighbours(tiles, discarded);
    var up1 := HasNeighbour(count, target, 1, tiles, discarded);
    var up2 := HasNeighbour(count, target, 2, tiles, discarded);
    var down1 := HasNeighbour(count, target, -1, tiles, discarded);
    var down2 := HasNeighbour(count, target, -2, tiles, discarded);
    possible := (up1 && up2) || (up1 && down1) || (down2 && down1);
  }
}
