/** What the programs do to the twenty cells of a hand: punch holes for a meld,
    close them by swaps, throw one tile away, and sort. */
module Melds {
  import opened Tiles
  import opened Winning
  import QuickSort

  /** n playable tiles in front, empty cells behind. */
  ghost predicate Hand(cells: seq<Mj>, n: nat) {
    && n <= |cells|
    && (forall k :: 0 <= k < n ==> Playable(cells[k]))
    && (forall k :: n <= k < |cells| ==> cells[k] == NULL_MJ)
  }

  ghost predicate SortedHand(cells: seq<Mj>, n: nat) {
    Hand(cells, n) && QuickSort.Sorted(cells[..n], Key)
  }

  lemma {:induction false} EmptyCells(cells: seq<Mj>)
    requires forall k :: 0 <= k < |cells| ==> cells[k] == NULL_MJ
    ensures Bag(cells) == multiset{}
  {
  }

  /** The bag of a hand is the multiset of its live cells. */
  lemma BagOfHand(cells: seq<Mj>, n: nat)
    requires Hand(cells, n)
    ensures Bag(cells) == multiset(cells[..n])
    ensures |Bag(cells)| == n
  {
    EmptyCells(cells[n..]);
    BagOfConcat(cells[..n], cells[n..]);
    assert cells == cells[..n] + cells[n..];
    assert NULL_MJ !in cells[..n];
  }

  lemma KeysDistinguish(s: seq<Mj>)
    requires AllPlayable(s)
    ensures QuickSort.Distinguishes(Key, s)
  {
  }

  /** A sorted hand is determined by the bag of its tiles, cell by cell. */
  lemma SortedHandUnique(s: seq<Mj>, t: seq<Mj>, n: nat)
    requires |s| == |t| && SortedHand(s, n) && SortedHand(t, n) && Bag(s) == Bag(t)
    ensures s == t
  {
    BagOfHand(s, n);
    BagOfHand(t, n);
    KeysDistinguish(s[..n]);
    QuickSort.SortedUnique(s[..n], t[..n], Key);
    forall k | 0 <= k < |s|
      ensures s[k] == t[k]
    {
      if k < n {
        assert s[..n][k] == t[..n][k];
      }
    }
  }

  // ----- sorting and discarding ------------------------------------------------------

  /** decks_quick_sort over the live cells of a hand. */
  method SortHand(decks: array<Mj>, n: nat)
    requires 1 <= n && Hand(decks[..], n)
    modifies decks
    ensures SortedHand(decks[..], n)
    ensures Bag(decks[..]) == Bag(old(decks[..]))
  {
    QuickSort.Sort(decks, 0, n - 1, Key);
    RearrangedFront(old(decks[..]), decks[..], n);
  }

  /** The cell work shared by discard and client_discard. */
  method ThrowAway(decks: array<Mj>, nc: nat, index: nat)
    requires 1 <= nc && index <= nc < decks.Length && Hand(decks[..], nc + 1)
    modifies decks
    ensures SortedHand(decks[..], nc)
    ensures Bag(decks[..]) + multiset{old(decks[index])} == Bag(old(decks[..]))
  {
    hide Bag, SortedHand;
    ghost var before := decks[..];
    QuickSort.Swap(decks, nc, index);
    ghost var swapped := decks[..];
    decks[nc] := NULL_MJ;
    assert decks[..] == swapped[nc := NULL_MJ];
    ThrownAway(before, swapped, nc, index);
    SortHand(decks, nc);
  }

  lemma ThrownAway(s: seq<Mj>, t: seq<Mj>, nc: nat, index: nat)
    requires Hand(s, nc + 1) && index <= nc && |t| == |s| && multiset(s) == multiset(t)
    requires t[index] == s[nc] && t[nc] == s[index] && forall k :: 0 <= k < |s| && k != nc && k != index ==> t[k] == s[k]
    ensures Hand(t[nc := NULL_MJ], nc)
    ensures Bag(t[nc := NULL_MJ]) + multiset{s[index]} == Bag(s)
  {
  }

  // ----- melds of equal tiles: pong and gang --------------------------------------------

  /** The first copies of d stand together at j .. j + c. */
  ghost predicate CopiesAt(s: seq<Mj>, nc: nat, d: Mj, j: nat, c: nat) {
    && j + c <= nc <= |s|
    && (forall k :: 0 <= k < j ==> s[k] != d)
    && (forall k :: j <= k < j + c ==> s[k] == d)
  }

  ghost function Copies(d: Mj, n: nat): multiset<Mj> {
    multiset{}[d := n]
  }

  lemma {:induction false} BagOfCopies(s: seq<Mj>, d: Mj)
    requires forall k :: 0 <= k < |s| ==> s[k] == d
    ensures multiset(s) == Copies(d, |s|)
  {
    if s != [] {
      BagOfCopies(s[1..], d);
      assert s == [s[0]] + s[1..];
    }
  }

  /** The cells from a first copy on are all copies up to the last one. */
  lemma NothingBetween(live: seq<Mj>, d: Mj, j: nat, m: nat)
    requires QuickSort.Sorted(live, Key) && AllPlayable(live) && j < m <= |live|
    requires live[j] == d && (m < |live| ==> live[m] != d)
    ensures d !in live[m..]
  {
  }

  /** In a sorted hand equal tiles are neighbours. */
  lemma CopiesStandTogether(s: seq<Mj>, nc: nat, d: Mj, c: nat) returns (j: nat)
    requires SortedHand(s, nc) && 1 <= c <= multiset(s[..nc])[d]
    ensures CopiesAt(s, nc, d, j, c)
  {
    var live := s[..nc];
    j := 0;
    while j < nc && live[j] != d
      invariant j <= nc && forall k :: 0 <= k < j ==> live[k] != d
    {
      j := j + 1;
    }
    assert d in multiset(live);
    var m := j + 1;
    while m < nc && live[m] == d
      invariant j < m <= nc && forall k :: j <= k < m ==> live[k] == d
    {
      m := m + 1;
    }
    NothingBetween(live, d, j, m);
    CountOfBlock(live, d, j, m);
  }

  lemma CountOfBlock(live: seq<Mj>, d: Mj, j: nat, m: nat)
    requires j <= m <= |live| && d !in live[..j] && d !in live[m..]
    requires forall k :: j <= k < m ==> live[k] == d
    ensures multiset(live)[d] == m - j
  {
    BagOfCopies(live[j..m], d);
    assert live == live[..j] + live[j..m] + live[m..];
  }

  ghost function Nulled(s: seq<Mj>, j: nat, t: nat): (r: seq<Mj>)
    requires j + t <= |s|
    ensures |r| == |s|
    ensures forall k :: 0 <= k < |s| ==> r[k] == if j <= k < j + t then NULL_MJ else s[k]
  {
    s[..j] + seq(t, _ => NULL_MJ) + s[j + t..]
  }

  lemma CopiesFitIn(s: seq<Mj>, nc: nat, d: Mj, j: nat, c: nat)
    requires CopiesAt(s, nc, d, j, c)
    ensures j + c <= nc <= |s| && forall k :: j <= k < j + c ==> s[k] == d
  {
  }

  lemma NulledMore(s: seq<Mj>, j: nat, t: nat)
    requires j + t < |s|
    ensures |Nulled(s, j, t)| == |s|
    ensures Nulled(s, j, t)[j + t := NULL_MJ] == Nulled(s, j, t + 1)
    ensures Nulled(s, j, 0) == s
  {
  }

  /** The scan for copies meets the first one at j and then one after the other. */
  lemma ScanMeetsCopies(s: seq<Mj>, nc: nat, d: Mj, j: nat, c: nat, t: nat, i: nat)
    requires CopiesAt(s, nc, d, j, c) && t < c && i < nc && (i <= j ==> t == 0) && (i > j ==> t == i - j)
    ensures Nulled(s, j, t)[i] == d <==> i == j + t
  {
  }

  /** The first scan of a pong or gang on the cells alone, as the client has it. */
  method EmptyCopies(decks: array<Mj>, nc: nat, d: Mj, c: nat, ghost j: nat)
    requires 1 <= c && nc <= decks.Length && CopiesAt(decks[..], nc, d, j, c) && d != NULL_MJ
    modifies decks
    ensures decks[..] == Nulled(old(decks[..]), j, c)
  {
    hide Nulled, CopiesAt;
    ghost var s := decks[..];
    var need := c;
    CopiesFitIn(s, nc, d, j, c);
    NulledMore(s, j, 0);
    for i := 0 to nc
      invariant 1 <= need <= c && (i <= j ==> need == c) && (i > j ==> need == c - (i - j))
      invariant decks[..] == Nulled(s, j, c - need)
    {
      ScanMeetsCopies(s, nc, d, j, c, c - need, i);
      if Compare(d, decks[i]) == 0 {
        NulledMore(s, j, c - need);
        decks[i] := NULL_MJ;
        need := need - 1;
        assert decks[..] == Nulled(s, j, c - need - 1)[i := NULL_MJ];
        if need == 0 {
          break;
        }
      }
    }
  }

  lemma BagOfNulled(s: seq<Mj>, d: Mj, j: nat, t: nat)
    requires j + t <= |s| && d != NULL_MJ
    requires forall k :: j <= k < j + t ==> s[k] == d
    ensures Bag(Nulled(s, j, t)) + Copies(d, t) == Bag(s)
  {
    var holes := seq(t, _ => NULL_MJ);
    EmptyCells(holes);
    BagOfCopies(s[j..j + t], d);
    BagOfConcat(s[..j] + holes, s[j + t..]);
    BagOfConcat(s[..j], holes);
    BagOfConcat(s[..j] + s[j..j + t], s[j + t..]);
    BagOfConcat(s[..j], s[j..j + t]);
    assert s == s[..j] + s[j..j + t] + s[j + t..];
  }

  /** Where the compaction puts the hole it finds at x. */
  function Mirror(nc: nat, j: nat, x: int): int {
    nc - 1 - (x - j)
  }

  /** Holes at j .. j + c, tiles elsewhere below nc, empty cells behind cell nc, which may
      hold a drawn tile. */
  ghost predicate Holed(s: seq<Mj>, nc: nat, j: nat, c: nat) {
    && 1 <= c && j + c <= nc < |s|
    && (forall k :: 0 <= k < nc && !(j <= k < j + c) ==> Playable(s[k]))
    && (forall k :: j <= k < j + c || nc < k < |s| ==> s[k] == NULL_MJ)
  }

  /** The holes below i have changed places with the last cells; the rest is as in s. */
  ghost predicate PartlyClosed(s: seq<Mj>, a: seq<Mj>, nc: nat, j: nat, i: nat)
    requires j <= i <= nc <= |s| == |a|
  {
    && (forall x :: j <= x < i ==> a[x] == s[Mirror(nc, j, x)])
    && (forall x :: nc - (i - j) <= x < nc ==> a[x] == NULL_MJ)
    && (forall x :: 0 <= x < j || i <= x < nc - (i - j) || nc <= x < |a| ==> a[x] == s[x])
  }

  lemma HolesStart(s: seq<Mj>, nc: nat, j: nat, c: nat)
    requires Holed(s, nc, j, c)
    ensures 1 <= c && j + c <= nc < |s|
    ensures forall k :: 0 <= k < j ==> s[k] != NULL_MJ
  {
  }

  lemma CloseOne(s: seq<Mj>, a: seq<Mj>, b: seq<Mj>, nc: nat, j: nat, c: nat, i: nat)
    requires Holed(s, nc, j, c) && j <= i < j + c && |a| == |s| == |b| && PartlyClosed(s, a, nc, j, i)
    requires b[i] == a[Mirror(nc, j, i)] && b[Mirror(nc, j, i)] == a[i]
    requires forall x :: 0 <= x < |a| && x != i && x != Mirror(nc, j, i) ==> b[x] == a[x]
    ensures a[i] == NULL_MJ && PartlyClosed(s, b, nc, j, i + 1)
  {
  }

  lemma NextIsHole(s: seq<Mj>, a: seq<Mj>, nc: nat, j: nat, c: nat, i: nat)
    requires Holed(s, nc, j, c) && j <= i < j + c && |a| == |s| && PartlyClosed(s, a, nc, j, i)
    ensures a[i] == NULL_MJ
  {
  }

  lemma AllClosed(s: seq<Mj>, a: seq<Mj>, nc: nat, j: nat, c: nat)
    requires Holed(s, nc, j, c) && |a| == |s| && PartlyClosed(s, a, nc, j, j + c)
    ensures a[nc] == s[nc] && Hand(a[nc := NULL_MJ], nc - c)
  {
  }

  /** The second scan of a pong (c == 2) or gang (c == 3): every hole is swapped with
      the last cell not yet given one. The holes of a sorted hand stand together, and
      then no hole is left among the first nc - c cells, wherever they stood. */
  method Compact(decks: array<Mj>, nc: nat, c: nat, ghost j: nat)
    requires Holed(decks[..], nc, j, c)
    modifies decks
    ensures nc < decks.Length && decks[nc] == old(decks[..])[nc] && Hand(decks[..][nc := NULL_MJ], nc - c)
    ensures multiset(decks[..]) == multiset(old(decks[..]))
  {
    hide Holed, PartlyClosed;
    ghost var s := decks[..];
    HolesStart(s, nc, j, c);
    var need := c;
    for i := 0 to nc
      invariant j + c <= nc < decks.Length && 1 <= need <= c
      invariant if i <= j then need == c && decks[..] == s else need == c - (i - j) && PartlyClosed(s, decks[..], nc, j, i)
      invariant multiset(decks[..]) == multiset(s)
    {
      if i == j {
        NothingClosed(s, nc, j);
      }
      if i >= j {
        NextIsHole(s, decks[..], nc, j, c, i);
      }
      if decks[i] == NULL_MJ {
        ghost var before := decks[..];
        QuickSort.Swap(decks, i, nc - c - 1 + need);
        CloseOne(s, before, decks[..], nc, j, c, i);
        need := need - 1;
        if need == 0 {
          AllClosed(s, decks[..], nc, j, c);
          break;
        }
      }
    }
  }

  lemma NothingClosed(s: seq<Mj>, nc: nat, j: nat)
    requires j <= nc <= |s|
    ensures PartlyClosed(s, s, nc, j, j)
  {
  }

  lemma NulledIsHoled(s: seq<Mj>, nc: nat, j: nat, c: nat)
    requires nc < |s| && Hand(s[nc := NULL_MJ], nc) && 1 <= c && j + c <= nc
    ensures Holed(Nulled(s, j, c), nc, j, c) && Nulled(s, j, c)[nc] == s[nc]
  {
    assert forall k :: 0 <= k < |s| && k != nc ==> s[nc := NULL_MJ][k] == s[k];
  }

  /** The swaps and the sort that follow: c copies of d leave a sorted hand. A tile in cell
      nc stays where it is. */
  method CloseHoles(decks: array<Mj>, nc: nat, c: nat, ghost j: nat)
    requires c < nc < decks.Length && Holed(decks[..], nc, j, c)
    modifies decks
    ensures decks[nc] == old(decks[nc]) && SortedHand(decks[..][nc := NULL_MJ], nc - c)
    ensures Bag(decks[..]) == Bag(old(decks[..]))
  {
    hide Hand, Holed, Bag, QuickSort.OnlyRangeRearranged;
    ghost var holed := decks[..];
    Compact(decks, nc, c, j);
    ghost var closed := decks[..];
    SameBagOfCells(holed, closed);
    QuickSort.Sort(decks, 0, nc - c - 1, Key);
    RearrangedFront(closed, decks[..], nc - c);
    RearrangedBelow(closed, decks[..], nc - c, nc);
    RearrangedFront(closed[nc := NULL_MJ], decks[..][nc := NULL_MJ], nc - c);
    assert decks[..][nc := NULL_MJ][..nc - c] == decks[0..nc - c];
  }

  lemma SameBagOfCells(s: seq<Mj>, t: seq<Mj>)
    requires multiset(s) == multiset(t)
    ensures Bag(s) == Bag(t)
  {
  }

  /** What lies behind a sorted range does not matter to it. */
  lemma RearrangedBelow(s: seq<Mj>, t: seq<Mj>, n: nat, k: nat)
    requires n <= k < |s| && QuickSort.OnlyRangeRearranged(s, t, 0, n - 1)
    ensures |t| == |s| && t[k] == s[k] && QuickSort.OnlyRangeRearranged(s[k := NULL_MJ], t[k := NULL_MJ], 0, n - 1)
  {
    assert s[k := NULL_MJ][0..n] == s[0..n] && t[k := NULL_MJ][0..n] == t[0..n];
  }

  // ----- melds of consecutive tiles: eat ------------------------------------------------

  /** eat_temp, sorted. */
  method SortThree(x: Mj, y: Mj, d: Mj) returns (sorted: seq<Mj>)
    ensures |sorted| == 3
    ensures multiset(sorted) == multiset([x, y, d]) && QuickSort.Sorted(sorted, Key)
  {
    var temp := new Mj[3];
    temp[0], temp[1], temp[2] := x, y, d;
    assert temp[..] == [x, y, d];
    QuickSort.SortWhole(temp, Key);
    sorted := temp[..];
  }

  /** The test of an eat answer: the three tiles, sorted, are in a row. */
  method EatTest(x: Mj, y: Mj, d: Mj) returns (eatable: bool, sorted: seq<Mj>)
    requires InKeyRange(x) && InKeyRange(y) && InKeyRange(d)
    ensures eatable <==> CompletesRun(x, y, d)
    ensures |sorted| == 3
    ensures multiset(sorted) == multiset([x, y, d]) && QuickSort.Sorted(sorted, Key)
  {
    sorted := SortThree(x, y, d);
    SortedTriple(x, y, d, sorted);
    eatable := InRow(sorted[0], sorted[1], sorted[2]);
  }

  lemma SortedTriple(x: Mj, y: Mj, d: Mj, t: seq<Mj>)
    requires InKeyRange(x) && InKeyRange(y) && InKeyRange(d) && |t| == 3
    requires multiset(t) == multiset([x, y, d]) && QuickSort.Sorted(t, Key)
    ensures InRow(t[0], t[1], t[2]) <==> CompletesRun(x, y, d)
  {
    assert t == [t[0], t[1], t[2]];
    PermutationsOfThree(t[0], t[1], t[2], x, y, d);
    TripleInRow(x, y, d, t[0], t[1], t[2]);
  }

  ghost predicate SameThree<T>(a: T, b: T, c: T, x: T, y: T, z: T) {
    || (a == x && b == y && c == z) || (a == x && b == z && c == y)
    || (a == y && b == x && c == z) || (a == y && b == z && c == x)
    || (a == z && b == x && c == y) || (a == z && b == y && c == x)
  }

  lemma PermutationsOfThree<T>(a: T, b: T, c: T, x: T, y: T, z: T)
    requires multiset{a, b, c} == multiset{x, y, z}
    ensures SameThree(a, b, c, x, y, z)
  {
  }

  /** For a sorted arrangement a, b, c of the three tiles. */
  lemma TripleInRow(x: Mj, y: Mj, d: Mj, a: Mj, b: Mj, c: Mj)
    requires InKeyRange(x) && InKeyRange(y) && InKeyRange(d)
    requires SameThree(a, b, c, x, y, d) && Key(a) <= Key(b) <= Key(c)
    ensures InRow(a, b, c) <==> CompletesRun(x, y, d)
  {
  }

  /** The cells after an eat has emptied its two and swapped them to the tail. */
  ghost function EatSwapped(s: seq<Mj>, nc: nat, e1: nat, e2: nat): seq<Mj>
    requires 2 <= nc <= |s| && e1 < nc && e2 < nc
  {
    var h := s[e1 := NULL_MJ][e2 := NULL_MJ];
    QuickSort.Swapped(QuickSort.Swapped(h, e1, nc - 1), e2, nc - 2)
  }

  /** The answers that the two fixed swaps handle wrongly. */
  predicate Misplaces(nc: nat, e1: nat, e2: nat) {
    e2 == nc - 1 && e1 < nc - 2
  }

  lemma EatKeepsTiles(s: seq<Mj>, nc: nat, e1: nat, e2: nat)
    requires 2 <= nc <= |s| && e1 < nc && e2 < nc && e1 != e2
    requires s[e1] != NULL_MJ && s[e2] != NULL_MJ
    ensures |EatSwapped(s, nc, e1, e2)| == |s|
    ensures Bag(EatSwapped(s, nc, e1, e2)) + multiset{s[e1], s[e2]} == Bag(s)
  {
    BagOfEmptied(s, e1);
    BagOfEmptied(s[e1 := NULL_MJ], e2);
    assert multiset{s[e1], s[e2]} == multiset{s[e2]} + multiset{s[e1]};
  }

  /** The swaps lose no tile, but they close the hand exactly when the answer is not
      one of the misplaced kind: then a hole stays inside and a tile falls outside. */
  lemma EatClosesHand(s: seq<Mj>, nc: nat, e1: nat, e2: nat)
    requires Hand(s, nc) && 2 <= nc && e1 < nc && e2 < nc && e1 != e2
    ensures |EatSwapped(s, nc, e1, e2)| == |s|
    ensures Hand(EatSwapped(s, nc, e1, e2), nc - 2) <==> !Misplaces(nc, e1, e2)
  {
    var r := EatSwapped(s, nc, e1, e2);
    if Misplaces(nc, e1, e2) {
      assert r[e1] == NULL_MJ;
    } else {
      forall k | 0 <= k < |r|
        ensures if k < nc - 2 then Playable(r[k]) else r[k] == NULL_MJ
      {
      }
    }
  }

  /** The failing family is not empty: four tiles, eaten with cells 0 and 3. */
  lemma EatMisplacesATile() returns (s: seq<Mj>)
    ensures SortedHand(s, 4) && Misplaces(4, 0, 3) && CompletesRun(s[0], s[3], Mj(TONG, 3))
    ensures !Hand(EatSwapped(s, 4, 0, 3), 2)
  {
    s := [Mj(TONG, 1), Mj(TONG, 1), Mj(TONG, 1), Mj(TONG, 2)];
    EatClosesHand(s, 4, 0, 3);
  }

  /** The win test that follows a misplaced eat counts cells 0 .. nc - 3, and the first of
      them is empty after the sort: its counter is none of the 34. */
  lemma MisplacedEatHasNoCounter(s: seq<Mj>, t: seq<Mj>, nc: nat, e1: nat, e2: nat)
    requires Hand(s, nc) && 3 <= nc && e1 < nc && e2 < nc && Misplaces(nc, e1, e2)
    requires QuickSort.OnlyRangeRearranged(EatSwapped(s, nc, e1, e2), t, 0, nc - 3)
    requires QuickSort.Sorted(t[..nc - 2], Key)
    ensures |t| == |s| && t[0] == NULL_MJ && !(0 <= Slot(t[0]) < 34)
  {
    var r := EatSwapped(s, nc, e1, e2);
    var front := t[..nc - 2];
    assert r[e1] == NULL_MJ;
    assert r[0..nc - 2][e1] in multiset(r[0..nc - 2]) && t[0..nc - 2] == front;
    assert NULL_MJ in multiset(front);
    var i :| 0 <= i < |front| && front[i] == NULL_MJ;
    assert Key(front[0]) <= Key(front[i]);
    assert front[0] in multiset(r[0..nc - 2]);
    var k :| 0 <= k < |r[0..nc - 2]| && r[0..nc - 2][k] == front[0];
    assert r[k] == front[0];
  }

  method EatSwaps(decks: array<Mj>, nc: nat, e1: nat, e2: nat)
    requires 2 <= nc <= decks.Length && e1 < nc && e2 < nc
    modifies decks
    ensures decks[..] == EatSwapped(old(decks[..]), nc, e1, e2)
  {
    hide QuickSort.Swapped;
    decks[e1] := NULL_MJ;
    decks[e2] := NULL_MJ;
    ghost var h := decks[..];
    assert h == old(decks[..])[e1 := NULL_MJ][e2 := NULL_MJ];
    QuickSort.Swap(decks, e1, nc - 1);
    ghost var first := decks[..];
    QuickSort.IsSwapped(h, first, e1, nc - 1);
    QuickSort.Swap(decks, e2, nc - 2);
    QuickSort.IsSwapped(first, decks[..], e2, nc - 2);
  }

  /** The cell work shared by the eat branches of server and client. */
  method EatCells(decks: array<Mj>, nc: nat, e1: nat, e2: nat)
    requires 3 <= nc <= decks.Length && e1 < nc && e2 < nc && e1 != e2
    requires Hand(decks[..], nc)
    modifies decks
    ensures QuickSort.OnlyRangeRearranged(EatSwapped(old(decks[..]), nc, e1, e2), decks[..], 0, nc - 3)
    ensures QuickSort.Sorted(decks[..nc - 2], Key)
    ensures !Misplaces(nc, e1, e2) ==> SortedHand(decks[..], nc - 2)
    ensures Bag(decks[..]) + multiset{old(decks[e1]), old(decks[e2])} == Bag(old(decks[..]))
  {
    hide Hand, EatSwapped, QuickSort.Sorted, QuickSort.OnlyRangeRearranged, Bag;
    ghost var s := decks[..];
    EatSwaps(decks, nc, e1, e2);
    QuickSort.Sort(decks, 0, nc - 3, Key);
    EatenBag(s, decks[..], nc, e1, e2);
    EatenShape(s, decks[..], nc, e1, e2);
    assert decks[..nc - 2] == decks[0..nc - 2] == decks[..][..nc - 2];
  }

  lemma EatenBag(s: seq<Mj>, t: seq<Mj>, nc: nat, e1: nat, e2: nat)
    requires Hand(s, nc) && 3 <= nc <= |s| && e1 < nc && e2 < nc && e1 != e2
    requires QuickSort.OnlyRangeRearranged(EatSwapped(s, nc, e1, e2), t, 0, nc - 3)
    ensures Bag(t) + multiset{s[e1], s[e2]} == Bag(s)
  {
    hide EatSwapped, Bag, QuickSort.OnlyRangeRearranged;
    EatKeepsTiles(s, nc, e1, e2);
    RearrangedFront(EatSwapped(s, nc, e1, e2), t, nc - 2);
  }

  lemma EatenShape(s: seq<Mj>, t: seq<Mj>, nc: nat, e1: nat, e2: nat)
    requires Hand(s, nc) && 3 <= nc <= |s| && e1 < nc && e2 < nc && e1 != e2
    requires QuickSort.OnlyRangeRearranged(EatSwapped(s, nc, e1, e2), t, 0, nc - 3)
    ensures |t| == |s|
    ensures Hand(t, nc - 2) <==> !Misplaces(nc, e1, e2)
  {
    hide Hand, EatSwapped, Misplaces, QuickSort.OnlyRangeRearranged, Bag;
    var swapped := EatSwapped(s, nc, e1, e2);
    EatClosesHand(s, nc, e1, e2);
    QuickSort.OnlyRangeSymmetric(swapped, t, 0, nc - 3);
    RearrangedFront(swapped, t, nc - 2);
    RearrangedFront(t, swapped, nc - 2);
  }

  /** Sorting the front cells alone changes neither the bag nor the shape. */
  lemma RearrangedFront(s: seq<Mj>, t: seq<Mj>, n: nat)
    requires n <= |s| && QuickSort.OnlyRangeRearranged(s, t, 0, n - 1)
    ensures multiset(s) == multiset(t) && Bag(s) == Bag(t)
    ensures Hand(s, n) ==> Hand(t, n)
  {
    hide Playable;
    assert s[n..] == t[n..];
    assert s == s[0..n] + s[n..] && t == t[0..n] + t[n..];
    if Hand(s, n) {
      PermutedStaysPlayable(s[0..n], t[0..n]);
      forall k | 0 <= k < n
        ensures Playable(t[k])
      {
        assert t[k] == t[0..n][k];
      }
    }
  }
}
