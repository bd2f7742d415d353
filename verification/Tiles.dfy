/** The tiles of the mahjong table: the C `struct mj` without its `priority`
    field, which only the shuffling sort reads (see module Wall). */
module Tiles {
  const NO_TYPE := 0
  const TONG := 1
  const TIAO := 2
  const WAN := 3
  const DAZI := 4
  const FLOWER := 5

  datatype Mj = Mj(suit: int, number: int)

  /** The cell value that memset and the melds leave behind. */
  const NULL_MJ := Mj(NO_TYPE, 0)

  /** One of the 34 kinds a hand may hold. */
  predicate Playable(m: Mj) {
    || (TONG <= m.suit <= WAN && 1 <= m.number <= 9)
    || (m.suit == DAZI && 1 <= m.number <= 7)
  }

  predicate Flower(m: Mj) {
    m.suit == FLOWER && 1 <= m.number <= 8
  }

  /** The sort key of decks_quick_sort. */
  function Key(m: Mj): int {
    m.suit * 10 + m.number
  }

  /** mj_compare: -1 when a is the larger tile, 1 when it is the smaller one. */
  function Compare(a: Mj, b: Mj): int {
    if a.suit == b.suit && a.number == b.number then 0
    else if a.suit > b.suit || (a.suit == b.suit && a.number > b.number) then -1
    else 1
  }

  predicate InKeyRange(m: Mj) {
    0 <= m.number <= 9
  }

  /** The two orders of the program agree: the lexicographic comparison and the
      single integer key, including that equal keys mean equal tiles. */
  lemma KeyOrdersAsCompare(a: Mj, b: Mj)
    requires InKeyRange(a) && InKeyRange(b)
    ensures Compare(a, b) == -1 <==> Key(a) > Key(b)
    ensures Compare(a, b) == 1 <==> Key(a) < Key(b)
    ensures Key(a) == Key(b) <==> a == b
  {
  }

  /** The bag of real tiles among some cells: empty cells do not count. */
  ghost function Bag(cells: seq<Mj>): multiset<Mj> {
    multiset(cells)[NULL_MJ := 0]
  }

  lemma BagOfConcat(s: seq<Mj>, t: seq<Mj>)
    ensures Bag(s + t) == Bag(s) + Bag(t)
  {
  }

  /** Emptying a cell takes exactly its tile out of the bag. */
  lemma BagOfEmptied(s: seq<Mj>, i: nat)
    requires i < |s| && s[i] != NULL_MJ
    ensures Bag(s[i := NULL_MJ]) + multiset{s[i]} == Bag(s)
  {
  }

  /** Filling an empty cell adds exactly its tile. */
  lemma BagOfFilled(s: seq<Mj>, i: nat, m: Mj)
    requires i < |s| && s[i] == NULL_MJ && m != NULL_MJ
    ensures Bag(s[i := m]) == Bag(s) + multiset{m}
  {
  }

  function One<T(==)>(x: T, v: T): nat {
    if x == v then 1 else 0
  }

  lemma CountOfThree<T>(x: T, y: T, z: T, v: T)
    ensures multiset{x, y, z}[v] == One(x, v) + One(y, v) + One(z, v)
  {
  }
}
