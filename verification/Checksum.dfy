/** in_cksum, and the ones'-complement sum of RFC 1071 that it is to compute. */
module Checksum {
  type Byte = b: int | 0 <= b < 256
  type Word = w: int | 0 <= w < 0x1_0000

  /** 2 to the power 32, where uint32_t wraps around. */
  const WRAP := 0x1_0000_0000

  /** The byte order of the host that loads the words. */
  datatype Order = Big | Little

  // ----- words ---------------------------------------------------------------------------

  function Load(order: Order, b0: Byte, b1: Byte): Word {
    var x: int, y: int := b0, b1;
    if order.Big? then x * 256 + y else y * 256 + x
  }

  /** Word i of the data; an odd last byte has a zero byte behind it. */
  function WordAt(order: Order, data: seq<Byte>, i: nat): Word
    requires 2 * i < |data|
  {
    Load(order, data[2 * i], if 2 * i + 1 < |data| then data[2 * i + 1] else 0)
  }

  function Words(order: Order, data: seq<Byte>): (ws: seq<Word>)
    ensures |ws| == (|data| + 1) / 2
  {
    seq((|data| + 1) / 2, i requires 0 <= i < (|data| + 1) / 2 => WordAt(order, data, i))
  }

  function Sum(ws: seq<Word>): nat {
    if ws == [] then 0 else Sum(ws[..|ws| - 1]) + ws[|ws| - 1]
  }

  // ----- the ones'-complement sum -------------------------------------------------------------

  /** Addition with end-around carry. */
  function OnesAdd(a: Word, b: Word): Word {
    if a + b > 0xffff then a + b - 0xffff else a + b
  }

  function OnesSum(ws: seq<Word>): Word {
    if ws == [] then 0 else OnesAdd(OnesSum(ws[..|ws| - 1]), ws[|ws| - 1])
  }

  /** The representative of n modulo 0xffff that is zero for zero only. */
  function Canonical(n: nat): Word {
    if n == 0 then 0 else (n - 1) % 0xffff + 1
  }

  lemma CanonicalUnique(n: nat, r: Word, k: int)
    requires n == r + 0xffff * k && (n == 0 <==> r == 0)
    ensures Canonical(n) == r
  {
  }

  lemma CanonicalWitness(n: nat) returns (k: int)
    ensures n == Canonical(n) + 0xffff * k && (n == 0 <==> Canonical(n) == 0)
  {
    k := if n == 0 then 0 else (n - 1) / 0xffff;
  }

  lemma {:induction false} OnesSumIsCanonical(ws: seq<Word>)
    ensures OnesSum(ws) == Canonical(Sum(ws))
  {
    if ws != [] {
      var front, last := ws[..|ws| - 1], ws[|ws| - 1];
      OnesSumIsCanonical(front);
      var k := CanonicalWitness(Sum(front));
      var r := OnesAdd(Canonical(Sum(front)), last);
      CanonicalUnique(Sum(ws), r, if OnesSum(front) + last > 0xffff then k + 1 else k);
    }
  }

  // ----- what in_cksum returns ---------------------------------------------------------------

  /** The sum that the 32-bit accumulator holds, complemented. */
  function Checksum(order: Order, data: seq<Byte>): Word {
    0xffff - Canonical(Sum(Words(order, data)) % WRAP)
  }

  /** The two folds bring any 32-bit sum to its representative. */
  lemma FoldIsCanonical(sum: nat)
    requires sum < WRAP
    ensures var once := sum / 0x1_0000 + sum % 0x1_0000;
            (once + once / 0x1_0000) % 0x1_0000 == Canonical(sum)
  {
  }

  lemma NextWord(order: Order, data: seq<Byte>, w: nat)
    requires 2 * w < |data|
    ensures var ws := Words(order, data); Sum(ws[..w + 1]) == Sum(ws[..w]) + WordAt(order, data, w)
  {
    var ws := Words(order, data);
    assert ws[..w + 1][..w] == ws[..w];
  }

  lemma AddWraps(total: nat, sum: nat, word: Word)
    requires sum == total % WRAP
    ensures (sum + word) % WRAP == (total + word) % WRAP
  {
  }

  /** Adding the carries back, twice, and complementing what is left in 16 bits. */
  method Fold(accumulated: nat) returns (answer: Word)
    requires accumulated < WRAP
    ensures answer == 0xffff - Canonical(accumulated)
  {
    FoldIsCanonical(accumulated);
    var sum := accumulated / 0x1_0000 + accumulated % 0x1_0000;
    sum := sum + sum / 0x1_0000;
    answer := 0xffff - sum % 0x1_0000;
  }

  method InCksum(order: Order, addr: seq<Byte>, len: int) returns (answer: Word)
    requires len <= |addr|
    ensures answer == Checksum(order, addr[..if len < 0 then 0 else len])
  {
    hide Canonical, Sum, Load, Words;
    ghost var data := addr[..if len < 0 then 0 else len];
    ghost var ws := Words(order, data);
    var nleft, sum: nat, w: nat := len, 0, 0;
    NoWords(order, data);
    while nleft > 1
      invariant nleft == len - 2 * w && (if len < 0 then w == 0 else nleft >= 0)
      invariant sum < WRAP && sum == Sum(ws[..w]) % WRAP
    {
      NextWord(order, data, w);
      AddWraps(Sum(ws[..w]), sum, WordAt(order, data, w));
      sum := (sum + Load(order, addr[2 * w], addr[2 * w + 1])) % WRAP;
      w := w + 1;
      nleft := nleft - 2;
    }
    if nleft == 1 {
      NextWord(order, data, w);
      AddWraps(Sum(ws[..w]), sum, WordAt(order, data, w));
      sum := (sum + Load(order, addr[2 * w], 0)) % WRAP;
      w := w + 1;
    }
    assert ws[..w] == ws;
    answer := Fold(sum);
  }

  lemma NoWords(order: Order, data: seq<Byte>)
    ensures Sum(Words(order, data)[..0]) == 0
  {
  }

  // ----- when it is right ------------------------------------------------------------------------

  lemma {:induction false} SumBound(ws: seq<Word>)
    ensures 0 <= Sum(ws) <= 0xffff * |ws|
  {
    if ws != [] {
      SumBound(ws[..|ws| - 1]);
    }
  }

  /** For every length an int can hold, the result is the complement of the
      ones'-complement sum exactly as long as the accumulator does not wrap. */
  lemma RightUnlessWrapped(order: Order, data: seq<Byte>)
    requires |data| < 0x8000_0000
    ensures Checksum(order, data) == 0xffff - OnesSum(Words(order, data)) <==> Sum(Words(order, data)) < WRAP
  {
    hide Canonical;
    var ws := Words(order, data);
    OnesSumIsCanonical(ws);
    SumBound(ws);
    WrapShows(Sum(ws));
  }

  lemma WrapShows(sum: nat)
    requires sum < 0x8000 * WRAP
    ensures Canonical(sum % WRAP) == Canonical(sum) <==> sum < WRAP
  {
  }

  /** Up to this length no data wrap the accumulator. */
  lemma ShortIsRight(order: Order, data: seq<Byte>)
    requires |data| <= 131074
    ensures Sum(Words(order, data)) < WRAP
    ensures Checksum(order, data) == 0xffff - OnesSum(Words(order, data))
  {
    SumBound(Words(order, data));
    RightUnlessWrapped(order, data);
  }

  lemma {:induction false} SumOfOnes(ws: seq<Word>)
    requires forall i :: 0 <= i < |ws| ==> ws[i] == 0xffff
    ensures Sum(ws) == 0xffff * |ws|
  {
    if ws != [] {
      SumOfOnes(ws[..|ws| - 1]);
    }
  }

  /** And the bound is tight: with one byte more, all of them 255, every host comes out
      wrong, and hosts of different byte order do not even agree. */
  lemma LongIsWrong(order: Order)
    ensures var data := seq(131075, _ => 255);
      && Checksum(order, data) == (if order.Big? then 0x0100 else 0xff01)
      && 0xffff - OnesSum(Words(order, data)) == if order.Big? then 0x00ff else 0xff00
  {
    var data: seq<Byte> := seq(131075, _ => 255);
    var ws := Words(order, data);
    SumOfOnes(ws[..65537]);
    OnesSumIsCanonical(ws);
    assert Sum(ws) == 0xffff * 65537 + (if order.Big? then 0xff00 else 0x00ff);
    assert 0xffff * 65537 == WRAP - 1;
  }

  // ----- storing and verifying ---------------------------------------------------------------------

  /** The data with w stored at word i in host order. */
  function Store(order: Order, data: seq<Byte>, i: nat, w: Word): (r: seq<Byte>)
    requires 2 * i + 1 < |data|
    ensures |r| == |data| && WordAt(order, r, i) == w
  {
    if order.Big? then data[2 * i := w / 256][2 * i + 1 := w % 256] else data[2 * i := w % 256][2 * i + 1 := w / 256]
  }

  lemma StoredWords(order: Order, data: seq<Byte>, i: nat, w: Word)
    requires 2 * i + 1 < |data|
    ensures Words(order, Store(order, data, i, w)) == Words(order, data)[i := w]
  {
  }

  lemma {:induction false} SumSet(ws: seq<Word>, i: nat, w: Word)
    requires i < |ws|
    ensures Sum(ws[i := w]) == Sum(ws) - ws[i] + w
  {
    var n := |ws| - 1;
    if i < n {
      SumSet(ws[..n], i, w);
      assert ws[i := w][..n] == ws[..n][i := w];
    } else {
      assert ws[i := w][..n] == ws[..n];
    }
  }

  lemma SumHolds(ws: seq<Word>, i: nat)
    requires i < |ws|
    ensures ws[i] <= Sum(ws)
  {
  }

  /** The words of the data do not wrap the accumulator. */
  predicate Fits(order: Order, data: seq<Byte>) {
    Sum(Words(order, data)) < WRAP
  }

  /** 2^32 is 1 modulo 0xffff, so a sum filled up to the next multiple of 0xffff stays
      below it. */
  lemma FilledUp(held: nat)
    requires held < WRAP
    ensures held + (0xffff - Canonical(held)) < WRAP
  {
    var k := CanonicalWitness(held);
    assert WRAP - 1 == 0xffff * 65537;
  }

  /** The checksum, stored in a field that was zero, makes the checksum of the whole 0:
      also for data so long that it is not the checksum it should be. */
  lemma VerifiesToZero(order: Order, data: seq<Byte>, i: nat)
    requires 2 * i + 1 < |data| && WordAt(order, data, i) == 0
    ensures Checksum(order, Store(order, data, i, Checksum(order, data))) == 0
  {
    hide Load, Sum, Canonical;
    var ws, c := Words(order, data), Checksum(order, data);
    var held := Sum(ws) % WRAP;
    StoredWords(order, data, i, c);
    SumSet(ws, i, c);
    AddWraps(Sum(ws), held, c);
    FilledUp(held);
    var k := CanonicalWitness(held);
    CanonicalUnique(held + c, 0xffff, k);
  }

  /** What the accumulator holds at the end. */
  function Held(order: Order, data: seq<Byte>): nat {
    Sum(Words(order, data)) % WRAP
  }

  /** A change of one word goes unnoticed exactly if it exchanges the two zeros 0 and
      0xffff, and neither leaves the accumulator empty nor changes how often it wraps. */
  lemma OneWordIsNoticed(order: Order, data: seq<Byte>, i: nat, w: Word)
    requires 2 * i + 1 < |data|
    ensures var old_ := WordAt(order, data, i);
            var held, held' := Held(order, data), Held(order, Store(order, data, i, w));
      Checksum(order, Store(order, data, i, w)) == Checksum(order, data) <==>
        w == old_ || ({w, old_} == {0, 0xffff} && held != 0 && held' != 0 && held' - held == w - old_)
  {
    hide Canonical, Load, Sum;
    var ws, old_ := Words(order, data), WordAt(order, data, i);
    var sum, sum' := Sum(ws), Sum(ws) - old_ + w;
    StoredWords(order, data, i, w);
    SumSet(ws, i, w);
    SumHolds(ws, i);
    ChangeShows(sum % WRAP, sum' % WRAP, w - old_, sum' / WRAP - sum / WRAP);
    assert w - old_ == 0xffff || w - old_ == -0xffff <==> {w, old_} == {0, 0xffff};
  }

  lemma ChangeShows(held: nat, held': nat, change: int, wraps: int)
    requires held < WRAP && held' < WRAP && -0xffff <= change <= 0xffff && held' == held + change - wraps * WRAP
    ensures Canonical(held) == Canonical(held') <==>
      change == 0 || (wraps == 0 && (change == 0xffff || change == -0xffff) && held != 0 && held' != 0)
  {
    hide Canonical;
    var k := CanonicalWitness(held);
    var k' := CanonicalWitness(held');
    assert -1 <= wraps <= 1;
    assert WRAP == 0xffff * 65537 + 1;
    if Canonical(held) == Canonical(held') {
      assert change - wraps == 0xffff * (k' - k + wraps * 65537);
    } else if wraps == 0 && change == 0xffff && held != 0 {
      CanonicalUnique(held', Canonical(held), k + 1);
    } else if wraps == 0 && change == -0xffff && held' != 0 {
      CanonicalUnique(held, Canonical(held'), k' + 1);
    }
  }

  /** Of data that cannot wrap the accumulator: beside other words that are not all zero. */
  lemma OneWordOfShortIsNoticed(order: Order, data: seq<Byte>, i: nat, w: Word)
    requires 2 * i + 1 < |data| <= 131074
    ensures var old_ := WordAt(order, data, i);
      Checksum(order, Store(order, data, i, w)) == Checksum(order, data) <==>
        w == old_ || ({w, old_} == {0, 0xffff} && Sum(Words(order, data)) != old_)
  {
    hide Load, Sum, Checksum;
    var ws := Words(order, data);
    StoredWords(order, data, i, w);
    SumSet(ws, i, w);
    SumHolds(ws, i);
    SumBound(ws);
    SumBound(ws[i := w]);
    OneWordIsNoticed(order, data, i, w);
  }

  // ----- order of words and of bytes ---------------------------------------------------------------

  function Without(ws: seq<Word>, i: nat): (r: seq<Word>)
    requires i < |ws|
    ensures |r| == |ws| - 1
  {
    ws[..i] + ws[i + 1..]
  }

  lemma {:induction false} SumWithout(ws: seq<Word>, i: nat)
    requires i < |ws|
    ensures Sum(ws) == Sum(Without(ws, i)) + ws[i]
    decreases |ws|
  {
    var n := |ws| - 1;
    if i < n {
      SumWithout(ws[..n], i);
      assert Without(ws, i)[..n - 1] == Without(ws[..n], i);
    } else {
      assert Without(ws, i) == ws[..n];
    }
  }

  lemma BagWithout(ws: seq<Word>, i: nat)
    requires i < |ws|
    ensures multiset(Without(ws, i)) == multiset(ws) - multiset{ws[i]}
  {
    assert ws == ws[..i] + [ws[i]] + ws[i + 1..];
  }

  /** The order of the words does not matter. */
  lemma {:induction false} OrderDoesNotMatter(ws: seq<Word>, ws': seq<Word>)
    requires multiset(ws) == multiset(ws')
    ensures Sum(ws) == Sum(ws') && OnesSum(ws) == OnesSum(ws')
    decreases |ws|
  {
    hide Canonical, Without, OnesSum, Sum;
    OnesSumIsCanonical(ws);
    OnesSumIsCanonical(ws');
    assert |ws| == |multiset(ws)| == |multiset(ws')| == |ws'|;
    if ws == [] {
      assert ws' == [];
    } else {
      assert ws[0] in multiset(ws');
      var i :| 0 <= i < |ws'| && ws'[i] == ws[0];
      SumWithout(ws, 0);
      SumWithout(ws', i);
      BagWithout(ws, 0);
      BagWithout(ws', i);
      OrderDoesNotMatter(Without(ws, 0), Without(ws', i));
    }
  }

  function Swap(w: Word): Word {
    w % 256 * 256 + w / 256
  }

  lemma {:induction false} SwapSum(ws: seq<Word>, ws': seq<Word>) returns (highs: int)
    requires |ws| == |ws'| && forall i :: 0 <= i < |ws| ==> ws'[i] == Swap(ws[i])
    ensures Sum(ws') == 256 * Sum(ws) - 0xffff * highs
    ensures Sum(ws') == 0 <==> Sum(ws) == 0
  {
    highs := 0;
    if ws != [] {
      var n := |ws| - 1;
      var h := SwapSum(ws[..n], ws'[..n]);
      highs := h + ws[n] / 256;
    }
  }

  /** Swapping the bytes of every word swaps the bytes of the sum. */
  lemma SwappedSum(ws: seq<Word>, ws': seq<Word>)
    requires |ws| == |ws'| && forall i :: 0 <= i < |ws| ==> ws'[i] == Swap(ws[i])
    ensures OnesSum(ws') == Swap(OnesSum(ws))
  {
    hide Canonical;
    OnesSumIsCanonical(ws);
    OnesSumIsCanonical(ws');
    var highs := SwapSum(ws, ws');
    var k := CanonicalWitness(Sum(ws));
    var c := Canonical(Sum(ws));
    CanonicalUnique(Sum(ws'), Swap(c), 256 * k - highs + c / 256);
  }

  lemma SwappedWords(data: seq<Byte>)
    ensures forall j :: 0 <= j < |Words(Big, data)| ==> Words(Little, data)[j] == Swap(Words(Big, data)[j])
  {
  }

  /** The accumulators of the two hosts come out as swapped sums. */
  predicate HostsAgree(data: seq<Byte>) {
    var wrapsBig, wrapsLittle := Sum(Words(Big, data)) / WRAP, Sum(Words(Little, data)) / WRAP;
    && (wrapsLittle - 256 * wrapsBig) % 0xffff == 0
    && (Held(Big, data) == 0 <==> Held(Little, data) == 0)
  }

  /** On hosts of either byte order the checksum has the same two bytes in memory, exactly
      under this condition. */
  lemma HostOrderDoesNotMatter(data: seq<Byte>)
    ensures Checksum(Little, data) == Swap(Checksum(Big, data)) <==> HostsAgree(data)
  {
    hide Words, Swap, Canonical, Sum;
    var ws, ws' := Words(Big, data), Words(Little, data);
    SwappedWords(data);
    var highs := SwapSum(ws, ws');
    SwapHeld(Sum(ws), Sum(ws'), highs);
    SwapComplements(Canonical(Held(Big, data)));
  }

  lemma SwapHeld(big: nat, little: nat, highs: int)
    requires little == 256 * big - 0xffff * highs
    ensures Canonical(little % WRAP) == Swap(Canonical(big % WRAP)) <==>
      (little / WRAP - 256 * (big / WRAP)) % 0xffff == 0 && (big % WRAP == 0 <==> little % WRAP == 0)
  {
    hide Canonical;
    var c, t := Canonical(big % WRAP), little % WRAP;
    var wraps := 256 * (big / WRAP) - little / WRAP;
    var k := CanonicalWitness(big % WRAP);
    var n := 256 * k - highs + c / 256 + 65537 * wraps;
    assert t == Swap(c) + 0xffff * n + wraps;
    if wraps % 0xffff == 0 && (c == 0 <==> t == 0) {
      CanonicalUnique(t, Swap(c), n + wraps / 0xffff);
    }
    var k' := CanonicalWitness(t);
  }

  /** As long as neither sum wraps, and so up to 131074 bytes, it holds. */
  lemma HostsAgreeUnlessWrapped(data: seq<Byte>)
    ensures Fits(Big, data) && Fits(Little, data) ==> HostsAgree(data)
    ensures |data| <= 131074 ==> HostsAgree(data)
  {
    hide Words, Swap, Sum;
    SwappedWords(data);
    var highs := SwapSum(Words(Big, data), Words(Little, data));
    SumBound(Words(Big, data));
    SumBound(Words(Little, data));
  }

  /** One byte more, and they may store different bytes. */
  lemma LongDependsOnHost()
    ensures !HostsAgree(seq(131075, _ => 255))
  {
    hide Checksum, HostsAgree, Words;
    LongIsWrong(Big);
    LongIsWrong(Little);
    HostOrderDoesNotMatter(seq(131075, _ => 255));
  }

  lemma SameBytesStored(data: seq<Byte>, i: nat)
    requires 2 * i + 1 < |data|
    ensures Store(Little, data, i, Checksum(Little, data)) == Store(Big, data, i, Checksum(Big, data)) <==> HostsAgree(data)
  {
    hide Checksum, HostsAgree;
    HostOrderDoesNotMatter(data);
    SameStores(data, i, Checksum(Little, data), Checksum(Big, data));
  }

  lemma SameStores(data: seq<Byte>, i: nat, little: Word, big: Word)
    requires 2 * i + 1 < |data|
    ensures Store(Little, data, i, little) == Store(Big, data, i, big) <==> little == Swap(big)
  {
    var s, t := Store(Little, data, i, little), Store(Big, data, i, big);
    assert s[2 * i] == little % 256 && s[2 * i + 1] == little / 256;
    assert t[2 * i] == big / 256 && t[2 * i + 1] == big % 256;
  }

  lemma SwapComplements(w: Word)
    ensures Swap(0xffff - w) == 0xffff - Swap(w)
    ensures Swap(w) / 256 == w % 256 && Swap(w) % 256 == w / 256
  {
  }
}
