/** The text forms of addresses: what inet_ntop writes and inet_pton reads, as
    functions, and the round trip between them. The loops that compute these functions
    are in InetNtop and InetPton. */
module InetText {
  import opened Options

  type Byte = b: int | 0 <= b < 256

  // ----- numbers --------------------------------------------------------------------

  function HexDigit(n: int): char
    requires 0 <= n < 16
  {
    if n < 10 then ('0' as int + n) as char else ('a' as int + n - 10) as char
  }

  /** "%x" */
  function Hex(n: nat): string {
    if n < 16 then [HexDigit(n)] else Hex(n / 16) + [HexDigit(n % 16)]
  }

  /** "%u" */
  function Dec(n: nat): string {
    if n < 10 then [HexDigit(n)] else Dec(n / 10) + [HexDigit(n % 10)]
  }

  /** The value of a digit of either case, or -1. */
  function HexValue(c: char): (v: int)
    ensures -1 <= v < 16
  {
    if '0' <= c <= '9' then c as int - '0' as int
    else if 'a' <= c <= 'f' then c as int - 'a' as int + 10
    else if 'A' <= c <= 'F' then c as int - 'A' as int + 10
    else -1
  }

  function DecValue(c: char): (v: int)
    ensures -1 <= v < 10
  {
    if '0' <= c <= '9' then c as int - '0' as int else -1
  }

  lemma DigitsReadBack(n: int)
    requires 0 <= n < 16
    ensures HexValue(HexDigit(n)) == n && (n < 10 ==> DecValue(HexDigit(n)) == n)
    ensures HexDigit(n) != ':' && HexDigit(n) != '.'
  {
  }

  // ----- addresses and their zero runs ----------------------------------------------------

  function Word(a: seq<Byte>, i: nat): (w: nat)
    requires |a| == 16 && i < 8
    ensures w < 65536
  {
    var high: int, low: int := a[2 * i], a[2 * i + 1];
    high * 256 + low
  }

  /** The words base .. base + len of a are all zero. */
  predicate ZeroRun(a: seq<Byte>, base: int, len: int)
    requires |a| == 16
  {
    0 <= base && 0 <= len && base + len <= 8 && forall i :: base <= i < base + len ==> Word(a, i) == 0
  }

  /** The run that RFC 5952 section 4.2 has compressed: of the runs of two or more zero
      words the longest, and of those the leftmost; base is -1 when there is none. */
  ghost predicate BestRun(a: seq<Byte>, base: int, len: int)
    requires |a| == 16
  {
    if base == -1 then forall b, l :: ZeroRun(a, b, l) ==> l < 2
    else
      && ZeroRun(a, base, len) && len >= 2
      && forall b, l :: ZeroRun(a, b, l) ==> l <= len && (l == len ==> base <= b)
  }

  lemma BestRunUnique(a: seq<Byte>, base: int, len: int, base': int, len': int)
    requires |a| == 16 && BestRun(a, base, len) && BestRun(a, base', len')
    ensures base == base' && (base != -1 ==> len == len')
  {
  }

  predicate InRun(base: int, len: int, i: int) {
    base != -1 && base <= i < base + len
  }

  // ----- what inet_ntop writes ----------------------------------------------------------------

  function Dotted(b: seq<Byte>): string
    requires |b| == 4
  {
    Dec(b[0]) + ("." + (Dec(b[1]) + ("." + (Dec(b[2]) + ("." + Dec(b[3]))))))
  }

  /** An address with its last four bytes written as IPv4. */
  predicate Embeds(a: seq<Byte>, base: int, len: int)
    requires |a| == 16
  {
    base == 0 && (len == 6 || (len == 5 && Word(a, 5) == 0xffff))
  }

  /** The text from word i on, when the run base, len is compressed. */
  function TextFrom(a: seq<Byte>, base: int, len: int, i: nat): string
    requires |a| == 16 && i <= 8
    decreases 8 - i, 1
  {
    if i == 8 then if base != -1 && base + len == 8 then ":" else ""
    else if InRun(base, len, i) then (if i == base then ":" else "") + TextFrom(a, base, len, i + 1)
    else (if i != 0 then ":" else "") + WordText(a, base, len, i)
  }

  /** Word i and what follows it, or the last four bytes as a dotted quad. */
  function WordText(a: seq<Byte>, base: int, len: int, i: nat): string
    requires |a| == 16 && i < 8
    decreases 8 - i, 0
  {
    if i == 6 && Embeds(a, base, len) then Dotted(a[12..]) else Hex(Word(a, i)) + TextFrom(a, base, len, i + 1)
  }

  // ----- what inet_pton reads --------------------------------------------------------------------

  /** The rest s of a dotted quad, after the numbers cur; saw is saw_digit. */
  function Read4(s: string, cur: seq<Byte>, octets: nat, saw: bool): (r: Option<seq<Byte>>)
    requires octets <= 4 && |cur| == (if saw then octets else octets + 1) && |cur| != 0
    requires octets == 4 ==> saw
    ensures r.Some? ==> |r.value| == 4
  {
    if s == "" then if octets < 4 then None else Some(cur)
    else
      var d := DecValue(s[0]);
      var last := |cur| - 1;
      if d != -1 then
        if cur[last] * 10 + d > 255 then None
        else if saw then Read4(s[1..], cur[last := cur[last] * 10 + d], octets, true)
        else if octets == 4 then None
        else Read4(s[1..], cur[last := cur[last] * 10 + d], octets + 1, true)
      else if s[0] == '.' && saw then
        if octets == 4 then None else Read4(s[1..], cur + [0], octets, false)
      else None
  }

  function Pton4(s: string): (r: Option<seq<Byte>>)
    ensures r.Some? ==> |r.value| == 4
  {
    Read4(s, [0], 0, false)
  }

  /** The variables of inet_pton6: the bytes written, the place of "::" or -1, the value
      being read, saw_xdigit, and the text from curtok on. */
  datatype State = State(out: seq<Byte>, colon: int, val: nat, saw: bool, tok: string)

  predicate Sane(st: State) {
    |st.out| <= 16 && -1 <= st.colon <= |st.out| && st.val <= 0xffff
  }

  function High(n: nat): Byte
    requires n <= 0xffff
  {
    n / 256
  }

  function Low(n: nat): Byte {
    n % 256
  }

  function Zeros(n: nat): (z: seq<Byte>)
    ensures |z| == n
  {
    seq(n, _ => 0)
  }

  /** The zeros that "::" stands for, put in place. */
  function Expand(out: seq<Byte>, colon: nat): (r: seq<Byte>)
    requires colon <= |out| <= 16
    ensures |r| == 16
  {
    out[..colon] + Zeros(16 - |out|) + out[colon..]
  }

  /** What the shifting loop of inet_pton6 leaves: with no room to shift into, it
      clears the bytes behind the colon instead. */
  function Shift(out: seq<Byte>, colon: nat): (r: seq<Byte>)
    requires colon <= |out| <= 16
    ensures |r| == 16
  {
    if |out| < 16 then Expand(out, colon) else out[..colon] + Zeros(16 - colon)
  }

  function Finish(st: State): (r: Option<seq<Byte>>)
    requires Sane(st)
    ensures r.Some? ==> |r.value| == 16
  {
    if st.saw && |st.out| + 2 > 16 then None
    else
      var out := if st.saw then st.out + [High(st.val), Low(st.val)] else st.out;
      if st.colon != -1 then Some(Shift(out, st.colon))
      else if |out| != 16 then None
      else Some(out)
  }

  function Read6(s: string, st: State): (r: Option<seq<Byte>>)
    requires Sane(st)
    ensures r.Some? ==> |r.value| == 16
  {
    if s == "" then Finish(st)
    else
      var d := HexValue(s[0]);
      if d != -1 then
        if st.val * 16 + d > 0xffff then None
        else Read6(s[1..], st.(val := st.val * 16 + d, saw := true))
      else if s[0] == ':' then
        if !st.saw then
          if st.colon != -1 then None else Read6(s[1..], st.(colon := |st.out|, tok := s[1..]))
        else if |st.out| + 2 > 16 then None
        else Read6(s[1..], State(st.out + [High(st.val), Low(st.val)], st.colon, 0, false, s[1..]))
      else if s[0] == '.' && |st.out| + 4 <= 16 && Pton4(st.tok).Some? then
        Finish(State(st.out + Pton4(st.tok).value, st.colon, st.val, false, st.tok))
      else None
  }

  function Pton6(s: string): (r: Option<seq<Byte>>)
    ensures r.Some? ==> |r.value| == 16
  {
    if s != "" && s[0] == ':' then
      if |s| < 2 || s[1] != ':' then None else Read6(s[1..], State([], -1, 0, false, s[1..]))
    else Read6(s, State([], -1, 0, false, s))
  }

  // ----- numbers are read back ----------------------------------------------------------------------

  lemma {:induction false} HexReads(n: nat, rest: string, st: State)
    requires n <= 0xffff && Sane(st) && st.val == 0
    ensures Read6(Hex(n) + rest, st) == Read6(rest, st.(val := n, saw := true))
    decreases n
  {
    DigitsReadBack(n % 16);
    if n < 16 {
      assert (Hex(n) + rest)[1..] == rest;
    } else {
      var d := [HexDigit(n % 16)];
      HexReads(n / 16, d + rest, st);
      assert Hex(n) + rest == Hex(n / 16) + (d + rest);
      assert (d + rest)[1..] == rest;
    }
  }

  lemma {:induction false} DecReads(n: nat, rest: string, cur: seq<Byte>, octets: nat)
    requires n <= 255 && octets <= 3 && |cur| == octets + 1 && cur[octets] == 0
    ensures Read4(Dec(n) + rest, cur, octets, false) == Read4(rest, cur[octets := n], octets + 1, true)
    decreases n
  {
    DigitsReadBack(n % 10);
    if n < 10 {
      assert (Dec(n) + rest)[1..] == rest;
    } else {
      var d := [HexDigit(n % 10)];
      DecReads(n / 10, d + rest, cur, octets);
      assert Dec(n) + rest == Dec(n / 10) + (d + rest);
      assert (d + rest)[1..] == rest;
      assert cur[octets := n / 10][octets := n] == cur[octets := n];
    }
  }

  lemma DotReads(rest: string, cur: seq<Byte>, octets: nat)
    requires 1 <= octets <= 3 && |cur| == octets
    ensures Read4("." + rest, cur, octets, true) == Read4(rest, cur + [0], octets, false)
  {
  }

  /** Every dotted quad is read back. */
  lemma DottedReadsBack(b: seq<Byte>)
    requires |b| == 4
    ensures Pton4(Dotted(b)) == Some(b)
  {
    var t3 := Dec(b[3]);
    var t2 := Dec(b[2]) + ("." + t3);
    var t1 := Dec(b[1]) + ("." + t2);
    DecReads(b[0], "." + t1, [0], 0);
    assert [0][0 := b[0]] == [b[0]];
    DotReads(t1, [b[0]], 1);
    DecReads(b[1], "." + t2, [b[0], 0], 1);
    assert [b[0]] + [0] == [b[0], 0] && [b[0], 0][1 := b[1]] == [b[0], b[1]];
    DotReads(t2, [b[0], b[1]], 2);
    DecReads(b[2], "." + t3, [b[0], b[1], 0], 2);
    assert [b[0], b[1]] + [0] == [b[0], b[1], 0] && [b[0], b[1], 0][2 := b[2]] == [b[0], b[1], b[2]];
    DotReads(t3, [b[0], b[1], b[2]], 3);
    DecReads(b[3], "", [b[0], b[1], b[2], 0], 3);
    assert [b[0], b[1], b[2]] + [0] == [b[0], b[1], b[2], 0];
    assert [b[0], b[1], b[2], 0][3 := b[3]] == b && t3 + "" == t3;
  }

  // ----- the round trip ------------------------------------------------------------------------------

  /** The bytes that have been read when the words before i are, less the run. */
  function Bytes(a: seq<Byte>, base: int, len: int, i: nat): seq<Byte>
    requires |a| == 16 && i <= 8 && (base == -1 || ZeroRun(a, base, len))
  {
    if base == -1 || i <= base then a[..2 * i]
    else if i < base + len then a[..2 * base]
    else a[..2 * base] + a[2 * (base + len)..2 * i]
  }

  /** Where "::" was seen, once the run is behind. */
  function Colon(base: int, i: nat): int {
    if base == -1 || i <= base then -1 else 2 * base
  }

  /** The printed run: none, or at least two zero words. */
  predicate Compressed(a: seq<Byte>, base: int, len: int)
    requires |a| == 16
  {
    base == -1 || (ZeroRun(a, base, len) && len >= 2)
  }

  /** The state with word i - 1 read but not yet stored. */
  function Pending(a: seq<Byte>, base: int, len: int, i: nat, tok: string): (st: State)
    requires |a| == 16 && 1 <= i <= 8 && Compressed(a, base, len) && !InRun(base, len, i - 1)
    ensures Sane(st)
  {
    State(Bytes(a, base, len, i - 1), Colon(base, i - 1), Word(a, i - 1), true, tok)
  }

  lemma WordBytes(a: seq<Byte>, i: nat)
    requires |a| == 16 && i < 8
    ensures [High(Word(a, i)), Low(Word(a, i))] == a[2 * i..2 * i + 2]
  {
  }

  /** Storing a word extends the bytes read. */
  lemma BytesGrow(a: seq<Byte>, base: int, len: int, i: nat)
    requires |a| == 16 && i < 8 && Compressed(a, base, len) && !InRun(base, len, i)
    ensures Bytes(a, base, len, i) + [High(Word(a, i)), Low(Word(a, i))] == Bytes(a, base, len, i + 1)
  {
    WordBytes(a, i);
  }

  /** Nothing is lost by compressing: expanding the run gives the address. */
  lemma ExpandGivesBack(a: seq<Byte>, base: int, len: int)
    requires |a| == 16 && base != -1 && Compressed(a, base, len)
    ensures |Bytes(a, base, len, 8)| == 16 - 2 * len
    ensures Shift(Bytes(a, base, len, 8), 2 * base) == a
  {
    var out := Bytes(a, base, len, 8);
    assert out == a[..2 * base] + a[2 * (base + len)..];
    forall k | 0 <= k < 16
      ensures Expand(out, 2 * base)[k] == a[k]
    {
      if 2 * base <= k < 2 * (base + len) {
        assert Word(a, k / 2) == 0;
        assert a[k] == 0;
      }
    }
  }

  /** At the end of the text the pending word completes the address. */
  lemma EndReads(a: seq<Byte>, base: int, len: int, tok: string)
    requires |a| == 16 && Compressed(a, base, len) && !InRun(base, len, 7)
    ensures Finish(Pending(a, base, len, 8, tok)) == Some(a)
  {
    BytesGrow(a, base, len, 7);
    if base == -1 {
      assert a[..16] == a;
    } else {
      ExpandGivesBack(a, base, len);
    }
  }

  /** A colon behind a word stores the word. */
  lemma ColonStores(a: seq<Byte>, base: int, len: int, i: nat, tok: string, rest: string)
    requires |a| == 16 && 1 <= i <= 8 && Compressed(a, base, len) && !InRun(base, len, i - 1)
    ensures |Bytes(a, base, len, i)| <= 16 && Colon(base, i - 1) <= |Bytes(a, base, len, i)|
    ensures Read6(":" + rest, Pending(a, base, len, i, tok))
      == Read6(rest, State(Bytes(a, base, len, i), Colon(base, i - 1), 0, false, rest))
  {
    BytesGrow(a, base, len, i - 1);
    assert (":" + rest)[1..] == rest;
  }

  /** A colon that follows another is the place of the run. */
  lemma ColonMarks(out: seq<Byte>, tok: string, rest: string)
    requires |out| <= 16
    ensures Read6(":" + rest, State(out, -1, 0, false, tok)) == Read6(rest, State(out, |out|, 0, false, rest))
  {
  }

  lemma TextOfRun(a: seq<Byte>, base: int, len: int, i: nat)
    requires |a| == 16 && base != -1 && Compressed(a, base, len) && base < i <= base + len
    ensures TextFrom(a, base, len, i) == TextFrom(a, base, len, base + len)
    decreases base + len - i
  {
    if i < base + len {
      TextOfRun(a, base, len, i + 1);
      assert "" + TextFrom(a, base, len, i + 1) == TextFrom(a, base, len, i + 1);
    }
  }

  lemma TextOfEnd(a: seq<Byte>, base: int, len: int)
    requires |a| == 16 && Compressed(a, base, len) && !InRun(base, len, 7)
    ensures TextFrom(a, base, len, 8) == ""
  {
  }

  lemma TextOfWord(a: seq<Byte>, base: int, len: int, i: nat)
    requires |a| == 16 && 1 <= i < 8 && !InRun(base, len, i)
    ensures TextFrom(a, base, len, i) == ":" + WordText(a, base, len, i)
  {
  }

  lemma TextAtRun(a: seq<Byte>, base: int, len: int)
    requires |a| == 16 && 0 <= base && Compressed(a, base, len)
    ensures TextFrom(a, base, len, base) == ":" + TextFrom(a, base, len, base + len)
  {
    TextOfRun(a, base, len, base + 1);
  }

  /** With the words before i read, the text from word i on reads as the rest. */
  lemma {:induction false} TextReads(a: seq<Byte>, base: int, len: int, i: nat, tok: string)
    requires |a| == 16 && 1 <= i <= 8 && Compressed(a, base, len) && !InRun(base, len, i - 1)
    requires base == 0 ==> len <= i - 1
    ensures Read6(TextFrom(a, base, len, i), Pending(a, base, len, i, tok)) == Some(a)
    decreases 8 - i
  {
    hide TextFrom, WordText, Read6, Pending, Sane, Word;
    if i == 8 {
      TextOfEnd(a, base, len);
      EndReads(a, base, len, tok);
      AtEnd(Pending(a, base, len, 8, tok));
    } else if InRun(base, len, i) {
      var rest := TextFrom(a, base, len, base + len);
      TextAtRun(a, base, len);
      ColonStores(a, base, len, base, tok, rest);
      RunReads(a, base, len, rest);
    } else {
      var rest := WordText(a, base, len, i);
      TextOfWord(a, base, len, i);
      ColonStores(a, base, len, i, tok, rest);
      WordReads(a, base, len, i, rest);
    }
  }

  lemma AtEnd(st: State)
    requires Sane(st)
    ensures Read6("", st) == Finish(st)
  {
  }

  /** A word, after the colon before it. */
  lemma {:induction false} WordReads(a: seq<Byte>, base: int, len: int, i: nat, tok: string)
    requires |a| == 16 && i < 8 && Compressed(a, base, len) && !InRun(base, len, i)
    requires base == 0 ==> len <= i
    requires tok == WordText(a, base, len, i)
    ensures |Bytes(a, base, len, i)| <= 16 && Colon(base, i) <= |Bytes(a, base, len, i)|
    ensures Read6(tok, State(Bytes(a, base, len, i), Colon(base, i), 0, false, tok)) == Some(a)
    decreases 8 - i, 0
  {
    var st := State(Bytes(a, base, len, i), Colon(base, i), 0, false, tok);
    if i == 6 && Embeds(a, base, len) {
      DottedReads(a, len, tok);
    } else {
      HexReads(Word(a, i), TextFrom(a, base, len, i + 1), st);
      TextReads(a, base, len, i + 1, tok);
    }
  }

  /** The second colon of "::" and what follows the run. */
  lemma {:induction false} RunReads(a: seq<Byte>, base: int, len: int, tok: string)
    requires |a| == 16 && base != -1 && Compressed(a, base, len)
    requires tok == TextFrom(a, base, len, base + len)
    ensures Read6(tok, State(a[..2 * base], -1, 0, false, tok)) == Some(a)
    decreases 8 - base - 1, 2
  {
    if base + len == 8 {
      ColonMarks(a[..2 * base], tok, "");
      ExpandGivesBack(a, base, len);
      assert Bytes(a, base, len, 8) == a[..2 * base];
    } else {
      var rest := WordText(a, base, len, base + len);
      ColonMarks(a[..2 * base], tok, rest);
      assert Bytes(a, base, len, base + len) == a[..2 * base];
      WordReads(a, base, len, base + len, rest);
    }
  }

  // ----- the embedded IPv4 address -------------------------------------------------------------------

  predicate Decimal(t: string) {
    forall i :: 0 <= i < |t| ==> '0' <= t[i] <= '9'
  }

  /** Up to three decimal digits pass for hexadecimal ones; v is the value they leave. */
  lemma {:induction false} DecimalPasses(t: string, rest: string, st: State, room: nat) returns (v: nat)
    requires Decimal(t) && 1 <= |t| <= room && Sane(st)
    requires (room == 3 && st.val == 0) || (room == 2 && st.val <= 0xf) || (room == 1 && st.val <= 0xff)
    ensures v <= 0xffff
    ensures Read6(t + rest, st) == Read6(rest, st.(val := v, saw := true))
  {
    var d := HexValue(t[0]);
    v := st.val * 16 + d;
    assert (t + rest)[1..] == t[1..] + rest;
    if |t| == 1 {
      assert t[1..] + rest == rest;
    } else {
      v := DecimalPasses(t[1..], rest, st.(val := v, saw := true), room - 1);
    }
  }

  lemma {:induction false} DecIsDecimal(n: nat)
    ensures Decimal(Dec(n)) && |Dec(n)| >= 1
    ensures n < 10 ==> |Dec(n)| == 1
    ensures n < 100 ==> |Dec(n)| <= 2
    ensures n < 1000 ==> |Dec(n)| <= 3
  {
    if n >= 10 {
      DecIsDecimal(n / 10);
    }
  }

  /** A dot hands the text since the last colon to the dotted-quad reader. */
  lemma DotEmbeds(st: State, rest: string)
    requires Sane(st) && |st.out| <= 12 && Pton4(st.tok).Some?
    ensures Read6("." + rest, st) == Finish(State(st.out + Pton4(st.tok).value, st.colon, st.val, false, st.tok))
  {
  }

  lemma LastBytes(a: seq<Byte>, len: int)
    requires |a| == 16 && Compressed(a, 0, len) && (len == 5 || len == 6)
    ensures Bytes(a, 0, len, 6) + a[12..] == Bytes(a, 0, len, 8)
  {
  }

  /** The dotted quad behind "::" or "::ffff:". */
  lemma DottedReads(a: seq<Byte>, len: int, tok: string)
    requires |a| == 16 && Compressed(a, 0, len) && (len == 5 || len == 6) && tok == Dotted(a[12..])
    ensures Read6(tok, State(Bytes(a, 0, len, 6), 0, 0, false, tok)) == Some(a)
  {
    hide Read6, Word, Pton4, Decimal, Dec;
    var b := a[12..];
    var rest := Dec(b[1]) + ("." + (Dec(b[2]) + ("." + Dec(b[3]))));
    var st := State(Bytes(a, 0, len, 6), 0, 0, false, tok);
    DecIsDecimal(b[0]);
    var v := DecimalPasses(Dec(b[0]), "." + rest, st, 3);
    DottedReadsBack(b);
    DotEmbeds(st.(val := v, saw := true), rest);
    LastBytes(a, len);
    ExpandGivesBack(a, 0, len);
  }

  /** The text of the address a with its best run compressed. */
  function Text(a: seq<Byte>, base: int, len: int): string
    requires |a| == 16
  {
    TextFrom(a, base, len, 0)
  }

  lemma TextFromRun(a: seq<Byte>, len: int)
    requires |a| == 16 && Compressed(a, 0, len)
    ensures var rest := TextFrom(a, 0, len, len); Text(a, 0, len) == ":" + rest && rest != "" && rest[0] == ':'
  {
    TextAtRun(a, 0, len);
  }

  lemma TextFromWord(a: seq<Byte>, base: int, len: int)
    requires |a| == 16 && base != 0 && Compressed(a, base, len)
    ensures Text(a, base, len) == Hex(Word(a, 0)) + TextFrom(a, base, len, 1)
  {
  }

  /** A text that does not start with a colon is read from its start. */
  lemma PlainStart(s: string)
    requires s != "" && s[0] != ':'
    ensures Pton6(s) == Read6(s, State([], -1, 0, false, s))
  {
  }

  /** Of a leading "::" only one colon is skipped. */
  lemma ColonStart(rest: string)
    requires rest != "" && rest[0] == ':'
    ensures Pton6(":" + rest) == Read6(rest, State([], -1, 0, false, rest))
  {
  }

  /** Round trip: whatever run is compressed, and in either of the embedded forms, reading
      the text gives the address back. */
  lemma RoundTrip(a: seq<Byte>, base: int, len: int)
    requires |a| == 16 && Compressed(a, base, len)
    ensures Pton6(Text(a, base, len)) == Some(a)
  {
    hide Hex, TextFrom, Text, Read6, Pton6;
    if base == 0 {
      TextFromRun(a, len);
      ColonStart(TextFrom(a, 0, len, len));
      RunReads(a, 0, len, TextFrom(a, 0, len, len));
      assert a[..0] == [];
    } else {
      var text := Text(a, base, len);
      TextFromWord(a, base, len);
      HexStarts(Word(a, 0), TextFrom(a, base, len, 1));
      PlainStart(text);
      HexReads(Word(a, 0), TextFrom(a, base, len, 1), State([], -1, 0, false, text));
      TextReads(a, base, len, 1, text);
      assert a[..0] == [];
    }
  }

  lemma {:induction false} HexStarts(n: nat, rest: string)
    ensures Hex(n) + rest != "" && (Hex(n) + rest)[0] != ':'
  {
    if n < 16 {
      DigitsReadBack(n);
    } else {
      HexStarts(n / 16, [HexDigit(n % 16)] + rest);
      assert Hex(n) + rest == Hex(n / 16) + ([HexDigit(n % 16)] + rest);
    }
  }

  /** No two addresses are printed alike. */
  lemma TextIsInjective(a: seq<Byte>, base: int, len: int, a': seq<Byte>, base': int, len': int)
    requires |a| == 16 && Compressed(a, base, len) && |a'| == 16 && Compressed(a', base', len')
    requires Text(a, base, len) == Text(a', base', len')
    ensures a == a'
  {
    hide Text, Pton6, Compressed;
    RoundTrip(a, base, len);
    RoundTrip(a', base', len');
  }

  // ----- how long the text gets ---------------------------------------------------------------------------

  lemma {:induction false} HexLength(n: nat)
    ensures n < 16 ==> |Hex(n)| == 1
    ensures n < 256 ==> |Hex(n)| <= 2
    ensures n < 4096 ==> |Hex(n)| <= 3
    ensures n < 65536 ==> |Hex(n)| <= 4
  {
    if n >= 16 {
      HexLength(n / 16);
    }
  }

  lemma DottedLength(b: seq<Byte>)
    requires |b| == 4
    ensures 7 <= |Dotted(b)| <= 15
  {
    hide Dec, Decimal;
    DecIsDecimal(b[0]);
    DecIsDecimal(b[1]);
    DecIsDecimal(b[2]);
    DecIsDecimal(b[3]);
  }

  lemma {:induction false} TextFromLength(a: seq<Byte>, base: int, len: int, i: nat)
    requires |a| == 16 && i <= 8
    ensures |TextFrom(a, base, len, i)| <= 5 * (8 - i) + (if i == 0 then 5 else 6)
    decreases 8 - i
  {
    hide Word, Hex, Dotted;
    if i < 8 {
      TextFromLength(a, base, len, i + 1);
      HexLength(Word(a, i));
      DottedLength(a[12..]);
      WordFits(a, i);
    }
  }

  /** The text and its terminator fit the 46 cells of tmp. */
  lemma TextLength(a: seq<Byte>, base: int, len: int)
    requires |a| == 16
    ensures |Text(a, base, len)| <= 45
  {
    hide TextFrom;
    TextFromLength(a, base, len, 0);
  }

  // ----- "::" in a full address -------------------------------------------------------------------------

  predicate AllZero(b: seq<Byte>) {
    forall i :: 0 <= i < |b| ==> b[i] == 0
  }

  /** The shifting loop inserts the zeros exactly when there is a gap to fill or nothing
      but zeros behind the colon. */
  lemma ShiftExpands(out: seq<Byte>, colon: nat)
    requires colon <= |out| <= 16
    ensures Shift(out, colon) == Expand(out, colon) <==> |out| < 16 || AllZero(out[colon..])
  {
    if |out| == 16 {
      assert Expand(out, colon) == out;
      if AllZero(out[colon..]) {
        assert out[colon..] == Zeros(16 - colon);
      } else {
        var i :| 0 <= i < |out[colon..]| && out[colon..][i] != 0;
        assert out[colon + i] != 0 && Shift(out, colon)[colon + i] == 0;
      }
    }
  }

  /** All eight words from word i on, with "::" for the colon before word k; k == 8 puts
      it at the end. */
  function FullFrom(a: seq<Byte>, k: nat, i: nat): string
    requires |a| == 16 && k <= 8 && i <= 8
    decreases 8 - i
  {
    if i == 8 then if k == 8 then "::" else ""
    else if i == k then ":" + (":" + (Hex(Word(a, i)) + FullFrom(a, k, i + 1)))
    else if i == 0 then Hex(Word(a, i)) + FullFrom(a, k, i + 1)
    else ":" + (Hex(Word(a, i)) + FullFrom(a, k, i + 1))
  }

  function Marked(k: nat, i: nat): int {
    if k <= i then 2 * k else -1
  }

  function Cleared(a: seq<Byte>, k: nat): (r: seq<Byte>)
    requires |a| == 16 && k <= 8
    ensures |r| == 16
  {
    a[..2 * k] + Zeros(16 - 2 * k)
  }

  lemma WordStored(a: seq<Byte>, i: nat, colon: int, tok: string, rest: string)
    requires |a| == 16 && i < 8 && -1 <= colon <= 2 * i
    ensures Read6(":" + rest, State(a[..2 * i], colon, Word(a, i), true, tok))
      == Read6(rest, State(a[..2 * i + 2], colon, 0, false, rest))
  {
    WordBytes(a, i);
    assert a[..2 * i] + a[2 * i..2 * i + 2] == a[..2 * i + 2];
    assert (":" + rest)[1..] == rest;
  }

  lemma FullEnds(a: seq<Byte>, k: nat, tok: string)
    requires |a| == 16 && k <= 7
    ensures Finish(State(a[..14], 2 * k, Word(a, 7), true, tok)) == Some(Cleared(a, k))
  {
    WordBytes(a, 7);
    assert a[..14] + a[14..16] == a;
  }

  lemma {:induction false} FullReads(a: seq<Byte>, k: nat, i: nat, tok: string)
    requires |a| == 16 && k <= 8 && 1 <= i <= 8
    ensures Read6(FullFrom(a, k, i), State(a[..2 * i - 2], Marked(k, i - 1), Word(a, i - 1), true, tok))
      == Some(Cleared(a, k))
    decreases 8 - i
  {
    hide Read6, Word, Finish, Hex;
    if i == 8 && k == 8 {
      assert ":" + ":" == "::" && ":" + "" == ":";
      WordStored(a, 7, -1, tok, ":");
      ColonMarks(a[..16], ":", "");
      AtEnd(State(a[..16], 16, 0, false, ""));
      AllRead(a);
    } else if i == 8 {
      AtEnd(State(a[..14], Marked(k, 7), Word(a, 7), true, tok));
      FullEnds(a, k, tok);
    } else {
      var next := Hex(Word(a, i)) + FullFrom(a, k, i + 1);
      WordStored(a, i - 1, Marked(k, i - 1), tok, if i == k then ":" + next else next);
      if i == k {
        ColonMarks(a[..2 * i], ":" + next, next);
      }
      WordFits(a, i);
      HexReads(Word(a, i), FullFrom(a, k, i + 1), State(a[..2 * i], Marked(k, i), 0, false, next));
      FullReads(a, k, i + 1, next);
    }
  }

  lemma WordFits(a: seq<Byte>, i: nat)
    requires |a| == 16 && i < 8
    ensures Word(a, i) <= 0xffff
  {
  }

  lemma AllRead(a: seq<Byte>)
    requires |a| == 16
    ensures Finish(State(a[..16], 16, 0, false, "")) == Some(Cleared(a, 8))
  {
    assert a[..16] == a;
  }

  /** A "::" that stands for no word at all is not ignored: every word behind it is read
      as zero. */
  lemma FullAddressIsCut(a: seq<Byte>, k: nat)
    requires |a| == 16 && k <= 8
    ensures Pton6(FullFrom(a, k, 0)) == Some(Cleared(a, k))
    ensures Pton6(FullFrom(a, k, 0)) == Some(a) <==> AllZero(a[2 * k..])
  {
    hide Read6, Word, Finish, Hex, Pton6, AllZero, Cleared;
    CutIsZero(a, k);
    var next := Hex(Word(a, 0)) + FullFrom(a, k, 1);
    WordFits(a, 0);
    HexStarts(Word(a, 0), FullFrom(a, k, 1));
    if k == 0 {
      ColonStart(":" + next);
      ColonMarks([], ":" + next, next);
    } else {
      PlainStart(next);
    }
    assert a[..0] == [];
    HexReads(Word(a, 0), FullFrom(a, k, 1), State([], Marked(k, 0), 0, false, next));
    FullReads(a, k, 1, next);
  }

  lemma CutIsZero(a: seq<Byte>, k: nat)
    requires |a| == 16 && k <= 8
    ensures Cleared(a, k) == a <==> AllZero(a[2 * k..])
  {
  }

  /** 1:2:3:4::5:6:7:8 is read as 1:2:3:4:0:0:0:0. */
  lemma FullAddressExample()
    ensures var a: seq<Byte> := [0, 1, 0, 2, 0, 3, 0, 4, 0, 5, 0, 6, 0, 7, 0, 8];
            Pton6(FullFrom(a, 4, 0)) == Some([0, 1, 0, 2, 0, 3, 0, 4, 0, 0, 0, 0, 0, 0, 0, 0])
  {
    hide Pton6, FullFrom;
    var a: seq<Byte> := [0, 1, 0, 2, 0, 3, 0, 4, 0, 5, 0, 6, 0, 7, 0, 8];
    FullAddressIsCut(a, 4);
    var r: seq<Byte> := [0, 1, 0, 2, 0, 3, 0, 4, 0, 0, 0, 0, 0, 0, 0, 0];
    assert Cleared(a, 4) == r;
  }

  // ----- a colon too many ---------------------------------------------------------------------------------

  /** The eight words from word i on, and a colon behind them. */
  function ColonFrom(a: seq<Byte>, i: nat): string
    requires |a| == 16 && i <= 8
    decreases 8 - i
  {
    if i == 8 then ":"
    else if i == 0 then Hex(Word(a, i)) + ColonFrom(a, i + 1)
    else ":" + (Hex(Word(a, i)) + ColonFrom(a, i + 1))
  }

  lemma {:induction false} ColonReads(a: seq<Byte>, i: nat, tok: string)
    requires |a| == 16 && 1 <= i <= 8
    ensures Read6(ColonFrom(a, i), State(a[..2 * i - 2], -1, Word(a, i - 1), true, tok)) == Some(a)
    decreases 8 - i
  {
    hide Read6, Word, Hex;
    if i == 8 {
      assert ":" + "" == ":";
      WordStored(a, 7, -1, tok, "");
      AtEnd(State(a[..16], -1, 0, false, ""));
      assert a[..16] == a;
    } else {
      var next := Hex(Word(a, i)) + ColonFrom(a, i + 1);
      WordStored(a, i - 1, -1, tok, next);
      WordFits(a, i);
      HexReads(Word(a, i), ColonFrom(a, i + 1), State(a[..2 * i], -1, 0, false, next));
      ColonReads(a, i + 1, next);
    }
  }

  /** A single colon behind a full address is accepted and changes nothing. */
  lemma TrailingColonIsRead(a: seq<Byte>)
    requires |a| == 16
    ensures Pton6(ColonFrom(a, 0)) == Some(a)
  {
    hide Read6, Word, Hex, Pton6;
    var next := Hex(Word(a, 0)) + ColonFrom(a, 1);
    WordFits(a, 0);
    HexStarts(Word(a, 0), ColonFrom(a, 1));
    PlainStart(next);
    assert a[..0] == [];
    HexReads(Word(a, 0), ColonFrom(a, 1), State([], -1, 0, false, next));
    ColonReads(a, 1, next);
  }
}
