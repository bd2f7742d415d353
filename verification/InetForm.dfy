/** The text forms of addresses said another way: the printed text by its words, and the
    texts that are read by their pieces between colons and dots. */
module InetForm {
  import opened Options
  import opened InetText

  // ----- digits -----------------------------------------------------------------------

  /** The sixteen digits, printed in lower case and read in either. */
  lemma DigitsByPlace(n: int, c: char)
    requires 0 <= n < 16
    ensures HexDigit(n) == "0123456789abcdef"[n]
    ensures HexValue(c) == n <==> c == "0123456789abcdef"[n] || c == "0123456789ABCDEF"[n]
    ensures n < 10 ==> (DecValue(c) == n <==> c == "0123456789"[n])
  {
  }

  /** No number is printed with leading zeros. */
  lemma {:induction false} NoLeadingZeros(n: nat)
    ensures Hex(n) != "" && (n == 0 <==> Hex(n)[0] == '0') && (n == 0 ==> Hex(n) == "0")
    ensures Dec(n) != "" && (n == 0 <==> Dec(n)[0] == '0') && (n == 0 ==> Dec(n) == "0")
  {
    if n >= 16 {
      NoLeadingZeros(n / 16);
    }
    if n >= 10 {
      NoLeadingZeros(n / 10);
    }
  }

  // ----- capitals -----------------------------------------------------------------------

  /** Each of abcdef becomes the one at the same place in ABCDEF. */
  function Upper(s: string): (u: string)
    ensures |u| == |s|
  {
    seq(|s|, i requires 0 <= i < |s| => if 'a' <= s[i] <= 'f' then "ABCDEF"[s[i] as int - 'a' as int] else s[i])
  }

  lemma UpperNext(s: string)
    requires s != ""
    ensures Upper(s) != "" && Upper(s)[1..] == Upper(s[1..]) && HexValue(Upper(s)[0]) == HexValue(s[0])
    ensures DecValue(Upper(s)[0]) == DecValue(s[0])
    ensures (Upper(s)[0] == ':' <==> s[0] == ':') && (Upper(s)[0] == '.' <==> s[0] == '.')
  {
  }

  lemma {:induction false} UpperReads4(s: string, cur: seq<Byte>, octets: nat, saw: bool)
    requires octets <= 4 && |cur| == (if saw then octets else octets + 1) && |cur| != 0
    requires octets == 4 ==> saw
    ensures Read4(Upper(s), cur, octets, saw) == Read4(s, cur, octets, saw)
    decreases |s|
  {
    hide Upper;
    if s != "" {
      UpperNext(s);
      var d, last := DecValue(s[0]), |cur| - 1;
      if d != -1 {
        if cur[last] * 10 + d <= 255 && !(!saw && octets == 4) {
          UpperReads4(s[1..], cur[last := cur[last] * 10 + d], if saw then octets else octets + 1, true);
        }
      } else if s[0] == '.' && saw && octets != 4 {
        UpperReads4(s[1..], cur + [0], octets, false);
      }
    }
  }

  lemma {:induction false} UpperReads6(s: string, st: State)
    requires Sane(st)
    ensures Read6(Upper(s), st.(tok := Upper(st.tok))) == Read6(s, st)
    decreases |s|
  {
    hide Upper, Read4, Shift;
    if s != "" {
      UpperNext(s);
      var d := HexValue(s[0]);
      if d != -1 {
        if st.val * 16 + d <= 0xffff {
          UpperReads6(s[1..], st.(val := st.val * 16 + d, saw := true));
        }
      } else if s[0] == ':' {
        if !st.saw {
          if st.colon == -1 {
            UpperReads6(s[1..], st.(colon := |st.out|, tok := s[1..]));
          }
        } else if |st.out| + 2 <= 16 {
          UpperReads6(s[1..], State(st.out + [High(st.val), Low(st.val)], st.colon, 0, false, s[1..]));
        }
      } else if s[0] == '.' {
        UpperReads4(st.tok, [0], 0, false);
      }
    }
  }

  /** The case of the digits does not matter. */
  lemma CaseDoesNotMatter(s: string)
    ensures Pton6(Upper(s)) == Pton6(s)
  {
    hide Upper, Read6;
    if s != "" {
      UpperNext(s);
      if s[0] == ':' {
        if |s| >= 2 {
          UpperNext(s[1..]);
          UpperReads6(s[1..], State([], -1, 0, false, s[1..]));
        }
      } else {
        UpperReads6(s, State([], -1, 0, false, s));
      }
    } else {
      UpperReads6(s, State([], -1, 0, false, s));
    }
  }

  // ----- pieces ---------------------------------------------------------------------------

  function Join(pieces: seq<string>, sep: char): string
    requires pieces != []
  {
    if |pieces| == 1 then pieces[0] else pieces[0] + [sep] + Join(pieces[1..], sep)
  }

  function Split(s: string, sep: char): (pieces: seq<string>)
    ensures pieces != []
  {
    if s == "" then [""]
    else if s[0] == sep then [""] + Split(s[1..], sep)
    else
      var rest := Split(s[1..], sep);
      [[s[0]] + rest[0]] + rest[1..]
  }

  /** The pieces are what stands between the separators. */
  lemma {:induction false} SplitJoins(s: string, sep: char)
    ensures Join(Split(s, sep), sep) == s
    ensures forall i :: 0 <= i < |Split(s, sep)| ==> sep !in Split(s, sep)[i]
  {
    if s != "" {
      var rest := Split(s[1..], sep);
      SplitJoins(s[1..], sep);
      if s[0] == sep {
        assert Split(s, sep)[1..] == rest;
        assert "" + [sep] + s[1..] == s;
      } else {
        assert Split(s, sep)[1..] == rest[1..];
        if |rest| > 1 {
          assert [s[0]] + rest[0] + [sep] + Join(rest[1..], sep) == [s[0]] + (rest[0] + [sep] + Join(rest[1..], sep));
        }
      }
    }
  }

  /** What is in front of the text joins its first piece. */
  lemma {:induction false} SplitBehind(front: string, s: string, sep: char)
    requires sep !in front
    ensures Split(front + s, sep) == [front + Split(s, sep)[0]] + Split(s, sep)[1..]
  {
    var pieces := Split(s, sep);
    if front == "" {
      assert front + s == s && front + pieces[0] == pieces[0];
    } else {
      SplitBehind(front[1..], s, sep);
      assert (front + s)[0] == front[0] && (front + s)[1..] == front[1..] + s;
      assert [front[0]] + (front[1..] + pieces[0]) == front + pieces[0];
    }
  }

  lemma SplitAt(front: string, rest: string, sep: char)
    requires sep !in front
    ensures Split(front + [sep] + rest, sep) == [front] + Split(rest, sep)
  {
    var s := [sep] + rest;
    SplitBehind(front, s, sep);
    assert s[1..] == rest && front + [sep] + rest == front + s;
    assert front + "" == front;
  }

  lemma SplitWhole(s: string, sep: char)
    requires sep !in s
    ensures Split(s, sep) == [s]
  {
    SplitBehind(s, "", sep);
    assert s + "" == s;
  }

  // ----- dotted quads ---------------------------------------------------------------------------

  /** The number that v becomes when the digits of t are read behind it. */
  function ReadOn(v: nat, t: string, base: nat): nat
    requires HexDigits(t)
    decreases |t|
  {
    if t == "" then v else ReadOn(v * base + HexValue(t[0]), t[1..], base)
  }

  predicate HexDigits(t: string) {
    forall i :: 0 <= i < |t| ==> HexValue(t[i]) != -1
  }

  predicate DecDigits(t: string) {
    forall i :: 0 <= i < |t| ==> '0' <= t[i] <= '9'
  }

  /** Decimal digits, leading zeros allowed, of a number below 256. */
  predicate IsOctet(t: string) {
    t != "" && DecDigits(t) && ReadOn(0, t, 10) <= 255
  }

  predicate AllOctets(pieces: seq<string>) {
    forall i :: 0 <= i < |pieces| ==> IsOctet(pieces[i])
  }

  function Octets(pieces: seq<string>): (b: seq<Byte>)
    requires AllOctets(pieces)
    ensures |b| == |pieces|
  {
    seq(|pieces|, i requires 0 <= i < |pieces| => ReadOn(0, pieces[i], 10))
  }

  lemma {:induction false} ReadOnGrows(v: nat, t: string, base: nat)
    requires HexDigits(t) && base >= 1
    ensures ReadOn(v, t, base) >= v
    decreases |t|
  {
    if t != "" {
      assert v * base >= v;
      ReadOnGrows(v * base + HexValue(t[0]), t[1..], base);
    }
  }

  /** What the rest of a dotted quad amounts to: the number being read goes on with the
      first piece, and the others are numbers of their own. */
  ghost predicate Amounts4(pieces: seq<string>, cur: seq<Byte>, octets: nat, saw: bool, b: seq<Byte>)
    requires pieces != [] && cur != []
  {
    var last := |cur| - 1;
    && octets + |pieces| == (if saw then 5 else 4)
    && DecDigits(pieces[0]) && (saw || pieces[0] != "") && ReadOn(cur[last], pieces[0], 10) <= 255
    && AllOctets(pieces[1..])
    && b == cur[..last] + [ReadOn(cur[last], pieces[0], 10)] + Octets(pieces[1..])
  }

  lemma DigitAmounts(c: char, rest: seq<string>, cur: seq<Byte>, octets: nat, saw: bool, b: seq<Byte>)
    requires '0' <= c <= '9' && rest != [] && cur != []
    ensures var last, d := |cur| - 1, DecValue(c);
      Amounts4([[c] + rest[0]] + rest[1..], cur, octets, saw, b) <==>
        cur[last] * 10 + d <= 255 && Amounts4(rest, cur[last := cur[last] * 10 + d], if saw then octets else octets + 1, true, b)
  {
    hide Octets, AllOctets, ReadOn, DecDigits;
    var last, d := |cur| - 1, DecValue(c);
    var pieces := [[c] + rest[0]] + rest[1..];
    assert pieces[1..] == rest[1..];
    FirstDigit(c, rest[0], cur[last]);
    if cur[last] * 10 + d <= 255 {
      var next := cur[last := cur[last] * 10 + d];
      assert next[..last] == cur[..last] && next[last] == cur[last] * 10 + d;
    }
  }

  lemma DotAmounts(rest: seq<string>, cur: seq<Byte>, octets: nat, b: seq<Byte>)
    requires rest != [] && cur != [] && octets <= 4
    ensures Amounts4([""] + rest, cur, octets, true, b) <==> octets < 4 && Amounts4(rest, cur + [0], octets, false, b)
  {
    hide Octets, AllOctets;
    assert ([""] + rest)[1..] == rest;
    NextOctet(cur, rest, b);
  }

  lemma EndAmounts(cur: seq<Byte>, octets: nat, saw: bool, b: seq<Byte>)
    requires octets <= 4 && cur != [] && (octets == 4 ==> saw)
    ensures Amounts4([""], cur, octets, saw, b) <==> octets == 4 && b == cur
  {
    assert [""][1..] == [];
    assert cur == cur[..|cur| - 1] + [cur[|cur| - 1]] + [];
  }

  lemma {:induction false} Read4Amounts(s: string, cur: seq<Byte>, octets: nat, saw: bool, b: seq<Byte>)
    requires octets <= 4 && |cur| == (if saw then octets else octets + 1) && |cur| != 0
    requires octets == 4 ==> saw
    requires !saw ==> cur[|cur| - 1] == 0
    ensures Read4(s, cur, octets, saw) == Some(b) <==> Amounts4(Split(s, '.'), cur, octets, saw, b)
    decreases |s|
  {
    hide Amounts4;
    var last := |cur| - 1;
    if s == "" {
      EndAmounts(cur, octets, saw, b);
    } else if DecValue(s[0]) != -1 {
      var d := DecValue(s[0]);
      DigitAmounts(s[0], Split(s[1..], '.'), cur, octets, saw, b);
      if cur[last] * 10 + d <= 255 {
        Read4Amounts(s[1..], cur[last := cur[last] * 10 + d], if saw then octets else octets + 1, true, b);
      }
    } else if s[0] == '.' {
      if saw {
        DotAmounts(Split(s[1..], '.'), cur, octets, b);
        if octets < 4 {
          Read4Amounts(s[1..], cur + [0], octets, false, b);
        }
      } else {
        NothingAmounts("", Split(s[1..], '.'), cur, octets, b);
      }
    } else {
      var rest := Split(s[1..], '.');
      BadAmounts(s[0], rest[0], rest[1..], cur, octets, saw, b);
    }
  }

  lemma NothingAmounts(first: string, rest: seq<string>, cur: seq<Byte>, octets: nat, b: seq<Byte>)
    requires first == "" && cur != []
    ensures !Amounts4([first] + rest, cur, octets, false, b)
  {
  }

  lemma BadAmounts(c: char, t: string, rest: seq<string>, cur: seq<Byte>, octets: nat, saw: bool, b: seq<Byte>)
    requires !('0' <= c <= '9') && cur != []
    ensures !Amounts4([[c] + t] + rest, cur, octets, saw, b)
  {
    assert ([c] + t)[0] == c;
  }

  lemma FirstDigit(c: char, t: string, v: nat)
    requires '0' <= c <= '9'
    ensures DecDigits([c] + t) <==> DecDigits(t)
    ensures DecDigits(t) ==> HexDigits([c] + t) && ReadOn(v, [c] + t, 10) == ReadOn(v * 10 + DecValue(c), t, 10)
    ensures DecDigits(t) ==> ReadOn(v, [c] + t, 10) >= v * 10 + DecValue(c)
  {
    assert ([c] + t)[1..] == t;
    if DecDigits([c] + t) {
      assert forall i :: 0 <= i < |t| ==> t[i] == ([c] + t)[i + 1];
    }
    if DecDigits(t) {
      ReadOnGrows(v * 10 + DecValue(c), t, 10);
    }
  }

  /** A dot ends a number, and the next one starts from 0. */
  lemma NextOctet(cur: seq<Byte>, rest: seq<string>, b: seq<Byte>)
    requires cur != [] && rest != []
    ensures AllOctets(rest) <==> IsOctet(rest[0]) && AllOctets(rest[1..])
    ensures AllOctets(rest) ==>
      var last := |cur| - 1;
      cur[..last] + [cur[last]] + Octets(rest) == (cur + [0])[..|cur|] + [ReadOn(0, rest[0], 10)] + Octets(rest[1..])
  {
    if IsOctet(rest[0]) && AllOctets(rest[1..]) {
      assert forall i :: 0 < i < |rest| ==> rest[i] == rest[1..][i - 1];
    }
    if AllOctets(rest) {
      assert Octets(rest) == [ReadOn(0, rest[0], 10)] + Octets(rest[1..]);
    }
  }

  /** A text is read as a dotted quad exactly if it is four numbers below 256 with dots
      between them. */
  lemma QuadsRead(s: string, b: seq<Byte>)
    ensures Pton4(s) == Some(b) <==> |Split(s, '.')| == 4 && AllOctets(Split(s, '.')) && b == Octets(Split(s, '.'))
  {
    var pieces := Split(s, '.');
    Read4Amounts(s, [0], 0, false, b);
    NextOctet([0], pieces, b);
    if AllOctets(pieces) {
      assert Octets(pieces) == [0][..0] + [ReadOn(0, pieces[0], 10)] + Octets(pieces[1..]);
    }
  }

  // ----- addresses ----------------------------------------------------------------------------------

  /** One to any number of hexadecimal digits of a word. */
  predicate IsWord(t: string) {
    t != "" && HexDigits(t) && ReadOn(0, t, 16) <= 0xffff
  }

  /** What a piece between colons stands for: a word, a dotted quad, or nothing. */
  function PieceBytes(t: string): seq<Byte> {
    if IsWord(t) then [High(ReadOn(0, t, 16)), Low(ReadOn(0, t, 16))]
    else if Pton4(t).Some? then Pton4(t).value
    else []
  }

  function BytesOf(pieces: seq<string>): seq<Byte> {
    if pieces == [] then [] else PieceBytes(pieces[0]) + BytesOf(pieces[1..])
  }

  /** How many pieces with a colon behind them are empty. */
  function Gaps(pieces: seq<string>): nat {
    if |pieces| <= 1 then 0 else (if pieces[0] == "" then 1 else 0) + Gaps(pieces[1..])
  }

  /** The number of bytes before the first such piece. */
  function GapAt(pieces: seq<string>): nat {
    if pieces == [] || pieces[0] == "" then 0 else |PieceBytes(pieces[0])| + GapAt(pieces[1..])
  }

  /** With a colon behind it a piece is a word or empty; the last one may be a quad too. */
  predicate PiecesFit(pieces: seq<string>) {
    forall i :: 0 <= i < |pieces| ==>
      pieces[i] == "" || IsWord(pieces[i]) || (i == |pieces| - 1 && Pton4(pieces[i]).Some?)
  }

  /** The address that pieces stand for, behind the bytes out and the place of "::" or -1. */
  function AddressFrom(pieces: seq<string>, out: seq<Byte>, colon: int): (r: Option<seq<Byte>>)
    requires -1 <= colon <= |out|
  {
    var bytes := out + BytesOf(pieces);
    if !PiecesFit(pieces) || Gaps(pieces) + (if colon == -1 then 0 else 1) > 1 || |bytes| > 16 then None
    else if colon != -1 then Some(Shift(bytes, colon))
    else if Gaps(pieces) == 1 then
      GapInside(pieces);
      Some(Shift(bytes, |out| + GapAt(pieces)))
    else if |bytes| == 16 then Some(bytes) else None
  }

  lemma {:induction false} GapInside(pieces: seq<string>)
    ensures GapAt(pieces) <= |BytesOf(pieces)|
  {
    if pieces != [] {
      GapInside(pieces[1..]);
    }
  }

  /** The address that these pieces stand for: at most one gap; the bytes of all words and
      of the quad; zeros in the place of the gap, or sixteen bytes without one. */
  function Address(pieces: seq<string>): (r: Option<seq<Byte>>) {
    AddressFrom(pieces, [], -1)
  }

  lemma PiecesFitNext(first: string, rest: seq<string>)
    requires rest != []
    ensures PiecesFit([first] + rest) <==> (first == "" || IsWord(first)) && PiecesFit(rest)
  {
    hide IsWord, Pton4;
    var pieces := [first] + rest;
    if PiecesFit(pieces) {
      assert pieces[0] == first;
      forall i | 0 <= i < |rest|
        ensures rest[i] == "" || IsWord(rest[i]) || (i == |rest| - 1 && Pton4(rest[i]).Some?)
      {
        assert pieces[i + 1] == rest[i];
      }
    }
  }

  lemma AddressNext(first: string, rest: seq<string>, out: seq<Byte>, colon: int)
    requires rest != [] && -1 <= colon <= |out|
    ensures first == "" ==> AddressFrom([first] + rest, out, colon) == (if colon != -1 then None
      else if |out| > 16 then None else AddressFrom(rest, out, |out|))
    ensures IsWord(first) ==>
      AddressFrom([first] + rest, out, colon) == AddressFrom(rest, out + PieceBytes(first), colon)
    ensures first != "" && !IsWord(first) ==> AddressFrom([first] + rest, out, colon) == None
  {
    hide IsWord, Pton4, PiecesFit, Shift;
    PiecesFitNext(first, rest);
    var pieces := [first] + rest;
    assert pieces[1..] == rest;
    NothingRead();
    if first == "" {
      assert out + ([] + BytesOf(rest)) == out + BytesOf(rest);
    } else if IsWord(first) {
      assert out + (PieceBytes(first) + BytesOf(rest)) == out + PieceBytes(first) + BytesOf(rest);
    }
  }

  lemma NothingRead()
    ensures !IsWord("") && Pton4("").None? && PieceBytes("") == []
  {
  }

  lemma AddressLast(last: string, out: seq<Byte>, colon: int)
    requires -1 <= colon <= |out|
    ensures AddressFrom([last], out, colon) ==
      if last != "" && !IsWord(last) && Pton4(last).None? then None
      else if |out + PieceBytes(last)| > 16 then None
      else if colon != -1 then Some(Shift(out + PieceBytes(last), colon))
      else if |out + PieceBytes(last)| == 16 then Some(out + PieceBytes(last)) else None
  {
    hide IsWord, Pton4, Shift, PieceBytes;
    assert [last][1..] == [] && BytesOf([]) == [];
    assert BytesOf([last]) == PieceBytes(last) + [] == PieceBytes(last);
    assert PiecesFit([last]) <==> [last][0] == "" || IsWord([last][0]) || Pton4([last][0]).Some?;
  }

  // ----- the characters of a piece ----------------------------------------------------------------

  lemma {:induction false} ReadOnJoins(v: nat, t: string, c: char, base: nat)
    requires HexDigits(t) && HexValue(c) != -1
    ensures HexDigits(t + [c]) && ReadOn(v, t + [c], base) == ReadOn(v, t, base) * base + HexValue(c)
    decreases |t|
  {
    if t == "" {
      assert t + [c] == [c] && [c][1..] == "";
    } else {
      assert (t + [c])[0] == t[0] && (t + [c])[1..] == t[1..] + [c];
      ReadOnJoins(v * base + HexValue(t[0]), t[1..], c, base);
    }
  }

  /** A piece that starts with too large a number is no word. */
  lemma {:induction false} ReadOnPrefix(v: nat, front: string, t: string)
    requires HexDigits(front + t)
    ensures HexDigits(front) && ReadOn(v, front + t, 16) >= ReadOn(v, front, 16)
    decreases |front|
  {
    assert forall i :: 0 <= i < |front| ==> front[i] == (front + t)[i];
    if front == "" {
      assert front + t == t;
      ReadOnGrows(v, t, 16);
    } else {
      assert (front + t)[0] == front[0] && (front + t)[1..] == front[1..] + t;
      ReadOnPrefix(v * 16 + HexValue(front[0]), front[1..], t);
    }
  }

  /** Digits of a number below 256 are no large hexadecimal number. */
  lemma {:induction false} OctetIsSmall(dec: nat, hex: nat, t: string)
    requires DecDigits(t) && ReadOn(dec, t, 10) <= 255
    requires (dec == 0 ==> hex == 0) && (dec < 10 ==> hex <= 9) && (dec < 100 ==> hex <= 0x99) && hex <= 0x999
    ensures ReadOn(hex, t, 16) <= 0x999
    decreases |t|
  {
    if t != "" {
      var d := HexValue(t[0]);
      ReadOnGrows(dec * 10 + d, t[1..], 10);
      OctetIsSmall(dec * 10 + d, hex * 16 + d, t[1..]);
    }
  }

  predicate QuadChars(t: string) {
    forall i :: 0 <= i < |t| ==> '0' <= t[i] <= '9' || t[i] == '.'
  }

  lemma {:induction false} QuadCharsRead(s: string, cur: seq<Byte>, octets: nat, saw: bool)
    requires octets <= 4 && |cur| == (if saw then octets else octets + 1) && |cur| != 0
    requires octets == 4 ==> saw
    requires Read4(s, cur, octets, saw).Some?
    ensures QuadChars(s)
    decreases |s|
  {
    if s != "" {
      var d, last := DecValue(s[0]), |cur| - 1;
      if d != -1 {
        QuadCharsRead(s[1..], cur[last := cur[last] * 10 + d], if saw then octets else octets + 1, true);
      } else {
        QuadCharsRead(s[1..], cur + [0], octets, false);
      }
      assert forall i :: 0 < i < |s| ==> s[i] == s[1..][i - 1];
    }
  }

  /** The hexadecimal digits in front of the first dot of a quad are few. */
  lemma QuadStarts(front: string, t: string)
    requires HexDigits(front) && Pton4(front + t).Some?
    ensures ReadOn(0, front, 16) <= 0x999
  {
    var s := front + t;
    QuadCharsRead(s, [0], 0, false);
    QuadsRead(s, Pton4(s).value);
    assert forall i :: 0 <= i < |front| ==> front[i] == s[i] && HexValue(front[i]) != -1 && front[i] != '.';
    SplitBehind(front, t, '.');
    var first := Split(s, '.')[0];
    assert IsOctet(first) && first == front + Split(t, '.')[0];
    OctetIsSmall(0, 0, first);
    ReadOnPrefix(0, front, Split(t, '.')[0]);
  }

  /** Only words and quads consist of such characters. */
  lemma BadPiece(t: string, i: nat)
    requires i < |t| && HexValue(t[i]) == -1
    ensures !IsWord(t)
    ensures t[i] != '.' ==> Pton4(t).None?
  {
    if Pton4(t).Some? {
      QuadCharsRead(t, [0], 0, false);
    }
  }

  // ----- every text -----------------------------------------------------------------------------------

  lemma {:induction false} Read6Addresses(s: string, front: string, out: seq<Byte>, colon: int)
    requires HexDigits(front) && ReadOn(0, front, 16) <= 0xffff && |out| <= 16 && -1 <= colon <= |out|
    ensures Read6(s, State(out, colon, ReadOn(0, front, 16), front != "", front + s))
      == AddressFrom(Split(front + s, ':'), out, colon)
    decreases |s|
  {
    hide Read4, Pton4, AddressFrom, IsWord, PieceBytes, Shift;
    assert ':' !in front && '.' !in front;
    if s == "" {
      assert front + s == front;
      SplitWhole(front, ':');
      TextEnds(front, out, colon);
    } else if HexValue(s[0]) != -1 {
      DigitReads(s, front, out, colon);
    } else if s[0] == ':' {
      ColonReads(s, front, out, colon);
    } else if s[0] == '.' {
      DotReads6(s, front, out, colon);
    } else {
      SplitBehind(front, s, ':');
      OtherReads(s, front, out, colon);
    }
  }

  lemma TextEnds(front: string, out: seq<Byte>, colon: int)
    requires HexDigits(front) && ReadOn(0, front, 16) <= 0xffff && |out| <= 16 && -1 <= colon <= |out|
    ensures Finish(State(out, colon, ReadOn(0, front, 16), front != "", front)) == AddressFrom([front], out, colon)
  {
    hide AddressFrom, Pton4, Shift;
    AddressLast(front, out, colon);
    NothingRead();
    assert out + [] == out;
  }

  lemma {:induction false} DigitReads(s: string, front: string, out: seq<Byte>, colon: int)
    requires s != "" && HexValue(s[0]) != -1
    requires HexDigits(front) && ReadOn(0, front, 16) <= 0xffff && |out| <= 16 && -1 <= colon <= |out|
    ensures Read6(s, State(out, colon, ReadOn(0, front, 16), front != "", front + s))
      == AddressFrom(Split(front + s, ':'), out, colon)
    decreases |s|, 0
  {
    hide Read4, Pton4, AddressFrom, IsWord, PieceBytes, Shift;
    var next := front + [s[0]];
    ReadOnJoins(0, front, s[0], 16);
    assert front + s == next + s[1..];
    if ReadOn(0, next, 16) <= 0xffff {
      Read6Addresses(s[1..], next, out, colon);
    } else {
      LargeReads(next, s[1..], out, colon);
    }
  }

  lemma LargeReads(front: string, s: string, out: seq<Byte>, colon: int)
    requires HexDigits(front) && ReadOn(0, front, 16) > 0xffff && -1 <= colon <= |out|
    ensures AddressFrom(Split(front + s, ':'), out, colon) == None
  {
    hide AddressFrom, PieceBytes;
    assert ':' !in front && front != "";
    SplitBehind(front, s, ':');
    var first := front + Split(s, ':')[0];
    if HexDigits(first) {
      ReadOnPrefix(0, front, Split(s, ':')[0]);
    }
    if Pton4(first).Some? {
      QuadStarts(front, Split(s, ':')[0]);
    }
    FirstPieceFails(first, Split(s, ':')[1..], out, colon);
  }

  lemma FirstPieceFails(first: string, rest: seq<string>, out: seq<Byte>, colon: int)
    requires first != "" && !IsWord(first) && -1 <= colon <= |out| && (rest == [] ==> Pton4(first).None?)
    ensures AddressFrom([first] + rest, out, colon) == None
  {
    hide IsWord, AddressFrom, Pton4;
    if rest == [] {
      AddressLast(first, out, colon);
      assert [first] + rest == [first];
    } else {
      AddressNext(first, rest, out, colon);
    }
  }

  lemma {:induction false} ColonReads(s: string, front: string, out: seq<Byte>, colon: int)
    requires s != "" && s[0] == ':'
    requires HexDigits(front) && ReadOn(0, front, 16) <= 0xffff && |out| <= 16 && -1 <= colon <= |out|
    ensures Read6(s, State(out, colon, ReadOn(0, front, 16), front != "", front + s))
      == AddressFrom(Split(front + s, ':'), out, colon)
    decreases |s|, 0
  {
    hide Read4, Pton4, AddressFrom, Shift;
    var rest := Split(s[1..], ':');
    assert ':' !in front;
    SplitAt(front, s[1..], ':');
    assert front + s == front + [':'] + s[1..];
    AddressNext(front, rest, out, colon);
    assert "" + s[1..] == s[1..];
    if front == "" {
      if colon == -1 {
        Read6Addresses(s[1..], "", out, |out|);
      }
    } else if |out| + 2 <= 16 {
      Read6Addresses(s[1..], "", out + PieceBytes(front), colon);
    } else {
      TooMany(rest, out + PieceBytes(front), colon);
    }
  }

  lemma TooMany(pieces: seq<string>, out: seq<Byte>, colon: int)
    requires |out| > 16 && -1 <= colon <= |out|
    ensures AddressFrom(pieces, out, colon) == None
  {
  }

  lemma DotReads6(s: string, front: string, out: seq<Byte>, colon: int)
    requires s != "" && s[0] == '.'
    requires HexDigits(front) && ReadOn(0, front, 16) <= 0xffff && |out| <= 16 && -1 <= colon <= |out|
    ensures Read6(s, State(out, colon, ReadOn(0, front, 16), front != "", front + s))
      == AddressFrom(Split(front + s, ':'), out, colon)
  {
    hide Read4, Pton4, AddressFrom, Shift;
    var text := front + s;
    var pieces := Split(text, ':');
    assert ':' !in front;
    SplitBehind(front, s, ':');
    var first := pieces[0];
    assert first == front + Split(s, ':')[0] && first[|front|] == '.';
    BadPiece(first, |front|);
    if Pton4(text).Some? {
      BadPiece(text, |front|);
      NoColon(text);
      SplitWhole(text, ':');
      AddressLast(text, out, colon);
    } else if |pieces| == 1 {
      SplitJoins(text, ':');
      FirstPieceFails(first, [], out, colon);
      assert pieces == [first] + [];
    } else {
      FirstPieceFails(first, pieces[1..], out, colon);
      assert pieces == [first] + pieces[1..];
    }
  }

  lemma NoColon(t: string)
    requires Pton4(t).Some?
    ensures ':' !in t
  {
    QuadCharsRead(t, [0], 0, false);
  }

  lemma OtherReads(s: string, front: string, out: seq<Byte>, colon: int)
    requires s != "" && HexValue(s[0]) == -1 && s[0] != ':' && s[0] != '.'
    requires HexDigits(front) && ReadOn(0, front, 16) <= 0xffff && |out| <= 16 && -1 <= colon <= |out|
    ensures Read6(s, State(out, colon, ReadOn(0, front, 16), front != "", front + s)) == None
    ensures AddressFrom(Split(front + s, ':'), out, colon) == None
  {
    hide Read4, Pton4, AddressFrom, Shift;
    assert ':' !in front;
    SplitBehind(front, s, ':');
    var pieces := Split(front + s, ':');
    var first := pieces[0];
    assert first == front + Split(s, ':')[0] && first[|front|] == s[0];
    BadPiece(first, |front|);
    FirstPieceFails(first, pieces[1..], out, colon);
    assert pieces == [first] + pieces[1..];
  }

  /** Of every text: what inet_pton6 makes of it is the address that its pieces between
      colons stand for. A colon in front is skipped if another follows, and is an error
      otherwise. */
  lemma AddressesRead(s: string)
    ensures Pton6(s) ==
      if s == "" || s[0] != ':' then Address(Split(s, ':'))
      else if |s| >= 2 && s[1] == ':' then Address(Split(s[1..], ':'))
      else None
  {
    hide Read6, AddressFrom, Split;
    assert "" + s == s;
    Read6Addresses(s, "", [], -1);
    if s != "" {
      assert "" + s[1..] == s[1..];
      Read6Addresses(s[1..], "", [], -1);
    }
  }

  // ----- what is printed --------------------------------------------------------------------------------

  /** The words from i up to j, in hexadecimal. */
  function HexWords(a: seq<Byte>, i: nat, j: nat): (words: seq<string>)
    requires |a| == 16 && i <= j <= 8
    ensures |words| == j - i
  {
    seq(j - i, k requires 0 <= k < j - i => Hex(Word(a, i + k)))
  }

  function JoinAny(pieces: seq<string>, sep: char): string {
    if pieces == [] then "" else Join(pieces, sep)
  }

  /** The words from i up to j, each behind a colon. */
  function Tail(a: seq<Byte>, i: nat, j: nat): string
    requires |a| == 16 && i <= j <= 8
    decreases j - i
  {
    if i == j then "" else ":" + Hex(Word(a, i)) + Tail(a, i + 1, j)
  }

  lemma {:induction false} WordsJoined(a: seq<Byte>, i: nat, j: nat)
    requires |a| == 16 && i < j <= 8
    ensures Join(HexWords(a, i, j), ':') == Hex(Word(a, i)) + Tail(a, i + 1, j)
    decreases j - i
  {
    hide Hex, Word;
    var words := HexWords(a, i, j);
    if i + 1 == j {
      assert words[0] + "" == words[0];
    } else {
      WordsJoined(a, i + 1, j);
      assert words[1..] == HexWords(a, i + 1, j);
      assert words[0] + [':'] + (Hex(Word(a, i + 1)) + Tail(a, i + 2, j)) == words[0] + (":" + Hex(Word(a, i + 1)) + Tail(a, i + 2, j));
    }
  }

  lemma {:induction false} TextBehind(a: seq<Byte>, base: int, len: int, i: nat)
    requires |a| == 16 && 1 <= i <= 8 && (base != -1 ==> base + len < 8 && base + len <= i) && !Embeds(a, base, len)
    ensures TextFrom(a, base, len, i) == Tail(a, i, 8)
    decreases 8 - i
  {
    hide Hex, Word;
    if i < 8 {
      TextBehind(a, base, len, i + 1);
      assert ":" + (Hex(Word(a, i)) + Tail(a, i + 1, 8)) == ":" + Hex(Word(a, i)) + Tail(a, i + 1, 8);
    }
  }

  lemma {:induction false} TextBefore(a: seq<Byte>, base: int, len: int, i: nat)
    requires |a| == 16 && Compressed(a, base, len) && 1 <= i <= base && !Embeds(a, base, len)
    ensures TextFrom(a, base, len, i) == Tail(a, i, base) + TextFrom(a, base, len, base)
    decreases base - i
  {
    hide Hex, Word;
    var at := TextFrom(a, base, len, base);
    if i < base {
      TextBefore(a, base, len, i + 1);
      assert ":" + (Hex(Word(a, i)) + (Tail(a, i + 1, base) + at)) == ":" + Hex(Word(a, i)) + Tail(a, i + 1, base) + at;
    } else {
      assert "" + at == at;
    }
  }

  lemma QuadIsJoined(b: seq<Byte>)
    requires |b| == 4
    ensures Dotted(b) == Join([Dec(b[0])] + ([Dec(b[1])] + ([Dec(b[2])] + [Dec(b[3])])), '.')
  {
    hide Dec;
    JoinNext(Dec(b[2]), [Dec(b[3])], '.');
    JoinNext(Dec(b[1]), [Dec(b[2])] + [Dec(b[3])], '.');
    JoinNext(Dec(b[0]), [Dec(b[1])] + ([Dec(b[2])] + [Dec(b[3])]), '.');
  }

  lemma JoinNext(first: string, rest: seq<string>, sep: char)
    requires rest != []
    ensures Join([first] + rest, sep) == first + ([sep] + Join(rest, sep))
  {
    assert ([first] + rest)[1..] == rest;
    assert first + [sep] + Join(rest, sep) == first + ([sep] + Join(rest, sep));
  }

  lemma RunInside(a: seq<Byte>, base: int, len: int)
    requires |a| == 16 && 0 <= base && Compressed(a, base, len)
    ensures 2 <= len && base + len <= 8
  {
  }

  /** The text from the place of the run on. */
  lemma TextOfGap(a: seq<Byte>, base: int, len: int)
    requires |a| == 16 && 0 <= base && Compressed(a, base, len) && !Embeds(a, base, len)
    ensures TextFrom(a, base, len, base) == "::" + JoinAny(HexWords(a, base + len, 8), ':')
  {
    hide TextFrom, Compressed, Embeds, HexWords, Join;
    RunInside(a, base, len);
    TextAtRun(a, base, len);
    if base + len == 8 {
      TextAtEnd(a, base, len);
      assert ":" + ":" == "::" + "";
    } else {
      TextBehind(a, base, len, base + len);
      WordsTailed(a, base + len);
      assert ":" + (":" + Join(HexWords(a, base + len, 8), ':')) == "::" + Join(HexWords(a, base + len, 8), ':');
    }
  }

  lemma TextAtEnd(a: seq<Byte>, base: int, len: int)
    requires |a| == 16 && base != -1 && base + len == 8
    ensures TextFrom(a, base, len, 8) == ":"
  {
  }

  lemma WordsTailed(a: seq<Byte>, i: nat)
    requires |a| == 16 && i < 8
    ensures Tail(a, i, 8) == ":" + Join(HexWords(a, i, 8), ':')
  {
    hide HexWords, Join, Hex, Word;
    WordsJoined(a, i, 8);
    assert ":" + Hex(Word(a, i)) + Tail(a, i + 1, 8) == ":" + (Hex(Word(a, i)) + Tail(a, i + 1, 8));
  }

  /** The words with colons between them; "::" in place of the run; and the last four bytes
      as a dotted quad behind "::" or "::ffff:". */
  lemma PrintedText(a: seq<Byte>, base: int, len: int)
    requires |a| == 16 && Compressed(a, base, len)
    ensures Text(a, base, len) ==
      if base == -1 then Join(HexWords(a, 0, 8), ':')
      else if base == 0 && len == 6 then "::" + Dotted(a[12..])
      else if base == 0 && len == 5 && Word(a, 5) == 0xffff then "::ffff:" + Dotted(a[12..])
      else JoinAny(HexWords(a, 0, base), ':') + "::" + JoinAny(HexWords(a, base + len, 8), ':')
  {
    hide Hex, Word, Dotted;
    if base == -1 {
      TextBehind(a, base, len, 1);
      WordsJoined(a, 0, 8);
    } else if Embeds(a, base, len) {
      QuadText(a, len);
    } else {
      TextOfGap(a, base, len);
      var gap := TextFrom(a, base, len, base);
      if base == 0 {
        assert "" + "::" == "::";
      } else {
        TextBefore(a, base, len, 1);
        WordsJoined(a, 0, base);
        TextFromWord(a, base, len);
        assert Hex(Word(a, 0)) + (Tail(a, 1, base) + gap) == Hex(Word(a, 0)) + Tail(a, 1, base) + gap;
        assert Join(HexWords(a, 0, base), ':') + gap == Join(HexWords(a, 0, base), ':') + "::" + JoinAny(HexWords(a, base + len, 8), ':');
      }
    }
  }

  lemma QuadText(a: seq<Byte>, len: int)
    requires |a| == 16 && Compressed(a, 0, len) && Embeds(a, 0, len)
    ensures Text(a, 0, len) == (if len == 6 then "::" else "::ffff:") + Dotted(a[12..])
  {
    hide Word, Dotted, Compressed;
    TextAtRun(a, 0, len);
    var quad := Dotted(a[12..]);
    if len == 6 {
      assert ":" + (":" + quad) == "::" + quad;
    } else {
      FullWord();
      assert TextFrom(a, 0, len, 6) == ":" + quad;
      assert TextFrom(a, 0, len, 5) == ":" + ("ffff" + (":" + quad));
      assert ":" + (":" + ("ffff" + (":" + quad))) == "::ffff:" + quad;
    }
  }

  lemma FullWord()
    ensures Hex(0xffff) == "ffff"
  {
    assert Hex(0xf) == "f";
    assert Hex(0xff) == "ff";
    assert Hex(0xfff) == "fff";
  }

  lemma {:induction false} NoDotInHex(n: nat)
    ensures '.' !in Hex(n)
  {
    if n >= 16 {
      NoDotInHex(n / 16);
    }
  }

  lemma {:induction false} NoDotInTail(a: seq<Byte>, i: nat, j: nat)
    requires |a| == 16 && i <= j <= 8
    ensures '.' !in Tail(a, i, j)
    decreases j - i
  {
    hide Hex, Word;
    if i < j {
      NoDotInHex(Word(a, i));
      NoDotInTail(a, i + 1, j);
    }
  }

  lemma NoDotInWords(a: seq<Byte>, i: nat, j: nat)
    requires |a| == 16 && i <= j <= 8
    ensures '.' !in JoinAny(HexWords(a, i, j), ':')
  {
    hide Hex, Word;
    if i < j {
      WordsJoined(a, i, j);
      NoDotInHex(Word(a, i));
      NoDotInTail(a, i + 1, j);
    }
  }

  /** The last four bytes are printed as a dotted quad exactly for addresses that start with
      ninety-six zero bits, and not with more words than that, or with eighty and a word
      0xffff. */
  lemma QuadExactly(a: seq<Byte>, base: int, len: int)
    requires |a| == 16 && BestRun(a, base, len)
    ensures '.' in Text(a, base, len) <==>
      (AllZero(a[..12]) && Word(a, 6) != 0) || (AllZero(a[..10]) && a[10] == 0xff && a[11] == 0xff)
  {
    PrintedText(a, base, len);
    RunOfZeros(a, base, len);
    if Embeds(a, base, len) {
      var quad := Dotted(a[12..]);
      assert Text(a, base, len) == (if len == 6 then "::" else "::ffff:") + quad;
      assert '.' in quad;
    } else if base == -1 {
      NoDotInWords(a, 0, 8);
    } else {
      NoDotInWords(a, 0, base);
      NoDotInWords(a, base + len, 8);
    }
  }

  lemma RunOfZeros(a: seq<Byte>, base: int, len: int)
    requires |a| == 16 && BestRun(a, base, len)
    ensures Compressed(a, base, len)
    ensures Embeds(a, base, len) <==>
      (AllZero(a[..12]) && Word(a, 6) != 0) || (AllZero(a[..10]) && a[10] == 0xff && a[11] == 0xff)
  {
    ZeroBytes(a, 5);
    ZeroBytes(a, 6);
    ZeroBytes(a, 7);
    assert Word(a, 5) == 0xffff <==> a[10] == 0xff && a[11] == 0xff;
    if Embeds(a, base, len) && len == 6 {
      assert !ZeroRun(a, 0, 7);
    }
    if AllZero(a[..12]) && Word(a, 6) != 0 {
      assert ZeroRun(a, 0, 6);
    }
    if AllZero(a[..10]) && a[10] == 0xff && a[11] == 0xff {
      assert ZeroRun(a, 0, 5);
    }
  }

  lemma ZeroBytes(a: seq<Byte>, n: nat)
    requires |a| == 16 && n <= 8
    ensures AllZero(a[..2 * n]) <==> ZeroRun(a, 0, n)
  {
    if ZeroRun(a, 0, n) {
      forall k | 0 <= k < 2 * n
        ensures a[k] == 0
      {
        assert Word(a, k / 2) == 0;
      }
    }
    if AllZero(a[..2 * n]) {
      assert forall k :: 0 <= k < 2 * n ==> a[k] == a[..2 * n][k];
    }
  }
}
