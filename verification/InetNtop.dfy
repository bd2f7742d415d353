/** inet_ntop: the search for the zero run, and the printing loops over a fixed buffer. */
module InetNtop {
  import opened InetText
  import opened Options

  /** sizeof tmp in inet_ntop6. */
  const ROOM := 46

  // ----- the zero run -----------------------------------------------------------------------

  /** base, len is the best of the runs that end at or before limit. */
  ghost predicate BestBefore(a: seq<Byte>, base: int, len: int, limit: int)
    requires |a| == 16
  {
    if base == -1 then forall b, l :: ZeroRun(a, b, l) && b + l <= limit ==> l < 1
    else
      && ZeroRun(a, base, len) && len >= 1 && base + len <= limit
      && forall b, l :: ZeroRun(a, b, l) && b + l <= limit ==> l <= len && (l == len ==> base <= b)
  }

  /** base, len is the run that ends at i, if there is one. */
  predicate OpenRun(a: seq<Byte>, base: int, len: int, i: nat)
    requires |a| == 16 && i <= 8
  {
    if base == -1 then i == 0 || Word(a, i - 1) != 0
    else ZeroRun(a, base, len) && len >= 1 && base + len == i && (base == 0 || Word(a, base - 1) != 0)
  }

  /** A nonzero word, or the end, closes the open run. */
  lemma RunCloses(a: seq<Byte>, base: int, len: int, best: int, bestLen: int, i: nat)
    requires |a| == 16 && i <= 8 && base != -1 && OpenRun(a, base, len, i) && BestBefore(a, best, bestLen, base)
    ensures if best == -1 || len > bestLen then BestBefore(a, base, len, i) else BestBefore(a, best, bestLen, i)
  {
  }

  lemma NonzeroSkipped(a: seq<Byte>, best: int, bestLen: int, i: nat)
    requires |a| == 16 && i < 8 && Word(a, i) != 0 && BestBefore(a, best, bestLen, i)
    ensures BestBefore(a, best, bestLen, i + 1)
  {
  }

  method FindRun(a: seq<Byte>, words: array<nat>) returns (base: int, len: int)
    requires |a| == 16 && words.Length == 8 && forall i :: 0 <= i < 8 ==> words[i] == Word(a, i)
    ensures BestRun(a, base, len)
  {
    hide Word, ZeroRun, BestBefore, OpenRun;
    base, len := -1, 0;
    var cur, curLen := -1, 0;
    Start(a);
    for i := 0 to 8
      invariant OpenRun(a, cur, curLen, i)
      invariant BestBefore(a, base, len, if cur == -1 then i else cur)
    {
      if words[i] == 0 {
        RunGrows(a, cur, curLen, i);
        if cur == -1 {
          cur, curLen := i, 1;
        } else {
          curLen := curLen + 1;
        }
      } else {
        if cur != -1 {
          RunCloses(a, cur, curLen, base, len, i);
          if base == -1 || curLen > len {
            base, len := cur, curLen;
          }
          cur := -1;
        }
        NonzeroSkipped(a, base, len, i);
        NoRunOpen(a, curLen, i);
      }
    }
    if cur != -1 {
      RunCloses(a, cur, curLen, base, len, 8);
      if base == -1 || curLen > len {
        base, len := cur, curLen;
      }
    }
    LongRunsCount(a, base, len);
    if base != -1 && len < 2 {
      base := -1;
    }
  }

  lemma Start(a: seq<Byte>)
    requires |a| == 16
    ensures OpenRun(a, -1, 0, 0) && BestBefore(a, -1, 0, 0)
  {
  }

  lemma NoRunOpen(a: seq<Byte>, len: int, i: nat)
    requires |a| == 16 && i < 8 && Word(a, i) != 0
    ensures OpenRun(a, -1, len, i + 1)
  {
  }

  lemma RunGrows(a: seq<Byte>, base: int, len: int, i: nat)
    requires |a| == 16 && i < 8 && Word(a, i) == 0 && OpenRun(a, base, len, i)
    ensures if base == -1 then OpenRun(a, i, 1, i + 1) else OpenRun(a, base, len + 1, i + 1)
  {
  }

  lemma LongRunsCount(a: seq<Byte>, base: int, len: int)
    requires |a| == 16 && BestBefore(a, base, len, 8)
    ensures if base != -1 && len >= 2 then BestRun(a, base, len) else BestRun(a, -1, len)
  {
  }

  // ----- printing -----------------------------------------------------------------------------

  /** Writes the characters of s from tp on. */
  method PutText(buffer: array<char>, tp: nat, s: string) returns (end: nat)
    requires tp + |s| <= buffer.Length
    modifies buffer
    ensures end == tp + |s|
    ensures buffer[..end] == old(buffer[..tp]) + s && buffer[end..] == old(buffer[end..])
  {
    end := tp;
    for k := 0 to |s|
      invariant end == tp + k
      invariant buffer[..end] == old(buffer[..tp]) + s[..k]
      invariant buffer[end..] == old(buffer[end..])
    {
      buffer[end] := s[k];
      end := end + 1;
      assert s[..k + 1] == s[..k] + [s[k]];
    }
    assert s[..|s|] == s;
  }

  /** Writes s and a terminator from tp on; end is the place of the terminator. */
  method Put(buffer: array<char>, tp: nat, s: string) returns (end: nat)
    requires tp + |s| < buffer.Length
    modifies buffer
    ensures end == tp + |s|
    ensures buffer[..end] == old(buffer[..tp]) + s && buffer[end] == '\0'
    ensures buffer[end + 1..] == old(buffer[end + 1..])
  {
    end := PutText(buffer, tp, s);
    buffer[end] := '\0';
  }

  /** Writes one character. */
  method PutChar(buffer: array<char>, tp: nat, c: char) returns (end: nat)
    requires tp < buffer.Length
    modifies buffer
    ensures end == tp + 1
    ensures buffer[..end] == old(buffer[..tp]) + [c]
  {
    buffer[tp] := c;
    end := tp + 1;
  }

  /** How inet_ntop4 ends: stored, refused, or with its terminator written behind the
      last cell of the destination. */
  datatype Ending = Stored | NoSpace | PastEnd

  /** The size test does not count the terminator. With a destination of exactly size
      cells and a text of size characters the terminator has no cell. */
  method Ntop4(src: seq<Byte>, dst: array<char>, at: nat, size: nat) returns (ending: Ending)
    requires |src| == 4 && at + size <= dst.Length
    modifies dst
    ensures ending.NoSpace? <==> |Dotted(src)| > size
    ensures ending.PastEnd? <==> |Dotted(src)| == size && at + size == dst.Length
    ensures ending.NoSpace? ==> dst[..] == old(dst[..])
    ensures ending.PastEnd? ==> dst[..] == old(dst[..at]) + Dotted(src)
    ensures ending.Stored? ==>
      var end := at + |Dotted(src)|;
      dst[..end] == old(dst[..at]) + Dotted(src) && dst[end] == '\0' && dst[end + 1..] == old(dst[end + 1..])
  {
    hide Dec;
    var tmp := new char[16];
    DottedLength(src);
    var len := Put(tmp, 0, Dotted(src));
    if len > size {
      return NoSpace;
    }
    assert tmp[..len] == Dotted(src);
    var end := PutText(dst, at, tmp[..len]);
    if end == dst.Length {
      return PastEnd;
    }
    dst[end] := '\0';
    ending := Stored;
  }

  /** inet_ntop4 refuses the size, or text and terminator stay within it. */
  predicate StaysWithin(src: seq<Byte>, size: nat)
    requires |src| == 4
  {
    |Dotted(src)| > size || |Dotted(src)| + 1 <= size
  }

  /** The sizes that are safe for every address are those that no text has as its length:
      below 7, and from 16 on. */
  lemma TerminatorWithinSize(size: nat)
    ensures (forall src: seq<Byte> :: |src| == 4 ==> StaysWithin(src, size)) <==> size < 7 || size > 15
  {
    if 7 <= size <= 15 {
      assert !StaysWithin(FillingAddress(size), size);
    } else {
      forall src: seq<Byte> | |src| == 4
        ensures StaysWithin(src, size)
      {
        DottedLength(src);
      }
    }
  }

  /** An address whose text has the given length. */
  function FillingAddress(length: nat): (src: seq<Byte>)
    requires 7 <= length <= 15
    ensures |src| == 4 && |Dotted(src)| == length
  {
    var more := length - 7;
    seq(4, i => ByteOfDigits(if more <= 2 * i then 1 else if more == 2 * i + 1 then 2 else 3))
  }

  function ByteOfDigits(digits: int): (b: Byte)
    requires 1 <= digits <= 3
    ensures |Dec(b)| == digits
  {
    if digits == 1 then 1 else if digits == 2 then 10 else 100
  }

  /** 1.2.3.4 has seven characters and is accepted with size 7. */
  lemma SevenIsTooFew()
    ensures |Dotted([1, 2, 3, 4])| == 7 && !StaysWithin([1, 2, 3, 4], 7)
  {
    assert |Dec(1)| == |Dec(2)| == |Dec(3)| == |Dec(4)| == 1;
  }

  /** The words, each put together from a byte shifted up and a byte that fills bits still
      zero. */
  method Words(src: seq<Byte>) returns (words: array<nat>)
    requires |src| == 16
    ensures fresh(words) && words.Length == 8 && forall i :: 0 <= i < 8 ==> words[i] == Word(src, i)
  {
    words := new nat[8](_ => 0);
    for i := 0 to 16
      invariant forall k :: 0 <= k < i / 2 ==> words[k] == Word(src, k)
      invariant i % 2 == 1 ==> words[i / 2] == src[i - 1] as int * 256
      invariant forall k :: (i + 1) / 2 <= k < 8 ==> words[k] == 0
    {
      var byte: int := src[i];
      words[i / 2] := words[i / 2] + (if i % 2 == 0 then byte * 256 else byte);
    }
  }

  lemma SkipText(src: seq<Byte>, base: int, len: int, i: nat)
    requires |src| == 16 && i < 8 && InRun(base, len, i)
    ensures TextFrom(src, base, len, i) == (if i == base then ":" else "") + TextFrom(src, base, len, i + 1)
  {
  }

  lemma StartWord(src: seq<Byte>, base: int, len: int, i: nat)
    requires |src| == 16 && i < 8 && !InRun(base, len, i)
    ensures TextFrom(src, base, len, i) == (if i != 0 then ":" else "") + WordText(src, base, len, i)
  {
  }

  lemma PrintWord(src: seq<Byte>, base: int, len: int, i: nat)
    requires |src| == 16 && i < 8 && !(i == 6 && Embeds(src, base, len))
    ensures WordText(src, base, len, i) == Hex(Word(src, i)) + TextFrom(src, base, len, i + 1)
  {
  }

  lemma PrintQuad(src: seq<Byte>, base: int, len: int)
    requires |src| == 16 && Embeds(src, base, len)
    ensures WordText(src, base, len, 6) == Dotted(src[12..]) && base + len != 8
  {
  }

  lemma LastColon(src: seq<Byte>, base: int, len: int)
    requires |src| == 16
    ensures TextFrom(src, base, len, 8) == if base != -1 && base + len == 8 then ":" else ""
  {
  }

  /** What is done, grown by the next piece of the text. */
  lemma Append(done: string, piece: string, rest: string, text: string)
    requires done + (piece + rest) == text
    ensures done + piece + rest == text && |done| + |piece| + |rest| == |text|
  {
  }

  /** The printing loop: tmp holds the text of src when it ends. */
  method Print(src: seq<Byte>, words: array<nat>, base: int, len: int, tmp: array<char>) returns (tp: nat)
    requires |src| == 16 && words.Length == 8 && forall i :: 0 <= i < 8 ==> words[i] == Word(src, i)
    requires tmp.Length == ROOM
    modifies tmp
    ensures tp == |Text(src, base, len)| < ROOM
    ensures tmp[..tp] == Text(src, base, len)
  {
    hide Word, Hex, Dotted, InRun, TextFrom, WordText;
    TextLength(src, base, len);
    ghost var text := Text(src, base, len);
    assert Text(src, base, len) == TextFrom(src, base, len, 0);
    tp := 0;
    for i := 0 to 8
      invariant tp <= |text|
      invariant tmp[..tp] + TextFrom(src, base, len, i) == text
    {
      if InRun(base, len, i) {
        SkipText(src, base, len, i);
        Append(tmp[..tp], if i == base then ":" else "", TextFrom(src, base, len, i + 1), text);
        if i == base {
          tp := PutChar(tmp, tp, ':');
        }
        continue;
      }
      StartWord(src, base, len, i);
      Append(tmp[..tp], if i != 0 then ":" else "", WordText(src, base, len, i), text);
      if i != 0 {
        tp := PutChar(tmp, tp, ':');
      }
      if i == 6 && base == 0 && (len == 6 || (len == 5 && words[5] == 0xffff)) {
        PrintQuad(src, base, len);
        var ending := Ntop4(src[12..], tmp, tp, ROOM - tp);
        tp := tp + |Dotted(src[12..])|;
        assert tmp[..tp] == text;
        break;
      }
      PrintWord(src, base, len, i);
      Append(tmp[..tp], Hex(words[i]), TextFrom(src, base, len, i + 1), text);
      tp := Put(tmp, tp, Hex(words[i]));
    }
    LastColon(src, base, len);
    if base != -1 && base + len == 8 {
      tp := PutChar(tmp, tp, ':');
    }
  }

  /** The text of src with its best run compressed goes to dst if size leaves room for it
      and its terminator; otherwise dst is untouched. */
  method Ntop6(src: seq<Byte>, dst: array<char>, size: nat) returns (ok: bool, ghost base: int, ghost len: int)
    requires |src| == 16 && size <= dst.Length
    modifies dst
    ensures BestRun(src, base, len)
    ensures ok == (|Text(src, base, len)| < size)
    ensures !ok ==> dst[..] == old(dst[..])
    ensures ok ==>
      var end := |Text(src, base, len)|;
      dst[..end] == Text(src, base, len) && dst[end] == '\0' && dst[end + 1..] == old(dst[end + 1..])
  {
    hide Text, Word, BestRun;
    var words := Words(src);
    var b, l := FindRun(src, words);
    base, len := b, l;
    var tmp := new char[ROOM];
    var tp := Print(src, words, b, l, tmp);
    var text := tmp[..tp];
    tp := PutChar(tmp, tp, '\0');
    if tp > size {
      return false, base, len;
    }
    var end := Put(dst, 0, text);
    ok := true;
  }

  /** What inet_pton reads from the text that inet_ntop wrote is the address. */
  lemma PrintedReadsBack(a: seq<Byte>, base: int, len: int)
    requires |a| == 16 && BestRun(a, base, len)
    ensures Pton6(Text(a, base, len)) == Some(a)
  {
    RoundTrip(a, base, len);
  }
}
