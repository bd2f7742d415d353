/** inet_pton: the two parsing loops and the overlapping shift in place. A text is a
    sequence of characters without its terminator. */
module InetPton {
  import opened InetText
  import opened Options

  /** The four numbers of src from curtok on go to dst at tp, or dst is untouched. */
  method Pton4At(src: string, curtok: nat, dst: array<Byte>, at: nat) returns (ok: bool)
    requires curtok <= |src| && at + 4 <= dst.Length
    modifies dst
    ensures ok == Pton4(src[curtok..]).Some?
    ensures !ok ==> dst[..] == old(dst[..])
    ensures ok ==> dst[..] == old(dst[..at]) + Pton4(src[curtok..]).value + old(dst[at + 4..])
  {
    hide DecValue;
    var tmp := new Byte[4];
    var tp, octets, saw := 0, 0, false;
    tmp[0] := 0;
    var i := curtok;
    assert tmp[..1] == [0];
    while i < |src|
      invariant curtok <= i <= |src| && octets <= 4 && (octets == 4 ==> saw)
      invariant 0 <= tp < 4 && tp + 1 == (if saw then octets else octets + 1)
      invariant dst[..] == old(dst[..])
      invariant Read4(src[i..], tmp[..tp + 1], octets, saw) == Pton4(src[curtok..])
    {
      var ch := src[i];
      ghost var cur := tmp[..tp + 1];
      assert src[i..] != "" && src[i..][0] == ch && src[i..][1..] == src[i + 1..];
      i := i + 1;
      var d := DecValue(ch);
      if d != -1 {
        var new_ := tmp[tp] * 10 + d;
        if new_ > 255 {
          return false;
        }
        tmp[tp] := new_;
        assert tmp[..tp + 1] == cur[tp := new_];
        if !saw {
          octets := octets + 1;
          if octets > 4 {
            return false;
          }
          saw := true;
        }
      } else if ch == '.' && saw {
        if octets == 4 {
          return false;
        }
        tp := tp + 1;
        tmp[tp] := 0;
        assert tmp[..tp + 1] == cur + [0];
        saw := false;
      } else {
        return false;
      }
    }
    assert src[i..] == "";
    if octets < 4 {
      return false;
    }
    assert tmp[..4] == tmp[..];
    forall k | 0 <= k < 4 {
      dst[at + k] := tmp[k];
    }
    ok := true;
  }

  lemma ShiftAt(out: seq<Byte>, colon: nat, p: nat)
    requires colon <= |out| <= 16 && p < 16
    ensures Shift(out, colon)[p]
      == if p < colon then out[p]
         else if |out| == 16 || p < 16 - |out| + colon then 0
         else out[p - (16 - |out|)]
  {
  }

  lemma ZeroBehind(tmp: seq<Byte>, tp: nat)
    requires tp <= |tmp| && AllZero(tmp[tp..])
    ensures forall p :: tp <= p < |tmp| ==> tmp[p] == 0
  {
  }

  /** The bytes behind colonp move to the end of tmp, which is zero from tp on, and zeros
      take their place; with nowhere to move to they are only cleared. */
  method MoveBehind(tmp: array<Byte>, tp: nat, colonp: nat)
    requires tmp.Length == 16 && colonp <= tp <= 16 && AllZero(tmp[tp..])
    modifies tmp
    ensures tmp[..] == Shift(old(tmp[..tp]), colonp)
  {
    hide Shift, AllZero;
    ghost var out := tmp[..tp];
    ghost var gap := 16 - tp;
    var n := tp - colonp;
    ZeroBehind(tmp[..], tp);
    for i := 1 to n + 1
      invariant forall p :: 0 <= p <= tp - i ==> tmp[p] == out[p]
      invariant forall p :: tp - i < p <= 16 - i ==> tmp[p] == 0
      invariant forall p :: 16 - i < p < 16 ==> tmp[p] == if gap == 0 then 0 else out[p - gap]
    {
      tmp[16 - i] := tmp[colonp + n - i];
      tmp[colonp + n - i] := 0;
    }
    forall p | 0 <= p < 16
      ensures tmp[..][p] == Shift(out, colonp)[p]
    {
      ShiftAt(out, colonp, p);
    }
  }

  /** Stores the word being read, high byte first. */
  method PutWord(tmp: array<Byte>, tp: nat, val: nat) returns (end: nat)
    requires tmp.Length == 16 && tp + 2 <= 16 && val <= 0xffff
    modifies tmp
    ensures end == tp + 2 && tmp[..end] == old(tmp[..tp]) + [High(val), Low(val)]
    ensures tmp[end..] == old(tmp[end..])
  {
    tmp[tp] := High(val);
    tmp[tp + 1] := Low(val);
    end := tp + 2;
  }

  /** What follows the parsing loop: the last word, the gap, the length test, the copy. */
  method Complete(tmp: array<Byte>, at: nat, colonp: int, val: nat, saw: bool, dst: array<Byte>, ghost st: State)
    returns (ok: bool)
    requires tmp.Length == 16 == dst.Length && tmp != dst && -1 <= colonp <= at <= 16 && val <= 0xffff
    requires AllZero(tmp[at..]) && Sane(st)
    requires st.out == tmp[..at] && st.colon == colonp && st.val == val && st.saw == saw
    modifies tmp, dst
    ensures ok == Finish(st).Some?
    ensures dst[..] == if ok then Finish(st).value else old(dst[..])
  {
    hide Shift;
    var tp := at;
    if saw {
      if tp + 2 > 16 {
        return false;
      }
      tp := PutWord(tmp, tp, val);
    }
    if colonp != -1 {
      MoveBehind(tmp, tp, colonp);
      tp := 16;
    }
    if tp != 16 {
      return false;
    }
    assert tmp[..16] == tmp[..];
    forall k | 0 <= k < 16 {
      dst[k] := tmp[k];
    }
    ok := true;
  }

  lemma DigitStep(s: string, st: State)
    requires s != "" && Sane(st) && HexValue(s[0]) != -1
    ensures var val := st.val * 16 + HexValue(s[0]);
            Read6(s, st) == if val > 0xffff then None else Read6(s[1..], st.(val := val, saw := true))
  {
  }

  lemma ColonStep(s: string, st: State)
    requires s != "" && Sane(st) && s[0] == ':'
    ensures Read6(s, st)
      == if !st.saw then
           if st.colon != -1 then None else Read6(s[1..], st.(colon := |st.out|, tok := s[1..]))
         else if |st.out| + 2 > 16 then None
         else Read6(s[1..], State(st.out + [High(st.val), Low(st.val)], st.colon, 0, false, s[1..]))
  {
  }

  lemma OtherStep(s: string, st: State)
    requires s != "" && Sane(st) && s[0] != ':' && HexValue(s[0]) == -1
    ensures Read6(s, st)
      == if s[0] == '.' && |st.out| + 4 <= 16 && Pton4(st.tok).Some? then
           Finish(State(st.out + Pton4(st.tok).value, st.colon, st.val, false, st.tok))
         else None
  {
  }

  /** The bytes that the text src stands for go to dst, or dst is untouched. */
  method Pton6To(src: string, dst: array<Byte>) returns (ok: bool)
    requires dst.Length == 16
    modifies dst
    ensures ok == Pton6(src).Some?
    ensures dst[..] == if ok then Pton6(src).value else old(dst[..])
  {
    hide Read6, Pton4, HexValue, Finish;
    var tmp := new Byte[16](_ => 0);
    var tp, colonp, val, saw, i := 0, -1, 0, false, 0;
    if src != "" && src[0] == ':' {
      i := 1;
      if |src| < 2 || src[1] != ':' {
        return false;
      }
    }
    var curtok := i;
    assert src[0..] == src && tmp[..0] == [];
    while i < |src|
      invariant 0 <= curtok <= i <= |src| && -1 <= colonp <= tp <= 16 && 0 <= val <= 0xffff
      invariant AllZero(tmp[tp..]) && dst[..] == old(dst[..])
      invariant Read6(src[i..], State(tmp[..tp], colonp, val, saw, src[curtok..])) == Pton6(src)
    {
      var ch := src[i];
      ghost var s, st := src[i..], State(tmp[..tp], colonp, val, saw, src[curtok..]);
      assert s != "" && s[0] == ch && s[1..] == src[i + 1..];
      i := i + 1;
      var d := HexValue(ch);
      if d != -1 {
        DigitStep(s, st);
        val := val * 16 + d;
        if val > 0xffff {
          return false;
        }
        saw := true;
        continue;
      }
      if ch == ':' {
        ColonStep(s, st);
        curtok := i;
        if !saw {
          if colonp != -1 {
            return false;
          }
          colonp := tp;
          continue;
        }
        if tp + 2 > 16 {
          return false;
        }
        tp := PutWord(tmp, tp, val);
        saw := false;
        val := 0;
        continue;
      }
      OtherStep(s, st);
      if ch == '.' && tp + 4 <= 16 {
        ok := Pton4At(src, curtok, tmp, tp);
        if ok {
          tp := tp + 4;
          saw := false;
          assert Finish(State(tmp[..tp], colonp, val, saw, src[curtok..])) == Pton6(src);
          break;
        }
      }
      return false;
    }
    ghost var st := State(tmp[..tp], colonp, val, saw, src[curtok..]);
    AtEnd(st);
    assert i == |src| ==> src[i..] == "";
    assert Finish(st) == Pton6(src);
    ok := Complete(tmp, tp, colonp, val, saw, dst, st);
  }
}
