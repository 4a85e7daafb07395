/** UTF-8 as Go's decoder reads it and as RFC 3629 defines it. */
module Utf8 {

  type byte = bv8
  type rune = bv32

  const RUNE_ERROR: rune := 0xFFFD

  /** How many bytes a lead byte announces, and the range its second byte must lie in. */
  datatype Lead = Invalid | Announces(size: nat, lo: byte, hi: byte)

  function LeadOf(b: byte): Lead {
    if 0xC2 <= b <= 0xDF then Announces(2, 0x80, 0xBF)
    else if b == 0xE0 then Announces(3, 0xA0, 0xBF)
    else if 0xE1 <= b <= 0xEC || 0xEE <= b <= 0xEF then Announces(3, 0x80, 0xBF)
    else if b == 0xED then Announces(3, 0x80, 0x9F)
    else if b == 0xF0 then Announces(4, 0x90, 0xBF)
    else if 0xF1 <= b <= 0xF3 then Announces(4, 0x80, 0xBF)
    else if b == 0xF4 then Announces(4, 0x80, 0x8F)
    else Invalid
  }

  predicate IsTail(b: byte) { 0x80 <= b <= 0xBF }

  function Bits(b: byte, mask: byte): rune { (b & mask) as rune }

  /** The bits a sequence of this width carries. */
  function RuneOf(c: seq<byte>): rune {
    if |c| == 1 then c[0] as rune
    else if |c| == 2 then (Bits(c[0], 0x1F) << 6) | Bits(c[1], 0x3F)
    else if |c| == 3 then (Bits(c[0], 0x0F) << 12) | (Bits(c[1], 0x3F) << 6) | Bits(c[2], 0x3F)
    else if |c| == 4 then
      (Bits(c[0], 0x07) << 18) | (Bits(c[1], 0x3F) << 12) | (Bits(c[2], 0x3F) << 6) | Bits(c[3], 0x3F)
    else RUNE_ERROR
  }

  /** utf8.DecodeRune: the first rune and its width; an invalid first byte is the error rune with
      width 1, and the empty string the error rune with width 0. */
  function DecodeRune(s: seq<byte>): (r: (rune, nat))
    ensures r.1 <= |s| && r.1 <= 4 && (s != [] ==> r.1 >= 1)
  {
    if s == [] then (RUNE_ERROR, 0)
    else if s[0] < 0x80 then (RuneOf(s[..1]), 1)
    else
      match LeadOf(s[0])
      case Invalid => (RUNE_ERROR, 1)
      case Announces(size, lo, hi) =>
        if |s| < size || !(lo <= s[1] <= hi) then (RUNE_ERROR, 1)
        else if size > 2 && !IsTail(s[2]) then (RUNE_ERROR, 1)
        else if size > 3 && !IsTail(s[3]) then (RUNE_ERROR, 1)
        else (RuneOf(s[..size]), size)
  }

  /** The test every caller makes: the first byte belongs to no valid sequence. */
  predicate StartsInvalid(s: seq<byte>) {
    DecodeRune(s) == (RUNE_ERROR, 1)
  }

  function Width(s: seq<byte>): (n: nat)
    requires s != []
    ensures 1 <= n <= |s|
  {
    DecodeRune(s).1
  }

  // ---------- Section 4 of RFC 3629 ----------

  /** UTF8-char: exactly one character. */
  predicate IsChar(c: seq<byte>) {
    || (|c| == 1 && c[0] <= 0x7F)
    || (|c| == 2 && 0xC2 <= c[0] <= 0xDF && IsTail(c[1]))
    || (|c| == 3 && IsTail(c[2]) &&
        (|| (c[0] == 0xE0 && 0xA0 <= c[1] <= 0xBF)
         || (0xE1 <= c[0] <= 0xEC && IsTail(c[1]))
         || (c[0] == 0xED && 0x80 <= c[1] <= 0x9F)
         || (0xEE <= c[0] <= 0xEF && IsTail(c[1]))))
    || (|c| == 4 && IsTail(c[2]) && IsTail(c[3]) &&
        (|| (c[0] == 0xF0 && 0x90 <= c[1] <= 0xBF)
         || (0xF1 <= c[0] <= 0xF3 && IsTail(c[1]))
         || (c[0] == 0xF4 && 0x80 <= c[1] <= 0x8F)))
  }

  /** UTF8-octets: any number of characters. */
  ghost predicate IsUtf8(s: seq<byte>) {
    s == [] || exists n :: 1 <= n <= |s| && IsChar(s[..n]) && IsUtf8(s[n..])
  }

  // ---------- The decoder accepts exactly the characters ----------

  lemma CharDecodes(s: seq<byte>, n: nat)
    requires n <= |s| && IsChar(s[..n])
    ensures s != [] && !StartsInvalid(s) && Width(s) == n
  {
    var c := s[..n];
    assert s[0] == c[0] && (n > 1 ==> s[1] == c[1]) && (n > 2 ==> s[2] == c[2]) && (n > 3 ==> s[3] == c[3]);
  }

  lemma DecodesToChar(s: seq<byte>)
    requires s != [] && !StartsInvalid(s)
    ensures IsChar(s[..Width(s)])
  {
    var n := Width(s);
    var c := s[..n];
    assert c[0] == s[0] && (n > 1 ==> c[1] == s[1]) && (n > 2 ==> c[2] == s[2]) && (n > 3 ==> c[3] == s[3]);
  }

  /** A string is valid exactly when its first character decodes and the rest is valid. */
  lemma ValidByWidth(s: seq<byte>)
    requires s != []
    ensures IsUtf8(s) <==> !StartsInvalid(s) && IsUtf8(s[Width(s)..])
  {
    if IsUtf8(s) {
      var n :| 1 <= n <= |s| && IsChar(s[..n]) && IsUtf8(s[n..]);
      CharDecodes(s, n);
    }
    if !StartsInvalid(s) { DecodesToChar(s); }
  }

  lemma DecodesToRune(s: seq<byte>)
    requires s != [] && !StartsInvalid(s)
    ensures DecodeRune(s) == (RuneOf(s[..Width(s)]), Width(s))
  {
  }

  /** A character decodes alike whatever follows it. */
  lemma DecodeInContext(c: seq<byte>, t: seq<byte>)
    requires IsChar(c)
    ensures DecodeRune(c + t) == DecodeRune(c) && Width(c + t) == |c| && !StartsInvalid(c + t)
  {
    hide IsChar, DecodeRune, RuneOf;
    var s := c + t;
    assert c[..|c|] == c && s[..|c|] == c;
    CharDecodes(c, |c|);
    CharDecodes(s, |c|);
    DecodesToRune(c);
    DecodesToRune(s);
  }

  lemma AsciiDecodes(s: seq<byte>)
    requires s != [] && s[0] < 0x80
    ensures Width(s) == 1 && !StartsInvalid(s) && DecodeRune(s).0 == s[0] as rune
  {
    assert s[..1][0] == s[0];
    assert IsChar(s[..1]);
    CharDecodes(s, 1);
  }
}
