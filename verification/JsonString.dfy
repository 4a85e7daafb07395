/** JSON strings as the encoder writes them, escaped once or twice, and the sizes the preflight predicts
    for them without writing any (expand/object.go). Section 7 of RFC 8259 with HTML escaping. */
module JsonString {
  import opened Utf8

  const HEX: seq<byte> := [0x30, 0x31, 0x32, 0x33, 0x34, 0x35, 0x36, 0x37, 0x38, 0x39, 0x61, 0x62, 0x63, 0x64, 0x65, 0x66]

  function Nibble(b: byte): byte { HEX[(b & 0xF) as int] }

  /** Backslash, u, 0, 0 and two digits. */
  function Hex(b: byte): (r: seq<byte>)
    ensures |r| == 6
  {
    [0x5C, 0x75, 0x30, 0x30, Nibble(b >> 4), Nibble(b)]
  }

  predicate IsQuoteOrSlash(b: byte) { b == 0x22 || b == 0x5C }

  /** The bytes that have a short escape of their own. */
  predicate IsShort(b: byte) {
    IsQuoteOrSlash(b) || b == 0x08 || b == 0x0C || b == 0x0A || b == 0x0D || b == 0x09
  }

  predicate IsHtml(b: byte) { b == 0x3C || b == 0x3E || b == 0x26 }

  function ShortLetter(b: byte): byte {
    if IsQuoteOrSlash(b) then b
    else if b == 0x08 then 0x62
    else if b == 0x0C then 0x66
    else if b == 0x0A then 0x6E
    else if b == 0x0D then 0x72
    else 0x74
  }

  /** What the first character of a string is written as. */
  function Escaped(s: seq<byte>, html: bool): seq<byte>
    requires s != []
  {
    if s[0] < 0x80 then
      if IsShort(s[0]) then [0x5C, ShortLetter(s[0])]
      else if s[0] < 0x20 || (html && IsHtml(s[0])) then Hex(s[0])
      else [s[0]]
    else if StartsInvalid(s) then [0x5C, 0x75, 0x66, 0x66, 0x66, 0x64]
    else if DecodeRune(s).0 == 0x2028 then [0x5C, 0x75, 0x32, 0x30, 0x32, 0x38]
    else if DecodeRune(s).0 == 0x2029 then [0x5C, 0x75, 0x32, 0x30, 0x32, 0x39]
    else s[..Width(s)]
  }

  function Body(s: seq<byte>, html: bool): seq<byte> {
    if s == [] then [] else Escaped(s, html) + Body(s[Width(s)..], html)
  }

  function Quoted(s: seq<byte>, html: bool): seq<byte> { [0x22] + Body(s, html) + [0x22] }

  // ---------- The predicted size ----------

  /** Whether the first character takes an escape. */
  predicate TakesEscape(s: seq<byte>)
    requires s != []
  {
    if s[0] < 0x80 then IsShort(s[0]) || s[0] < 0x20 || IsHtml(s[0])
    else StartsInvalid(s) || DecodeRune(s).0 == 0x2028 || DecodeRune(s).0 == 0x2029
  }

  /** How many characters of a string take an escape. */
  function Escapes(s: seq<byte>): nat {
    if s == [] then 0 else (if TakesEscape(s) then 1 else 0) + Escapes(s[Width(s)..])
  }

  /** The counting loop of jsonStringMetrics. */
  method JsonStringMetrics(s: seq<byte>) returns (size: nat, backslashes: nat)
    ensures size == |Quoted(s, true)|
    ensures backslashes == Escapes(s)
  {
    hide Escaped, Body, Escapes, TakesEscape, DecodeRune, Width, IsShort, IsHtml, StartsInvalid;
    size, backslashes := 2, 0;
    var i := 0;
    assert s[0..] == s;
    while i < |s|
      invariant i <= |s|
      invariant size + |Body(s[i..], true)| == 2 + |Body(s, true)|
      invariant backslashes + Escapes(s[i..]) == Escapes(s)
      decreases |s| - i
    {
      var c := s[i];
      MetricsStep(s, i);
      if c < 0x80 {
        i := i + 1;
        if IsShort(c) {
          size, backslashes := size + 2, backslashes + 1;
        } else if IsHtml(c) {
          size, backslashes := size + 6, backslashes + 1;
        } else if c < 0x20 {
          size, backslashes := size + 6, backslashes + 1;
        } else {
          size := size + 1;
        }
        continue;
      }
      var (r, width) := DecodeRune(s[i..]);
      i := i + width;
      if r == RUNE_ERROR && width == 1 {
        size, backslashes := size + 6, backslashes + 1;
      } else if r == 0x2028 || r == 0x2029 {
        size, backslashes := size + 6, backslashes + 1;
      } else {
        size := size + width;
      }
    }
    BodyNothing();
    assert s[|s|..] == [];
  }

  lemma BodyNothing()
    ensures Body([], true) == [] && Body([], false) == [] && Escapes([]) == 0
  {
  }

  /** How long the first character's text is, in the terms of the loop. */
  function EscapedSize(s: seq<byte>): nat
    requires s != []
  {
    var (r, width) := DecodeRune(s);
    if s[0] < 0x80 then
      if IsShort(s[0]) then 2 else if IsHtml(s[0]) || s[0] < 0x20 then 6 else 1
    else if (r == RUNE_ERROR && width == 1) || r == 0x2028 || r == 0x2029 then 6
    else width
  }

  lemma EscapedSizeIs(s: seq<byte>)
    requires s != []
    ensures |Escaped(s, true)| == EscapedSize(s)
    ensures TakesEscape(s) <==> if s[0] < 0x80 then IsShort(s[0]) || IsHtml(s[0]) || s[0] < 0x20
                                else StartsInvalid(s) || DecodeRune(s).0 == 0x2028 || DecodeRune(s).0 == 0x2029
  {
    hide IsShort, IsHtml, DecodeRune, Hex, ShortLetter;
  }

  /** What one round of the loop accounts for. */
  lemma MetricsStep(s: seq<byte>, i: nat)
    requires i < |s|
    ensures var t := s[i..];
            var next := s[i + Width(t)..];
            Width(t) == DecodeRune(t).1 && i + Width(t) <= |s| && (s[i] < 0x80 ==> Width(t) == 1) &&
            (s[i] >= 0x80 ==> (StartsInvalid(t) <==> DecodeRune(t) == (RUNE_ERROR, 1))) &&
            |Body(t, true)| == EscapedSize(t) + |Body(next, true)| &&
            Escapes(t) == (if TakesEscape(t) then 1 else 0) + Escapes(next) &&
            (TakesEscape(t) <==> if s[i] < 0x80 then IsShort(s[i]) || IsHtml(s[i]) || s[i] < 0x20
                                 else DecodeRune(t) == (RUNE_ERROR, 1) || DecodeRune(t).0 == 0x2028 || DecodeRune(t).0 == 0x2029)
  {
    hide IsShort, IsHtml, DecodeRune, Escaped, EscapedSize, TakesEscape;
    var t := s[i..];
    assert t[0] == s[i] && t[Width(t)..] == s[i + Width(t)..];
    EscapedSizeIs(t);
    if s[i] < 0x80 { AsciiDecodes(t); }
  }

  // ---------- A string quoted twice ----------

  /** The quotes and backslashes of a string. */
  function QuotesAndSlashes(s: seq<byte>): nat {
    if s == [] then 0 else (if IsQuoteOrSlash(s[0]) then 1 else 0) + QuotesAndSlashes(s[1..])
  }

  lemma {:induction false} NoneCounted(s: seq<byte>)
    ensures QuotesAndSlashes(s) == 0 <==> forall i :: 0 <= i < |s| ==> !IsQuoteOrSlash(s[i])
  {
    hide IsQuoteOrSlash;
    if s != [] {
      NoneCounted(s[1..]);
      assert s == [s[0]] + s[1..];
    }
  }

  /** A character is written alike whatever follows it. */
  lemma BodyOfChar(c: seq<byte>, t: seq<byte>, html: bool)
    requires IsChar(c)
    ensures Body(c + t, html) == Escaped(c, html) + Body(t, html)
  {
    hide DecodeRune, IsShort, IsHtml, Hex, Width, IsChar, StartsInvalid;
    CharIsSome(c);
    DecodeInContext(c, t);
    WidthOfChar(c);
    assert (c + t)[|c|..] == t && (c + t)[..|c|] == c == c[..|c|] && (c + t)[0] == c[0];
  }

  lemma CharIsSome(c: seq<byte>)
    requires IsChar(c)
    ensures c != []
  {
  }

  lemma WidthOfChar(c: seq<byte>)
    requires IsChar(c)
    ensures c != [] && Width(c) == |c| && !StartsInvalid(c)
  {
    hide IsChar, DecodeRune;
    assert c[..|c|] == c;
    CharDecodes(c, |c|);
  }

  predicate Printable(b: byte) { 0x20 <= b < 0x80 }

  /** Escaping printable ASCII again doubles its quotes and backslashes and nothing else. */
  lemma {:induction false} BodyOfAscii(a: seq<byte>, t: seq<byte>)
    requires forall i :: 0 <= i < |a| ==> Printable(a[i])
    ensures |Body(a + t, false)| == |a| + QuotesAndSlashes(a) + |Body(t, false)|
  {
    hide Body, Escaped;
    if a == [] {
      assert a + t == t;
    } else {
      assert a + t == [a[0]] + (a[1..] + t);
      BodyOfAscii(a[1..], t);
      BodyOfChar([a[0]], a[1..] + t, false);
      EscapedAscii(a[0]);
    }
  }

  lemma EscapedAscii(b: byte)
    requires Printable(b)
    ensures |Escaped([b], false)| == 1 + if IsQuoteOrSlash(b) then 1 else 0
  {
  }

  /** The extra bytes one character costs when what it is written as is escaped again. */
  lemma SecondEscape(s: seq<byte>, t: seq<byte>)
    requires s != []
    ensures |Body(Escaped(s, true) + t, false)| ==
            |Escaped(s, true)| + (if TakesEscape(s) then 1 else 0) + (if IsQuoteOrSlash(s[0]) then 1 else 0)
            + |Body(t, false)|
  {
    hide Body, DecodeRune, Width, StartsInvalid;
    var e := Escaped(s, true);
    if TakesEscape(s) || s[0] < 0x80 {
      EscapedIsPrintable(s);
      BodyOfAscii(e, t);
    } else {
      hide Escaped;
      PlainChar(s);
      BodyOfChar(e, t, false);
    }
  }

  /** A backslash, one more byte, and then neither quotes nor backslashes. */
  predicate IsEscape(e: seq<byte>) {
    |e| >= 2 && e[0] == 0x5C && Printable(e[1]) &&
    forall i :: 2 <= i < |e| ==> Printable(e[i]) && !IsQuoteOrSlash(e[i])
  }

  lemma EscapeCounts(e: seq<byte>)
    requires IsEscape(e)
    ensures forall i :: 0 <= i < |e| ==> Printable(e[i])
    ensures QuotesAndSlashes(e) == 1 + if IsQuoteOrSlash(e[1]) then 1 else 0
  {
    var rest := e[1..][1..];
    assert forall i :: 0 <= i < |rest| ==> rest[i] == e[i + 2];
    NoneCounted(rest);
  }

  lemma NibbleShape(b: byte)
    ensures Printable(Nibble(b)) && !IsQuoteOrSlash(Nibble(b))
  {
    var k := (b & 0xF) as int;
    assert 0 <= k < 16;
    assert forall j :: 0 <= j < 16 ==> Printable(HEX[j]) && !IsQuoteOrSlash(HEX[j]);
  }

  lemma EscapedIsEscape(s: seq<byte>)
    requires s != [] && TakesEscape(s)
    ensures IsEscape(Escaped(s, true))
    ensures IsQuoteOrSlash(Escaped(s, true)[1]) <==> IsQuoteOrSlash(s[0])
  {
    hide Nibble, DecodeRune;
    NibbleShape(s[0]);
    NibbleShape(s[0] >> 4);
  }

  lemma EscapedIsPrintable(s: seq<byte>)
    requires s != [] && (TakesEscape(s) || s[0] < 0x80)
    ensures forall i :: 0 <= i < |Escaped(s, true)| ==> Printable(Escaped(s, true)[i])
    ensures QuotesAndSlashes(Escaped(s, true)) ==
            (if TakesEscape(s) then 1 else 0) + if IsQuoteOrSlash(s[0]) then 1 else 0
  {
    if TakesEscape(s) {
      hide Escaped, TakesEscape;
      EscapedIsEscape(s);
      EscapeCounts(Escaped(s, true));
    } else {
      hide Hex, DecodeRune;
      assert Escaped(s, true) == [s[0]] && [s[0]][1..] == [];
    }
  }

  lemma PlainChar(s: seq<byte>)
    requires s != [] && !TakesEscape(s) && s[0] >= 0x80
    ensures IsChar(Escaped(s, true)) && Escaped(Escaped(s, true), false) == Escaped(s, true) && !IsQuoteOrSlash(s[0])
  {
    hide IsChar;
    DecodesToChar(s);
    var c := s[..Width(s)];
    WidthOfChar(c);
    DecodesToRune(s);
    DecodesToRune(c);
    assert c[..|c|] == c && c[0] == s[0];
  }

  lemma {:induction false} QuotesAppend(a: seq<byte>, b: seq<byte>)
    ensures QuotesAndSlashes(a + b) == QuotesAndSlashes(a) + QuotesAndSlashes(b)
  {
    hide IsQuoteOrSlash;
    if a == [] {
      assert a + b == b;
    } else {
      assert (a + b)[1..] == a[1..] + b;
      QuotesAppend(a[1..], b);
    }
  }

  /** Only a character of one byte is a quote or a backslash. */
  lemma QuotesByChar(s: seq<byte>)
    requires s != []
    ensures QuotesAndSlashes(s) == (if IsQuoteOrSlash(s[0]) then 1 else 0) + QuotesAndSlashes(s[Width(s)..])
  {
    hide IsQuoteOrSlash, QuotesAndSlashes, DecodeRune;
    var first := s[..Width(s)];
    assert s == first + s[Width(s)..];
    QuotesAppend(first, s[Width(s)..]);
    FirstQuotes(s);
  }

  lemma FirstQuotes(s: seq<byte>)
    requires s != []
    ensures QuotesAndSlashes(s[..Width(s)]) == if IsQuoteOrSlash(s[0]) then 1 else 0
  {
    hide DecodeRune, IsQuoteOrSlash;
    var first := s[..Width(s)];
    if s[0] < 0x80 {
      AsciiDecodes(s);
      assert first == [s[0]] && first[1..] == [];
    } else {
      HighBytes(s);
      NoneCounted(first);
      assert first[0] == s[0];
    }
  }

  lemma HighBytes(s: seq<byte>)
    requires s != [] && s[0] >= 0x80
    ensures forall i :: 0 <= i < Width(s) ==> !IsQuoteOrSlash(s[i])
  {
    hide DecodeRune;
    if StartsInvalid(s) {
      assert Width(s) == 1;
    } else {
      DecodesToChar(s);
      var c := s[..Width(s)];
      assert forall i :: 0 <= i < |c| ==> c[i] == s[i];
      CharBytes(c);
    }
  }

  lemma CharBytes(c: seq<byte>)
    requires IsChar(c) && c[0] >= 0x80
    ensures forall i :: 0 <= i < |c| ==> !IsQuoteOrSlash(c[i])
  {
  }

  lemma {:induction false} BodyTwice(s: seq<byte>, t: seq<byte>)
    ensures |Body(Body(s, true) + t, false)| ==
            |Body(s, true)| + Escapes(s) + QuotesAndSlashes(s) + |Body(t, false)|
    decreases |s|
  {
    hide Escaped, QuotesAndSlashes, IsQuoteOrSlash, TakesEscape, Width;
    if s == [] {
      assert Body(s, true) + t == t;
      NoneCounted(s);
    } else {
      var rest := s[Width(s)..];
      BodyStep(s);
      assert Escaped(s, true) + Body(rest, true) + t == Escaped(s, true) + (Body(rest, true) + t);
      SecondEscape(s, Body(rest, true) + t);
      BodyTwice(rest, t);
      QuotesByChar(s);
    }
  }

  lemma BodyStep(s: seq<byte>)
    requires s != []
    ensures Body(s, true) == Escaped(s, true) + Body(s[Width(s)..], true)
    ensures Escapes(s) == (if TakesEscape(s) then 1 else 0) + Escapes(s[Width(s)..])
  {
  }

  function QuotedTwice(s: seq<byte>): seq<byte> { Quoted(Quoted(s, true), false) }

  /** A string quoted twice costs four bytes, one for each escape, and one more for each quote or backslash. */
  lemma QuotedTwiceSize(s: seq<byte>)
    ensures |QuotedTwice(s)| == |Quoted(s, true)| + 4 + Escapes(s) + QuotesAndSlashes(s)
  {
    hide Body, Escapes, QuotesAndSlashes;
    var q: seq<byte> := [0x22];
    QuoteCounts();
    assert Quoted(s, true) == q + (Body(s, true) + q);
    BodyOfAscii(q, Body(s, true) + q);
    BodyTwice(s, q);
    BodyOfAscii(q, []);
    assert q + [] == q;
    BodyNothing();
  }

  lemma QuoteCounts()
    ensures QuotesAndSlashes([0x22]) == 1
  {
    var q: seq<byte> := [0x22];
    assert q[1..] == [];
  }
}
