/** Reading a JSON string back (section 7 of RFC 8259): what the encoder writes is what it was given, but for
    bytes of no character, and can stand in HTML (expand/object.go). */
module JsonDecode {
  import opened Common
  import opened JsonString
  import opened Utf8

  // ---------- The reader ----------

  function HexValue(d: byte): Option<rune> {
    if 0x30 <= d <= 0x39 then Some((d - 0x30) as rune)
    else if 0x61 <= d <= 0x66 then Some((d - 0x61 + 10) as rune)
    else if 0x41 <= d <= 0x46 then Some((d - 0x41 + 10) as rune)
    else None
  }

  function FourDigits(t: seq<byte>): Option<rune>
    requires |t| == 4
  {
    match (HexValue(t[0]), HexValue(t[1]), HexValue(t[2]), HexValue(t[3]))
    case (Some(a), Some(b), Some(c), Some(d)) => Some((a << 12) | (b << 8) | (c << 4) | d)
    case _ => None
  }

  /** The bytes of a code point below U+10000. */
  function Written(r: rune): seq<byte> {
    if r < 0x80 then [(r & 0x7F) as byte]
    else if r < 0x800 then [0xC0 | ((r >> 6) & 0x1F) as byte, 0x80 | (r & 0x3F) as byte]
    else [0xE0 | ((r >> 12) & 0x0F) as byte, 0x80 | ((r >> 6) & 0x3F) as byte, 0x80 | (r & 0x3F) as byte]
  }

  function ShortMeaning(d: byte): Option<byte> {
    if d == 0x22 || d == 0x5C || d == 0x2F then Some(d)
    else if d == 0x62 then Some(0x08)
    else if d == 0x66 then Some(0x0C)
    else if d == 0x6E then Some(0x0A)
    else if d == 0x72 then Some(0x0D)
    else if d == 0x74 then Some(0x09)
    else None
  }

  predicate IsPlain(b: byte) { b >= 0x20 && b != 0x22 && b != 0x5C }

  function Before(a: seq<byte>, rest: Option<seq<byte>>): Option<seq<byte>> {
    if rest.Some? then Some(a + rest.value) else None
  }

  /** What stands between the quotes, read. A code point beyond U+FFFF, which takes two escapes, is not read. */
  function Read(t: seq<byte>): Option<seq<byte>> {
    if t == [] then Some([])
    else if IsPlain(t[0]) then Before([t[0]], Read(t[1..]))
    else if t[0] != 0x5C || |t| < 2 then None
    else if t[1] == 0x75 then
      if |t| < 6 then None
      else
        match FourDigits(t[2..6])
        case None => None
        case Some(r) => if 0xD800 <= r <= 0xDFFF then None else Before(Written(r), Read(t[6..]))
    else
      match ShortMeaning(t[1])
      case None => None
      case Some(b) => Before([b], Read(t[2..]))
  }

  // ---------- What is read back ----------

  /** The string with each byte of no character replaced by U+FFFD. */
  function Cleaned(s: seq<byte>): seq<byte> {
    if s == [] then []
    else (if StartsInvalid(s) then [0xEF, 0xBF, 0xBD] else s[..Width(s)]) + Cleaned(s[Width(s)..])
  }

  lemma NibbleValue(b: byte)
    ensures HexValue(Nibble(b)) == Some((b & 0xF) as rune)
  {
    var k := (b & 0xF) as int;
    assert 0 <= k < 16;
  }

  lemma HexReads(b: byte)
    requires b < 0x80
    ensures FourDigits(Hex(b)[2..6]) == Some(b as rune) && Written(b as rune) == [b]
  {
    NibbleValue(b >> 4);
    NibbleValue(b);
    ZeroReads();
    NibblesJoin(b);
    HexTail(b);
    hide HexValue, Nibble, Hex, Written;
  }

  lemma HexTail(b: byte)
    ensures Hex(b)[2..6] == [0x30, 0x30, Nibble(b >> 4), Nibble(b)]
  {
    hide Nibble;
    var h := Hex(b);
    assert h[2] == 0x30 && h[3] == 0x30 && h[4] == Nibble(b >> 4) && h[5] == Nibble(b);
    assert h[2..6] == [h[2], h[3], h[4], h[5]];
  }

  lemma ZeroReads()
    ensures HexValue(0x30) == Some(0)
  {
  }

  lemma NibblesJoin(b: byte)
    requires b < 0x80
    ensures (0 << 12) | (0 << 8) | (((b >> 4) & 0xF) as rune << 4) | (b & 0xF) as rune == b as rune
    ensures Written(b as rune) == [b]
  {
  }

  /** An escape of six bytes. */
  lemma LongReads(e: seq<byte>, r: rune, t: seq<byte>)
    requires |e| == 6 && e[0] == 0x5C && e[1] == 0x75 && FourDigits(e[2..6]) == Some(r) && !(0xD800 <= r <= 0xDFFF)
    ensures Read(e + t) == Before(Written(r), Read(t))
  {
    hide FourDigits, Written;
    assert (e + t)[6..] == t && (e + t)[2..6] == e[2..6];
  }

  lemma ShortReads(e: seq<byte>, b: byte, t: seq<byte>)
    requires |e| == 2 && e[0] == 0x5C && e[1] != 0x75 && ShortMeaning(e[1]) == Some(b)
    ensures Read(e + t) == Before([b], Read(t))
  {
    assert (e + t)[2..] == t;
  }

  lemma {:induction false} PlainReads(c: seq<byte>, t: seq<byte>)
    requires forall k :: 0 <= k < |c| ==> IsPlain(c[k])
    ensures Read(c + t) == Before(c, Read(t))
  {
    if c == [] {
      assert c + t == t && (Read(t).Some? ==> [] + Read(t).value == Read(t).value);
    } else {
      assert (c + t)[0] == c[0] && (c + t)[1..] == c[1..] + t;
      PlainReads(c[1..], t);
      if Read(t).Some? {
        Regroup([c[0]], c[1..], Read(t).value);
        assert c == [c[0]] + c[1..];
      }
    }
  }

  lemma SpecialReads()
    ensures FourDigits([0x66, 0x66, 0x66, 0x64]) == Some(0xFFFD) && Written(0xFFFD) == [0xEF, 0xBF, 0xBD]
    ensures FourDigits([0x32, 0x30, 0x32, 0x38]) == Some(0x2028) && Written(0x2028) == [0xE2, 0x80, 0xA8]
    ensures FourDigits([0x32, 0x30, 0x32, 0x39]) == Some(0x2029) && Written(0x2029) == [0xE2, 0x80, 0xA9]
  {
  }

  /** Only these three bytes decode to a line or a paragraph separator. */
  lemma SeparatorBytes(s: seq<byte>)
    requires s != [] && !StartsInvalid(s)
    ensures DecodeRune(s).0 == 0x2028 ==> s[..Width(s)] == [0xE2, 0x80, 0xA8]
    ensures DecodeRune(s).0 == 0x2029 ==> s[..Width(s)] == [0xE2, 0x80, 0xA9]
  {
    DecodesToRune(s);
    DecodesToChar(s);
    hide DecodeRune, StartsInvalid, Width;
    ThreeBytes(s[..Width(s)]);
  }

  lemma ThreeBytes(c: seq<byte>)
    requires IsChar(c)
    ensures RuneOf(c) == 0x2028 ==> c == [0xE2, 0x80, 0xA8]
    ensures RuneOf(c) == 0x2029 ==> c == [0xE2, 0x80, 0xA9]
  {
  }

  /** The first character of a string, in ASCII. */
  lemma AsciiReads(s: seq<byte>, html: bool, t: seq<byte>)
    requires s != [] && s[0] < 0x80
    ensures Read(Escaped(s, html) + t) == Before([s[0]], Read(t))
  {
    var e := Escaped(s, html);
    if IsShort(s[0]) {
      assert e == [0x5C, ShortLetter(s[0])];
      ShortReads(e, s[0], t);
    } else if s[0] < 0x20 || (html && IsHtml(s[0])) {
      HexReads(s[0]);
      LongReads(e, s[0] as rune, t);
    } else {
      PlainReads(e, t);
    }
  }

  lemma HighBytesPlain(c: seq<byte>)
    requires IsChar(c) && c[0] >= 0x80
    ensures forall k :: 0 <= k < |c| ==> IsPlain(c[k])
  {
  }

  lemma HighReads(s: seq<byte>, html: bool, t: seq<byte>)
    requires s != [] && s[0] >= 0x80
    ensures Read(Escaped(s, html) + t) ==
            Before(if StartsInvalid(s) then [0xEF, 0xBF, 0xBD] else s[..Width(s)], Read(t))
  {
    var e := Escaped(s, html);
    SpecialReads();
    hide FourDigits, Written, Read, DecodeRune, IsShort, IsHtml, Hex;
    if StartsInvalid(s) {
      assert e[2..6] == [0x66, 0x66, 0x66, 0x64];
      LongReads(e, 0xFFFD, t);
    } else {
      SeparatorBytes(s);
      if DecodeRune(s).0 == 0x2028 {
        assert e[2..6] == [0x32, 0x30, 0x32, 0x38];
        LongReads(e, 0x2028, t);
      } else if DecodeRune(s).0 == 0x2029 {
        assert e[2..6] == [0x32, 0x30, 0x32, 0x39];
        LongReads(e, 0x2029, t);
      } else {
        DecodesToChar(s);
        HighBytesPlain(e);
        PlainReads(e, t);
      }
    }
  }

  /** Reading what is written between the quotes gives the string back, cleaned. */
  lemma {:induction false} BodyReadsBack(s: seq<byte>, html: bool)
    ensures Read(Body(s, html)) == Some(Cleaned(s))
  {
    if s != [] {
      var rest := Body(s[Width(s)..], html);
      BodyReadsBack(s[Width(s)..], html);
      if s[0] < 0x80 {
        AsciiReads(s, html, rest);
        AsciiIsWhole(s);
      } else {
        HighReads(s, html, rest);
      }
    }
  }

  lemma AsciiIsWhole(s: seq<byte>)
    requires s != [] && s[0] < 0x80
    ensures !StartsInvalid(s) && Width(s) == 1 && s[..Width(s)] == [s[0]]
  {
    AsciiDecodes(s);
  }

  /** Cleaning changes nothing exactly if the string is valid. */
  lemma {:induction false} CleanedIffValid(s: seq<byte>)
    ensures Cleaned(s) == s <==> IsUtf8(s)
  {
    if s == [] {
      assert IsUtf8([]);
    } else {
      CleanedIffValid(s[Width(s)..]);
      ValidByWidth(s);
      hide IsUtf8, StartsInvalid;
      if StartsInvalid(s) { CleanedDiffers(s); } else { CleanedKeepsFirst(s); }
    }
  }

  lemma CleanedKeepsFirst(s: seq<byte>)
    requires s != [] && !StartsInvalid(s)
    ensures Cleaned(s) == s <==> Cleaned(s[Width(s)..]) == s[Width(s)..]
  {
    var w, rest := Width(s), Cleaned(s[Width(s)..]);
    assert Cleaned(s) == s[..w] + rest;
    hide Cleaned, Width, StartsInvalid;
    assert (s[..w] + rest)[w..] == rest;
    assert s[..w] + s[w..] == s;
  }

  lemma {:induction false} CleanedIsLonger(s: seq<byte>)
    ensures |Cleaned(s)| >= |s|
  {
    if s != [] {
      CleanedIsLonger(s[Width(s)..]);
      OneInvalid(s);
    }
  }

  lemma OneInvalid(s: seq<byte>)
    requires s != []
    ensures StartsInvalid(s) ==> Width(s) == 1
  {
  }

  lemma CleanedDiffers(s: seq<byte>)
    requires s != [] && StartsInvalid(s)
    ensures |Cleaned(s)| > |s|
  {
    OneInvalid(s);
    CleanedIsLonger(s[1..]);
  }

  /** A quoted string is read back as it was given, exactly if it is valid UTF-8; otherwise each byte of no
      character comes back as U+FFFD. */
  lemma StringReadsBack(s: seq<byte>, html: bool)
    ensures |Quoted(s, html)| >= 2 && Read(Quoted(s, html)[1..|Quoted(s, html)| - 1]) == Some(Cleaned(s))
    ensures Cleaned(s) == s <==> IsUtf8(s)
  {
    hide Body, Read, Cleaned, IsUtf8;
    BodyReadsBack(s, html);
    CleanedIffValid(s);
    assert Quoted(s, html)[1..|Quoted(s, html)| - 1] == Body(s, html);
  }

  // ---------- What is never written ----------

  /** Safe inside a script: no control character, and none of the brackets and the ampersand that HTML reads. */
  predicate IsSafe(b: byte, html: bool) { b >= 0x20 && (html ==> b != 0x3C && b != 0x3E && b != 0x26) }

  lemma HexIsSafe(b: byte)
    ensures forall k :: 0 <= k < 6 ==> IsSafe(Hex(b)[k], true)
  {
    NibbleIsDigit(b >> 4);
    NibbleIsDigit(b);
  }

  lemma NibbleIsDigit(b: byte)
    ensures Nibble(b) in HEX && IsSafe(Nibble(b), true)
  {
    var k := (b & 0xF) as int;
    assert 0 <= k < 16;
  }

  lemma EscapedIsSafe(s: seq<byte>, html: bool)
    requires s != []
    ensures forall k :: 0 <= k < |Escaped(s, html)| ==> IsSafe(Escaped(s, html)[k], html)
  {
    if s[0] < 0x80 {
      HexIsSafe(s[0]);
    } else if !StartsInvalid(s) {
      DecodesToChar(s);
      HighBytesPlain(s[..Width(s)]);
      HighIsSafe(s[..Width(s)]);
    }
  }

  lemma HighIsSafe(c: seq<byte>)
    requires IsChar(c) && c[0] >= 0x80
    ensures forall k :: 0 <= k < |c| ==> IsSafe(c[k], true)
  {
  }

  /** With HTML escaping no bracket and no ampersand is written, and no control character in any case. */
  lemma {:induction false} BodyIsSafe(s: seq<byte>, html: bool)
    ensures forall k :: 0 <= k < |Body(s, html)| ==> IsSafe(Body(s, html)[k], html)
  {
    hide Escaped, IsSafe;
    if s != [] {
      EscapedIsSafe(s, html);
      BodyIsSafe(s[Width(s)..], html);
    }
  }
}
