/** Byte-exact arguments through a UTF-16 command line (interp/argv_wtf8.go): every byte that is not
    part of a valid UTF-8 sequence travels as the WTF-8 form of the lone surrogate U+DC00+byte. */
module ArgvWtf8 {
  import opened Common
  import opened Utf8

  predicate IsByteSurrogate(s: seq<byte>) {
    |s| >= 3 && s[0] == 0xED && (s[1] == 0xB2 || s[1] == 0xB3) && 0x80 <= s[2] <= 0xBF
  }

  /** appendWTF8Surrogate: the three bytes of U+DC00+b. */
  function Surrogate(b: byte): (c: seq<byte>)
    ensures |c| == 3
  {
    var r: rune := 0xDC00 + b as rune;
    [0xE0 | Low(r >> 12), 0x80 | (Low(r >> 6) & 0x3F), 0x80 | (Low(r) & 0x3F)]
  }

  function Low(r: rune): byte { (r & 0xFF) as byte }

  function SurrogateByte(s: seq<byte>): byte
    requires |s| >= 3
  {
    Low((((s[0] & 0x0F) as rune << 12) | ((s[1] & 0x3F) as rune << 6) | ((s[2] & 0x3F) as rune)) - 0xDC00)
  }

  function Encode(s: seq<byte>): seq<byte> {
    if s == [] then []
    else if StartsInvalid(s) then Surrogate(s[0]) + Encode(s[1..])
    else s[..Width(s)] + Encode(s[Width(s)..])
  }

  function Decode(s: seq<byte>): seq<byte> {
    if s == [] then []
    else if IsByteSurrogate(s) then [SurrogateByte(s)] + Decode(s[3..])
    else [s[0]] + Decode(s[1..])
  }

  // ---------- The loops of the source ----------

  lemma EncodeStep(s: seq<byte>, i: nat)
    requires i < |s|
    ensures var w := Width(s[i..]);
            Encode(s[i..]) == if StartsInvalid(s[i..]) then Surrogate(s[i]) + Encode(s[i + 1..])
                              else s[i..i + w] + Encode(s[i + w..])
  {
    hide DecodeRune, Surrogate;
    var w := Width(s[i..]);
    assert s[i..][..w] == s[i..i + w] && s[i..][w..] == s[i + w..] && s[i..][1..] == s[i + 1..];
  }

  lemma Onward(whole: seq<byte>, done: seq<byte>, ahead: seq<byte>, next: seq<byte>, rest: seq<byte>)
    requires whole == done + ahead && ahead == next + rest
    ensures whole == (done + next) + rest
  {
    Regroup(done, next, rest);
  }

  /** A character is copied behind what is encoded already. */
  lemma CopyStep(s: seq<byte>, i: nat, done: seq<byte>)
    requires i < |s| && !StartsInvalid(s[i..]) && Encode(s) == done + Encode(s[i..])
    ensures var size := Width(s[i..]);
            0 < size && i + size <= |s| && Encode(s) == (done + s[i..i + size]) + Encode(s[i + size..])
  {
    hide *;
    EncodeStep(s, i);
    var size := Width(s[i..]);
    var next, rest := s[i..i + size], Encode(s[i + size..]);
    Onward(Encode(s), done, Encode(s[i..]), next, rest);
  }

  /** A byte that starts no character gives way to its surrogate. */
  lemma SurrogateStep(s: seq<byte>, i: nat, done: seq<byte>)
    requires i < |s| && StartsInvalid(s[i..]) && Encode(s) == done + Encode(s[i..])
    ensures Encode(s) == (done + Surrogate(s[i])) + Encode(s[i + 1..])
  {
    hide *;
    EncodeStep(s, i);
    Onward(Encode(s), done, Encode(s[i..]), Surrogate(s[i]), Encode(s[i + 1..]));
  }

  lemma SlicesJoin(s: seq<byte>, i: nat, j: nat)
    requires i <= j <= |s|
    ensures s[..i] + s[i..j] == s[..j] && s[..|s|] == s
  {
  }

  lemma EncodeStart(s: seq<byte>)
    ensures Encode(s) == s[..0] + Encode(s[0..])
  {
    hide Encode;
    assert s[0..] == s;
  }

  lemma EncodeDone(s: seq<byte>, done: seq<byte>)
    requires Encode(s) == done + Encode(s[|s|..])
    ensures Encode(s) == done
  {
    EncodeEnd();
    hide Encode;
    assert s[|s|..] == [] && done + [] == done;
  }

  method EncodeWindowsArg(s: seq<byte>) returns (r: seq<byte>)
    ensures r == Encode(s)
  {
    hide *;
    var i := 0;
    EncodeStart(s);
    while i < |s|
      invariant 0 <= i <= |s| && Encode(s) == s[..i] + Encode(s[i..])
    {
      if !StartsInvalid(s[i..]) {
        CopyStep(s, i, s[..i]);
        var size := Width(s[i..]);
        SlicesJoin(s, i, i + size);
        i := i + size;
        continue;
      }
      var buf := s[..i];
      while i < |s|
        invariant 0 <= i <= |s| && Encode(s) == buf + Encode(s[i..])
      {
        if !StartsInvalid(s[i..]) {
          CopyStep(s, i, buf);
          var size := Width(s[i..]);
          buf := buf + s[i..i + size];
          i := i + size;
          continue;
        }
        SurrogateStep(s, i, buf);
        buf := buf + Surrogate(s[i]);
        i := i + 1;
      }
      EncodeDone(s, buf);
      return buf;
    }
    SlicesJoin(s, |s|, |s|);
    EncodeDone(s, s);
    return s;
  }

  lemma EncodeEnd()
    ensures Encode([]) == [] && Decode([]) == []
  {
  }

  lemma DecodeStep(s: seq<byte>, i: nat)
    requires i < |s|
    ensures Decode(s[i..]) == if s[i] == 0xED && IsByteSurrogate(s[i..]) then [SurrogateByte(s[i..])] + Decode(s[i + 3..])
                              else [s[i]] + Decode(s[i + 1..])
    ensures IsByteSurrogate(s[i..]) ==> i + 3 <= |s|
  {
    hide SurrogateByte;
    assert s[i..][1..] == s[i + 1..] && (|s| >= i + 3 ==> s[i..][3..] == s[i + 3..]);
  }

  method DecodeWindowsArg(s: seq<byte>) returns (r: seq<byte>)
    ensures r == Decode(s)
  {
    hide Decode, IsByteSurrogate, SurrogateByte;
    var i := 0;
    EncodeEnd();
    assert s[0..] == s;
    while i < |s|
      invariant 0 <= i <= |s| && Decode(s) == s[..i] + Decode(s[i..])
    {
      DecodeStep(s, i);
      if s[i] != 0xED || !IsByteSurrogate(s[i..]) {
        Regroup(s[..i], [s[i]], Decode(s[i + 1..]));
        assert s[..i] + [s[i]] == s[..i + 1];
        i := i + 1;
        continue;
      }
      var buf := s[..i];
      while i < |s|
        invariant 0 <= i <= |s| && Decode(s) == buf + Decode(s[i..])
      {
        DecodeStep(s, i);
        if s[i] == 0xED && IsByteSurrogate(s[i..]) {
          Regroup(buf, [SurrogateByte(s[i..])], Decode(s[i + 3..]));
          buf := buf + [SurrogateByte(s[i..])];
          i := i + 3;
          continue;
        }
        Regroup(buf, [s[i]], Decode(s[i + 1..]));
        buf := buf + [s[i]];
        i := i + 1;
      }
      assert s[i..] == [] && buf + [] == buf;
      return buf;
    }
    assert s[i..] == [] && s[..i] == s && s + [] == s;
    return s;
  }

  // ---------- The round trip ----------

  /** A raw byte survives: its surrogate is recognized and stands for it. */
  lemma SurrogateRoundTrip(b: byte)
    requires b >= 0x80
    ensures IsByteSurrogate(Surrogate(b)) && SurrogateByte(Surrogate(b)) == b
  {
    var r: rune := 0xDC00 + b as rune;
    assert 0xE0 | Low(r >> 12) == 0xED;
    assert 0x80 | (Low(r >> 6) & 0x3F) == if b < 0xC0 then 0xB2 else 0xB3;
    assert 0x80 <= 0x80 | (Low(r) & 0x3F) <= 0xBF;
  }

  /** The surrogate of a byte carries the code point U+DC00 plus that byte, in the three bytes of its range. */
  lemma SurrogateIsCodePoint(b: byte)
    requires b >= 0x80
    ensures RuneOf(Surrogate(b)) == 0xDC00 + b as rune
    ensures Surrogate(b)[0] & 0xF0 == 0xE0 && Surrogate(b)[1] & 0xC0 == 0x80 && Surrogate(b)[2] & 0xC0 == 0x80
  {
    var r: rune := 0xDC00 + b as rune;
    assert Low(r >> 12) == 0x0D;
    assert Low(r >> 6) & 0x3F == (if b < 0xC0 then 0x32 else 0x33);
    assert Low(r) & 0x3F == b & 0x3F;
  }

  lemma InvalidIsHigh(s: seq<byte>)
    requires s != [] && StartsInvalid(s)
    ensures s[0] >= 0x80
  {
    if s[0] < 0x80 { AsciiDecodes(s); }
  }

  /** No byte of a valid character begins a surrogate, so decoding copies it through. */
  lemma DecodeCopiesChar(c: seq<byte>, t: seq<byte>)
    requires IsChar(c)
    ensures Decode(c + t) == c + Decode(t)
  {
    CharIsNoSurrogate(c, t);
    TailsOfChar(c);
    DecodeHead(c + t);
    hide *;
    DecodeCopiesTails(c[1..], t);
    assert (c + t)[1..] == c[1..] + t && c == [c[0]] + c[1..];
    Regroup([c[0]], c[1..], Decode(t));
  }

  lemma DecodeHead(s: seq<byte>)
    ensures s != [] && !IsByteSurrogate(s) ==> Decode(s) == [s[0]] + Decode(s[1..])
  {
    hide SurrogateByte, IsByteSurrogate;
  }

  lemma CharIsNoSurrogate(c: seq<byte>, t: seq<byte>)
    requires IsChar(c)
    ensures !IsByteSurrogate(c + t)
  {
    hide Decode, SurrogateByte;
  }

  lemma TailsOfChar(c: seq<byte>)
    requires IsChar(c)
    ensures c != [] && forall i :: 0 <= i < |c| - 1 ==> IsTail(c[1..][i])
  {
  }

  lemma {:induction false} DecodeCopiesTails(c: seq<byte>, t: seq<byte>)
    requires forall i :: 0 <= i < |c| ==> IsTail(c[i])
    ensures Decode(c + t) == c + Decode(t)
  {
    hide SurrogateByte;
    if c == [] {
      assert c + t == t;
    } else {
      var s := c + t;
      assert s[0] == c[0] && s[1..] == c[1..] + t && c == [c[0]] + c[1..];
      DecodeCopiesTails(c[1..], t);
    }
  }

  lemma DecodeSurrogate(b: byte, t: seq<byte>)
    requires b >= 0x80
    ensures Decode(Surrogate(b) + t) == [b] + Decode(t)
  {
    SurrogateRoundTrip(b);
    var c := Surrogate(b);
    hide Surrogate;
    var s := c + t;
    assert s[0] == c[0] && s[1] == c[1] && s[2] == c[2] && s[3..] == t;
  }

  /** Every byte string comes back, surrogates it already held included. */
  lemma {:induction false} EncodeDecode(s: seq<byte>)
    ensures Decode(Encode(s)) == s
  {
    hide Encode, Decode, Surrogate, DecodeRune, StartsInvalid, IsChar;
    EncodeEnd();
    if s != [] {
      EncodeStep(s, 0);
      assert s[0..] == s;
      if StartsInvalid(s) {
        InvalidIsHigh(s);
        EncodeDecode(s[1..]);
        DecodeSurrogate(s[0], Encode(s[1..]));
        assert s == [s[0]] + s[1..];
      } else {
        var n := Width(s);
        EncodeDecode(s[n..]);
        DecodesToChar(s);
        DecodeCopiesChar(s[..n], Encode(s[n..]));
        assert s == s[..n] + s[n..];
      }
    }
  }

  lemma {:induction false} EncodeGrows(s: seq<byte>)
    ensures |Encode(s)| >= |s| && (!IsUtf8(s) ==> |Encode(s)| > |s|) && (IsUtf8(s) ==> Encode(s) == s)
  {
    if s != [] {
      ValidByWidth(s);
      if StartsInvalid(s) {
        EncodeGrows(s[1..]);
      } else {
        EncodeGrows(s[Width(s)..]);
        assert s == s[..Width(s)] + s[Width(s)..];
      }
    }
  }

  /** An argument travels unchanged exactly when it is valid UTF-8. */
  lemma UnchangedIffValid(s: seq<byte>)
    ensures Encode(s) == s <==> IsUtf8(s)
  {
    EncodeGrows(s);
  }

  /** A valid argument is not misread on the way in. */
  lemma ValidIsDecodedAsIs(s: seq<byte>)
    requires IsUtf8(s)
    ensures Decode(s) == s
  {
    UnchangedIffValid(s);
    EncodeDecode(s);
  }

  // ---------- Argument lists ----------

  function EncodeEach(args: seq<seq<byte>>): (r: seq<seq<byte>>)
    ensures |r| == |args| && forall i :: 0 <= i < |args| ==> r[i] == Encode(args[i])
  {
    seq(|args|, i requires 0 <= i < |args| => Encode(args[i]))
  }

  function DecodeEach(args: seq<seq<byte>>): (r: seq<seq<byte>>)
    ensures |r| == |args| && forall i :: 0 <= i < |args| ==> r[i] == Decode(args[i])
  {
    seq(|args|, i requires 0 <= i < |args| => Decode(args[i]))
  }

  lemma OneMore(all: seq<seq<byte>>, i: nat)
    requires i < |all|
    ensures all[..i + 1] == all[..i] + [all[i]]
  {
  }

  /** Copies the list only from the first argument that changes. */
  method EncodeWindowsArgs(args: seq<seq<byte>>) returns (r: seq<seq<byte>>)
    ensures r == EncodeEach(args)
  {
    hide *;
    var out: Option<seq<seq<byte>>> := None;
    for i := 0 to |args|
      invariant (if out.Some? then out.value else args[..i]) == EncodeEach(args)[..i]
    {
      var enc := EncodeWindowsArg(args[i]);
      OneMore(args, i);
      OneMore(EncodeEach(args), i);
      if enc == args[i] {
        if out.Some? { out := Some(out.value + [args[i]]); }
        continue;
      }
      if out.None? { out := Some(args[..i]); }
      out := Some(out.value + [enc]);
    }
    assert args[..|args|] == args;
    return if out.Some? then out.value else args;
  }

  method DecodeWindowsArgs(args: seq<seq<byte>>) returns (r: seq<seq<byte>>)
    ensures r == DecodeEach(args)
  {
    hide *;
    var out: Option<seq<seq<byte>>> := None;
    for i := 0 to |args|
      invariant (if out.Some? then out.value else args[..i]) == DecodeEach(args)[..i]
    {
      var dec := DecodeWindowsArg(args[i]);
      OneMore(args, i);
      OneMore(DecodeEach(args), i);
      if dec == args[i] {
        if out.Some? { out := Some(out.value + [args[i]]); }
        continue;
      }
      if out.None? { out := Some(args[..i]); }
      out := Some(out.value + [dec]);
    }
    assert args[..|args|] == args;
    return if out.Some? then out.value else args;
  }

  lemma ListRoundTrip(args: seq<seq<byte>>)
    ensures DecodeEach(EncodeEach(args)) == args
    ensures EncodeEach(args) == args <==> forall i :: 0 <= i < |args| ==> IsUtf8(args[i])
  {
    forall i | 0 <= i < |args|
      ensures DecodeEach(EncodeEach(args))[i] == args[i] && (EncodeEach(args)[i] == args[i] <==> IsUtf8(args[i]))
    {
      EncodeDecode(args[i]);
      UnchangedIffValid(args[i]);
    }
  }
}
