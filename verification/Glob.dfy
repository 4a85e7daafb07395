/** What a shell wildcard pattern means, apart from any way of matching it: a name matches a list of
    tokens when it can be cut into one piece for each token. */
module Glob {
  import opened Common
  import opened Utf8

  /** A member of a bracket expression. */
  datatype Item = Byte(b: byte) | Range(lo: byte, hi: byte) | Named(class_: seq<byte>)

  datatype Token =
    | Star
    | AnyByte
    | AnyRune
    | Literal(b: byte, nocase: bool)
    | Bracket(items: seq<Item>, negated: bool, nocase: bool)
    | Never

  function Fold(b: byte, nocase: bool): byte {
    if nocase && 0x41 <= b <= 0x5A then b + 0x20 else b
  }

  const ALNUM: seq<byte> := [0x61, 0x6C, 0x6E, 0x75, 0x6D]
  const ALPHA: seq<byte> := [0x61, 0x6C, 0x70, 0x68, 0x61]
  const DIGIT: seq<byte> := [0x64, 0x69, 0x67, 0x69, 0x74]
  const LOWER: seq<byte> := [0x6C, 0x6F, 0x77, 0x65, 0x72]
  const UPPER: seq<byte> := [0x75, 0x70, 0x70, 0x65, 0x72]
  const XDIGIT: seq<byte> := [0x78, 0x64, 0x69, 0x67, 0x69, 0x74]
  const BLANK: seq<byte> := [0x62, 0x6C, 0x61, 0x6E, 0x6B]
  const SPACE: seq<byte> := [0x73, 0x70, 0x61, 0x63, 0x65]
  const PUNCT: seq<byte> := [0x70, 0x75, 0x6E, 0x63, 0x74]
  const CNTRL: seq<byte> := [0x63, 0x6E, 0x74, 0x72, 0x6C]
  const GRAPH: seq<byte> := [0x67, 0x72, 0x61, 0x70, 0x68]
  const PRINT: seq<byte> := [0x70, 0x72, 0x69, 0x6E, 0x74]

  predicate IsDigit(b: byte) { 0x30 <= b <= 0x39 }
  predicate IsLower(b: byte) { 0x61 <= b <= 0x7A }
  predicate IsUpper(b: byte) { 0x41 <= b <= 0x5A }

  /** byteClassMatch: the ASCII character classes; an unknown name holds nothing. */
  predicate ClassHas(class_: seq<byte>, b: byte) {
    if class_ == ALNUM then IsDigit(b) || IsLower(b) || IsUpper(b)
    else if class_ == ALPHA then IsLower(b) || IsUpper(b)
    else if class_ == DIGIT then IsDigit(b)
    else if class_ == LOWER then IsLower(b)
    else if class_ == UPPER then IsUpper(b)
    else if class_ == XDIGIT then IsDigit(b) || 0x61 <= b <= 0x66 || 0x41 <= b <= 0x46
    else if class_ == BLANK then b == 0x20 || b == 0x09
    else if class_ == SPACE then b == 0x20 || 0x09 <= b <= 0x0D
    else if class_ == PUNCT then 0x21 <= b <= 0x2F || 0x3A <= b <= 0x40 || 0x5B <= b <= 0x60 || 0x7B <= b <= 0x7E
    else if class_ == CNTRL then b < 0x20 || b == 0x7F
    else if class_ == GRAPH then 0x21 <= b <= 0x7E
    else if class_ == PRINT then 0x20 <= b <= 0x7E
    else false
  }

  predicate ItemHas(item: Item, b: byte, nocase: bool) {
    match item
    case Byte(c) => Fold(b, nocase) == Fold(c, nocase)
    case Range(lo, hi) => Fold(lo, nocase) <= Fold(b, nocase) <= Fold(hi, nocase)
    case Named(class_) => ClassHas(class_, Fold(b, nocase))
  }

  predicate AnyHas(items: seq<Item>, b: byte, nocase: bool) {
    exists i :: 0 <= i < |items| && ItemHas(items[i], b, nocase)
  }

  /** Whether a token stands for this piece of a name, given what follows it. */
  predicate Accepts(t: Token, piece: seq<byte>, after: seq<byte>) {
    match t
    case Star => true
    case AnyByte => |piece| == 1
    case AnyRune => piece != [] && |piece| == Width(piece + after)
    case Literal(b, nocase) => |piece| == 1 && Fold(piece[0], nocase) == Fold(b, nocase)
    case Bracket(items, negated, nocase) => |piece| == 1 && AnyHas(items, piece[0], nocase) != negated
    case Never => false
  }

  function Join(pieces: seq<seq<byte>>): seq<byte> {
    if pieces == [] then [] else pieces[0] + Join(pieces[1..])
  }

  predicate FitsAt(tokens: seq<Token>, pieces: seq<seq<byte>>, i: int) {
    0 <= i < |tokens| && i < |pieces| && Accepts(tokens[i], pieces[i], Join(pieces[i + 1..]))
  }

  ghost predicate Fits(tokens: seq<Token>, pieces: seq<seq<byte>>) {
    |tokens| == |pieces| && forall i :: 0 <= i < |tokens| ==> FitsAt(tokens, pieces, i)
  }

  ghost predicate Globs(tokens: seq<Token>, name: seq<byte>) {
    exists pieces :: Fits(tokens, pieces) && Join(pieces) == name
  }

  // ---------- One token at a time ----------

  lemma FitsShift(t: Token, ts: seq<Token>, p: seq<byte>, ps: seq<seq<byte>>, i: nat)
    requires i < |ts| == |ps|
    ensures FitsAt([t] + ts, [p] + ps, i + 1) <==> FitsAt(ts, ps, i)
  {
    hide Accepts, Join;
    assert ([p] + ps)[i + 1 + 1..] == ps[i + 1..];
  }

  lemma FitsCons(t: Token, ts: seq<Token>, p: seq<byte>, ps: seq<seq<byte>>)
    ensures Fits([t] + ts, [p] + ps) <==> Accepts(t, p, Join(ps)) && Fits(ts, ps)
  {
    hide Accepts, Join, FitsAt;
    var tokens, pieces := [t] + ts, [p] + ps;
    if |ts| == |ps| {
      FitsFirst(t, ts, p, ps);
      if Fits(tokens, pieces) {
        forall i | 0 <= i < |ts| ensures FitsAt(ts, ps, i) {
          FitsShift(t, ts, p, ps, i);
          assert FitsAt(tokens, pieces, i + 1);
        }
      }
      if FitsAt(tokens, pieces, 0) && Fits(ts, ps) {
        forall i | 0 <= i < |tokens| ensures FitsAt(tokens, pieces, i) {
          if i > 0 {
            FitsShift(t, ts, p, ps, i - 1);
          }
        }
      }
    }
  }

  lemma FitsFirst(t: Token, ts: seq<Token>, p: seq<byte>, ps: seq<seq<byte>>)
    ensures FitsAt([t] + ts, [p] + ps, 0) <==> Accepts(t, p, Join(ps))
  {
    hide Accepts, Join;
    assert ([p] + ps)[0 + 1..] == ps;
  }

  lemma JoinCons(p: seq<byte>, ps: seq<seq<byte>>)
    ensures Join([p] + ps) == p + Join(ps)
  {
    assert ([p] + ps)[1..] == ps;
  }

  /** The first token takes a prefix, and the others match the rest. */
  ghost predicate CutsAt(t: Token, ts: seq<Token>, name: seq<byte>, k: int) {
    0 <= k <= |name| && Accepts(t, name[..k], name[k..]) && Globs(ts, name[k..])
  }

  lemma GlobsHead(t: Token, ts: seq<Token>, name: seq<byte>)
    ensures Globs([t] + ts, name) <==> exists k :: CutsAt(t, ts, name, k)
  {
    hide Accepts, Join, Fits;
    if Globs([t] + ts, name) {
      var pieces :| Fits([t] + ts, pieces) && Join(pieces) == name;
      FitsNonEmpty(t, ts, pieces);
      var p, ps := pieces[0], pieces[1..];
      assert pieces == [p] + ps;
      FitsCons(t, ts, p, ps);
      JoinCons(p, ps);
      assert name[..|p|] == p && name[|p|..] == Join(ps);
      assert CutsAt(t, ts, name, |p|);
    }
    if k :| CutsAt(t, ts, name, k) {
      var ps :| Fits(ts, ps) && Join(ps) == name[k..];
      FitsCons(t, ts, name[..k], ps);
      JoinCons(name[..k], ps);
      assert name == name[..k] + name[k..];
      assert Fits([t] + ts, [name[..k]] + ps);
    }
  }

  lemma FitsNonEmpty(t: Token, ts: seq<Token>, pieces: seq<seq<byte>>)
    requires Fits([t] + ts, pieces)
    ensures |pieces| == 1 + |ts|
  {
  }

  lemma GlobsNothing(name: seq<byte>)
    ensures Globs([], name) <==> name == []
  {
    assert Fits([], []);
    if Globs([], name) {
      var pieces :| Fits([], pieces) && Join(pieces) == name;
    }
  }

  /** A star alone matches everything. */
  lemma GlobsStar(name: seq<byte>)
    ensures Globs([Star], name)
  {
    GlobsHead(Star, [], name);
    GlobsNothing(name[|name|..]);
    assert [Star] + [] == [Star];
    assert CutsAt(Star, [], name, |name|);
  }

  /** A star before other tokens skips any number of bytes. */
  lemma GlobsAfterStar(ts: seq<Token>, name: seq<byte>)
    ensures Globs([Star] + ts, name) <==> exists k :: 0 <= k <= |name| && Globs(ts, name[k..])
  {
    hide Globs;
    GlobsHead(Star, ts, name);
    if k :| 0 <= k <= |name| && Globs(ts, name[k..]) {
      assert CutsAt(Star, ts, name, k);
    }
  }

  /** A run of stars means one star. */
  lemma StarsCollapse(ts: seq<Token>, name: seq<byte>)
    ensures Globs([Star] + ([Star] + ts), name) <==> Globs([Star] + ts, name)
  {
    hide Globs;
    GlobsAfterStar([Star] + ts, name);
    GlobsAfterStar(ts, name);
    if k :| 0 <= k <= |name| && Globs([Star] + ts, name[k..]) {
      GlobsAfterStar(ts, name[k..]);
      var j :| 0 <= j <= |name[k..]| && Globs(ts, name[k..][j..]);
      assert name[k..][j..] == name[k + j..];
    }
    if Globs([Star] + ts, name) {
      assert name[0..] == name;
      assert Globs([Star] + ts, name[0..]);
    }
  }

  predicate TakesOne(t: Token) { t.AnyByte? || t.Literal? || t.Bracket? }

  /** A token for one byte takes the first byte. */
  lemma GlobsOne(t: Token, ts: seq<Token>, name: seq<byte>)
    requires TakesOne(t)
    ensures Globs([t] + ts, name) <==> name != [] && Accepts(t, name[..1], name[1..]) && Globs(ts, name[1..])
  {
    hide Globs;
    GlobsHead(t, ts, name);
    if k :| CutsAt(t, ts, name, k) {
      assert k == 1;
    }
    if name != [] && Accepts(t, name[..1], name[1..]) && Globs(ts, name[1..]) {
      assert CutsAt(t, ts, name, 1);
    }
  }

  /** A token for one rune takes what the decoder takes. */
  lemma GlobsRune(ts: seq<Token>, name: seq<byte>)
    ensures Globs([AnyRune] + ts, name) <==> name != [] && Globs(ts, name[Width(name)..])
  {
    hide Globs;
    GlobsHead(AnyRune, ts, name);
    if k :| CutsAt(AnyRune, ts, name, k) {
      assert name[..k] + name[k..] == name;
    }
    if name != [] && Globs(ts, name[Width(name)..]) {
      var k := Width(name);
      assert name[..k] + name[k..] == name;
      assert CutsAt(AnyRune, ts, name, k);
    }
  }

  /** What the rune token stands for, by RFC 3629: one character, or one byte that starts none. */
  lemma RuneMeansChar(piece: seq<byte>, after: seq<byte>)
    ensures Accepts(AnyRune, piece, after) <==> IsChar(piece) || (|piece| == 1 && StartsInvalid(piece + after))
  {
    hide DecodeRune, IsChar;
    var s := piece + after;
    if piece != [] {
      if StartsInvalid(s) {
        if IsChar(piece) {
          DecodeInContext(piece, after);
        }
      } else {
        DecodesToChar(s);
        assert |piece| == Width(s) ==> s[..Width(s)] == piece;
        if IsChar(piece) {
          DecodeInContext(piece, after);
        }
      }
    } else {
      NoEmptyChar();
    }
  }

  lemma NoEmptyChar()
    ensures !IsChar([])
  {
  }
}
