/** The matchers of internal/pattern.go: the byte matcher whose question mark takes a whole rune, and
    the searches behind negated extended patterns, over whatever the compiled inner patterns accept. */
module InternalPattern {
  import opened Common
  import opened Utf8
  import opened Glob
  import BytePattern

  // ---------- The sibling matcher ----------

  function Parse(pat: seq<byte>): seq<Token> {
    if pat == [] then []
    else if pat[0] == 0x2A then [Star] + Parse(pat[1..])
    else if pat[0] == 0x3F then [AnyRune] + Parse(pat[1..])
    else if pat[0] == 0x5C then
      if |pat| == 1 then [Literal(0x5C, false)] else [Literal(pat[1], false)] + Parse(pat[2..])
    else [Literal(pat[0], false)] + Parse(pat[1..])
  }

  method BytePatternMatch(pat0: seq<byte>, name0: seq<byte>) returns (r: bool)
    ensures r <==> Globs(Parse(pat0), name0)
    decreases |pat0|
  {
    hide *;
    var pat, name := pat0, name0;
    while |pat| > 0
      invariant |pat| <= |pat0|
      invariant Globs(Parse(pat), name) <==> Globs(Parse(pat0), name0)
      decreases |pat|
    {
      ParseStep(pat);
      var p := pat[0];
      if p == 0x2A {
        while |pat| > 1 && pat[1] == 0x2A
          invariant 0 < |pat| <= |pat0| && pat[0] == 0x2A
          invariant Globs(Parse(pat), name) <==> Globs(Parse(pat0), name0)
        {
          DropStar(pat, name);
          pat := pat[1..];
        }
        ParseStep(pat);
        if |pat| == 1 {
          StarLast(pat, name);
          return true;
        }
        pat := pat[1..];
        GlobsAfterStar(Parse(pat), name);
        for i := 0 to |name| + 1
          invariant forall j :: 0 <= j < i ==> !Globs(Parse(pat), name[j..])
        {
          var rest := BytePatternMatch(pat, name[i..]);
          if rest {
            return true;
          }
        }
        return false;
      } else if p == 0x3F {
        GlobsRune(Parse(pat[1..]), name);
        if |name| == 0 {
          return false;
        }
        var size := DecodeRune(name).1;
        if size == 0 {
          size := 1;
        }
        WidthIsSize(name);
        pat := pat[1..];
        name := name[size..];
      } else {
        var next;
        if p == 0x5C {
          if |pat| == 1 {
            next := [];
          } else {
            p := pat[1];
            next := pat[2..];
          }
        } else {
          next := pat[1..];
        }
        StepLiteral(p, next, name);
        if |name| == 0 || name[0] != p {
          return false;
        }
        pat := next;
        name := name[1..];
      }
    }
    assert pat == [];
    ParseNothing();
    GlobsNothing(name);
    return |name| == 0;
  }

  lemma ParseNothing()
    ensures Parse([]) == []
  {
  }

  lemma WidthIsSize(name: seq<byte>)
    requires name != []
    ensures Width(name) == DecodeRune(name).1
  {
  }

  /** One step of the parse, with nothing deeper unfolded. */
  lemma ParseStep(pat: seq<byte>)
    requires pat != []
    ensures pat[0] == 0x2A ==> Parse(pat) == [Star] + Parse(pat[1..])
    ensures pat[0] == 0x3F ==> Parse(pat) == [AnyRune] + Parse(pat[1..])
    ensures pat == [0x5C] ==> Parse(pat) == [Literal(0x5C, false)] + Parse([])
    ensures pat[0] == 0x5C && |pat| > 1 ==> Parse(pat) == [Literal(pat[1], false)] + Parse(pat[2..])
    ensures pat[0] !in {0x2A, 0x3F, 0x5C} ==> Parse(pat) == [Literal(pat[0], false)] + Parse(pat[1..])
  {
    assert Parse([]) == [];
  }

  lemma DropStar(pat: seq<byte>, name: seq<byte>)
    requires |pat| > 1 && pat[0] == pat[1] == 0x2A
    ensures Globs(Parse(pat), name) <==> Globs(Parse(pat[1..]), name)
  {
    hide Parse, Globs;
    ParseStep(pat);
    ParseStep(pat[1..]);
    StarsCollapse(Parse(pat[1..][1..]), name);
  }

  lemma StarLast(pat: seq<byte>, name: seq<byte>)
    requires pat == [0x2A]
    ensures Globs(Parse(pat), name)
  {
    hide Globs;
    assert pat[1..] == [];
    assert Parse(pat) == [Star];
    GlobsStar(name);
  }

  lemma StepLiteral(p: byte, next: seq<byte>, name: seq<byte>)
    ensures Globs([Literal(p, false)] + Parse(next), name) <==>
            name != [] && name[0] == p && Globs(Parse(next), name[1..])
  {
    hide Parse, Globs;
    GlobsOne(Literal(p, false), Parse(next), name);
  }

  // ---------- Where the two matchers agree ----------

  /** Without brackets, on ASCII names, both matchers give the same answer. */
  lemma {:induction false} AgreeOnAscii(pat: seq<byte>, name: seq<byte>)
    requires 0x5B !in pat && forall i :: 0 <= i < |name| ==> name[i] < 0x80
    ensures Globs(Parse(pat), name) <==> Globs(BytePattern.Parse(pat, false), name)
    decreases |pat|
  {
    hide *;
    if pat == [] {
      ParseNothing();
      BytePattern.ParseNothing(false);
    } else {
      ParseStep(pat);
      BytePattern.ParseStep(pat, false);
      if pat[0] == 0x2A {
        GlobsAfterStar(Parse(pat[1..]), name);
        GlobsAfterStar(BytePattern.Parse(pat[1..], false), name);
        forall k | 0 <= k <= |name|
          ensures Globs(Parse(pat[1..]), name[k..]) <==> Globs(BytePattern.Parse(pat[1..], false), name[k..])
        {
          AgreeOnAscii(pat[1..], name[k..]);
        }
      } else if pat[0] == 0x3F {
        GlobsRune(Parse(pat[1..]), name);
        BytePattern.StepOne(AnyByte, pat, pat[1..], name, false);
        if name != [] {
          AsciiDecodes(name);
          BytePattern.AcceptsOne(name);
          AgreeOnAscii(pat[1..], name[1..]);
        }
      } else {
        var p := if pat[0] == 0x5C && |pat| > 1 then pat[1] else pat[0];
        var next := if pat[0] != 0x5C then pat[1..] else if |pat| == 1 then [] else pat[2..];
        assert pat[0] == 0x5C && |pat| == 1 ==> pat == [0x5C];
        assert pat[0] in pat;
        StepLiteral(p, next, name);
        BytePattern.StepOne(Literal(p, false), pat, next, name, false);
        if name != [] {
          LiteralIsByte(p, name);
          AgreeOnAscii(next, name[1..]);
        }
      }
    }
  }

  lemma LiteralIsByte(p: byte, name: seq<byte>)
    requires name != []
    ensures Accepts(Literal(p, false), name[..1], name[1..]) <==> name[0] == p
  {
  }

  /** Beyond ASCII they differ: a question mark takes a two-byte rune here, one byte there. */
  lemma DifferBeyondAscii()
    ensures Globs(Parse([0x3F]), [0xC3, 0xA9]) && !Globs(BytePattern.Parse([0x3F], false), [0xC3, 0xA9])
  {
    hide Globs;
    var name: seq<byte> := [0xC3, 0xA9];
    ParseStep([0x3F]);
    BytePattern.ParseStep([0x3F], false);
    assert [0x3F][1..] == [] && name[2..] == [];
    ParseNothing();
    BytePattern.ParseNothing(false);
    assert IsChar(name[..2]);
    CharDecodes(name, 2);
    GlobsRune([], name);
    GlobsOne(AnyByte, [], name);
    GlobsNothing(name[2..]);
    GlobsNothing(name[1..]);
  }

  // ---------- Repeated negation ----------

  /** Non-empty pieces that each miss the inner pattern. */
  ghost predicate Partitions(pieces: seq<seq<byte>>, name: seq<byte>, inner: seq<byte> -> bool) {
    Join(pieces) == name && forall i :: 0 <= i < |pieces| ==> pieces[i] != [] && !inner(pieces[i])
  }

  ghost predicate Partitionable(name: seq<byte>, inner: seq<byte> -> bool) {
    exists pieces :: Partitions(pieces, name, inner)
  }

  lemma PartitionNothing(inner: seq<byte> -> bool)
    ensures Partitionable([], inner)
  {
    assert Partitions([], [], inner);
  }

  lemma PartitionHead(name: seq<byte>, inner: seq<byte> -> bool)
    requires name != []
    ensures Partitionable(name, inner) <==>
            exists k :: 1 <= k <= |name| && !inner(name[..k]) && Partitionable(name[k..], inner)
  {
    if Partitionable(name, inner) {
      var pieces :| Partitions(pieces, name, inner);
      if pieces != [] {
        var p, ps := pieces[0], pieces[1..];
        assert name[..|p|] == p && name[|p|..] == Join(ps);
        assert Partitions(ps, Join(ps), inner);
      }
    }
    if k :| 1 <= k <= |name| && !inner(name[..k]) && Partitionable(name[k..], inner) {
      var ps :| Partitions(ps, name[k..], inner);
      var pieces := [name[..k]] + ps;
      JoinCons(name[..k], ps);
      assert forall i :: 0 <= i < |ps| ==> pieces[i + 1] == ps[i];
      assert forall i :: 0 < i < |pieces| ==> pieces[i] == ps[i - 1];
      assert Partitions(pieces, name, inner);
    }
  }

  method CanPartition(name: seq<byte>, inner: seq<byte> -> bool) returns (r: bool)
    ensures r <==> Partitionable(name, inner)
    decreases |name|
  {
    hide *;
    if |name| == 0 {
      assert name == [];
      PartitionNothing(inner);
      return true;
    }
    PartitionHead(name, inner);
    for split := 1 to |name| + 1
      invariant forall k :: 1 <= k < split ==> inner(name[..k]) || !Partitionable(name[k..], inner)
    {
      var piece := name[..split];
      if inner(piece) {
        continue;
      }
      var rest := CanPartition(name[split..], inner);
      if rest {
        return true;
      }
    }
    return false;
  }

  /** The matcher of a negation repeated any number of times, or at least once. */
  method RepeatedNegationMatch(name: seq<byte>, inner: seq<byte> -> bool, atLeastOnce: bool) returns (r: bool)
    ensures r <==> exists pieces :: Partitions(pieces, name, inner) && (atLeastOnce ==> pieces != [])
  {
    if !atLeastOnce && |name| == 0 {
      assert Partitions([], name, inner);
      return true;
    }
    if |name| == 0 {
      NothingInNoPieces(inner);
      return false;
    }
    r := CanPartition(name, inner);
    if r {
      ghost var pieces :| Partitions(pieces, name, inner);
      assert pieces != [];
    }
  }

  lemma NothingInNoPieces(inner: seq<byte> -> bool)
    ensures forall pieces :: Partitions(pieces, [], inner) ==> pieces == []
  {
  }

  // ---------- Negations in sequence ----------

  /** What one group asks: text before it, and a span its inner pattern misses. */
  datatype Segment = Segment(prefix: seq<byte> -> bool, inner: seq<byte> -> bool, rejectLeadingDot: bool)

  datatype Part = Part(before: seq<byte>, span: seq<byte>)

  predicate Suits(seg: Segment, part: Part) {
    seg.prefix(part.before) && !seg.inner(part.span) &&
    !(seg.rejectLeadingDot && part.span != [] && part.span[0] == 0x2E)
  }

  function Assembled(parts: seq<Part>, tail: seq<byte>): seq<byte> {
    if parts == [] then tail else parts[0].before + parts[0].span + Assembled(parts[1..], tail)
  }

  /** The name can be cut into a suiting part for each segment and a tail the suffix accepts. */
  ghost predicate Divides(segs: seq<Segment>, suffix: seq<byte> -> bool, name: seq<byte>) {
    exists parts, tail :: DividesInto(segs, suffix, name, parts, tail)
  }

  ghost predicate DividesInto(segs: seq<Segment>, suffix: seq<byte> -> bool, name: seq<byte>,
                              parts: seq<Part>, tail: seq<byte>) {
    |parts| == |segs| && Assembled(parts, tail) == name && suffix(tail) &&
    forall i :: 0 <= i < |segs| ==> Suits(segs[i], parts[i])
  }

  ghost predicate CutsSegment(segs: seq<Segment>, suffix: seq<byte> -> bool, name: seq<byte>, j: int, k: int)
    requires segs != []
  {
    0 <= j <= k <= |name| && Suits(segs[0], Part(name[..j], name[j..k])) && Divides(segs[1..], suffix, name[k..])
  }

  lemma DividesHead(segs: seq<Segment>, suffix: seq<byte> -> bool, name: seq<byte>)
    requires segs != []
    ensures Divides(segs, suffix, name) <==> exists j, k :: CutsSegment(segs, suffix, name, j, k)
  {
    hide Suits;
    if Divides(segs, suffix, name) {
      var parts: seq<Part>, tail :| DividesInto(segs, suffix, name, parts, tail);
      var j := |parts[0].before|;
      var k := j + |parts[0].span|;
      assert name[..j] == parts[0].before && name[j..k] == parts[0].span;
      assert name[k..] == Assembled(parts[1..], tail);
      assert DividesInto(segs[1..], suffix, name[k..], parts[1..], tail);
      assert parts[0] == Part(name[..j], name[j..k]);
      assert CutsSegment(segs, suffix, name, j, k);
    }
    if j, k :| CutsSegment(segs, suffix, name, j, k) {
      var rest: seq<Part>, tail :| DividesInto(segs[1..], suffix, name[k..], rest, tail);
      var parts := [Part(name[..j], name[j..k])] + rest;
      assert parts[1..] == rest;
      assert name == name[..j] + name[j..k] + name[k..];
      assert forall i :: 0 < i < |segs| ==> segs[i] == segs[1..][i - 1] && parts[i] == rest[i - 1];
      assert DividesInto(segs, suffix, name, parts, tail);
    }
  }

  lemma DividesNothing(suffix: seq<byte> -> bool, name: seq<byte>)
    ensures Divides([], suffix, name) <==> suffix(name)
  {
    if suffix(name) {
      assert DividesInto([], suffix, name, [], name);
    }
  }

  /** The matcher of negations in sequence: it tries every prefix and every span. */
  method NegatedMatch(segs: seq<Segment>, suffix: seq<byte> -> bool, name: seq<byte>) returns (r: bool)
    ensures r <==> Divides(segs, suffix, name)
    decreases |segs|
  {
    hide Divides, Assembled;
    if |segs| == 0 {
      assert segs == [];
      DividesNothing(suffix, name);
      return suffix(name);
    }
    DividesHead(segs, suffix, name);
    var seg := segs[0];
    for prefixEnd := 0 to |name| + 1
      invariant forall j, k :: j < prefixEnd ==> !CutsSegment(segs, suffix, name, j, k)
    {
      if !seg.prefix(name[..prefixEnd]) {
        continue;
      }
      var rest := name[prefixEnd..];
      for split := 0 to |rest| + 1
        invariant forall k :: k < prefixEnd + split ==> !CutsSegment(segs, suffix, name, prefixEnd, k)
      {
        var negPart := rest[..split];
        assert negPart == name[prefixEnd..prefixEnd + split] && rest[split..] == name[prefixEnd + split..];
        if seg.rejectLeadingDot && |negPart| > 0 && negPart[0] == 0x2E {
          continue;
        }
        if seg.inner(negPart) {
          continue;
        }
        var after := NegatedMatch(segs[1..], suffix, rest[split..]);
        if after {
          assert CutsSegment(segs, suffix, name, prefixEnd, prefixEnd + split);
          return true;
        }
      }
    }
    return false;
  }
}
