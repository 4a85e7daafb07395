/** What patterns match, told from their text (expand/param.go): ordinary bytes, quoted bytes, the two
    wildcards, and bracket expressions. */
module PatternText {
  import opened BytePattern
  import opened Common
  import opened Glob
  import opened Utf8

  /** The same bytes, up to case if case is ignored. */
  predicate Alike(a: seq<byte>, b: seq<byte>, nocase: bool) {
    |a| == |b| && forall k :: 0 <= k < |a| ==> Fold(a[k], nocase) == Fold(b[k], nocase)
  }

  /** Letters with and without case: what it means to ignore case. */
  lemma FoldMeans(a: byte, b: byte)
    ensures Fold(a, false) == a
    ensures Fold(a, true) == Fold(b, true) <==>
            a == b || (0x41 <= a <= 0x5A && b == a + 0x20) || (0x41 <= b <= 0x5A && a == b + 0x20)
  {
  }

  // ---------- One piece at a time ----------

  /** A byte that stands for itself. */
  predicate IsOrdinary(c: byte) { c != 0x2A && c != 0x3F && c != 0x5B && c != 0x5C }

  lemma ParsePiece(rest: seq<byte>, c: byte, nocase: bool)
    ensures IsOrdinary(c) ==> Parse([c] + rest, nocase) == [Literal(c, nocase)] + Parse(rest, nocase)
    ensures Parse([0x5C, c] + rest, nocase) == [Literal(c, nocase)] + Parse(rest, nocase)
    ensures Parse([0x2A] + rest, nocase) == [Star] + Parse(rest, nocase)
    ensures Parse([0x3F] + rest, nocase) == [AnyByte] + Parse(rest, nocase)
    ensures Parse([], nocase) == []
  {
    hide BracketAt;
    assert ([c] + rest)[1..] == rest && ([0x5C, c] + rest)[2..] == rest;
    assert ([0x2A] + rest)[1..] == rest && ([0x3F] + rest)[1..] == rest;
  }

  lemma GlobsLiteral(c: byte, nocase: bool, ts: seq<Token>, name: seq<byte>)
    ensures Globs([Literal(c, nocase)] + ts, name) <==>
            name != [] && Fold(name[0], nocase) == Fold(c, nocase) && Globs(ts, name[1..])
  {
    hide Globs, Fold;
    GlobsOne(Literal(c, nocase), ts, name);
  }

  /** Each byte with a backslash before it. */
  function Backslashed(t: seq<byte>): seq<byte> { if t == [] then [] else [0x5C, t[0]] + Backslashed(t[1..]) }

  lemma AlikeFirst(t: seq<byte>, name: seq<byte>, nocase: bool)
    requires t != []
    ensures Alike(t, name, nocase) <==>
            name != [] && Fold(name[0], nocase) == Fold(t[0], nocase) && Alike(t[1..], name[1..], nocase)
  {
    hide Fold;
    if name != [] { assert t == [t[0]] + t[1..] && name == [name[0]] + name[1..]; }
  }

  /** A pattern of ordinary bytes matches itself alone. */
  lemma {:induction false} OrdinaryMatches(t: seq<byte>, name: seq<byte>, nocase: bool)
    requires forall k :: 0 <= k < |t| ==> IsOrdinary(t[k])
    ensures Globs(Parse(t, nocase), name) <==> Alike(t, name, nocase)
  {
    hide Parse, Globs, Fold, Alike;
    if t == [] {
      ParsePiece([], 0, nocase);
      GlobsNothing(name);
      AlikeNothing(name, nocase);
    } else {
      assert t == [t[0]] + t[1..];
      ParsePiece(t[1..], t[0], nocase);
      GlobsLiteral(t[0], nocase, Parse(t[1..], nocase), name);
      AlikeFirst(t, name, nocase);
      if name != [] { OrdinaryMatches(t[1..], name[1..], nocase); }
    }
  }

  lemma AlikeNothing(name: seq<byte>, nocase: bool)
    ensures Alike([], name, nocase) <==> name == []
  {
  }

  /** A backslash takes the meaning from any byte: quoted text matches itself alone. */
  lemma {:induction false} BackslashedMatches(t: seq<byte>, name: seq<byte>, nocase: bool)
    ensures Globs(Parse(Backslashed(t), nocase), name) <==> Alike(t, name, nocase)
  {
    hide Parse, Globs, Fold, Alike;
    if t == [] {
      ParsePiece([], 0, nocase);
      GlobsNothing(name);
      AlikeNothing(name, nocase);
    } else {
      ParsePiece(Backslashed(t[1..]), t[0], nocase);
      GlobsLiteral(t[0], nocase, Parse(Backslashed(t[1..]), nocase), name);
      AlikeFirst(t, name, nocase);
      if name != [] { BackslashedMatches(t[1..], name[1..], nocase); }
    }
  }

  /** Wildcards in front of any pattern: a question mark takes one byte, a star any number. */
  lemma WildcardsMatch(rest: seq<byte>, name: seq<byte>, nocase: bool)
    ensures Globs(Parse([0x3F] + rest, nocase), name) <==> name != [] && Globs(Parse(rest, nocase), name[1..])
    ensures Globs(Parse([0x2A] + rest, nocase), name) <==>
            exists k :: 0 <= k <= |name| && Globs(Parse(rest, nocase), name[k..])
  {
    ParsePiece(rest, 0, nocase);
    hide Parse, Globs;
    GlobsOne(AnyByte, Parse(rest, nocase), name);
    GlobsAfterStar(Parse(rest, nocase), name);
  }

  // ---------- Bracket expressions ----------

  /** A closed bracket expression in front of a pattern takes one byte: one it has, or has not if negated. */
  lemma BracketMatches(pat: seq<byte>, name: seq<byte>, nocase: bool)
    requires pat != [] && pat[0] == 0x5B
    ensures BracketAt(pat).None? ==> !Globs(Parse(pat, nocase), name)
    ensures BracketAt(pat).Some? ==>
              var m := BracketAt(pat).value;
              Globs(Parse(pat, nocase), name) <==>
              name != [] && AnyHas(m.items, name[0], nocase) != Negates(pat) && Globs(Parse(pat[m.end..], nocase), name[1..])
  {
    ParseBracket(pat, nocase);
    hide Parse, Globs, BracketAt, AnyHas;
    match BracketAt(pat)
    case None =>
      assert [Never] + [] == [Never];
      GlobsHead(Never, [], name);
    case Some(m) => GlobsOne(Bracket(m.items, Negates(pat), nocase), Parse(pat[m.end..], nocase), name);
  }

  lemma ParseBracket(pat: seq<byte>, nocase: bool)
    requires pat != [] && pat[0] == 0x5B
    ensures Parse(pat, nocase) ==
            match BracketAt(pat)
            case None => [Never]
            case Some(m) => [Bracket(m.items, Negates(pat), nocase)] + Parse(pat[m.end..], nocase)
  {
    hide BracketAt;
  }

  /** What a member list looks like when its text is moved one place to the right. */
  predicate Moved(a: Option<Members>, b: Option<Members>) {
    (a.None? <==> b.None?) && (a.Some? ==> b.value.items == a.value.items && b.value.end == a.value.end + 1)
  }

  lemma {:induction false} ClassEndMoved(p: seq<byte>, q: seq<byte>, j: nat)
    requires Shifted(p, q) && j > 0
    ensures ClassEnd(q, j + 1) == if ClassEnd(p, j).Some? then Some(ClassEnd(p, j).value + 1) else None
    decreases |p| - j
  {
    if j + 1 < |p| { ClassEndMoved(p, q, j + 1); }
  }

  /** What the scan of the members finds at a place: their end, the closing after two quoted brackets, or one
      member and where the next begins. */
  datatype Found = Unclosed | Closed(end: nat) | ClosedByTwo(end: nat) | Member(item: Item, next: nat)

  function FoundAt(pat: seq<byte>, i: nat, first: bool): (r: Found)
    ensures r.Member? ==> i < r.next
  {
    if i >= |pat| then Unclosed
    else if pat[i] == 0x5D && !first then Closed(i + 1)
    else
      var k := Unquoted(pat, i);
      if QuotedBrackets(pat, i) then ClosedByTwo(k + 3)
      else if StartsClass(pat, k) then
        Member(Named(pat[k + 2..ClassEnd(pat, k + 2).value]), ClassEnd(pat, k + 2).value + 2)
      else if StartsRange(pat, k) then Member(Range(pat[k], pat[RangeEnd(pat, k)]), RangeEnd(pat, k) + 1)
      else Member(Byte(pat[k]), k + 1)
  }

  lemma MembersByFound(pat: seq<byte>, i: nat, first: bool)
    ensures MembersFrom(pat, i, first) ==
            match FoundAt(pat, i, first)
            case Unclosed => None
            case Closed(end) => Some(Members([], end))
            case ClosedByTwo(end) => Some(Members([Byte(0x5B), Byte(0x5D)], end))
            case Member(item, next) => With(item, MembersFrom(pat, next, false))
  {
    hide ClassEnd;
  }

  /** The text of q is that of p, one place to the right. */
  predicate Shifted(p: seq<byte>, q: seq<byte>) {
    |q| == |p| + 1 && forall k :: 0 < k < |p| ==> q[k + 1] == p[k]
  }

  lemma ClassMoved(p: seq<byte>, q: seq<byte>, k: nat)
    requires Shifted(p, q) && 0 < k < |p|
    ensures StartsClass(q, k + 1) <==> StartsClass(p, k)
    ensures StartsClass(p, k) ==>
              var j := ClassEnd(p, k + 2).value;
              ClassEnd(q, k + 3) == Some(j + 1) && q[k + 3..j + 1] == p[k + 2..j]
  {
    hide ClassEnd;
    ClassEndMoved(p, q, k + 2);
  }

  lemma RangeMoved(p: seq<byte>, q: seq<byte>, k: nat)
    requires Shifted(p, q) && 0 < k < |p|
    ensures StartsRange(q, k + 1) <==> StartsRange(p, k)
    ensures StartsRange(p, k) ==> RangeEnd(q, k + 1) == RangeEnd(p, k) + 1 && q[RangeEnd(p, k) + 1] == p[RangeEnd(p, k)]
  {
  }

  lemma UnquotedMoved(p: seq<byte>, q: seq<byte>, i: nat)
    requires Shifted(p, q) && 0 < i < |p|
    ensures Unquoted(q, i + 1) == Unquoted(p, i) + 1 && q[Unquoted(p, i) + 1] == p[Unquoted(p, i)]
    ensures QuotedBrackets(q, i + 1) <==> QuotedBrackets(p, i)
  {
  }

  lemma FoundMoved(p: seq<byte>, q: seq<byte>, i: nat, first: bool)
    requires Shifted(p, q) && i > 0
    ensures FoundAt(q, i + 1, first) ==
            match FoundAt(p, i, first)
            case Unclosed => Unclosed
            case Closed(end) => Closed(end + 1)
            case ClosedByTwo(end) => ClosedByTwo(end + 1)
            case Member(item, next) => Member(item, next + 1)
  {
    hide ClassEnd, QuotedBrackets, StartsClass, StartsRange, Unquoted, RangeEnd;
    if i < |p| {
      UnquotedMoved(p, q, i);
      ClassMoved(p, q, Unquoted(p, i));
      RangeMoved(p, q, Unquoted(p, i));
    }
  }

  lemma {:induction false} MembersMoved(p: seq<byte>, q: seq<byte>, i: nat, first: bool)
    requires Shifted(p, q) && i > 0
    ensures Moved(MembersFrom(p, i, first), MembersFrom(q, i + 1, first))
    decreases |p| - i
  {
    hide MembersFrom, FoundAt, Shifted;
    FoundMoved(p, q, i, first);
    MembersByFound(p, i, first);
    MembersByFound(q, i + 1, first);
    if FoundAt(p, i, first).Member? {
      FoundInside(p, i, first);
      MembersMoved(p, q, FoundAt(p, i, first).next, false);
    }
  }

  lemma FoundInside(p: seq<byte>, i: nat, first: bool)
    ensures FoundAt(p, i, first).Member? ==> i < |p|
  {
  }

  /** An exclamation mark or a caret right after the bracket turns its meaning round, byte for byte, and changes
      nothing else: what follows goes on in both, and an unclosed one matches nothing in both. */
  lemma NegationComplements(mark: byte, body: seq<byte>, b: byte, nocase: bool)
    requires (mark == 0x21 || mark == 0x5E) && body != [] && body[0] != 0x21 && body[0] != 0x5E
    ensures var p, q := [0x5B] + body, [0x5B, mark] + body;
            && Negates(q) && !Negates(p)
            && (BracketAt(p).None? <==> BracketAt(q).None?)
            && (BracketAt(p).Some? ==>
                  BracketAt(q).value.items == BracketAt(p).value.items &&
                  q[BracketAt(q).value.end..] == p[BracketAt(p).value.end..])
  {
    var p, q := [0x5B] + body, [0x5B, mark] + body;
    assert Shifted(p, q) by { assert forall k :: 0 < k < |p| ==> q[k + 1] == body[k - 1] == p[k]; }
    hide MembersFrom;
    MembersMoved(p, q, 1, true);
    if |body| == 1 { OneByteUnclosed(p); }
  }

  lemma OneByteUnclosed(p: seq<byte>)
    requires |p| == 2
    ensures MembersFrom(p, 1, true) == None
  {
  }

  /** Of a bracket expression and its negation exactly one takes a byte, whichever byte it is, before what follows
      both. */
  lemma NegationTakesOthers(mark: byte, body: seq<byte>, name: seq<byte>, nocase: bool)
    requires (mark == 0x21 || mark == 0x5E) && body != [] && body[0] != 0x21 && body[0] != 0x5E
    requires BracketAt([0x5B] + body).Some?
    ensures var p, q := [0x5B] + body, [0x5B, mark] + body;
            var rest := p[BracketAt(p).value.end..];
            && (Globs(Parse(p, nocase), name) || Globs(Parse(q, nocase), name) <==>
                name != [] && Globs(Parse(rest, nocase), name[1..]))
            && !(Globs(Parse(p, nocase), name) && Globs(Parse(q, nocase), name))
  {
    var p, q := [0x5B] + body, [0x5B, mark] + body;
    hide Parse, Globs, BracketAt, AnyHas, Negates;
    NegationComplements(mark, body, 0, nocase);
    BracketMatches(p, name, nocase);
    BracketMatches(q, name, nocase);
  }

  // ---------- Members by their text ----------

  /** A byte that is a member by itself wherever it stands. */
  predicate IsPlainMember(c: byte) { c != 0x5B && c != 0x5C && c != 0x5D && c != 0x2D }

  function Each(bytes: seq<byte>): (r: seq<Item>)
    ensures |r| == |bytes| && forall k :: 0 <= k < |r| ==> r[k] == Byte(bytes[k])
  {
    seq(|bytes|, k requires 0 <= k < |bytes| => Byte(bytes[k]))
  }

  lemma ClosedHere(pat: seq<byte>, i: nat)
    requires i < |pat| && pat[i] == 0x5D
    ensures FoundAt(pat, i, false) == Closed(i + 1)
  {
  }

  lemma PlainFound(pat: seq<byte>, i: nat, first: bool)
    requires i + 1 < |pat| && IsPlainMember(pat[i]) && pat[i + 1] != 0x2D
    ensures FoundAt(pat, i, first) == Member(Byte(pat[i]), i + 1)
  {
  }

  lemma SetShrinks(pat: seq<byte>, i: nat, bytes: seq<byte>)
    requires bytes != [] && i + |bytes| < |pat| && pat[i..i + |bytes|] == bytes && pat[i + |bytes|] == 0x5D
    requires forall k :: 0 <= k < |bytes| ==> IsPlainMember(bytes[k])
    ensures pat[i] == bytes[0] && pat[i + 1..i + 1 + |bytes[1..]|] == bytes[1..] && pat[i + 1] != 0x2D
    ensures Each(bytes) == [Byte(bytes[0])] + Each(bytes[1..])
  {
    assert |bytes| > 1 ==> pat[i + 1] == pat[i..i + |bytes|][1] == bytes[1];
  }

  lemma {:induction false} MembersOfSet(pat: seq<byte>, i: nat, bytes: seq<byte>, first: bool)
    requires i + |bytes| < |pat| && pat[i..i + |bytes|] == bytes && pat[i + |bytes|] == 0x5D
    requires (forall k :: 0 <= k < |bytes| ==> IsPlainMember(bytes[k])) && (bytes == [] ==> !first)
    ensures MembersFrom(pat, i, first) == Some(Members(Each(bytes), i + |bytes| + 1))
    decreases |bytes|
  {
    MembersByFound(pat, i, first);
    hide MembersFrom, ClassEnd, FoundAt, IsPlainMember;
    if bytes == [] {
      ClosedHere(pat, i);
      assert Each(bytes) == [];
    } else {
      var rest := bytes[1..];
      SetShrinks(pat, i, bytes);
      PlainFound(pat, i, first);
      MembersOfSet(pat, i + 1, rest, false);
    }
  }

  /** A list of bytes in brackets takes each of them, and nothing else. */
  lemma SetMatches(bytes: seq<byte>, rest: seq<byte>, name: seq<byte>, nocase: bool)
    requires bytes != [] && bytes[0] != 0x21 && bytes[0] != 0x5E && forall k :: 0 <= k < |bytes| ==> IsPlainMember(bytes[k])
    ensures Globs(Parse([0x5B] + bytes + [0x5D] + rest, nocase), name) <==>
            name != [] && (exists k :: 0 <= k < |bytes| && Fold(bytes[k], nocase) == Fold(name[0], nocase)) &&
            Globs(Parse(rest, nocase), name[1..])
  {
    var pat := [0x5B] + bytes + [0x5D] + rest;
    assert pat[1..1 + |bytes|] == bytes && pat[1 + |bytes|] == 0x5D && pat[1] == bytes[0] && pat[|bytes| + 2..] == rest;
    MembersOfSet(pat, 1, bytes, true);
    assert BracketAt(pat) == Some(Members(Each(bytes), |bytes| + 2)) by { hide MembersFrom; }
    assert !Negates(pat);
    hide Parse, Globs, BracketAt, Fold, Negates;
    BracketMatches(pat, name, nocase);
    if name != [] { EachHas(bytes, name[0], nocase); }
  }

  lemma EachHas(bytes: seq<byte>, b: byte, nocase: bool)
    ensures AnyHas(Each(bytes), b, nocase) <==> exists k :: 0 <= k < |bytes| && Fold(bytes[k], nocase) == Fold(b, nocase)
  {
    hide Fold;
    if AnyHas(Each(bytes), b, nocase) {
      var k :| 0 <= k < |Each(bytes)| && ItemHas(Each(bytes)[k], b, nocase);
      assert Each(bytes)[k] == Byte(bytes[k]);
    }
    if k :| 0 <= k < |bytes| && Fold(bytes[k], nocase) == Fold(b, nocase) {
      assert Each(bytes)[k] == Byte(bytes[k]) && ItemHas(Each(bytes)[k], b, nocase);
    }
  }

  lemma OneHas(item: Item, b: byte, nocase: bool)
    ensures AnyHas([item], b, nocase) <==> ItemHas(item, b, nocase)
  {
    hide ItemHas;
    assert [item][0] == item;
  }

  lemma OneMember(pat: seq<byte>, item: Item, end: nat)
    requires |pat| >= 3 && pat[0] == 0x5B && !Negates(pat) && FoundAt(pat, 1, true) == Member(item, end)
    requires end < |pat| && pat[end] == 0x5D
    ensures BracketAt(pat) == Some(Members([item], end + 1))
  {
    MembersByFound(pat, 1, true);
    MembersByFound(pat, end, false);
    hide MembersFrom, ClassEnd;
    assert [item] + [] == [item];
  }

  /** A range in brackets takes the bytes between its ends. */
  lemma RangeMatches(lo: byte, hi: byte, rest: seq<byte>, name: seq<byte>, nocase: bool)
    requires lo != 0x21 && lo != 0x5E && lo != 0x5B && lo != 0x5C && hi != 0x5D && hi != 0x5C
    ensures Globs(Parse([0x5B, lo, 0x2D, hi, 0x5D] + rest, nocase), name) <==>
            name != [] && Fold(lo, nocase) <= Fold(name[0], nocase) <= Fold(hi, nocase) &&
            Globs(Parse(rest, nocase), name[1..])
  {
    var pat := [0x5B, lo, 0x2D, hi, 0x5D] + rest;
    RangeBracket(lo, hi, rest);
    RangeMeans(lo, hi, name, nocase);
    hide *;
    OneBracketMatches(pat, Range(lo, hi), 5, rest, name, nocase);
  }

  lemma RangeMeans(lo: byte, hi: byte, name: seq<byte>, nocase: bool)
    ensures name != [] ==>
              (ItemHas(Range(lo, hi), name[0], nocase) <==> Fold(lo, nocase) <= Fold(name[0], nocase) <= Fold(hi, nocase))
  {
  }

  /** A bracket expression with one member. */
  lemma OneBracketMatches(pat: seq<byte>, item: Item, end: nat, rest: seq<byte>, name: seq<byte>, nocase: bool)
    requires pat != [] && pat[0] == 0x5B && !Negates(pat) && BracketAt(pat) == Some(Members([item], end))
    requires end <= |pat| && pat[end..] == rest
    ensures Globs(Parse(pat, nocase), name) <==>
            name != [] && ItemHas(item, name[0], nocase) && Globs(Parse(rest, nocase), name[1..])
  {
    hide *;
    BracketMatches(pat, name, nocase);
    if name != [] { OneHas(item, name[0], nocase); }
  }

  lemma RangeBracket(lo: byte, hi: byte, rest: seq<byte>)
    requires lo != 0x21 && lo != 0x5E && lo != 0x5B && lo != 0x5C && hi != 0x5D && hi != 0x5C
    ensures var pat := [0x5B, lo, 0x2D, hi, 0x5D] + rest;
            pat[0] == 0x5B && BracketAt(pat) == Some(Members([Range(lo, hi)], 5)) && !Negates(pat) && pat[5..] == rest
  {
    var pat := [0x5B, lo, 0x2D, hi, 0x5D] + rest;
    RangeFound(pat, lo, hi);
    hide FoundAt, BracketAt, MembersFrom, Negates;
    OneMember(pat, Range(lo, hi), 4);
  }

  lemma RangeFound(pat: seq<byte>, lo: byte, hi: byte)
    requires |pat| >= 5 && pat[1] == lo && pat[2] == 0x2D && pat[3] == hi
    requires lo != 0x21 && lo != 0x5E && lo != 0x5B && lo != 0x5C && hi != 0x5D && hi != 0x5C
    ensures FoundAt(pat, 1, true) == Member(Range(lo, hi), 4) && !Negates(pat)
  {
    hide ClassEnd;
  }

  lemma {:induction false} ClassNameEnds(pat: seq<byte>, j: nat, e: nat)
    requires j <= e && e + 1 < |pat| && pat[e] == 0x3A && pat[e + 1] == 0x5D && forall k :: j <= k < e ==> pat[k] != 0x3A
    ensures ClassEnd(pat, j) == Some(e)
    decreases e - j
  {
    if j < e { ClassNameEnds(pat, j + 1, e); }
  }

  /** A class name in brackets takes the bytes of the class. */
  lemma ClassMatches(class_: seq<byte>, rest: seq<byte>, name: seq<byte>, nocase: bool)
    requires forall k :: 0 <= k < |class_| ==> class_[k] != 0x3A
    ensures Globs(Parse([0x5B, 0x5B, 0x3A] + class_ + [0x3A, 0x5D, 0x5D] + rest, nocase), name) <==>
            name != [] && ClassHas(class_, Fold(name[0], nocase)) && Globs(Parse(rest, nocase), name[1..])
  {
    var pat := [0x5B, 0x5B, 0x3A] + class_ + [0x3A, 0x5D, 0x5D] + rest;
    var e := 3 + |class_|;
    assert pat[3..e] == class_ && pat[e..e + 3] == [0x3A, 0x5D, 0x5D] && pat[e + 3..] == rest;
    assert pat[e] == 0x3A && pat[e + 1] == 0x5D && pat[e + 2] == 0x5D;
    forall k | 3 <= k < e ensures pat[k] != 0x3A { assert pat[k] == class_[k - 3]; }
    ClassNameEnds(pat, 3, e);
    ClassFound(pat, class_, e);
    OneMember(pat, Named(class_), e + 2);
    NamedMeans(class_, name, nocase);
    hide *;
    OneBracketMatches(pat, Named(class_), e + 3, rest, name, nocase);
  }

  lemma NamedMeans(class_: seq<byte>, name: seq<byte>, nocase: bool)
    ensures name != [] ==> (ItemHas(Named(class_), name[0], nocase) <==> ClassHas(class_, Fold(name[0], nocase)))
  {
    hide ClassHas, Fold;
  }

  lemma ClassFound(pat: seq<byte>, class_: seq<byte>, e: nat)
    requires |pat| > e + 2 && e >= 3 && pat[0] == 0x5B && pat[1] == 0x5B && pat[2] == 0x3A && pat[3..e] == class_
    requires ClassEnd(pat, 3) == Some(e)
    ensures FoundAt(pat, 1, true) == Member(Named(class_), e + 2) && !Negates(pat)
  {
    hide ClassEnd;
  }

  // ---------- The classes ----------

  /** No two classes have one name. */
  lemma NamesDiffer()
    ensures ALNUM[0] == ALPHA[0] == 0x61 && ALNUM[2] == 0x6E && ALPHA[2] == 0x70 && DIGIT[0] == 0x64 && LOWER[0] == 0x6C
    ensures UPPER[0] == 0x75 && XDIGIT[0] == 0x78 && BLANK[0] == 0x62 && SPACE[0] == 0x73 && CNTRL[0] == 0x63
    ensures GRAPH[0] == 0x67 && PUNCT[0] == PRINT[0] == 0x70 && PUNCT[2] == 0x6E && PRINT[2] == 0x69
  {
  }

  lemma LetterClasses(b: byte)
    ensures ClassHas(ALNUM, b) <==> IsDigit(b) || IsLower(b) || IsUpper(b)
    ensures ClassHas(ALPHA, b) <==> IsLower(b) || IsUpper(b)
    ensures (ClassHas(DIGIT, b) <==> IsDigit(b)) && (ClassHas(LOWER, b) <==> IsLower(b)) && (ClassHas(UPPER, b) <==> IsUpper(b))
    ensures ClassHas(XDIGIT, b) <==> IsDigit(b) || 0x61 <= b <= 0x66 || 0x41 <= b <= 0x46
  {
    NamesDiffer();
    hide IsDigit, IsLower, IsUpper;
  }

  lemma OtherClasses(b: byte)
    ensures ClassHas(BLANK, b) <==> b == 0x20 || b == 0x09
    ensures ClassHas(SPACE, b) <==> b == 0x20 || 0x09 <= b <= 0x0D
    ensures ClassHas(CNTRL, b) <==> b < 0x20 || b == 0x7F
    ensures ClassHas(GRAPH, b) <==> 0x21 <= b <= 0x7E
    ensures ClassHas(PRINT, b) <==> 0x20 <= b <= 0x7E
    ensures ClassHas(PUNCT, b) <==> 0x21 <= b <= 0x2F || 0x3A <= b <= 0x40 || 0x5B <= b <= 0x60 || 0x7B <= b <= 0x7E
  {
    NamesDiffer();
    hide IsDigit, IsLower, IsUpper;
  }

  /** How the classes relate, as in section 7.3.1 of the POSIX Base Definitions: letters are upper or lower case,
      graphic bytes are letters, digits or punctuation, every ASCII byte is printed or controls, and no byte is two
      of these at once. */
  lemma ClassesRelate(b: byte)
    ensures ClassHas(ALPHA, b) <==> ClassHas(UPPER, b) != ClassHas(LOWER, b)
    ensures ClassHas(ALNUM, b) <==> ClassHas(ALPHA, b) != ClassHas(DIGIT, b)
    ensures ClassHas(GRAPH, b) <==> ClassHas(ALNUM, b) != ClassHas(PUNCT, b)
    ensures ClassHas(PRINT, b) <==> ClassHas(GRAPH, b) != (b == 0x20)
    ensures b < 0x80 <==> ClassHas(PRINT, b) != ClassHas(CNTRL, b)
    ensures ClassHas(DIGIT, b) ==> ClassHas(XDIGIT, b)
    ensures ClassHas(BLANK, b) ==> ClassHas(SPACE, b)
  {
    LetterClasses(b);
    OtherClasses(b);
    hide ClassHas;
  }
}
