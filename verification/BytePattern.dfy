/** The byte-oriented wildcard matcher of parameter expansion (expand/param.go): what a pattern's bytes
    mean as tokens, and the backtracking matcher proved against them. */
module BytePattern {
  import opened Common
  import opened Utf8
  import opened Glob

  // ---------- Reading a pattern ----------

  /** The members of a bracket expression, and where the pattern goes on. */
  datatype Members = Members(items: seq<Item>, end: nat)

  function With(item: Item, rest: Option<Members>): Option<Members> {
    match rest
    case None => None
    case Some(m) => Some(Members([item] + m.items, m.end))
  }

  /** Where the class name that starts at j ends: before the first colon and closing bracket. */
  function ClassEnd(pat: seq<byte>, j: nat): (r: Option<nat>)
    ensures r.Some? ==> j <= r.value && r.value + 1 < |pat|
    decreases |pat| - j
  {
    if j + 1 >= |pat| then None
    else if pat[j] == 0x3A && pat[j + 1] == 0x5D then Some(j)
    else ClassEnd(pat, j + 1)
  }

  /** A backslash before another byte quotes it. */
  function Unquoted(pat: seq<byte>, i: nat): (k: nat)
    requires i < |pat|
    ensures i <= k <= i + 1 && k < |pat|
  {
    if pat[i] == 0x5C && i + 1 < |pat| then i + 1 else i
  }

  predicate QuotedBrackets(pat: seq<byte>, i: nat)
    requires i < |pat|
  {
    var k := Unquoted(pat, i);
    k == i + 1 && pat[k] == 0x5B && k + 2 < |pat| && pat[k + 1] == 0x5D && pat[k + 2] == 0x5D
  }

  predicate StartsClass(pat: seq<byte>, k: nat)
    requires k < |pat|
  {
    pat[k] == 0x5B && k + 3 < |pat| && pat[k + 1] == 0x3A && ClassEnd(pat, k + 2).Some?
  }

  predicate StartsRange(pat: seq<byte>, k: nat)
    requires k < |pat|
  {
    k + 2 < |pat| && pat[k + 1] == 0x2D && pat[k + 2] != 0x5D
  }

  /** The members from i on, up to the closing bracket; one in first position is a member itself. */
  function MembersFrom(pat: seq<byte>, i: nat, first: bool): (r: Option<Members>)
    ensures r.Some? ==> i < r.value.end <= |pat|
    decreases |pat| - i
  {
    if i >= |pat| then None
    else if pat[i] == 0x5D && !first then Some(Members([], i + 1))
    else
      var k := Unquoted(pat, i);
      if QuotedBrackets(pat, i) then Some(Members([Byte(0x5B), Byte(0x5D)], k + 3))
      else if StartsClass(pat, k) then
        var j := ClassEnd(pat, k + 2).value;
        With(Named(pat[k + 2..j]), MembersFrom(pat, j + 2, false))
      else if StartsRange(pat, k) then
        if pat[k + 2] == 0x5C && k + 3 < |pat| then With(Range(pat[k], pat[k + 3]), MembersFrom(pat, k + 4, false))
        else With(Range(pat[k], pat[k + 2]), MembersFrom(pat, k + 3, false))
      else With(Byte(pat[k]), MembersFrom(pat, k + 1, false))
  }

  predicate Negates(pat: seq<byte>) {
    |pat| > 1 && (pat[1] == 0x21 || pat[1] == 0x5E)
  }

  function BracketAt(pat: seq<byte>): (r: Option<Members>)
    ensures r.Some? ==> 0 < r.value.end <= |pat|
  {
    if |pat| < 3 || pat[0] != 0x5B then None
    else MembersFrom(pat, if Negates(pat) then 2 else 1, true)
  }

  /** What a pattern means: an unclosed bracket expression matches nothing. */
  function Parse(pat: seq<byte>, nocase: bool): seq<Token>
    decreases |pat|
  {
    if pat == [] then []
    else if pat[0] == 0x2A then [Star] + Parse(pat[1..], nocase)
    else if pat[0] == 0x3F then [AnyByte] + Parse(pat[1..], nocase)
    else if pat[0] == 0x5B then
      match BracketAt(pat)
      case None => [Never]
      case Some(m) => [Bracket(m.items, Negates(pat), nocase)] + Parse(pat[m.end..], nocase)
    else if pat[0] == 0x5C then
      if |pat| == 1 then [Literal(0x5C, nocase)] else [Literal(pat[1], nocase)] + Parse(pat[2..], nocase)
    else [Literal(pat[0], nocase)] + Parse(pat[1..], nocase)
  }

  // ---------- Bracket expressions ----------

  lemma FoldTwice(b: byte, nocase: bool)
    ensures Fold(Fold(b, nocase), nocase) == Fold(b, nocase)
    ensures Fold(b, nocase) == 0x5C <==> b == 0x5C
  {
  }

  predicate Between(lo: byte, b: byte, hi: byte) {
    lo <= hi && lo <= b && b <= hi
  }

  lemma RangeIsBetween(lo: byte, hi: byte, b: byte, nocase: bool)
    ensures ItemHas(Range(lo, hi), b, nocase) <==> Between(Fold(lo, nocase), Fold(b, nocase), Fold(hi, nocase))
  {
    hide Fold;
  }

  /** What the rest of the scan adds to the members seen so far. */
  ghost predicate Continues(all: Option<Members>, rest: Option<Members>, found: bool, b: byte, nocase: bool) {
    (all.Some? <==> rest.Some?) &&
    (rest.Some? ==> all.value.end == rest.value.end &&
                    (AnyHas(all.value.items, b, nocase) <==> found || AnyHas(rest.value.items, b, nocase)))
  }

  lemma ContinuesWith(all: Option<Members>, item: Item, rest: Option<Members>, found: bool, b: byte, nocase: bool)
    requires Continues(all, With(item, rest), found, b, nocase)
    ensures Continues(all, rest, found || ItemHas(item, b, nocase), b, nocase)
  {
    hide ItemHas;
    if rest.Some? {
      var items := [item] + rest.value.items;
      if AnyHas(rest.value.items, b, nocase) {
        var i :| 0 <= i < |rest.value.items| && ItemHas(rest.value.items[i], b, nocase);
        assert items[i + 1] == rest.value.items[i];
      }
      if ItemHas(item, b, nocase) {
        assert items[0] == item;
      }
      if AnyHas(items, b, nocase) {
        var i :| 0 <= i < |items| && ItemHas(items[i], b, nocase);
        assert i > 0 ==> items[i] == rest.value.items[i - 1];
      }
    }
  }

  lemma TwoBrackets(b: byte, nocase: bool)
    ensures AnyHas([Byte(0x5B), Byte(0x5D)], b, nocase) <==>
            ItemHas(Byte(0x5B), b, nocase) || ItemHas(Byte(0x5D), b, nocase)
  {
    hide ItemHas;
    var items := [Byte(0x5B), Byte(0x5D)];
    assert items[0] == Byte(0x5B) && items[1] == Byte(0x5D);
  }

  predicate ByteEqual(a: byte, b: byte, nocase: bool) {
    Fold(a, nocase) == Fold(b, nocase)
  }

  /** Not at the end of the members: either unquoted closing bracket or two quoted ones. */
  predicate Inside(pat: seq<byte>, i: nat, first: bool) {
    i < |pat| && (pat[i] != 0x5D || first) && !QuotedBrackets(pat, i)
  }

  lemma ContinuesStart(pat: seq<byte>, b: byte, nocase: bool)
    requires |pat| >= 3 && pat[0] == 0x5B
    ensures Continues(BracketAt(pat), MembersFrom(pat, if Negates(pat) then 2 else 1, true), false, b, nocase)
  {
    hide MembersFrom;
  }

  lemma ContinuesClass(all: Option<Members>, pat: seq<byte>, i: nat, first: bool, j: nat,
                       found: bool, b: byte, nocase: bool)
    requires Inside(pat, i, first) && StartsClass(pat, Unquoted(pat, i))
    requires ClassEnd(pat, Unquoted(pat, i) + 2) == Some(j)
    requires Continues(all, MembersFrom(pat, i, first), found, b, nocase)
    ensures Continues(all, MembersFrom(pat, j + 2, false),
                      found || ClassHas(pat[Unquoted(pat, i) + 2..j], Fold(b, nocase)), b, nocase)
  {
    hide ClassHas, Fold, ClassEnd, Continues;
    ContinuesWith(all, Named(pat[Unquoted(pat, i) + 2..j]), MembersFrom(pat, j + 2, false), found, b, nocase);
  }

  /** Where a range's last byte is: a backslash before another byte quotes it. */
  function RangeEnd(pat: seq<byte>, k: nat): (e: nat)
    requires k < |pat| && StartsRange(pat, k)
    ensures k + 2 <= e < |pat|
  {
    if pat[k + 2] == 0x5C && k + 3 < |pat| then k + 3 else k + 2
  }

  lemma ContinuesRange(all: Option<Members>, pat: seq<byte>, i: nat, first: bool, found: bool, b: byte, nocase: bool)
    requires Inside(pat, i, first)
    requires !StartsClass(pat, Unquoted(pat, i)) && StartsRange(pat, Unquoted(pat, i))
    requires Continues(all, MembersFrom(pat, i, first), found, b, nocase)
    ensures var k := Unquoted(pat, i);
            var lo, hi := Fold(pat[k], nocase), Fold(pat[RangeEnd(pat, k)], nocase);
            Continues(all, MembersFrom(pat, RangeEnd(pat, k) + 1, false),
                      found || Between(lo, Fold(b, nocase), hi), b, nocase)
  {
    hide Fold, ClassEnd, StartsClass, Continues, Between, ItemHas;
    var k := Unquoted(pat, i);
    var e := RangeEnd(pat, k);
    RangeIsBetween(pat[k], pat[e], b, nocase);
    ContinuesWith(all, Range(pat[k], pat[e]), MembersFrom(pat, e + 1, false), found, b, nocase);
  }

  lemma ContinuesByte(all: Option<Members>, pat: seq<byte>, i: nat, first: bool, found: bool, b: byte, nocase: bool)
    requires Inside(pat, i, first)
    requires !StartsClass(pat, Unquoted(pat, i)) && !StartsRange(pat, Unquoted(pat, i))
    requires Continues(all, MembersFrom(pat, i, first), found, b, nocase)
    ensures Continues(all, MembersFrom(pat, Unquoted(pat, i) + 1, false),
                      found || ByteEqual(Fold(b, nocase), pat[Unquoted(pat, i)], nocase), b, nocase)
  {
    hide Fold, ClassEnd, StartsClass, StartsRange, Continues;
    var k := Unquoted(pat, i);
    FoldTwice(b, nocase);
    ContinuesWith(all, Byte(pat[k]), MembersFrom(pat, k + 1, false), found, b, nocase);
  }

  /** The members end here, at a closing bracket or at two quoted brackets. */
  lemma ContinuesEnd(all: Option<Members>, pat: seq<byte>, i: nat, first: bool, found: bool, b: byte, nocase: bool)
    requires i < |pat| && !Inside(pat, i, first)
    requires Continues(all, MembersFrom(pat, i, first), found, b, nocase)
    ensures all.Some?
    ensures pat[i] == 0x5D && !first ==>
              all.value.end == i + 1 && (AnyHas(all.value.items, b, nocase) <==> found)
    ensures !(pat[i] == 0x5D && !first) ==>
              all.value.end == Unquoted(pat, i) + 3 &&
              (AnyHas(all.value.items, b, nocase) <==>
               found || ByteEqual(Fold(b, nocase), 0x5B, nocase) || ByteEqual(Fold(b, nocase), 0x5D, nocase))
  {
    hide Fold, ClassEnd, StartsClass, StartsRange;
    FoldTwice(b, nocase);
    TwoBrackets(b, nocase);
  }

  lemma ContinuesNone(all: Option<Members>, pat: seq<byte>, i: nat, first: bool, found: bool, b: byte, nocase: bool)
    requires i >= |pat| && Continues(all, MembersFrom(pat, i, first), found, b, nocase)
    ensures all == None
  {
  }

  lemma ClassEndStep(pat: seq<byte>, j: nat)
    ensures ClassEnd(pat, j) == if j + 1 >= |pat| then None
                                else if pat[j] == 0x3A && pat[j + 1] == 0x5D then Some(j)
                                else ClassEnd(pat, j + 1)
  {
  }

  method FindClassEnd(pat: seq<byte>, from: nat) returns (r: Option<nat>)
    ensures r == ClassEnd(pat, from)
  {
    hide ClassEnd;
    var j := from;
    while j + 1 < |pat|
      invariant ClassEnd(pat, from) == ClassEnd(pat, j)
      decreases |pat| - j
    {
      ClassEndStep(pat, j);
      if pat[j] == 0x3A && pat[j + 1] == 0x5D {
        return Some(j);
      }
      j := j + 1;
    }
    ClassEndStep(pat, j);
    return None;
  }

  /** The range at k: where the scan goes on, and whether the folded byte is in it. */
  method RangeMember(pat: seq<byte>, k: nat, b: byte, nocase: bool) returns (next: nat, hit: bool)
    requires k < |pat| && StartsRange(pat, k)
    ensures next == RangeEnd(pat, k) + 1
    ensures hit <==> Between(Fold(pat[k], nocase), b, Fold(pat[RangeEnd(pat, k)], nocase))
  {
    hide Fold, Between;
    var start, end := Fold(pat[k], nocase), Fold(pat[k + 2], nocase);
    FoldTwice(pat[k + 2], nocase);
    if end == 0x5C && k + 3 < |pat| {
      end := Fold(pat[k + 3], nocase);
      return k + 4, Between(start, b, end);
    } else {
      return k + 3, Between(start, b, end);
    }
  }

  method ByteBracketMatch(pat: seq<byte>, name: seq<byte>, nocase: bool)
    returns (ok: bool, consumed: nat, matched: bool)
    ensures ok <==> name != [] && BracketAt(pat).Some?
    ensures ok ==> consumed == BracketAt(pat).value.end
    ensures ok ==> (matched <==> AnyHas(BracketAt(pat).value.items, name[0], nocase) != Negates(pat))
  {
    hide MembersFrom, ClassEnd, AnyHas, ClassHas, Fold, Continues, Between, ByteEqual;
    if |name| == 0 || |pat| < 3 || pat[0] != 0x5B {
      return false, 0, false;
    }
    var i, neg := 1, false;
    if pat[i] == 0x21 || pat[i] == 0x5E {
      neg := true;
      i := i + 1;
    }
    var b := Fold(name[0], nocase);
    var found, first := false, true;
    ghost var all := BracketAt(pat);
    ContinuesStart(pat, name[0], nocase);
    while i < |pat|
      invariant 0 < i
      invariant Continues(all, MembersFrom(pat, i, first), found, name[0], nocase)
      decreases |pat| - i
    {
      if pat[i] == 0x5D && !first {
        ContinuesEnd(all, pat, i, first, found, name[0], nocase);
        return true, i + 1, found != neg;
      }
      ghost var at := i;
      var start := pat[i];
      if start == 0x5C && i + 1 < |pat| {
        i := i + 1;
        start := pat[i];
        if start == 0x5B && i + 2 < |pat| && pat[i + 1] == 0x5D && pat[i + 2] == 0x5D {
          ContinuesEnd(all, pat, at, first, found, name[0], nocase);
          if ByteEqual(b, 0x5B, nocase) || ByteEqual(b, 0x5D, nocase) {
            found := true;
          }
          return true, i + 3, found != neg;
        }
      }
      if start == 0x5B && i + 3 < |pat| && pat[i + 1] == 0x3A {
        var j := FindClassEnd(pat, i + 2);
        if j.Some? {
          ContinuesClass(all, pat, at, first, j.value, found, name[0], nocase);
          if ClassHas(pat[i + 2..j.value], b) {
            found := true;
          }
          i := j.value + 2;
          first := false;
          continue;
        }
      }
      if i + 2 < |pat| && pat[i + 1] == 0x2D && pat[i + 2] != 0x5D {
        ContinuesRange(all, pat, at, first, found, name[0], nocase);
        var hit;
        i, hit := RangeMember(pat, i, b, nocase);
        if hit {
          found := true;
        }
        first := false;
        continue;
      }
      ContinuesByte(all, pat, at, first, found, name[0], nocase);
      if ByteEqual(b, start, nocase) {
        found := true;
      }
      i := i + 1;
      first := false;
    }
    ContinuesNone(all, pat, i, first, found, name[0], nocase);
    return false, 0, false;
  }

  // ---------- The matcher ----------

  /** Sound and complete: the matcher says whether the name can be cut to fit the pattern. */
  method BytePatternMatch(pat0: seq<byte>, name0: seq<byte>, nocase: bool) returns (r: bool)
    ensures r <==> Globs(Parse(pat0, nocase), name0)
    decreases |pat0|
  {
    hide *;
    var pat, name := pat0, name0;
    while |pat| > 0
      invariant |pat| <= |pat0|
      invariant Globs(Parse(pat, nocase), name) <==> Globs(Parse(pat0, nocase), name0)
      decreases |pat|
    {
      ParseStep(pat, nocase);
      var p := pat[0];
      if p == 0x2A {
        while |pat| > 1 && pat[1] == 0x2A
          invariant 0 < |pat| <= |pat0| && pat[0] == 0x2A
          invariant Globs(Parse(pat, nocase), name) <==> Globs(Parse(pat0, nocase), name0)
        {
          DropStar(pat, name, nocase);
          pat := pat[1..];
        }
        ParseStep(pat, nocase);
        if |pat| == 1 {
          StarLast(pat, name, nocase);
          return true;
        }
        pat := pat[1..];
        GlobsAfterStar(Parse(pat, nocase), name);
        for i := 0 to |name| + 1
          invariant forall j :: 0 <= j < i ==> !Globs(Parse(pat, nocase), name[j..])
        {
          var rest := BytePatternMatch(pat, name[i..], nocase);
          if rest {
            return true;
          }
        }
        return false;
      } else if p == 0x3F {
        StepOne(AnyByte, pat, pat[1..], name, nocase);
        if |name| == 0 {
          return false;
        }
        AcceptsOne(name);
        pat := pat[1..];
        name := name[1..];
      } else if p == 0x5B {
        var ok, consumed, matched := ByteBracketMatch(pat, name, nocase);
        StepBracket(pat, name, nocase);
        if !ok {
          return false;
        }
        if !matched {
          return false;
        }
        pat := pat[consumed..];
        name := name[1..];
      } else {
        var next;
        if p == 0x5C {
          if |pat| == 1 {
            next := [];
          } else {
            p := pat[1];
            next := pat[2..];
          }
        } else {
          next := pat[1..];
        }
        StepOne(Literal(p, nocase), pat, next, name, nocase);
        AcceptsLiteral(p, nocase, name);
        if |name| == 0 || !ByteEqual(name[0], p, nocase) {
          return false;
        }
        pat := next;
        name := name[1..];
      }
    }
    assert pat == [];
    ParseNothing(nocase);
    GlobsNothing(name);
    return |name| == 0;
  }

  lemma ParseNothing(nocase: bool)
    ensures Parse([], nocase) == []
  {
  }

  /** One step of the parse, with nothing deeper unfolded. */
  lemma ParseStep(pat: seq<byte>, nocase: bool)
    requires pat != []
    ensures pat[0] == 0x2A ==> Parse(pat, nocase) == [Star] + Parse(pat[1..], nocase)
    ensures pat[0] == 0x3F ==> Parse(pat, nocase) == [AnyByte] + Parse(pat[1..], nocase)
    ensures pat[0] == 0x5B ==> BracketAt(pat).Some? ==>
              Parse(pat, nocase) == [Bracket(BracketAt(pat).value.items, Negates(pat), nocase)]
                                    + Parse(pat[BracketAt(pat).value.end..], nocase)
    ensures pat[0] == 0x5B ==> BracketAt(pat).None? ==> Parse(pat, nocase) == [Never] + []
    ensures pat == [0x5C] ==> Parse(pat, nocase) == [Literal(0x5C, nocase)] + Parse([], nocase)
    ensures pat[0] == 0x5C && |pat| > 1 ==> Parse(pat, nocase) == [Literal(pat[1], nocase)] + Parse(pat[2..], nocase)
    ensures pat[0] !in {0x2A, 0x3F, 0x5B, 0x5C} ==>
              Parse(pat, nocase) == [Literal(pat[0], nocase)] + Parse(pat[1..], nocase)
  {
    hide BracketAt;
    assert Parse([], nocase) == [];
  }

  lemma DropStar(pat: seq<byte>, name: seq<byte>, nocase: bool)
    requires |pat| > 1 && pat[0] == pat[1] == 0x2A
    ensures Globs(Parse(pat, nocase), name) <==> Globs(Parse(pat[1..], nocase), name)
  {
    hide Parse, Globs;
    ParseStep(pat, nocase);
    ParseStep(pat[1..], nocase);
    StarsCollapse(Parse(pat[1..][1..], nocase), name);
  }

  lemma StarLast(pat: seq<byte>, name: seq<byte>, nocase: bool)
    requires pat == [0x2A]
    ensures Globs(Parse(pat, nocase), name)
  {
    hide Globs;
    assert pat[1..] == [];
    assert Parse(pat, nocase) == [Star];
    GlobsStar(name);
  }

  lemma StepOne(t: Token, pat: seq<byte>, next: seq<byte>, name: seq<byte>, nocase: bool)
    requires Parse(pat, nocase) == [t] + Parse(next, nocase) && (t.AnyByte? || t.Literal?)
    ensures Globs(Parse(pat, nocase), name) <==>
            name != [] && Accepts(t, name[..1], name[1..]) && Globs(Parse(next, nocase), name[1..])
  {
    hide Parse, Globs, Accepts;
    GlobsOne(t, Parse(next, nocase), name);
  }

  lemma StepBracket(pat: seq<byte>, name: seq<byte>, nocase: bool)
    requires pat != [] && pat[0] == 0x5B
    ensures BracketAt(pat).None? || name == [] ==> !Globs(Parse(pat, nocase), name)
    ensures BracketAt(pat).Some? && name != [] ==>
              var m := BracketAt(pat).value;
              (Globs(Parse(pat, nocase), name) <==>
               AnyHas(m.items, name[0], nocase) != Negates(pat) && Globs(Parse(pat[m.end..], nocase), name[1..]))
  {
    hide Parse, Globs, BracketAt, Negates, AnyHas;
    ParseStep(pat, nocase);
    match BracketAt(pat)
    case None =>
      GlobsHead(Never, [], name);
    case Some(m) =>
      GlobsOne(Bracket(m.items, Negates(pat), nocase), Parse(pat[m.end..], nocase), name);
  }

  lemma AcceptsOne(name: seq<byte>)
    requires name != []
    ensures Accepts(AnyByte, name[..1], name[1..])
  {
  }

  lemma AcceptsLiteral(p: byte, nocase: bool, name: seq<byte>)
    ensures name != [] ==> (Accepts(Literal(p, nocase), name[..1], name[1..]) <==> ByteEqual(name[0], p, nocase))
  {
  }
}
