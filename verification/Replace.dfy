/** Pattern replacement and removal over a value's bytes (expand/param.go): which spans are found, what
    replacing them yields, and which prefix or suffix a removal cuts. */
module Replace {
  import opened Common
  import opened Utf8
  import opened Glob
  import opened BytePattern

  datatype Span = Span(start: nat, end: nat)

  /** The pattern matches the whole of this part of the name. */
  ghost predicate Hits(tokens: seq<Token>, name: seq<byte>, i: int, j: int) {
    0 <= i <= j <= |name| && Globs(tokens, name[i..j])
  }

  ghost predicate Longest(tokens: seq<Token>, name: seq<byte>, s: Span) {
    Hits(tokens, name, s.start, s.end) && forall j :: Hits(tokens, name, s.start, j) ==> j <= s.end
  }

  /** No match starts anywhere in this range of positions. */
  ghost predicate Gap(tokens: seq<Token>, name: seq<byte>, from: int, to: int) {
    forall i, j :: from <= i < to ==> !Hits(tokens, name, i, j)
  }

  // ---------- Anchored search ----------

  /** The longest prefix that matches, if any. */
  ghost predicate IsPrefixFind(tokens: seq<Token>, name: seq<byte>, locs: seq<Span>) {
    if Gap(tokens, name, 0, 1) then locs == [] else |locs| == 1 && locs[0].start == 0 && Longest(tokens, name, locs[0])
  }

  /** The longest suffix that matches, if any. */
  ghost predicate IsSuffixFind(tokens: seq<Token>, name: seq<byte>, locs: seq<Span>) {
    if forall i :: !Hits(tokens, name, i, |name|) then locs == []
    else
      |locs| == 1 && locs[0].end == |name| && Hits(tokens, name, locs[0].start, |name|) &&
      forall i :: Hits(tokens, name, i, |name|) ==> locs[0].start <= i
  }

  // ---------- Unanchored search ----------

  /** Where the search goes on: after the match, or one further if the match is empty. */
  function After(s: Span): nat { if s.end <= s.start then s.start + 1 else s.end }

  function Resume(locs: seq<Span>): nat { if locs == [] then 0 else After(locs[|locs| - 1]) }

  /** Each span is the longest match where it starts, and no match starts in the gap before it. */
  ghost predicate Found(tokens: seq<Token>, name: seq<byte>, locs: seq<Span>) {
    forall k :: 0 <= k < |locs| ==> FoundAt(tokens, name, locs, k)
  }

  ghost predicate FoundAt(tokens: seq<Token>, name: seq<byte>, locs: seq<Span>, k: nat)
    requires k < |locs|
  {
    Longest(tokens, name, locs[k]) && Resume(locs[..k]) <= locs[k].start &&
    Gap(tokens, name, Resume(locs[..k]), locs[k].start)
  }

  /** All of the above, and no match is left unless the count ran out. */
  ghost predicate IsFind(tokens: seq<Token>, name: seq<byte>, n: int, locs: seq<Span>) {
    Found(tokens, name, locs) && (n > 0 ==> |locs| <= n) &&
    (n <= 0 || |locs| < n ==> Gap(tokens, name, Resume(locs), |name| + 1))
  }

  lemma HitByGlobs(tokens: seq<Token>, name: seq<byte>, i: nat, j: nat)
    requires i <= j <= |name|
    ensures Hits(tokens, name, i, j) <==> Globs(tokens, name[i..j])
  {
  }

  lemma GapGrows(tokens: seq<Token>, name: seq<byte>, from: int, i: int)
    requires Gap(tokens, name, from, i) && forall j :: !Hits(tokens, name, i, j)
    ensures Gap(tokens, name, from, i + 1)
  {
    hide Hits;
  }

  lemma FoundGrows(tokens: seq<Token>, name: seq<byte>, locs: seq<Span>, s: Span)
    requires Found(tokens, name, locs) && Longest(tokens, name, s)
    requires Resume(locs) <= s.start && Gap(tokens, name, Resume(locs), s.start)
    ensures Found(tokens, name, locs + [s])
  {
    hide Longest, Gap, Resume;
    var next := locs + [s];
    forall k | 0 <= k < |next| ensures FoundAt(tokens, name, next, k) {
      if k < |locs| {
        assert FoundAt(tokens, name, locs, k);
        assert next[..k] == locs[..k];
      } else {
        assert next[..k] == locs;
      }
    }
  }

  /** The longest match that starts at i, by trying every end from the last down. */
  method BestEnd(pat: seq<byte>, name: seq<byte>, i: nat, nocase: bool) returns (best: int)
    requires i <= |name|
    ensures best < 0 ==> forall j :: !Hits(Parse(pat, nocase), name, i, j)
    ensures best >= 0 ==> i <= best <= |name| && Longest(Parse(pat, nocase), name, Span(i, best))
  {
    hide Globs, Parse;
    var j := |name|;
    while j >= i
      invariant i - 1 <= j <= |name|
      invariant forall k :: k > j ==> !Hits(Parse(pat, nocase), name, i, k)
    {
      var r := BytePatternMatch(pat, name[i..j], nocase);
      HitByGlobs(Parse(pat, nocase), name, i, j);
      if r {
        return j;
      }
      j := j - 1;
    }
    return -1;
  }

  method FindReplIndexBytes(pat: seq<byte>, name: seq<byte>, n: int, start: bool, end: bool, nocase: bool)
    returns (locs: seq<Span>)
    ensures start ==> IsPrefixFind(Parse(pat, nocase), name, locs)
    ensures !start && end ==> IsSuffixFind(Parse(pat, nocase), name, locs)
    ensures !start && !end ==> IsFind(Parse(pat, nocase), name, n, locs)
  {
    hide Globs, Parse, Hits, Found;
    if start {
      var j := BestEnd(pat, name, 0, nocase);
      if j >= 0 {
        return [Span(0, j)];
      }
      return [];
    }
    if end {
      NoHitPast(Parse(pat, nocase), name);
      for i := 0 to |name| + 1
        invariant forall k :: 0 <= k < i ==> !Hits(Parse(pat, nocase), name, k, |name|)
      {
        assert name[i..] == name[i..|name|];
        HitByGlobs(Parse(pat, nocase), name, i, |name|);
        var r := BytePatternMatch(pat, name[i..], nocase);
        if r {
          return [Span(i, |name|)];
        }
      }
      return [];
    }
    ghost var tokens := Parse(pat, nocase);
    locs := [];
    FoundNothing(tokens, name);
    var i := 0;
    while i <= |name|
      invariant Found(tokens, name, locs) && (n > 0 ==> |locs| < n)
      invariant Resume(locs) <= i && Gap(tokens, name, Resume(locs), i)
      decreases |name| + 1 - i
    {
      var best := BestEnd(pat, name, i, nocase);
      if best < 0 {
        GapGrows(tokens, name, Resume(locs), i);
        i := i + 1;
        continue;
      }
      FoundGrows(tokens, name, locs, Span(i, best));
      locs := locs + [Span(i, best)];
      if n > 0 && |locs| >= n {
        break;
      }
      if best == i {
        i := i + 1;
        continue;
      }
      i := best;
    }
    GapToEnd(tokens, name, Resume(locs), i);
  }

  lemma NoHitPast(tokens: seq<Token>, name: seq<byte>)
    ensures forall i :: i < 0 || i > |name| ==> !Hits(tokens, name, i, |name|)
  {
  }

  lemma FoundNothing(tokens: seq<Token>, name: seq<byte>)
    ensures Found(tokens, name, []) && Gap(tokens, name, 0, 0)
  {
  }

  lemma GapToEnd(tokens: seq<Token>, name: seq<byte>, from: int, i: int)
    ensures Gap(tokens, name, from, i) && i >= |name| + 1 ==> Gap(tokens, name, from, |name| + 1)
  {
    hide Hits;
  }

  /** Spans come in order: starts strictly increase and no two overlap. */
  lemma {:induction false} SpansOrdered(tokens: seq<Token>, name: seq<byte>, locs: seq<Span>, k: nat, l: nat)
    requires Found(tokens, name, locs) && k < l < |locs|
    ensures locs[k].start <= locs[k].end <= locs[l].start <= |name| && locs[k].start < locs[l].start
    decreases l
  {
    hide Globs, Gap;
    assert FoundAt(tokens, name, locs, k) && FoundAt(tokens, name, locs, l);
    if l > k + 1 {
      SpansOrdered(tokens, name, locs, k, l - 1);
      assert FoundAt(tokens, name, locs, l - 1);
    }
    assert locs[..l][l - 1] == locs[l - 1];
  }

  /** The description leaves nothing open: a value, a pattern and a count have one list of spans. */
  lemma {:induction false} FindIsUnique(tokens: seq<Token>, name: seq<byte>, n: int, a: seq<Span>, b: seq<Span>, k: nat)
    requires IsFind(tokens, name, n, a) && IsFind(tokens, name, n, b)
    requires k <= |a| && k <= |b| && a[..k] == b[..k]
    ensures a == b
    decreases |a| - k
  {
    hide Found, Hits, FoundAt;
    if k == |a| || k == |b| {
      if k < |b| {
        SpanBreaksGap(tokens, name, b, k);
      }
      if k < |a| {
        SpanBreaksGap(tokens, name, a, k);
      }
      assert a[..|a|] == a && b[..|b|] == b;
    } else {
      SameSpan(tokens, name, a, b, k);
      assert a[..k + 1] == a[..k] + [a[k]] && b[..k + 1] == b[..k] + [b[k]];
      FindIsUnique(tokens, name, n, a, b, k + 1);
    }
  }

  lemma SpanBreaksGap(tokens: seq<Token>, name: seq<byte>, locs: seq<Span>, k: nat)
    requires Found(tokens, name, locs) && k < |locs|
    ensures !Gap(tokens, name, Resume(locs[..k]), |name| + 1)
  {
    hide Globs;
    assert FoundAt(tokens, name, locs, k);
  }

  lemma SameSpan(tokens: seq<Token>, name: seq<byte>, a: seq<Span>, b: seq<Span>, k: nat)
    requires Found(tokens, name, a) && Found(tokens, name, b) && k < |a| && k < |b| && a[..k] == b[..k]
    ensures a[k] == b[k]
  {
    hide Hits;
    assert FoundAt(tokens, name, a, k) && FoundAt(tokens, name, b, k);
    assert Hits(tokens, name, a[k].start, a[k].end) && Hits(tokens, name, b[k].start, b[k].end);
  }

  /** A lone star finds a non-empty value and then, right after it, the empty string at its end. */
  lemma StarFindsTwice(name: seq<byte>, n: int, locs: seq<Span>)
    requires name != [] && n <= 0 && IsFind([Star], name, n, locs)
    ensures locs == [Span(0, |name|), Span(|name|, |name|)]
  {
    hide Globs;
    var both := [Span(0, |name|), Span(|name|, |name|)];
    forall i, j | 0 <= i <= j <= |name| ensures Hits([Star], name, i, j) {
      GlobsStar(name[i..j]);
    }
    assert both[..0] == [] && both[..1] == [both[0]];
    assert FoundAt([Star], name, both, 0) && FoundAt([Star], name, both, 1);
    FindIsUnique([Star], name, n, locs, both, 0);
  }

  // ---------- Replacing ----------

  /** A piece of a replacement: the matched text, or a literal. */
  datatype Segment = Matched | Text(lit: seq<byte>)

  function Rendered(segs: seq<Segment>, matched: seq<byte>): seq<byte> {
    if segs == [] then []
    else (if segs[0].Matched? then matched else segs[0].lit) + Rendered(segs[1..], matched)
  }

  method RenderRepl(segs: seq<Segment>, matched: seq<byte>) returns (r: seq<byte>)
    ensures r == Rendered(segs, matched)
    ensures InPlace(segs, matched, r)
  {
    RenderedInPlace(segs, matched);
    hide InPlace;
    if |segs| == 0 {
      return [];
    }
    if |segs| == 1 && !segs[0].Matched? {
      return segs[0].lit;
    }
    r := [];
    for k := 0 to |segs|
      invariant r + Rendered(segs[k..], matched) == Rendered(segs, matched)
    {
      assert segs[k..][1..] == segs[k + 1..];
      var piece := if segs[k].Matched? then matched else segs[k].lit;
      assert r + (piece + Rendered(segs[k + 1..], matched)) == (r + piece) + Rendered(segs[k + 1..], matched);
      r := r + piece;
    }
  }

  lemma RenderedOne(seg: Segment, m: seq<byte>)
    ensures Rendered([seg], m) == if seg == Matched then m else seg.lit
  {
    assert [seg][1..] == [];
  }

  /** Rendering goes segment by segment, in order: with the renderings of a lone text and of a lone
      placeholder this leaves one rendering for each template. */
  lemma {:induction false} RenderedAppend(a: seq<Segment>, b: seq<Segment>, m: seq<byte>)
    ensures Rendered(a + b, m) == Rendered(a, m) + Rendered(b, m)
    ensures Rendered([], m) == []
    ensures forall t :: Rendered([Text(t)], m) == t
    ensures Rendered([Matched], m) == m
  {
    forall t ensures Rendered([Text(t)], m) == t { RenderedOne(Text(t), m); }
    RenderedOne(Matched, m);
    if a == [] {
      assert a + b == b;
    } else {
      assert (a + b)[1..] == a[1..] + b;
      RenderedAppend(a[1..], b, m);
      Regroup(if a[0] == Matched then m else a[0].lit, Rendered(a[1..], m), Rendered(b, m));
    }
  }

  /** The text of each segment stands between the renderings of those before it and of those behind it. */
  lemma RenderedAt(segs: seq<Segment>, k: nat, m: seq<byte>)
    requires k < |segs|
    ensures Rendered(segs, m) ==
            Rendered(segs[..k], m) + (if segs[k] == Matched then m else segs[k].lit) + Rendered(segs[k + 1..], m)
  {
    assert segs == segs[..k] + [segs[k]] + segs[k + 1..];
    RenderedAppend(segs[..k] + [segs[k]], segs[k + 1..], m);
    RenderedAppend(segs[..k], [segs[k]], m);
    RenderedOne(segs[k], m);
  }

  /** The text of every segment is in its place. */
  ghost predicate InPlace(segs: seq<Segment>, m: seq<byte>, r: seq<byte>) {
    forall k :: 0 <= k < |segs| ==>
      r == Rendered(segs[..k], m) + (if segs[k] == Matched then m else segs[k].lit) + Rendered(segs[k + 1..], m)
  }

  lemma RenderedInPlace(segs: seq<Segment>, m: seq<byte>)
    ensures InPlace(segs, m, Rendered(segs, m))
  {
    hide Rendered;
    forall k | 0 <= k < |segs|
      ensures Rendered(segs, m) ==
              Rendered(segs[..k], m) + (if segs[k] == Matched then m else segs[k].lit) + Rendered(segs[k + 1..], m)
    {
      RenderedAt(segs, k, m);
    }
  }

  /** `<&>` puts brackets around the match. */
  lemma BracketsRendered(m: seq<byte>)
    ensures Rendered([Text([0x3C]), Matched, Text([0x3E])], m) == [0x3C] + m + [0x3E]
  {
    assert [Text([0x3C]), Matched, Text([0x3E])] == [Text([0x3C])] + [Matched] + [Text([0x3E])];
    RenderedAppend([Text([0x3C])] + [Matched], [Text([0x3E])], m);
    RenderedAppend([Text([0x3C])], [Matched], m);
    RenderedOne(Text([0x3C]), m);
    RenderedOne(Text([0x3E]), m);
  }

  predicate HasMatch(segs: seq<Segment>) {
    exists k :: 0 <= k < |segs| && segs[k].Matched?
  }

  /** Without a match placeholder the replacement is one text for every match. */
  lemma {:induction false} RenderedAlike(segs: seq<Segment>, a: seq<byte>, b: seq<byte>)
    requires !HasMatch(segs)
    ensures Rendered(segs, a) == Rendered(segs, b)
  {
    if segs != [] {
      assert forall k :: 0 <= k < |segs[1..]| ==> segs[1..][k] == segs[k + 1];
      RenderedAlike(segs[1..], a, b);
    }
  }

  predicate InOrder(locs: seq<Span>, from: nat, size: nat) {
    locs == [] || (from <= locs[0].start <= locs[0].end <= size && InOrder(locs[1..], locs[0].end, size))
  }

  /** The text from an offset on, with each span replaced. */
  function Replaced(elem: seq<byte>, locs: seq<Span>, from: nat, segs: seq<Segment>): seq<byte>
    requires from <= |elem| && InOrder(locs, from, |elem|)
  {
    if locs == [] then elem[from..]
    else
      var s := locs[0];
      elem[from..s.start] + Rendered(segs, elem[s.start..s.end]) + Replaced(elem, locs[1..], s.end, segs)
  }

  lemma {:induction false} FoundInOrder(tokens: seq<Token>, name: seq<byte>, locs: seq<Span>, k: nat)
    requires Found(tokens, name, locs) && k <= |locs|
    ensures InOrder(locs[k..], if k == 0 then 0 else locs[k - 1].end, |name|)
    decreases |locs| - k
  {
    hide Globs, Gap;
    if k < |locs| {
      FoundInOrder(tokens, name, locs, k + 1);
      assert locs[k..][1..] == locs[k + 1..];
      assert FoundAt(tokens, name, locs, k);
      if k > 0 {
        SpansOrdered(tokens, name, locs, k - 1, k);
      }
    }
  }

  /** The loop over the spans found in one element. */
  method ReplaceSpans(elem: seq<byte>, locs: seq<Span>, segs: seq<Segment>) returns (out: seq<byte>)
    requires InOrder(locs, 0, |elem|)
    ensures out == Replaced(elem, locs, 0, segs)
  {
    hide Replaced, Rendered, HasMatch;
    var matchSpecial := HasMatch(segs);
    var with := RenderRepl(segs, []);
    var last: nat := 0;
    out := [];
    assert locs[0..] == locs;
    for k := 0 to |locs|
      invariant last <= |elem| && InOrder(locs[k..], last, |elem|)
      invariant out + Replaced(elem, locs[k..], last, segs) == Replaced(elem, locs, 0, segs)
    {
      var loc := locs[k];
      assert locs[k..][0] == loc && locs[k..][1..] == locs[k + 1..];
      ReplacedStep(elem, locs[k..], last, segs);
      ghost var was := out;
      out := out + elem[last..loc.start];
      ghost var kept := elem[last..loc.start];
      ghost var put := Rendered(segs, elem[loc.start..loc.end]);
      if matchSpecial {
        var text := RenderRepl(segs, elem[loc.start..loc.end]);
        out := out + text;
      } else {
        RenderedAlike(segs, [], elem[loc.start..loc.end]);
        out := out + with;
      }
      Regroup(was, kept + put, Replaced(elem, locs[k + 1..], loc.end, segs));
      Regroup(was, kept, put);
      last := loc.end;
    }
    ReplacedNothing(elem, last, segs);
    assert locs[|locs|..] == [];
    out := out + elem[last..];
  }

  lemma ReplacedStep(elem: seq<byte>, locs: seq<Span>, from: nat, segs: seq<Segment>)
    requires from <= |elem| && InOrder(locs, from, |elem|) && locs != []
    ensures Replaced(elem, locs, from, segs) ==
            elem[from..locs[0].start] + Rendered(segs, elem[locs[0].start..locs[0].end])
            + Replaced(elem, locs[1..], locs[0].end, segs)
  {
    hide Rendered;
  }

  lemma ReplacedNothing(elem: seq<byte>, from: nat, segs: seq<Segment>)
    requires from <= |elem|
    ensures Replaced(elem, [], from, segs) == elem[from..]
  {
  }

  lemma {:induction false} InOrderSplit(locs: seq<Span>, from: nat, size: nat, k: nat)
    requires InOrder(locs, from, size) && k < |locs|
    ensures from <= locs[k].start <= locs[k].end <= size
    ensures InOrder(locs[..k], from, locs[k].start) && InOrder(locs[k + 1..], locs[k].end, size)
    decreases k
  {
    if k > 0 {
      InOrderSplit(locs[1..], locs[0].end, size, k - 1);
      assert locs[..k][1..] == locs[1..][..k - 1] && locs[1..][k..] == locs[k + 1..];
    }
  }

  /** Each span is replaced by the rendering of its own text, between what becomes of the text before it and
      of the text behind it; text without a span is kept. */
  lemma {:induction false} ReplacedAt(elem: seq<byte>, locs: seq<Span>, from: nat, segs: seq<Segment>, k: nat)
    requires from <= |elem| && InOrder(locs, from, |elem|) && k < |locs|
    ensures var s := locs[k];
            && from <= s.start <= s.end <= |elem|
            && InOrder(locs[..k], from, s.start) && InOrder(locs[k + 1..], s.end, |elem|)
            && Replaced(elem, locs, from, segs) ==
               Replaced(elem[..s.start], locs[..k], from, segs) + Rendered(segs, elem[s.start..s.end])
               + Replaced(elem, locs[k + 1..], s.end, segs)
    ensures Replaced(elem, [], from, segs) == elem[from..]
    decreases k
  {
    hide Rendered;
    InOrderSplit(locs, from, |elem|, k);
    var s := locs[k];
    var before := elem[..s.start];
    ReplacedStep(elem, locs, from, segs);
    if k == 0 {
      ReplacedNothing(before, from, segs);
      assert before[from..] == elem[from..s.start] && locs[..0] == [];
    } else {
      var r := locs[0];
      ReplacedAt(elem, locs[1..], r.end, segs, k - 1);
      assert locs[..k][1..] == locs[1..][..k - 1] && locs[1..][k..] == locs[k + 1..];
      ReplacedStep(before, locs[..k], from, segs);
      assert before[from..r.start] == elem[from..r.start] && before[r.start..r.end] == elem[r.start..r.end];
      var head := elem[from..r.start] + Rendered(segs, elem[r.start..r.end]);
      var a, b, c := Replaced(before, locs[1..][..k - 1], r.end, segs), Rendered(segs, elem[s.start..s.end]),
          Replaced(elem, locs[k + 1..], s.end, segs);
      Regroup(head, a + b, c);
      Regroup(head, a, b);
    }
  }

  /** Replacing each span by its own text rebuilds the value. */
  lemma {:induction false} ReplacingByMatchIsIdentity(elem: seq<byte>, locs: seq<Span>, from: nat, segs: seq<Segment>)
    requires from <= |elem| && InOrder(locs, from, |elem|)
    requires forall m :: Rendered(segs, m) == m
    ensures Replaced(elem, locs, from, segs) == elem[from..]
    decreases |locs|
  {
    hide Rendered;
    if locs != [] {
      ReplacedStep(elem, locs, from, segs);
      var s := locs[0];
      ReplacingByMatchIsIdentity(elem, locs[1..], s.end, segs);
      assert Rendered(segs, elem[s.start..s.end]) == elem[s.start..s.end];
      assert elem[from..s.start] + elem[s.start..s.end] + elem[s.end..] == elem[from..];
    }
  }

  lemma PlaceholderRendersMatch(m: seq<byte>)
    ensures Rendered([Matched], m) == m
  {
    assert [Matched][1..] == [];
  }

  /** Searching a value and replacing what is found by the match placeholder gives the value back. */
  method ReplaceAllByMatch(pat: seq<byte>, elem: seq<byte>, n: int, nocase: bool) returns (out: seq<byte>)
    ensures out == elem
  {
    hide Parse, Found, IsFind, Replaced, Rendered, InOrder;
    var locs := FindReplIndexBytes(pat, elem, n, false, false, nocase);
    FindIsFound(Parse(pat, nocase), elem, n, locs);
    FoundInOrder(Parse(pat, nocase), elem, locs, 0);
    assert locs[0..] == locs;
    out := ReplaceSpans(elem, locs, [Matched]);
    forall m ensures Rendered([Matched], m) == m {
      PlaceholderRendersMatch(m);
    }
    ReplacingByMatchIsIdentity(elem, locs, 0, [Matched]);
    assert elem[0..] == elem;
  }

  lemma FindIsFound(tokens: seq<Token>, name: seq<byte>, n: int, locs: seq<Span>)
    requires IsFind(tokens, name, n, locs)
    ensures Found(tokens, name, locs)
  {
  }

  // ---------- Removing a prefix or a suffix ----------

  predicate Points(points: seq<nat>, size: nat) {
    (forall k :: 0 <= k < |points| ==> points[k] <= size) &&
    forall k, l :: 0 <= k < l < |points| ==> points[k] <= points[l]
  }

  predicate PrefixHit(str: seq<byte>, matches: seq<byte> -> bool, i: nat) {
    i <= |str| && matches(str[..i])
  }

  predicate SuffixHit(str: seq<byte>, matches: seq<byte> -> bool, i: nat) {
    i <= |str| && matches(str[i..])
  }

  /** What is left when a prefix goes: the first cut whose prefix matches, or the last. */
  ghost predicate CutsPrefix(r: seq<byte>, str: seq<byte>, points: seq<nat>, matches: seq<byte> -> bool, shortest: bool) {
    exists i :: i in points && PrefixHit(str, matches, i) && r == str[i..] &&
                forall k :: k in points && PrefixHit(str, matches, k) ==> if shortest then i <= k else k <= i
  }

  /** What is left when a suffix goes: the last cut whose suffix matches, or the first. */
  ghost predicate CutsSuffix(r: seq<byte>, str: seq<byte>, points: seq<nat>, matches: seq<byte> -> bool, shortest: bool) {
    exists i :: i in points && SuffixHit(str, matches, i) && r == str[..i] &&
                forall k :: k in points && SuffixHit(str, matches, k) ==> if shortest then k <= i else i <= k
  }

  lemma PrefixCut(str: seq<byte>, points: seq<nat>, matches: seq<byte> -> bool, shortest: bool, k: nat)
    requires Points(points, |str|) && k < |points| && PrefixHit(str, matches, points[k])
    requires forall l :: 0 <= l < |points| && (if shortest then l < k else k < l) ==> !PrefixHit(str, matches, points[l])
    ensures CutsPrefix(str[points[k]..], str, points, matches, shortest)
    ensures exists i :: i in points && PrefixHit(str, matches, i)
  {
    hide PrefixHit;
    var i := points[k];
    assert i in points;
    forall j | j in points && PrefixHit(str, matches, j) ensures if shortest then i <= j else j <= i {
      var l :| 0 <= l < |points| && points[l] == j;
    }
  }

  method RemovePrefix(str: seq<byte>, points: seq<nat>, matches: seq<byte> -> bool, shortest: bool)
    returns (r: seq<byte>)
    requires Points(points, |str|)
    ensures if exists k :: k in points && PrefixHit(str, matches, k) then CutsPrefix(r, str, points, matches, shortest)
            else r == str
  {
    hide CutsPrefix;
    if shortest {
      for k := 0 to |points|
        invariant forall l :: 0 <= l < k ==> !PrefixHit(str, matches, points[l])
      {
        if matches(str[..points[k]]) {
          PrefixCut(str, points, matches, shortest, k);
          return str[points[k]..];
        }
      }
    } else {
      for k := |points| downto 0
        invariant forall l :: k <= l < |points| ==> !PrefixHit(str, matches, points[l])
      {
        if matches(str[..points[k]]) {
          PrefixCut(str, points, matches, shortest, k);
          return str[points[k]..];
        }
      }
    }
    return str;
  }

  lemma SuffixCut(str: seq<byte>, points: seq<nat>, matches: seq<byte> -> bool, shortest: bool, k: nat)
    requires Points(points, |str|) && k < |points| && SuffixHit(str, matches, points[k])
    requires forall l :: 0 <= l < |points| && (if shortest then k < l else l < k) ==> !SuffixHit(str, matches, points[l])
    ensures CutsSuffix(str[..points[k]], str, points, matches, shortest)
    ensures exists i :: i in points && SuffixHit(str, matches, i)
  {
    hide SuffixHit;
    var i := points[k];
    assert i in points;
    forall j | j in points && SuffixHit(str, matches, j) ensures if shortest then j <= i else i <= j {
      var l :| 0 <= l < |points| && points[l] == j;
    }
  }

  method RemoveSuffix(str: seq<byte>, points: seq<nat>, matches: seq<byte> -> bool, shortest: bool)
    returns (r: seq<byte>)
    requires Points(points, |str|)
    ensures if exists k :: k in points && SuffixHit(str, matches, k) then CutsSuffix(r, str, points, matches, shortest)
            else r == str
  {
    hide CutsSuffix;
    if shortest {
      for k := |points| downto 0
        invariant forall l :: k <= l < |points| ==> !SuffixHit(str, matches, points[l])
      {
        if matches(str[points[k]..]) {
          SuffixCut(str, points, matches, shortest, k);
          return str[..points[k]];
        }
      }
    } else {
      for k := 0 to |points|
        invariant forall l :: 0 <= l < k ==> !SuffixHit(str, matches, points[l])
      {
        if matches(str[points[k]..]) {
          SuffixCut(str, points, matches, shortest, k);
          return str[..points[k]];
        }
      }
    }
    return str;
  }

  /** A place between two runes, as the decoder reads the string. */
  predicate Boundary(s: seq<byte>, i: nat)
    decreases |s|
  {
    i == 0 || (s != [] && Width(s) <= i <= |s| && Boundary(s[Width(s)..], i - Width(s)))
  }

  predicate BoundaryFrom(s: seq<byte>, i: nat, k: nat)
    requires i <= |s|
  {
    k >= i && Boundary(s[i..], k - i)
  }

  lemma BoundaryStep(s: seq<byte>, i: nat, k: nat)
    requires i < |s|
    ensures BoundaryFrom(s, i, k) <==> k == i || BoundaryFrom(s, i + Width(s[i..]), k)
  {
    assert s[i..][Width(s[i..])..] == s[i + Width(s[i..])..];
  }

  method RuneSplitPoints(s: seq<byte>) returns (points: seq<nat>)
    ensures Points(points, |s|)
    ensures forall i: nat :: i in points <==> Boundary(s, i)
  {
    hide Boundary, Width, BoundaryFrom;
    points := [0];
    var i := 0;
    BoundaryStart(s);
    while i < |s|
      invariant i <= |s| && Points(points, |s|)
      invariant |points| > 0 && points[0] == 0 && forall l :: 0 <= l < |points| ==> points[l] <= i
      invariant forall k: nat :: Boundary(s, k) <==> k in points || BoundaryFrom(s, i, k)
      decreases |s| - i
    {
      forall k: nat ensures BoundaryFrom(s, i, k) <==> k == i || BoundaryFrom(s, i + Width(s[i..]), k) {
        BoundaryStep(s, i, k);
      }
      if i > 0 {
        points := points + [i];
      }
      i := i + Width(s[i..]);
    }
    BoundaryEnd(s);
    points := points + [|s|];
  }

  lemma BoundaryStart(s: seq<byte>)
    ensures Boundary(s, 0) && forall k: nat :: Boundary(s, k) <==> BoundaryFrom(s, 0, k)
  {
    assert s[0..] == s;
  }

  lemma BoundaryEnd(s: seq<byte>)
    ensures forall k: nat :: BoundaryFrom(s, |s|, k) <==> k == |s|
  {
    assert s[|s|..] == [];
  }

  method ByteSplitPoints(s: seq<byte>) returns (points: seq<nat>)
    ensures Points(points, |s|)
    ensures forall i: nat :: i in points <==> i <= |s|
  {
    points := [];
    for i := 0 to |s| + 1
      invariant |points| == i && forall k :: 0 <= k < i ==> points[k] == k
    {
      points := points + [i];
    }
    forall i: nat ensures i in points <==> i <= |s| {
      if i <= |s| {
        assert points[i] == i;
      }
    }
  }
}
