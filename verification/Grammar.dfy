/** The two interpreters of a published grammar (grammar/grammar.go): the deterministic match, which
    mutates a trail and a depth, and the backtracking matchAll, which keeps every way to match. */
module Grammar {
  import opened Common

  datatype Node =
    | Lit(text: string)
    | Class(neg: bool, ranges: seq<(char, char)>)
    | Ref(name: string)
    | Seq(items: seq<Node>)
    | Alt(items: seq<Node>)
    | Rep(body: Node, min: nat, max: int)   // a negative max is no maximum

  /** A recognized production of the delta. */
  datatype Span = Span(rule: string, pos: nat, end: nat)

  /** Published rules, the names bound to Go code, and the rules recorded on the trail. A hook is told
      the source and a position, and answers the end of its match. */
  datatype Rules = Rules(
    rules: map<string, Node>,
    hooked: set<string>,
    hook: (string, string, nat) -> Option<nat>,
    reported: set<string>)

  const MAX_DEPTH: nat := 20000

  ghost predicate HooksOk(g: Rules) {
    forall name, src, pos: nat :: name in g.hooked && pos <= |src| && g.hook(name, src, pos).Some? ==>
      pos <= g.hook(name, src, pos).value <= |src|
  }

  predicate HasPrefixAt(src: string, pos: nat, text: string) {
    pos + |text| <= |src| && src[pos..pos + |text|] == text
  }

  predicate InClass(c: Node, b: char)
    requires c.Class?
  {
    c.neg != (exists i :: 0 <= i < |c.ranges| && c.ranges[i].0 <= b <= c.ranges[i].1)
  }

  // ---------- The deterministic match as a function ----------

  /** Whether a node matched, where the match ends (where it began, on failure), and the spans it
      left on the trail. */
  datatype Outcome = Outcome(ok: bool, end: nat, spans: seq<Span>)

  function Recorded(g: Rules, name: string, pos: nat, end: nat): seq<Span> {
    if name in g.reported then [Span(name, pos, end)] else []
  }

  function Match(g: Rules, n: Node, src: string, pos: nat, depth: nat): (r: Outcome)
    requires HooksOk(g) && pos <= |src| && depth <= MAX_DEPTH
    ensures pos <= r.end <= |src|
    ensures !r.ok ==> r.end == pos
    decreases MAX_DEPTH - depth, n, 0
  {
    match n
    case Lit(text) => if HasPrefixAt(src, pos, text) then Outcome(true, pos + |text|, []) else Outcome(false, pos, [])
    case Class(_, _) => if pos < |src| && InClass(n, src[pos]) then Outcome(true, pos + 1, []) else Outcome(false, pos, [])
    case Ref(name) =>
      if name in g.hooked then
        var e := g.hook(name, src, pos);
        if e.Some? then Outcome(true, e.value, []) else Outcome(false, pos, [])
      else if depth >= MAX_DEPTH || name !in g.rules then Outcome(false, pos, [])
      else
        var r := Match(g, g.rules[name], src, pos, depth + 1);
        if r.ok then Outcome(true, r.end, r.spans + Recorded(g, name, pos, r.end)) else Outcome(false, pos, [])
    case Seq(items) =>
      var r := MatchSeq(g, items, src, pos, depth);
      if r.ok then r else Outcome(false, pos, [])
    case Alt(items) => MatchAlt(g, items, src, pos, depth)
    case Rep(body, min, max) =>
      var r := MatchRep(g, body, max, src, pos, depth);
      Outcome(r.count >= min, if r.count >= min then r.end else pos, r.spans)
  }

  function MatchSeq(g: Rules, items: seq<Node>, src: string, pos: nat, depth: nat): (r: Outcome)
    requires HooksOk(g) && pos <= |src| && depth <= MAX_DEPTH
    ensures pos <= r.end <= |src|
    decreases MAX_DEPTH - depth, items, 0
  {
    if items == [] then Outcome(true, pos, [])
    else
      var r := Match(g, items[0], src, pos, depth);
      if !r.ok then Outcome(false, pos, [])
      else
        var q := MatchSeq(g, items[1..], src, r.end, depth);
        Outcome(q.ok, q.end, r.spans + q.spans)
  }

  function MatchAlt(g: Rules, items: seq<Node>, src: string, pos: nat, depth: nat): (r: Outcome)
    requires HooksOk(g) && pos <= |src| && depth <= MAX_DEPTH
    ensures pos <= r.end <= |src|
    ensures !r.ok ==> r.end == pos && r.spans == []
    decreases MAX_DEPTH - depth, items, 0
  {
    if items == [] then Outcome(false, pos, [])
    else
      var r := Match(g, items[0], src, pos, depth);
      if r.ok then r else MatchAlt(g, items[1..], src, pos, depth)
  }

  datatype Repeated = Repeated(count: nat, end: nat, spans: seq<Span>)

  /** Greedy repetition: stops at the first failure, at the first empty match, or at the maximum. */
  function MatchRep(g: Rules, body: Node, max: int, src: string, pos: nat, depth: nat): (r: Repeated)
    requires HooksOk(g) && pos <= |src| && depth <= MAX_DEPTH
    ensures pos <= r.end <= |src|
    ensures r.count == 0 ==> r.spans == []
    decreases MAX_DEPTH - depth, body, 1, |src| - pos
  {
    if max == 0 then Repeated(0, pos, [])
    else
      var r := Match(g, body, src, pos, depth);
      if !r.ok || r.end == pos then Repeated(0, pos, [])
      else
        var q := MatchRep(g, body, max - 1, src, r.end, depth);
        Repeated(q.count + 1, q.end, r.spans + q.spans)
  }

  /** A failed match leaves the trail as it was, unless the node itself is a repetition that needs two
      or more. The grammar syntax has only `*`, `+` and `?`, whose minimum is 0 or 1. */
  lemma FailureKeepsTrail(g: Rules, n: Node, src: string, pos: nat, depth: nat)
    requires HooksOk(g) && pos <= |src| && depth <= MAX_DEPTH
    requires n.Rep? ==> n.min <= 1
    ensures !Match(g, n, src, pos, depth).ok ==> Match(g, n, src, pos, depth).spans == []
  {
  }

  /** A repetition that needs two leaves the span of the first behind when there is no second. */
  lemma TwoRepetitionsLeak(g: Rules)
    requires HooksOk(g) && g.rules == map["x" := Lit("x")] && g.reported == {"x"} && g.hooked == {}
    ensures var r := Match(g, Rep(Ref("x"), 2, -1), "x", 0, 0);
            !r.ok && r.spans == [Span("x", 0, 1)]
  {
    var x := Ref("x");
    assert Match(g, Lit("x"), "x", 0, 1) == Outcome(true, 1, []);
    assert Match(g, x, "x", 0, 0) == Outcome(true, 1, [Span("x", 0, 1)]);
    assert !Match(g, Lit("x"), "x", 1, 1).ok;
    assert !Match(g, x, "x", 1, 0).ok;
    assert MatchRep(g, x, -2, "x", 1, 0) == Repeated(0, 1, []);
  }

  // ---------- The fence hook ----------

  /** src[i..end] is a whole line of the text after an opener that ends at from. */
  predicate IsLine(src: string, from: nat, i: nat, end: nat) {
    && from <= i <= end < |src| && src[end] == '\n'
    && (i == from || src[i - 1] == '\n')
    && forall k :: i <= k < end ==> src[k] != '\n'
  }

  predicate IsCloser(src: string, from: nat, delim: string, i: nat, end: nat) {
    IsLine(src, from, i, end) && src[i..end] == delim
  }

  /** The end of the run of tildes at pos. */
  function TildesEnd(src: string, pos: nat): (end: nat)
    requires pos <= |src|
    ensures pos <= end <= |src| && (forall k :: pos <= k < end ==> src[k] == '~')
    ensures end < |src| ==> src[end] != '~'
    decreases |src| - pos
  {
    if pos < |src| && src[pos] == '~' then TildesEnd(src, pos + 1) else pos
  }

  /** The first closing line ends just before r. */
  ghost predicate ClosesAt(src: string, from: nat, delim: string, r: nat) {
    exists i: nat, e: nat :: r == e + 1 && IsCloser(src, from, delim, i, e) && NoneBefore(src, from, delim, i)
  }

  ghost predicate NoneBefore(src: string, from: nat, delim: string, limit: nat) {
    forall j: nat, e: nat :: j < limit ==> !IsCloser(src, from, delim, j, e)
  }

  method IndexOfNewline(src: string, from: nat) returns (end: Option<nat>)
    requires from <= |src|
    ensures end.Some? ==> from <= end.value < |src| && src[end.value] == '\n' && forall k :: from <= k < end.value ==> src[k] != '\n'
    ensures end.None? ==> forall k :: from <= k < |src| ==> src[k] != '\n'
  {
    for i := from to |src|
      invariant forall k :: from <= k < i ==> src[k] != '\n'
    {
      if src[i] == '\n' { return Some(i); }
    }
    return None;
  }

  /** fenceLexeme: a fence runs through the first later line that is exactly its opener's tildes; any
      other width is body text, and a fence without such a line is no fence. open is the end of the
      opener, when the published opener rule matches. */
  method FenceLexeme(src: string, pos: nat, open: Option<nat>) returns (r: Option<nat>)
    requires pos <= |src| && (open.Some? ==> pos <= open.value <= |src|)
    ensures r.Some? ==> open.Some? && pos <= r.value <= |src|
    ensures r.Some? ==> ClosesAt(src, open.value, src[pos..TildesEnd(src, pos)], r.value)
    ensures r.None? && open.Some? ==> NoneBefore(src, open.value, src[pos..TildesEnd(src, pos)], |src|)
  {
    if open.None? { return None; }
    var from := open.value;
    var width := pos;
    while width < |src| && src[width] == '~'
      invariant pos <= width <= |src| && TildesEnd(src, pos) == TildesEnd(src, width)
    {
      width := width + 1;
    }
    var delim := src[pos..width];
    var i := from;
    while i < |src|
      invariant from <= i <= |src| && (i == from || src[i - 1] == '\n')
      invariant NoneBefore(src, from, delim, i)
    {
      var end := IndexOfNewline(src, i);
      if end.None? {
        assert NoneBefore(src, from, delim, |src|) by {
          forall j: nat, e: nat | j < |src| ensures !IsCloser(src, from, delim, j, e) {}
        }
        return None;
      }
      if src[i..end.value] == delim {
        assert IsCloser(src, from, delim, i, end.value);
        return Some(end.value + 1);
      }
      forall j: nat, e: nat | j < end.value + 1 ensures !IsCloser(src, from, delim, j, e) {
        assert i < j && j <= end.value ==> src[j - 1] != '\n';
      }
      i := end.value + 1;
    }
    return None;
  }

  // ---------- The deterministic match as the source runs it ----------

  class Matcher {
    const g: Rules
    const src: string
    var trail: seq<Span>
    var farthest: nat
    var depth: nat

    constructor (g: Rules, src: string)
      ensures this.g == g && this.src == src && trail == [] && farthest == 0 && depth == 0
    {
      this.g, this.src, trail, farthest, depth := g, src, [], 0, 0;
    }

    method MatchNode(n: Node, pos: nat) returns (end: nat, ok: bool)
      requires HooksOk(g) && pos <= |src| && depth <= MAX_DEPTH
      modifies this
      ensures depth == old(depth) && farthest >= old(farthest)
      ensures var r := Match(g, n, src, pos, depth);
              ok == r.ok && end == r.end && trail == old(trail) + r.spans
      decreases MAX_DEPTH - depth, n, 1
    {
      match n
      case Lit(text) =>
        ok := HasPrefixAt(src, pos, text);
        end := if ok then pos + |text| else pos;
      case Class(_, _) =>
        ok := pos < |src| && InClass(n, src[pos]);
        end := if ok then pos + 1 else pos;
      case Ref(name) => end, ok := MatchRef(n, pos);
      case Seq(items) => end, ok := MatchSeqNode(n, pos);
      case Alt(items) => end, ok := MatchAltNode(n, pos);
      case Rep(_, _, _) => end, ok := MatchRepNode(n, pos);
    }

    method MatchRef(n: Node, pos: nat) returns (end: nat, ok: bool)
      requires n.Ref? && HooksOk(g) && pos <= |src| && depth <= MAX_DEPTH
      modifies this
      ensures depth == old(depth) && farthest >= old(farthest)
      ensures var r := Match(g, n, src, pos, depth);
              ok == r.ok && end == r.end && trail == old(trail) + r.spans
      decreases MAX_DEPTH - depth, n, 0
    {
      end, ok := pos, false;
      if n.name in g.hooked {
        var e := g.hook(n.name, src, pos);
        if e.Some? { end, ok := e.value, true; }
        return;
      }
      depth := depth + 1;
      if depth > MAX_DEPTH || n.name !in g.rules {
        depth := depth - 1;
        return;
      }
      var mark := |trail|;
      end, ok := MatchNode(g.rules[n.name], pos);
      depth := depth - 1;
      if !ok {
        trail := trail[..mark];
        end := pos;
        return;
      }
      if n.name in g.reported {
        trail := trail + [Span(n.name, pos, end)];
      }
    }

    method MatchSeqNode(n: Node, pos: nat) returns (end: nat, ok: bool)
      requires n.Seq? && HooksOk(g) && pos <= |src| && depth <= MAX_DEPTH
      modifies this
      ensures depth == old(depth) && farthest >= old(farthest)
      ensures var r := Match(g, n, src, pos, depth);
              ok == r.ok && end == r.end && trail == old(trail) + r.spans
      decreases MAX_DEPTH - depth, n, 0
    {
      var mark, cur := |trail|, pos;
      ghost var whole := MatchSeq(g, n.items, src, pos, depth);
      ghost var acc: seq<Span> := [];
      for i := 0 to |n.items|
        invariant depth == old(depth) && pos <= cur <= |src| && farthest >= old(farthest)
        invariant trail == old(trail) + acc
        invariant var q := MatchSeq(g, n.items[i..], src, cur, depth);
                  whole.ok == q.ok && (q.ok ==> whole.end == q.end && whole.spans == acc + q.spans)
      {
        assert n.items[i..][1..] == n.items[i + 1..];
        ghost var r := Match(g, n.items[i], src, cur, depth);
        var e, matched := MatchNode(n.items[i], cur);
        if !matched {
          trail := trail[..mark];
          if cur > farthest { farthest := cur; }
          return pos, false;
        }
        assert forall q: seq<Span> :: acc + (r.spans + q) == (acc + r.spans) + q;
        cur := e;
        acc := acc + r.spans;
      }
      return cur, true;
    }

    method MatchAltNode(n: Node, pos: nat) returns (end: nat, ok: bool)
      requires n.Alt? && HooksOk(g) && pos <= |src| && depth <= MAX_DEPTH
      modifies this
      ensures depth == old(depth) && farthest >= old(farthest)
      ensures var r := Match(g, n, src, pos, depth);
              ok == r.ok && end == r.end && trail == old(trail) + r.spans
      decreases MAX_DEPTH - depth, n, 0
    {
      for i := 0 to |n.items|
        invariant depth == old(depth) && farthest >= old(farthest) && trail == old(trail)
        invariant MatchAlt(g, n.items, src, pos, depth) == MatchAlt(g, n.items[i..], src, pos, depth)
      {
        assert n.items[i..][1..] == n.items[i + 1..];
        var mark := |trail|;
        var e, matched := MatchNode(n.items[i], pos);
        if matched { return e, true; }
        trail := trail[..mark];
      }
      return pos, false;
    }

    method MatchRepNode(n: Node, pos: nat) returns (end: nat, ok: bool)
      requires n.Rep? && HooksOk(g) && pos <= |src| && depth <= MAX_DEPTH
      modifies this
      ensures depth == old(depth) && farthest >= old(farthest)
      ensures var r := Match(g, n, src, pos, depth);
              ok == r.ok && end == r.end && trail == old(trail) + r.spans
      decreases MAX_DEPTH - depth, n, 0
    {
      var cur, count := pos, 0;
      ghost var whole := MatchRep(g, n.body, n.max, src, pos, depth);
      ghost var acc: seq<Span> := [];
      while n.max < 0 || count < n.max
        invariant depth == old(depth) && pos <= cur <= |src| && farthest >= old(farthest)
        invariant count >= 0 && (n.max >= 0 ==> count <= n.max)
        invariant trail == old(trail) + acc
        invariant var q := MatchRep(g, n.body, n.max - count, src, cur, depth);
                  whole == Repeated(count + q.count, q.end, acc + q.spans)
        decreases |src| - cur
      {
        var mark := |trail|;
        ghost var r := Match(g, n.body, src, cur, depth);
        var e, matched := MatchNode(n.body, cur);
        if !matched || e == cur {
          trail := trail[..mark];
          break;
        }
        assert forall q: seq<Span> :: acc + (r.spans + q) == (acc + r.spans) + q;
        cur := e;
        count := count + 1;
        acc := acc + r.spans;
      }
      if count < n.min { return pos, false; }
      return cur, true;
    }
  }
}
