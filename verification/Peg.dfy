/** What the deterministic match of a grammar means (grammar/grammar.go): a relation between a node and its
    outcome, failures included, that does not follow the matcher step by step. */
module Peg {
  import opened Common
  import opened Grammar

  // ---------- The relation ----------

  /** Where the k-th outcome starts: at the end of the one before it. */
  function StartOf(outs: seq<Outcome>, k: nat, pos: nat): nat
    requires k <= |outs|
  {
    if k == 0 then pos else outs[k - 1].end
  }

  function AllSpans(outs: seq<Outcome>): seq<Span> {
    if outs == [] then [] else AllSpans(outs[..|outs| - 1]) + outs[|outs| - 1].spans
  }

  predicate Failure(o: Outcome, pos: nat) { o == Outcome(false, pos, []) }

  /** A literal stands here. */
  predicate Stands(text: string, src: string, pos: nat) {
    pos + |text| <= |src| && forall k :: 0 <= k < |text| ==> src[pos + k] == text[k]
  }

  /** The byte is in some range, or in none if the class is negated. */
  predicate Accepts(c: Node, b: char)
    requires c.Class?
  {
    if c.neg then forall i :: 0 <= i < |c.ranges| ==> b < c.ranges[i].0 || c.ranges[i].1 < b
    else exists i :: 0 <= i < |c.ranges| && c.ranges[i].0 <= b && b <= c.ranges[i].1
  }

  /** One byte or literal, or a hook. */
  predicate LeafResult(g: Rules, n: Node, src: string, pos: nat, o: Outcome)
    requires pos <= |src| && (n.Lit? || n.Class? || n.Ref?)
  {
    match n
    case Lit(text) => if Stands(text, src, pos) then o == Outcome(true, pos + |text|, []) else Failure(o, pos)
    case Class(_, _) => if pos < |src| && Accepts(n, src[pos]) then o == Outcome(true, pos + 1, []) else Failure(o, pos)
    case Ref(name) =>
      match g.hook(name, src, pos)
      case Some(end) => o == Outcome(true, end, [])
      case None => Failure(o, pos)
  }

  /** The node has this outcome at this position: whether it matches, where that ends, and which spans it leaves. */
  ghost predicate Result(g: Rules, n: Node, src: string, pos: nat, depth: nat, o: Outcome)
    requires pos <= |src| && depth <= MAX_DEPTH
    decreases MAX_DEPTH - depth, n, 0
  {
    match n
    case Lit(_) => LeafResult(g, n, src, pos, o)
    case Class(_, _) => LeafResult(g, n, src, pos, o)
    case Ref(name) =>
      if name in g.hooked then LeafResult(g, n, src, pos, o)
      else if depth == MAX_DEPTH || name !in g.rules then Failure(o, pos)
      else exists inner: Outcome ::
             && Result(g, g.rules[name], src, pos, depth + 1, inner)
             && if inner.ok then Reported(g, name, pos, inner, o) else Failure(o, pos)
    case Seq(items) =>
      exists outs: seq<Outcome> :: Chain(g, items, src, pos, depth, outs) && SeqOutcome(items, pos, outs, o)
    case Alt(items) =>
      // the first item that matches: all before it fail
      exists outs: seq<Outcome> :: Tries(g, items, src, pos, depth, outs) && AltOutcome(items, pos, outs, o)
    case Rep(body, min, max) =>
      exists outs: seq<Outcome> :: Rounds(g, body, src, pos, depth, outs) && Stops(g, body, max, src, pos, depth, outs)
                                   && RepOutcome(min, pos, outs, o)
  }

  /** A rule that matched, with a span of its own behind those inside it if it is reported. */
  predicate Reported(g: Rules, name: string, pos: nat, inner: Outcome, o: Outcome) {
    o.ok && o.end == inner.end &&
    o.spans == if name in g.reported then inner.spans + [Span(name, pos, inner.end)] else inner.spans
  }

  /** Items one after the other, each from where the one before it ended; only the last may fail. */
  ghost predicate Chain(g: Rules, items: seq<Node>, src: string, pos: nat, depth: nat, outs: seq<Outcome>)
    requires depth <= MAX_DEPTH
    decreases MAX_DEPTH - depth, items, 0
  {
    && |outs| <= |items|
    && (forall k :: 0 <= k < |outs| ==> StartOf(outs, k, pos) <= |src|)
    && (forall k :: 0 <= k < |outs| ==> Result(g, items[k], src, StartOf(outs, k, pos), depth, outs[k]))
    && forall k :: 0 <= k < |outs| - 1 ==> outs[k].ok
  }

  /** All items match, or one has failed, and then nothing is left of those before it. */
  predicate SeqOutcome(items: seq<Node>, pos: nat, outs: seq<Outcome>, o: Outcome) {
    if outs == [] || outs[|outs| - 1].ok then
      |outs| == |items| && o == Outcome(true, StartOf(outs, |outs|, pos), AllSpans(outs))
    else Failure(o, pos)
  }

  /** The first items of an alternative, all tried at the same place; all but the last fail. */
  ghost predicate Tries(g: Rules, items: seq<Node>, src: string, pos: nat, depth: nat, outs: seq<Outcome>)
    requires pos <= |src| && depth <= MAX_DEPTH
    decreases MAX_DEPTH - depth, items, 0
  {
    && |outs| <= |items|
    && (forall k :: 0 <= k < |outs| ==> Result(g, items[k], src, pos, depth, outs[k]))
    && forall k :: 0 <= k < |outs| - 1 ==> !outs[k].ok
  }

  /** The last item tried matches, or all have been tried and all fail. */
  predicate AltOutcome(items: seq<Node>, pos: nat, outs: seq<Outcome>, o: Outcome) {
    if outs != [] && outs[|outs| - 1].ok then o == outs[|outs| - 1] else |outs| == |items| && Failure(o, pos)
  }

  /** Rounds of a repetition, each of which matches and moves on. */
  ghost predicate Rounds(g: Rules, body: Node, src: string, pos: nat, depth: nat, outs: seq<Outcome>)
    requires depth <= MAX_DEPTH
    decreases MAX_DEPTH - depth, body, 1
  {
    forall k :: 0 <= k < |outs| ==>
      && StartOf(outs, k, pos) <= |src|
      && Result(g, body, src, StartOf(outs, k, pos), depth, outs[k]) && outs[k].ok
      && outs[k].end != StartOf(outs, k, pos)
  }

  /** There is no further round: the maximum is reached, or the body fails or matches nothing. */
  ghost predicate Stops(g: Rules, body: Node, max: int, src: string, pos: nat, depth: nat, outs: seq<Outcome>)
    requires depth <= MAX_DEPTH
    decreases MAX_DEPTH - depth, body, 1
  {
    && (max >= 0 ==> |outs| <= max)
    && (|outs| == max ||
        (var at := StartOf(outs, |outs|, pos);
         at <= |src| && exists o: Outcome :: Result(g, body, src, at, depth, o) && (!o.ok || o.end == at)))
  }

  /** Enough rounds or not; the spans of the rounds stay in either case. */
  predicate RepOutcome(min: nat, pos: nat, outs: seq<Outcome>, o: Outcome) {
    o == Outcome(|outs| >= min, if |outs| >= min then StartOf(outs, |outs|, pos) else pos, AllSpans(outs))
  }

  // ---------- Lists of outcomes, from the front ----------

  lemma StartBehind(o: Outcome, outs: seq<Outcome>, k: nat, pos: nat)
    requires k <= |outs|
    ensures StartOf([o] + outs, k + 1, pos) == StartOf(outs, k, o.end)
    ensures k < |outs| ==> ([o] + outs)[k + 1] == outs[k]
  {
    if k > 0 { assert ([o] + outs)[k] == outs[k - 1]; }
  }

  lemma {:induction false} SpansBehind(o: Outcome, outs: seq<Outcome>)
    ensures AllSpans([o] + outs) == o.spans + AllSpans(outs)
  {
    if outs == [] {
      assert [o] + outs == [] + [o] && AllSpans([]) == [];
      assert ([o] + outs)[..0] == [];
    } else {
      var init, last := outs[..|outs| - 1], outs[|outs| - 1];
      SpansBehind(o, init);
      assert [o] + outs == ([o] + init) + [last];
      assert ([o] + outs)[..|outs|] == [o] + init;
      Regroup(o.spans, AllSpans(init), last.spans);
    }
  }

  /** Taking the first outcome off a chain. */
  lemma ChainRest(g: Rules, items: seq<Node>, src: string, pos: nat, depth: nat, outs: seq<Outcome>)
    requires pos <= |src| && depth <= MAX_DEPTH && outs != [] && Chain(g, items, src, pos, depth, outs)
    ensures items != [] && Result(g, items[0], src, pos, depth, outs[0])
    ensures |outs| > 1 ==> outs[0].ok
    ensures outs[0].ok && outs[0].end <= |src| ==> Chain(g, items[1..], src, outs[0].end, depth, outs[1..])
    ensures |outs| > 1 ==> outs[0].end <= |src|
  {
    var o, rest := outs[0], outs[1..];
    assert outs == [o] + rest;
    assert StartOf(outs, 0, pos) == pos;
    if |outs| > 1 { assert StartOf(outs, 1, pos) == o.end; }
    forall k | 0 <= k < |rest|
      ensures StartOf(rest, k, o.end) <= |src| && Result(g, items[1..][k], src, StartOf(rest, k, o.end), depth, rest[k])
      ensures k < |rest| - 1 ==> rest[k].ok
    {
      StartBehind(o, rest, k, pos);
      assert items[1..][k] == items[k + 1] && rest[k] == outs[k + 1];
    }
  }

  lemma ChainMore(g: Rules, items: seq<Node>, src: string, pos: nat, depth: nat, o: Outcome, rest: seq<Outcome>)
    requires pos <= |src| && depth <= MAX_DEPTH && items != [] && Result(g, items[0], src, pos, depth, o)
    requires o.ok && o.end <= |src| && Chain(g, items[1..], src, o.end, depth, rest)
    ensures Chain(g, items, src, pos, depth, [o] + rest)
  {
    hide Result, StartOf;
    var outs := [o] + rest;
    StartsHere(outs, pos);
    forall k | 0 <= k < |outs|
      ensures StartOf(outs, k, pos) <= |src| && Result(g, items[k], src, StartOf(outs, k, pos), depth, outs[k])
      ensures k < |outs| - 1 ==> outs[k].ok
    {
      if k > 0 {
        StartBehind(o, rest, k - 1, pos);
        assert items[1..][k - 1] == items[k];
        assert outs[k] == rest[k - 1];
      }
    }
  }

  lemma StartsHere(outs: seq<Outcome>, pos: nat)
    ensures StartOf(outs, 0, pos) == pos
  {
  }

  lemma ChainOne(g: Rules, items: seq<Node>, src: string, pos: nat, depth: nat, o: Outcome)
    requires pos <= |src| && depth <= MAX_DEPTH && items != [] && Result(g, items[0], src, pos, depth, o)
    ensures Chain(g, items, src, pos, depth, [o])
  {
    assert StartOf([o], 0, pos) == pos;
  }

  // ---------- The matcher computes the relation ----------

  /** What a chain of outcomes makes of a sequence. */
  predicate SeqMatches(r: Outcome, pos: nat, outs: seq<Outcome>) {
    if outs == [] || outs[|outs| - 1].ok then r == Outcome(true, StartOf(outs, |outs|, pos), AllSpans(outs)) else !r.ok
  }

  predicate Complete(items: seq<Node>, outs: seq<Outcome>) { outs == [] || outs[|outs| - 1].ok ==> |outs| == |items| }

  lemma SeqMatchesMore(r: Outcome, o: Outcome, pos: nat, rest: seq<Outcome>)
    requires SeqMatches(r, o.end, rest) && o.ok
    ensures SeqMatches(Outcome(r.ok, r.end, o.spans + r.spans), pos, [o] + rest)
  {
    StartBehind(o, rest, |rest|, pos);
    SpansBehind(o, rest);
    if rest != [] { assert ([o] + rest)[|rest|] == rest[|rest| - 1]; }
    hide AllSpans;
    assert |[o] + rest| == |rest| + 1;
  }

  lemma {:induction false} SeqIsMatch(g: Rules, items: seq<Node>, src: string, pos: nat, depth: nat, outs: seq<Outcome>)
    requires HooksOk(g) && pos <= |src| && depth <= MAX_DEPTH
    requires Chain(g, items, src, pos, depth, outs) && Complete(items, outs)
    ensures SeqMatches(MatchSeq(g, items, src, pos, depth), pos, outs)
    decreases MAX_DEPTH - depth, items, 1
  {
    hide Match, Result, Chain;
    if outs != [] {
      ChainRest(g, items, src, pos, depth, outs);
      var o, rest := outs[0], outs[1..];
      ResultIsMatch(g, items[0], src, pos, depth, o);
      assert outs == [o] + rest;
      if o.ok {
        assert rest != [] ==> rest[|rest| - 1] == outs[|outs| - 1];
        SeqIsMatch(g, items[1..], src, o.end, depth, rest);
        SeqMatchesMore(MatchSeq(g, items[1..], src, o.end, depth), o, pos, rest);
      }
    }
  }

  lemma {:induction false} SeqHasResult(g: Rules, items: seq<Node>, src: string, pos: nat, depth: nat) returns (outs: seq<Outcome>)
    requires HooksOk(g) && pos <= |src| && depth <= MAX_DEPTH
    ensures Chain(g, items, src, pos, depth, outs) && Complete(items, outs)
    decreases MAX_DEPTH - depth, items, 1
  {
    outs := [];
    if items != [] {
      var o := Match(g, items[0], src, pos, depth);
      MatchIsResult(g, items[0], src, pos, depth);
      hide Match, Result, Chain;
      if o.ok {
        var rest := SeqHasResult(g, items[1..], src, o.end, depth);
        ChainMore(g, items, src, pos, depth, o, rest);
        outs := [o] + rest;
        assert rest != [] ==> outs[|outs| - 1] == rest[|rest| - 1];
      } else {
        ChainOne(g, items, src, pos, depth, o);
        outs := [o];
      }
    }
  }

  // ---------- Alternatives ----------

  lemma TriesRest(g: Rules, items: seq<Node>, src: string, pos: nat, depth: nat, outs: seq<Outcome>)
    requires pos <= |src| && depth <= MAX_DEPTH && outs != [] && Tries(g, items, src, pos, depth, outs)
    ensures items != [] && Result(g, items[0], src, pos, depth, outs[0]) && (|outs| > 1 ==> !outs[0].ok)
    ensures Tries(g, items[1..], src, pos, depth, outs[1..])
  {
  }

  lemma TriesMore(g: Rules, items: seq<Node>, src: string, pos: nat, depth: nat, o: Outcome, rest: seq<Outcome>)
    requires pos <= |src| && depth <= MAX_DEPTH && items != [] && Result(g, items[0], src, pos, depth, o)
    requires rest != [] ==> !o.ok && Tries(g, items[1..], src, pos, depth, rest)
    ensures Tries(g, items, src, pos, depth, [o] + rest)
  {
    var outs := [o] + rest;
    forall k | 0 <= k < |outs|
      ensures k < |items| && Result(g, items[k], src, pos, depth, outs[k]) && (k < |outs| - 1 ==> !outs[k].ok)
    {
      if k > 0 { assert items[1..][k - 1] == items[k] && outs[k] == rest[k - 1]; }
    }
  }

  lemma {:induction false} AltIsMatch(g: Rules, items: seq<Node>, src: string, pos: nat, depth: nat, outs: seq<Outcome>, o: Outcome)
    requires HooksOk(g) && pos <= |src| && depth <= MAX_DEPTH
    requires Tries(g, items, src, pos, depth, outs) && AltOutcome(items, pos, outs, o)
    ensures o == MatchAlt(g, items, src, pos, depth)
    decreases MAX_DEPTH - depth, items, 1
  {
    hide Match, Result, Tries;
    if outs != [] {
      TriesRest(g, items, src, pos, depth, outs);
      ResultIsMatch(g, items[0], src, pos, depth, outs[0]);
      var rest := outs[1..];
      if !outs[0].ok {
        assert rest != [] ==> rest[|rest| - 1] == outs[|outs| - 1];
        AltIsMatch(g, items[1..], src, pos, depth, rest, o);
      }
    } else {
      NothingTried(g, items, src, pos, depth);
    }
  }

  lemma NothingTried(g: Rules, items: seq<Node>, src: string, pos: nat, depth: nat)
    requires HooksOk(g) && pos <= |src| && depth <= MAX_DEPTH
    ensures items == [] ==> MatchAlt(g, items, src, pos, depth) == Outcome(false, pos, [])
  {
  }

  lemma {:induction false} AltHasResult(g: Rules, items: seq<Node>, src: string, pos: nat, depth: nat) returns (outs: seq<Outcome>)
    requires HooksOk(g) && pos <= |src| && depth <= MAX_DEPTH
    ensures Tries(g, items, src, pos, depth, outs)
    ensures AltOutcome(items, pos, outs, MatchAlt(g, items, src, pos, depth))
    decreases MAX_DEPTH - depth, items, 1
  {
    outs := [];
    if items != [] {
      var o := Match(g, items[0], src, pos, depth);
      MatchIsResult(g, items[0], src, pos, depth);
      hide Match, Result, Tries;
      outs := [o];
      if o.ok {
        TriesMore(g, items, src, pos, depth, o, []);
        assert [o] + [] == [o];
      } else {
        var rest := AltHasResult(g, items[1..], src, pos, depth);
        outs := [o] + rest;
        TriesMore(g, items, src, pos, depth, o, rest);
        assert rest != [] ==> outs[|outs| - 1] == rest[|rest| - 1];
      }
    }
  }

  // ---------- Repetitions ----------

  lemma RoundsRest(g: Rules, body: Node, max: int, src: string, pos: nat, depth: nat, outs: seq<Outcome>)
    requires pos <= |src| && depth <= MAX_DEPTH && outs != []
    requires Rounds(g, body, src, pos, depth, outs) && Stops(g, body, max, src, pos, depth, outs)
    ensures max != 0 && Result(g, body, src, pos, depth, outs[0]) && outs[0].ok && outs[0].end != pos
    ensures outs[0].end <= |src| ==>
              && Rounds(g, body, src, outs[0].end, depth, outs[1..])
              && Stops(g, body, max - 1, src, outs[0].end, depth, outs[1..])
  {
    hide Result;
    var o, rest := outs[0], outs[1..];
    assert outs == [o] + rest && StartOf(outs, 0, pos) == pos;
    forall k | 0 <= k < |rest|
      ensures StartOf(rest, k, o.end) <= |src| && Result(g, body, src, StartOf(rest, k, o.end), depth, rest[k]) && rest[k].ok
      ensures rest[k].end != StartOf(rest, k, o.end)
    {
      StartBehind(o, rest, k, pos);
      assert rest[k] == outs[k + 1];
    }
    StartBehind(o, rest, |rest|, pos);
  }

  lemma RoundsMore(g: Rules, body: Node, max: int, src: string, pos: nat, depth: nat, o: Outcome, rest: seq<Outcome>)
    requires pos <= |src| && depth <= MAX_DEPTH && max != 0
    requires Result(g, body, src, pos, depth, o) && o.ok && o.end != pos
    requires Rounds(g, body, src, o.end, depth, rest) && Stops(g, body, max - 1, src, o.end, depth, rest)
    ensures Rounds(g, body, src, pos, depth, [o] + rest) && Stops(g, body, max, src, pos, depth, [o] + rest)
  {
    hide Result;
    RoundsLonger(g, body, src, pos, depth, o, rest);
    hide Rounds;
    StartBehind(o, rest, |rest|, pos);
  }

  lemma RoundsLonger(g: Rules, body: Node, src: string, pos: nat, depth: nat, o: Outcome, rest: seq<Outcome>)
    requires pos <= |src| && depth <= MAX_DEPTH && Result(g, body, src, pos, depth, o) && o.ok && o.end != pos
    requires Rounds(g, body, src, o.end, depth, rest)
    ensures Rounds(g, body, src, pos, depth, [o] + rest)
  {
    hide Result, StartOf;
    var outs := [o] + rest;
    StartsHere(outs, pos);
    forall k | 0 <= k < |outs|
      ensures StartOf(outs, k, pos) <= |src| && Result(g, body, src, StartOf(outs, k, pos), depth, outs[k])
      ensures outs[k].ok && outs[k].end != StartOf(outs, k, pos)
    {
      if k > 0 { StartBehind(o, rest, k - 1, pos); }
    }
  }

  lemma RepeatedMore(q: Repeated, o: Outcome, pos: nat, rest: seq<Outcome>)
    requires q == Repeated(|rest|, StartOf(rest, |rest|, o.end), AllSpans(rest))
    ensures Repeated(q.count + 1, q.end, o.spans + q.spans) ==
            Repeated(|[o] + rest|, StartOf([o] + rest, |[o] + rest|, pos), AllSpans([o] + rest))
  {
    StartBehind(o, rest, |rest|, pos);
    SpansBehind(o, rest);
  }

  lemma {:induction false} RepIsMatch(g: Rules, body: Node, max: int, src: string, pos: nat, depth: nat, outs: seq<Outcome>)
    requires HooksOk(g) && pos <= |src| && depth <= MAX_DEPTH
    requires Rounds(g, body, src, pos, depth, outs) && Stops(g, body, max, src, pos, depth, outs)
    ensures MatchRep(g, body, max, src, pos, depth) == Repeated(|outs|, StartOf(outs, |outs|, pos), AllSpans(outs))
    decreases MAX_DEPTH - depth, body, 3, |outs|
  {
    hide Match, Result, Rounds;
    if outs == [] {
      if max != 0 {
        var o :| Result(g, body, src, pos, depth, o) && (!o.ok || o.end == pos);
        ResultIsMatch(g, body, src, pos, depth, o);
      }
    } else {
      RoundsRest(g, body, max, src, pos, depth, outs);
      var o, rest := outs[0], outs[1..];
      ResultIsMatch(g, body, src, pos, depth, o);
      RepIsMatch(g, body, max - 1, src, o.end, depth, rest);
      RepeatedMore(MatchRep(g, body, max - 1, src, o.end, depth), o, pos, rest);
      assert outs == [o] + rest;
    }
  }

  lemma {:induction false} RepHasResult(g: Rules, body: Node, max: int, src: string, pos: nat, depth: nat) returns (outs: seq<Outcome>)
    requires HooksOk(g) && pos <= |src| && depth <= MAX_DEPTH
    ensures Rounds(g, body, src, pos, depth, outs) && Stops(g, body, max, src, pos, depth, outs)
    decreases MAX_DEPTH - depth, body, 3, |src| - pos
  {
    outs := [];
    if max != 0 {
      var o := Match(g, body, src, pos, depth);
      MatchIsResult(g, body, src, pos, depth);
      hide Match, Result;
      if o.ok && o.end != pos {
        var rest := RepHasResult(g, body, max - 1, src, o.end, depth);
        RoundsMore(g, body, max, src, pos, depth, o, rest);
        outs := [o] + rest;
      }
    }
  }

  // ---------- The main result ----------

  lemma LeafIsMatch(g: Rules, n: Node, src: string, pos: nat, depth: nat, o: Outcome)
    requires HooksOk(g) && pos <= |src| && depth <= MAX_DEPTH && (n.Lit? || n.Class? || (n.Ref? && n.name in g.hooked))
    ensures LeafResult(g, n, src, pos, o) <==> o == Match(g, n, src, pos, depth)
  {
    match n
    case Lit(text) => assert Stands(text, src, pos) <==> HasPrefixAt(src, pos, text);
    case Class(_, _) => assert pos < |src| ==> (Accepts(n, src[pos]) <==> InClass(n, src[pos]));
    case Ref(_) =>
  }

  lemma {:induction false} ResultIsMatch(g: Rules, n: Node, src: string, pos: nat, depth: nat, o: Outcome)
    requires HooksOk(g) && pos <= |src| && depth <= MAX_DEPTH && Result(g, n, src, pos, depth, o)
    ensures o == Match(g, n, src, pos, depth)
    decreases MAX_DEPTH - depth, n, 2
  {
    match n
    case Lit(_) => LeafIsMatch(g, n, src, pos, depth, o);
    case Class(_, _) => LeafIsMatch(g, n, src, pos, depth, o);
    case Ref(name) =>
      if name in g.hooked {
        LeafIsMatch(g, n, src, pos, depth, o);
      } else if depth < MAX_DEPTH && name in g.rules {
        var inner: Outcome :| Result(g, g.rules[name], src, pos, depth + 1, inner) &&
                              if inner.ok then Reported(g, name, pos, inner, o) else Failure(o, pos);
        ResultIsMatch(g, g.rules[name], src, pos, depth + 1, inner);
        assert inner.spans + [] == inner.spans;
      }
    case Seq(items) =>
      var outs :| Chain(g, items, src, pos, depth, outs) && SeqOutcome(items, pos, outs, o);
      SeqIsMatch(g, items, src, pos, depth, outs);
    case Alt(items) =>
      var outs :| Tries(g, items, src, pos, depth, outs) && AltOutcome(items, pos, outs, o);
      AltIsMatch(g, items, src, pos, depth, outs, o);
    case Rep(body, min, max) =>
      var outs :| Rounds(g, body, src, pos, depth, outs) && Stops(g, body, max, src, pos, depth, outs)
                  && RepOutcome(min, pos, outs, o);
      RepIsMatch(g, body, max, src, pos, depth, outs);
  }

  lemma RefHasResult(g: Rules, name: string, src: string, pos: nat, depth: nat)
    requires HooksOk(g) && pos <= |src| && depth < MAX_DEPTH && name !in g.hooked && name in g.rules
    requires Result(g, g.rules[name], src, pos, depth + 1, Match(g, g.rules[name], src, pos, depth + 1))
    ensures Result(g, Ref(name), src, pos, depth, Match(g, Ref(name), src, pos, depth))
  {
    var inner, o := Match(g, g.rules[name], src, pos, depth + 1), Match(g, Ref(name), src, pos, depth);
    assert inner.spans + [] == inner.spans;
    assert if inner.ok then Reported(g, name, pos, inner, o) else Failure(o, pos);
  }

  lemma SeqResult(g: Rules, items: seq<Node>, src: string, pos: nat, depth: nat, outs: seq<Outcome>)
    requires HooksOk(g) && pos <= |src| && depth <= MAX_DEPTH
    requires Chain(g, items, src, pos, depth, outs) && Complete(items, outs)
    requires SeqMatches(MatchSeq(g, items, src, pos, depth), pos, outs)
    ensures Result(g, Seq(items), src, pos, depth, Match(g, Seq(items), src, pos, depth))
  {
    hide Chain, MatchSeq;
    assert SeqOutcome(items, pos, outs, Match(g, Seq(items), src, pos, depth));
  }

  lemma AltResult(g: Rules, items: seq<Node>, src: string, pos: nat, depth: nat, outs: seq<Outcome>)
    requires HooksOk(g) && pos <= |src| && depth <= MAX_DEPTH
    requires Tries(g, items, src, pos, depth, outs) && AltOutcome(items, pos, outs, MatchAlt(g, items, src, pos, depth))
    ensures Result(g, Alt(items), src, pos, depth, Match(g, Alt(items), src, pos, depth))
  {
    hide Tries, MatchAlt;
  }

  lemma RepResult(g: Rules, n: Node, src: string, pos: nat, depth: nat, outs: seq<Outcome>)
    requires HooksOk(g) && pos <= |src| && depth <= MAX_DEPTH && n.Rep?
    requires Rounds(g, n.body, src, pos, depth, outs) && Stops(g, n.body, n.max, src, pos, depth, outs)
    requires MatchRep(g, n.body, n.max, src, pos, depth) == Repeated(|outs|, StartOf(outs, |outs|, pos), AllSpans(outs))
    ensures Result(g, n, src, pos, depth, Match(g, n, src, pos, depth))
  {
    hide Rounds, Stops, MatchRep;
    assert RepOutcome(n.min, pos, outs, Match(g, n, src, pos, depth));
  }

  lemma LeafHasResult(g: Rules, n: Node, src: string, pos: nat, depth: nat)
    requires HooksOk(g) && pos <= |src| && depth <= MAX_DEPTH
    requires n.Lit? || n.Class? || (n.Ref? && (n.name in g.hooked || depth == MAX_DEPTH || n.name !in g.rules))
    ensures Result(g, n, src, pos, depth, Match(g, n, src, pos, depth))
  {
    if !n.Ref? || n.name in g.hooked { LeafIsMatch(g, n, src, pos, depth, Match(g, n, src, pos, depth)); }
  }

  lemma {:induction false} MatchIsResult(g: Rules, n: Node, src: string, pos: nat, depth: nat)
    requires HooksOk(g) && pos <= |src| && depth <= MAX_DEPTH
    ensures Result(g, n, src, pos, depth, Match(g, n, src, pos, depth))
    decreases MAX_DEPTH - depth, n, 2
  {
    hide *;
    match n
    case Lit(_) => LeafHasResult(g, n, src, pos, depth);
    case Class(_, _) => LeafHasResult(g, n, src, pos, depth);
    case Ref(name) =>
      if name in g.hooked || depth == MAX_DEPTH || name !in g.rules {
        LeafHasResult(g, n, src, pos, depth);
      } else {
        MatchIsResult(g, g.rules[name], src, pos, depth + 1);
        RefHasResult(g, name, src, pos, depth);
      }
    case Seq(items) =>
      var outs := SeqHasResult(g, items, src, pos, depth);
      SeqIsMatch(g, items, src, pos, depth, outs);
      SeqResult(g, items, src, pos, depth, outs);
    case Alt(items) =>
      var outs := AltHasResult(g, items, src, pos, depth);
      AltResult(g, items, src, pos, depth, outs);
    case Rep(body, min, max) =>
      var outs := RepHasResult(g, body, max, src, pos, depth);
      RepIsMatch(g, body, max, src, pos, depth, outs);
      RepResult(g, n, src, pos, depth, outs);
  }

  /** The deterministic match computes exactly the relation, failures included; so there is one outcome for each
      node and position. */
  lemma MatchIsPeg(g: Rules, n: Node, src: string, pos: nat, depth: nat, o: Outcome)
    requires HooksOk(g) && pos <= |src| && depth <= MAX_DEPTH
    ensures Result(g, n, src, pos, depth, o) <==> o == Match(g, n, src, pos, depth)
  {
    hide Match, Result;
    MatchIsResult(g, n, src, pos, depth);
    if Result(g, n, src, pos, depth, o) { ResultIsMatch(g, n, src, pos, depth, o); }
  }
}
