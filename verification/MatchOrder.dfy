/** The order of the states that the backtracking match returns (grammar/grammar.go): alternatives in order,
    every way on from an earlier state before those from a later one, more rounds of a repetition before fewer. */
module MatchOrder {
  import opened Common
  import opened Derivations
  import opened Grammar

  lemma {:induction false} AllAltAppend(g: Rules, a: seq<Node>, b: seq<Node>, src: string, pos: nat, depth: nat)
    requires HooksOk(g) && pos <= |src| && depth <= MAX_DEPTH
    ensures AllAlt(g, a + b, src, pos, depth) == AllAlt(g, a, src, pos, depth) + AllAlt(g, b, src, pos, depth)
  {
    hide AllMatches;
    if a == [] {
      assert a + b == b;
    } else {
      assert (a + b)[1..] == a[1..] + b;
      AllAltAppend(g, a[1..], b, src, pos, depth);
      Regroup(AllMatches(g, a[0], src, pos, depth), AllAlt(g, a[1..], src, pos, depth), AllAlt(g, b, src, pos, depth));
    }
  }

  /** The states of the first alternatives come first; a lone alternative has its own. */
  lemma AltInOrder(g: Rules, a: seq<Node>, b: seq<Node>, n: Node, src: string, pos: nat, depth: nat)
    requires HooksOk(g) && pos <= |src| && depth <= MAX_DEPTH
    ensures AllMatches(g, Alt(a + b), src, pos, depth) ==
            AllMatches(g, Alt(a), src, pos, depth) + AllMatches(g, Alt(b), src, pos, depth)
    ensures AllMatches(g, Alt([n]), src, pos, depth) == AllMatches(g, n, src, pos, depth)
  {
    AllAltAppend(g, a, b, src, pos, depth);
    assert [n][1..] == [] && AllAlt(g, [], src, pos, depth) == [];
    assert AllAlt(g, [n], src, pos, depth) == AllMatches(g, n, src, pos, depth) + [];
  }

  lemma {:induction false} ExtendInOrder(g: Rules, n: Node, src: string, a: seq<Found>, b: seq<Found>, proper: bool,
                                         low: nat, depth: nat)
    requires HooksOk(g) && Within(a, low, src) && Within(b, low, src) && depth <= MAX_DEPTH && Within(a + b, low, src)
    ensures ExtendAll(g, n, src, a + b, proper, low, depth) ==
            ExtendAll(g, n, src, a, proper, low, depth) + ExtendAll(g, n, src, b, proper, low, depth)
    decreases |a|
  {
    hide AllMatches, JoinEach, Longer, ExtendAll, From;
    if a == [] {
      assert a + b == b;
      ExtendNone(g, n, src, proper, low, depth);
    } else {
      assert (a + b)[1..] == a[1..] + b && (a + b)[0] == a[0];
      ExtendFirst(g, n, src, a + b, proper, low, depth);
      ExtendFirst(g, n, src, a, proper, low, depth);
      ExtendInOrder(g, n, src, a[1..], b, proper, low, depth);
      Regroup(From(g, n, src, a[0], proper, depth), ExtendAll(g, n, src, a[1..], proper, low, depth),
              ExtendAll(g, n, src, b, proper, low, depth));
    }
  }

  /** Every way on from the first states comes before those from the others, item by item. */
  lemma {:induction false} SeqInOrder(g: Rules, items: seq<Node>, src: string, a: seq<Found>, b: seq<Found>, low: nat,
                                      depth: nat)
    requires HooksOk(g) && Within(a, low, src) && Within(b, low, src) && depth <= MAX_DEPTH && Within(a + b, low, src)
    ensures AllSeq(g, items, src, a + b, low, depth) == AllSeq(g, items, src, a, low, depth) + AllSeq(g, items, src, b, low, depth)
    decreases |items|
  {
    hide ExtendAll;
    if items != [] {
      ExtendInOrder(g, items[0], src, a, b, false, low, depth);
      SeqInOrder(g, items[1..], src, ExtendAll(g, items[0], src, a, false, low, depth),
                 ExtendAll(g, items[0], src, b, false, low, depth), low, depth);
    }
  }

  /** Items are matched in order. */
  lemma {:induction false} SeqThenSeq(g: Rules, a: seq<Node>, b: seq<Node>, src: string, states: seq<Found>, low: nat,
                                      depth: nat)
    requires HooksOk(g) && Within(states, low, src) && depth <= MAX_DEPTH
    ensures AllSeq(g, a + b, src, states, low, depth) == AllSeq(g, b, src, AllSeq(g, a, src, states, low, depth), low, depth)
    decreases |a|
  {
    hide ExtendAll;
    if a == [] {
      assert a + b == b;
    } else {
      assert (a + b)[1..] == a[1..] + b;
      SeqThenSeq(g, a[1..], b, src, ExtendAll(g, a[0], src, states, false, low, depth), low, depth);
    }
  }

  /** A repetition that may be empty returns the empty one last; an option returns its matches before it. */
  lemma EmptyRoundLast(g: Rules, body: Node, max: int, src: string, pos: nat, depth: nat)
    requires HooksOk(g) && pos <= |src| && depth <= MAX_DEPTH
    ensures var all := AllMatches(g, Rep(body, 0, max), src, pos, depth);
            all != [] && all[|all| - 1] == Found(pos, [])
    ensures AllMatches(g, Rep(body, 0, 1), src, pos, depth) ==
            JoinEach(Found(pos, []), Longer(AllMatches(g, body, src, pos, depth), pos)) + [Found(pos, [])]
  {
    var start := [Found(pos, [])];
    assert AllMatches(g, Rep(body, 0, max), src, pos, depth) == AllRep(g, body, 0, max, src, start, pos, depth);
    OneRound(g, body, src, pos, depth);
  }

  lemma OneExtension(g: Rules, body: Node, src: string, pos: nat, depth: nat)
    requires HooksOk(g) && pos <= |src| && depth <= MAX_DEPTH
    ensures ExtendAll(g, body, src, [Found(pos, [])], true, pos, depth) ==
            JoinEach(Found(pos, []), Longer(AllMatches(g, body, src, pos, depth), pos))
  {
    var start := [Found(pos, [])];
    assert start[1..] == [];
    ExtendFirst(g, body, src, start, true, pos, depth);
    ExtendNone(g, body, src, true, pos, depth);
    hide ExtendAll, AllMatches;
  }

  lemma RepMatches(g: Rules, body: Node, src: string, pos: nat, depth: nat)
    requires HooksOk(g) && pos <= |src| && depth <= MAX_DEPTH
    ensures AllMatches(g, Rep(body, 0, 1), src, pos, depth) == AllRep(g, body, 0, 1, src, [Found(pos, [])], pos, depth)
  {
    hide AllRep;
  }

  lemma OneRound(g: Rules, body: Node, src: string, pos: nat, depth: nat)
    requires HooksOk(g) && pos <= |src| && depth <= MAX_DEPTH
    ensures AllMatches(g, Rep(body, 0, 1), src, pos, depth) ==
            JoinEach(Found(pos, []), Longer(AllMatches(g, body, src, pos, depth), pos)) + [Found(pos, [])]
  {
    var start := [Found(pos, [])];
    RepMatches(g, body, src, pos, depth);
    hide AllMatches, AllRep, ExtendAll, JoinEach, Longer;
    OneExtension(g, body, src, pos, depth);
    var next := ExtendAll(g, body, src, start, true, pos, depth);
    RepEquation(g, body, 0, 1, src, start, pos, depth, next);
    if next != [] {
      assert pos + 1 <= next[0].end <= |src|;
      RepEquation(g, body, -1, 0, src, next, pos + 1, depth, []);
    }
  }
}
