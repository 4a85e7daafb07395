/** The backtracking matchAll (grammar/grammar.go): it returns exactly the derivations of the grammar,
    so it accepts whatever the deterministic match accepts. */
module Derivations {
  import opened Common
  import opened Grammar

  // ---------- The backtracking match as a function ----------

  /** One way to match: where it ends, and the spans it records. */
  datatype Found = Found(end: nat, spans: seq<Span>)

  function Joined(a: Found, b: Found): Found { Found(b.end, a.spans + b.spans) }

  predicate Within(fs: seq<Found>, low: nat, src: string) {
    forall i :: 0 <= i < |fs| ==> low <= fs[i].end <= |src|
  }

  lemma JoinedAssociative(a: Found, b: Found, c: Found)
    ensures Joined(Joined(a, b), c) == Joined(a, Joined(b, c))
  {
    assert (a.spans + b.spans) + c.spans == a.spans + (b.spans + c.spans);
  }

  function JoinEach(a: Found, fs: seq<Found>): (r: seq<Found>)
    ensures |r| == |fs|
    ensures forall i :: 0 <= i < |fs| ==> r[i] == Joined(a, fs[i])
  {
    seq(|fs|, i requires 0 <= i < |fs| => Joined(a, fs[i]))
  }

  function Longer(fs: seq<Found>, pos: nat): (r: seq<Found>)
    ensures forall i :: 0 <= i < |r| ==> r[i] in fs && r[i].end != pos
  {
    if fs == [] then []
    else (if fs[0].end != pos then [fs[0]] else []) + Longer(fs[1..], pos)
  }

  lemma {:induction false} LongerKeeps(fs: seq<Found>, pos: nat, f: Found)
    requires f in fs && f.end != pos
    ensures f in Longer(fs, pos)
  {
    if f != fs[0] { LongerKeeps(fs[1..], pos, f); }
  }

  function AllMatches(g: Rules, n: Node, src: string, pos: nat, depth: nat): (r: seq<Found>)
    requires HooksOk(g) && pos <= |src| && depth <= MAX_DEPTH
    ensures Within(r, pos, src)
    decreases MAX_DEPTH - depth, n, 0
  {
    match n
    case Lit(text) => if HasPrefixAt(src, pos, text) then [Found(pos + |text|, [])] else []
    case Class(_, _) => if pos < |src| && InClass(n, src[pos]) then [Found(pos + 1, [])] else []
    case Ref(name) =>
      if name in g.hooked then
        var e := g.hook(name, src, pos);
        if e.Some? then [Found(e.value, [])] else []
      else if depth >= MAX_DEPTH || name !in g.rules then []
      else RecordEach(g, name, pos, AllMatches(g, g.rules[name], src, pos, depth + 1))
    case Seq(items) => AllSeq(g, items, src, [Found(pos, [])], pos, depth)
    case Alt(items) => AllAlt(g, items, src, pos, depth)
    case Rep(body, min, max) =>
      AllRep(g, body, min, max, src, [Found(pos, [])], pos, depth)
  }

  function RecordEach(g: Rules, name: string, pos: nat, fs: seq<Found>): (r: seq<Found>)
    ensures |r| == |fs|
    ensures forall i :: 0 <= i < |fs| ==> r[i] == Found(fs[i].end, fs[i].spans + Recorded(g, name, pos, fs[i].end))
  {
    seq(|fs|, i requires 0 <= i < |fs| => Found(fs[i].end, fs[i].spans + Recorded(g, name, pos, fs[i].end)))
  }

  /** Every way to go on from every state; only the non-empty ones when proper. */
  function ExtendAll(g: Rules, n: Node, src: string, states: seq<Found>, proper: bool, low: nat, depth: nat): (r: seq<Found>)
    requires HooksOk(g) && Within(states, low, src) && depth <= MAX_DEPTH
    ensures Within(r, if proper then low + 1 else low, src)
    decreases MAX_DEPTH - depth, n, 1, |states|
  {
    if states == [] then []
    else
      var here := AllMatches(g, n, src, states[0].end, depth);
      JoinEach(states[0], if proper then Longer(here, states[0].end) else here)
      + ExtendAll(g, n, src, states[1..], proper, low, depth)
  }

  function AllSeq(g: Rules, items: seq<Node>, src: string, states: seq<Found>, low: nat, depth: nat): (r: seq<Found>)
    requires HooksOk(g) && Within(states, low, src) && depth <= MAX_DEPTH
    ensures Within(r, low, src)
    decreases MAX_DEPTH - depth, items, 0
  {
    if items == [] then states
    else AllSeq(g, items[1..], src, ExtendAll(g, items[0], src, states, false, low, depth), low, depth)
  }

  function AllAlt(g: Rules, items: seq<Node>, src: string, pos: nat, depth: nat): (r: seq<Found>)
    requires HooksOk(g) && pos <= |src| && depth <= MAX_DEPTH
    ensures Within(r, pos, src)
    decreases MAX_DEPTH - depth, items, 0
  {
    if items == [] then [] else AllMatches(g, items[0], src, pos, depth) + AllAlt(g, items[1..], src, pos, depth)
  }

  /** Every state reachable by non-empty repetitions, the most repetitions first, down to the minimum. */
  function AllRep(g: Rules, body: Node, min: int, max: int, src: string, level: seq<Found>, low: nat, depth: nat): (r: seq<Found>)
    requires HooksOk(g) && Within(level, low, src) && depth <= MAX_DEPTH && low <= |src| + 1
    ensures Within(r, low, src)
    decreases MAX_DEPTH - depth, body, 2, |src| + 1 - low
  {
    var next := if max == 0 then [] else ExtendAll(g, body, src, level, true, low, depth);
    var deeper :=
      if next == [] then []
      else
        assert low + 1 <= next[0].end <= |src|;
        AllRep(g, body, min - 1, max - 1, src, next, low + 1, depth);
    deeper + (if min <= 0 then level else [])
  }

  // ---------- Derivations ----------

  /** The grammar read as a grammar: what it means for src[pos..f.end] to derive from a node, recording
      the spans of f. Repetitions are non-empty and references nest at most MAX_DEPTH deep. */
  ghost predicate Derives(g: Rules, n: Node, src: string, pos: nat, depth: nat, f: Found)
    requires HooksOk(g) && pos <= |src| && depth <= MAX_DEPTH
    ensures Derives(g, n, src, pos, depth, f) ==> pos <= f.end <= |src|
    decreases MAX_DEPTH - depth, n, 0
  {
    match n
    case Lit(text) => HasPrefixAt(src, pos, text) && f == Found(pos + |text|, [])
    case Class(_, _) => pos < |src| && InClass(n, src[pos]) && f == Found(pos + 1, [])
    case Ref(name) =>
      if name in g.hooked then g.hook(name, src, pos) == Some(f.end) && f.spans == []
      else
        && depth < MAX_DEPTH && name in g.rules
        && exists inner: seq<Span> ::
             && Derives(g, g.rules[name], src, pos, depth + 1, Found(f.end, inner))
             && f.spans == inner + Recorded(g, name, pos, f.end)
    case Seq(items) => DerivesSeq(g, items, src, pos, depth, f)
    case Alt(items) => exists i :: 0 <= i < |items| && Derives(g, items[i], src, pos, depth, f)
    case Rep(body, min, max) =>
      exists k: nat :: min <= k && (max < 0 || k <= max) && Repeats(g, body, k, src, pos, depth, f)
  }

  ghost predicate DerivesSeq(g: Rules, items: seq<Node>, src: string, pos: nat, depth: nat, f: Found)
    requires HooksOk(g) && pos <= |src| && depth <= MAX_DEPTH
    ensures DerivesSeq(g, items, src, pos, depth, f) ==> pos <= f.end <= |src|
    decreases MAX_DEPTH - depth, items, 0
  {
    if items == [] then f == Found(pos, [])
    else exists a: Found, b: Found ::
           && Derives(g, items[0], src, pos, depth, a)
           && DerivesSeq(g, items[1..], src, a.end, depth, b)
           && f == Joined(a, b)
  }

  /** k non-empty repetitions. */
  ghost predicate Repeats(g: Rules, body: Node, k: nat, src: string, pos: nat, depth: nat, f: Found)
    requires HooksOk(g) && pos <= |src| && depth <= MAX_DEPTH
    ensures Repeats(g, body, k, src, pos, depth, f) ==> pos <= f.end <= |src|
    decreases MAX_DEPTH - depth, body, 1, k
  {
    if k == 0 then f == Found(pos, [])
    else exists a: Found, b: Found ::
           && Derives(g, body, src, pos, depth, a) && a.end != pos
           && Repeats(g, body, k - 1, src, a.end, depth, b)
           && f == Joined(a, b)
  }

  // ---------- Everything found derives ----------

  lemma {:induction false} FoundDerives(g: Rules, n: Node, src: string, pos: nat, depth: nat, f: Found)
    requires HooksOk(g) && pos <= |src| && depth <= MAX_DEPTH
    requires f in AllMatches(g, n, src, pos, depth)
    ensures Derives(g, n, src, pos, depth, f)
    decreases MAX_DEPTH - depth, n, 0
  {
    hide *;
    MatchesOf(g, n, src, pos, depth, f);
    match n
    case Lit(_) => LeafDerives(g, n, src, pos, depth, f);
    case Class(_, _) => LeafDerives(g, n, src, pos, depth, f);
    case Ref(name) =>
      if name in g.hooked {
        LeafDerives(g, n, src, pos, depth, f);
      } else {
        var inner := FoundInRef(g, name, src, pos, depth, f);
        FoundDerives(g, g.rules[name], src, pos, depth + 1, inner);
        RefDerives(g, name, src, pos, depth, inner);
      }
    case Seq(items) =>
      var st, h := FoundInSeq(g, items, src, [Found(pos, [])], pos, depth, f);
      JoinedStart(pos, h);
      SeqDerives(g, items, src, pos, depth, h);
    case Alt(items) =>
      var i := FoundInAlt(g, items, src, pos, depth, f);
      AltDerives(g, items, i, src, pos, depth, f);
    case Rep(body, min, max) =>
      var st, h, k := FoundInRep(g, body, min, max, src, [Found(pos, [])], pos, depth, f);
      ReachesMeans(g, body, src, pos, depth, f, st, h, k);
      RepDerives(g, n, k, src, pos, depth, f);
  }

  lemma MatchesOf(g: Rules, n: Node, src: string, pos: nat, depth: nat, f: Found)
    requires HooksOk(g) && pos <= |src| && depth <= MAX_DEPTH && f in AllMatches(g, n, src, pos, depth)
    ensures Within([Found(pos, [])], pos, src)
    ensures n.Seq? ==> f in AllSeq(g, n.items, src, [Found(pos, [])], pos, depth)
    ensures n.Alt? ==> f in AllAlt(g, n.items, src, pos, depth)
    ensures n.Rep? ==> f in AllRep(g, n.body, n.min, n.max, src, [Found(pos, [])], pos, depth)
  {
    hide AllSeq, AllAlt, AllRep;
  }

  lemma LeafDerives(g: Rules, n: Node, src: string, pos: nat, depth: nat, f: Found)
    requires HooksOk(g) && pos <= |src| && depth <= MAX_DEPTH && f in AllMatches(g, n, src, pos, depth)
    requires n.Lit? || n.Class? || (n.Ref? && n.name in g.hooked)
    ensures Derives(g, n, src, pos, depth, f)
  {
  }

  lemma AltDerives(g: Rules, items: seq<Node>, i: nat, src: string, pos: nat, depth: nat, f: Found)
    requires HooksOk(g) && pos <= |src| && depth <= MAX_DEPTH
    requires i < |items| && Derives(g, items[i], src, pos, depth, f)
    ensures Derives(g, Alt(items), src, pos, depth, f)
  {
  }

  lemma ReachesMeans(g: Rules, body: Node, src: string, pos: nat, depth: nat, f: Found, st: Found, h: Found, k: nat)
    requires HooksOk(g) && pos <= |src| && depth <= MAX_DEPTH
    requires Reaches(g, body, src, [Found(pos, [])], depth, f, st, h, k)
    ensures Repeats(g, body, k, src, pos, depth, f)
  {
    hide Repeats;
    JoinedStart(pos, h);
  }

  lemma JoinedStart(pos: nat, h: Found)
    ensures Joined(Found(pos, []), h) == h
  {
    assert [] + h.spans == h.spans;
  }

  lemma FoundInRef(g: Rules, name: string, src: string, pos: nat, depth: nat, f: Found) returns (inner: Found)
    requires HooksOk(g) && pos <= |src| && depth <= MAX_DEPTH && name !in g.hooked
    requires f in AllMatches(g, Ref(name), src, pos, depth)
    ensures depth < MAX_DEPTH && name in g.rules && inner in AllMatches(g, g.rules[name], src, pos, depth + 1)
    ensures f == Found(inner.end, inner.spans + Recorded(g, name, pos, inner.end))
  {
    var all := AllMatches(g, g.rules[name], src, pos, depth + 1);
    var i :| 0 <= i < |all| && f == RecordEach(g, name, pos, all)[i];
    inner := all[i];
  }

  lemma RefDerives(g: Rules, name: string, src: string, pos: nat, depth: nat, inner: Found)
    requires HooksOk(g) && pos <= |src| && depth < MAX_DEPTH && name !in g.hooked && name in g.rules
    requires Derives(g, g.rules[name], src, pos, depth + 1, inner)
    ensures Derives(g, Ref(name), src, pos, depth,
                    Found(inner.end, inner.spans + Recorded(g, name, pos, inner.end)))
  {
    assert inner == Found(inner.end, inner.spans);
  }

  lemma SeqDerives(g: Rules, items: seq<Node>, src: string, pos: nat, depth: nat, f: Found)
    requires HooksOk(g) && pos <= |src| && depth <= MAX_DEPTH && DerivesSeq(g, items, src, pos, depth, f)
    ensures Derives(g, Seq(items), src, pos, depth, f)
  {
  }

  lemma RepDerives(g: Rules, n: Node, k: nat, src: string, pos: nat, depth: nat, f: Found)
    requires HooksOk(g) && pos <= |src| && depth <= MAX_DEPTH && n.Rep? && n.min <= k && (n.max < 0 || k <= n.max)
    requires Repeats(g, n.body, k, src, pos, depth, f)
    ensures Derives(g, n, src, pos, depth, f)
  {
    hide Repeats;
  }

  lemma {:induction false} FoundInExtend(g: Rules, n: Node, src: string, states: seq<Found>, proper: bool, low: nat,
                                         depth: nat, f: Found) returns (st: Found, h: Found)
    requires HooksOk(g) && Within(states, low, src) && depth <= MAX_DEPTH
    requires f in ExtendAll(g, n, src, states, proper, low, depth)
    ensures st in states && st.end <= |src| && Derives(g, n, src, st.end, depth, h) && f == Joined(st, h)
    ensures proper ==> h.end != st.end
    decreases MAX_DEPTH - depth, n, 1, |states|
  {
    var here := AllMatches(g, n, src, states[0].end, depth);
    var kept := if proper then Longer(here, states[0].end) else here;
    var first := JoinEach(states[0], kept);
    if f in first {
      var i :| 0 <= i < |first| && f == first[i];
      st, h := states[0], kept[i];
      assert h in kept;
      FoundDerives(g, n, src, st.end, depth, h);
    } else {
      st, h := FoundInExtend(g, n, src, states[1..], proper, low, depth, f);
    }
  }

  lemma {:induction false} FoundInSeq(g: Rules, items: seq<Node>, src: string, states: seq<Found>, low: nat,
                                      depth: nat, f: Found) returns (st: Found, h: Found)
    requires HooksOk(g) && Within(states, low, src) && depth <= MAX_DEPTH
    requires f in AllSeq(g, items, src, states, low, depth)
    ensures st in states && st.end <= |src| && DerivesSeq(g, items, src, st.end, depth, h) && f == Joined(st, h)
    decreases MAX_DEPTH - depth, items, 0
  {
    if items == [] {
      st, h := f, Found(f.end, []);
    } else {
      var next := ExtendAll(g, items[0], src, states, false, low, depth);
      var mid, b := FoundInSeq(g, items[1..], src, next, low, depth, f);
      var a;
      st, a := FoundInExtend(g, items[0], src, states, false, low, depth, mid);
      h := Joined(a, b);
      JoinedAssociative(st, a, b);
    }
  }

  lemma {:induction false} FoundInAlt(g: Rules, items: seq<Node>, src: string, pos: nat, depth: nat, f: Found) returns (i: nat)
    requires HooksOk(g) && pos <= |src| && depth <= MAX_DEPTH
    requires f in AllAlt(g, items, src, pos, depth)
    ensures i < |items| && Derives(g, items[i], src, pos, depth, f)
    decreases MAX_DEPTH - depth, items, 0
  {
    if f in AllMatches(g, items[0], src, pos, depth) {
      i := 0;
      FoundDerives(g, items[0], src, pos, depth, f);
    } else {
      i := FoundInAlt(g, items[1..], src, pos, depth, f);
      i := i + 1;
    }
  }

  lemma RepeatOnce(g: Rules, body: Node, k: nat, src: string, pos: nat, depth: nat, a: Found, b: Found)
    requires HooksOk(g) && pos <= |src| && depth <= MAX_DEPTH
    requires Derives(g, body, src, pos, depth, a) && a.end != pos && Repeats(g, body, k, src, a.end, depth, b)
    ensures Repeats(g, body, k + 1, src, pos, depth, Joined(a, b))
  {
  }

  /** f is st followed by k non-empty repetitions h. */
  ghost predicate Reaches(g: Rules, body: Node, src: string, level: seq<Found>, depth: nat, f: Found,
                          st: Found, h: Found, k: nat)
    requires HooksOk(g) && depth <= MAX_DEPTH
  {
    st in level && st.end <= |src| && Repeats(g, body, k, src, st.end, depth, h) && f == Joined(st, h)
  }

  lemma ReachDeeper(g: Rules, body: Node, src: string, level: seq<Found>, low: nat, depth: nat, f: Found,
                    mid: Found, b: Found, j: nat) returns (st: Found, h: Found)
    requires HooksOk(g) && Within(level, low, src) && depth <= MAX_DEPTH
    requires Reaches(g, body, src, ExtendAll(g, body, src, level, true, low, depth), depth, f, mid, b, j)
    ensures Reaches(g, body, src, level, depth, f, st, h, j + 1)
    decreases MAX_DEPTH - depth, body, 2, 0
  {
    var a;
    st, a := FoundInExtend(g, body, src, level, true, low, depth, mid);
    h := Joined(a, b);
    RepeatOnce(g, body, j, src, st.end, depth, a, b);
    JoinedAssociative(st, a, b);
  }

  lemma ReachHere(g: Rules, body: Node, src: string, level: seq<Found>, low: nat, depth: nat, f: Found)
    requires HooksOk(g) && depth <= MAX_DEPTH && Within(level, low, src) && f in level
    ensures Reaches(g, body, src, level, depth, f, f, Found(f.end, []), 0)
  {
    assert f.spans + [] == f.spans;
  }

  /** A member of AllRep is in this level or in a deeper one. */
  lemma RepSplit(g: Rules, body: Node, min: int, max: int, src: string, level: seq<Found>, low: nat, depth: nat, f: Found)
      returns (next: seq<Found>)
    requires HooksOk(g) && Within(level, low, src) && depth <= MAX_DEPTH && low <= |src| + 1
    ensures next == ExtendAll(g, body, src, level, true, low, depth)
    ensures max != 0 && next != [] ==> low <= |src| && Within(next, low + 1, src)
    ensures f in AllRep(g, body, min, max, src, level, low, depth) <==>
              || (min <= 0 && f in level)
              || (max != 0 && next != [] && f in AllRep(g, body, min - 1, max - 1, src, next, low + 1, depth))
  {
    next := ExtendAll(g, body, src, level, true, low, depth);
    if max != 0 && next != [] { assert low + 1 <= next[0].end <= |src|; }
  }

  lemma {:induction false} FoundInRep(g: Rules, body: Node, min: int, max: int, src: string, level: seq<Found>, low: nat,
                                      depth: nat, f: Found) returns (st: Found, h: Found, k: nat)
    requires HooksOk(g) && Within(level, low, src) && depth <= MAX_DEPTH && low <= |src| + 1
    requires f in AllRep(g, body, min, max, src, level, low, depth)
    ensures Reaches(g, body, src, level, depth, f, st, h, k) && min <= k && (max < 0 || k <= max)
    decreases MAX_DEPTH - depth, body, 3, |src| + 1 - low
  {
    hide *;
    var next := RepSplit(g, body, min, max, src, level, low, depth, f);
    if min <= 0 && f in level {
      st, h, k := f, Found(f.end, []), 0;
      ReachHere(g, body, src, level, low, depth, f);
    } else {
      var mid, b, j := FoundInRep(g, body, min - 1, max - 1, src, next, low + 1, depth, f);
      st, h := ReachDeeper(g, body, src, level, low, depth, f, mid, b, j);
      k := j + 1;
    }
  }

  // ---------- Everything that derives is found ----------

  lemma {:induction false} DerivedIsFound(g: Rules, n: Node, src: string, pos: nat, depth: nat, f: Found)
    requires HooksOk(g) && pos <= |src| && depth <= MAX_DEPTH
    requires Derives(g, n, src, pos, depth, f)
    ensures f in AllMatches(g, n, src, pos, depth)
    decreases MAX_DEPTH - depth, n, 0
  {
    var start := Found(pos, []);
    assert Joined(start, f) == f by { assert [] + f.spans == f.spans; }
    match n
    case Lit(_) =>
    case Class(_, _) =>
    case Ref(name) =>
      if name !in g.hooked {
        var inner: seq<Span> :| && Derives(g, g.rules[name], src, pos, depth + 1, Found(f.end, inner))
                                && f.spans == inner + Recorded(g, name, pos, f.end);
        DerivedIsFound(g, g.rules[name], src, pos, depth + 1, Found(f.end, inner));
        var all := AllMatches(g, g.rules[name], src, pos, depth + 1);
        var i :| 0 <= i < |all| && all[i] == Found(f.end, inner);
        assert RecordEach(g, name, pos, all)[i] == f;
      }
    case Seq(items) => DerivedInSeq(g, items, src, [start], pos, depth, start, f);
    case Alt(items) =>
      var i :| 0 <= i < |items| && Derives(g, items[i], src, pos, depth, f);
      DerivedInAlt(g, items, src, pos, depth, i, f);
    case Rep(body, min, max) =>
      var k: nat :| min <= k && (max < 0 || k <= max) && Repeats(g, body, k, src, pos, depth, f);
      DerivedInRep(g, body, min, max, src, [start], pos, depth, start, k, f);
  }

  lemma {:induction false} DerivedInExtend(g: Rules, n: Node, src: string, states: seq<Found>, proper: bool, low: nat,
                                           depth: nat, st: Found, h: Found)
    requires HooksOk(g) && Within(states, low, src) && depth <= MAX_DEPTH
    requires st in states && st.end <= |src| && Derives(g, n, src, st.end, depth, h) && (proper ==> h.end != st.end)
    ensures Joined(st, h) in ExtendAll(g, n, src, states, proper, low, depth)
    decreases MAX_DEPTH - depth, n, 1, |states|
  {
    if st == states[0] {
      DerivedIsFound(g, n, src, st.end, depth, h);
      var here := AllMatches(g, n, src, st.end, depth);
      var kept := if proper then Longer(here, st.end) else here;
      if proper { LongerKeeps(here, st.end, h); }
      var i :| 0 <= i < |kept| && kept[i] == h;
      assert JoinEach(st, kept)[i] == Joined(st, h);
    } else {
      DerivedInExtend(g, n, src, states[1..], proper, low, depth, st, h);
    }
  }

  lemma {:induction false} DerivedInSeq(g: Rules, items: seq<Node>, src: string, states: seq<Found>, low: nat,
                                        depth: nat, st: Found, h: Found)
    requires HooksOk(g) && Within(states, low, src) && depth <= MAX_DEPTH
    requires st in states && st.end <= |src| && DerivesSeq(g, items, src, st.end, depth, h)
    ensures Joined(st, h) in AllSeq(g, items, src, states, low, depth)
    decreases MAX_DEPTH - depth, items, 0
  {
    if items == [] {
      assert st.spans + [] == st.spans;
    } else {
      var a: Found, b: Found :| Derives(g, items[0], src, st.end, depth, a)
                                && DerivesSeq(g, items[1..], src, a.end, depth, b) && h == Joined(a, b);
      DerivedInExtend(g, items[0], src, states, false, low, depth, st, a);
      DerivedInSeq(g, items[1..], src, ExtendAll(g, items[0], src, states, false, low, depth), low, depth, Joined(st, a), b);
      JoinedAssociative(st, a, b);
    }
  }

  lemma {:induction false} DerivedInAlt(g: Rules, items: seq<Node>, src: string, pos: nat, depth: nat, i: nat, f: Found)
    requires HooksOk(g) && pos <= |src| && depth <= MAX_DEPTH
    requires i < |items| && Derives(g, items[i], src, pos, depth, f)
    ensures f in AllAlt(g, items, src, pos, depth)
    decreases MAX_DEPTH - depth, items, 0
  {
    if i == 0 { DerivedIsFound(g, items[0], src, pos, depth, f); }
    else { DerivedInAlt(g, items[1..], src, pos, depth, i - 1, f); }
  }

  lemma DerivedDeeper(g: Rules, body: Node, src: string, level: seq<Found>, low: nat, depth: nat,
                      st: Found, k: nat, h: Found) returns (mid: Found, b: Found)
    requires HooksOk(g) && Within(level, low, src) && depth <= MAX_DEPTH && k > 0
    requires st in level && st.end <= |src| && Repeats(g, body, k, src, st.end, depth, h)
    ensures mid in ExtendAll(g, body, src, level, true, low, depth) && Joined(st, h) == Joined(mid, b)
    ensures mid.end <= |src| && Repeats(g, body, k - 1, src, mid.end, depth, b)
    decreases MAX_DEPTH - depth, body, 2, 0
  {
    var a: Found;
    a, b :| Derives(g, body, src, st.end, depth, a) && a.end != st.end
            && Repeats(g, body, k - 1, src, a.end, depth, b) && h == Joined(a, b);
    DerivedInExtend(g, body, src, level, true, low, depth, st, a);
    JoinedAssociative(st, a, b);
    mid := Joined(st, a);
  }

  lemma {:induction false} DerivedInRep(g: Rules, body: Node, min: int, max: int, src: string, level: seq<Found>, low: nat,
                                        depth: nat, st: Found, k: nat, h: Found)
    requires HooksOk(g) && Within(level, low, src) && depth <= MAX_DEPTH && low <= |src| + 1
    requires st in level && st.end <= |src| && Repeats(g, body, k, src, st.end, depth, h)
    requires min <= k && (max < 0 || k <= max)
    ensures Joined(st, h) in AllRep(g, body, min, max, src, level, low, depth)
    decreases MAX_DEPTH - depth, body, 3, |src| + 1 - low
  {
    hide *;
    var next := RepSplit(g, body, min, max, src, level, low, depth, Joined(st, h));
    if k == 0 {
      NoRepeat(g, body, src, depth, st, h);
    } else {
      var mid, b := DerivedDeeper(g, body, src, level, low, depth, st, k, h);
      DerivedInRep(g, body, min - 1, max - 1, src, next, low + 1, depth, mid, k - 1, b);
    }
  }

  lemma NoRepeat(g: Rules, body: Node, src: string, depth: nat, st: Found, h: Found)
    requires HooksOk(g) && depth <= MAX_DEPTH && st.end <= |src| && Repeats(g, body, 0, src, st.end, depth, h)
    ensures Joined(st, h) == st
  {
    assert st.spans + [] == st.spans;
  }

  /** matchAll returns exactly the ends and trails of the grammar's derivations. */
  lemma MatchAllIsDerivation(g: Rules, n: Node, src: string, pos: nat, depth: nat, f: Found)
    requires HooksOk(g) && pos <= |src| && depth <= MAX_DEPTH
    ensures f in AllMatches(g, n, src, pos, depth) <==> Derives(g, n, src, pos, depth, f)
  {
    if f in AllMatches(g, n, src, pos, depth) { FoundDerives(g, n, src, pos, depth, f); }
    if Derives(g, n, src, pos, depth, f) { DerivedIsFound(g, n, src, pos, depth, f); }
  }

  // ---------- The deterministic match finds one of them ----------

  lemma {:induction false} MatchDerives(g: Rules, n: Node, src: string, pos: nat, depth: nat)
    requires HooksOk(g) && pos <= |src| && depth <= MAX_DEPTH && Match(g, n, src, pos, depth).ok
    ensures var r := Match(g, n, src, pos, depth);
            Derives(g, n, src, pos, depth, Found(r.end, r.spans))
    decreases MAX_DEPTH - depth, n, 0
  {
    match n
    case Lit(_) =>
    case Class(_, _) =>
    case Ref(name) => if name !in g.hooked { MatchDerives(g, g.rules[name], src, pos, depth + 1); }
    case Seq(items) => MatchSeqDerives(g, items, src, pos, depth);
    case Alt(items) => var i := MatchAltDerives(g, items, src, pos, depth);
    case Rep(body, min, max) => MatchRepDerives(g, body, max, src, pos, depth);
  }

  lemma {:induction false} MatchSeqDerives(g: Rules, items: seq<Node>, src: string, pos: nat, depth: nat)
    requires HooksOk(g) && pos <= |src| && depth <= MAX_DEPTH && MatchSeq(g, items, src, pos, depth).ok
    ensures var r := MatchSeq(g, items, src, pos, depth);
            DerivesSeq(g, items, src, pos, depth, Found(r.end, r.spans))
    decreases MAX_DEPTH - depth, items, 0
  {
    if items != [] {
      MatchDerives(g, items[0], src, pos, depth);
      var r := Match(g, items[0], src, pos, depth);
      MatchSeqDerives(g, items[1..], src, r.end, depth);
      var q := MatchSeq(g, items[1..], src, r.end, depth);
      assert Joined(Found(r.end, r.spans), Found(q.end, q.spans)) == Found(q.end, r.spans + q.spans);
    }
  }

  lemma {:induction false} MatchAltDerives(g: Rules, items: seq<Node>, src: string, pos: nat, depth: nat) returns (i: nat)
    requires HooksOk(g) && pos <= |src| && depth <= MAX_DEPTH && MatchAlt(g, items, src, pos, depth).ok
    ensures var r := MatchAlt(g, items, src, pos, depth);
            i < |items| && Derives(g, items[i], src, pos, depth, Found(r.end, r.spans))
    decreases MAX_DEPTH - depth, items, 0
  {
    if Match(g, items[0], src, pos, depth).ok {
      i := 0;
      MatchDerives(g, items[0], src, pos, depth);
    } else {
      i := MatchAltDerives(g, items[1..], src, pos, depth);
      i := i + 1;
    }
  }

  lemma {:induction false} MatchRepDerives(g: Rules, body: Node, max: int, src: string, pos: nat, depth: nat)
    requires HooksOk(g) && pos <= |src| && depth <= MAX_DEPTH
    ensures var r := MatchRep(g, body, max, src, pos, depth);
            Repeats(g, body, r.count, src, pos, depth, Found(r.end, r.spans)) && (max < 0 || r.count <= max)
    decreases MAX_DEPTH - depth, body, 1, |src| - pos
  {
    if max != 0 {
      var r := Match(g, body, src, pos, depth);
      if r.ok && r.end != pos {
        MatchDerives(g, body, src, pos, depth);
        MatchRepDerives(g, body, max - 1, src, r.end, depth);
        var q := MatchRep(g, body, max - 1, src, r.end, depth);
        assert Joined(Found(r.end, r.spans), Found(q.end, q.spans)) == Found(q.end, r.spans + q.spans);
      }
    }
  }

  /** Whenever the deterministic match succeeds, matchAll holds a state with the same end and trail. */
  lemma MatchIsAmongAll(g: Rules, n: Node, src: string, pos: nat, depth: nat)
    requires HooksOk(g) && pos <= |src| && depth <= MAX_DEPTH && Match(g, n, src, pos, depth).ok
    ensures var r := Match(g, n, src, pos, depth);
            Found(r.end, r.spans) in AllMatches(g, n, src, pos, depth)
  {
    MatchDerives(g, n, src, pos, depth);
    var r := Match(g, n, src, pos, depth);
    DerivedIsFound(g, n, src, pos, depth, Found(r.end, r.spans));
  }

  // ---------- matchAll and Match as the source runs them ----------

  function From(g: Rules, n: Node, src: string, st: Found, proper: bool, depth: nat): seq<Found>
    requires HooksOk(g) && st.end <= |src| && depth <= MAX_DEPTH
  {
    var here := AllMatches(g, n, src, st.end, depth);
    JoinEach(st, if proper then Longer(here, st.end) else here)
  }

  lemma ExtendFirst(g: Rules, n: Node, src: string, states: seq<Found>, proper: bool, low: nat, depth: nat)
    requires HooksOk(g) && Within(states, low, src) && depth <= MAX_DEPTH && states != []
    ensures ExtendAll(g, n, src, states, proper, low, depth) ==
            From(g, n, src, states[0], proper, depth) + ExtendAll(g, n, src, states[1..], proper, low, depth)
  {
  }

  lemma ExtendNone(g: Rules, n: Node, src: string, proper: bool, low: nat, depth: nat)
    requires HooksOk(g) && depth <= MAX_DEPTH
    ensures ExtendAll(g, n, src, [], proper, low, depth) == []
  {
  }

  lemma {:induction false} ExtendAppend(g: Rules, n: Node, src: string, states: seq<Found>, k: nat, proper: bool, low: nat, depth: nat)
    requires HooksOk(g) && Within(states, low, src) && depth <= MAX_DEPTH && k < |states|
    ensures Within(states[..k], low, src) && Within(states[..k+1], low, src) && states[k].end <= |src|
    ensures ExtendAll(g, n, src, states[..k+1], proper, low, depth) ==
            ExtendAll(g, n, src, states[..k], proper, low, depth) + From(g, n, src, states[k], proper, depth)
    decreases k
  {
    hide ExtendAll, From;
    assert Within(states[1..], low, src);
    ExtendFirst(g, n, src, states[..k+1], proper, low, depth);
    if k == 0 {
      assert states[..1][1..] == [] && states[..0] == [];
      ExtendNone(g, n, src, proper, low, depth);
    } else {
      ExtendFirst(g, n, src, states[..k], proper, low, depth);
      ExtendAppend(g, n, src, states[1..], k - 1, proper, low, depth);
      assert states[..k+1][1..] == states[1..][..k] && states[..k][1..] == states[1..][..k-1];
    }
  }

  /** The levels from the last down to the minimum, as the source appends them. */
  function Deepest(levels: seq<seq<Found>>, min: nat): seq<Found> {
    if |levels| <= min then [] else levels[|levels| - 1] + Deepest(levels[..|levels| - 1], min)
  }

  /** The depth counts the references entered; a state is its end and the spans added to the trail. */
  method MatchAll(g: Rules, n: Node, src: string, pos: nat, depth: nat) returns (out: seq<Found>)
    requires HooksOk(g) && pos <= |src| && depth <= MAX_DEPTH
    ensures out == AllMatches(g, n, src, pos, depth)
    decreases MAX_DEPTH - depth, n, 2
  {
    match n
    case Lit(text) => out := if HasPrefixAt(src, pos, text) then [Found(pos + |text|, [])] else [];
    case Class(_, _) => out := if pos < |src| && InClass(n, src[pos]) then [Found(pos + 1, [])] else [];
    case Ref(name) =>
      if name in g.hooked {
        var e := g.hook(name, src, pos);
        return if e.Some? then [Found(e.value, [])] else [];
      }
      if depth >= MAX_DEPTH || name !in g.rules { return []; }
      out := MatchAll(g, g.rules[name], src, pos, depth + 1);
      out := RecordEach(g, name, pos, out);
    case Seq(_) => out := MatchAllSeq(g, n, src, pos, depth);
    case Alt(_) => out := MatchAllAlt(g, n, src, pos, depth);
    case Rep(_, _, _) => out := MatchAllRep(g, n, src, pos, depth);
  }

  method MatchAllSeq(g: Rules, n: Node, src: string, pos: nat, depth: nat) returns (out: seq<Found>)
    requires n.Seq? && HooksOk(g) && pos <= |src| && depth <= MAX_DEPTH
    ensures out == AllMatches(g, n, src, pos, depth)
    decreases MAX_DEPTH - depth, n, 1
  {
    hide ExtendAll;
    var items, states := n.items, [Found(pos, [])];
    for i := 0 to |items|
      invariant Within(states, pos, src)
      invariant AllSeq(g, items, src, [Found(pos, [])], pos, depth) == AllSeq(g, items[i..], src, states, pos, depth)
    {
      assert items[i..][1..] == items[i + 1..];
      states := Extend(g, items[i], src, states, false, pos, depth);
      if |states| == 0 {
        NothingLeft(g, items[i + 1..], src, pos, depth);
        return [];
      }
    }
    return states;
  }

  method MatchAllAlt(g: Rules, n: Node, src: string, pos: nat, depth: nat) returns (out: seq<Found>)
    requires n.Alt? && HooksOk(g) && pos <= |src| && depth <= MAX_DEPTH
    ensures out == AllMatches(g, n, src, pos, depth)
    decreases MAX_DEPTH - depth, n, 1
  {
    hide AllMatches;
    var items := n.items;
    out := [];
    for i := 0 to |items|
      invariant AllAlt(g, items, src, pos, depth) == out + AllAlt(g, items[i..], src, pos, depth)
    {
      assert items[i..][1..] == items[i + 1..];
      var more := MatchAll(g, items[i], src, pos, depth);
      out := out + more;
    }
    AltIsAll(g, n, src, pos, depth);
  }

  lemma AltIsAll(g: Rules, n: Node, src: string, pos: nat, depth: nat)
    requires n.Alt? && HooksOk(g) && pos <= |src| && depth <= MAX_DEPTH
    ensures AllMatches(g, n, src, pos, depth) == AllAlt(g, n.items, src, pos, depth)
  {
    hide AllAlt;
  }

  lemma NothingLeft(g: Rules, items: seq<Node>, src: string, low: nat, depth: nat)
    requires HooksOk(g) && depth <= MAX_DEPTH && low <= |src|
    ensures AllSeq(g, items, src, [], low, depth) == []
  {
  }

  method Extend(g: Rules, n: Node, src: string, states: seq<Found>, proper: bool, ghost low: nat, depth: nat) returns (next: seq<Found>)
    requires HooksOk(g) && Within(states, low, src) && depth <= MAX_DEPTH
    ensures next == ExtendAll(g, n, src, states, proper, low, depth)
    decreases MAX_DEPTH - depth, n, 3
  {
    next := [];
    ExtendNone(g, n, src, proper, low, depth);
    assert states[..0] == [];
    for i := 0 to |states|
      invariant next == ExtendAll(g, n, src, states[..i], proper, low, depth)
    {
      ExtendAppend(g, n, src, states, i, proper, low, depth);
      var here := MatchAll(g, n, src, states[i].end, depth);
      next := next + JoinEach(states[i], if proper then Longer(here, states[i].end) else here);
    }
    assert states[..|states|] == states;
  }

  lemma RepEquation(g: Rules, body: Node, min: int, max: int, src: string, level: seq<Found>, low: nat, depth: nat, next: seq<Found>)
    requires HooksOk(g) && Within(level, low, src) && depth <= MAX_DEPTH && low <= |src| + 1
    requires next == if max == 0 then [] else ExtendAll(g, body, src, level, true, low, depth)
    ensures var here := if min <= 0 then level else [];
            if next == [] then AllRep(g, body, min, max, src, level, low, depth) == here
            else low <= |src| && Within(next, low + 1, src) &&
                 AllRep(g, body, min, max, src, level, low, depth) ==
                 AllRep(g, body, min - 1, max - 1, src, next, low + 1, depth) + here
  {
    if next != [] { assert low + 1 <= next[0].end <= |src|; }
  }

  lemma DeepestPush(levels: seq<seq<Found>>, level: seq<Found>, min: nat)
    ensures Deepest(levels + [level], min) == (if min <= |levels| then level else []) + Deepest(levels, min)
  {
    assert (levels + [level])[..|levels|] == levels;
  }

  method MatchAllRep(g: Rules, n: Node, src: string, pos: nat, depth: nat) returns (out: seq<Found>)
    requires n.Rep? && HooksOk(g) && pos <= |src| && depth <= MAX_DEPTH
    ensures out == AllMatches(g, n, src, pos, depth)
    decreases MAX_DEPTH - depth, n, 1
  {
    hide ExtendAll, AllRep, Deepest, Derives, Repeats;
    var start := [Found(pos, [])];
    var levels := LevelsOf(g, n, src, start, pos, depth);
    out := [];
    var k := |levels|;
    assert levels[..k] == levels;
    while k > n.min
      invariant 0 <= k <= |levels|
      invariant Deepest(levels, n.min) == out + Deepest(levels[..k], n.min)
    {
      assert levels[..k] == levels[..k - 1] + [levels[k - 1]];
      DeepestPush(levels[..k - 1], levels[k - 1], n.min);
      k := k - 1;
      out := out + levels[k];
    }
    DeepestEnd(levels[..k], n.min);
  }

  lemma DeepestEnd(levels: seq<seq<Found>>, min: nat)
    requires |levels| <= min
    ensures Deepest(levels, min) == []
  {
  }

  /** The states after no repetition, after one, and so on, until there is none or enough. */
  method LevelsOf(g: Rules, n: Node, src: string, start: seq<Found>, pos: nat, depth: nat) returns (levels: seq<seq<Found>>)
    requires n.Rep? && HooksOk(g) && pos <= |src| && depth <= MAX_DEPTH && Within(start, pos, src)
    ensures Deepest(levels, n.min) == AllRep(g, n.body, n.min, n.max, src, start, pos, depth)
    decreases MAX_DEPTH - depth, n, 0
  {
    hide ExtendAll, AllRep, Deepest, Derives, Repeats;
    var done: seq<seq<Found>>, level, count := [], start, 0;
    ghost var all := AllRep(g, n.body, n.min, n.max, src, start, pos, depth);
    DeepestEnd(done, n.min);
    while true
      invariant |done| == count && pos + count <= |src| + 1 && (n.max >= 0 ==> count <= n.max)
      invariant Within(level, pos + count, src)
      invariant all == AllRep(g, n.body, n.min - count, n.max - count, src, level, pos + count, depth) + Deepest(done, n.min)
      decreases |src| + 1 - pos - count
    {
      var next: seq<Found> := [];
      if n.max < 0 || count < n.max {
        next := Extend(g, n.body, src, level, true, pos + count, depth);
      }
      RepEquation(g, n.body, n.min - count, n.max - count, src, level, pos + count, depth, next);
      DeepestPush(done, level, n.min);
      if |next| == 0 { return done + [level]; }
      done := done + [level];
      level := next;
      count := count + 1;
    }
  }

  /** Match accepts a source exactly when the rule derives the whole of it. */
  method MatchWhole(g: Rules, rule: string, src: string) returns (ok: bool)
    requires HooksOk(g)
    ensures ok <==> rule in g.rules && exists spans: seq<Span> :: Derives(g, g.rules[rule], src, 0, 0, Found(|src|, spans))
  {
    if rule !in g.rules { return false; }
    var states := MatchAll(g, g.rules[rule], src, 0, 0);
    for i := 0 to |states|
      invariant forall k :: 0 <= k < i ==> states[k].end != |src|
    {
      if states[i].end == |src| {
        FoundDerives(g, g.rules[rule], src, 0, 0, states[i]);
        assert states[i] == Found(|src|, states[i].spans);
        return true;
      }
    }
    forall spans: seq<Span> | Derives(g, g.rules[rule], src, 0, 0, Found(|src|, spans)) ensures false {
      DerivedIsFound(g, g.rules[rule], src, 0, 0, Found(|src|, spans));
    }
    return false;
  }

  /** A source the deterministic match consumes entirely is accepted by Match. */
  lemma MatchWholeAcceptsMore(g: Rules, rule: string, src: string)
    requires HooksOk(g) && rule in g.rules
    requires Match(g, g.rules[rule], src, 0, 0).ok && Match(g, g.rules[rule], src, 0, 0).end == |src|
    ensures exists spans: seq<Span> :: Derives(g, g.rules[rule], src, 0, 0, Found(|src|, spans))
  {
    MatchDerives(g, g.rules[rule], src, 0, 0);
  }

  /** ... and Match accepts sources the deterministic match rejects: after `a*` has taken every a,
      the literal a that follows finds none. */
  lemma MatchWholeAcceptsStrictlyMore(g: Rules)
    requires HooksOk(g) && "r" in g.rules
    requires g.rules["r"] == Seq([Rep(Lit("a"), 0, -1), Lit("a")])
    ensures !Match(g, g.rules["r"], "a", 0, 0).ok
    ensures Derives(g, g.rules["r"], "a", 0, 0, Found(1, []))
  {
    var a, src := Lit("a"), "a";
    var items := [Rep(a, 0, -1), a];
    assert items[1..] == [a] && [a][1..] == [];
    assert Match(g, a, src, 0, 0) == Outcome(true, 1, []);
    assert !Match(g, a, src, 1, 0).ok;
    assert MatchRep(g, a, -2, src, 1, 0) == Repeated(0, 1, []);
    assert MatchRep(g, a, -1, src, 0, 0) == Repeated(1, 1, []);
    assert !MatchSeq(g, [a], src, 1, 0).ok;
    assert Derives(g, a, src, 0, 0, Found(1, []));
    assert DerivesSeq(g, [], src, 1, 0, Found(1, []));
    assert Joined(Found(1, []), Found(1, [])) == Found(1, []) == Joined(Found(0, []), Found(1, []));
    assert DerivesSeq(g, [a], src, 0, 0, Found(1, []));
    assert Repeats(g, a, 0, src, 0, 0, Found(0, []));
    assert Derives(g, items[0], src, 0, 0, Found(0, []));
  }
}
