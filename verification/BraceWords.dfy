/** Brace expansion by the first brace (expand/braces.go): the words the recursion yields, against the
    product of alternatives, and exactly when they are it. */
module BraceWords {
  import opened NumericLoop
  import opened Words

  // ---------- Merging adjacent literals ----------

  function Push(out: Parts, p: Part): Parts {
    if p.Lit? && out != [] && out[|out| - 1].Lit? then
      out[..|out| - 1] + [Lit(out[|out| - 1].value + p.value)]
    else out + [p]
  }

  function Merged(parts: Parts): Parts {
    if parts == [] then [] else Push(Merged(parts[..|parts| - 1]), parts[|parts| - 1])
  }

  method MergeAdjacentLits(parts: Parts) returns (out: Parts)
    ensures out == Merged(parts)
  {
    hide Merged;
    out := [];
    MergedNothing();
    assert parts[..0] == [];
    for i := 0 to |parts|
      invariant out == Merged(parts[..i])
    {
      var part := parts[i];
      MergedLast(parts[..i], part);
      assert parts[..i + 1] == parts[..i] + [part];
      if !part.Lit? || |out| == 0 {
        out := out + [part];
        continue;
      }
      var prev := out[|out| - 1];
      if !prev.Lit? {
        out := out + [part];
        continue;
      }
      out := out[..|out| - 1] + [Lit(prev.value + part.value)];
    }
    assert parts[..|parts|] == parts;
  }

  lemma MergedNothing()
    ensures Merged([]) == []
  {
  }

  lemma MergedLast(parts: Parts, p: Part)
    ensures Merged(parts + [p]) == Push(Merged(parts), p)
  {
    hide Push;
    assert (parts + [p])[..|parts|] == parts;
  }

  predicate NoAdjacentLits(w: Parts) {
    forall i :: 0 < i < |w| ==> !(w[i - 1].Lit? && w[i].Lit?)
  }

  lemma {:induction false} MergedIsMerged(parts: Parts)
    ensures NoAdjacentLits(Merged(parts))
    ensures NoBraces(parts) ==> NoBraces(Merged(parts))
  {
    if parts != [] { MergedIsMerged(parts[..|parts| - 1]); }
  }

  lemma PushTwice(out: Parts, a: string, b: string)
    ensures Push(Push(out, Lit(a)), Lit(b)) == Push(out, Lit(a + b))
  {
    if out != [] && out[|out| - 1].Lit? {
      var v := out[|out| - 1].value;
      assert v + a + b == v + (a + b);
    }
  }

  /** Merging a part of a word first changes nothing. */
  lemma {:induction false} MergedWithin(left: Parts, x: Parts)
    ensures Merged(left + Merged(x)) == Merged(left + x)
  {
    hide Merged, Push;
    if x == [] {
      MergedNothing();
    } else {
      var y, p := x[..|x| - 1], x[|x| - 1];
      assert x == y + [p] && left + x == left + y + [p];
      MergedLast(y, p);
      MergedLast(left + y, p);
      MergedWithin(left, y);
      PushWithin(left, Merged(y), p);
    }
  }

  lemma PushWithin(left: Parts, m: Parts, p: Part)
    ensures Merged(left + Push(m, p)) == Push(Merged(left + m), p)
  {
    hide Merged;
    if p.Lit? && m != [] && m[|m| - 1].Lit? {
      var front, last := m[..|m| - 1], m[|m| - 1];
      assert m == front + [last];
      assert left + m == left + front + [last];
      assert left + Push(m, p) == left + front + [Lit(last.value + p.value)];
      MergedLast(left + front, last);
      MergedLast(left + front, Lit(last.value + p.value));
      PushTwice(Merged(left + front), last.value, p.value);
    } else {
      assert left + (m + [p]) == left + m + [p];
      MergedLast(left + m, p);
    }
  }

  // ---------- What the recursion yields ----------

  /** No more words than this are handed over. */
  const LIMIT: nat := 0x4000

  predicate Empty(p: Part) { p.Lit? && p.value == "" }

  /** Some part that is not empty literal text. */
  predicate Meaningful(parts: Parts) {
    exists i :: 0 <= i < |parts| && !Empty(parts[i])
  }

  /** What the parser guarantees: every list has an alternative, and operands are 64-bit numbers. */
  predicate ParsedHere(p: Part) {
    (p.List? ==> p.elems != []) && (p.Sequence? ==> OperandsIn64(p))
  }

  predicate Parsed(w: Parts) { Everywhere(w, ParsedHere) }

  /** Every sequence at any depth fits its loop. */
  predicate FitsHere(p: Part) { p.Sequence? ==> Fits(p) }

  predicate AllFit(w: Parts) { Everywhere(w, FitsHere) }

  /** Where the first brace is, or the length. */
  function FirstBrace(w: Parts): (i: nat)
    ensures i <= |w| && NoBraces(w[..i]) && (i < |w| ==> IsBrace(w[i]))
  {
    if w == [] || IsBrace(w[0]) then 0
    else
      assert w == [w[0]] + w[1..];
      1 + FirstBrace(w[1..])
  }

  /** How often the loop over a sequence goes round, counted past its last number and past the limit: a
      loop that wraps around may go on for ever, and is then cut there. */
  function LoopCount(p: Part): (count: nat)
    requires p.Sequence?
    ensures count > 0
  {
    LoopFrom(p, 0, (if Count(p) > LIMIT then Count(p) else LIMIT) + 1)
  }

  /** The number of alternatives of a brace, and the parts of each. */
  function Choices(p: Part): nat
    requires IsBrace(p)
  {
    if p.List? then |p.elems| else LoopCount(p)
  }

  function Choice(p: Part, k: nat): Parts
    requires IsBrace(p) && k < Choices(p)
  {
    if p.List? then p.elems[k].parts else [Lit(Decimal(p.width, LoopNumber(p, k)))]
  }

  predicate OnlyEmptyElems(elems: seq<Word>) {
    forall k :: 0 <= k < |elems| ==> !Meaningful(elems[k].parts)
  }

  /** An empty list element is skipped when nothing at all surrounds it, unless it is the first of a list
      of empty elements. */
  predicate Elided(p: Part, k: nat, left: Parts, rest: Parts)
    requires IsBrace(p) && k < Choices(p)
  {
    p.List? && !Meaningful(Choice(p, k)) && !Meaningful(left) && !Meaningful(rest) &&
    (!OnlyEmptyElems(p.elems) || k > 0)
  }

  function Prefixed(left: Parts, ws: seq<Parts>): (r: seq<Parts>)
    ensures |r| == |ws| && forall i :: 0 <= i < |r| ==> r[i] == Merged(left + ws[i])
  {
    seq(|ws|, i requires 0 <= i < |ws| => Merged(left + ws[i]))
  }

  /** The words the recursion yields, in order. */
  function Yields(w: Parts): seq<Parts>
    decreases Braces(w), 1, 0
  {
    var i := FirstBrace(w);
    if i == |w| then [Merged(w)] else YieldsFrom(w, i, 0)
  }

  /** ... from the k-th alternative of the first brace on. */
  function YieldsFrom(w: Parts, i: nat, k: nat): seq<Parts>
    requires i < |w| && IsBrace(w[i]) && k <= Choices(w[i])
    decreases Braces(w), 0, Choices(w[i]) - k
  {
    if k == Choices(w[i]) then []
    else
      (if Elided(w[i], k, w[..i], w[i + 1..]) then []
       else
         ChoiceShrinks(w, i, k);
         Prefixed(w[..i], Yields(Choice(w[i], k) + w[i + 1..])))
      + YieldsFrom(w, i, k + 1)
  }

  lemma ChoiceShrinks(w: Parts, i: nat, k: nat)
    requires i < |w| && IsBrace(w[i]) && k < Choices(w[i])
    ensures Braces(Choice(w[i], k) + w[i + 1..]) < Braces(w)
  {
    hide Braces;
    if w[i].List? {
      assert Word(w[i].elems[k].parts) == w[i].elems[k];
    }
    ChoosingShrinks(w, i, Choice(w[i], k));
  }

  // ---------- Which words lose alternatives ----------

  /** An empty element beside another one. */
  predicate HasGap(elems: seq<Word>) {
    |elems| > 1 && exists k :: 0 <= k < |elems| && !Meaningful(elems[k].parts)
  }

  /** Nothing but empty text need stand at the end of the word, after its last chosen alternative. */
  predicate Bare(w: Parts) {
    if w == [] then true
    else
      var init, last := w[..|w| - 1], w[|w| - 1];
      if Empty(last) then Bare(init)
      else last.List? && exists k :: 0 <= k < |last.elems| && Bare(last.elems[k].parts)
  }

  /** The last part that is not empty text is a list that has an empty element and may stand bare behind the
      brace before it, or one of whose elements loses an alternative itself. */
  predicate Skips(w: Parts) {
    if w == [] then false
    else
      var init, last := w[..|w| - 1], w[|w| - 1];
      if Empty(last) then Skips(init)
      else
        last.List? &&
        ((HasGap(last.elems) && Bare(init)) || exists k :: 0 <= k < |last.elems| && Skips(last.elems[k].parts))
  }

  lemma MeaningfulLast(init: Parts, p: Part)
    ensures Meaningful(init + [p]) <==> Meaningful(init) || !Empty(p)
  {
    hide Empty;
    var w := init + [p];
    assert w[|init|] == p && forall i :: 0 <= i < |init| ==> w[i] == init[i];
    if Meaningful(init) {
      var i :| 0 <= i < |init| && !Empty(init[i]);
      assert !Empty(w[i]);
    }
  }

  /** Empty text at the end changes nothing. */
  lemma {:induction false} EmptyTail(a: Parts, e: Parts)
    requires !Meaningful(e)
    ensures Skips(a + e) == Skips(a) && Bare(a + e) == Bare(a)
  {
    hide Skips, Bare, Meaningful;
    if e == [] {
      assert a + e == a;
    } else {
      var init, p := e[..|e| - 1], e[|e| - 1];
      assert e == init + [p] && a + e == a + init + [p];
      MeaningfulLast(init, p);
      EmptyTail(a, init);
      LastPart(a + init, p);
    }
  }

  /** What the last part decides. */
  lemma LastPart(init: Parts, p: Part)
    ensures Bare(init + [p]) == if Empty(p) then Bare(init)
                                else p.List? && exists k :: 0 <= k < |p.elems| && Bare(p.elems[k].parts)
    ensures Skips(init + [p]) == if Empty(p) then Skips(init)
                                 else
                                   p.List? &&
                                   ((HasGap(p.elems) && Bare(init)) ||
                                    exists k :: 0 <= k < |p.elems| && Skips(p.elems[k].parts))
  {
    hide Meaningful, HasGap;
    assert (init + [p])[..|init|] == init;
  }

  /** The last part that is not empty text. */
  lemma {:induction false} LastMeaningful(b: Parts) returns (c: Parts, p: Part, e: Parts)
    requires Meaningful(b)
    ensures b == c + [p] + e && !Empty(p) && !Meaningful(e)
  {
    hide Empty;
    var init, last := b[..|b| - 1], b[|b| - 1];
    assert b == init + [last];
    MeaningfulLast(init, last);
    if Empty(last) {
      c, p, e := LastMeaningful(init);
      MeaningfulLast(e, last);
      assert b == c + [p] + (e + [last]);
      e := e + [last];
    } else {
      c, p, e := init, last, [];
      assert b == c + [p] + e;
    }
  }

  /** Only what follows the last chosen alternative decides whether a word ends bare. */
  lemma BareAppend(a: Parts, b: Parts)
    ensures Bare(a + b) == if Meaningful(b) then Bare(b) else Bare(a)
  {
    hide Bare, Meaningful, Empty, Skips;
    if Meaningful(b) {
      var c, p, e := LastMeaningful(b);
      assert a + b == a + c + [p] + e;
      EmptyTail(a + c + [p], e);
      EmptyTail(c + [p], e);
      LastPart(a + c, p);
      LastPart(c, p);
    } else {
      EmptyTail(a, b);
    }
  }

  lemma SkipsAt(a: Parts, p: Part, e: Parts)
    requires !Empty(p) && !Meaningful(e)
    ensures Skips(a + [p] + e) ==
            (p.List? && ((HasGap(p.elems) && Bare(a)) || exists k :: 0 <= k < |p.elems| && Skips(p.elems[k].parts)))
  {
    hide Skips, Bare, Meaningful, Empty, HasGap;
    EmptyTail(a + [p], e);
    LastPart(a, p);
  }

  lemma PlainBare(left: Parts)
    requires NoBraces(left)
    ensures Bare(left) <==> !Meaningful(left)
  {
    hide Bare, Skips, Empty, Meaningful;
    if Meaningful(left) {
      var c, p, e := LastMeaningful(left);
      assert left[|c|] == p;
      EmptyTail(c + [p], e);
      LastPart(c, p);
    } else {
      EmptyTail([], left);
      assert [] + left == left;
      assert Bare([]) by { BareNothing(); }
    }
  }

  lemma BareNothing()
    ensures Bare([]) && !Skips([]) && !Meaningful([])
  {
  }

  /** The guard that skips an alternative can fire for some alternative exactly if ... */
  lemma ElidesSome(p: Part, left: Parts, rest: Parts)
    requires IsBrace(p)
    ensures (exists k :: 0 <= k < Choices(p) && Elided(p, k, left, rest)) <==>
            p.List? && HasGap(p.elems) && !Meaningful(left) && !Meaningful(rest)
  {
    hide Meaningful, LoopCount;
    if p.List? && HasGap(p.elems) && !Meaningful(left) && !Meaningful(rest) {
      var k :| 0 <= k < |p.elems| && !Meaningful(p.elems[k].parts);
      if OnlyEmptyElems(p.elems) {
        assert Elided(p, 1, left, rest);
      } else {
        assert Elided(p, k, left, rest);
      }
    }
    if k :| 0 <= k < Choices(p) && Elided(p, k, left, rest) {
      assert !Meaningful(p.elems[k].parts);
      if !OnlyEmptyElems(p.elems) {
        var j :| 0 <= j < |p.elems| && Meaningful(p.elems[j].parts);
        assert j != k;
      }
    }
  }

  /** A chosen alternative ends bare as its brace may. */
  lemma BareChoice(left: Parts, br: Part, mid: Parts)
    requires IsBrace(br) && Choices(br) > 0
    ensures Bare(left + [br] + mid) <==> exists k :: 0 <= k < Choices(br) && Bare(Choice(br, k) + mid)
  {
    hide Bare, Meaningful, Skips, LoopCount;
    BareAppend(left + [br], mid);
    LastPart(left, br);
    forall k | 0 <= k < Choices(br) ensures Bare(Choice(br, k) + mid) == if Meaningful(mid) then Bare(mid) else Bare(Choice(br, k)) {
      BareAppend(Choice(br, k), mid);
    }
    if Meaningful(mid) {
      assert Bare(left + [br] + mid) <==> Bare(Choice(br, 0) + mid);
    } else if br.Sequence? {
      forall k | 0 <= k < Choices(br) ensures !Bare(Choice(br, k)) {
        NumberNotBare(Choice(br, k)[0]);
      }
    } else {
      assert forall k :: 0 <= k < Choices(br) ==> Choice(br, k) == br.elems[k].parts;
    }
  }

  lemma NumberNotBare(p: Part)
    requires p.Lit? && p.value != ""
    ensures !Bare([p]) && !Skips([p]) && Meaningful([p])
  {
    hide Bare, Skips;
    assert [] + [p] == [p];
    LastPart([], p);
    assert !Empty([p][0]);
  }

  /** The word left to expand once the k-th alternative is chosen at a brace. */
  function Chosen(w: Parts, i: nat, k: nat): Parts
    requires i < |w| && IsBrace(w[i]) && k < Choices(w[i])
  {
    Choice(w[i], k) + w[i + 1..]
  }

  predicate ElidedAt(w: Parts, i: nat, k: nat)
    requires i < |w| && IsBrace(w[i]) && k < Choices(w[i])
  {
    Elided(w[i], k, w[..i], w[i + 1..])
  }

  /** A word loses an alternative exactly if it does at its first brace or after some choice there. */
  lemma SkipsByChoice(w: Parts, i: nat)
    requires i < |w| && NoBraces(w[..i]) && IsBrace(w[i]) && Choices(w[i]) > 0
    ensures Skips(w) <==>
            (exists k :: 0 <= k < Choices(w[i]) && ElidedAt(w, i, k)) ||
            exists k :: 0 <= k < Choices(w[i]) && Skips(Chosen(w, i, k))
  {
    hide Skips, Bare, Meaningful, LoopCount, HasGap, Elided, Choice, Choices;
    var left, br, rest := w[..i], w[i], w[i + 1..];
    ElidesSome(br, left, rest);
    if exists k :: 0 <= k < Choices(br) && ElidedAt(w, i, k) {
      var k :| 0 <= k < Choices(br) && ElidedAt(w, i, k);
      assert Elided(br, k, left, rest);
    }
    if exists k :: 0 <= k < Choices(br) && Elided(br, k, left, rest) {
      var k :| 0 <= k < Choices(br) && Elided(br, k, left, rest);
      assert ElidedAt(w, i, k);
    }
    if Meaningful(rest) {
      SkipsInRest(w, i);
    } else {
      SkipsInBrace(w, i);
    }
  }

  lemma SkipsInRest(w: Parts, i: nat)
    requires i < |w| && IsBrace(w[i]) && Choices(w[i]) > 0 && Meaningful(w[i + 1..])
    ensures Skips(w) <==> exists k :: 0 <= k < Choices(w[i]) && Skips(Chosen(w, i, k))
  {
    hide Skips, Bare, Meaningful, LoopCount, HasGap, Choice, Choices;
    var left, br, rest := w[..i], w[i], w[i + 1..];
    var c, p, e := LastMeaningful(rest);
    var deeper := p.List? && exists j :: 0 <= j < |p.elems| && Skips(p.elems[j].parts);
    assert w == left + [br] + c + [p] + e;
    SkipsAt(left + [br] + c, p, e);
    BareChoice(left, br, c);
    forall k | 0 <= k < Choices(br)
      ensures Skips(Chosen(w, i, k)) == (p.List? && ((HasGap(p.elems) && Bare(Choice(br, k) + c)) || deeper))
    {
      assert Chosen(w, i, k) == Choice(br, k) + c + [p] + e;
      SkipsAt(Choice(br, k) + c, p, e);
    }
    assert deeper ==> Skips(Chosen(w, i, 0));
  }

  lemma SkipsInBrace(w: Parts, i: nat)
    requires i < |w| && NoBraces(w[..i]) && IsBrace(w[i]) && !Meaningful(w[i + 1..])
    ensures Skips(w) <==>
            (w[i].List? && HasGap(w[i].elems) && !Meaningful(w[..i])) ||
            exists k :: 0 <= k < Choices(w[i]) && Skips(Chosen(w, i, k))
  {
    hide Skips, Bare, Meaningful, LoopCount, HasGap;
    var left, br, rest := w[..i], w[i], w[i + 1..];
    assert w == left + [br] + rest;
    SkipsAt(left, br, rest);
    PlainBare(left);
    forall k | 0 <= k < Choices(br) ensures Skips(Chosen(w, i, k)) == (br.List? && Skips(br.elems[k].parts)) {
      EmptyTail(Choice(br, k), rest);
      if br.Sequence? { NumberNotBare(Choice(br, k)[0]); }
    }
  }

  // ---------- The yielded words are the product ----------

  function AllMerged(ws: seq<Parts>): (r: seq<Parts>)
    ensures |r| == |ws| && forall i :: 0 <= i < |r| ==> r[i] == Merged(ws[i])
  {
    seq(|ws|, i requires 0 <= i < |ws| => Merged(ws[i]))
  }

  lemma PrefixedMerged(left: Parts, ws: seq<Parts>)
    ensures Prefixed(left, AllMerged(ws)) == AllMerged(Attach(left, ws))
  {
    hide Merged;
    forall i | 0 <= i < |ws| ensures Merged(left + Merged(ws[i])) == Merged(left + ws[i]) {
      MergedWithin(left, ws[i]);
    }
  }

  lemma AllMergedAppend(a: seq<Parts>, b: seq<Parts>)
    ensures AllMerged(a + b) == AllMerged(a) + AllMerged(b)
  {
    hide Merged;
  }

  /** The products of the alternatives from the k-th on. */
  function ChoiceProducts(p: Part, k: nat): seq<Parts>
    requires IsBrace(p) && k <= Choices(p)
    decreases Choices(p) - k
  {
    if k == Choices(p) then [] else Product(Choice(p, k)) + ChoiceProducts(p, k + 1)
  }

  lemma {:induction false} ChoicesOfList(p: Part, k: nat)
    requires p.List? && k <= |p.elems|
    ensures ChoiceProducts(p, k) == AllProducts(p.elems[k..])
    decreases |p.elems| - k
  {
    hide Product;
    if k < |p.elems| {
      ChoicesOfList(p, k + 1);
      assert p.elems[k..][1..] == p.elems[k + 1..];
    }
  }

  lemma {:induction false} ChoicesOfSequence(p: Part, k: nat)
    requires p.Sequence? && OperandsIn64(p) && Fits(p) && k <= Count(p) == LoopCount(p)
    ensures ChoiceProducts(p, k) == NumbersFrom(p, k)
    decreases Count(p) - k
  {
    hide Product, Count, Number, LoopCount, LoopNumber, Fits, Decimal;
    if k < Count(p) {
      ChoicesOfSequence(p, k + 1);
      InRange(p, k);
      ProductOfPlain(NumberWord(p, k));
    }
  }

  lemma {:induction false} ChoicesOfLoop(p: Part, k: nat)
    requires p.Sequence? && k <= LoopCount(p)
    ensures |ChoiceProducts(p, k)| == LoopCount(p) - k
    decreases LoopCount(p) - k
  {
    hide Product, LoopCount, LoopNumber, Decimal;
    if k < LoopCount(p) {
      ChoicesOfLoop(p, k + 1);
      ProductOfPlain(Choice(p, k));
    }
  }

  lemma {:induction false} NumbersCount(p: Part, k: nat)
    requires p.Sequence? && k <= Count(p)
    ensures |NumbersFrom(p, k)| == Count(p) - k
    decreases Count(p) - k
  {
    hide Count, NumberWord;
    if k < Count(p) { NumbersCount(p, k + 1); }
  }

  /** The choices of a brace are its alternatives if it fits, and there are more of them if it does not. */
  lemma AlternativesAreChoices(p: Part)
    requires IsBrace(p) && ParsedHere(p)
    ensures FitsHere(p) ==> Alternatives(p) == ChoiceProducts(p, 0)
    ensures !FitsHere(p) ==> |ChoiceProducts(p, 0)| > |Alternatives(p)|
  {
    hide ChoiceProducts, AllProducts, NumbersFrom, Fits, Count, OperandsIn64;
    if p.List? {
      ChoicesOfList(p, 0);
      assert p.elems[0..] == p.elems;
    } else {
      LoopCountIs(p, (if Count(p) > LIMIT then Count(p) else LIMIT) + 1);
      ChoicesOfLoop(p, 0);
      NumbersCount(p, 0);
      if Fits(p) { ChoicesOfSequence(p, 0); }
    }
  }

  /** What holds everywhere in a word holds in what is left after each choice. */
  lemma ChosenEverywhere(w: Parts, i: nat, k: nat, q: Part -> bool)
    requires i < |w| && IsBrace(w[i]) && k < Choices(w[i]) && Everywhere(w, q)
    requires forall p: Part :: p.Lit? ==> q(p)
    ensures q(w[i]) && Everywhere(Chosen(w, i, k), q)
  {
    hide Everywhere, LoopCount;
    EverywhereAt(w, i, q);
    EverywhereAppend(Choice(w[i], k), w[i + 1..], q);
    if w[i].Sequence? { EverywhereOne(Choice(w[i], k)[0], q); }
  }

  lemma Chosens(w: Parts, i: nat, k: nat)
    requires Parsed(w) && i < |w| && IsBrace(w[i]) && k < Choices(w[i])
    ensures ParsedHere(w[i]) && Parsed(Chosen(w, i, k)) && (AllFit(w) ==> FitsHere(w[i]) && AllFit(Chosen(w, i, k)))
  {
    hide Everywhere;
    ChosenEverywhere(w, i, k, ParsedHere);
    if AllFit(w) { ChosenEverywhere(w, i, k, FitsHere); }
  }

  lemma SomeChoice(w: Parts, i: nat)
    requires Parsed(w) && i < |w| && IsBrace(w[i])
    ensures Choices(w[i]) > 0 && ParsedHere(w[i])
  {
    hide Everywhere, LoopCount;
    EverywhereAt(w, i, ParsedHere);
  }

  /** If a sequence does not fit, it is this brace or it is left after some choice. */
  lemma MisfitByChoice(w: Parts, i: nat)
    requires Parsed(w) && !AllFit(w) && i < |w| && NoBraces(w[..i]) && IsBrace(w[i]) && FitsHere(w[i])
    ensures exists k :: 0 <= k < Choices(w[i]) && !AllFit(Chosen(w, i, k))
  {
    hide Everywhere, LoopCount;
    SomeChoice(w, i);
    EverywhereAt(w, i, FitsHere);
    PlainFits(w[..i]);
    forall k | 0 <= k < Choices(w[i])
      ensures AllFit(Chosen(w, i, k)) <==> AllFit(Choice(w[i], k)) && AllFit(w[i + 1..])
    {
      EverywhereAppend(Choice(w[i], k), w[i + 1..], FitsHere);
    }
    if AllFit(w[i + 1..]) {
      var k :| 0 <= k < |w[i].elems| && !Everywhere(w[i].elems[k].parts, FitsHere);
      assert Choice(w[i], k) == w[i].elems[k].parts;
    } else {
      assert !AllFit(Chosen(w, i, 0));
    }
  }

  lemma {:induction false} PlainFits(w: Parts)
    requires NoBraces(w)
    ensures AllFit(w)
  {
    if w != [] { PlainFits(w[1..]); }
  }

  /** At the k-th alternative: its product with the rest, then those of the later ones. */
  lemma ProductsFrom(w: Parts, i: nat, k: nat)
    requires i < |w| && IsBrace(w[i]) && k < Choices(w[i])
    ensures Cross(ChoiceProducts(w[i], k), Product(w[i + 1..])) ==
            Product(Chosen(w, i, k)) + Cross(ChoiceProducts(w[i], k + 1), Product(w[i + 1..]))
  {
    hide Product, Cross, Choice, Choices;
    ProductAppend(Choice(w[i], k), w[i + 1..]);
    CrossConcat(Product(Choice(w[i], k)), ChoiceProducts(w[i], k + 1), Product(w[i + 1..]));
  }

  lemma YieldsStep(w: Parts, i: nat, k: nat)
    requires i < |w| && IsBrace(w[i]) && k <= Choices(w[i])
    ensures k == Choices(w[i]) ==> YieldsFrom(w, i, k) == []
    ensures k < Choices(w[i]) && ElidedAt(w, i, k) ==> YieldsFrom(w, i, k) == [] + YieldsFrom(w, i, k + 1)
    ensures k < Choices(w[i]) && !ElidedAt(w, i, k) ==>
              YieldsFrom(w, i, k) == Prefixed(w[..i], Yields(Chosen(w, i, k))) + YieldsFrom(w, i, k + 1)
  {
    hide Yields, Elided, Choice, Choices;
  }

  lemma YieldsStart(w: Parts, i: nat)
    requires FirstBrace(w) == i < |w|
    ensures Yields(w) == YieldsFrom(w, i, 0)
  {
    hide YieldsFrom, FirstBrace;
  }

  lemma {:induction false} FirstBraceIs(w: Parts, i: nat)
    requires i <= |w| && NoBraces(w[..i]) && (i < |w| ==> IsBrace(w[i]))
    ensures FirstBrace(w) == i
  {
    if i > 0 {
      assert w[..i][0] == w[0];
      assert forall j :: 1 <= j < i ==> w[1..][..i - 1][j - 1] == w[..i][j];
      FirstBraceIs(w[1..], i - 1);
    }
  }

  lemma PlainYields(w: Parts)
    requires NoBraces(w)
    ensures Yields(w) == [Merged(w)]
  {
    hide Merged;
    assert w[..|w|] == w;
    FirstBraceIs(w, |w|);
  }

  /** A word that loses no alternative and whose sequences fit yields, in order, the product of them all. */
  lemma {:induction false} YieldsAll(w: Parts)
    requires Parsed(w) && AllFit(w) && !Skips(w)
    ensures Yields(w) == AllMerged(Product(w))
    decreases Braces(w), 1, 0
  {
    hide Product, Merged, Braces, FirstBrace, Alternatives, ChoiceProducts, YieldsFrom, Everywhere, Skips, Yields, LoopCount;
    var i := FirstBrace(w);
    if i == |w| {
      assert w[..i] == w;
      PlainYields(w);
      ProductOfPlain(w);
    } else {
      YieldsStart(w, i);
      SomeChoice(w, i);
      Chosens(w, i, 0);
      YieldsAllFrom(w, i, 0);
      AlternativesAreChoices(w[i]);
      ProductAtBrace(w, i);
    }
  }

  lemma {:induction false} YieldsAllFrom(w: Parts, i: nat, k: nat)
    requires Parsed(w) && AllFit(w) && !Skips(w)
    requires i < |w| && IsBrace(w[i]) && NoBraces(w[..i]) && k <= Choices(w[i])
    ensures YieldsFrom(w, i, k) == AllMerged(Attach(w[..i], Cross(ChoiceProducts(w[i], k), Product(w[i + 1..]))))
    decreases Braces(w), 0, Choices(w[i]) - k
  {
    hide Product, Merged, Braces, Yields, Choice, ElidedAt, Attach, AllMerged, Prefixed, Choices, Everywhere, Skips;
    hide YieldsFrom;
    var left, rest := w[..i], w[i + 1..];
    YieldsStep(w, i, k);
    if k < Choices(w[i]) {
      var later := Cross(ChoiceProducts(w[i], k + 1), Product(rest));
      ChoiceShrinks(w, i, k);
      Chosens(w, i, k);
      SkipsByChoice(w, i);
      YieldsAll(Chosen(w, i, k));
      ProductsFrom(w, i, k);
      YieldsAllFrom(w, i, k + 1);
      PrefixedMerged(left, Product(Chosen(w, i, k)));
      AttachConcat(left, Product(Chosen(w, i, k)), later);
      AllMergedAppend(Attach(left, Product(Chosen(w, i, k))), Attach(left, later));
    } else {
      NothingAttached(left);
    }
  }

  lemma NothingAttached(left: Parts)
    ensures AllMerged(Attach(left, [])) == []
  {
  }

  // ---------- How many words there are ----------

  lemma {:induction false} CrossCount(a: seq<Parts>, b: seq<Parts>)
    ensures |Cross(a, b)| == |a| * |b|
  {
    hide Attach;
    if a != [] { CrossCount(a[1..], b); }
  }

  lemma {:induction false} ProductSome(w: Parts)
    requires Parsed(w)
    ensures |Product(w)| >= 1
    decreases w, 1
  {
    hide Cross;
    if w != [] {
      ProductSome(w[1..]);
      AlternativesSome(w[0]);
      CrossCount(Alternatives(w[0]), Product(w[1..]));
      Positive(|Alternatives(w[0])|, |Product(w[1..])|);
    }
  }

  lemma Positive(a: nat, b: nat)
    requires a > 0 && b > 0
    ensures a * b > 0
  {
  }

  lemma {:induction false} AlternativesSome(p: Part)
    requires ParsedHere(p) && (p.List? ==> InElems(p.elems, ParsedHere))
    ensures |Alternatives(p)| >= 1
    decreases p, 0
  {
    hide Cross, Product;
    if p.List? {
      ProductSome(p.elems[0].parts);
    } else if p.Sequence? {
      NumbersCount(p, 0);
    }
  }

  lemma {:induction false} PlainKeeps(w: Parts)
    requires NoBraces(w)
    ensures !Skips(w)
  {
    if w != [] { PlainKeeps(w[..|w| - 1]); }
  }

  /** Some alternative from the k-th on is skipped, or something is skipped once it is chosen. */
  ghost predicate LosesFrom(w: Parts, i: nat, k: nat)
    requires i < |w| && IsBrace(w[i])
  {
    exists j: nat :: k <= j < Choices(w[i]) && (ElidedAt(w, i, j) || Skips(Chosen(w, i, j)))
  }

  lemma LosesStep(w: Parts, i: nat, k: nat)
    requires i < |w| && IsBrace(w[i]) && k < Choices(w[i])
    ensures LosesFrom(w, i, k) <==> ElidedAt(w, i, k) || Skips(Chosen(w, i, k)) || LosesFrom(w, i, k + 1)
  {
    hide ElidedAt, Skips, Chosen, Choices;
    if LosesFrom(w, i, k + 1) {
      var j: nat :| k + 1 <= j < Choices(w[i]) && (ElidedAt(w, i, j) || Skips(Chosen(w, i, j)));
      assert k <= j;
    }
  }

  /** With sequences that fit there are never more words than the product has, and fewer if any is lost. */
  lemma {:induction false} YieldsFewer(w: Parts)
    requires Parsed(w) && AllFit(w)
    ensures |Yields(w)| <= |Product(w)| && (Skips(w) ==> |Yields(w)| < |Product(w)|)
    decreases Braces(w), 1, 0
  {
    hide *;
    var i := FirstBrace(w);
    FirstBraceShape(w);
    if i == |w| {
      PlainYields(w);
      ProductOfPlain(w);
      PlainKeeps(w);
    } else {
      YieldsStart(w, i);
      SomeChoice(w, i);
      Chosens(w, i, 0);
      SkipsByChoice(w, i);
      LosesAtAll(w, i);
      YieldsFewerFrom(w, i, 0);
      AlternativesAreChoices(w[i]);
      ProductAtBrace(w, i);
      AttachCount(w[..i], Cross(Alternatives(w[i]), Product(w[i + 1..])));
    }
  }

  lemma LosesAtAll(w: Parts, i: nat)
    requires i < |w| && IsBrace(w[i])
    ensures LosesFrom(w, i, 0) <==>
            (exists k :: 0 <= k < Choices(w[i]) && ElidedAt(w, i, k)) ||
            exists k :: 0 <= k < Choices(w[i]) && Skips(Chosen(w, i, k))
  {
    hide ElidedAt, Skips, Chosen, Choices;
    if exists k :: 0 <= k < Choices(w[i]) && ElidedAt(w, i, k) {
      var k :| 0 <= k < Choices(w[i]) && ElidedAt(w, i, k);
      var j: nat := k;
      assert ElidedAt(w, i, j);
    }
    if exists k :: 0 <= k < Choices(w[i]) && Skips(Chosen(w, i, k)) {
      var k :| 0 <= k < Choices(w[i]) && Skips(Chosen(w, i, k));
      var j: nat := k;
      assert Skips(Chosen(w, i, j));
    }
  }

  lemma FirstBraceShape(w: Parts)
    ensures FirstBrace(w) <= |w| && NoBraces(w[..FirstBrace(w)])
    ensures if FirstBrace(w) < |w| then IsBrace(w[FirstBrace(w)]) else NoBraces(w)
  {
    hide FirstBrace;
    assert w[..|w|] == w;
  }

  lemma AttachCount(a: Parts, ws: seq<Parts>)
    ensures |Attach(a, ws)| == |ws|
  {
  }

  lemma PrefixedCount(left: Parts, ws: seq<Parts>)
    ensures |Prefixed(left, ws)| == |ws|
  {
  }

  lemma {:induction false} YieldsFewerFrom(w: Parts, i: nat, k: nat)
    requires Parsed(w) && AllFit(w) && i < |w| && IsBrace(w[i]) && k <= Choices(w[i])
    ensures |YieldsFrom(w, i, k)| <= |Cross(ChoiceProducts(w[i], k), Product(w[i + 1..]))|
    ensures LosesFrom(w, i, k) ==> |YieldsFrom(w, i, k)| < |Cross(ChoiceProducts(w[i], k), Product(w[i + 1..]))|
    decreases Braces(w), 0, Choices(w[i]) - k
  {
    hide *;
    YieldsStep(w, i, k);
    if k < Choices(w[i]) {
      ChoiceShrinks(w, i, k);
      assert Chosen(w, i, k) == Choice(w[i], k) + w[i + 1..] by { ChosenIs(w, i, k); }
      Chosens(w, i, k);
      LosesStep(w, i, k);
      ProductsFrom(w, i, k);
      ProductSome(Chosen(w, i, k));
      YieldsFewer(Chosen(w, i, k));
      PrefixedCount(w[..i], Yields(Chosen(w, i, k)));
      YieldsFewerFrom(w, i, k + 1);
    } else {
      LosesNothing(w, i, k);
    }
  }

  lemma ChosenIs(w: Parts, i: nat, k: nat)
    requires i < |w| && IsBrace(w[i]) && k < Choices(w[i])
    ensures Chosen(w, i, k) == Choice(w[i], k) + w[i + 1..]
  {
  }

  lemma LosesNothing(w: Parts, i: nat, k: nat)
    requires i < |w| && IsBrace(w[i]) && k >= Choices(w[i])
    ensures !LosesFrom(w, i, k)
  {
  }

  ghost predicate MisfitsFrom(w: Parts, i: nat, k: nat)
    requires i < |w| && IsBrace(w[i])
  {
    exists j: nat :: k <= j < Choices(w[i]) && !AllFit(Chosen(w, i, j))
  }

  lemma MisfitsStep(w: Parts, i: nat, k: nat)
    requires i < |w| && IsBrace(w[i])
    ensures k < Choices(w[i]) ==> (MisfitsFrom(w, i, k) <==> !AllFit(Chosen(w, i, k)) || MisfitsFrom(w, i, k + 1))
    ensures k >= Choices(w[i]) ==> !MisfitsFrom(w, i, k)
  {
    hide AllFit, Chosen, Choices;
    if MisfitsFrom(w, i, k + 1) {
      var j: nat :| k + 1 <= j < Choices(w[i]) && !AllFit(Chosen(w, i, j));
      assert k <= j;
    }
  }

  /** With nothing lost there are never fewer words than the product has, and more if a sequence does not fit. */
  lemma {:induction false} YieldsMore(w: Parts)
    requires Parsed(w) && !Skips(w)
    ensures |Yields(w)| >= |Product(w)| && (!AllFit(w) ==> |Yields(w)| > |Product(w)|)
    decreases Braces(w), 1, 0
  {
    hide *;
    var i := FirstBrace(w);
    FirstBraceShape(w);
    if i == |w| {
      PlainYields(w);
      ProductOfPlain(w);
      PlainFits(w);
    } else {
      YieldsStart(w, i);
      SomeChoice(w, i);
      YieldsMoreFrom(w, i, 0);
      AlternativesAreChoices(w[i]);
      ProductAtBrace(w, i);
      var alternatives, products, rest := Alternatives(w[i]), ChoiceProducts(w[i], 0), Product(w[i + 1..]);
      AttachCount(w[..i], Cross(alternatives, rest));
      if FitsHere(w[i]) {
        if !AllFit(w) {
          MisfitByChoice(w, i);
          MisfitsAtAll(w, i);
        }
      } else {
        RestParsed(w, i);
        ProductSome(w[i + 1..]);
        CrossCount(alternatives, rest);
        CrossCount(products, rest);
        MoreTimes(|alternatives|, |products|, |rest|);
      }
    }
  }

  lemma MisfitsAtAll(w: Parts, i: nat)
    requires i < |w| && IsBrace(w[i]) && exists k :: 0 <= k < Choices(w[i]) && !AllFit(Chosen(w, i, k))
    ensures MisfitsFrom(w, i, 0)
  {
    hide AllFit, Chosen, Choices;
    var k :| 0 <= k < Choices(w[i]) && !AllFit(Chosen(w, i, k));
    var j: nat := k;
    assert !AllFit(Chosen(w, i, j));
  }

  lemma RestParsed(w: Parts, i: nat)
    requires Parsed(w) && i < |w|
    ensures Parsed(w[i + 1..])
  {
    hide Everywhere;
    EverywhereAt(w, i, ParsedHere);
  }

  lemma MoreTimes(a: nat, b: nat, c: nat)
    requires a < b && c > 0
    ensures a * c < b * c
  {
  }

  lemma {:induction false} YieldsMoreFrom(w: Parts, i: nat, k: nat)
    requires Parsed(w) && !Skips(w) && i < |w| && NoBraces(w[..i]) && IsBrace(w[i]) && k <= Choices(w[i])
    ensures |YieldsFrom(w, i, k)| >= |Cross(ChoiceProducts(w[i], k), Product(w[i + 1..]))|
    ensures MisfitsFrom(w, i, k) ==> |YieldsFrom(w, i, k)| > |Cross(ChoiceProducts(w[i], k), Product(w[i + 1..]))|
    decreases Braces(w), 0, Choices(w[i]) - k
  {
    hide *;
    YieldsStep(w, i, k);
    MisfitsStep(w, i, k);
    if k < Choices(w[i]) {
      ChoiceShrinks(w, i, k);
      ChosenIs(w, i, k);
      Chosens(w, i, k);
      SkipsByChoice(w, i);
      ProductsFrom(w, i, k);
      YieldsMore(Chosen(w, i, k));
      PrefixedCount(w[..i], Yields(Chosen(w, i, k)));
      YieldsMoreFrom(w, i, k + 1);
    } else {
      NoChoiceLeft(w, i, k);
    }
  }

  lemma NoChoiceLeft(w: Parts, i: nat, k: nat)
    requires i < |w| && IsBrace(w[i]) && k == Choices(w[i])
    ensures Cross(ChoiceProducts(w[i], k), Product(w[i + 1..])) == []
  {
    hide Product, Choices;
  }

  /** When every sequence fits, the words yielded are the product of all alternatives, in order, if and only
      if no list with an empty element may stand bare at the end; and when none does, if and only if every
      sequence fits. */
  lemma YieldsProductIff(w: Parts)
    requires Parsed(w) && (AllFit(w) || !Skips(w))
    ensures Yields(w) == AllMerged(Product(w)) <==> AllFit(w) && !Skips(w)
  {
    hide Yields, Product, Skips, AllFit, Parsed;
    if AllFit(w) {
      YieldsFewer(w);
      if !Skips(w) { YieldsAll(w); }
    } else {
      YieldsMore(w);
    }
  }

  /** Every list element at every depth has text. */
  predicate HasTextHere(p: Part) {
    p.List? ==> forall k :: 0 <= k < |p.elems| ==> Meaningful(p.elems[k].parts)
  }

  predicate HasText(w: Parts) { Everywhere(w, HasTextHere) }

  lemma {:induction false} TextKeepsAll(w: Parts)
    requires HasText(w)
    ensures !Skips(w)
    decreases w
  {
    hide Everywhere, Meaningful;
    if w != [] {
      var init, last := w[..|w| - 1], w[|w| - 1];
      EverywhereAt(w, |w| - 1, HasTextHere);
      TextKeepsAll(init);
      if last.List? {
        forall k | 0 <= k < |last.elems| ensures !Skips(last.elems[k].parts) {
          TextKeepsAll(last.elems[k].parts);
        }
      }
    }
  }

  /** In particular: with text in every list element, the words yielded are the product. */
  lemma YieldsProduct(w: Parts)
    requires Parsed(w) && AllFit(w) && HasText(w)
    ensures Yields(w) == AllMerged(Product(w))
  {
    hide *;
    TextKeepsAll(w);
    YieldsAll(w);
  }

  // ---------- What every yielded word looks like ----------

  predicate Expanded(w: Parts) { NoBraces(w) && NoAdjacentLits(w) }

  /** No brace and no two literals in a row are left in any word, whatever the word was. */
  lemma {:induction false} YieldsAreExpanded(w: Parts)
    ensures forall v :: v in Yields(w) ==> Expanded(v)
    decreases Braces(w), 1, 0
  {
    hide Merged, Braces, FirstBrace, YieldsFrom;
    var i := FirstBrace(w);
    if i == |w| {
      assert w[..i] == w;
      MergedIsMerged(w);
    } else {
      YieldsFromAreExpanded(w, i, 0);
    }
  }

  lemma {:induction false} YieldsFromAreExpanded(w: Parts, i: nat, k: nat)
    requires i < |w| && IsBrace(w[i]) && NoBraces(w[..i]) && k <= Choices(w[i])
    ensures forall v :: v in YieldsFrom(w, i, k) ==> Expanded(v)
    decreases Braces(w), 0, Choices(w[i]) - k
  {
    hide Merged, Braces, Yields, Choice, Elided, Choices;
    if k < Choices(w[i]) {
      YieldsFromAreExpanded(w, i, k + 1);
      ChoiceShrinks(w, i, k);
      var ws := Yields(Choice(w[i], k) + w[i + 1..]);
      YieldsAreExpanded(Choice(w[i], k) + w[i + 1..]);
      forall j | 0 <= j < |ws| ensures Expanded(Merged(w[..i] + ws[j])) {
        assert ws[j] in ws;
        MergedIsMerged(w[..i] + ws[j]);
      }
    }
  }

  /** Every parsed word yields some word. */
  lemma {:induction false} YieldsSome(w: Parts)
    requires Parsed(w)
    ensures |Yields(w)| >= 1
    decreases Braces(w), 1, 0
  {
    hide *;
    var i := FirstBrace(w);
    FirstBraceShape(w);
    if i == |w| {
      PlainYields(w);
    } else {
      YieldsStart(w, i);
      SomeChoice(w, i);
      var k := SomeKept(w, i);
      ChoiceShrinks(w, i, k);
      ChosenIs(w, i, k);
      Chosens(w, i, k);
      YieldsSome(Chosen(w, i, k));
      KeptYields(w, i, 0, k);
    }
  }

  lemma SomeKept(w: Parts, i: nat) returns (k: nat)
    requires i < |w| && IsBrace(w[i]) && Choices(w[i]) > 0
    ensures k < Choices(w[i]) && !ElidedAt(w, i, k)
  {
    hide Meaningful, LoopCount;
    k := 0;
    if ElidedAt(w, i, 0) {
      assert !OnlyEmptyElems(w[i].elems);
      k :| 0 <= k < |w[i].elems| && Meaningful(w[i].elems[k].parts);
    }
  }

  lemma {:induction false} KeptYields(w: Parts, i: nat, from: nat, k: nat)
    requires i < |w| && IsBrace(w[i]) && from <= k < Choices(w[i]) && !ElidedAt(w, i, k)
    ensures |YieldsFrom(w, i, from)| >= |Yields(Chosen(w, i, k))|
    decreases k - from
  {
    hide *;
    YieldsStep(w, i, from);
    PrefixedCount(w[..i], Yields(Chosen(w, i, from)));
    if from < k { KeptYields(w, i, from + 1, k); }
  }
}
