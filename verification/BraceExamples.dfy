/** Words whose expansion is, and is not, the product of their alternatives (expand/braces.go). */
module BraceExamples {
  import opened BraceWords
  import opened Common
  import opened NumericLoop
  import opened Words

  // ---------- How many words there are ----------

  lemma TwoChoices(w: Parts, i: nat)
    requires i < |w| && NoBraces(w[..i]) && w[i].List? && |w[i].elems| == 2
    ensures |Yields(w)| == (if ElidedAt(w, i, 0) then 0 else |Yields(Chosen(w, i, 0))|)
                           + if ElidedAt(w, i, 1) then 0 else |Yields(Chosen(w, i, 1))|
    ensures |Product(w)| == |Product(Chosen(w, i, 0))| + |Product(Chosen(w, i, 1))|
    ensures forall k :: 0 <= k < 2 ==> Chosen(w, i, k) == w[i].elems[k].parts + w[i + 1..]
  {
    hide Yields, YieldsFrom, Product, Elided, Prefixed, Alternatives, Cross;
    FirstBraceIs(w, i);
    YieldsStart(w, i);
    YieldsStep(w, i, 0);
    YieldsStep(w, i, 1);
    YieldsStep(w, i, 2);
    PrefixedCount(w[..i], Yields(Chosen(w, i, 0)));
    PrefixedCount(w[..i], Yields(Chosen(w, i, 1)));
    ProductAtBrace(w, i);
    AlternativesAreChoices(w[i]);
    AttachCount(w[..i], Cross(Alternatives(w[i]), Product(w[i + 1..])));
    ProductsFrom(w, i, 0);
    ProductsFrom(w, i, 1);
    NoChoiceLeft(w, i, 2);
  }

  lemma OneWord(p: Part)
    requires p.Lit? && p.value != ""
    ensures |Yields([p])| == 1 == |Product([p])| && Meaningful([p])
  {
    hide Merged, Yields, Product;
    PlainYields([p]);
    ProductOfPlain([p]);
    NumberNotBare(p);
  }

  lemma NoWordIsEmpty()
    ensures !Meaningful([]) && |Yields([])| == 1 == |Product([])|
  {
    hide Yields, Product;
    PlainYields([]);
    ProductOfPlain([]);
  }

  const WITH_GAP := List([Word([]), Word([Lit("c")])])

  /** {,c} yields one word of two: the empty one is dropped. */
  lemma GapAlone()
    ensures |Yields([WITH_GAP])| == 1 && |Product([WITH_GAP])| == 2
  {
    hide Yields, Product, Meaningful;
    var w := [WITH_GAP];
    assert w[..0] == [] && w[1..] == [] && [] + w[1..] == [] && [Lit("c")] + w[1..] == [Lit("c")];
    TwoChoices(w, 0);
    NoWordIsEmpty();
    OneWord(Lit("c"));
    assert !OnlyEmptyElems(WITH_GAP.elems) by { assert Meaningful(WITH_GAP.elems[1].parts); }
  }

  /** Of a{{,c},d} the recursion yields two words, the product has three: the empty element of the inner list
      is skipped although the word's "a" stands before it. */
  lemma ElisionForgetsPrefix()
    ensures var w := [Lit("a"), List([Word([WITH_GAP]), Word([Lit("d")])])];
            |Yields(w)| == 2 && |Product(w)| == 3
  {
    hide Yields, Product, Meaningful;
    var w := [Lit("a"), List([Word([WITH_GAP]), Word([Lit("d")])])];
    assert w[..1] == [Lit("a")] && w[2..] == [] && [WITH_GAP] + w[2..] == [WITH_GAP] && [Lit("d")] + w[2..] == [Lit("d")];
    TwoChoices(w, 1);
    GapAlone();
    OneWord(Lit("d"));
    OneWord(Lit("a"));
  }

  /** No nesting is needed: of x{a,}{,c} the recursion yields three words, the product has four. */
  lemma ElisionSideBySide()
    ensures var w := [Lit("x"), List([Word([Lit("a")]), Word([])]), WITH_GAP];
            |Yields(w)| == 3 && |Product(w)| == 4
  {
    hide Yields, Product, Meaningful;
    var w := [Lit("x"), List([Word([Lit("a")]), Word([])]), WITH_GAP];
    var chosen := [Lit("a"), WITH_GAP];
    assert w[..1] == [Lit("x")] && w[2..] == [WITH_GAP] && [Lit("a")] + w[2..] == chosen && [] + w[2..] == [WITH_GAP];
    TwoChoices(w, 1);
    GapAlone();
    OneWord(Lit("x"));
    assert chosen[..1] == [Lit("a")] && chosen[2..] == [] && [] + chosen[2..] == [] && [Lit("c")] + chosen[2..] == [Lit("c")];
    TwoChoices(chosen, 1);
    OneWord(Lit("a"));
    OneWord(Lit("c"));
    NoWordIsEmpty();
  }

  /** Text before the only list is enough: file{,.bak} is expanded to its product. */
  lemma BackupIsProduct()
    ensures var w := [Lit("file"), List([Word([]), Word([Lit(".bak")])])];
            !HasText(w) && Yields(w) == AllMerged(Product(w))
  {
    hide Yields, Product;
    var gap := List([Word([]), Word([Lit(".bak")])]);
    var w := [Lit("file"), gap];
    assert w[..1] == [Lit("file")] && w[2..] == [] && [Lit("file")] + [gap] == w;
    LastPart([Lit("file")], gap);
    NumberNotBare(Lit("file"));
    NumberNotBare(Lit(".bak"));
    BareNothing();
    GapConditions(gap);
    YieldsAll(w);
  }

  lemma GapConditions(gap: Part)
    requires gap == List([Word([]), Word([Lit(".bak")])])
    ensures Parsed([Lit("file"), gap]) && AllFit([Lit("file"), gap]) && !HasText([Lit("file"), gap])
  {
    hide Everywhere;
    BackupEverywhere(gap, ParsedHere);
    BackupEverywhere(gap, FitsHere);
    BackupEverywhere(gap, HasTextHere);
    assert !HasTextHere(gap) by { assert !Meaningful(gap.elems[0].parts); }
  }

  lemma BackupEverywhere(gap: Part, q: Part -> bool)
    requires gap == List([Word([]), Word([Lit(".bak")])]) && q(Lit("file")) && q(Lit(".bak"))
    ensures Everywhere([Lit("file"), gap], q) <==> q(gap)
  {
    hide InElems;
    var w := [Lit("file"), gap];
    assert w[..1] == [Lit("file")] && w[2..] == [];
    EverywhereAt(w, 1, q);
    EverywhereOne(Lit("file"), q);
    EverywhereOne(Lit(".bak"), q);
  }

  // ---------- Which words there are ----------

  /** A word of text alone. */
  function Text(t: string): Parts { if t == "" then [] else [Lit(t)] }

  function Texts(ts: seq<string>): (r: seq<Parts>)
    ensures |r| == |ts| && forall i :: 0 <= i < |r| ==> r[i] == Text(ts[i])
  {
    seq(|ts|, i requires 0 <= i < |ts| => Text(ts[i]))
  }

  function Behind(a: string, ts: seq<string>): (r: seq<string>)
    ensures |r| == |ts| && forall i :: 0 <= i < |r| ==> r[i] == a + ts[i]
  {
    seq(|ts|, i requires 0 <= i < |ts| => a + ts[i])
  }

  /** What a word yields, and what its product has. */
  ghost predicate Expands(w: Parts, found: seq<string>, product: seq<string>) {
    Yields(w) == Texts(found) && AllMerged(Product(w)) == Texts(product)
  }

  /** ... from the k-th element of a list behind some text on. */
  ghost predicate ExpandsFrom(a: string, p: Part, k: nat, found: seq<string>, product: seq<string>)
    requires p.List? && k <= |p.elems|
  {
    var w, i := Text(a) + [p], |Text(a)|;
    YieldsFrom(w, i, k) == Texts(Behind(a, found)) &&
    AllMerged(Attach(w[..i], Cross(ChoiceProducts(w[i], k), Product(w[i + 1..])))) == Texts(Behind(a, product))
  }

  lemma MergedText(a: string, t: string)
    ensures Merged(Text(a) + Text(t)) == Text(a + t)
  {
    MergedNothing();
    hide Merged;
    if a != "" { MergedLast([], Lit(a)); }
    if t != "" {
      MergedLast(Text(a), Lit(t));
      if a == "" { MergedLast([], Lit(t)); }
    }
    assert [] + Text(a) == Text(a) && [] + Text(t) == Text(t) && Text(a) + [] == Text(a);
    assert a == "" ==> a + t == t;
    assert t == "" ==> a + t == a;
  }

  lemma PrefixedTexts(a: string, ts: seq<string>)
    ensures Prefixed(Text(a), Texts(ts)) == Texts(Behind(a, ts))
  {
    hide Merged, Text;
    forall i | 0 <= i < |ts| ensures Merged(Text(a) + Text(ts[i])) == Text(a + ts[i]) { MergedText(a, ts[i]); }
  }

  lemma BehindMore(a: string, ts: seq<string>, us: seq<string>)
    ensures Texts(Behind(a, ts)) + Texts(Behind(a, us)) == Texts(Behind(a, ts + us))
  {
    hide Text;
  }

  lemma TextExpands(t: string)
    ensures Expands(Text(t), [t], [t])
  {
    PlainYields(Text(t));
    ProductOfPlain(Text(t));
    MergedText(t, "");
    hide Yields, Product, Merged;
    assert Text(t) + [] == Text(t) && t + "" == t;
  }

  lemma NoElement(a: string, p: Part)
    requires p.List?
    ensures ExpandsFrom(a, p, |p.elems|, [], [])
  {
    hide YieldsFrom, Cross, Product;
    var w, i := Text(a) + [p], |Text(a)|;
    YieldsStep(w, i, |p.elems|);
    NoChoiceLeft(w, i, |p.elems|);
    NothingAttached(w[..i]);
  }

  /** One more element in front. */
  lemma OneElement(a: string, p: Part, k: nat, ys: seq<string>, ps: seq<string>, found: seq<string>, product: seq<string>)
    requires p.List? && k < |p.elems| && Expands(p.elems[k].parts, ys, ps) && ExpandsFrom(a, p, k + 1, found, product)
    ensures ElidedAt(Text(a) + [p], |Text(a)|, k) ==> ExpandsFrom(a, p, k, found, ps + product)
    ensures !ElidedAt(Text(a) + [p], |Text(a)|, k) ==> ExpandsFrom(a, p, k, ys + found, ps + product)
  {
    hide Yields, YieldsFrom, Cross, Product, ElidedAt, Text, Texts, Behind, Attach, AllMerged, Prefixed;
    var w, i := Text(a) + [p], |Text(a)|;
    assert w[..i] == Text(a) && w[i + 1..] == [] && w[i] == p;
    YieldsStep(w, i, k);
    ChosenIs(w, i, k);
    assert Chosen(w, i, k) == p.elems[k].parts;
    PrefixedTexts(a, ys);
    PrefixedTexts(a, ps);
    BehindMore(a, ys, found);
    BehindMore(a, ps, product);
    ProductsFrom(w, i, k);
    var mine, later := Product(p.elems[k].parts), Cross(ChoiceProducts(w[i], k + 1), Product(w[i + 1..]));
    AttachConcat(Text(a), mine, later);
    AllMergedAppend(Attach(Text(a), mine), Attach(Text(a), later));
    PrefixedMerged(Text(a), mine);
  }

  lemma AllElements(a: string, p: Part, found: seq<string>, product: seq<string>)
    requires p.List? && p.elems != [] && ExpandsFrom(a, p, 0, found, product)
    ensures Expands(Text(a) + [p], Behind(a, found), Behind(a, product))
  {
    hide Yields, YieldsFrom, Cross, Product, Texts, Behind, Attach, AllMerged;
    var w, i := Text(a) + [p], |Text(a)|;
    assert NoBraces(w[..i]) && w[i] == p;
    FirstBraceIs(w, i);
    YieldsStart(w, i);
    ProductAtBrace(w, i);
    AlternativesOfList(p);
  }

  lemma AlternativesOfList(p: Part)
    requires p.List?
    ensures p.elems != [] ==> Alternatives(p) == ChoiceProducts(p, 0)
  {
    hide Alternatives, ChoiceProducts;
    if p.elems != [] { AlternativesAreChoices(p); }
  }

  lemma KeptOrDropped(a: string, p: Part, k: nat)
    requires p.List? && k < |p.elems|
    ensures a != "" || Meaningful(p.elems[k].parts) ==> !ElidedAt(Text(a) + [p], |Text(a)|, k)
    ensures a == "" && !Meaningful(p.elems[k].parts) && !OnlyEmptyElems(p.elems) ==>
              ElidedAt(Text(a) + [p], |Text(a)|, k)
  {
    hide OnlyEmptyElems;
    var w, i := Text(a) + [p], |Text(a)|;
    assert w[..i] == Text(a) && w[i + 1..] == [] && w[i] == p;
    assert Meaningful(Text(a)) <==> a != "" by { if a != "" { assert !Empty(Text(a)[0]); } }
  }

  /** A list of two elements behind some text; without text before it, it drops its first element if that is
      empty. */
  lemma PairExpands(a: string, p: Part, y0: seq<string>, p0: seq<string>, y1: seq<string>, p1: seq<string>)
    requires p.List? && |p.elems| == 2 && Meaningful(p.elems[1].parts)
    requires Expands(p.elems[0].parts, y0, p0) && Expands(p.elems[1].parts, y1, p1)
    ensures var dropped := a == "" && !Meaningful(p.elems[0].parts);
            Expands(Text(a) + [p], Behind(a, (if dropped then [] else y0) + y1), Behind(a, p0 + p1))
  {
    hide Expands, ExpandsFrom, Meaningful, Text, Behind, ElidedAt;
    NoElement(a, p);
    KeptOrDropped(a, p, 0);
    KeptOrDropped(a, p, 1);
    OneElement(a, p, 1, y1, p1, [], []);
    assert y1 + [] == y1 && p1 + [] == p1 && [] + y1 == y1;
    OneElement(a, p, 0, y0, p0, y1, p1);
    AllElements(a, p, (if a == "" && !Meaningful(p.elems[0].parts) then [] else y0) + y1, p0 + p1);
  }

  /** {,t} alone yields t. */
  lemma GapExpands(t: string)
    requires t != ""
    ensures Expands([List([Word([]), Word([Lit(t)])])], [t], ["", t])
  {
    var p := List([Word([]), Word([Lit(t)])]);
    TextExpands(t);
    TextExpands("");
    NumberNotBare(Lit(t));
    BareNothing();
    hide Expands, Meaningful;
    PairExpands("", p, [""], [""], [t], [t]);
    assert Text("") + [p] == [p] && [] + [t] == [t] && [""] + [t] == ["", t];
    BehindNothing([t]);
    BehindNothing(["", t]);
  }

  lemma BehindNothing(ts: seq<string>)
    ensures Behind("", ts) == ts
  {
    forall i | 0 <= i < |ts| ensures "" + ts[i] == ts[i] {}
  }

  // ---------- Too many and too few ----------

  /** From its start up by 63 * 10^17 this sequence has one number; the loop goes on with -7 * 10^18 and
      -7 * 10^17. */
  const WRAPPING := Sequence(5146744073709551616, 5146744073709551617, 6300000000000000000, 0)

  const FIRST := Decimal(0, 5146744073709551616)
  const LONG := Decimal(0, -7000000000000000000)
  const SHORT := Decimal(0, -700000000000000000)

  lemma WrappingNumbers()
    ensures LoopNumber(WRAPPING, 0) == 5146744073709551616 && LoopNumber(WRAPPING, 1) == -7000000000000000000
    ensures LoopNumber(WRAPPING, 2) == -700000000000000000 && LoopNumber(WRAPPING, 3) == 5600000000000000000
    ensures Last(WRAPPING) == Number(WRAPPING, 0) == 5146744073709551616 && Count(WRAPPING) == 1
    ensures Incr(WRAPPING) == 6300000000000000000
  {
    var p := WRAPPING;
    assert Number(p, 0) == p.from && Number(p, 1) == p.from + p.step && Number(p, 2) == p.from + 2 * p.step &&
           Number(p, 3) == p.from + 3 * p.step;
    assert Count(p) == 1;
    hide Number, Count, Wrap64;
    WrapBeyond(Number(p, 1));
    WrapBeyond(Number(p, 2));
    WrapBeyond(Number(p, 3));
  }

  lemma WrappingCount()
    ensures LoopCount(WRAPPING) == 3 && !Fits(WRAPPING) && OperandsIn64(WRAPPING)
  {
    var p := WRAPPING;
    hide LoopNumber, Number, Count, Last, Incr;
    WrappingNumbers();
    assert GoesOn(p, 0) && GoesOn(p, 1) && !GoesOn(p, 2);
    hide GoesOn;
    LoopReaches(p, 0, 2, LIMIT + 1);
  }

  lemma DigitsTimesTen(n: nat)
    requires n > 0
    ensures Digits(10 * n) == Digits(n) + "0"
  {
    assert 10 * n / 10 == n && 10 * n % 10 == 0;
  }

  lemma DecimalTimesTen(n: int)
    requires n < 0
    ensures Decimal(0, 10 * n) == Decimal(0, n) + "0"
  {
    var m: nat := Abs(n);
    DigitsTimesTen(m);
    hide Digits;
    assert Zeros(-1 - |Digits(m)|) == "" && Zeros(-1 - |Digits(10 * m)|) == "";
    Regroup("-", Digits(m), "0");
  }

  lemma WrappingTexts()
    ensures LONG == SHORT + "0" && SHORT != "" && LONG != "" && FIRST != ""
  {
    hide Decimal, Digits, Zeros;
    DecimalTimesTen(-700000000000000000);
  }

  lemma NumberYields(k: nat, t: string, later: seq<string>)
    requires k < LoopCount(WRAPPING) && t == Decimal(0, LoopNumber(WRAPPING, k))
    requires YieldsFrom([WRAPPING], 0, k + 1) == Texts(later)
    ensures YieldsFrom([WRAPPING], 0, k) == Texts([t] + later)
  {
    var w := [WRAPPING];
    YieldsStep(w, 0, k);
    ChosenIs(w, 0, k);
    assert w[..0] == [] && w[1..] == [] && Chosen(w, 0, k) == Text(t);
    TextExpands(t);
    hide LoopNumber, LoopCount, YieldsFrom, Yields, Prefixed, Decimal;
    PrefixedTexts("", [t]);
    BehindMore("", [t], later);
    BehindNothing([t]);
    BehindNothing(later);
    BehindNothing([t] + later);
  }

  lemma ProductIs(p: Part, t: string)
    requires p.Sequence? && Count(p) == 1 && Number(p, 0) == p.from && t == Decimal(p.width, p.from)
    ensures Product([p]) == [[Lit(t)]]
  {
    hide Decimal, Count, Number;
    assert NumbersFrom(p, 1) == [] && NumberWord(p, 0) == [Lit(t)];
    assert Alternatives(p) == [[Lit(t)]];
    assert [p][1..] == [] && Product([]) == [[]];
    CrossOne([Lit(t)], [[]]);
    assert [Lit(t)] + [] == [Lit(t)];
  }

  lemma WrappingYields()
    ensures Yields([WRAPPING]) == Texts([FIRST, LONG, SHORT])
  {
    var w := [WRAPPING];
    WrappingNumbers();
    WrappingCount();
    hide Yields, YieldsFrom, Decimal, LoopNumber, LoopCount, Texts, Count, Incr, Number, Last, Fits;
    assert w[..0] == [];
    FirstBraceIs(w, 0);
    YieldsStart(w, 0);
    YieldsStep(w, 0, 3);
    assert Texts([]) == [];
    NumberYields(2, SHORT, []);
    assert [SHORT] + [] == [SHORT] && [LONG] + [SHORT] == [LONG, SHORT];
    NumberYields(1, LONG, [SHORT]);
    NumberYields(0, FIRST, [LONG, SHORT]);
    assert [FIRST] + [LONG, SHORT] == [FIRST, LONG, SHORT];
  }

  lemma WrappingExpands()
    ensures Expands([WRAPPING], [FIRST, LONG, SHORT], [FIRST])
  {
    WrappingNumbers();
    WrappingYields();
    hide Yields, Product, Decimal, Count, Number, Merged, Zeros;
    ProductIs(WRAPPING, FIRST);
    MergedText("", FIRST);
    assert [] + [Lit(FIRST)] == [Lit(FIRST)] && "" + FIRST == FIRST;
  }

  function Doubled(): Part { List([Word([Lit("0")]), Word([List([Word([]), Word([Lit("0")])])])]) }

  /** short{0,{,0}} loses short, for the text that is short and a zero. */
  lemma ShorterExpands(short: string, long: string)
    requires long == short + "0" && short != ""
    ensures Expands([Lit(short), Doubled()], [long, long], [long, short, long])
  {
    var p := Doubled();
    TextExpands("0");
    GapExpands("0");
    assert Meaningful(p.elems[1].parts) by { assert !Empty(p.elems[1].parts[0]); }
    hide Expands, Meaningful;
    PairExpands(short, p, ["0"], ["0"], ["0"], ["", "0"]);
    assert Text(short) + [p] == [Lit(short), p];
    ShorterTexts(short, long);
  }

  lemma ShorterTexts(short: string, long: string)
    requires long == short + "0"
    ensures Behind(short, ["0"] + ["0"]) == [long, long] && Behind(short, ["0"] + ["", "0"]) == [long, short, long]
  {
    assert short + "" == short;
    assert ["0"] + ["0"] == ["0", "0"] && ["0"] + ["", "0"] == ["0", "", "0"];
  }

  function Gapped(): Part { List([Word([WITH_GAP]), Word([Lit("d")])]) }

  /** long{{,c},d} loses long. */
  lemma LongerExpands(long: string)
    requires long != ""
    ensures Expands([Lit(long), Gapped()], [long + "c", long + "d"], [long, long + "c", long + "d"])
  {
    var p := Gapped();
    TextExpands("d");
    GapExpands("c");
    NumberNotBare(Lit("d"));
    hide Expands, Meaningful;
    PairExpands(long, p, ["c"], ["", "c"], ["d"], ["d"]);
    assert Text(long) + [p] == [Lit(long), p];
    assert ["c"] + ["d"] == ["c", "d"] && ["", "c"] + ["d"] == ["", "c", "d"] && long + "" == long;
    assert Behind(long, ["c", "d"]) == [long + "c", long + "d"];
    assert Behind(long, ["", "c", "d"]) == [long, long + "c", long + "d"];
  }

  lemma TripleExpands(p: Part, y0: seq<string>, p0: seq<string>, y1: seq<string>, p1: seq<string>, y2: seq<string>,
                      p2: seq<string>)
    requires p.List? && |p.elems| == 3 && forall k :: 0 <= k < 3 ==> Meaningful(p.elems[k].parts)
    requires Expands(p.elems[0].parts, y0, p0) && Expands(p.elems[1].parts, y1, p1) && Expands(p.elems[2].parts, y2, p2)
    ensures Expands([p], y0 + (y1 + y2), p0 + (p1 + p2))
  {
    hide Expands, ExpandsFrom, Meaningful, ElidedAt;
    assert Text("") + [p] == [p];
    NoElement("", p);
    KeptOrDropped("", p, 0);
    KeptOrDropped("", p, 1);
    KeptOrDropped("", p, 2);
    OneElement("", p, 2, y2, p2, [], []);
    assert y2 + [] == y2 && p2 + [] == p2;
    OneElement("", p, 1, y1, p1, y2, p2);
    OneElement("", p, 0, y0, p0, y1 + y2, p1 + p2);
    AllElements("", p, y0 + (y1 + y2), p0 + (p1 + p2));
    BehindNothing(y0 + (y1 + y2));
    BehindNothing(p0 + (p1 + p2));
  }

  function Cancelling(short: string, long: string): Part {
    List([Word([WRAPPING]), Word([Lit(short), Doubled()]), Word([Lit(long), Gapped()])])
  }

  /** A sequence that does not fit and empty elements that are dropped can cancel out: this word yields two
      words too many and two too few, and what it yields is its product all the same. */
  lemma TooManyAndTooFew()
    ensures var w := [Cancelling(SHORT, LONG)];
            Parsed(w) && !AllFit(w) && Skips(w) && Yields(w) == AllMerged(Product(w))
  {
    WrappingTexts();
    WrappingExpands();
    hide Decimal, Zeros;
    CancellingExpands(SHORT, LONG, FIRST);
    CancellingSkips(SHORT, LONG);
    CancellingParsed(SHORT, LONG);
  }

  lemma CancellingExpands(short: string, long: string, first: string)
    requires long == short + "0" && short != "" && Expands([WRAPPING], [first, long, short], [first])
    ensures var w := [Cancelling(short, long)]; Yields(w) == AllMerged(Product(w))
  {
    var p := Cancelling(short, long);
    ShorterExpands(short, long);
    LongerExpands(long);
    forall k | 0 <= k < 3 ensures Meaningful(p.elems[k].parts) { assert !Empty(p.elems[k].parts[0]); }
    var c, d := long + "c", long + "d";
    hide Meaningful;
    assert Expands([p], [first, long, short] + ([long, long] + [c, d]), [first] + ([long, short, long] + [long, c, d])) by {
      hide Expands;
      TripleExpands(p, [first, long, short], [first], [long, long], [long, short, long], [c, d], [long, c, d]);
    }
    assert [first, long, short] + ([long, long] + [c, d]) == [first] + ([long, short, long] + [long, c, d]);
  }

  lemma CancellingSkips(short: string, long: string)
    requires short != "" && long != ""
    ensures Skips([Cancelling(short, long)])
  {
    var p := Cancelling(short, long);
    var gap := List([Word([]), Word([Lit("0")])]);
    BareNothing();
    hide Meaningful, Skips, Bare;
    assert HasGap(gap.elems) by { assert !Meaningful(gap.elems[0].parts); }
    LastPart([], gap);
    assert [] + [gap] == [gap] == Doubled().elems[1].parts;
    LastPart([Lit(short)], Doubled());
    assert [Lit(short)] + [Doubled()] == p.elems[1].parts;
    LastPart([], p);
    assert [] + [p] == [p];
  }

  lemma CancellingParsed(short: string, long: string)
    requires short != "" && long != ""
    ensures Parsed([Cancelling(short, long)]) && !AllFit([Cancelling(short, long)])
  {
    var p := Cancelling(short, long);
    WrappingCount();
    hide Fits, OperandsIn64, LoopCount;
    EverywhereOne(p, ParsedHere);
    EverywhereOne(p, FitsHere);
    InEachElem(p.elems, ParsedHere);
    InEachElem(p.elems, FitsHere);
    EverywhereOne(WRAPPING, ParsedHere);
    EverywhereOne(WRAPPING, FitsHere);
    assert p.elems[0].parts == [WRAPPING];
    var zero, gap := Lit("0"), List([Word([]), Word([Lit("0")])]);
    hide Everywhere, InElems;
    PairParsed([], [zero]);
    PairParsed([], [Lit("c")]);
    PairParsed([zero], [gap]);
    PairParsed([WITH_GAP], [Lit("d")]);
    TextThenParsed(short, Doubled());
    TextThenParsed(long, Gapped());
  }

  lemma PairParsed(a: Parts, b: Parts)
    requires (a == [] || Parsed(a) || (|a| == 1 && a[0].Lit?)) && (Parsed(b) || (|b| == 1 && b[0].Lit?))
    ensures Parsed([List([Word(a), Word(b)])])
  {
    var p := List([Word(a), Word(b)]);
    if |a| == 1 && a[0].Lit? { EverywhereOne(a[0], ParsedHere); }
    if |b| == 1 && b[0].Lit? { EverywhereOne(b[0], ParsedHere); }
    assert a == [] ==> Parsed(a);
    hide Everywhere, InElems;
    InEachElem(p.elems, ParsedHere);
    EverywhereOne(p, ParsedHere);
  }

  lemma TextThenParsed(t: string, p: Part)
    requires Parsed([p])
    ensures Parsed([Lit(t), p])
  {
    hide Everywhere, InElems;
    EverywhereOne(Lit(t), ParsedHere);
    EverywhereAppend([Lit(t)], [p], ParsedHere);
    assert [Lit(t)] + [p] == [Lit(t), p];
  }
}
