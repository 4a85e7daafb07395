/** Words with brace expansions, and what expanding one means: the left-to-right product of the
    alternatives of its parts. */
module Words {
  import opened Common

  /** A part of a word: literal text, a list or a numeric sequence in braces, or anything else. A
      sequence carries its parsed operands and the width its numbers are padded to. */
  datatype Part =
    | Lit(value: string)
    | Other(id: nat)
    | List(elems: seq<Word>)
    | Sequence(from: int, to: int, step: int, width: nat)

  datatype Word = Word(parts: Parts)

  type Parts = seq<Part>

  predicate IsBrace(p: Part) { p.List? || p.Sequence? }

  predicate NoBraces(w: Parts) { forall i :: 0 <= i < |w| ==> !IsBrace(w[i]) }

  // ---------- Numeric sequences ----------

  function Abs(n: int): nat { if n < 0 then -n else n }

  /** The increment: the step's size, one by default, in the direction of the range. */
  function Incr(p: Part): (r: int)
    requires p.Sequence?
    ensures r != 0 && (p.from <= p.to <==> r > 0)
  {
    var size := if p.step == 0 then 1 else Abs(p.step);
    if p.from <= p.to then size else -size
  }

  function Count(p: Part): (r: nat)
    requires p.Sequence?
    ensures r > 0
  {
    Abs(p.to - p.from) / Abs(Incr(p)) + 1
  }

  /** The numbers of a sequence: from its start, by its increment, as far as its end. */
  function Number(p: Part, k: nat): int
    requires p.Sequence?
  {
    p.from + k * Incr(p)
  }

  function Last(p: Part): int
    requires p.Sequence?
  {
    Number(p, Count(p) - 1)
  }

  function Zeros(n: int): string
    decreases if n < 0 then 0 else n
  {
    if n <= 0 then "" else "0" + Zeros(n - 1)
  }

  /** Decimal text, zero-padded after the sign. */
  function Decimal(width: nat, n: int): (s: string)
    ensures s != ""
  {
    var digits, sign := Digits(Abs(n)), if n < 0 then "-" else "";
    sign + Zeros(width - |sign| - |digits|) + digits
  }

  function NumberWord(p: Part, k: nat): Parts
    requires p.Sequence?
  {
    [Lit(Decimal(p.width, Number(p, k)))]
  }

  lemma Multiples(d: nat, i: nat, k: nat)
    requires i > 0
    ensures k <= d / i ==> 0 <= k * i <= d
    ensures k == d / i + 1 ==> k * i > d
  {
    assert d == (d / i) * i + d % i;
    if k <= d / i {
      assert (d / i - k) * i == (d / i) * i - k * i;
    } else if k == d / i + 1 {
      assert k * i == (d / i) * i + i;
    }
  }

  /** The numbers up to the last lie between the ends; one more step leaves them. */
  lemma NumbersInRange(p: Part, k: nat)
    requires p.Sequence?
    ensures k < Count(p) ==> if p.from <= p.to then p.from <= Number(p, k) <= p.to else p.to <= Number(p, k) <= p.from
    ensures k == Count(p) ==> if p.from <= p.to then Number(p, k) > p.to else Number(p, k) < p.to
  {
    var d: nat, i: int := Abs(p.to - p.from), Abs(Incr(p));
    Multiples(d, i, k);
    Signed(k, i);
    assert Incr(p) == if p.from <= p.to then i else -i;
  }

  lemma Signed(k: int, i: int)
    ensures k * (-i) == -(k * i)
  {
  }

  // ---------- Conditions on every part, at every depth ----------

  predicate Everywhere(w: Parts, q: Part -> bool) {
    w == [] || (q(w[0]) && (w[0].List? ==> InElems(w[0].elems, q)) && Everywhere(w[1..], q))
  }

  predicate InElems(elems: seq<Word>, q: Part -> bool) {
    elems == [] || (Everywhere(elems[0].parts, q) && InElems(elems[1..], q))
  }

  lemma {:induction false} EverywhereAppend(a: Parts, b: Parts, q: Part -> bool)
    ensures Everywhere(a + b, q) <==> Everywhere(a, q) && Everywhere(b, q)
  {
    hide InElems;
    if a == [] {
      assert a + b == b;
    } else {
      assert (a + b)[1..] == a[1..] + b;
      EverywhereAppend(a[1..], b, q);
    }
  }

  lemma EverywhereOne(p: Part, q: Part -> bool)
    ensures Everywhere([p], q) <==> q(p) && (p.List? ==> InElems(p.elems, q))
  {
    hide InElems;
    assert [p][1..] == [];
  }

  lemma {:induction false} InEachElem(elems: seq<Word>, q: Part -> bool)
    ensures InElems(elems, q) <==> forall k :: 0 <= k < |elems| ==> Everywhere(elems[k].parts, q)
  {
    hide Everywhere;
    if elems != [] {
      InEachElem(elems[1..], q);
      assert elems == [elems[0]] + elems[1..];
    }
  }

  /** At a brace: what stands before it, the brace itself, its elements, and the rest. */
  lemma EverywhereAt(w: Parts, i: nat, q: Part -> bool)
    requires i < |w|
    ensures Everywhere(w, q) <==>
            Everywhere(w[..i], q) && q(w[i]) && Everywhere(w[i + 1..], q) &&
            (w[i].List? ==> forall k :: 0 <= k < |w[i].elems| ==> Everywhere(w[i].elems[k].parts, q))
  {
    hide Everywhere, InElems;
    assert w == w[..i] + ([w[i]] + w[i + 1..]);
    EverywhereAppend(w[..i], [w[i]] + w[i + 1..], q);
    EverywhereAppend([w[i]], w[i + 1..], q);
    EverywhereOne(w[i], q);
    if w[i].List? { InEachElem(w[i].elems, q); }
  }

  // ---------- How many braces are left ----------

  function Braces(w: Parts): nat {
    if w == [] then 0 else BracesIn(w[0]) + Braces(w[1..])
  }

  function BracesIn(p: Part): nat {
    match p
    case List(elems) => 1 + BracesOf(elems)
    case Sequence(_, _, _, _) => 1
    case _ => 0
  }

  function BracesOf(elems: seq<Word>): nat {
    if elems == [] then 0 else Braces(elems[0].parts) + BracesOf(elems[1..])
  }

  lemma {:induction false} BracesAppend(a: Parts, b: Parts)
    ensures Braces(a + b) == Braces(a) + Braces(b)
  {
    hide BracesIn;
    if a == [] {
      assert a + b == b;
    } else {
      assert (a + b)[1..] == a[1..] + b;
      BracesAppend(a[1..], b);
    }
  }

  lemma {:induction false} BracesElem(elems: seq<Word>, k: nat)
    requires k < |elems|
    ensures Braces(elems[k].parts) <= BracesOf(elems)
  {
    hide Braces;
    if k > 0 { BracesElem(elems[1..], k - 1); }
  }

  /** One alternative in place of its brace leaves fewer braces. */
  lemma ChoosingShrinks(w: Parts, i: nat, alternative: Parts)
    requires i < |w| && IsBrace(w[i])
    requires (w[i].List? && Word(alternative) in w[i].elems) || NoBraces(alternative)
    ensures Braces(alternative + w[i + 1..]) < Braces(w)
  {
    hide Braces;
    BracesAppend(alternative, w[i + 1..]);
    assert w == w[..i] + ([w[i]] + w[i + 1..]);
    BracesAppend(w[..i], [w[i]] + w[i + 1..]);
    BracesAppend([w[i]], w[i + 1..]);
    BracesOne(w[i]);
    if NoBraces(alternative) {
      BracesNone(alternative);
    } else {
      var k :| 0 <= k < |w[i].elems| && w[i].elems[k] == Word(alternative);
      BracesElem(w[i].elems, k);
    }
  }

  lemma BracesOne(p: Part)
    ensures Braces([p]) == BracesIn(p)
  {
    assert [p][1..] == [];
  }

  lemma {:induction false} BracesNone(w: Parts)
    requires NoBraces(w)
    ensures Braces(w) == 0
  {
    if w != [] { BracesNone(w[1..]); }
  }

  // ---------- The product of alternatives ----------

  function Attach(a: Parts, ws: seq<Parts>): (r: seq<Parts>)
    ensures |r| == |ws| && forall i :: 0 <= i < |r| ==> r[i] == a + ws[i]
  {
    seq(|ws|, i requires 0 <= i < |ws| => a + ws[i])
  }

  /** Every word of the first list before every word of the second, the first varying slowest. */
  function Cross(a: seq<Parts>, b: seq<Parts>): seq<Parts> {
    if a == [] then [] else Attach(a[0], b) + Cross(a[1..], b)
  }

  function NumbersFrom(p: Part, k: nat): seq<Parts>
    requires p.Sequence? && k <= Count(p)
    decreases Count(p) - k
  {
    if k == Count(p) then [] else [NumberWord(p, k)] + NumbersFrom(p, k + 1)
  }

  /** What a part can become. */
  function Alternatives(p: Part): seq<Parts> {
    match p
    case List(elems) => AllProducts(elems)
    case Sequence(_, _, _, _) => NumbersFrom(p, 0)
    case _ => [[p]]
  }

  function AllProducts(elems: seq<Word>): seq<Parts> {
    if elems == [] then [] else Product(elems[0].parts) + AllProducts(elems[1..])
  }

  /** What a word can become. */
  function Product(w: Parts): seq<Parts> {
    if w == [] then [[]] else Cross(Alternatives(w[0]), Product(w[1..]))
  }

  lemma AttachNothing(ws: seq<Parts>)
    ensures Attach([], ws) == ws
  {
    assert forall i :: 0 <= i < |ws| ==> [] + ws[i] == ws[i];
  }

  lemma AttachAttach(a: Parts, b: Parts, ws: seq<Parts>)
    ensures Attach(a, Attach(b, ws)) == Attach(a + b, ws)
  {
    assert forall i :: 0 <= i < |ws| ==> a + (b + ws[i]) == a + b + ws[i];
  }

  lemma AttachConcat(a: Parts, x: seq<Parts>, y: seq<Parts>)
    ensures Attach(a, x + y) == Attach(a, x) + Attach(a, y)
  {
  }

  lemma {:induction false} CrossConcat(a: seq<Parts>, b: seq<Parts>, c: seq<Parts>)
    ensures Cross(a + b, c) == Cross(a, c) + Cross(b, c)
  {
    hide Attach;
    if a == [] {
      assert a + b == b;
    } else {
      assert (a + b)[1..] == a[1..] + b;
      CrossConcat(a[1..], b, c);
      assert Attach(a[0], c) + (Cross(a[1..], c) + Cross(b, c)) == Attach(a[0], c) + Cross(a[1..], c) + Cross(b, c);
    }
  }

  lemma {:induction false} AttachCross(a: Parts, b: seq<Parts>, c: seq<Parts>)
    ensures Cross(Attach(a, b), c) == Attach(a, Cross(b, c))
  {
    hide Attach;
    if b == [] {
      assert Attach(a, b) == [] == Attach(a, Cross(b, c));
    } else {
      assert Attach(a, b)[1..] == Attach(a, b[1..]);
      AttachCross(a, b[1..], c);
      AttachAttach(a, b[0], c);
      AttachConcat(a, Attach(b[0], c), Cross(b[1..], c));
    }
  }

  lemma {:induction false} CrossAssociative(a: seq<Parts>, b: seq<Parts>, c: seq<Parts>)
    ensures Cross(Cross(a, b), c) == Cross(a, Cross(b, c))
  {
    hide Attach;
    if a != [] {
      CrossAssociative(a[1..], b, c);
      CrossConcat(Attach(a[0], b), Cross(a[1..], b), c);
      AttachCross(a[0], b, c);
    }
  }

  lemma CrossOne(a: Parts, ws: seq<Parts>)
    ensures Cross([a], ws) == Attach(a, ws)
  {
    assert [a][1..] == [];
  }

  /** The product is compositional. */
  lemma {:induction false} ProductAppend(a: Parts, b: Parts)
    ensures Product(a + b) == Cross(Product(a), Product(b))
  {
    hide Alternatives, Cross, Attach;
    if a == [] {
      assert a + b == b;
      CrossOne([], Product(b));
      AttachNothing(Product(b));
    } else {
      assert (a + b)[1..] == a[1..] + b;
      ProductAppend(a[1..], b);
      CrossAssociative(Alternatives(a[0]), Product(a[1..]), Product(b));
    }
  }

  lemma {:induction false} ProductOfPlain(w: Parts)
    requires NoBraces(w)
    ensures Product(w) == [w]
  {
    hide Cross, Attach;
    if w != [] {
      ProductOfPlain(w[1..]);
      CrossOne([w[0]], [w[1..]]);
      assert [w[0]] + w[1..] == w;
    }
  }

  /** Expanding at the first brace: what stands before it, then each alternative with the rest. */
  lemma ProductAtBrace(w: Parts, i: nat)
    requires i < |w| && NoBraces(w[..i])
    ensures Product(w) == Attach(w[..i], Cross(Alternatives(w[i]), Product(w[i + 1..])))
  {
    hide Alternatives, Cross, Attach;
    var rest := w[i..];
    assert w == w[..i] + rest && rest[0] == w[i] && rest[1..] == w[i + 1..];
    ProductAppend(w[..i], rest);
    ProductOfPlain(w[..i]);
    CrossOne(w[..i], Product(rest));
  }
}
