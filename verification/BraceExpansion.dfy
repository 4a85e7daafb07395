/** Lazy brace expansion (expand/braces.go): the recursion that hands each word to its caller as soon as
    it is known, and stops when told to. */
module BraceExpansion {
  import opened BraceWords
  import opened Common
  import opened NumericLoop
  import opened Words

  /** What the caller of the sequence receives. */
  datatype Outcome = Yielded(word: Parts) | TooMany | BadSubstitution(text: string)

  function LitText(w: Parts): Option<string> {
    if w == [] then Some("")
    else
      match (w[0], LitText(w[1..]))
      case (Lit(v), Some(t)) => Some(v + t)
      case _ => None
  }

  function FirstBackquote(s: string): (i: nat)
    ensures i <= |s|
  {
    if s == "" || s[0] == '`' then 0 else 1 + FirstBackquote(s[1..])
  }

  /** A word of literal text in which something follows a backquote. */
  function GeneratedBackquote(w: Parts): Option<string> {
    match LitText(w)
    case None => None
    case Some(t) => if FirstBackquote(t) + 1 < |t| then Some(t[FirstBackquote(t)..]) else None
  }

  /** The text of a word is that of its parts in a row, and only literal parts have any. */
  lemma {:induction false} TextAppend(a: Parts, b: Parts)
    ensures LitText(a + b) ==
            if LitText(a).Some? && LitText(b).Some? then Some(LitText(a).value + LitText(b).value) else None
    ensures LitText([]) == Some("") && forall p: Part :: LitText([p]) == if p.Lit? then Some(p.value) else None
  {
    forall p: Part ensures LitText([p]) == if p.Lit? then Some(p.value) else None {
      assert [p][1..] == [] && LitText([]) == Some("");
      assert p.Lit? ==> p.value + "" == p.value;
    }
    if a == [] {
      assert a + b == b && (LitText(b).Some? ==> "" + LitText(b).value == LitText(b).value);
    } else {
      assert (a + b)[1..] == a[1..] + b;
      TextAppend(a[1..], b);
      if a[0].Lit? && LitText(a[1..]).Some? && LitText(b).Some? {
        Regroup(a[0].value, LitText(a[1..]).value, LitText(b).value);
      }
    }
  }

  lemma {:induction false} FirstBackquoteIs(s: string)
    ensures FirstBackquote(s) < |s| ==> s[FirstBackquote(s)] == '`'
    ensures forall k :: 0 <= k < FirstBackquote(s) ==> s[k] != '`'
  {
    if s != "" && s[0] != '`' {
      FirstBackquoteIs(s[1..]);
      assert s == [s[0]] + s[1..];
    }
  }

  /** A word is refused exactly if it is all text and some backquote in it has anything behind it; it is named
      by its text from the first backquote on. */
  lemma RefusedIff(w: Parts)
    ensures GeneratedBackquote(w).Some? <==>
            LitText(w).Some? && exists i :: 0 <= i < |LitText(w).value| - 1 && LitText(w).value[i] == '`'
    ensures GeneratedBackquote(w).Some? ==>
              var t, text := LitText(w).value, GeneratedBackquote(w).value;
              && text != "" && text[0] == '`' && |text| <= |t| && text == t[|t| - |text|..]
              && forall k :: 0 <= k < |t| - |text| ==> t[k] != '`'
  {
    hide LitText;
    if LitText(w).Some? { FirstBackquoteIs(LitText(w).value); }
  }

  /** The outcomes after one more word is offered, and whether to go on. */
  function Offered(got: seq<Outcome>, w: Parts, more: seq<Outcome> -> bool): (seq<Outcome>, bool) {
    if |got| + 1 > LIMIT then (got + [TooMany], false)
    else
      match GeneratedBackquote(w)
      case Some(text) => (got + [BadSubstitution(text)], false)
      case None => (got + [Yielded(w)], more(got + [Yielded(w)]))
  }

  /** The outcomes after these words are offered in turn, until one is refused. */
  function Fed(got: seq<Outcome>, ws: seq<Parts>, more: seq<Outcome> -> bool): (seq<Outcome>, bool)
    decreases |ws|
  {
    if ws == [] then (got, true)
    else
      var (next, ok) := Offered(got, ws[0], more);
      if ok then Fed(next, ws[1..], more) else (next, false)
  }

  lemma {:induction false} FedAppend(got: seq<Outcome>, a: seq<Parts>, b: seq<Parts>, more: seq<Outcome> -> bool)
    ensures Fed(got, a + b, more) ==
            if Fed(got, a, more).1 then Fed(Fed(got, a, more).0, b, more) else Fed(got, a, more)
    decreases |a|
  {
    hide Offered;
    if a == [] {
      assert a + b == b;
    } else {
      assert (a + b)[1..] == a[1..] + b && (a + b)[0] == a[0];
      FedAppend(Offered(got, a[0], more).0, a[1..], b, more);
    }
  }

  lemma FedNothing(got: seq<Outcome>, more: seq<Outcome> -> bool)
    ensures Fed(got, [], more) == (got, true)
  {
  }

  lemma FedOne(got: seq<Outcome>, w: Parts, more: seq<Outcome> -> bool)
    ensures Fed(got, [w], more) == Offered(got, w, more)
  {
    hide Offered;
    assert [w][1..] == [];
  }

  /** The callbacks around a recursive call: each puts its own left part before the word. */
  function Wrap(lefts: seq<Parts>, w: Parts): Parts {
    if lefts == [] then w else Wrap(lefts[..|lefts| - 1], Merged(lefts[|lefts| - 1] + w))
  }

  function Wrapped(lefts: seq<Parts>, ws: seq<Parts>): (r: seq<Parts>)
    ensures |r| == |ws| && forall i :: 0 <= i < |r| ==> r[i] == Wrap(lefts, ws[i])
  {
    seq(|ws|, i requires 0 <= i < |ws| => Wrap(lefts, ws[i]))
  }

  lemma WrappedMore(lefts: seq<Parts>, left: Parts, ws: seq<Parts>)
    ensures Wrapped(lefts + [left], ws) == Wrapped(lefts, Prefixed(left, ws))
  {
    hide Merged;
    assert (lefts + [left])[..|lefts|] == lefts;
  }

  lemma WrappedAppend(lefts: seq<Parts>, a: seq<Parts>, b: seq<Parts>)
    ensures Wrapped(lefts, a + b) == Wrapped(lefts, a) + Wrapped(lefts, b)
  {
    hide Wrap;
  }

  lemma WrappedNothing(ws: seq<Parts>)
    ensures Wrapped([], ws) == ws
  {
  }

  /** Words offered and accepted add up, and stay within the limit. */
  lemma {:induction false} FedLength(got: seq<Outcome>, ws: seq<Parts>, more: seq<Outcome> -> bool)
    ensures Fed(got, ws, more).1 ==> |Fed(got, ws, more).0| == |got| + |ws|
    ensures Fed(got, ws, more).1 && ws != [] ==> |Fed(got, ws, more).0| <= LIMIT
    decreases |ws|
  {
    hide GeneratedBackquote;
    if ws != [] {
      FedLength(Offered(got, ws[0], more).0, ws[1..], more);
    }
  }

  /** One sequence of words being handed to a caller, whose answer depends on what it has received. */
  class Delivery {
    const more: seq<Outcome> -> bool
    var got: seq<Outcome>
    var count: nat
    /** The caller, or the limit, has said stop. */
    ghost var stopped: bool

    constructor (more: seq<Outcome> -> bool)
      ensures this.more == more && got == [] && Valid() && !stopped
    {
      this.more, got, count, stopped := more, [], 0, false;
    }

    predicate Valid()
      reads this
    {
      count == |got|
    }

    /** The caller's yield: not to be called once stopped. */
    method Yield(o: Outcome) returns (go: bool)
      requires !stopped
      modifies this`got, this`stopped
      ensures got == old(got) + [o] && go == more(got) && stopped == !go
    {
      got := got + [o];
      go := more(got);
      stopped := !go;
    }

    /** The callback that counts. */
    method Offer(w: Parts) returns (ok: bool)
      requires Valid() && !stopped
      modifies this
      ensures Valid() && (got, ok) == Offered(old(got), w, more) && stopped == !ok
    {
      count := count + 1;
      if count > LIMIT {
        var _ := Yield(TooMany);
        stopped := true;
        return false;
      }
      var text := GeneratedBackquote(w);
      if text.Some? {
        var _ := Yield(BadSubstitution(text.value));
        stopped := true;
        return false;
      }
      ok := Yield(Yielded(w));
    }

    /** The recursive call for one alternative, with the left part put before each of its words. */
    method Expand(w: Parts, i: nat, ghost k: nat, next: Parts, lefts: seq<Parts>) returns (ok: bool)
      requires Valid() && !stopped
      requires Parsed(w) && i < |w| && IsBrace(w[i]) && k < Choices(w[i])
      requires next == Chosen(w, i, k) && !ElidedAt(w, i, k)
      modifies this
      ensures Valid() && stopped == !ok
      ensures var here := Wrapped(lefts, YieldsFrom(w, i, k));
              if ok then Fed(old(got), here, more) == Fed(got, Wrapped(lefts, YieldsFrom(w, i, k + 1)), more)
              else (got, ok) == Fed(old(got), here, more)
      ensures ok ==> |old(got)| < |got| <= LIMIT
      decreases Braces(w), 0
    {
      hide *;
      ChoiceShrinks(w, i, k);
      ChosenIs(w, i, k);
      Chosens(w, i, k);
      YieldsStep(w, i, k);
      YieldsSome(next);
      ghost var here, later := Prefixed(w[..i], Yields(next)), YieldsFrom(w, i, k + 1);
      WrappedAppend(lefts, here, later);
      WrappedMore(lefts, w[..i], Yields(next));
      WrappedCount(lefts + [w[..i]], Yields(next));
      FedAppend(got, Wrapped(lefts, here), Wrapped(lefts, later), more);
      FedLength(got, Wrapped(lefts + [w[..i]], Yields(next)), more);
      ok := BracesSeqRec(next, lefts + [w[..i]]);
    }

    /** bracesSeqRec: offers each word as it is known, and stops at once when told to. */
    method BracesSeqRec(w: Parts, lefts: seq<Parts>) returns (ok: bool)
      requires Valid() && !stopped && Parsed(w)
      modifies this
      ensures Valid() && (got, ok) == Fed(old(got), Wrapped(lefts, Yields(w)), more) && stopped == !ok
      decreases Braces(w), 1
    {
      hide Fed, Yields, YieldsFrom, Wrap, Wrapped, Braces, Everywhere, Meaningful, Merged, Offered, Choice, Number, Count, Incr;
      var left: Parts := [];
      for i := 0 to |w|
        invariant left == w[..i] && NoBraces(w[..i]) && got == old(got) && Valid() && !stopped
      {
        if !IsBrace(w[i]) {
          left := left + [w[i]];
          continue;
        }
        FirstBraceIs(w, i);
        YieldsStart(w, i);
        if w[i].Sequence? {
          ok := ExpandSequence(w, i, lefts);
        } else {
          ok := ExpandList(w, i, left, lefts);
        }
        return;
      }
      assert w[..|w|] == w;
      PlainYields(w);
      ghost var one := Wrapped(lefts, [Merged(w)]);
      assert one == [Wrap(lefts, Merged(w))];
      FedOne(got, Wrap(lefts, Merged(w)), more);
      var word := MergeAdjacentLits(left);
      ok := Offer(Wrap(lefts, word));
    }

    /** The branch for a sequence. A loop that wraps around may not end by itself: then the limit ends it,
        for each number yields some word. */
    method ExpandSequence(w: Parts, i: nat, lefts: seq<Parts>) returns (ok: bool)
      requires Valid() && !stopped && Parsed(w) && i < |w| && w[i].Sequence?
      modifies this
      ensures Valid() && (got, ok) == Fed(old(got), Wrapped(lefts, YieldsFrom(w, i, 0)), more) && stopped == !ok
      decreases Braces(w), 1, 0
    {
      hide Fed, Yields, YieldsFrom, Wrap, Wrapped, Braces, Everywhere, Meaningful, Number, Count, Incr, Decimal, Chosen;
      hide LoopNumber, GoesOn, LoopFrom;
      var br := w[i];
      SomeChoice(w, i);
      var from, to := br.from, br.to;
      var upward := from <= to;
      var incr := StepOf(br);
      var n := from;
      ghost var k, cap := 0, (if Count(br) > LIMIT then Count(br) else LIMIT) + 1;
      LoopStarts(br);
      while (upward && n <= to) || (!upward && n >= to)
        invariant k <= Choices(br) && Valid() && !stopped && k <= |got|
        invariant k < Choices(br) ==> n == LoopNumber(br, k) && Goes(br, n) && LoopFrom(br, k, cap) == Choices(br)
        invariant k == Choices(br) ==> !Goes(br, n)
        invariant Fed(old(got), Wrapped(lefts, YieldsFrom(w, i, 0)), more) ==
                  Fed(got, Wrapped(lefts, YieldsFrom(w, i, k)), more)
        decreases Choices(br) - k
      {
        var next := [Lit(Decimal(br.width, n))] + w[i + 1..];
        ChosenIs(w, i, k);
        var go := Expand(w, i, k, next, lefts);
        if !go {
          return false;
        }
        LoopGoesOn(br, k, cap);
        k := k + 1;
        if n == to {
          break;
        }
        n := Wrap64(n + incr);
      }
      YieldsStep(w, i, k);
      FedNothing(got, more);
      return true;
    }

    /** The branch for a list. */
    method ExpandList(w: Parts, i: nat, left: Parts, lefts: seq<Parts>) returns (ok: bool)
      requires Valid() && !stopped && Parsed(w) && i < |w| && w[i].List? && left == w[..i]
      modifies this
      ensures Valid() && (got, ok) == Fed(old(got), Wrapped(lefts, YieldsFrom(w, i, 0)), more) && stopped == !ok
      decreases Braces(w), 1, 0
    {
      hide Fed, Yields, YieldsFrom, Wrap, Wrapped, Braces, Everywhere, Meaningful;
      var elems, rest := w[i].elems, w[i + 1..];
      var onlyEmptyElems := true;
      for k := 0 to |elems|
        invariant onlyEmptyElems && forall j :: 0 <= j < k ==> !Meaningful(elems[j].parts)
      {
        if Meaningful(elems[k].parts) {
          onlyEmptyElems := false;
          break;
        }
      }
      assert onlyEmptyElems <==> OnlyEmptyElems(elems);
      var emptyElemYielded := false;
      for k := 0 to |elems|
        invariant Valid() && !stopped
        invariant onlyEmptyElems && !Meaningful(left) && !Meaningful(rest) ==> (emptyElemYielded <==> k > 0)
        invariant Fed(old(got), Wrapped(lefts, YieldsFrom(w, i, 0)), more) ==
                  Fed(got, Wrapped(lefts, YieldsFrom(w, i, k)), more)
      {
        var elem := elems[k];
        YieldsStep(w, i, k);
        if !Meaningful(elem.parts) && !Meaningful(left) && !Meaningful(rest) {
          if !onlyEmptyElems || emptyElemYielded {
            assert [] + YieldsFrom(w, i, k + 1) == YieldsFrom(w, i, k + 1);
            continue;
          }
          emptyElemYielded := true;
        }
        var go := Expand(w, i, k, elem.parts + rest, lefts);
        if !go {
          return false;
        }
      }
      YieldsStep(w, i, |elems|);
      FedNothing(got, more);
      return true;
    }
  }

  lemma WrappedCount(lefts: seq<Parts>, ws: seq<Parts>)
    ensures |Wrapped(lefts, ws)| == |ws|
  {
  }

  lemma LoopStarts(p: Part)
    requires p.Sequence? && OperandsIn64(p)
    ensures LoopNumber(p, 0) == p.from && Goes(p, p.from)
    ensures LoopCount(p) == LoopFrom(p, 0, (if Count(p) > LIMIT then Count(p) else LIMIT) + 1)
  {
    hide LoopFrom, Wrap64;
  }

  /** Where the loop stands after its k-th number. */
  lemma LoopGoesOn(p: Part, k: nat, cap: nat)
    requires p.Sequence? && k < cap
    ensures GoesOn(p, k) <==> LoopNumber(p, k) != p.to && Goes(p, LoopNumber(p, k + 1))
    ensures LoopFrom(p, k, cap) == if k + 1 == cap || !GoesOn(p, k) then k + 1 else LoopFrom(p, k + 1, cap)
    ensures k + 1 < cap ==> LoopFrom(p, k + 1, cap) > k + 1
    ensures Wrap64(LoopNumber(p, k) + Wrap64(Incr(p))) == LoopNumber(p, k + 1)
  {
    hide LoopNumber, Goes;
    CounterSteps(p, k);
  }

  // ---------- What the caller sees ----------

  /** The j-th word was handed over, and the caller asked for more. */
  predicate Accepted(got: seq<Outcome>, ws: seq<Parts>, more: seq<Outcome> -> bool, j: int) {
    0 < j <= |got| && j <= |ws| && got[j - 1] == Yielded(ws[j - 1]) && more(got[..j])
  }

  /** The outcomes are the words in order, each but the last accepted; the last may be an error that
      stands for its word. Nothing follows a refusal, and at most LIMIT words are handed over. */
  ghost predicate Delivered(got: seq<Outcome>, ws: seq<Parts>, more: seq<Outcome> -> bool, ok: bool) {
    |got| <= |ws| && |got| <= LIMIT + 1 &&
    (forall j :: 0 < j < |got| ==> Accepted(got, ws, more, j)) &&
    (ok ==> |got| == |ws| && (got != [] ==> Accepted(got, ws, more, |got|))) &&
    (!ok ==> got != [] && LastOutcome(got, ws[|got| - 1], more))
  }

  /** Why it stopped: the limit, a generated backquote, or the caller. */
  predicate LastOutcome(got: seq<Outcome>, w: Parts, more: seq<Outcome> -> bool)
    requires got != []
  {
    match got[|got| - 1]
    case TooMany => |got| == LIMIT + 1
    case BadSubstitution(text) => |got| <= LIMIT && GeneratedBackquote(w) == Some(text)
    case Yielded(v) => |got| <= LIMIT && GeneratedBackquote(w) == None && v == w && !more(got)
  }

  /** A caller who is still listening has accepted each word so far. */
  predicate Listening(got: seq<Outcome>, ws: seq<Parts>, more: seq<Outcome> -> bool) {
    |got| <= |ws| && |got| <= LIMIT && forall j :: 0 < j <= |got| ==> Accepted(got, ws, more, j)
  }

  lemma AcceptedStays(got: seq<Outcome>, o: Outcome, ws: seq<Parts>, more: seq<Outcome> -> bool, j: int)
    requires 0 < j <= |got|
    ensures Accepted(got + [o], ws, more, j) <==> Accepted(got, ws, more, j)
  {
    assert (got + [o])[..j] == got[..j];
  }

  /** One more word: either the caller listens on, or that was the last outcome. */
  lemma OfferedListens(got: seq<Outcome>, ws: seq<Parts>, more: seq<Outcome> -> bool)
    requires Listening(got, ws, more) && |got| < |ws|
    ensures var (next, ok) := Offered(got, ws[|got|], more);
            |next| == |got| + 1 && if ok then Listening(next, ws, more) else Delivered(next, ws, more, false)
  {
    hide GeneratedBackquote;
    var (next, ok) := Offered(got, ws[|got|], more);
    assert next == got + [next[|got|]] && next[..|next|] == next;
    forall j | 0 < j <= |got| ensures Accepted(next, ws, more, j) {
      AcceptedStays(got, next[|got|], ws, more, j);
    }
  }

  lemma {:induction false} FedIsDelivered(got: seq<Outcome>, ws: seq<Parts>, more: seq<Outcome> -> bool)
    requires Listening(got, ws, more)
    ensures Delivered(Fed(got, ws[|got|..], more).0, ws, more, Fed(got, ws[|got|..], more).1)
    decreases |ws| - |got|
  {
    hide Offered, Accepted, LastOutcome;
    if |got| < |ws| {
      var rest := ws[|got|..];
      assert rest[0] == ws[|got|] && rest[1..] == ws[|got| + 1..];
      OfferedListens(got, ws, more);
      var (next, ok) := Offered(got, rest[0], more);
      if ok {
        FedIsDelivered(next, ws, more);
      }
    }
  }

  /** The caller is handed the words yielded, in order; they are the product when nothing is lost and every
      sequence fits. */
  method BracesSeq(w: Parts, more: seq<Outcome> -> bool) returns (got: seq<Outcome>, ok: bool)
    requires Parsed(w)
    ensures Delivered(got, Yields(w), more, ok)
    ensures AllFit(w) && !Skips(w) ==> Delivered(got, AllMerged(Product(w)), more, ok)
  {
    hide *;
    var delivery := new Delivery(more);
    var go := delivery.BracesSeqRec(w, []);
    WrappedNothing(Yields(w));
    ListeningFirst(Yields(w), more);
    FedIsDelivered([], Yields(w), more);
    assert Yields(w)[0..] == Yields(w);
    if AllFit(w) && !Skips(w) {
      YieldsAll(w);
    }
    return delivery.got, go;
  }

  lemma ListeningFirst(ws: seq<Parts>, more: seq<Outcome> -> bool)
    ensures Listening([], ws, more)
  {
  }
}
