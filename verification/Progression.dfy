/** What the numbers of a brace sequence are, said without the increment that finds them, and what their text
    means (expand/braces.go). */
module Progression {
  import opened Common
  import opened NumericLoop
  import opened Words

  // ---------- Multiples ----------

  lemma PositiveTimes(a: int, b: int)
    requires a > 0 && b > 0
    ensures a * b > 0
  {
  }

  lemma LessTimes(k: int, l: int, d: int)
    requires k < l && d > 0
    ensures k * d < l * d
  {
    PositiveTimes(l - k, d);
    assert (l - k) * d == l * d - k * d;
  }

  lemma SmallMultiple(j: int, d: int)
    requires 0 <= j * d < d
    ensures j * d == 0
  {
    if j > 1 { LessTimes(1, j, d); }
    if j < 0 { LessTimes(j, 0, d); }
  }

  lemma TimesLeavesNothing(k: int, d: int)
    requires d > 0
    ensures k * d % d == 0
  {
    var q, r := k * d / d, k * d % d;
    assert (k - q) * d == k * d - q * d == r;
    SmallMultiple(k - q, d);
  }

  lemma WholeTimes(n: int, d: int)
    requires d > 0 && n % d == 0
    ensures n == n / d * d
  {
  }

  lemma Negated(k: int, d: int)
    ensures (-k) * d == -(k * d)
  {
  }

  lemma NegatedWhole(n: int, d: int)
    requires d > 0 && n % d == 0
    ensures -n % d == 0
  {
    WholeTimes(n, d);
    Negated(n / d, d);
    TimesLeavesNothing(-(n / d), d);
  }

  // ---------- The numbers of a sequence ----------

  /** How far apart they are: the step without its sign, one for no step. */
  function Distance(step: int): (d: int)
    ensures d > 0
  {
    if step == 0 then 1 else if step < 0 then -step else step
  }

  /** Between the ends, whichever is larger, and a whole number of steps from the start. */
  predicate Belongs(p: Part, x: int)
    requires p.Sequence?
  {
    (p.from <= x <= p.to || p.to <= x <= p.from) && (x - p.from) % Distance(p.step) == 0
  }

  ghost predicate IsNumber(p: Part, x: int)
    requires p.Sequence?
  {
    exists k: nat :: k < Count(p) && Number(p, k) == x
  }

  lemma StepsForward(p: Part, k: nat)
    requires p.Sequence?
    ensures Number(p, k) == if p.from <= p.to then p.from + k * Distance(p.step) else p.from - k * Distance(p.step)
  {
    var d := Distance(p.step);
    assert Incr(p) == if p.from <= p.to then d else -d;
    Signed(k, d);
  }

  /** The numbers of a sequence are exactly the numbers between its ends that are whole steps from the start,
      whatever the sign of the step, and they come in order from the start. */
  lemma NumbersAreProgression(p: Part)
    requires p.Sequence?
    ensures forall x :: IsNumber(p, x) <==> Belongs(p, x)
    ensures Number(p, 0) == p.from
    ensures forall k: nat, l: nat :: k < l ==>
              if p.from <= p.to then Number(p, k) < Number(p, l) else Number(p, k) > Number(p, l)
  {
    StepsForward(p, 0);
    hide Number, Count, Belongs, Distance;
    forall k: nat, l: nat | k < l
      ensures if p.from <= p.to then Number(p, k) < Number(p, l) else Number(p, k) > Number(p, l)
    {
      NumbersGrow(p, k, l);
    }
    forall x ensures IsNumber(p, x) <==> Belongs(p, x) {
      if IsNumber(p, x) {
        var k: nat :| k < Count(p) && Number(p, k) == x;
        NumberBelongs(p, k);
      }
      if Belongs(p, x) { var k := BelongsAt(p, x); }
    }
  }

  lemma NumbersGrow(p: Part, k: nat, l: nat)
    requires p.Sequence? && k < l
    ensures if p.from <= p.to then Number(p, k) < Number(p, l) else Number(p, k) > Number(p, l)
  {
    hide Number, Distance;
    StepsForward(p, k);
    StepsForward(p, l);
    LessTimes(k, l, Distance(p.step));
  }

  lemma NumberBelongs(p: Part, k: nat)
    requires p.Sequence? && k < Count(p)
    ensures Belongs(p, Number(p, k))
  {
    hide Number, Count, Distance;
    var d := Distance(p.step);
    NumbersInRange(p, k);
    StepsForward(p, k);
    TimesLeavesNothing(k, d);
    Negated(k, d);
    TimesLeavesNothing(-(k as int), d);
  }

  lemma BelongsAt(p: Part, x: int) returns (k: nat)
    requires p.Sequence? && Belongs(p, x)
    ensures k < Count(p) && Number(p, k) == x
  {
    var d, away := Distance(p.step), if p.from <= p.to then x - p.from else p.from - x;
    NegatedWhole(x - p.from, d);
    assert p.from - x == -(x - p.from);
    WholeTimes(away, d);
    k := away / d;
    hide Number, Count, Distance;
    StepsForward(p, k);
    if k >= Count(p) {
      NumbersInRange(p, Count(p));
      if k > Count(p) { NumbersGrow(p, Count(p), k); }
    }
  }

  /** The alternatives of a sequence are its numbers, in order. */
  lemma SequenceAlternatives(p: Part)
    requires p.Sequence?
    ensures |Alternatives(p)| == Count(p)
    ensures forall k :: 0 <= k < Count(p) ==> Alternatives(p)[k] == [Lit(Decimal(p.width, Number(p, k)))]
  {
    hide Decimal, Number, Count;
    NumbersAt(p, 0);
  }

  lemma {:induction false} NumbersAt(p: Part, k: nat)
    requires p.Sequence? && k <= Count(p)
    ensures |NumbersFrom(p, k)| == Count(p) - k
    ensures forall j :: 0 <= j < Count(p) - k ==> NumbersFrom(p, k)[j] == [Lit(Decimal(p.width, Number(p, k + j)))]
    decreases Count(p) - k
  {
    hide Decimal, Number, Count;
    if k < Count(p) { NumbersAt(p, k + 1); }
  }

  /** A step and its negation make no difference. */
  lemma StepSignIsIgnored(from: int, to: int, step: int, width: nat)
    ensures Alternatives(Sequence(from, to, step, width)) == Alternatives(Sequence(from, to, -step, width))
  {
    var p, q := Sequence(from, to, step, width), Sequence(from, to, -step, width);
    forall k: nat ensures Number(p, k) == Number(q, k) {
      StepsForward(p, k);
      StepsForward(q, k);
    }
    assert Count(p) == Count(q);
    hide Count, Number, Decimal, Alternatives;
    SequenceAlternatives(p);
    SequenceAlternatives(q);
  }

  /** A loop that fits runs through exactly those numbers, in order, and ends. */
  lemma LoopIsProgression(p: Part)
    requires p.Sequence? && OperandsIn64(p) && Fits(p)
    ensures EndsAfter(p, Count(p)) && LoopNumber(p, 0) == p.from
    ensures forall x :: (exists k: nat :: k < Count(p) && LoopNumber(p, k) == x) ==> Belongs(p, x)
    ensures forall x :: Belongs(p, x) ==> exists k: nat :: k < Count(p) && LoopNumber(p, k) == x
    ensures forall k: nat, l: nat :: k < l < Count(p) ==>
              if p.from <= p.to then LoopNumber(p, k) < LoopNumber(p, l) else LoopNumber(p, k) > LoopNumber(p, l)
  {
    hide Count, Number, Fits, Belongs, LoopNumber;
    FitsIffLoopEnds(p);
    NumbersAreProgression(p);
    forall k: nat | k < Count(p) ensures LoopNumber(p, k) == Number(p, k) { InRange(p, k); }
    forall x | Belongs(p, x) ensures exists k: nat :: k < Count(p) && LoopNumber(p, k) == x {
      var k := BelongsAt(p, x);
      assert LoopNumber(p, k) == x;
    }
    forall x | exists k: nat :: k < Count(p) && LoopNumber(p, k) == x ensures Belongs(p, x) {
      var k: nat :| k < Count(p) && LoopNumber(p, k) == x;
      assert IsNumber(p, x);
    }
  }

  // ---------- Decimal text ----------

  function DigitsValue(s: string): int {
    if s == "" then 0 else 10 * DigitsValue(s[..|s| - 1]) + (s[|s| - 1] as int - '0' as int)
  }

  /** The number that decimal text stands for. */
  function Value(s: string): int {
    if s != "" && s[0] == '-' then -DigitsValue(s[1..]) else DigitsValue(s)
  }

  lemma OneMoreDigit(s: string, c: char)
    ensures DigitsValue(s + [c]) == 10 * DigitsValue(s) + (c as int - '0' as int)
  {
    assert (s + [c])[..|s|] == s;
  }

  lemma DigitOf(r: nat)
    requires r < 10
    ensures (r as char + '0') as int == r + '0' as int
  {
  }

  lemma {:induction false} ValueOfDigits(n: nat)
    ensures DigitsValue(Digits(n)) == n && (n > 0 ==> Digits(n)[0] != '0')
  {
    var r := n % 10;
    DigitOf(r);
    if n < 10 {
      assert Digits(n) == "" + [r as char + '0'];
      OneMoreDigit("", r as char + '0');
    } else {
      ValueOfDigits(n / 10);
      assert Digits(n) == Digits(n / 10) + [r as char + '0'];
      OneMoreDigit(Digits(n / 10), r as char + '0');
    }
  }

  lemma {:induction false} ZerosAreZero(k: int)
    ensures |Zeros(k)| == (if k < 0 then 0 else k) && forall i :: 0 <= i < |Zeros(k)| ==> Zeros(k)[i] == '0'
    decreases if k < 0 then 0 else k
  {
    if k > 0 { ZerosAreZero(k - 1); }
  }

  lemma {:induction false} ValueOfPadded(z: string, s: string)
    requires forall i :: 0 <= i < |z| ==> z[i] == '0'
    ensures DigitsValue(z + s) == DigitsValue(s)
    decreases |z| + |s|
  {
    if s != "" {
      var init, c := s[..|s| - 1], s[|s| - 1];
      ValueOfPadded(z, init);
      assert s == init + [c] && z + s == (z + init) + [c];
      OneMoreDigit(init, c);
      OneMoreDigit(z + init, c);
    } else if z != "" {
      var init := z[..|z| - 1];
      ValueOfPadded(init, "");
      assert z + s == init + ['0'] && init + "" == init;
      OneMoreDigit(init, '0');
    }
  }

  /** The text of a number stands for it and is as wide as asked; it has a minus sign for a negative number
      alone, digits otherwise, and no leading zeros beyond the width. */
  lemma DecimalMeans(width: nat, n: int)
    ensures Value(Decimal(width, n)) == n && |Decimal(width, n)| >= width
    ensures var text, sign := Decimal(width, n), if n < 0 then 1 else 0;
            && |text| > sign && (text[0] == '-' <==> n < 0)
            && (forall i :: sign <= i < |text| ==> '0' <= text[i] <= '9')
            && (|text| > width && n != 0 ==> text[sign] != '0')
  {
    hide *;
    DecimalIs(width, n);
    PaddedValue(width, n);
    PaddedShape(width, n);
    SignedText(n, Decimal(width, n), Padded(width, n));
    if |Sign(n)| + |Padded(width, n)| > width && n != 0 { PaddedTight(width, n); }
  }

  function Sign(n: int): string { if n < 0 then "-" else "" }

  /** The digits of a number, padded. */
  function Padded(width: nat, n: int): string { Zeros(width - |Sign(n)| - |Digits(Abs(n))|) + Digits(Abs(n)) }

  lemma DecimalIs(width: nat, n: int)
    ensures Decimal(width, n) == Sign(n) + Padded(width, n)
  {
    hide Digits, Zeros;
    Regroup(Sign(n), Zeros(width - |Sign(n)| - |Digits(Abs(n))|), Digits(Abs(n)));
  }

  lemma PaddedValue(width: nat, n: int)
    ensures DigitsValue(Padded(width, n)) == Abs(n)
  {
    hide Digits, Zeros, DigitsValue;
    ZerosAreZero(width - |Sign(n)| - |Digits(Abs(n))|);
    ValueOfPadded(Zeros(width - |Sign(n)| - |Digits(Abs(n))|), Digits(Abs(n)));
    ValueOfDigits(Abs(n));
  }

  lemma PaddedShape(width: nat, n: int)
    ensures var digits := Padded(width, n);
            && digits != "" && |Sign(n)| + |digits| >= width
            && forall i :: 0 <= i < |digits| ==> '0' <= digits[i] <= '9'
  {
    hide Digits, Zeros;
    ZerosAreZero(width - |Sign(n)| - |Digits(Abs(n))|);
  }

  lemma PaddedTight(width: nat, n: int)
    requires |Sign(n)| + |Padded(width, n)| > width && n != 0
    ensures Padded(width, n)[0] != '0'
  {
    hide Digits, Zeros;
    ZerosAreZero(width - |Sign(n)| - |Digits(Abs(n))|);
    ValueOfDigits(Abs(n));
    assert Zeros(width - |Sign(n)| - |Digits(Abs(n))|) == "";
    assert Padded(width, n)[0] == Digits(Abs(n))[0];
  }

  lemma SignedText(n: int, text: string, digits: string)
    requires text == Sign(n) + digits && digits != "" && DigitsValue(digits) == Abs(n)
    requires forall i :: 0 <= i < |digits| ==> '0' <= digits[i] <= '9'
    ensures Value(text) == n && (text[0] == '-' <==> n < 0)
    ensures var sign := if n < 0 then 1 else 0; |text| == sign + |digits| && text[sign..] == digits
  {
    hide DigitsValue;
    if n < 0 {
      assert text[1..] == digits;
    } else {
      assert text == digits;
    }
  }
}
