/** The loop over the numbers of a brace sequence (expand/braces.go), whose counter wraps around 64 bits. */
module NumericLoop {
  import opened Words

  const MIN64: int := -0x8000_0000_0000_0000
  const MAX64: int := 0x7FFF_FFFF_FFFF_FFFF
  const MODULUS: int := 0x1_0000_0000_0000_0000

  predicate In64(n: int) { MIN64 <= n <= MAX64 }

  function Wrap64(n: int): (r: int)
    ensures In64(r) && (In64(n) ==> r == n)
  {
    (n - MIN64) % MODULUS + MIN64
  }

  /** The operands as ParseInt leaves them. */
  predicate OperandsIn64(p: Part)
    requires p.Sequence?
  {
    In64(p.from) && In64(p.to) && In64(p.step)
  }

  /** The value of the counter after k steps. */
  function LoopNumber(p: Part, k: nat): int
    requires p.Sequence?
  {
    Wrap64(Number(p, k))
  }

  predicate Goes(p: Part, n: int)
    requires p.Sequence?
  {
    if p.from <= p.to then n <= p.to else n >= p.to
  }

  /** After its k-th number the loop neither breaks nor fails its guard. */
  predicate GoesOn(p: Part, k: nat)
    requires p.Sequence?
  {
    LoopNumber(p, k) != p.to && Goes(p, LoopNumber(p, k + 1))
  }

  ghost predicate EndsAfter(p: Part, count: nat)
    requires p.Sequence?
  {
    count > 0 && (forall k: nat :: k + 1 < count ==> GoesOn(p, k)) && !GoesOn(p, count - 1)
  }

  /** One step beyond the last number stays in 64 bits, or is never taken. */
  predicate Fits(p: Part)
    requires p.Sequence?
  {
    Last(p) == p.to || In64(Last(p) + Incr(p))
  }

  lemma WrapShift(n: int, q: int)
    ensures Wrap64(n + q * MODULUS) == Wrap64(n)
  {
    var x := n - MIN64;
    assert x == (x / MODULUS) * MODULUS + x % MODULUS;
    assert x + q * MODULUS == (x / MODULUS + q) * MODULUS + x % MODULUS;
    assert (x + q * MODULUS) % MODULUS == x % MODULUS;
    assert n + q * MODULUS - MIN64 == x + q * MODULUS;
  }

  /** Wrapping early changes no sum. */
  lemma WrapAdd(a: int, b: int)
    ensures Wrap64(Wrap64(a) + Wrap64(b)) == Wrap64(a + b)
  {
    var i, j := (a - MIN64) / MODULUS, (b - MIN64) / MODULUS;
    assert a == Wrap64(a) + i * MODULUS && b == Wrap64(b) + j * MODULUS;
    assert a + b == Wrap64(a) + Wrap64(b) + (i + j) * MODULUS;
    hide Wrap64;
    WrapShift(Wrap64(a) + Wrap64(b), i + j);
  }

  lemma WrapBeyond(n: int)
    ensures MAX64 < n <= MAX64 + MODULUS ==> Wrap64(n) == n - MODULUS
    ensures MIN64 - MODULUS <= n < MIN64 ==> Wrap64(n) == n + MODULUS
  {
    hide Wrap64;
    WrapShift(n, -1);
    WrapShift(n, 1);
  }

  lemma NextNumber(p: Part, k: nat)
    requires p.Sequence?
    ensures Number(p, k + 1) == Number(p, k) + Incr(p)
  {
    hide Incr;
    assert (k + 1) * Incr(p) == k * Incr(p) + Incr(p);
  }

  /** The numbers the sequence should have are those the counter takes first. */
  lemma InRange(p: Part, k: nat)
    requires p.Sequence? && OperandsIn64(p) && k < Count(p)
    ensures LoopNumber(p, k) == Number(p, k)
    ensures k + 1 < Count(p) ==> GoesOn(p, k)
  {
    hide Number, Count, Wrap64;
    NumbersInRange(p, k);
    NumbersInRange(p, k + 1);
    NextNumber(p, k);
  }

  /** The loop ends after exactly the numbers the sequence should have if and only if the sequence fits. */
  lemma FitsIffLoopEnds(p: Part)
    requires p.Sequence? && OperandsIn64(p)
    ensures EndsAfter(p, Count(p)) <==> Fits(p)
  {
    hide Number, Count, Wrap64;
    var c := Count(p);
    forall k: nat | k + 1 < c ensures GoesOn(p, k) {
      InRange(p, k);
    }
    InRange(p, c - 1);
    NumbersInRange(p, c - 1);
    NumbersInRange(p, c);
    NextNumber(p, c - 1);
    WrapBeyond(Last(p) + Incr(p));
  }

  /** From the largest number but one, a step of two goes past the end and on from the smallest number. */
  lemma StepWrapsAround()
    ensures var p := Sequence(MAX64 - 1, MAX64, 2, 0);
            OperandsIn64(p) && Count(p) == 1 && !Fits(p) && !EndsAfter(p, 1) && LoopNumber(p, 1) == MIN64
  {
    var p := Sequence(MAX64 - 1, MAX64, 2, 0);
    assert Number(p, 0) == MAX64 - 1 && Number(p, 1) == MAX64 + 1;
    WrapBeyond(MAX64 + 1);
    FitsIffLoopEnds(p);
  }

  // ---------- How many numbers there are ----------

  /** How many numbers the loop has had when it ends, counting no further than max. */
  function LoopFrom(p: Part, k: nat, max: nat): (count: nat)
    requires p.Sequence? && k < max
    ensures k < count <= max
    decreases max - k
  {
    if k + 1 == max || !GoesOn(p, k) then k + 1 else LoopFrom(p, k + 1, max)
  }

  lemma {:induction false} LoopReaches(p: Part, k: nat, c: nat, max: nat)
    requires p.Sequence? && k <= c < max && forall j: nat :: k <= j < c ==> GoesOn(p, j)
    ensures LoopFrom(p, k, max) == LoopFrom(p, c, max)
    decreases c - k
  {
    hide GoesOn;
    if k < c { LoopReaches(p, k + 1, c, max); }
  }

  /** Counted far enough, the loop has the right number of numbers if it fits, and more if it does not. */
  lemma LoopCountIs(p: Part, max: nat)
    requires p.Sequence? && OperandsIn64(p) && max > Count(p)
    ensures LoopFrom(p, 0, max) >= Count(p)
    ensures LoopFrom(p, 0, max) == Count(p) <==> Fits(p)
  {
    hide GoesOn, Count, Fits;
    var c := Count(p);
    FitsIffLoopEnds(p);
    forall j: nat | j < c - 1 ensures GoesOn(p, j) {
      InRange(p, j);
    }
    LoopReaches(p, 0, c - 1, max);
    assert EndsAfter(p, c) <==> !GoesOn(p, c - 1);
  }

  /** The increment as the code works it out, with negations that wrap. */
  method StepOf(br: Part) returns (incr: int)
    requires br.Sequence? && OperandsIn64(br)
    ensures incr == Wrap64(Incr(br))
    ensures var size := if br.step == 0 then 1 else if br.step < 0 then -br.step else br.step;
            incr == Wrap64(if br.from <= br.to then size else -size)
  {
    var upward := br.from <= br.to;
    incr := if upward then 1 else -1;
    var n := br.step;
    if n != 0 {
      if n < 0 {
        n := Wrap64(-n);
      }
      if !upward {
        n := Wrap64(-n);
      }
      incr := n;
    }
  }

  /** One step of the counter. */
  lemma CounterSteps(p: Part, k: nat)
    requires p.Sequence?
    ensures Wrap64(LoopNumber(p, k) + Wrap64(Incr(p))) == LoopNumber(p, k + 1)
  {
    hide Wrap64, Number, Incr;
    NextNumber(p, k);
    WrapAdd(Number(p, k), Incr(p));
  }
}
