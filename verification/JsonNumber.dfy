/** Number literals, as in section 6 of RFC 8259: the grammar, and the scan from left to right that the encoder
    makes of a number's text. */
module JsonNumber {
  import opened Common
  import opened Utf8

  // ---------- The grammar ----------

  predicate IsDigit(b: byte) { 0x30 <= b <= 0x39 }

  predicate AllDigits(s: seq<byte>) { forall i :: 0 <= i < |s| ==> IsDigit(s[i]) }

  /** 1*DIGIT. */
  predicate IsDigits(s: seq<byte>) { s != [] && AllDigits(s) }

  predicate IsMinus(s: seq<byte>) { s == [] || s == [0x2D] }

  predicate IsInt(s: seq<byte>) { s == [0x30] || (IsDigits(s) && s[0] != 0x30) }

  predicate IsFrac(s: seq<byte>) { s == [] || (s[0] == 0x2E && IsDigits(s[1..])) }

  predicate IsExp(s: seq<byte>) {
    s == [] || ((s[0] == 0x65 || s[0] == 0x45) && (IsDigits(s[1..]) || IsSignedDigits(s[1..])))
  }

  predicate IsSignedDigits(s: seq<byte>) { s != [] && (s[0] == 0x2B || s[0] == 0x2D) && IsDigits(s[1..]) }

  ghost predicate MadeOf(s: seq<byte>, minus: seq<byte>, whole: seq<byte>, fraction: seq<byte>, exp: seq<byte>) {
    IsMinus(minus) && IsInt(whole) && IsFrac(fraction) && IsExp(exp) && s == minus + (whole + (fraction + exp))
  }

  ghost predicate IsNumber(s: seq<byte>) {
    exists minus, whole, fraction, exp :: MadeOf(s, minus, whole, fraction, exp)
  }

  // ---------- The scan ----------

  function AfterDigits(s: seq<byte>): seq<byte>
  {
    if s == [] || !IsDigit(s[0]) then s else AfterDigits(s[1..])
  }

  function AfterMinus(s: seq<byte>): seq<byte> { if s != [] && s[0] == 0x2D then s[1..] else s }

  function AfterInt(s: seq<byte>): Option<seq<byte>> {
    if s == [] || !IsDigit(s[0]) then None else Some(if s[0] == 0x30 then s[1..] else AfterDigits(s[1..]))
  }

  function AfterFrac(s: seq<byte>): seq<byte> {
    if |s| >= 2 && s[0] == 0x2E && IsDigit(s[1]) then AfterDigits(s[2..]) else s
  }

  /** Nothing but an exponent is left. */
  predicate EndsInExp(s: seq<byte>) {
    if |s| >= 2 && (s[0] == 0x65 || s[0] == 0x45) then
      var t := s[1..];
      if t[0] == 0x2B || t[0] == 0x2D then |t| > 1 && AfterDigits(t[1..]) == [] else AfterDigits(t) == []
    else s == []
  }

  predicate ScansAsNumber(s: seq<byte>) {
    var rest := AfterInt(AfterMinus(s));
    rest.Some? && EndsInExp(AfterFrac(rest.value))
  }

  // ---------- They agree ----------

  /** Digits before something else are skipped, and those alone. */
  lemma {:induction false} SkipsDigits(d: seq<byte>, t: seq<byte>)
    requires AllDigits(d) && (t == [] || !IsDigit(t[0]))
    ensures AfterDigits(d + t) == t
  {
    if d == [] {
      assert d + t == t;
    } else {
      assert (d + t)[1..] == d[1..] + t;
      SkipsDigits(d[1..], t);
    }
  }

  lemma IntSkipped(d: seq<byte>, t: seq<byte>)
    requires IsInt(d) && (t == [] || !IsDigit(t[0]))
    ensures AfterMinus(d + t) == d + t && AfterInt(d + t) == Some(t)
  {
    assert (d + t)[1..] == d[1..] + t;
    SkipsDigits(d[1..], t);
  }

  lemma FracSkipped(d: seq<byte>, t: seq<byte>)
    requires IsFrac(d) && IsExp(t)
    ensures AfterFrac(d + t) == t && (d + t == [] || !IsDigit((d + t)[0]))
  {
    if d == [] {
      assert d + t == t;
    } else {
      assert (d + t)[2..] == d[2..] + t && d[1..][1..] == d[2..];
      SkipsDigits(d[2..], t);
    }
  }

  lemma ExpScanned(s: seq<byte>)
    ensures EndsInExp(s) <==> IsExp(s)
  {
    if |s| >= 2 {
      var t := s[1..];
      DigitsScanned(t);
      DigitsScanned(t[1..]);
    }
  }

  lemma DigitsScanned(s: seq<byte>)
    ensures s != [] ==> (AfterDigits(s) == [] <==> IsDigits(s))
  {
    var d := DigitsTaken(s);
    if IsDigits(s) {
      assert s + [] == s;
      SkipsDigits(s, []);
    }
  }

  lemma {:induction false} DigitsTaken(s: seq<byte>) returns (d: seq<byte>)
    ensures s == d + AfterDigits(s) && AllDigits(d)
  {
    if s == [] || !IsDigit(s[0]) {
      d := [];
    } else {
      var rest := DigitsTaken(s[1..]);
      var r := AfterDigits(s[1..]);
      assert AfterDigits(s) == r;
      hide AfterDigits;
      d := [s[0]] + rest;
      assert s == [s[0]] + s[1..];
      Regroup([s[0]], rest, r);
    }
  }

  lemma IntScanned(s: seq<byte>) returns (d: seq<byte>)
    requires AfterInt(s).Some?
    ensures IsInt(d) && s == d + AfterInt(s).value
  {
    hide AfterDigits;
    assert s == [s[0]] + s[1..];
    d := [s[0]];
    if s[0] != 0x30 {
      var more := DigitsTaken(s[1..]);
      Regroup([s[0]], more, AfterDigits(s[1..]));
      d := [s[0]] + more;
    }
  }

  lemma FracScanned(s: seq<byte>) returns (d: seq<byte>)
    ensures IsFrac(d) && s == d + AfterFrac(s)
  {
    hide AfterDigits;
    d := [];
    if AfterFrac(s) != s {
      var more := DigitsTaken(s[2..]);
      assert s == [s[0], s[1]] + s[2..];
      Regroup([s[0], s[1]], more, AfterDigits(s[2..]));
      d := [s[0], s[1]] + more;
      assert d[1..] == [s[1]] + more;
    }
  }

  /** The scan accepts exactly the number literals. */
  lemma ScanIsGrammar(s: seq<byte>)
    ensures ScansAsNumber(s) <==> IsNumber(s)
  {
    hide IsExp, EndsInExp, AfterInt, AfterFrac, AfterDigits, IsInt, IsFrac, IsDigits;
    if ScansAsNumber(s) {
      var a := AfterMinus(s);
      var b := AfterInt(a).value;
      var e := AfterFrac(b);
      var d := IntScanned(a);
      var f := FracScanned(b);
      ExpScanned(e);
      var m := if a == s then [] else [0x2D];
      assert s == m + a;
      assert MadeOf(s, m, d, f, e);
    }
    if IsNumber(s) {
      var m, d, f, e :| MadeOf(s, m, d, f, e);
      FracSkipped(f, e);
      IntSkipped(d, f + e);
      ExpScanned(e);
      assert m == [] ==> s == d + (f + e);
      assert m != [] ==> s[1..] == d + (f + e);
    }
  }
}
