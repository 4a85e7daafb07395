/** Fresh names for the pseudo-package C (gosource/cgo.go): a numeration of all non-empty words over 36
    digits, and the search for one that is not in use. */
module TokenName {

  const DIGITS: string := "0123456789abcdefghijklmnopqrstuvwxyz"

  predicate IsDigit(c: char) { '0' <= c <= '9' || 'a' <= c <= 'z' }

  function Digit(k: nat): (c: char)
    requires k < 36
    ensures IsDigit(c) && c == DIGITS[k]
  {
    DIGITS[k]
  }

  function DigitValue(c: char): (k: nat)
    requires IsDigit(c)
    ensures k < 36 && DIGITS[k] == c
  {
    if c <= '9' then (c - '0') as nat else (c - 'a') as nat + 10
  }

  predicate IsToken(s: string) { s != "" && forall i :: 0 <= i < |s| ==> IsDigit(s[i]) }

  function Name(index: nat): (s: string)
    ensures IsToken(s)
  {
    if index < 36 then [Digit(index)] else Name(index / 36 - 1) + Name(index % 36)
  }

  /** Where a word stands in the numeration: shorter words first, then digit by digit. */
  function Index(s: string): nat
    requires IsToken(s)
  {
    var last := DigitValue(s[|s| - 1]);
    if |s| == 1 then last else (Index(s[..|s| - 1]) + 1) * 36 + last
  }

  lemma DigitValueOf(k: nat)
    requires k < 36
    ensures DigitValue(Digit(k)) == k
  {
    assert k < 10 ==> DIGITS[k] == '0' + k as char;
    assert k >= 10 ==> DIGITS[k] == 'a' + (k - 10) as char;
  }

  /** The last digit of a longer name. */
  lemma NameSplits(index: nat)
    requires index >= 36
    ensures Name(index) == Name(index / 36 - 1) + [Digit(index % 36)]
  {
  }

  lemma IndexOfOne(c: char)
    requires IsDigit(c)
    ensures IsToken([c]) && Index([c]) == DigitValue(c)
  {
    hide DigitValue, IsDigit;
  }

  lemma IndexOfMore(t: string, c: char)
    requires IsToken(t) && IsDigit(c)
    ensures IsToken(t + [c]) && Index(t + [c]) == (Index(t) + 1) * 36 + DigitValue(c)
  {
    hide DigitValue, IsDigit;
    assert (t + [c])[..|t|] == t;
  }

  lemma Quotient(n: nat)
    requires n >= 36
    ensures (n / 36 - 1 + 1) * 36 + n % 36 == n
  {
  }

  /** No two numbers share a name ... */
  lemma {:induction false} IndexOfName(n: nat)
    ensures Index(Name(n)) == n
  {
    hide *;
    if n < 36 {
      DigitValueOf(n);
      NameSmall(n);
      IndexOfOne(Digit(n));
    } else {
      DigitValueOf(n % 36);
      NameSplits(n);
      IndexOfName(n / 36 - 1);
      IndexOfMore(Name(n / 36 - 1), Digit(n % 36));
      Quotient(n);
    }
  }

  /** ... and every word is a name. */
  lemma {:induction false} NameOfIndex(s: string)
    requires IsToken(s)
    ensures Name(Index(s)) == s
  {
    hide *;
    TokenPrefix(s);
    var init, c := s[..|s| - 1], s[|s| - 1];
    assert s == init + [c];
    DigitOfValue(c);
    if |s| == 1 {
      IndexOfOne(c);
      NameSmall(DigitValue(c));
    } else {
      NameOfIndex(init);
      IndexOfMore(init, c);
      Division(Index(init), DigitValue(c));
      NameSplits(Index(s));
    }
  }

  lemma TokenPrefix(s: string)
    requires IsToken(s)
    ensures |s| >= 1 && IsDigit(s[|s| - 1]) && (|s| > 1 ==> IsToken(s[..|s| - 1]))
  {
    hide IsDigit;
  }

  lemma DigitOfValue(c: char)
    requires IsDigit(c)
    ensures DigitValue(c) < 36 && Digit(DigitValue(c)) == c
  {
  }

  lemma NameSmall(k: nat)
    requires k < 36
    ensures Name(k) == [Digit(k)]
  {
  }

  lemma Division(q: nat, r: nat)
    requires r < 36
    ensures var n := (q + 1) * 36 + r; n >= 36 && n / 36 - 1 == q && n % 36 == r
  {
  }

  const PREFIX: string := "__gosource_go_C_"

  function Alias(index: nat): string { PREFIX + Name(index) }

  lemma AliasesDiffer(m: nat, n: nat)
    requires m != n
    ensures Alias(m) != Alias(n)
  {
    hide Name, Index;
    IndexOfName(m);
    IndexOfName(n);
    assert Alias(m)[|PREFIX|..] == Name(m) && Alias(n)[|PREFIX|..] == Name(n);
  }

  /** The first alias not in use; the loop tries at most one more than there are names in use. */
  method FreshAlias(used: set<string>) returns (alias: string, tries: nat)
    ensures alias !in used && 1 <= tries <= |used| + 1
    ensures alias == Alias(tries - 1) && forall k :: 0 <= k < tries - 1 ==> Alias(k) in used
  {
    hide Name;
    alias, tries := "", 0;
    var index := 0;
    ghost var taken: set<string> := {};
    while alias == "" || alias in used
      invariant tries == index && (index == 0 <==> alias == "")
      invariant index > 0 ==> alias == Alias(index - 1)
      invariant taken == set k | 0 <= k < index - 1 :: Alias(k)
      invariant taken <= used && |taken| == if index == 0 then 0 else index - 1
      decreases |used| + 1 - index
    {
      if index > 0 {
        forall k | 0 <= k < index - 1 ensures Alias(k) != alias {
          AliasesDiffer(k, index - 1);
        }
        assert alias !in taken;
        taken := taken + {alias};
      }
      Fits(taken, used);
      alias := Alias(index);
      assert alias != "";
      index, tries := index + 1, tries + 1;
    }
    Fits(taken, used);
    forall k | 0 <= k < tries - 1 ensures Alias(k) in used {
      assert Alias(k) in taken;
    }
  }

  lemma {:induction false} Fits(a: set<string>, b: set<string>)
    requires a <= b
    ensures |a| <= |b|
  {
    if a != {} {
      var x :| x in a;
      Fits(a - {x}, b - {x});
    }
  }
}
