/** The list environment (expand/environ.go): sorted once by name, invalid and overridden pairs deleted in
    place, then searched by bisection; it answers what a plain scan for the last valid pair answers. Names
    are compared as they are, or regardless of case (ci). Strings are byte strings. */
module Environ {
  import opened Common

  // ---------- Byte order ----------

  /** strings.Compare. */
  function Compare(a: string, b: string): int {
    if a == [] then (if b == [] then 0 else -1)
    else if b == [] then 1
    else if a[0] < b[0] then -1
    else if a[0] > b[0] then 1
    else Compare(a[1..], b[1..])
  }

  lemma {:induction false} CompareEqual(a: string, b: string)
    ensures Compare(a, b) == 0 <==> a == b
  {
    if a != [] && b != [] {
      CompareEqual(a[1..], b[1..]);
      assert a == [a[0]] + a[1..] && b == [b[0]] + b[1..];
    }
  }

  lemma {:induction false} CompareTransitive(a: string, b: string, c: string)
    requires Compare(a, b) <= 0 && Compare(b, c) <= 0
    ensures Compare(a, c) <= 0 && (Compare(a, b) < 0 || Compare(b, c) < 0 ==> Compare(a, c) < 0)
  {
    if a != [] && b != [] && c != [] {
      if a[0] == b[0] == c[0] { CompareTransitive(a[1..], b[1..], c[1..]); }
    }
  }

  lemma {:induction false} CompareTotal(a: string, b: string)
    ensures Compare(a, b) == -Compare(b, a)
  {
    if a != [] && b != [] { CompareTotal(a[1..], b[1..]); }
  }

  /** The two agree up to k, where the first ends or has the smaller byte. */
  predicate SmallerAt(a: string, b: string, k: nat) {
    k <= |a| && k < |b| && a[..k] == b[..k] && (k == |a| || a[k] < b[k])
  }

  /** The order is that of dictionaries, byte by byte. */
  lemma {:induction false} CompareIsLexicographic(a: string, b: string)
    ensures Compare(a, b) < 0 <==> exists k: nat :: SmallerAt(a, b, k)
    ensures Compare(a, b) == 0 <==> a == b
    ensures Compare(a, b) > 0 <==> exists k: nat :: SmallerAt(b, a, k)
  {
    CompareEqual(a, b);
    CompareTotal(a, b);
    CompareIsSmaller(a, b);
    CompareIsSmaller(b, a);
  }

  lemma AgreeFirst(a: string, b: string, k: nat)
    requires SmallerAt(a, b, k) && k > 0
    ensures a[0] == b[0]
  {
    assert a[..k][0] == b[..k][0];
  }

  lemma {:induction false} CompareIsSmaller(a: string, b: string)
    ensures Compare(a, b) < 0 <==> exists k: nat :: SmallerAt(a, b, k)
  {
    if b != [] && (a == [] || a[0] != b[0]) {
      assert a == [] || a[0] < b[0] ==> SmallerAt(a, b, 0);
      forall k: nat | SmallerAt(a, b, k) ensures k == 0 {
        if k > 0 { AgreeFirst(a, b, k); }
      }
    } else if b != [] {
      CompareIsSmaller(a[1..], b[1..]);
      if k: nat :| SmallerAt(a[1..], b[1..], k) {
        assert a[..k + 1] == [a[0]] + a[1..][..k] && b[..k + 1] == [b[0]] + b[1..][..k];
        assert SmallerAt(a, b, k + 1);
      }
      if k: nat :| SmallerAt(a, b, k) {
        if k > 0 {
          assert a[1..][..k - 1] == a[..k][1..] && b[1..][..k - 1] == b[..k][1..];
          assert SmallerAt(a[1..], b[1..], k - 1);
        }
      }
    }
  }

  // ---------- Case ----------

  /** strings.ToUpper of one byte, for ASCII. */
  function Upper(c: char): char { if 'a' <= c <= 'z' then (c as int - 0x20) as char else c }

  /** How a string is compared: in upper case, if case is ignored. */
  function Fold(ci: bool, s: string): (r: string)
    ensures |r| == |s| && forall k :: 0 <= k < |s| ==> r[k] == if ci then Upper(s[k]) else s[k]
  {
    if ci then seq(|s|, k requires 0 <= k < |s| => Upper(s[k])) else s
  }

  /** Names are alike regardless of case exactly if they differ in the case of ASCII letters alone. */
  lemma FoldIgnoresCase(a: string, b: string)
    ensures Fold(false, a) == a
    ensures Fold(true, a) == Fold(true, b) <==>
            |a| == |b| && forall k :: 0 <= k < |a| ==>
              || a[k] == b[k]
              || ('a' <= a[k] <= 'z' && a[k] as int == b[k] as int + 0x20)
              || ('a' <= b[k] <= 'z' && b[k] as int == a[k] as int + 0x20)
  {
    if Fold(true, a) == Fold(true, b) {
      forall k | 0 <= k < |a| ensures Upper(a[k]) == Upper(b[k]) {
        assert Fold(true, a)[k] == Fold(true, b)[k];
      }
    }
  }

  /** listEnviron.compare. */
  function Order(ci: bool, a: string, b: string): int { Compare(Fold(ci, a), Fold(ci, b)) }

  lemma FoldTail(ci: bool, s: string)
    requires s != ""
    ensures Fold(ci, s[1..]) == Fold(ci, s)[1..]
  {
  }

  // ---------- Pairs ----------

  /** Where the first equals sign is, or the length if there is none. */
  function EqualsAt(pair: string): (k: nat)
    ensures k <= |pair| && (k < |pair| ==> pair[k] == '=') && forall j :: 0 <= j < k ==> pair[j] != '='
  {
    if pair == [] || pair[0] == '=' then 0 else 1 + EqualsAt(pair[1..])
  }

  predicate HasEquals(pair: string) { EqualsAt(pair) < |pair| }

  /** What pairs are sorted by: the name and its equals sign, or nothing. */
  function Key(ci: bool, pair: string): string { Fold(ci, KeyOf(pair)) }

  function KeyOf(pair: string): string {
    if HasEquals(pair) then pair[..EqualsAt(pair) + 1] else []
  }

  function NameOf(pair: string): string { pair[..EqualsAt(pair)] }

  predicate IsValid(pair: string) { HasEquals(pair) && NameOf(pair) != [] }

  /** A name as it is compared. */
  function Name(ci: bool, pair: string): string { Fold(ci, NameOf(pair)) }

  function ValueOf(pair: string): string
    requires HasEquals(pair)
  {
    pair[EqualsAt(pair) + 1..]
  }

  /** The environment without any index: the last valid pair of that name. */
  function Lookup(ci: bool, pairs: seq<string>, name: string): Option<string> {
    if pairs == [] then None
    else
      var p := pairs[|pairs| - 1];
      if IsValid(p) && Name(ci, p) == name then Some(ValueOf(p)) else Lookup(ci, pairs[..|pairs| - 1], name)
  }

  lemma {:induction false} LookupAppend(ci: bool, a: seq<string>, b: seq<string>, name: string)
    ensures Lookup(ci, a + b, name) == if Lookup(ci, b, name).Some? then Lookup(ci, b, name) else Lookup(ci, a, name)
  {
    if b == [] {
      assert a + b == a;
    } else {
      assert (a + b)[..|a + b| - 1] == a + b[..|b| - 1];
      LookupAppend(ci, a, b[..|b| - 1], name);
    }
  }

  lemma LookupOne(ci: bool, p: string, name: string)
    ensures Lookup(ci, [p], name) == if IsValid(p) && Name(ci, p) == name then Some(ValueOf(p)) else None
  {
    assert [p][..0] == [];
  }

  /** Deleting a pair that is invalid, or that the next pair overrides, changes no answer. */
  lemma DeleteKeepsLookup(ci: bool, a: seq<string>, p: string, b: seq<string>, name: string)
    requires IsValid(p) ==> b != [] && IsValid(b[0]) && Name(ci, b[0]) == Name(ci, p)
    ensures Lookup(ci, a + [p] + b, name) == Lookup(ci, a + b, name)
  {
    LookupAppend(ci, a + [p], b, name);
    LookupAppend(ci, a, [p], name);
    LookupAppend(ci, a, b, name);
    LookupOne(ci, p, name);
    if IsValid(p) && Name(ci, p) == name {
      assert b == [b[0]] + b[1..];
      LookupAppend(ci, [b[0]], b[1..], name);
      LookupOne(ci, b[0], name);
    }
  }

  // ---------- The stable sort ----------

  predicate InOrder(ci: bool, p: string, q: string) { Compare(Key(ci, p), Key(ci, q)) <= 0 }

  predicate Sorted(ci: bool, pairs: seq<string>) {
    forall i, j :: 0 <= i < j < |pairs| ==> InOrder(ci, pairs[i], pairs[j])
  }

  /** The pairs of one name, in order. */
  function WithKey(ci: bool, pairs: seq<string>, key: string): seq<string> {
    if pairs == [] then []
    else (if Key(ci, pairs[0]) == key then [pairs[0]] else []) + WithKey(ci, pairs[1..], key)
  }

  /** What a stable sort by key guarantees: order, and each key's pairs as they were. */
  ghost predicate IsStableSort(ci: bool, out: seq<string>, pairs: seq<string>) {
    Sorted(ci, out) && forall key :: WithKey(ci, out, key) == WithKey(ci, pairs, key)
  }

  lemma {:induction false} WithKeyAppend(ci: bool, a: seq<string>, b: seq<string>, key: string)
    ensures WithKey(ci, a + b, key) == WithKey(ci, a, key) + WithKey(ci, b, key)
  {
    hide Key;
    if a == [] {
      assert a + b == b;
    } else {
      var first := if Key(ci, a[0]) == key then [a[0]] else [];
      assert (a + b)[1..] == a[1..] + b;
      WithKeyAppend(ci, a[1..], b, key);
      assert first + (WithKey(ci, a[1..], key) + WithKey(ci, b, key)) == (first + WithKey(ci, a[1..], key)) + WithKey(ci, b, key);
    }
  }

  /** The answer for a name depends only on the pairs of that name, in their order. */
  lemma {:induction false} LookupByKey(ci: bool, pairs: seq<string>, name: string)
    ensures Lookup(ci, pairs, name) == Lookup(ci, WithKey(ci, pairs, name + "="), name)
  {
    if pairs != [] {
      var p, rest := pairs[0], pairs[1..];
      LookupByKey(ci, rest, name);
      assert pairs == [p] + rest;
      LookupAppend(ci, [p], rest, name);
      LookupOne(ci, p, name);
      NameByKey(ci, p, name);
      if Key(ci, p) == name + "=" {
        LookupAppend(ci, [p], WithKey(ci, rest, name + "="), name);
      } else {
        assert [] + WithKey(ci, rest, name + "=") == WithKey(ci, rest, name + "=");
      }
    }
  }

  lemma NameByKey(ci: bool, p: string, name: string)
    ensures IsValid(p) && Name(ci, p) == name ==> Key(ci, p) == name + "="
  {
    if IsValid(p) {
      assert p[..EqualsAt(p) + 1] == NameOf(p) + "=";
      assert Fold(ci, NameOf(p) + "=") == Name(ci, p) + "=";
    }
  }

  lemma StableSortKeepsLookup(ci: bool, out: seq<string>, pairs: seq<string>, name: string)
    requires IsStableSort(ci, out, pairs)
    ensures Lookup(ci, out, name) == Lookup(ci, pairs, name)
  {
    LookupByKey(ci, out, name);
    LookupByKey(ci, pairs, name);
    assert WithKey(ci, out, name + "=") == WithKey(ci, pairs, name + "=");
  }

  /** Insertion sort: each pair goes after the last pair that may stay before it. */
  method SortStable(ci: bool, pairs: seq<string>) returns (out: seq<string>)
    ensures IsStableSort(ci, out, pairs)
  {
    hide *;
    out := [];
    NothingSorted(ci);
    assert pairs[..0] == [];
    for i := 0 to |pairs|
      invariant IsStableSort(ci, out, pairs[..i])
    {
      var k := |out|;
      ByOrder(ci, out, pairs[i]);
      while k > 0 && Order(ci, KeyOf(out[k - 1]), KeyOf(pairs[i])) > 0
        invariant 0 <= k <= |out|
        invariant forall j :: k <= j < |out| ==> Compare(Key(ci, out[j]), Key(ci, pairs[i])) > 0
      {
        k := k - 1;
      }
      InsertStable(ci, out, pairs[..i], pairs[i], k);
      assert pairs[..i + 1] == pairs[..i] + [pairs[i]];
      out := out[..k] + [pairs[i]] + out[k..];
    }
    assert pairs[..|pairs|] == pairs;
  }

  lemma NothingSorted(ci: bool)
    ensures IsStableSort(ci, [], [])
  {
  }

  /** The sort's comparison is that of the keys. */
  lemma ByOrder(ci: bool, out: seq<string>, p: string)
    ensures forall j :: 0 <= j < |out| ==> Order(ci, KeyOf(out[j]), KeyOf(p)) == Compare(Key(ci, out[j]), Key(ci, p))
    ensures forall j :: 0 <= j < |out| ==> (InOrder(ci, out[j], p) <==> Compare(Key(ci, out[j]), Key(ci, p)) <= 0)
  {
    hide Compare, KeyOf, Fold;
  }

  lemma InsertStable(ci: bool, out: seq<string>, before: seq<string>, p: string, k: nat)
    requires IsStableSort(ci, out, before) && k <= |out|
    requires k > 0 ==> InOrder(ci, out[k - 1], p)
    requires forall j :: k <= j < |out| ==> Compare(Key(ci, out[j]), Key(ci, p)) > 0
    ensures IsStableSort(ci, out[..k] + [p] + out[k..], before + [p])
  {
    hide Key, Compare, Sorted, WithKey, InOrder;
    InsertSorted(ci, out, p, k);
    forall key ensures WithKey(ci, out[..k] + [p] + out[k..], key) == WithKey(ci, before + [p], key) {
      assert WithKey(ci, out, key) == WithKey(ci, before, key);
      InsertKeepsKey(ci, out, before, p, k, key);
    }
  }

  lemma InsertKeepsKey(ci: bool, out: seq<string>, before: seq<string>, p: string, k: nat, key: string)
    requires WithKey(ci, out, key) == WithKey(ci, before, key) && k <= |out|
    requires forall j :: k <= j < |out| ==> Compare(Key(ci, out[j]), Key(ci, p)) > 0
    ensures WithKey(ci, out[..k] + [p] + out[k..], key) == WithKey(ci, before + [p], key)
  {
    hide Key, Compare, WithKey;
    WithKeyAppend(ci, before, [p], key);
    WithKeyAppend(ci, out[..k] + [p], out[k..], key);
    WithKeyAppend(ci, out[..k], [p], key);
    WithKeyAppend(ci, out[..k], out[k..], key);
    assert out == out[..k] + out[k..];
    if Key(ci, p) == key {
      forall j | 0 <= j < |out[k..]| ensures Key(ci, out[k..][j]) != key {
        CompareEqual(Key(ci, out[k + j]), Key(ci, p));
      }
      NoneWithKey(ci, out[k..], key);
    } else {
      NoneWithKey(ci, [p], key);
    }
  }

  lemma {:induction false} NoneWithKey(ci: bool, pairs: seq<string>, key: string)
    requires forall j :: 0 <= j < |pairs| ==> Key(ci, pairs[j]) != key
    ensures WithKey(ci, pairs, key) == []
  {
    hide Key;
    if pairs != [] { NoneWithKey(ci, pairs[1..], key); }
  }

  lemma InsertSorted(ci: bool, out: seq<string>, p: string, k: nat)
    requires Sorted(ci, out) && k <= |out| && (k > 0 ==> InOrder(ci, out[k - 1], p))
    requires forall j :: k <= j < |out| ==> Compare(Key(ci, out[j]), Key(ci, p)) > 0
    ensures Sorted(ci, out[..k] + [p] + out[k..])
  {
    hide Key, Compare;
    var r := out[..k] + [p] + out[k..];
    forall i, j | 0 <= i < j < |r| ensures InOrder(ci, r[i], r[j]) {
      if j == k {
        assert r[i] == out[i] && r[j] == p;
        if i < k - 1 {
          assert InOrder(ci, out[i], out[k - 1]);
          CompareTransitive(Key(ci, out[i]), Key(ci, out[k - 1]), Key(ci, p));
        }
      } else if i == k {
        assert r[i] == p && r[j] == out[j - 1];
        CompareTotal(Key(ci, out[j - 1]), Key(ci, p));
      } else {
        var i', j' := if i < k then i else i - 1, if j < k then j else j - 1;
        assert r[i] == out[i'] && r[j] == out[j'];
        assert InOrder(ci, out[i'], out[j']);
      }
    }
  }

  // ---------- Deleting what is invalid or overridden ----------

  /** What the search needs: valid pairs, and strictly increasing names (so one pair for each name). */
  predicate Indexed(ci: bool, pairs: seq<string>) {
    (forall i :: 0 <= i < |pairs| ==> IsValid(pairs[i])) &&
    forall i, j :: 0 <= i < j < |pairs| ==> Compare(Key(ci, pairs[i]), Key(ci, pairs[j])) < 0
  }

  ghost predicate SameAnswers(ci: bool, a: seq<string>, b: seq<string>) {
    forall name :: Lookup(ci, a, name) == Lookup(ci, b, name)
  }

  lemma DeleteKeepsAnswers(ci: bool, list: seq<string>, k: nat)
    requires k < |list|
    requires IsValid(list[k]) ==> k + 1 < |list| && IsValid(list[k + 1]) && Name(ci, list[k + 1]) == Name(ci, list[k])
    ensures SameAnswers(ci, list[..k] + list[k + 1..], list)
  {
    hide IsValid, Name, Lookup;
    assert list == list[..k] + [list[k]] + list[k + 1..];
    forall name ensures Lookup(ci, list[..k] + list[k + 1..], name) == Lookup(ci, list, name) {
      DeleteKeepsLookup(ci, list[..k], list[k], list[k + 1..], name);
    }
  }

  lemma DeleteKeepsSorted(ci: bool, list: seq<string>, k: nat)
    requires Sorted(ci, list) && k < |list|
    ensures Sorted(ci, list[..k] + list[k + 1..])
  {
    hide InOrder;
    var r := list[..k] + list[k + 1..];
    forall i, j | 0 <= i < j < |r| ensures InOrder(ci, r[i], r[j]) {
      var i', j' := if i < k then i else i + 1, if j < k then j else j + 1;
      assert r[i] == list[i'] && r[j] == list[j'];
    }
  }

  lemma KeyOfName(ci: bool, p: string, q: string)
    requires IsValid(p) && IsValid(q)
    ensures Key(ci, p) == Key(ci, q) <==> Name(ci, p) == Name(ci, q)
  {
    NameByKey(ci, p, Name(ci, p));
    NameByKey(ci, q, Name(ci, q));
    assert Key(ci, p)[..|Key(ci, p)| - 1] == Name(ci, p) && Key(ci, q)[..|Key(ci, q)| - 1] == Name(ci, q);
  }

  /** A valid pair of a new name extends the indexed prefix. */
  lemma IndexedGrows(ci: bool, list: seq<string>, i: nat)
    requires Sorted(ci, list) && i < |list| && Indexed(ci, list[..i]) && IsValid(list[i])
    requires i > 0 ==> Name(ci, list[i - 1]) != Name(ci, list[i])
    ensures Indexed(ci, list[..i + 1])
  {
    hide IsValid, Name, Compare, Key;
    var r := list[..i + 1];
    assert forall j :: 0 <= j < i ==> r[j] == list[..i][j];
    forall j | 0 <= j < i ensures Compare(Key(ci, r[j]), Key(ci, r[i])) < 0 {
      var p, q := list[i - 1], list[i];
      assert r[j] == list[j] && r[i] == q && list[..i][i - 1] == p;
      assert InOrder(ci, p, q);
      KeyOfName(ci, p, q);
      CompareEqual(Key(ci, p), Key(ci, q));
      if j < i - 1 { CompareTransitive(Key(ci, list[..i][j]), Key(ci, p), Key(ci, q)); }
    }
  }

  /** The overriding pair takes the place of the overridden one. */
  lemma IndexedReplaces(ci: bool, list: seq<string>, i: nat)
    requires 0 < i < |list| && Indexed(ci, list[..i]) && IsValid(list[i]) && Name(ci, list[i - 1]) == Name(ci, list[i])
    ensures Indexed(ci, list[..i - 1] + [list[i]])
  {
    hide IsValid, Name, Compare, Key;
    var r := list[..i - 1] + [list[i]];
    assert list[..i][i - 1] == list[i - 1];
    KeyOfName(ci, list[i - 1], list[i]);
    assert forall j :: 0 <= j < i - 1 ==> r[j] == list[..i][j];
    assert forall j :: 0 <= j < i ==> Key(ci, r[j]) == Key(ci, list[..i][j]);
  }

  lemma SameAnswersTransitive(ci: bool, a: seq<string>, b: seq<string>, c: seq<string>)
    requires SameAnswers(ci, a, b) && SameAnswers(ci, b, c)
    ensures SameAnswers(ci, a, c)
  {
    hide Lookup;
  }

  /** listEnviron_. */
  method ListEnviron(ci: bool, pairs: seq<string>) returns (list: seq<string>)
    ensures Indexed(ci, list)
    ensures SameAnswers(ci, list, pairs)
  {
    hide *;
    list := SortStable(ci, pairs);
    SortAnswers(ci, list, pairs);
    var last, i := "", 0;
    while i < |list|
      invariant 0 <= i <= |list|
      invariant Sorted(ci, list) && Indexed(ci, list[..i])
      invariant Fold(ci, last) == if i == 0 then "" else Name(ci, list[i - 1])
      invariant SameAnswers(ci, list, pairs)
      decreases |list| - i
    {
      var name, ok := NameOf(list[i]), HasEquals(list[i]);
      ValidByCut(list[i]);
      SameName(ci, last, list[i]);
      if name == "" || !ok {
        DeleteKeepsSorted(ci, list, i);
        DeleteKeepsAnswers(ci, list, i);
        SameAnswersTransitive(ci, list[..i] + list[i + 1..], list, pairs);
        assert (list[..i] + list[i + 1..])[..i] == list[..i];
        list := list[..i] + list[i + 1..];
      } else if Order(ci, last, name) == 0 {
        DeleteKeepsSorted(ci, list, i - 1);
        DeleteKeepsAnswers(ci, list, i - 1);
        SameAnswersTransitive(ci, list[..i - 1] + list[i..], list, pairs);
        IndexedReplaces(ci, list, i);
        assert (list[..i - 1] + list[i..])[..i] == list[..i - 1] + [list[i]];
        list := list[..i - 1] + list[i..];
      } else {
        IndexedGrows(ci, list, i);
        last := name;
        i := i + 1;
      }
    }
    assert list[..|list|] == list;
  }

  lemma SameName(ci: bool, last: string, p: string)
    ensures Order(ci, last, NameOf(p)) == 0 <==> Fold(ci, last) == Name(ci, p)
    ensures Fold(ci, NameOf(p)) == Name(ci, p) && (NameOf(p) != "" ==> Name(ci, p) != "")
  {
    CompareEqual(Fold(ci, last), Name(ci, p));
  }

  lemma SortAnswers(ci: bool, out: seq<string>, pairs: seq<string>)
    requires IsStableSort(ci, out, pairs)
    ensures Sorted(ci, out) && SameAnswers(ci, out, pairs) && Indexed(ci, out[..0])
  {
    hide Sorted, Lookup;
    forall name ensures Lookup(ci, out, name) == Lookup(ci, pairs, name) {
      StableSortKeepsLookup(ci, out, pairs, name);
    }
    assert IsStableSort(ci, out, pairs);
  }

  lemma ValidByCut(p: string)
    ensures IsValid(p) <==> NameOf(p) != "" && HasEquals(p)
  {
  }

  // ---------- The search ----------

  function CompareChars(a: char, b: char): int {
    if a < b then -1 else if a > b then 1 else 0
  }

  /** Get's comparator: a whole pair against a bare name, with no search for the equals sign. */
  function Against(ci: bool, pair: string, name: string): int {
    if |pair| < |name| + 1 then Order(ci, pair, name)
    else
      var c := Order(ci, pair[..|name|], name);
      if c == 0 then CompareChars(pair[|name|], '=') else c
  }

  /** slices.BinarySearchFunc's loop: the first of the pairs i to j that is not before the name. */
  function Search(ci: bool, pairs: seq<string>, name: string, i: nat, j: nat): (k: nat)
    requires i <= j <= |pairs|
    ensures i <= k <= j
    decreases j - i
  {
    if i == j then i
    else
      var h := (i + j) / 2;
      if Against(ci, pairs[h], name) < 0 then Search(ci, pairs, name, h + 1, j) else Search(ci, pairs, name, i, h)
  }

  /** What Get does: the slice after the equals sign is out of range when the match is a whole pair. */
  datatype Answer = Unset | Is(value: string) | OutOfRange

  function Got(ci: bool, pairs: seq<string>, name: string): Answer {
    var k := Search(ci, pairs, name, 0, |pairs|);
    if k == |pairs| || Against(ci, pairs[k], name) != 0 then Unset
    else if |name| + 1 > |pairs[k]| then OutOfRange
    else Is(pairs[k][|name| + 1..])
  }

  function Wanted(ci: bool, pairs: seq<string>, name: string): Answer {
    match Lookup(ci, pairs, Fold(ci, name))
    case None => Unset
    case Some(value) => Is(value)
  }

  method Get(ci: bool, pairs: seq<string>, name: string) returns (r: Answer)
    ensures r == Got(ci, pairs, name)
  {
    var eqpos, endpos := |name|, |name| + 1;
    var i, j := 0, |pairs|;
    while i < j
      invariant 0 <= i <= j <= |pairs|
      invariant Search(ci, pairs, name, i, j) == Search(ci, pairs, name, 0, |pairs|)
    {
      var h := (i + j) / 2;
      if Against(ci, pairs[h], name) < 0 {
        i := h + 1;
      } else {
        j := h;
      }
    }
    if i < |pairs| && Against(ci, pairs[i], name) == 0 {
      if endpos > |pairs[i]| {
        return OutOfRange;
      }
      return Is(pairs[i][endpos..]);
    }
    return Unset;
  }

  /** The comparator orders a whole pair exactly as its name-and-equals-sign against the wanted one. */
  lemma {:induction false} AgainstIsKeyOrder(ci: bool, pair: string, name: string)
    requires HasEquals(pair) && '=' !in name
    ensures Against(ci, pair, name) == Compare(Key(ci, pair), Fold(ci, name) + "=")
  {
    var wanted := Fold(ci, name) + "=";
    assert Key(ci, pair)[0] == if ci then Upper(pair[0]) else pair[0];
    if name != "" && pair[0] == '=' {
      AgainstHeads(ci, pair, name);
    } else if name == "" {
      assert Order(ci, pair[..|name|], name) == 0;
      if pair[0] == '=' {
        assert KeyOf(pair) == "=" && Key(ci, pair) == "=" == wanted;
        CompareEqual(Key(ci, pair), wanted);
      }
    } else {
      FoldTail(ci, name);
      assert wanted[1..] == Fold(ci, name[1..]) + "=";
      FoldTail(ci, KeyOf(pair));
      assert EqualsAt(pair) == 1 + EqualsAt(pair[1..]);
      assert KeyOf(pair)[1..] == KeyOf(pair[1..]);
      AgainstIsKeyOrder(ci, pair[1..], name[1..]);
      AgainstHeads(ci, pair, name);
    }
  }

  lemma AgainstHeads(ci: bool, pair: string, name: string)
    requires pair != "" && name != ""
    ensures var c, d := Fold(ci, pair)[0], Fold(ci, name)[0];
            Against(ci, pair, name) == if c < d then -1 else if c > d then 1 else Against(ci, pair[1..], name[1..])
  {
    FoldTail(ci, name);
    FoldTail(ci, pair);
    if |pair| >= |name| + 1 {
      var part := pair[..|name|];
      assert part[1..] == pair[1..][..|name| - 1];
      FoldTail(ci, part);
    }
  }

  predicate AllBefore(ci: bool, pairs: seq<string>, wanted: string, k: nat)
    requires k <= |pairs|
  {
    forall x :: 0 <= x < k ==> Compare(Key(ci, pairs[x]), wanted) < 0
  }

  predicate NoneBefore(ci: bool, pairs: seq<string>, wanted: string, k: nat)
    requires k <= |pairs|
  {
    forall x :: k <= x < |pairs| ==> Compare(Key(ci, pairs[x]), wanted) >= 0
  }

  lemma BeforeToHere(ci: bool, pairs: seq<string>, wanted: string, h: nat)
    requires Indexed(ci, pairs) && h < |pairs| && Compare(Key(ci, pairs[h]), wanted) < 0
    ensures AllBefore(ci, pairs, wanted, h + 1)
  {
    hide Key, Compare, IsValid;
    forall x | 0 <= x < h ensures Compare(Key(ci, pairs[x]), wanted) < 0 {
      CompareTransitive(Key(ci, pairs[x]), Key(ci, pairs[h]), wanted);
    }
  }

  lemma NotBeforeFromHere(ci: bool, pairs: seq<string>, wanted: string, h: nat)
    requires Indexed(ci, pairs) && h < |pairs| && Compare(Key(ci, pairs[h]), wanted) >= 0
    ensures NoneBefore(ci, pairs, wanted, h)
  {
    hide Key, Compare, IsValid;
    forall x | h < x < |pairs| ensures Compare(Key(ci, pairs[x]), wanted) >= 0 {
      if Compare(Key(ci, pairs[x]), wanted) < 0 {
        CompareTransitive(Key(ci, pairs[h]), Key(ci, pairs[x]), wanted);
      }
    }
  }

  /** Bisection finds the first pair not before the name. */
  lemma {:induction false} SearchSplits(ci: bool, pairs: seq<string>, name: string, i: nat, j: nat)
    requires Indexed(ci, pairs) && '=' !in name && i <= j <= |pairs|
    requires AllBefore(ci, pairs, Fold(ci, name) + "=", i) && NoneBefore(ci, pairs, Fold(ci, name) + "=", j)
    ensures AllBefore(ci, pairs, Fold(ci, name) + "=", Search(ci, pairs, name, i, j))
    ensures NoneBefore(ci, pairs, Fold(ci, name) + "=", Search(ci, pairs, name, i, j))
    decreases j - i
  {
    hide Key, Compare, Against, AllBefore, NoneBefore;
    if i < j {
      var h := (i + j) / 2;
      HasEqualsOfValid(pairs[h]);
      AgainstIsKeyOrder(ci, pairs[h], name);
      if Against(ci, pairs[h], name) < 0 {
        BeforeToHere(ci, pairs, Fold(ci, name) + "=", h);
        SearchSplits(ci, pairs, name, h + 1, j);
      } else {
        NotBeforeFromHere(ci, pairs, Fold(ci, name) + "=", h);
        SearchSplits(ci, pairs, name, i, h);
      }
    }
  }

  lemma HasEqualsOfValid(p: string)
    ensures IsValid(p) ==> HasEquals(p) && NameOf(p) != "" && '=' !in NameOf(p) && p[0] != '='
  {
  }

  /** The scan finds nothing when no valid pair has the name. */
  lemma {:induction false} LookupNone(ci: bool, pairs: seq<string>, name: string)
    requires forall k :: 0 <= k < |pairs| ==> !IsValid(pairs[k]) || Name(ci, pairs[k]) != name
    ensures Lookup(ci, pairs, name) == None
  {
    hide IsValid, Name;
    if pairs != [] { LookupNone(ci, pairs[..|pairs| - 1], name); }
  }

  /** The scan finds the only pair of that name. */
  lemma LookupOnly(ci: bool, pairs: seq<string>, name: string, k: nat)
    requires k < |pairs| && IsValid(pairs[k]) && Name(ci, pairs[k]) == name
    requires forall j :: 0 <= j < |pairs| && j != k ==> Name(ci, pairs[j]) != name
    ensures Lookup(ci, pairs, name) == Some(ValueOf(pairs[k]))
  {
    hide IsValid, Name, Lookup;
    var a, b := pairs[..k], pairs[k + 1..];
    assert pairs == a + [pairs[k]] + b;
    LookupAppend(ci, a + [pairs[k]], b, name);
    LookupAppend(ci, a, [pairs[k]], name);
    LookupOne(ci, pairs[k], name);
    assert forall j :: 0 <= j < |b| ==> b[j] == pairs[k + 1 + j];
    LookupNone(ci, b, name);
  }

  /** On an indexed list, for a name without an equals sign, bisection answers what the scan answers. */
  lemma SearchIsLookup(ci: bool, pairs: seq<string>, name: string)
    requires Indexed(ci, pairs) && '=' !in name
    ensures Got(ci, pairs, name) == Wanted(ci, pairs, name)
  {
    hide Key, Compare, Against, Search, Lookup, IsValid, Name, HasEquals, EqualsAt, ValueOf;
    var k, sought := Search(ci, pairs, name, 0, |pairs|), Fold(ci, name);
    var wanted := sought + "=";
    SearchSplits(ci, pairs, name, 0, |pairs|);
    forall j | 0 <= j < |pairs|
      ensures Name(ci, pairs[j]) == sought ==> j == k && Compare(Key(ci, pairs[j]), wanted) == 0
    {
      NameByKey(ci, pairs[j], sought);
      CompareEqual(Key(ci, pairs[j]), wanted);
      assert k < j ==> Compare(Key(ci, pairs[k]), Key(ci, pairs[j])) < 0;
    }
    if k < |pairs| {
      HasEqualsOfValid(pairs[k]);
      AgainstIsKeyOrder(ci, pairs[k], name);
      if Against(ci, pairs[k], name) == 0 {
        CompareEqual(Key(ci, pairs[k]), wanted);
        ValueByKey(ci, pairs[k], name);
        LookupOnly(ci, pairs, sought, k);
      } else {
        LookupNone(ci, pairs, sought);
      }
    } else {
      LookupNone(ci, pairs, sought);
    }
  }

  lemma ValueByKey(ci: bool, p: string, name: string)
    requires HasEquals(p) && Key(ci, p) == Fold(ci, name) + "="
    ensures Name(ci, p) == Fold(ci, name) && |name| + 1 <= |p| && ValueOf(p) == p[|name| + 1..]
  {
    assert KeyOf(p)[..|KeyOf(p)| - 1] == NameOf(p);
    assert Key(ci, p)[..|KeyOf(p)| - 1] == Name(ci, p);
    assert (Fold(ci, name) + "=")[..|name|] == Fold(ci, name);
  }

  /** The environment built from any pairs answers each name as the last valid pair of that name. */
  method GetFrom(ci: bool, pairs: seq<string>, name: string) returns (r: Answer)
    ensures '=' !in name ==> r == Wanted(ci, pairs, name)
  {
    hide *;
    var list := ListEnviron(ci, pairs);
    r := Get(ci, list, name);
    if '=' !in name {
      SearchIsLookup(ci, list, name);
      WantedSame(ci, list, pairs, name);
    }
  }

  lemma WantedSame(ci: bool, a: seq<string>, b: seq<string>, name: string)
    requires SameAnswers(ci, a, b)
    ensures Wanted(ci, a, name) == Wanted(ci, b, name)
  {
    hide Lookup;
  }

  // ---------- Names with an equals sign ----------

  /** No name that starts with an equals sign is ever found, and none is ever set. */
  lemma LeadingEquals(ci: bool, pairs: seq<string>, name: string)
    requires Indexed(ci, pairs) && name != "" && name[0] == '='
    ensures Got(ci, pairs, name) == Unset == Wanted(ci, pairs, name)
  {
    hide Search, Lookup, Key, Name, EqualsAt, IsValid;
    forall j | 0 <= j < |pairs| ensures Name(ci, pairs[j]) != Fold(ci, name) && Against(ci, pairs[j], name) != 0 {
      HasEqualsOfValid(pairs[j]);
      NameHead(ci, pairs[j]);
      if |pairs[j]| > 0 { AgainstHeads(ci, pairs[j], name); }
    }
    LookupNone(ci, pairs, Fold(ci, name));
  }

  lemma NameHead(ci: bool, p: string)
    requires IsValid(p)
    ensures Name(ci, p) != "" && Name(ci, p)[0] == Fold(ci, p)[0] != '='
  {
  }

  /** Asking for a whole pair reads past its end. */
  lemma WholePairIsOutOfRange(ci: bool, name: string)
    requires name != "" && name[0] != '=' && '=' in name
    ensures Indexed(ci, [name]) && Got(ci, [name], name) == OutOfRange && Wanted(ci, [name], name) == Unset
  {
    CompareEqual(Fold(ci, name), Fold(ci, name));
    var at :| 0 <= at < |name| && name[at] == '=';
    assert EqualsAt(name) <= at;
    LookupOne(ci, name, Fold(ci, name));
    assert Search(ci, [name], name, 0, 1) == Search(ci, [name], name, 0, 0);
    assert [name][..0] == [];
  }

  /** Bisection is right for a name in every indexed environment exactly if the name holds no equals
      sign or begins with one. */
  lemma SearchRightIff(ci: bool, name: string)
    ensures (forall pairs :: Indexed(ci, pairs) ==> Got(ci, pairs, name) == Wanted(ci, pairs, name))
            <==> ('=' !in name || name[0] == '=')
  {
    if '=' !in name {
      forall pairs | Indexed(ci, pairs) ensures Got(ci, pairs, name) == Wanted(ci, pairs, name) {
        SearchIsLookup(ci, pairs, name);
      }
    } else if name[0] == '=' {
      forall pairs | Indexed(ci, pairs) ensures Got(ci, pairs, name) == Wanted(ci, pairs, name) {
        LeadingEquals(ci, pairs, name);
      }
    } else {
      WholePairIsOutOfRange(ci, name);
    }
  }

  /** Two pairs in order are an indexed list; regardless of case, the first is found by its other spelling. */
  lemma TwoPairs()
    ensures var pairs := ["a=1", "B=2"];
            Indexed(true, pairs) && Got(true, pairs, "A") == Wanted(true, pairs, "A") == Is("1")
  {
    var pairs := ["a=1", "B=2"];
    TwoKeys();
    hide *;
    SearchIsLookup(true, pairs, "A");
    LookupOnly(true, pairs, "A", 0);
    FoundAs(pairs, "A", "1");
  }

  lemma FoundAs(pairs: seq<string>, name: string, value: string)
    requires Lookup(true, pairs, Fold(true, name)) == Some(value)
    ensures Wanted(true, pairs, name) == Is(value)
  {
  }

  lemma TwoKeys()
    ensures IsValid("a=1") && IsValid("B=2") && ValueOf("a=1") == "1" && Fold(true, "A") == "A" && '=' !in "A"
    ensures Name(true, "a=1") == "A" && Name(true, "B=2") == "B" && Indexed(true, ["a=1", "B=2"])
  {
    assert EqualsAt("a=1") == 1 && EqualsAt("B=2") == 1 by {
      assert "a=1"[1..] == "=1" && "B=2"[1..] == "=2";
    }
    assert "a=1"[..1] == "a" && "B=2"[..1] == "B" && "a=1"[2..] == "1";
    assert Fold(true, "a") == "A" && Fold(true, "B") == "B";
    assert Key(true, "a=1")[0] == 'A' && Key(true, "B=2")[0] == 'B';
  }
}
