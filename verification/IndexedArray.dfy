/** Indexed shell arrays (expand/environ.go, interp/vars.go): a dense list, an optional set of the
    indexes that count, and an overlay for huge indexes, against one plain finite map. */
module IndexedArray {
  import opened Common

  /** The dense list never grows past this. */
  const MAX_DENSE_INDEX: nat := 0x10_0000

  type Set = map<int, bool>

  predicate Has(set_: Set, i: int) { i in set_ && set_[i] }

  /** An assignment to one element, or its removal. */
  datatype Update = Put(index: int, value: string) | Remove(index: int)

  /** What an update means for a plain map; a negative index means nothing. */
  function Updated(m: map<int, string>, u: Update): map<int, string> {
    if u.index < 0 then m
    else match u
      case Put(i, value) => m[i := value]
      case Remove(i) => m - {i}
  }

  function UpdatedAll(m: map<int, string>, updates: seq<Update>): map<int, string> {
    if updates == [] then m
    else Updated(UpdatedAll(m, updates[..|updates| - 1]), updates[|updates| - 1])
  }

  ghost predicate Ascending(s: seq<int>) {
    forall i, j :: 0 <= i < j < |s| ==> s[i] < s[j]
  }

  /** The indexes of a map, each once, in order. */
  ghost predicate Enumerates(s: seq<int>, m: map<int, string>) {
    Ascending(s) && forall i :: i in m <==> i in s
  }

  /** A map's domain has only one ascending enumeration. */
  lemma {:induction false} EnumerationIsUnique(s: seq<int>, t: seq<int>)
    requires Ascending(s) && Ascending(t) && forall i :: i in s <==> i in t
    ensures s == t
  {
    if s == [] {
      assert forall i :: 0 <= i < |t| ==> t[i] in t;
    } else {
      assert s[0] in s;
      assert t[0] in t;
      var s', t' := s[1..], t[1..];
      assert s[0] == t[0];
      forall i ensures i in s' <==> i in t' {
        Tail(s, i);
        Tail(t, i);
      }
      EnumerationIsUnique(s', t');
      assert s == [s[0]] + s' && t == [t[0]] + t';
    }
  }

  lemma Tail(s: seq<int>, i: int)
    requires Ascending(s) && s != []
    ensures i in s[1..] <==> i in s && i != s[0]
  {
    if i in s[1..] {
      var k :| 0 <= k < |s[1..]| && s[1..][k] == i;
      assert s[k + 1] == i && s[0] < s[k + 1];
    }
  }

  /** slices.Sort, on distinct numbers. */
  method Sort(s: seq<int>) returns (r: seq<int>)
    requires forall i, j :: 0 <= i < j < |s| ==> s[i] != s[j]
    ensures Ascending(r)
    ensures forall x :: x in r <==> x in s
  {
    r := [];
    for i := 0 to |s|
      invariant Ascending(r)
      invariant forall x :: x in r <==> x in s[..i]
    {
      var k := |r|;
      while k > 0 && r[k - 1] > s[i]
        invariant 0 <= k <= |r|
        invariant forall j :: k <= j < |r| ==> r[j] > s[i]
      {
        k := k - 1;
      }
      InsertAscending(r, s[..i], s[i], k);
      r := r[..k] + [s[i]] + r[k..];
      assert s[..i + 1] == s[..i] + [s[i]];
    }
    assert s[..|s|] == s;
  }

  lemma InsertAscending(r: seq<int>, done: seq<int>, x: int, k: nat)
    requires Ascending(r) && k <= |r| && x !in done
    requires forall y :: y in r <==> y in done
    requires k > 0 ==> r[k - 1] <= x
    requires forall j :: k <= j < |r| ==> r[j] > x
    ensures Ascending(r[..k] + [x] + r[k..])
    ensures forall y :: y in r[..k] + [x] + r[k..] <==> y in done + [x]
  {
    var new_ := r[..k] + [x] + r[k..];
    if k > 0 {
      assert r[k - 1] in r;
    }
    forall i, j | 0 <= i < j < |new_| ensures new_[i] < new_[j] {
      assert i < k ==> new_[i] == r[i];
      assert i < k - 1 ==> r[i] < r[k - 1];
    }
    forall y ensures y in new_ <==> y in done + [x] {
      InsertedMember(r, x, k, y);
    }
  }

  lemma InsertedMember(r: seq<int>, x: int, k: nat, y: int)
    requires k <= |r|
    ensures y in r[..k] + [x] + r[k..] <==> y in r || y == x
  {
    assert r == r[..k] + r[k..];
  }

  // ---------- What the three fields stand for ----------

  /** None for the set is Go's nil map: every index of the list counts. */
  datatype Store = Store(list: seq<string>, set_: Option<Set>, overlay: Option<map<int, string>>)

  /** The list stays below the bound, the overlay at or above it, and what counts is in one of them. */
  predicate Good(s: Store) {
    |s.list| <= MAX_DENSE_INDEX &&
    (s.overlay.Some? ==> forall i :: i in s.overlay.value ==> i >= MAX_DENSE_INDEX) &&
    (s.set_.Some? ==> forall i :: i in s.set_.value ==> Backed(s, i))
  }

  predicate Backed(s: Store, i: int) {
    i >= 0 && SetAt(s, i) ==> i < |s.list| || (s.overlay.Some? && i in s.overlay.value)
  }

  predicate SetAt(s: Store, i: int) {
    if i < 0 then false
    else if s.set_ == None then i < |s.list|
    else Has(s.set_.value, i)
  }

  function ElemAt(s: Store, i: int): string {
    if 0 <= i < |s.list| then s.list[i]
    else if s.overlay.Some? && i in s.overlay.value then s.overlay.value[i]
    else ""
  }

  ghost function ContentsOf(s: Store): map<int, string> {
    if s.set_ == None then map i | 0 <= i < |s.list| :: s.list[i]
    else map i | i in s.set_.value && i >= 0 && s.set_.value[i] :: ElemAt(s, i)
  }

  /** Nothing stale: an index that is not set reads as the empty string. */
  ghost predicate BlankIn(s: Store) {
    forall i :: !SetAt(s, i) ==> ElemAt(s, i) == ""
  }

  lemma ContentsAt(s: Store, i: int)
    ensures i in ContentsOf(s) <==> SetAt(s, i)
    ensures SetAt(s, i) ==> ContentsOf(s)[i] == ElemAt(s, i)
  {
  }

  /** The set counts exactly what counts in s. */
  ghost predicate Counts(dense: Set, s: Store) {
    forall i :: i >= 0 ==> (Has(dense, i) <==> SetAt(s, i))
  }

  /** Element by element, t is s after the update. */
  ghost predicate Steps(s: Store, t: Store, u: Update) {
    (forall i :: SetAt(t, i) <==> if i == u.index then u.Put? else SetAt(s, i)) &&
    (forall i :: i != u.index && (SetAt(t, i) || ElemAt(s, i) == "") ==> ElemAt(t, i) == ElemAt(s, i)) &&
    ElemAt(t, u.index) == if u.Put? then u.value else ""
  }

  lemma StepUpdates(s: Store, t: Store, u: Update)
    requires Steps(s, t, u) && u.index >= 0
    ensures ContentsOf(t) == Updated(ContentsOf(s), u)
    ensures BlankIn(s) ==> BlankIn(t)
  {
    hide ElemAt, SetAt, ContentsOf;
    var m := Updated(ContentsOf(s), u);
    forall i ensures (i in ContentsOf(t) <==> i in m) && (i in m ==> ContentsOf(t)[i] == m[i]) {
      ContentsAt(t, i);
      ContentsAt(s, i);
    }
  }

  lemma PutContiguous(s: Store, i: nat, value: string)
    requires Good(s) && s.set_ == None && i <= |s.list| && i < MAX_DENSE_INDEX
    ensures var t := s.(list := s.list[..i] + [value] + if i < |s.list| then s.list[i + 1..] else []);
            Good(t) && Steps(s, t, Put(i, value))
  {
  }

  function Padded(list: seq<string>, i: nat): (r: seq<string>)
    ensures |r| == if i < |list| then |list| else i + 1
    ensures forall j :: 0 <= j < |r| ==> r[j] == if j < |list| then list[j] else ""
  {
    if i >= |list| then list + seq(i - |list| + 1, _ => "") else list
  }

  lemma PutDense(s: Store, dense: Set, i: nat, value: string)
    requires Good(s) && Counts(dense, s) && i < MAX_DENSE_INDEX
    ensures var t := Store(Padded(s.list, i)[i := value], Some(dense[i := true]), s.overlay);
            Good(t) && Steps(s, t, Put(i, value))
  {
    var t := Store(Padded(s.list, i)[i := value], Some(dense[i := true]), s.overlay);
    forall j ensures SetAt(t, j) <==> j == i || SetAt(s, j) {
    }
    forall j | j in t.set_.value ensures Backed(t, j) {
      BackedAnyway(s, j);
    }
  }

  lemma PutHuge(s: Store, dense: Set, i: nat, value: string)
    requires Good(s) && Counts(dense, s) && i >= MAX_DENSE_INDEX
    ensures var overlay := if s.overlay.Some? then s.overlay.value else map[];
            var t := Store(s.list, Some(dense[i := true]), Some(overlay[i := value]));
            Good(t) && Steps(s, t, Put(i, value))
  {
    var overlay := if s.overlay.Some? then s.overlay.value else map[];
    var t := Store(s.list, Some(dense[i := true]), Some(overlay[i := value]));
    forall j ensures SetAt(t, j) <==> j == i || SetAt(s, j) {
    }
    forall j | j in t.set_.value ensures Backed(t, j) {
      BackedAnyway(s, j);
    }
  }

  lemma BackedAnyway(s: Store, i: int)
    requires Good(s)
    ensures Backed(s, i)
  {
  }

  /** Removing index n: the list loses its tail of unset elements, or the overlay loses n. */
  ghost predicate Shrinks(s: Store, dense: Set, n: nat, list: seq<string>, overlay: Option<map<int, string>>) {
    if n < |s.list| then
      |list| <= |s.list| && overlay == s.overlay &&
      (forall j :: 0 <= j < |list| ==> list[j] == if j == n then "" else s.list[j]) &&
      (forall j :: |list| <= j < |s.list| ==> !Has(dense - {n}, j))
    else
      list == s.list &&
      overlay == if s.overlay.Some? then Some(s.overlay.value - {n}) else None
  }

  lemma RemoveElem(s: Store, dense: Set, n: nat, list: seq<string>, overlay: Option<map<int, string>>)
    requires Good(s) && Counts(dense, s) && SetAt(s, n) && Shrinks(s, dense, n, list, overlay)
    ensures var t := Store(list, Some(dense - {n}), overlay);
            Good(t) && Steps(s, t, Remove(n))
  {
    var t := Store(list, Some(dense - {n}), overlay);
    forall j ensures SetAt(t, j) <==> j != n && SetAt(s, j) {
    }
    forall j | j in t.set_.value ensures Backed(t, j) {
      BackedAnyway(s, j);
    }
  }

  /** With no element left anywhere, the explicit set can go. */
  lemma NothingLeft(s: Store)
    requires Good(s) && s.list == [] && (s.overlay.Some? ==> s.overlay.value == map[])
    ensures Good(s.(set_ := None)) && ContentsOf(s.(set_ := None)) == ContentsOf(s)
    ensures BlankIn(s) ==> BlankIn(s.(set_ := None))
  {
    forall i ensures !SetAt(s, i) {
      BackedAnyway(s, i);
    }
  }

  class Variable {
    /** Set for an array; the other kinds hold no elements. */
    var indexed: bool
    var list: seq<string>
    var listSet: Option<Set>
    var listMap: Option<map<int, string>>

    constructor ()
      ensures Valid() && indexed && Contents() == map[] && Blank()
    {
      indexed, list, listSet, listMap := true, [], None, None;
    }

    function Fields(): Store
      reads this
    {
      Store(list, listSet, listMap)
    }

    ghost predicate Valid()
      reads this
    {
      Good(Fields())
    }

    /** The plain map the variable stands for. */
    ghost function Contents(): map<int, string>
      reads this
    {
      if indexed then ContentsOf(Fields()) else map[]
    }

    ghost predicate Blank()
      reads this
    {
      BlankIn(Fields())
    }

    function IndexedElem(i: int): (r: string)
      reads this
      ensures i in Contents() ==> r == Contents()[i]
      ensures indexed && Blank() && i !in Contents() ==> r == ""
    {
      ContentsAt(Fields(), i);
      if 0 <= i < |list| then list[i]
      else if listMap.Some? && i in listMap.value then listMap.value[i]
      else ""
    }

    function IndexedSet(index: int): (r: bool)
      reads this
      ensures r <==> index in Contents()
    {
      ContentsAt(Fields(), index);
      if !indexed || index < 0 then false
      else if listSet == None then index < |list|
      else Has(listSet.value, index)
    }

    /** The set indexes; ranging over the map yields them in any order, so they are sorted. */
    method IndexedIndexes() returns (indexes: seq<int>)
      ensures Enumerates(indexes, Contents())
    {
      if !indexed {
        return [];
      }
      if listSet == None {
        indexes := [];
        for i := 0 to |list|
          invariant |indexes| == i && forall j :: 0 <= j < i ==> indexes[j] == j
        {
          indexes := indexes + [i];
        }
        assert forall i :: i in Contents() ==> indexes[i] == i;
        return;
      }
      var set_ := listSet.value;
      indexes := [];
      var rest := set_.Keys;
      while rest != {}
        invariant rest <= set_.Keys
        invariant forall i, j :: 0 <= i < j < |indexes| ==> indexes[i] != indexes[j]
        invariant forall i :: i in indexes <==> i in set_.Keys - rest && set_[i] && i >= 0
        decreases rest
      {
        assert (forall i :: i !in rest) ==> rest == {};
        var i :| i in rest;
        rest := rest - {i};
        if set_[i] && i >= 0 {
          indexes := indexes + [i];
        }
      }
      indexes := Sort(indexes);
    }

    method IndexedValues() returns (values: seq<string>)
      ensures forall indexes :: Enumerates(indexes, Contents()) ==>
                |values| == |indexes| &&
                forall k :: 0 <= k < |values| ==> indexes[k] in Contents() && values[k] == Contents()[indexes[k]]
    {
      var indexes := IndexedIndexes();
      values := [];
      for k := 0 to |indexes|
        invariant |values| == k && forall j :: 0 <= j < k ==> values[j] == IndexedElem(indexes[j])
      {
        values := values + [IndexedElem(indexes[k])];
      }
      forall other | Enumerates(other, Contents()) ensures other == indexes {
        EnumerationIsUnique(other, indexes);
      }
      assert forall k :: 0 <= k < |indexes| ==> indexes[k] in indexes;
    }

    /** A copy without the false entries. */
    method CloneListSet() returns (r: Option<Set>)
      ensures r.Some? <==> listSet.Some?
      ensures r.Some? ==> forall i :: Has(r.value, i) <==> Has(listSet.value, i)
    {
      if listSet == None {
        return None;
      }
      var clone: Set := map[];
      var rest := listSet.value.Keys;
      while rest != {}
        invariant rest <= listSet.value.Keys
        invariant forall i :: Has(clone, i) <==> i !in rest && Has(listSet.value, i)
        decreases rest
      {
        assert (forall i :: i !in rest) ==> rest == {};
        var i :| i in rest;
        rest := rest - {i};
        if listSet.value[i] {
          clone := clone[i := true];
        }
      }
      return Some(clone);
    }

    /** The indexes that count, as an explicit set. */
    method DenseListSet() returns (r: Option<Set>)
      requires indexed
      ensures r.Some? && Counts(r.value, Fields())
    {
      if listSet.Some? {
        r := CloneListSet();
        return;
      }
      var set_: Set := map[];
      for i := 0 to |list|
        invariant forall j :: j in set_ <==> 0 <= j < i
        invariant forall j :: j in set_ ==> set_[j]
      {
        set_ := set_[i := true];
      }
      return Some(set_);
    }

    /** Assigning one element; the caller has made the variable an array it owns. */
    method SetIndexed(i: int, value: string)
      requires Valid() && indexed
      modifies this
      ensures Valid() && indexed
      ensures Contents() == Updated(old(Contents()), Put(i, value))
      ensures old(Blank()) ==> Blank()
      ensures i < MAX_DENSE_INDEX ==> listMap == old(listMap)
      ensures i >= MAX_DENSE_INDEX ==> list == old(list)
    {
      hide ElemAt, SetAt, ContentsOf, Steps, BlankIn, Counts, Good;
      ghost var was := Fields();
      if i < 0 {
        return;
      }
      if i < MAX_DENSE_INDEX {
        if listSet == None && i <= |list| {
          PutContiguous(was, i, value);
          if i == |list| {
            list := list + [value];
            assert list == was.list[..i] + [value] + [];
          } else {
            list := list[i := value];
            assert list == was.list[..i] + [value] + was.list[i + 1..];
          }
          StepUpdates(was, Fields(), Put(i, value));
          return;
        }
        if listSet == None {
          listSet := DenseListSet();
        } else {
          OwnSetCounts(was);
        }
        PutDense(was, listSet.value, i, value);
        if i >= |list| {
          list := list + seq(i - |list| + 1, _ => "");
        }
        assert list == Padded(was.list, i);
        list := list[i := value];
        listSet := Some(listSet.value[i := true]);
        StepUpdates(was, Fields(), Put(i, value));
        return;
      }
      if listSet == None {
        listSet := DenseListSet();
      } else {
        OwnSetCounts(was);
      }
      PutHuge(was, listSet.value, i, value);
      if listMap == None {
        listMap := Some(map[]);
      }
      listMap := Some(listMap.value[i := value]);
      listSet := Some(listSet.value[i := true]);
      StepUpdates(was, Fields(), Put(i, value));
    }

    /** Removing one element, as the unset builtin does once the subscript is a number. */
    method UnsetElem(n: int)
      requires Valid() && indexed
      modifies this
      ensures Valid() && indexed
      ensures Contents() == Updated(old(Contents()), Remove(n))
      ensures old(Blank()) ==> Blank()
    {
      hide ElemAt, ContentsOf, Steps, BlankIn, Counts, Good;
      ghost var was := Fields();
      if !IndexedSet(n) {
        assert n >= 0 ==> was == Fields() && n !in Contents();
        return;
      }
      ContentsAt(was, n);
      var dense := DenseListSet();
      var set_ := dense.value - {n};
      if n < |list| {
        list := list[n := ""];
        while |list| > 0 && !Has(set_, |list| - 1)
          invariant |list| <= |was.list| && listMap == was.overlay && indexed
          invariant forall j :: 0 <= j < |list| ==> list[j] == if j == n then "" else was.list[j]
          invariant forall j :: |list| <= j < |was.list| ==> !Has(set_, j)
        {
          list := list[..|list| - 1];
        }
      } else if listMap.Some? {
        listMap := Some(listMap.value - {n});
      }
      RemoveElem(was, dense.value, n, list, listMap);
      listSet := Some(set_);
      StepUpdates(was, Fields(), Remove(n));
      if |list| == 0 && (listMap == None || |listMap.value| == 0) {
        NothingLeft(Fields());
        listSet := None;
      }
    }
  }

  lemma OwnSetCounts(s: Store)
    requires s.set_.Some?
    ensures Counts(s.set_.value, s)
  {
  }

  /** After any run of updates the variable still stands for the map given the same updates. */
  method Replay(v: Variable, updates: seq<Update>)
    requires v.Valid() && v.indexed
    modifies v
    ensures v.Valid() && v.indexed
    ensures v.Contents() == UpdatedAll(old(v.Contents()), updates)
    ensures old(v.Blank()) ==> v.Blank()
  {
    for k := 0 to |updates|
      invariant v.Valid() && v.indexed
      invariant v.Contents() == UpdatedAll(old(v.Contents()), updates[..k])
      invariant old(v.Blank()) ==> v.Blank()
    {
      assert updates[..k + 1][..k] == updates[..k];
      match updates[k]
      case Put(i, value) => v.SetIndexed(i, value);
      case Remove(i) => v.UnsetElem(i);
    }
    assert updates[..|updates|] == updates;
  }
}
