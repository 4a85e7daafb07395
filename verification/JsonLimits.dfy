/** What the size preflight of object values lets through (expand/object.go): which values, how many visits
    and how many bytes. */
module JsonLimits {
  import opened Common
  import opened JsonCost
  import opened JsonNumber
  import opened JsonString
  import opened JsonValue
  import opened Utf8

  const MAX_DEPTH: nat := 100
  const MAX_BYTES: nat := 64 * 0x10_0000
  const MAX_VISITS: nat := 0x10_0000

  // ---------- Values that are let through ----------

  /** Nothing about the value itself is turned down. */
  predicate AllowedHere(h: Heap, v: Value) {
    match v
    case Refused => false
    case Float(finite, _) => finite
    case Map(_, _, validKey) => validKey
    case Struct(node) => forall i :: 0 <= i < |h.fields(node)| ==> !h.fields(node)[i].zeroMethod
    case _ => true
  }

  /** ... nor about anything below it. */
  ghost predicate Allowed(h: Heap, v: Value, fuel: nat)
    decreases fuel
  {
    fuel > 0 && AllowedHere(h, v) &&
    forall i :: 0 <= i < |Children(h, v)| ==> Allowed(h, Children(h, v)[i], fuel - 1)
  }

  ghost predicate AllAllowed(h: Heap, vs: seq<Value>, fuel: nat) {
    forall i :: 0 <= i < |vs| ==> Allowed(h, vs[i], fuel)
  }

  /** All of these unfold, in any order. */
  ghost predicate AllUnfold(h: Heap, vs: seq<Value>, seen: set<Visit>, fuel: nat) {
    forall i :: 0 <= i < |vs| ==> Unfolds(h, vs[i], seen, fuel)
  }

  // ---------- Values that have an encoding ----------

  function FieldsWritten(fs: seq<Field>): seq<Value> {
    if fs == [] then []
    else
      FieldsWritten(fs[..|fs| - 1]) + if fs[|fs| - 1].omitted then [] else [fs[|fs| - 1].value]
  }

  /** The values that are written inside a value. Keys of maps are written as strings in any case. */
  function WrittenBelow(h: Heap, v: Value): seq<Value> {
    match v
    case Map(_, node, _) => seq(|h.entries(node)|, i requires 0 <= i < |h.entries(node)| => h.entries(node)[i].value)
    case Struct(node) => FieldsWritten(h.fields(node))
    case _ => Children(h, v)
  }

  /** Every number text that is written is a number literal, or empty. */
  ghost predicate Spelled(h: Heap, v: Value, fuel: nat)
    decreases fuel
  {
    fuel > 0 && (v.NumberText? ==> v.s == [] || IsNumber(v.s)) &&
    forall i :: 0 <= i < |WrittenBelow(h, v)| ==> Spelled(h, WrittenBelow(h, v)[i], fuel - 1)
  }

  ghost predicate AllSpelled(h: Heap, vs: seq<Value>, fuel: nat) {
    forall i :: 0 <= i < |vs| ==> Spelled(h, vs[i], fuel)
  }

  lemma SpelledMore(h: Heap, vs: seq<Value>, v: Value, fuel: nat)
    ensures AllSpelled(h, vs + [v], fuel) <==> AllSpelled(h, vs, fuel) && Spelled(h, v, fuel)
  {
    hide Spelled;
    var all := vs + [v];
    assert all[|vs|] == v && forall i :: 0 <= i < |vs| ==> all[i] == vs[i];
  }

  lemma NumberSpelled(s: seq<byte>)
    ensures SpellsNumber(s) <==> s == [] || IsNumber(s)
  {
    ScanIsGrammar(NumberSpelling(s));
    assert ScansAsNumber([0x30]);
  }

  /** A value that is let through has an encoding if and only if its number texts are spelled as numbers. */
  lemma {:induction false} EncodesIff(h: Heap, v: Value, fuel: nat)
    requires WellTyped(h) && Allowed(h, v, fuel)
    ensures Encoded(h, v, fuel).Some? <==> Spelled(h, v, fuel)
    decreases fuel, 0, 0
  {
    hide WellTyped, EncodedAll, EncodedEntries, EncodedFields, SpellsNumber, IsNumber, EntryValues, FieldsWritten, Quoted,
         IntText, Base64, Commas, Allowed, Spelled;
    AllowedBelow(h, v, fuel);
    SpelledStep(h, v, fuel);
    match v
    case NumberText(s) => NumberSpelled(s);
    case Interface(node) =>
      assert Children(h, v)[0] == h.one(node);
      EncodesIff(h, h.one(node), fuel - 1);
    case Pointer(_, node) =>
      assert Children(h, v)[0] == h.one(node);
      EncodesIff(h, h.one(node), fuel - 1);
    case Array(node) => AllEncode(h, h.many(node), fuel - 1);
    case Slice(_, node) => AllEncode(h, h.many(node), fuel - 1);
    case Map(_, node, _) => EntriesEncode(h, h.entries(node), fuel - 1);
    case Struct(node) => FieldsEncode(h, node, h.fields(node), fuel - 1);
    case _ =>
  }

  lemma SpelledStep(h: Heap, v: Value, fuel: nat)
    requires fuel > 0
    ensures Spelled(h, v, fuel) <==>
            (v.NumberText? ==> v.s == [] || IsNumber(v.s)) && AllSpelled(h, WrittenBelow(h, v), fuel - 1)
    ensures v.Map? ==>
              (AllSpelled(h, WrittenBelow(h, v), fuel - 1) <==>
               forall i :: 0 <= i < |h.entries(v.node)| ==> Spelled(h, h.entries(v.node)[i].value, fuel - 1))
  {
    hide IsNumber;
    if v.Map? {
      var es, below := h.entries(v.node), WrittenBelow(h, v);
      hide WrittenBelow, Spelled;
      assert |below| == |es| && forall i :: 0 <= i < |es| ==> below[i] == es[i].value by { EntriesWritten(h, v); }
    }
  }

  lemma EntriesWritten(h: Heap, v: Value)
    requires v.Map?
    ensures var es, below := h.entries(v.node), WrittenBelow(h, v);
            |below| == |es| && forall i :: 0 <= i < |es| ==> below[i] == es[i].value
  {
  }

  lemma AllowedBelow(h: Heap, v: Value, fuel: nat)
    requires Allowed(h, v, fuel)
    ensures fuel > 0 && AllowedHere(h, v) && AllAllowed(h, Children(h, v), fuel - 1)
    ensures v.Map? ==> forall i :: 0 <= i < |h.entries(v.node)| ==> Allowed(h, h.entries(v.node)[i].value, fuel - 1)
  {
    if v.Map? {
      var es := h.entries(v.node);
      hide EntryValues;
      forall i | 0 <= i < |es| ensures Allowed(h, es[i].value, fuel - 1) {
        EntryAt(es, i);
        assert Children(h, v)[2 * i + 1] == es[i].value;
      }
    }
  }

  lemma {:induction false} EntryAt(es: seq<Entry>, i: nat)
    requires i < |es|
    ensures EntryValues(es)[2 * i + 1] == es[i].value
  {
    hide KeyValue;
    if i < |es| - 1 { EntryAt(es[..|es| - 1], i); }
  }

  lemma {:induction false} AllEncode(h: Heap, vs: seq<Value>, fuel: nat)
    requires WellTyped(h) && AllAllowed(h, vs, fuel)
    ensures EncodedAll(h, vs, fuel).Some? <==> AllSpelled(h, vs, fuel)
    decreases fuel, 1, |vs|
  {
    hide WellTyped, Encoded, Spelled, Allowed;
    if vs != [] {
      var init, last := vs[..|vs| - 1], vs[|vs| - 1];
      assert vs == init + [last];
      AllEncode(h, init, fuel);
      EncodesIff(h, last, fuel);
      SpelledMore(h, init, last, fuel);
    }
  }

  lemma {:induction false} EntriesEncode(h: Heap, es: seq<Entry>, fuel: nat)
    requires WellTyped(h) && forall i :: 0 <= i < |es| ==> Allowed(h, es[i].value, fuel)
    ensures EncodedEntries(h, es, fuel).Some? <==> forall i :: 0 <= i < |es| ==> Spelled(h, es[i].value, fuel)
    decreases fuel, 1, |es|
  {
    hide WellTyped, Encoded, Spelled, Allowed, KeyText;
    if es != [] {
      EntriesEncode(h, es[..|es| - 1], fuel);
      EncodesIff(h, es[|es| - 1].value, fuel);
    }
  }

  lemma {:induction false} FieldsEncode(h: Heap, node: nat, fs: seq<Field>, fuel: nat)
    requires WellTyped(h) && fs <= h.fields(node) && AllAllowed(h, FieldValues(fs), fuel)
    ensures EncodedFields(h, fs, fuel).Some? <==> AllSpelled(h, FieldsWritten(fs), fuel)
    decreases fuel, 1, |fs|
  {
    hide Encoded, EncodedField, Spelled, Allowed, QuotedOk;
    if fs != [] {
      var init, f := fs[..|fs| - 1], fs[|fs| - 1];
      assert f == h.fields(node)[|fs| - 1] && FieldValues(fs)[|fs| - 1] == f.value;
      assert AllAllowed(h, FieldValues(init), fuel) by {
        assert forall i :: 0 <= i < |init| ==> FieldValues(init)[i] == FieldValues(fs)[i];
      }
      FieldsEncode(h, node, init, fuel);
      EncodesIff(h, f.value, fuel);
      FieldEncodes(h, f, fuel);
      SpelledMore(h, FieldsWritten(init), f.value, fuel);
      assert FieldsWritten(init) + [] == FieldsWritten(init);
    }
  }

  lemma FieldEncodes(h: Heap, f: Field, fuel: nat)
    requires QuotedOk(h, f)
    ensures EncodedField(h, f, fuel).Some? <==> Encoded(h, f.value, fuel).Some?
  {
    hide Encoded, Quoted, QuotedScalar, FieldValue;
    if f.quoted && Encoded(h, f.value, fuel).Some? { QuotedFieldSize(h, f, fuel); }
  }

  // ---------- Work ----------

  /** How many values there are on all ways down, each counted as often as it is reached. */
  function VisitCount(h: Heap, v: Value, fuel: nat): nat
    decreases fuel, 0, 0
  {
    if fuel == 0 then 1 else 1 + VisitCountAll(h, Children(h, v), fuel - 1)
  }

  function VisitCountAll(h: Heap, vs: seq<Value>, fuel: nat): nat
    decreases fuel, 1, |vs|
  {
    if vs == [] then 0 else VisitCountAll(h, vs[..|vs| - 1], fuel) + VisitCount(h, vs[|vs| - 1], fuel)
  }

  // ---------- Passing ----------

  ghost predicate PassesWith(h: Heap, v: Value, seen: set<Visit>, fuel: nat, visits: nat, bytes: nat, cost: nat) {
    Unfolds(h, v, seen, fuel) && Allowed(h, v, fuel) &&
    visits + VisitCount(h, v, fuel) <= MAX_VISITS && bytes + cost <= MAX_BYTES
  }

  /** The value may follow what has been visited and counted already. */
  ghost predicate Passes(h: Heap, v: Value, seen: set<Visit>, fuel: nat, visits: nat, bytes: nat) {
    PassesWith(h, v, seen, fuel, visits, bytes, Cost(h, v, fuel))
  }

  ghost predicate AllPass(h: Heap, vs: seq<Value>, seen: set<Visit>, fuel: nat, visits: nat, bytes: nat, cost: nat) {
    AllUnfold(h, vs, seen, fuel) && AllAllowed(h, vs, fuel) &&
    visits + VisitCountAll(h, vs, fuel) <= MAX_VISITS && bytes + cost <= MAX_BYTES
  }

  /** One level of the recursion. */
  lemma PassesStep(h: Heap, v: Value, seen: set<Visit>, fuel: nat, visits: nat, bytes: nat)
    requires fuel > 0
    ensures Unfolds(h, v, seen, fuel) <==> Visits(v) !! seen && AllUnfold(h, Children(h, v), seen + Visits(v), fuel - 1)
    ensures VisitCount(h, v, fuel) == 1 + VisitCountAll(h, Children(h, v), fuel - 1)
    ensures Passes(h, v, seen, fuel, visits, bytes) <==>
            Visits(v) !! seen && AllowedHere(h, v) &&
            AllPass(h, Children(h, v), seen + Visits(v), fuel - 1, visits + 1, bytes, Cost(h, v, fuel))
  {
    hide Children, Cost, VisitCountAll, AllowedHere;
  }

  lemma NothingLeft(h: Heap, v: Value, seen: set<Visit>, visits: nat, bytes: nat)
    ensures !Unfolds(h, v, seen, 0) && !Passes(h, v, seen, 0, visits, bytes)
  {
  }

  lemma NoneFails(h: Heap, seen: set<Visit>, fuel: nat, visits: nat, bytes: nat, cost: nat)
    ensures AllUnfold(h, [], seen, fuel) && VisitCountAll(h, [], fuel) == 0
    ensures AllPass(h, [], seen, fuel, visits, bytes, cost) <==> visits <= MAX_VISITS && bytes + cost <= MAX_BYTES
  {
  }

  lemma UnfoldNext(h: Heap, vs: seq<Value>, v: Value, seen: set<Visit>, fuel: nat)
    ensures AllUnfold(h, vs + [v], seen, fuel) <==> AllUnfold(h, vs, seen, fuel) && Unfolds(h, v, seen, fuel)
  {
    hide Unfolds;
    var all := vs + [v];
    assert all[|vs|] == v && forall i :: 0 <= i < |vs| ==> all[i] == vs[i];
  }

  lemma AllowNext(h: Heap, vs: seq<Value>, v: Value, fuel: nat)
    ensures AllAllowed(h, vs + [v], fuel) <==> AllAllowed(h, vs, fuel) && Allowed(h, v, fuel)
  {
    hide Allowed;
    var all := vs + [v];
    assert all[|vs|] == v && forall i :: 0 <= i < |vs| ==> all[i] == vs[i];
  }

  lemma VisitNext(h: Heap, vs: seq<Value>, v: Value, fuel: nat)
    ensures VisitCountAll(h, vs + [v], fuel) == VisitCountAll(h, vs, fuel) + VisitCount(h, v, fuel)
  {
    hide VisitCount;
    assert (vs + [v])[..|vs|] == vs;
  }

  /** One more value after others, with whatever it costs. */
  lemma PassNext(h: Heap, vs: seq<Value>, v: Value, seen: set<Visit>, fuel: nat, visits: nat, bytes: nat,
                 cost: nat, more: nat)
    ensures VisitCountAll(h, vs + [v], fuel) == VisitCountAll(h, vs, fuel) + VisitCount(h, v, fuel)
    ensures AllUnfold(h, vs + [v], seen, fuel) <==> AllUnfold(h, vs, seen, fuel) && Unfolds(h, v, seen, fuel)
    ensures AllPass(h, vs + [v], seen, fuel, visits, bytes, cost + more) <==>
            AllPass(h, vs, seen, fuel, visits, bytes, cost) &&
            PassesWith(h, v, seen, fuel, visits + VisitCountAll(h, vs, fuel), bytes + cost, more)
  {
    hide Unfolds, Allowed, VisitCount, VisitCountAll, AllUnfold, AllAllowed;
    UnfoldNext(h, vs, v, seen, fuel);
    AllowNext(h, vs, v, fuel);
    VisitNext(h, vs, v, fuel);
  }

  /** Of values that pass, the first ones do. */
  lemma PassBefore(h: Heap, vs: seq<Value>, n: nat, seen: set<Visit>, fuel: nat, visits: nat, bytes: nat,
                   cost: nat, total: nat)
    requires n <= |vs| && cost <= total
    ensures AllPass(h, vs, seen, fuel, visits, bytes, total) ==> AllPass(h, vs[..n], seen, fuel, visits, bytes, cost)
    ensures AllUnfold(h, vs, seen, fuel) ==> AllUnfold(h, vs[..n], seen, fuel)
  {
    hide Unfolds, Allowed, VisitCountAll;
    VisitsBefore(h, vs, n, fuel);
  }

  lemma {:induction false} VisitsBefore(h: Heap, vs: seq<Value>, n: nat, fuel: nat)
    requires n <= |vs|
    ensures VisitCountAll(h, vs[..n], fuel) <= VisitCountAll(h, vs, fuel)
  {
    hide VisitCount;
    if n == |vs| {
      assert vs[..n] == vs;
    } else {
      VisitsBefore(h, vs[..|vs| - 1], n, fuel);
      assert vs[..|vs| - 1][..n] == vs[..n];
    }
  }

  lemma {:induction false} CostBefore(h: Heap, vs: seq<Value>, n: nat, fuel: nat)
    requires n <= |vs|
    ensures CostAll(h, vs[..n], fuel) <= CostAll(h, vs, fuel)
  {
    hide Cost;
    if n == |vs| {
      assert vs[..n] == vs;
    } else {
      CostBefore(h, vs[..|vs| - 1], n, fuel);
      assert vs[..|vs| - 1][..n] == vs[..n];
    }
  }

  lemma {:induction false} EntriesBefore(h: Heap, es: seq<Entry>, n: nat, fuel: nat)
    requires n <= |es|
    ensures CostEntries(h, es[..n], fuel) <= CostEntries(h, es, fuel)
    ensures EntryValues(es[..n]) == EntryValues(es)[..2 * n]
  {
    hide CostEntry;
    if n == |es| {
      assert es[..n] == es;
    } else {
      EntriesBefore(h, es[..|es| - 1], n, fuel);
      assert es[..|es| - 1][..n] == es[..n];
    }
  }

  lemma {:induction false} FieldsBefore(h: Heap, fs: seq<Field>, n: nat, fuel: nat)
    requires n <= |fs|
    ensures CostFields(h, fs[..n], fuel) <= CostFields(h, fs, fuel)
    ensures FieldValues(fs[..n]) == FieldValues(fs)[..n]
  {
    hide CostField;
    if n == |fs| {
      assert fs[..n] == fs;
    } else {
      FieldsBefore(h, fs[..|fs| - 1], n, fuel);
      assert fs[..|fs| - 1][..n] == fs[..n];
    }
  }

  // ---------- One step of each loop of the walk ----------

  lemma ItemPass(h: Heap, vs: seq<Value>, i: nat, seen: set<Visit>, fuel: nat, visits: nat, bytes: nat)
    requires i < |vs|
    ensures VisitCountAll(h, vs[..i + 1], fuel) == VisitCountAll(h, vs[..i], fuel) + VisitCount(h, vs[i], fuel)
    ensures AllUnfold(h, vs[..i + 1], seen, fuel) <==>
            AllUnfold(h, vs[..i], seen, fuel) && Unfolds(h, vs[i], seen, fuel)
    ensures AllPass(h, vs[..i + 1], seen, fuel, visits, bytes, CostAll(h, vs[..i + 1], fuel)) <==>
            AllPass(h, vs[..i], seen, fuel, visits, bytes, CostAll(h, vs[..i], fuel)) &&
            Passes(h, vs[i], seen, fuel, visits + VisitCountAll(h, vs[..i], fuel), bytes + CostAll(h, vs[..i], fuel))
    ensures AllUnfold(h, vs, seen, fuel) ==> AllUnfold(h, vs[..i + 1], seen, fuel)
    ensures AllPass(h, vs, seen, fuel, visits, bytes, CostAll(h, vs, fuel)) ==>
              AllPass(h, vs[..i + 1], seen, fuel, visits, bytes, CostAll(h, vs[..i + 1], fuel))
  {
    hide Unfolds, VisitCount, VisitCountAll, AllUnfold, AllPass, PassesWith, Cost, CostAll;
    assert vs[..i + 1] == vs[..i] + [vs[i]];
    AllStep(h, vs, i, fuel);
    PassNext(h, vs[..i], vs[i], seen, fuel, visits, bytes, CostAll(h, vs[..i], fuel), Cost(h, vs[i], fuel));
    CostBefore(h, vs, i + 1, fuel);
    PassBefore(h, vs, i + 1, seen, fuel, visits, bytes, CostAll(h, vs[..i + 1], fuel), CostAll(h, vs, fuel));
  }

  lemma PassTwo(h: Heap, vs: seq<Value>, key: Value, value: Value, seen: set<Visit>, fuel: nat, visits: nat,
                bytes: nat, cost: nat)
    ensures VisitCountAll(h, vs + [key, value], fuel) ==
            VisitCountAll(h, vs, fuel) + VisitCount(h, key, fuel) + VisitCount(h, value, fuel)
    ensures AllUnfold(h, vs + [key, value], seen, fuel) <==>
            AllUnfold(h, vs, seen, fuel) && Unfolds(h, key, seen, fuel) && Unfolds(h, value, seen, fuel)
    ensures AllPass(h, vs + [key, value], seen, fuel, visits, bytes,
                    cost + Cost(h, key, fuel) + Cost(h, value, fuel)) <==>
            AllPass(h, vs, seen, fuel, visits, bytes, cost) &&
            Passes(h, key, seen, fuel, visits + VisitCountAll(h, vs, fuel), bytes + cost) &&
            Passes(h, value, seen, fuel, visits + VisitCountAll(h, vs, fuel) + VisitCount(h, key, fuel),
                   bytes + cost + Cost(h, key, fuel))
  {
    hide Unfolds, VisitCount, VisitCountAll, AllUnfold, AllPass, PassesWith, Cost;
    assert vs + [key, value] == vs + [key] + [value];
    PassNext(h, vs, key, seen, fuel, visits, bytes, cost, Cost(h, key, fuel));
    PassNext(h, vs + [key], value, seen, fuel, visits, bytes, cost + Cost(h, key, fuel), Cost(h, value, fuel));
  }

  lemma EntryPass(h: Heap, es: seq<Entry>, i: nat, seen: set<Visit>, fuel: nat, visits: nat, bytes: nat)
    requires i < |es|
    ensures EntryValues(es[..i + 1]) == EntryValues(es[..i]) + [KeyValue(es[i].key), es[i].value]
    ensures CostEntries(h, es[..i + 1], fuel) ==
            CostEntries(h, es[..i], fuel) + Cost(h, KeyValue(es[i].key), fuel) + Cost(h, es[i].value, fuel)
    ensures AllUnfold(h, EntryValues(es), seen, fuel) ==> AllUnfold(h, EntryValues(es[..i + 1]), seen, fuel)
    ensures AllPass(h, EntryValues(es), seen, fuel, visits, bytes, CostEntries(h, es, fuel)) ==>
              AllPass(h, EntryValues(es[..i + 1]), seen, fuel, visits, bytes, CostEntries(h, es[..i + 1], fuel))
  {
    hide AllUnfold, AllPass, Cost, CostEntries, EntryValues, KeyValue;
    EntriesStep(h, es, i, fuel);
    EntriesBefore(h, es, i + 1, fuel);
    PassBefore(h, EntryValues(es), 2 * (i + 1), seen, fuel, visits, bytes, CostEntries(h, es[..i + 1], fuel),
               CostEntries(h, es, fuel));
  }

  /** What the answer for one entry means for all of them, when those before it have passed. */
  lemma EntryDecides(h: Heap, es: seq<Entry>, i: nat, seen: set<Visit>, fuel: nat, visited: nat, counted: nat,
                     visits: nat, bytes: nat)
    requires i < |es|
    requires AllPass(h, EntryValues(es[..i]), seen, fuel, visited, counted, CostEntries(h, es[..i], fuel))
    requires visits == visited + VisitCountAll(h, EntryValues(es[..i]), fuel)
    requires bytes == counted + CostEntries(h, es[..i], fuel)
    ensures var key, value := KeyValue(es[i].key), es[i].value;
            && visited + VisitCountAll(h, EntryValues(es[..i + 1]), fuel) ==
               visits + VisitCount(h, key, fuel) + VisitCount(h, value, fuel)
            && counted + CostEntries(h, es[..i + 1], fuel) == bytes + Cost(h, key, fuel) + Cost(h, value, fuel)
            && if Passes(h, key, seen, fuel, visits, bytes) &&
                  Passes(h, value, seen, fuel, visits + VisitCount(h, key, fuel), bytes + Cost(h, key, fuel))
               then AllPass(h, EntryValues(es[..i + 1]), seen, fuel, visited, counted, CostEntries(h, es[..i + 1], fuel))
               else !AllPass(h, EntryValues(es), seen, fuel, visited, counted, CostEntries(h, es, fuel))
    ensures !Unfolds(h, KeyValue(es[i].key), seen, fuel) || !Unfolds(h, es[i].value, seen, fuel) ==>
              !AllUnfold(h, EntryValues(es), seen, fuel)
  {
    hide Unfolds, VisitCount, VisitCountAll, AllUnfold, AllPass, Passes, Cost, CostEntries, EntryValues, KeyValue;
    EntryPass(h, es, i, seen, fuel, visited, counted);
    PassTwo(h, EntryValues(es[..i]), KeyValue(es[i].key), es[i].value, seen, fuel, visited, counted,
            CostEntries(h, es[..i], fuel));
  }

  lemma FieldPass(h: Heap, fs: seq<Field>, i: nat, seen: set<Visit>, fuel: nat, visits: nat, bytes: nat)
    requires i < |fs|
    ensures VisitCountAll(h, FieldValues(fs[..i + 1]), fuel) ==
            VisitCountAll(h, FieldValues(fs[..i]), fuel) + VisitCount(h, fs[i].value, fuel)
    ensures AllUnfold(h, FieldValues(fs[..i + 1]), seen, fuel) <==>
            AllUnfold(h, FieldValues(fs[..i]), seen, fuel) && Unfolds(h, fs[i].value, seen, fuel)
    ensures AllPass(h, FieldValues(fs[..i + 1]), seen, fuel, visits, bytes, CostFields(h, fs[..i + 1], fuel)) <==>
            AllPass(h, FieldValues(fs[..i]), seen, fuel, visits, bytes, CostFields(h, fs[..i], fuel)) &&
            PassesWith(h, fs[i].value, seen, fuel, visits + VisitCountAll(h, FieldValues(fs[..i]), fuel),
                       bytes + CostFields(h, fs[..i], fuel), (if i > 0 then 1 else 0) + CostField(h, fs[i], fuel))
    ensures AllUnfold(h, FieldValues(fs), seen, fuel) ==> AllUnfold(h, FieldValues(fs[..i + 1]), seen, fuel)
    ensures AllPass(h, FieldValues(fs), seen, fuel, visits, bytes, CostFields(h, fs, fuel)) ==>
              AllPass(h, FieldValues(fs[..i + 1]), seen, fuel, visits, bytes, CostFields(h, fs[..i + 1], fuel))
  {
    hide Unfolds, VisitCount, VisitCountAll, AllUnfold, AllPass, PassesWith, CostField, CostFields;
    var before, more := FieldValues(fs[..i]), (if i > 0 then 1 else 0) + CostField(h, fs[i], fuel);
    FieldsStep(h, fs, i, fuel);
    assert FieldValues(fs[..i + 1]) == before + [fs[i].value];
    PassNext(h, before, fs[i].value, seen, fuel, visits, bytes, CostFields(h, fs[..i], fuel), more);
    FieldsBefore(h, fs, i + 1, fuel);
    PassBefore(h, FieldValues(fs), i + 1, seen, fuel, visits, bytes, CostFields(h, fs[..i + 1], fuel),
               CostFields(h, fs, fuel));
  }

  /** What the answer for one field means for all of them, when those before it have passed. */
  lemma FieldDecides(h: Heap, fs: seq<Field>, i: nat, seen: set<Visit>, fuel: nat, visited: nat, counted: nat,
                     visits: nat, bytes: nat)
    requires i < |fs|
    requires AllPass(h, FieldValues(fs[..i]), seen, fuel, visited, counted, CostFields(h, fs[..i], fuel))
    requires visits == visited + VisitCountAll(h, FieldValues(fs[..i]), fuel)
    requires bytes == counted + CostFields(h, fs[..i], fuel)
    ensures var more := (if i > 0 then 1 else 0) + CostField(h, fs[i], fuel);
            && visited + VisitCountAll(h, FieldValues(fs[..i + 1]), fuel) == visits + VisitCount(h, fs[i].value, fuel)
            && counted + CostFields(h, fs[..i + 1], fuel) == bytes + more
            && if PassesWith(h, fs[i].value, seen, fuel, visits, bytes, more)
               then AllPass(h, FieldValues(fs[..i + 1]), seen, fuel, visited, counted, CostFields(h, fs[..i + 1], fuel))
               else !AllPass(h, FieldValues(fs), seen, fuel, visited, counted, CostFields(h, fs, fuel))
    ensures !Unfolds(h, fs[i].value, seen, fuel) ==> !AllUnfold(h, FieldValues(fs), seen, fuel)
  {
    hide Unfolds, VisitCount, VisitCountAll, AllUnfold, AllPass, PassesWith, CostField, CostFields, FieldValues,
         EncodedFields, EncodedField;
    FieldPass(h, fs, i, seen, fuel, visited, counted);
    FieldsStep(h, fs, i, fuel);
  }
}
