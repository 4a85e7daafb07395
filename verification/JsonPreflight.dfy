/** The size preflight of object values (expand/object.go): a walk that adds up a bound for the JSON
    encoding before any of it is written. */
module JsonPreflight {
  import opened Common
  import opened JsonCost
  import opened JsonLimits
  import opened JsonNumber
  import opened JsonString
  import opened JsonValue
  import opened Utf8

  // ---------- The walk ----------

  datatype Error = TooManyVisits | TooDeep | TypeRefused | Cycle | TooLong | NonFinite | BadKey | CallsMethod | NoNumber

  function Fuel(depth: nat): nat { if depth > MAX_DEPTH then 0 else MAX_DEPTH + 1 - depth }

  predicate StopsWalk(err: Option<Error>) { err == Some(TooDeep) || err == Some(Cycle) }

  /** quotedFieldExtra: through pointers to the scalar, and nothing for nil. */
  method QuotedFieldExtra(h: Heap, f: Field) returns (extra: nat)
    requires f.quoted && QuotedOk(h, f)
    ensures extra == Extra(FieldValue(h, f))
  {
    var v := f.value;
    while v.Pointer? || v.Interface?
      invariant v == f.value || (f.value.Pointer? && v == h.one(f.value.node))
      decreases if v == f.value && f.value.Pointer? then 1 else 0
    {
      v := h.one(v.node);
    }
    if v == Null {
      return 0;
    }
    if v.Str? {
      var _, backslashes := JsonStringMetrics(v.s);
      return 4 + backslashes;
    }
    return 2;
  }

  /** Values without others inside. */
  lemma LeafCost(h: Heap, v: Value, fuel: nat)
    requires fuel > 0
    ensures v == Null ==> Cost(h, v, fuel) == 4
    ensures v.Bool? ==> Cost(h, v, fuel) == 5
    ensures v.Int? ==> Cost(h, v, fuel) == |IntText(v.n)|
    ensures v.Str? ==> Cost(h, v, fuel) == |Quoted(v.s, true)|
    ensures v.NumberText? ==> Cost(h, v, fuel) == |Quoted(v.s, true)|
    ensures v.Float? ==> Cost(h, v, fuel) == 32
    ensures v.Bytes? ==> Cost(h, v, fuel) == 2 + 4 * ((|v.data| + 2) / 3)
  {
    hide Quoted, IntText, Base64;
  }

  /** Values with others inside. */
  lemma InsideCost(h: Heap, v: Value, fuel: nat)
    requires fuel > 0
    ensures v.Interface? || v.Pointer? ==>
              Cost(h, v, fuel) == Cost(h, h.one(v.node), fuel - 1)
    ensures v.Array? || v.Slice? ==>
              Cost(h, v, fuel) == CollectionOverhead(|h.many(v.node)|) + CostAll(h, h.many(v.node), fuel - 1)
    ensures v.Map? ==>
              Cost(h, v, fuel) == CollectionOverhead(|h.entries(v.node)|) + 3 * |h.entries(v.node)|
                                  + CostEntries(h, h.entries(v.node), fuel - 1)
    ensures v.Struct? ==>
              Cost(h, v, fuel) == 2 + CostFields(h, h.fields(v.node), fuel - 1)
  {
    hide CostAll, CostEntries, CostFields, Commas;
  }

  /** A value with one inside. */
  lemma OnePass(h: Heap, v: Value, seen: set<Visit>, fuel: nat, visits: nat, bytes: nat)
    ensures VisitCountAll(h, [v], fuel) == VisitCount(h, v, fuel)
    ensures AllUnfold(h, [v], seen, fuel) <==> Unfolds(h, v, seen, fuel)
    ensures AllPass(h, [v], seen, fuel, visits, bytes, Cost(h, v, fuel)) <==> Passes(h, v, seen, fuel, visits, bytes)
  {
    hide Unfolds, VisitCount, VisitCountAll, AllUnfold, AllPass, PassesWith, Cost;
    NoneFails(h, seen, fuel, visits, bytes, 0);
    assert [] + [v] == [v];
    PassNext(h, [], v, seen, fuel, visits, bytes, 0, Cost(h, v, fuel));
    OneFits(h, v, seen, fuel, visits, bytes);
  }

  /** Passing leaves room for what was there before. */
  lemma OneFits(h: Heap, v: Value, seen: set<Visit>, fuel: nat, visits: nat, bytes: nat)
    ensures Passes(h, v, seen, fuel, visits, bytes) ==> visits <= MAX_VISITS && bytes <= MAX_BYTES
  {
    hide Unfolds, Allowed;
  }

  /** What is added first may be counted as visited bytes or as cost. */
  lemma SplitCost(h: Heap, vs: seq<Value>, seen: set<Visit>, fuel: nat, visits: nat, bytes: nat, first: nat, rest: nat)
    ensures AllPass(h, vs, seen, fuel, visits, bytes, first + rest) <==>
            AllPass(h, vs, seen, fuel, visits, bytes + first, rest)
    ensures AllPass(h, vs, seen, fuel, visits, bytes, first + rest) ==> bytes + first <= MAX_BYTES
  {
    hide AllUnfold, AllAllowed, VisitCountAll;
  }

  lemma TooManyFail(h: Heap, v: Value, seen: set<Visit>, fuel: nat, visits: nat, bytes: nat)
    requires visits >= MAX_VISITS
    ensures !Passes(h, v, seen, fuel, visits, bytes)
  {
    hide Unfolds, Allowed, VisitCountAll;
  }

  lemma PassedEncodes(h: Heap, v: Value, seen: set<Visit>, fuel: nat, visits: nat, bytes: nat)
    requires WellTyped(h) && Passes(h, v, seen, fuel, visits, bytes)
    ensures Encoded(h, v, fuel).Some? <==> Spelled(h, v, fuel)
  {
    hide WellTyped, Unfolds, Allowed, VisitCount, Cost, Encoded, Spelled;
    EncodesIff(h, v, fuel);
  }

  lemma RefusedFail(h: Heap, v: Value)
    requires v.Refused? || (v.Map? && !v.validKey)
    ensures !AllowedHere(h, v)
  {
  }

  lemma FieldTyped(h: Heap, node: nat, n: nat)
    requires WellTyped(h) && n < |h.fields(node)|
    ensures QuotedOk(h, h.fields(node)[n])
  {
  }

  class Preflight {
    var visits: nat
    var encodedBytes: nat
    var seen: set<Visit>

    constructor ()
      ensures visits == 0 && encodedBytes == 0 && seen == {}
    {
      visits, encodedBytes, seen := 0, 0, {};
    }

    method AddBytes(n: int) returns (err: Option<Error>)
      requires encodedBytes <= MAX_BYTES
      modifies this`encodedBytes
      ensures encodedBytes <= MAX_BYTES
      ensures err == if n < 0 || old(encodedBytes) + n > MAX_BYTES then Some(TooLong) else None
      ensures encodedBytes == old(encodedBytes) + if err == None then n else 0
    {
      if n < 0 || encodedBytes > MAX_BYTES - n {
        return Some(TooLong);
      }
      encodedBytes := encodedBytes + n;
      return None;
    }

    /** The walk accepts exactly what passes. An accepted value adds its visits and its cost and unfolds to
        nothing met twice; it has an encoding if and only if its number texts are spelled as numbers. The path
        of what is being visited is left as it was, whatever the answer. */
    method PreflightObject(h: Heap, v: Value, depth: nat) returns (err: Option<Error>)
      requires encodedBytes <= MAX_BYTES && depth <= MAX_DEPTH + 1 && WellTyped(h)
      modifies this
      ensures encodedBytes <= MAX_BYTES && seen == old(seen)
      ensures err == None <==> Passes(h, v, seen, Fuel(depth), old(visits), old(encodedBytes))
      ensures err == None ==> visits == old(visits) + VisitCount(h, v, Fuel(depth))
      ensures err == None ==> encodedBytes == old(encodedBytes) + Cost(h, v, Fuel(depth))
      ensures err == None ==> (Encoded(h, v, Fuel(depth)).Some? <==> Spelled(h, v, Fuel(depth)))
      ensures StopsWalk(err) ==> !Unfolds(h, v, seen, Fuel(depth))
      decreases MAX_DEPTH + 1 - depth, 3, 0
    {
      hide Cost, Unfolds, WellTyped, Children, AllUnfold, PassesWith, Passes, AllPass, VisitCount, Encoded, Spelled,
           VisitCountAll, AllowedHere;
      ghost var fuel, counted := Fuel(depth), encodedBytes;
      visits := visits + 1;
      if visits > MAX_VISITS {
        TooManyFail(h, v, seen, fuel, visits - 1, encodedBytes);
        return Some(TooManyVisits);
      }
      if depth > MAX_DEPTH {
        NothingLeft(h, v, seen, visits - 1, encodedBytes);
        return Some(TooDeep);
      }
      PassesStep(h, v, seen, fuel, visits - 1, encodedBytes);
      if v.Refused? {
        RefusedFail(h, v);
        return Some(TypeRefused);
      }
      if v.Map? && !v.validKey {
        RefusedFail(h, v);
        return Some(BadKey);
      }
      if v.Pointer? || v.Slice? || v.Bytes? || v.Map? {
        if v.vis in seen {
          return Some(Cycle);
        }
        ghost var was := seen;
        seen := seen + {v.vis};
        err := PreflightInside(h, v, depth);
        seen := seen - {v.vis};
        assert seen == was;
      } else {
        assert seen + {} == seen;
        err := PreflightInside(h, v, depth);
      }
      if err.None? {
        PassedEncodes(h, v, seen, fuel, old(visits), old(encodedBytes));
      }
    }

    /** ... what is done for a value once it is on the path. */
    method PreflightInside(h: Heap, v: Value, depth: nat) returns (err: Option<Error>)
      requires encodedBytes <= MAX_BYTES && visits <= MAX_VISITS && depth <= MAX_DEPTH && WellTyped(h)
      requires !v.Refused? && (v.Map? ==> v.validKey)
      modifies this
      ensures encodedBytes <= MAX_BYTES && seen == old(seen)
      ensures err == None <==>
              AllowedHere(h, v) && AllPass(h, Children(h, v), seen, Fuel(depth) - 1, old(visits), old(encodedBytes),
                                           Cost(h, v, Fuel(depth)))
      ensures err == None ==> visits == old(visits) + VisitCountAll(h, Children(h, v), Fuel(depth) - 1)
      ensures err == None ==> encodedBytes == old(encodedBytes) + Cost(h, v, Fuel(depth))
      ensures StopsWalk(err) ==> !AllUnfold(h, Children(h, v), seen, Fuel(depth) - 1)
      decreases MAX_DEPTH + 1 - depth, 2, 0
    {
      hide Cost, Unfolds, WellTyped, Quoted, IntText, Base64, AllUnfold, CostAll, CostEntries, CostFields,
           PassesWith, Passes, AllPass, VisitCount, VisitCountAll;
      var fuel := Fuel(depth);
      InsideCost(h, v, fuel);
      if v == Null || IsScalar(v) || v.Bytes? {
        NoneFails(h, seen, fuel - 1, visits, encodedBytes, Cost(h, v, fuel));
        err := PreflightLeaf(h, v, fuel);
        return;
      }
      match v
      case Interface(node) =>
        OnePass(h, h.one(node), seen, fuel - 1, visits, encodedBytes);
        err := PreflightObject(h, h.one(node), depth + 1);
      case Pointer(_, node) =>
        OnePass(h, h.one(node), seen, fuel - 1, visits, encodedBytes);
        err := PreflightObject(h, h.one(node), depth + 1);
      case Array(node) => err := PreflightCollection(h, h.many(node), depth);
      case Slice(_, node) => err := PreflightCollection(h, h.many(node), depth);
      case Map(_, node, _) =>
        err := PreflightMap(h, h.entries(node), depth);
      case Struct(node) =>
        err := PreflightStruct(h, node, depth);
    }

    method PreflightLeaf(h: Heap, v: Value, ghost fuel: nat) returns (err: Option<Error>)
      requires encodedBytes <= MAX_BYTES && fuel > 0 && (v == Null || IsScalar(v) || v.Bytes?)
      modifies this`encodedBytes
      ensures encodedBytes <= MAX_BYTES && !StopsWalk(err)
      ensures err == None <==> AllowedHere(h, v) && old(encodedBytes) + Cost(h, v, fuel) <= MAX_BYTES
      ensures err == None ==> encodedBytes == old(encodedBytes) + Cost(h, v, fuel)
    {
      hide Cost, Quoted, IntText, Base64;
      LeafCost(h, v, fuel);
      match v
      case Null => err := AddBytes(4);
      case Bool(_) => err := AddBytes(5);
      case Int(n) => err := AddBytes(|IntText(n)|);
      case Str(s) =>
        var size, _ := JsonStringMetrics(s);
        err := AddBytes(size);
      case NumberText(s) =>
        var size, _ := JsonStringMetrics(s);
        err := AddBytes(size);
      case Float(finite, _) =>
        if !finite {
          return Some(NonFinite);
        }
        err := AddBytes(32);
      case Bytes(_, data) => err := AddBytes(2 + 4 * ((|data| + 2) / 3));
    }

    method PreflightCollection(h: Heap, vs: seq<Value>, depth: nat) returns (err: Option<Error>)
      requires encodedBytes <= MAX_BYTES && visits <= MAX_VISITS && depth <= MAX_DEPTH && WellTyped(h)
      modifies this
      ensures encodedBytes <= MAX_BYTES && seen == old(seen)
      ensures err == None <==>
              AllPass(h, vs, seen, Fuel(depth) - 1, old(visits), old(encodedBytes),
                      CollectionOverhead(|vs|) + CostAll(h, vs, Fuel(depth) - 1))
      ensures err == None ==> visits == old(visits) + VisitCountAll(h, vs, Fuel(depth) - 1)
      ensures err == None ==>
                encodedBytes == old(encodedBytes) + CollectionOverhead(|vs|) + CostAll(h, vs, Fuel(depth) - 1)
      ensures StopsWalk(err) ==> !AllUnfold(h, vs, seen, Fuel(depth) - 1)
      decreases MAX_DEPTH + 1 - depth, 1, 0
    {
      hide WellTyped, CostAll, AllUnfold, AllPass, VisitCountAll;
      SplitCost(h, vs, seen, Fuel(depth) - 1, visits, encodedBytes, CollectionOverhead(|vs|),
                CostAll(h, vs, Fuel(depth) - 1));
      err := AddBytes(CollectionOverhead(|vs|));
      if err.None? {
        err := PreflightItems(h, vs, depth + 1);
      }
    }

    method PreflightMap(h: Heap, es: seq<Entry>, depth: nat) returns (err: Option<Error>)
      requires encodedBytes <= MAX_BYTES && visits <= MAX_VISITS && depth <= MAX_DEPTH && WellTyped(h)
      modifies this
      ensures encodedBytes <= MAX_BYTES && seen == old(seen)
      ensures err == None <==>
              AllPass(h, EntryValues(es), seen, Fuel(depth) - 1, old(visits), old(encodedBytes),
                      CollectionOverhead(|es|) + 3 * |es| + CostEntries(h, es, Fuel(depth) - 1))
      ensures err == None ==> visits == old(visits) + VisitCountAll(h, EntryValues(es), Fuel(depth) - 1)
      ensures err == None ==>
                encodedBytes == old(encodedBytes) + CollectionOverhead(|es|) + 3 * |es|
                                + CostEntries(h, es, Fuel(depth) - 1)
      ensures StopsWalk(err) ==> !AllUnfold(h, EntryValues(es), seen, Fuel(depth) - 1)
      decreases MAX_DEPTH + 1 - depth, 1, 0
    {
      hide WellTyped, CostEntries, AllUnfold, AllPass, VisitCountAll, EntryValues;
      var overhead := CollectionOverhead(|es|) + 3 * |es|;
      SplitCost(h, EntryValues(es), seen, Fuel(depth) - 1, visits, encodedBytes, overhead,
                CostEntries(h, es, Fuel(depth) - 1));
      err := AddBytes(overhead);
      if err.None? {
        err := PreflightEntries(h, es, depth + 1);
      }
    }

    method PreflightStruct(h: Heap, node: nat, depth: nat) returns (err: Option<Error>)
      requires encodedBytes <= MAX_BYTES && visits <= MAX_VISITS && depth <= MAX_DEPTH && WellTyped(h)
      modifies this
      ensures encodedBytes <= MAX_BYTES && seen == old(seen)
      ensures err == None <==>
              AllowedHere(h, Struct(node)) &&
              AllPass(h, FieldValues(h.fields(node)), seen, Fuel(depth) - 1, old(visits), old(encodedBytes),
                      2 + CostFields(h, h.fields(node), Fuel(depth) - 1))
      ensures err == None ==> visits == old(visits) + VisitCountAll(h, FieldValues(h.fields(node)), Fuel(depth) - 1)
      ensures err == None ==> encodedBytes == old(encodedBytes) + 2 + CostFields(h, h.fields(node), Fuel(depth) - 1)
      ensures StopsWalk(err) ==> !AllUnfold(h, FieldValues(h.fields(node)), seen, Fuel(depth) - 1)
      decreases MAX_DEPTH + 1 - depth, 1, 0
    {
      hide WellTyped, CostFields, AllUnfold, AllPass, VisitCountAll, FieldValues;
      SplitCost(h, FieldValues(h.fields(node)), seen, Fuel(depth) - 1, visits, encodedBytes, 2,
                CostFields(h, h.fields(node), Fuel(depth) - 1));
      err := AddBytes(2);
      if err.None? {
        err := PreflightFields(h, node, depth + 1);
      }
    }

    method PreflightItems(h: Heap, vs: seq<Value>, depth: nat) returns (err: Option<Error>)
      requires encodedBytes <= MAX_BYTES && visits <= MAX_VISITS && 0 < depth <= MAX_DEPTH + 1 && WellTyped(h)
      modifies this
      ensures encodedBytes <= MAX_BYTES && seen == old(seen)
      ensures err == None <==>
              AllPass(h, vs, seen, Fuel(depth), old(visits), old(encodedBytes), CostAll(h, vs, Fuel(depth)))
      ensures err == None ==> visits == old(visits) + VisitCountAll(h, vs, Fuel(depth))
      ensures err == None ==> encodedBytes == old(encodedBytes) + CostAll(h, vs, Fuel(depth))
      ensures StopsWalk(err) ==> !AllUnfold(h, vs, seen, Fuel(depth))
      decreases MAX_DEPTH + 1 - depth, 4, 0
    {
      hide Cost, Unfolds, WellTyped, CostAll, AllUnfold, PassesWith, Passes, AllPass,
           VisitCount, VisitCountAll;
      var fuel := Fuel(depth);
      ghost var visited, counted := visits, encodedBytes;
      NothingCosts(h, fuel);
      NoneFails(h, seen, fuel, visits, encodedBytes, 0);
      assert vs[..0] == [];
      for i := 0 to |vs|
        invariant encodedBytes <= MAX_BYTES && seen == old(seen)
        invariant AllPass(h, vs[..i], seen, fuel, visited, counted, CostAll(h, vs[..i], fuel))
        invariant visits == visited + VisitCountAll(h, vs[..i], fuel)
        invariant encodedBytes == counted + CostAll(h, vs[..i], fuel)
      {
        AllStep(h, vs, i, fuel);
        ItemPass(h, vs, i, seen, fuel, visited, counted);
        err := PreflightObject(h, vs[i], depth);
        if err.Some? {
          return;
        }
      }
      assert vs[..|vs|] == vs;
      return None;
    }

    method PreflightEntries(h: Heap, es: seq<Entry>, depth: nat) returns (err: Option<Error>)
      requires encodedBytes <= MAX_BYTES && visits <= MAX_VISITS && 0 < depth <= MAX_DEPTH + 1 && WellTyped(h)
      modifies this
      ensures encodedBytes <= MAX_BYTES && seen == old(seen)
      ensures err == None <==>
              AllPass(h, EntryValues(es), seen, Fuel(depth), old(visits), old(encodedBytes),
                      CostEntries(h, es, Fuel(depth)))
      ensures err == None ==> visits == old(visits) + VisitCountAll(h, EntryValues(es), Fuel(depth))
      ensures err == None ==> encodedBytes == old(encodedBytes) + CostEntries(h, es, Fuel(depth))
      ensures StopsWalk(err) ==> !AllUnfold(h, EntryValues(es), seen, Fuel(depth))
      decreases MAX_DEPTH + 1 - depth, 4, 0
    {
      hide Cost, Unfolds, WellTyped, CostEntries, EntryValues, KeyValue, AllUnfold,
           PassesWith, Passes, AllPass, VisitCount, VisitCountAll;
      var fuel := Fuel(depth);
      ghost var visited, counted := visits, encodedBytes;
      NothingCosts(h, fuel);
      NoneFails(h, seen, fuel, visits, encodedBytes, 0);
      assert es[..0] == [];
      for i := 0 to |es|
        invariant encodedBytes <= MAX_BYTES && seen == old(seen)
        invariant AllPass(h, EntryValues(es[..i]), seen, fuel, visited, counted, CostEntries(h, es[..i], fuel))
        invariant visits == visited + VisitCountAll(h, EntryValues(es[..i]), fuel)
        invariant encodedBytes == counted + CostEntries(h, es[..i], fuel)
      {
        EntriesStep(h, es, i, fuel);
        EntryDecides(h, es, i, seen, fuel, visited, counted, visits, encodedBytes);
        err := PreflightEntry(h, es[i], depth);
        if err.Some? {
          return;
        }
      }
      assert es[..|es|] == es;
      return None;
    }

    method PreflightEntry(h: Heap, e: Entry, depth: nat) returns (err: Option<Error>)
      requires encodedBytes <= MAX_BYTES && 0 < depth <= MAX_DEPTH + 1 && WellTyped(h)
      modifies this
      ensures encodedBytes <= MAX_BYTES && seen == old(seen)
      ensures err == None <==>
              Passes(h, KeyValue(e.key), seen, Fuel(depth), old(visits), old(encodedBytes)) &&
              Passes(h, e.value, seen, Fuel(depth), old(visits) + VisitCount(h, KeyValue(e.key), Fuel(depth)),
                     old(encodedBytes) + Cost(h, KeyValue(e.key), Fuel(depth)))
      ensures err == None ==>
                visits == old(visits) + VisitCount(h, KeyValue(e.key), Fuel(depth)) + VisitCount(h, e.value, Fuel(depth)) &&
                encodedBytes == old(encodedBytes) + Cost(h, KeyValue(e.key), Fuel(depth)) + Cost(h, e.value, Fuel(depth))
      ensures StopsWalk(err) ==>
                !Unfolds(h, KeyValue(e.key), seen, Fuel(depth)) || !Unfolds(h, e.value, seen, Fuel(depth))
      decreases MAX_DEPTH + 1 - depth, 3, 1
    {
      hide Cost, Unfolds, WellTyped, KeyValue, Passes, VisitCount;
      err := PreflightObject(h, KeyValue(e.key), depth);
      if err.Some? {
        return;
      }
      err := PreflightObject(h, e.value, depth);
    }

    method PreflightFields(h: Heap, node: nat, depth: nat) returns (err: Option<Error>)
      requires encodedBytes <= MAX_BYTES && visits <= MAX_VISITS && 0 < depth <= MAX_DEPTH + 1 && WellTyped(h)
      modifies this
      ensures encodedBytes <= MAX_BYTES && seen == old(seen)
      ensures err == None <==>
              AllowedHere(h, Struct(node)) &&
              AllPass(h, FieldValues(h.fields(node)), seen, Fuel(depth), old(visits), old(encodedBytes),
                      CostFields(h, h.fields(node), Fuel(depth)))
      ensures err == None ==> visits == old(visits) + VisitCountAll(h, FieldValues(h.fields(node)), Fuel(depth))
      ensures err == None ==> encodedBytes == old(encodedBytes) + CostFields(h, h.fields(node), Fuel(depth))
      ensures StopsWalk(err) ==> !AllUnfold(h, FieldValues(h.fields(node)), seen, Fuel(depth))
      decreases MAX_DEPTH + 1 - depth, 4, 0
    {
      hide Cost, Unfolds, WellTyped, CostFields, CostField, QuotedOk,
           FieldValues, AllUnfold, PassesWith, AllPass, VisitCount, VisitCountAll;
      var fs, fuel := h.fields(node), Fuel(depth);
      ghost var visited, counted := visits, encodedBytes;
      NothingCosts(h, fuel);
      NoneFails(h, seen, fuel, visits, encodedBytes, 0);
      assert fs[..0] == [] && FieldValues([]) == [];
      for n := 0 to |fs|
        invariant encodedBytes <= MAX_BYTES && seen == old(seen)
        invariant forall i :: 0 <= i < n ==> !fs[i].zeroMethod
        invariant AllPass(h, FieldValues(fs[..n]), seen, fuel, visited, counted, CostFields(h, fs[..n], fuel))
        invariant visits == visited + VisitCountAll(h, FieldValues(fs[..n]), fuel)
        invariant encodedBytes == counted + CostFields(h, fs[..n], fuel)
      {
        FieldDecides(h, fs, n, seen, fuel, visited, counted, visits, encodedBytes);
        FieldTyped(h, node, n);
        err := PreflightField(h, fs[n], n > 0, depth);
        if err.Some? {
          return;
        }
      }
      assert fs[..|fs|] == fs;
      return None;
    }

    method PreflightField(h: Heap, f: Field, comma: bool, depth: nat) returns (err: Option<Error>)
      requires encodedBytes <= MAX_BYTES && 0 < depth <= MAX_DEPTH + 1 && WellTyped(h) && QuotedOk(h, f)
      modifies this
      ensures encodedBytes <= MAX_BYTES && seen == old(seen)
      ensures err == None <==>
              !f.zeroMethod &&
              PassesWith(h, f.value, seen, Fuel(depth), old(visits), old(encodedBytes),
                         (if comma then 1 else 0) + CostField(h, f, Fuel(depth)))
      ensures err == None ==>
                visits == old(visits) + VisitCount(h, f.value, Fuel(depth)) &&
                encodedBytes == old(encodedBytes) + (if comma then 1 else 0) + CostField(h, f, Fuel(depth))
      ensures StopsWalk(err) ==> !Unfolds(h, f.value, seen, Fuel(depth))
      decreases MAX_DEPTH + 1 - depth, 3, 1
    {
      hide Cost, Unfolds, WellTyped, Quoted, FieldValue, Extra, NameBytes, QuotedOk,
           Allowed, VisitCount;
      if f.zeroMethod {
        return Some(CallsMethod);
      }
      if comma {
        err := AddBytes(1);
        if err.Some? {
          return;
        }
      }
      var nameBytes := PlannedName(f);
      err := AddBytes(nameBytes + 1);
      if err.Some? {
        return;
      }
      err := PreflightObject(h, f.value, depth);
      if err.Some? {
        return;
      }
      if f.quoted {
        var extra := QuotedFieldExtra(h, f);
        err := AddBytes(extra);
        if err.Some? {
          return;
        }
      }
    }

    static method PlannedName(f: Field) returns (nameBytes: nat)
      ensures nameBytes == NameBytes(f)
    {
      var planned, _ := JsonStringMetrics(f.name);
      var fallback, _ := JsonStringMetrics(f.ownName);
      nameBytes := planned;
      if fallback > nameBytes {
        nameBytes := fallback;
      }
    }
  }

  // ---------- Acceptance ----------

  /** A value is accepted if and only if it passes the walk, every number text in it is spelled as a number and
      its encoding is within the bound; the encoder runs only once the walk has accepted, and its result is
      measured again. Then the encoding exceeds the counted bytes by no more than what quoted strings add, and
      there is no cycle on any way down. */
  method ValidObject(h: Heap, v: Value) returns (err: Option<Error>, bytes: nat)
    requires WellTyped(h)
    ensures bytes <= MAX_BYTES
    ensures err == None <==>
            Passes(h, v, {}, MAX_DEPTH + 1, 0, 0) && Encoded(h, v, MAX_DEPTH + 1).Some? &&
            |Encoded(h, v, MAX_DEPTH + 1).value| <= MAX_BYTES
    ensures Passes(h, v, {}, MAX_DEPTH + 1, 0, 0) ==>
              (err == Some(NoNumber) <==> !Spelled(h, v, MAX_DEPTH + 1)) &&
              (Encoded(h, v, MAX_DEPTH + 1).Some? <==> Spelled(h, v, MAX_DEPTH + 1))
    ensures err == None ==>
              bytes == Cost(h, v, MAX_DEPTH + 1) &&
              |Encoded(h, v, MAX_DEPTH + 1).value| <= bytes + Shortfall(h, v, MAX_DEPTH + 1)
    ensures err == None ==>
              forall path :: IsPath(h, path) && path[0] == v ==>
                |path| <= MAX_DEPTH + 1 && forall i, j :: 0 <= i < j < |path| ==> Visits(path[i]) !! Visits(path[j])
    ensures StopsWalk(err) ==> !Unfolds(h, v, {}, MAX_DEPTH + 1)
  {
    hide Encoded, Cost, Shortfall, WellTyped, Unfolds, Children, Visits, Allowed, VisitCount, Spelled;
    var walk := new Preflight();
    err := walk.PreflightObject(h, v, 0);
    bytes := walk.encodedBytes;
    if err.Some? {
      return;
    }
    var b := Encoded(h, v, MAX_DEPTH + 1);
    if b.None? {
      return Some(NoNumber), bytes;
    }
    if |b.value| > MAX_BYTES {
      return Some(TooLong), bytes;
    }
    WithinCost(h, v, MAX_DEPTH + 1);
    forall path | IsPath(h, path) && path[0] == v
      ensures |path| <= MAX_DEPTH + 1 && forall i, j :: 0 <= i < j < |path| ==> Visits(path[i]) !! Visits(path[j])
    {
      UnfoldsMeansAcyclic(h, v, {}, MAX_DEPTH + 1, path);
    }
  }

  /** Number text that is a letter passes the walk, and only the encoder turns it down. */
  lemma LetterIsNoNumber(h: Heap)
    ensures var v := NumberText([0x61]);
            Passes(h, v, {}, MAX_DEPTH + 1, 0, 0) && !Spelled(h, v, MAX_DEPTH + 1) && Encoded(h, v, MAX_DEPTH + 1).None?
  {
    var v := NumberText([0x61]);
    hide Quoted, IsNumber, ScansAsNumber;
    LetterQuoted();
    LetterScanned();
    ScanIsGrammar(v.s);
    assert Children(h, v) == [];
    assert Cost(h, v, MAX_DEPTH + 1) == 3 && VisitCount(h, v, MAX_DEPTH + 1) == 1;
    assert Allowed(h, v, MAX_DEPTH + 1) && Unfolds(h, v, {}, MAX_DEPTH + 1);
  }

  lemma LetterQuoted()
    ensures |Quoted([0x61], true)| == 3
  {
  }

  lemma LetterScanned()
    ensures !ScansAsNumber([0x61])
  {
  }
}
