/** What the size preflight of an object value adds up (expand/object.go), and exactly how that compares to
    the size of the encoding. */
module JsonCost {
  import opened Common
  import opened Utf8
  import opened JsonString
  import opened JsonValue

  // ---------- What the preflight adds up ----------

  function CollectionOverhead(length: nat): nat { if length == 0 then 2 else length + 1 }

  function NameBytes(f: Field): nat {
    if |Quoted(f.ownName, true)| > |Quoted(f.name, true)| then |Quoted(f.ownName, true)| else |Quoted(f.name, true)|
  }

  /** For a quoted field whose value is not nil: quotes around it, and the escapes a string already has. */
  function Extra(v: Value): nat {
    if v == Null then 0 else if v.Str? then 4 + Escapes(v.s) else 2
  }

  function Cost(h: Heap, v: Value, fuel: nat): nat
    decreases fuel, 0, 0
  {
    if fuel == 0 then 0
    else match v
      case Null => 4
      case Bool(_) => 5
      case Int(n) => |IntText(n)|
      case Str(s) => |Quoted(s, true)|
      case NumberText(s) => |Quoted(s, true)|
      case Float(_, _) => 32
      case Refused => 0
      case Interface(node) => Cost(h, h.one(node), fuel - 1)
      case Pointer(_, node) => Cost(h, h.one(node), fuel - 1)
      case Array(node) => CollectionOverhead(|h.many(node)|) + CostAll(h, h.many(node), fuel - 1)
      case Slice(_, node) => CollectionOverhead(|h.many(node)|) + CostAll(h, h.many(node), fuel - 1)
      case Bytes(_, data) => 2 + 4 * ((|data| + 2) / 3)
      case Map(_, node, _) =>
        CollectionOverhead(|h.entries(node)|) + 3 * |h.entries(node)| + CostEntries(h, h.entries(node), fuel - 1)
      case Struct(node) => 2 + CostFields(h, h.fields(node), fuel - 1)
  }

  function CostAll(h: Heap, vs: seq<Value>, fuel: nat): nat
    decreases fuel, 1, |vs|
  {
    if vs == [] then 0 else CostAll(h, vs[..|vs| - 1], fuel) + Cost(h, vs[|vs| - 1], fuel)
  }

  function CostEntry(h: Heap, e: Entry, fuel: nat): nat
    decreases fuel, 1, 0
  {
    Cost(h, KeyValue(e.key), fuel) + Cost(h, e.value, fuel)
  }

  function CostEntries(h: Heap, es: seq<Entry>, fuel: nat): nat
    decreases fuel, 2, |es|
  {
    if es == [] then 0 else CostEntries(h, es[..|es| - 1], fuel) + CostEntry(h, es[|es| - 1], fuel)
  }

  function CostField(h: Heap, f: Field, fuel: nat): nat
    decreases fuel, 1, 0
  {
    NameBytes(f) + 1 + Cost(h, f.value, fuel) + if f.quoted then Extra(FieldValue(h, f)) else 0
  }

  function CostFields(h: Heap, fs: seq<Field>, fuel: nat): nat
    decreases fuel, 2, |fs|
  {
    if fs == [] then 0
    else CostFields(h, fs[..|fs| - 1], fuel) + (if |fs| > 1 then 1 else 0) + CostField(h, fs[|fs| - 1], fuel)
  }

  // ---------- What the preflight counts too little ----------

  /** The quotes and backslashes of a quoted string field. */
  function FieldShortfall(h: Heap, f: Field): nat {
    if f.quoted && FieldValue(h, f).Str? then QuotesAndSlashes(FieldValue(h, f).s) else 0
  }

  /** ... of all quoted string fields that are written inside a value. */
  function Shortfall(h: Heap, v: Value, fuel: nat): nat
    decreases fuel, 0, 0
  {
    if fuel == 0 then 0
    else match v
      case Interface(node) => Shortfall(h, h.one(node), fuel - 1)
      case Pointer(_, node) => Shortfall(h, h.one(node), fuel - 1)
      case Array(node) => ShortfallAll(h, h.many(node), fuel - 1)
      case Slice(_, node) => ShortfallAll(h, h.many(node), fuel - 1)
      case Map(_, node, _) => ShortfallEntries(h, h.entries(node), fuel - 1)
      case Struct(node) => ShortfallFields(h, h.fields(node), fuel - 1)
      case _ => 0
  }

  function ShortfallAll(h: Heap, vs: seq<Value>, fuel: nat): nat
    decreases fuel, 1, |vs|
  {
    if vs == [] then 0 else ShortfallAll(h, vs[..|vs| - 1], fuel) + Shortfall(h, vs[|vs| - 1], fuel)
  }

  function ShortfallEntries(h: Heap, es: seq<Entry>, fuel: nat): nat
    decreases fuel, 1, |es|
  {
    if es == [] then 0 else ShortfallEntries(h, es[..|es| - 1], fuel) + Shortfall(h, es[|es| - 1].value, fuel)
  }

  function ShortfallFields(h: Heap, fs: seq<Field>, fuel: nat): nat
    decreases fuel, 1, |fs|
  {
    if fs == [] then 0
    else
      var f := fs[|fs| - 1];
      ShortfallFields(h, fs[..|fs| - 1], fuel)
      + if f.omitted then 0 else FieldShortfall(h, f) + Shortfall(h, f.value, fuel)
  }

  // ---------- What the preflight counts too much ----------

  function KeyOvercount(k: Key): nat { if k.StrKey? then 2 else 0 }

  function NameSize(f: Field): nat { |Quoted(if f.useOwn then f.ownName else f.name, true)| }

  function Written(fs: seq<Field>): nat {
    if fs == [] then 0 else Written(fs[..|fs| - 1]) + if fs[|fs| - 1].omitted then 0 else 1
  }

  function Separators(count: nat): nat { if count == 0 then 0 else count - 1 }

  lemma WrittenAtMost(fs: seq<Field>)
    ensures Written(fs) <= |fs|
  {
  }

  /** A true boolean, a float shorter than its bound, number text counted as a string, string keys counted
      with two more quotes, the longer of two names, and whatever belongs to a field that is omitted. */
  function Overcount(h: Heap, v: Value, fuel: nat): nat
    decreases fuel, 0, 0
  {
    if fuel == 0 then 0
    else match v
      case Bool(b) => if b then 1 else 0
      case NumberText(s) =>
        QuotedIsLonger(s);
        |Quoted(s, true)| - |NumberSpelling(s)|
      case Float(_, text) => 32 - |text|
      case Interface(node) => Overcount(h, h.one(node), fuel - 1)
      case Pointer(_, node) => Overcount(h, h.one(node), fuel - 1)
      case Array(node) => OvercountAll(h, h.many(node), fuel - 1)
      case Slice(_, node) => OvercountAll(h, h.many(node), fuel - 1)
      case Map(_, node, _) => OvercountEntries(h, h.entries(node), fuel - 1)
      case Struct(node) =>
        WrittenAtMost(h.fields(node));
        OvercountFields(h, h.fields(node), fuel - 1)
        + Separators(|h.fields(node)|) - Separators(Written(h.fields(node)))
      case _ => 0
  }

  function OvercountAll(h: Heap, vs: seq<Value>, fuel: nat): nat
    decreases fuel, 1, |vs|
  {
    if vs == [] then 0 else OvercountAll(h, vs[..|vs| - 1], fuel) + Overcount(h, vs[|vs| - 1], fuel)
  }

  function OvercountEntries(h: Heap, es: seq<Entry>, fuel: nat): nat
    decreases fuel, 1, |es|
  {
    if es == [] then 0
    else
      var e := es[|es| - 1];
      OvercountEntries(h, es[..|es| - 1], fuel) + KeyOvercount(e.key) + Overcount(h, e.value, fuel)
  }

  function OvercountField(h: Heap, f: Field, fuel: nat): nat
    decreases fuel, 1, 0
  {
    if f.omitted then CostField(h, f, fuel) else NameBytes(f) - NameSize(f) + Overcount(h, f.value, fuel)
  }

  function OvercountFields(h: Heap, fs: seq<Field>, fuel: nat): nat
    decreases fuel, 2, |fs|
  {
    if fs == [] then 0 else OvercountFields(h, fs[..|fs| - 1], fuel) + OvercountField(h, fs[|fs| - 1], fuel)
  }

  // ---------- The account ----------

  function Total(texts: seq<seq<byte>>): nat {
    if texts == [] then 0 else Total(texts[..|texts| - 1]) + |texts[|texts| - 1]|
  }

  lemma TotalMore(texts: seq<seq<byte>>, t: seq<byte>)
    ensures Total(texts + [t]) == Total(texts) + |t|
  {
    assert (texts + [t])[..|texts|] == texts;
  }

  lemma {:induction false} CommasLength(texts: seq<seq<byte>>)
    ensures |Commas(texts)| == Total(texts) + if texts == [] then 0 else |texts| - 1
  {
    if |texts| > 1 { CommasLength(texts[..|texts| - 1]); }
  }

  lemma {:induction false} QuotedIsLonger(s: seq<byte>)
    ensures |Body(s, true)| >= |s|
  {
    hide Escaped;
    if s != [] {
      QuotedIsLonger(s[Width(s)..]);
      EscapedIsLonger(s);
    }
  }

  lemma EscapedIsLonger(s: seq<byte>)
    requires s != []
    ensures |Escaped(s, true)| >= Width(s)
  {
    hide DecodeRune, Hex, IsShort, IsHtml;
    if s[0] < 0x80 { AsciiDecodes(s); }
  }

  /** A quoted field is exactly as long as the preflight thinks, but for the quotes and backslashes of a string. */
  lemma QuotedFieldSize(h: Heap, f: Field, fuel: nat)
    requires f.quoted && QuotedOk(h, f) && Encoded(h, f.value, fuel).Some?
    ensures var text := QuotedScalar(FieldValue(h, f));
            text.Some? &&
            |text.value| == |Encoded(h, f.value, fuel).value| + Extra(FieldValue(h, f)) + FieldShortfall(h, f)
  {
    hide Escapes, QuotesAndSlashes, Quoted, QuotedTwice, IntText;
    var v := FieldValue(h, f);
    var rest := if f.value.Pointer? then fuel - 1 else fuel;
    assert Encoded(h, v, rest) == Encoded(h, f.value, fuel);
    if v.Str? { QuotedTwiceSize(v.s); }
  }

  /** The size of the encoding, to the byte: what is counted, less what is counted too much, and what is
      counted too little. */
  lemma {:induction false} SizeAccount(h: Heap, v: Value, fuel: nat)
    requires WellTyped(h) && Encoded(h, v, fuel).Some?
    ensures |Encoded(h, v, fuel).value| + Overcount(h, v, fuel) == Cost(h, v, fuel) + Shortfall(h, v, fuel)
    decreases fuel, 0, 0
  {
    hide Commas, EncodedAll, EncodedEntries, EncodedFields, CostAll, CostEntries, CostFields, WellTyped, Base64, Body,
         IntText;
    hide ShortfallAll, ShortfallEntries, ShortfallFields, Total, OvercountAll, OvercountEntries, OvercountFields,
         Written;
    match v
    case NumberText(s) => QuotedIsLonger(s);
    case Interface(node) => SizeAccount(h, h.one(node), fuel - 1);
    case Pointer(_, node) => SizeAccount(h, h.one(node), fuel - 1);
    case Array(node) =>
      AllAccount(h, h.many(node), fuel - 1);
      CommasLength(EncodedAll(h, h.many(node), fuel - 1).value);
    case Slice(_, node) =>
      AllAccount(h, h.many(node), fuel - 1);
      CommasLength(EncodedAll(h, h.many(node), fuel - 1).value);
    case Map(_, node, _) =>
      EntriesAccount(h, h.entries(node), fuel - 1);
      CommasLength(EncodedEntries(h, h.entries(node), fuel - 1).value);
    case Struct(node) =>
      WrittenAtMost(h.fields(node));
      FieldsAccount(h, node, h.fields(node), fuel - 1);
      CommasLength(EncodedFields(h, h.fields(node), fuel - 1).value);
    case _ =>
  }

  lemma {:induction false} AllAccount(h: Heap, vs: seq<Value>, fuel: nat)
    requires WellTyped(h) && EncodedAll(h, vs, fuel).Some?
    ensures var texts := EncodedAll(h, vs, fuel).value;
            |texts| == |vs| &&
            Total(texts) + OvercountAll(h, vs, fuel) == CostAll(h, vs, fuel) + ShortfallAll(h, vs, fuel)
    decreases fuel, 1, |vs|
  {
    hide Encoded, Cost, Shortfall, Overcount, WellTyped;
    if vs != [] {
      var init, last := vs[..|vs| - 1], vs[|vs| - 1];
      AllAccount(h, init, fuel);
      SizeAccount(h, last, fuel);
      TotalMore(EncodedAll(h, init, fuel).value, Encoded(h, last, fuel).value);
    }
  }

  lemma {:induction false} EntriesAccount(h: Heap, es: seq<Entry>, fuel: nat)
    requires WellTyped(h) && EncodedEntries(h, es, fuel).Some?
    ensures var texts := EncodedEntries(h, es, fuel).value;
            |texts| == |es| &&
            Total(texts) + OvercountEntries(h, es, fuel) ==
            CostEntries(h, es, fuel) + 3 * |es| + ShortfallEntries(h, es, fuel)
    decreases fuel, 1, |es|
  {
    hide Encoded, Cost, Shortfall, Overcount, WellTyped, Quoted, IntText, KeyOvercount;
    if es != [] {
      var init, e := es[..|es| - 1], es[|es| - 1];
      EntriesAccount(h, init, fuel);
      SizeAccount(h, e.value, fuel);
      KeyCost(h, e.key, fuel);
      TotalMore(EncodedEntries(h, init, fuel).value, KeyText(e.key) + [0x3A] + Encoded(h, e.value, fuel).value);
    }
  }

  lemma KeyCost(h: Heap, k: Key, fuel: nat)
    ensures fuel > 0 ==> |KeyText(k)| + KeyOvercount(k) == Cost(h, KeyValue(k), fuel) + 2
    ensures fuel == 0 ==> forall v :: Encoded(h, v, fuel) == None
  {
    hide Quoted, IntText;
  }

  lemma {:induction false} FieldsAccount(h: Heap, node: nat, fs: seq<Field>, fuel: nat)
    requires WellTyped(h) && fs <= h.fields(node) && EncodedFields(h, fs, fuel).Some?
    ensures var texts := EncodedFields(h, fs, fuel).value;
            |texts| == Written(fs) &&
            Total(texts) + OvercountFields(h, fs, fuel) + Separators(|fs|) ==
            CostFields(h, fs, fuel) + ShortfallFields(h, fs, fuel)
    decreases fuel, 1, |fs|
  {
    hide Encoded, Cost, Shortfall, Overcount, EncodedField, CostField, FieldShortfall, QuotedOk, NameBytes, NameSize;
    if fs != [] {
      var init, f := fs[..|fs| - 1], fs[|fs| - 1];
      assert init <= h.fields(node) && f == h.fields(node)[|fs| - 1];
      FieldsAccount(h, node, init, fuel);
      if !f.omitted {
        FieldAccount(h, f, fuel);
        TotalMore(EncodedFields(h, init, fuel).value, EncodedField(h, f, fuel).value);
      }
    }
  }

  lemma {:induction false} FieldAccount(h: Heap, f: Field, fuel: nat)
    requires WellTyped(h) && QuotedOk(h, f) && EncodedField(h, f, fuel).Some? && !f.omitted
    ensures |EncodedField(h, f, fuel).value| + OvercountField(h, f, fuel) ==
            CostField(h, f, fuel) + FieldShortfall(h, f) + Shortfall(h, f.value, fuel)
    decreases fuel, 0, 1
  {
    hide Encoded, Cost, Shortfall, Overcount, Quoted, FieldShortfall, QuotedScalar, Extra, FieldValue, WellTyped;
    if f.quoted {
      QuotedFieldSize(h, f, fuel);
    } else {
      NoShortfall(h, f);
    }
    SizeAccount(h, f.value, fuel);
  }

  lemma NoShortfall(h: Heap, f: Field)
    requires !f.quoted
    ensures FieldShortfall(h, f) == 0
  {
  }

  /** The count is enough for a value's encoding if and only if what it counts too little, it makes up for
      by what it counts too much. */
  lemma CountIsEnoughIff(h: Heap, v: Value, fuel: nat)
    requires WellTyped(h) && Encoded(h, v, fuel).Some?
    ensures |Encoded(h, v, fuel).value| <= Cost(h, v, fuel) <==> Shortfall(h, v, fuel) <= Overcount(h, v, fuel)
  {
    hide Encoded, Cost, Shortfall, Overcount, WellTyped;
    SizeAccount(h, v, fuel);
  }

  /** In any case the encoding exceeds the count by no more than what is counted too little. */
  lemma WithinCost(h: Heap, v: Value, fuel: nat)
    requires WellTyped(h) && Encoded(h, v, fuel).Some?
    ensures |Encoded(h, v, fuel).value| <= Cost(h, v, fuel) + Shortfall(h, v, fuel)
  {
    hide Encoded, Cost, Shortfall, Overcount, WellTyped;
    SizeAccount(h, v, fuel);
  }

  /** No quoted string field holds a quote or a backslash. */
  ghost predicate QuotedPlainly(h: Heap) {
    forall n, i :: 0 <= i < |h.fields(n)| && h.fields(n)[i].quoted && FieldValue(h, h.fields(n)[i]).Str? ==>
                     QuotesAndSlashes(FieldValue(h, h.fields(n)[i]).s) == 0
  }

  /** Without such fields nothing is counted too little, and the count is always enough. */
  lemma PlainlyQuotedFits(h: Heap, v: Value, fuel: nat)
    requires WellTyped(h) && Encoded(h, v, fuel).Some? && QuotedPlainly(h)
    ensures |Encoded(h, v, fuel).value| <= Cost(h, v, fuel)
  {
    hide Encoded, Cost, Shortfall, Overcount, WellTyped, QuotedPlainly;
    PlainShortfall(h, v, fuel);
    CountIsEnoughIff(h, v, fuel);
  }

  lemma {:induction false} PlainShortfall(h: Heap, v: Value, fuel: nat)
    requires QuotedPlainly(h)
    ensures Shortfall(h, v, fuel) == 0
    decreases fuel, 0, 0
  {
    hide QuotedPlainly, ShortfallAll, ShortfallEntries, ShortfallFields;
    if fuel > 0 {
      match v
      case Interface(node) => PlainShortfall(h, h.one(node), fuel - 1);
      case Pointer(_, node) => PlainShortfall(h, h.one(node), fuel - 1);
      case Array(node) => PlainShortfallAll(h, h.many(node), fuel - 1);
      case Slice(_, node) => PlainShortfallAll(h, h.many(node), fuel - 1);
      case Map(_, node, _) => PlainShortfallEntries(h, h.entries(node), fuel - 1);
      case Struct(node) => PlainShortfallFields(h, node, h.fields(node), fuel - 1);
      case _ =>
    }
  }

  lemma {:induction false} PlainShortfallAll(h: Heap, vs: seq<Value>, fuel: nat)
    requires QuotedPlainly(h)
    ensures ShortfallAll(h, vs, fuel) == 0
    decreases fuel, 1, |vs|
  {
    hide QuotedPlainly, Shortfall;
    if vs != [] {
      PlainShortfallAll(h, vs[..|vs| - 1], fuel);
      PlainShortfall(h, vs[|vs| - 1], fuel);
    }
  }

  lemma {:induction false} PlainShortfallEntries(h: Heap, es: seq<Entry>, fuel: nat)
    requires QuotedPlainly(h)
    ensures ShortfallEntries(h, es, fuel) == 0
    decreases fuel, 1, |es|
  {
    hide QuotedPlainly, Shortfall;
    if es != [] {
      PlainShortfallEntries(h, es[..|es| - 1], fuel);
      PlainShortfall(h, es[|es| - 1].value, fuel);
    }
  }

  lemma {:induction false} PlainShortfallFields(h: Heap, node: nat, fs: seq<Field>, fuel: nat)
    requires QuotedPlainly(h) && fs <= h.fields(node)
    ensures ShortfallFields(h, fs, fuel) == 0
    decreases fuel, 1, |fs|
  {
    hide Shortfall, FieldValue, QuotesAndSlashes;
    if fs != [] {
      assert fs[|fs| - 1] == h.fields(node)[|fs| - 1];
      PlainShortfallFields(h, node, fs[..|fs| - 1], fuel);
      PlainShortfall(h, fs[|fs| - 1].value, fuel);
    }
  }

  // ---------- Step by step ----------

  lemma AllStep(h: Heap, vs: seq<Value>, i: nat, fuel: nat)
    requires i < |vs|
    ensures CostAll(h, vs[..i + 1], fuel) == CostAll(h, vs[..i], fuel) + Cost(h, vs[i], fuel)
  {
    hide Cost;
    assert vs[..i + 1][..i] == vs[..i];
  }

  lemma EntriesStep(h: Heap, es: seq<Entry>, i: nat, fuel: nat)
    requires i < |es|
    ensures CostEntries(h, es[..i + 1], fuel) ==
            CostEntries(h, es[..i], fuel) + Cost(h, KeyValue(es[i].key), fuel) + Cost(h, es[i].value, fuel)
    ensures EntryValues(es[..i + 1]) == EntryValues(es[..i]) + [KeyValue(es[i].key), es[i].value]
  {
    hide Cost;
    assert es[..i + 1][..i] == es[..i];
  }

  lemma FieldsStep(h: Heap, fs: seq<Field>, i: nat, fuel: nat)
    requires i < |fs|
    ensures EncodedFields(h, fs[..i + 1], fuel) ==
            if fs[i].omitted then EncodedFields(h, fs[..i], fuel)
            else Both(EncodedFields(h, fs[..i], fuel), EncodedField(h, fs[i], fuel))
    ensures CostFields(h, fs[..i + 1], fuel) ==
            CostFields(h, fs[..i], fuel) + (if i > 0 then 1 else 0) + CostField(h, fs[i], fuel)
  {
    hide EncodedField, CostField;
    assert fs[..i + 1][..i] == fs[..i];
  }

  lemma NothingCosts(h: Heap, fuel: nat)
    ensures CostAll(h, [], fuel) == 0 && CostEntries(h, [], fuel) == 0 && EntryValues([]) == []
    ensures EncodedFields(h, [], fuel) == Some([]) && CostFields(h, [], fuel) == 0
  {
  }

  // ---------- One quoted string ----------

  /** For one quoted string field the predicted size is enough exactly if the string has neither quotes
      nor backslashes. */
  lemma QuotedSizeIsEnoughIff(s: seq<byte>)
    ensures |QuotedTwice(s)| <= |Quoted(s, true)| + Extra(Str(s))
            <==> forall i :: 0 <= i < |s| ==> s[i] != 0x22 && s[i] != 0x5C
  {
    hide Quoted, QuotedTwice, Escapes;
    QuotedTwiceSize(s);
    NoneCounted(s);
  }

  /** So the sum can be less than the encoding: a struct whose one field, a quoted string, is a quote. */
  lemma SumFallsShort(h: Heap, fuel: nat)
    requires fuel > 1 && h.fields(0) == [Field([0x41], [0x41], false, true, false, false, Str([0x22]))]
    ensures Encoded(h, Struct(0), fuel).Some?
    ensures |Encoded(h, Struct(0), fuel).value| == Cost(h, Struct(0), fuel) + 1
  {
    hide Quoted, QuotedTwice, Escapes, QuotesAndSlashes;
    var f := Field([0x41], [0x41], false, true, false, false, Str([0x22]));
    var fs := h.fields(0);
    assert fs[..0] == [] && fs[..1] == fs;
    NothingCosts(h, fuel - 1);
    FieldsStep(h, fs, 0, fuel - 1);
    QuotedTwiceSize([0x22]);
    QuoteCounts();
    var name := Quoted([0x41], true);
    var text := QuotedTwice([0x22]);
    assert EncodedField(h, f, fuel - 1) == Some(name + [0x3A] + text);
    assert EncodedFields(h, fs, fuel - 1) == Some([] + [name + [0x3A] + text]);
    CommasLength([] + [name + [0x3A] + text]);
    TotalMore([], name + [0x3A] + text);
  }
}
