/** Values that can be written as JSON, and their encoding (expand/object.go). Values refer to each other
    through a heap, so they may share and may be cyclic. */
module JsonValue {
  import opened Common
  import opened JsonNumber
  import opened JsonString
  import opened Utf8

  // ---------- Values ----------

  /** The spelling of a finite number in floating point; the encoder's longest is shorter than this. */
  type FloatText = s: seq<byte> | |s| <= 32 witness []

  /** What identifies a pointer, slice or map on the path to a value. */
  datatype Visit = Visit(typ: nat, ptr: nat)

  /** Refused stands for every kind and every type that is turned away at sight, Null for every nil. */
  datatype Value =
    | Null
    | Bool(b: bool)
    | Int(n: int)
    | Str(s: seq<byte>)
    | NumberText(s: seq<byte>)
    | Float(finite: bool, text: FloatText)
    | Refused
    | Interface(node: nat)
    | Pointer(vis: Visit, node: nat)
    | Array(node: nat)
    | Slice(vis: Visit, node: nat)
    | Bytes(vis: Visit, data: seq<byte>)
    | Map(vis: Visit, node: nat, validKey: bool)
    | Struct(node: nat)

  datatype Key = StrKey(s: seq<byte>) | IntKey(n: int)

  datatype Entry = Entry(key: Key, value: Value)

  /** A reachable struct field: its tag's name or, where the encoder rejects that, its own; whether the tag
      quotes it; whether the encoder omits it; whether omitting it would call a method. */
  datatype Field = Field(name: seq<byte>, ownName: seq<byte>, useOwn: bool, quoted: bool, omitted: bool,
                         zeroMethod: bool, value: Value)

  datatype Heap = Heap(one: nat -> Value, many: nat -> seq<Value>, entries: nat -> seq<Entry>,
                       fields: nat -> seq<Field>)

  predicate IsScalar(v: Value) { v.Bool? || v.Int? || v.Float? || v.Str? || v.NumberText? }

  /** The string option is honoured for scalars and for pointers to them. */
  predicate QuotedOk(h: Heap, f: Field) {
    f.quoted ==> f.value == Null || IsScalar(f.value) || (f.value.Pointer? && IsScalar(h.one(f.value.node)))
  }

  ghost predicate WellTyped(h: Heap) {
    forall n, i :: 0 <= i < |h.fields(n)| ==> QuotedOk(h, h.fields(n)[i])
  }

  // ---------- The encoding ----------

  const NULL_TEXT: seq<byte> := [0x6E, 0x75, 0x6C, 0x6C]
  const TRUE_TEXT: seq<byte> := [0x74, 0x72, 0x75, 0x65]
  const FALSE_TEXT: seq<byte> := [0x66, 0x61, 0x6C, 0x73, 0x65]

  /** Digits as bytes. */
  function Ascii(digits: string): (r: seq<byte>)
    requires forall i :: 0 <= i < |digits| ==> '0' <= digits[i] <= '9'
    ensures |r| == |digits|
  {
    seq(|digits|, i requires 0 <= i < |digits| => digits[i] as int as byte)
  }

  function IntText(n: int): seq<byte> { if n < 0 then [0x2D] + Ascii(Digits(-n)) else Ascii(Digits(n)) }

  /** A base64 digit. */
  function Sextet(b: byte): byte {
    var k := b & 0x3F;
    if k < 26 then 0x41 + k else if k < 52 then 0x61 + (k - 26) else if k < 62 then 0x30 + (k - 52)
    else if k == 62 then 0x2B else 0x2F
  }

  function Base64(d: seq<byte>): (r: seq<byte>)
    ensures |r| == 4 * ((|d| + 2) / 3)
  {
    if d == [] then []
    else if |d| == 1 then [Sextet(d[0] >> 2), Sextet(d[0] << 4), 0x3D, 0x3D]
    else if |d| == 2 then
      [Sextet(d[0] >> 2), Sextet((d[0] << 4) | (d[1] >> 4)), Sextet(d[1] << 2), 0x3D]
    else
      [Sextet(d[0] >> 2), Sextet((d[0] << 4) | (d[1] >> 4)), Sextet((d[1] << 2) | (d[2] >> 6)), Sextet(d[2])]
      + Base64(d[3..])
  }

  function Commas(texts: seq<seq<byte>>): seq<byte> {
    if texts == [] then []
    else if |texts| == 1 then texts[0]
    else Commas(texts[..|texts| - 1]) + [0x2C] + texts[|texts| - 1]
  }

  function KeyText(k: Key): seq<byte> {
    match k
    case StrKey(s) => Quoted(s, true)
    case IntKey(n) => [0x22] + IntText(n) + [0x22]
  }

  function NumberSpelling(s: seq<byte>): seq<byte> { if s == [] then [0x30] else s }

  /** Number text that is no number literal has no encoding. */
  predicate SpellsNumber(s: seq<byte>) { ScansAsNumber(NumberSpelling(s)) }

  /** A quoted scalar. */
  function QuotedScalar(v: Value): Option<seq<byte>> {
    match v
    case Str(s) => Some(QuotedTwice(s))
    case Bool(b) => Some([0x22] + (if b then TRUE_TEXT else FALSE_TEXT) + [0x22])
    case Int(n) => Some([0x22] + IntText(n) + [0x22])
    case NumberText(s) => if SpellsNumber(s) then Some([0x22] + NumberSpelling(s) + [0x22]) else None
    case Float(finite, text) => if finite then Some([0x22] + text + [0x22]) else None
    case Null => Some(NULL_TEXT)
    case _ => None
  }

  /** The encoding, for values whose nesting the fuel covers. */
  function Encoded(h: Heap, v: Value, fuel: nat): Option<seq<byte>>
    decreases fuel, 0, 0
  {
    if fuel == 0 then None
    else match v
      case Null => Some(NULL_TEXT)
      case Bool(b) => Some(if b then TRUE_TEXT else FALSE_TEXT)
      case Int(n) => Some(IntText(n))
      case Str(s) => Some(Quoted(s, true))
      case NumberText(s) => if SpellsNumber(s) then Some(NumberSpelling(s)) else None
      case Float(finite, text) => if finite then Some(text) else None
      case Refused => None
      case Interface(node) => Encoded(h, h.one(node), fuel - 1)
      case Pointer(_, node) => Encoded(h, h.one(node), fuel - 1)
      case Array(node) => Bracketed(0x5B, EncodedAll(h, h.many(node), fuel - 1), 0x5D)
      case Slice(_, node) => Bracketed(0x5B, EncodedAll(h, h.many(node), fuel - 1), 0x5D)
      case Bytes(_, data) => Some([0x22] + Base64(data) + [0x22])
      case Map(_, node, validKey) =>
        if validKey then Bracketed(0x7B, EncodedEntries(h, h.entries(node), fuel - 1), 0x7D) else None
      case Struct(node) => Bracketed(0x7B, EncodedFields(h, h.fields(node), fuel - 1), 0x7D)
  }

  function Bracketed(open: byte, texts: Option<seq<seq<byte>>>, close: byte): Option<seq<byte>> {
    if texts == None then None else Some([open] + Commas(texts.value) + [close])
  }

  function EncodedAll(h: Heap, vs: seq<Value>, fuel: nat): Option<seq<seq<byte>>>
    decreases fuel, 1, |vs|
  {
    if vs == [] then Some([])
    else Both(EncodedAll(h, vs[..|vs| - 1], fuel), Encoded(h, vs[|vs| - 1], fuel))
  }

  function Both(texts: Option<seq<seq<byte>>>, text: Option<seq<byte>>): Option<seq<seq<byte>>> {
    if texts == None || text == None then None else Some(texts.value + [text.value])
  }

  function Prefixed(name: seq<byte>, text: Option<seq<byte>>): Option<seq<byte>> {
    if text == None then None else Some(name + [0x3A] + text.value)
  }

  function EncodedEntries(h: Heap, es: seq<Entry>, fuel: nat): Option<seq<seq<byte>>>
    decreases fuel, 1, |es|
  {
    if es == [] then Some([])
    else
      var e := es[|es| - 1];
      Both(EncodedEntries(h, es[..|es| - 1], fuel), Prefixed(KeyText(e.key), Encoded(h, e.value, fuel)))
  }

  function FieldValue(h: Heap, f: Field): Value {
    if f.value.Pointer? then h.one(f.value.node) else f.value
  }

  function EncodedField(h: Heap, f: Field, fuel: nat): Option<seq<byte>>
    decreases fuel, 1, 0
  {
    var text := Encoded(h, f.value, fuel);
    Prefixed(Quoted(if f.useOwn then f.ownName else f.name, true),
             if f.quoted && text.Some? then QuotedScalar(FieldValue(h, f)) else text)
  }

  function EncodedFields(h: Heap, fs: seq<Field>, fuel: nat): Option<seq<seq<byte>>>
    decreases fuel, 2, |fs|
  {
    if fs == [] then Some([])
    else
      var init, f := EncodedFields(h, fs[..|fs| - 1], fuel), fs[|fs| - 1];
      if f.omitted then init else Both(init, EncodedField(h, f, fuel))
  }

  // ---------- Cycles ----------

  function KeyValue(k: Key): Value {
    match k
    case StrKey(s) => Str(s)
    case IntKey(n) => Int(n)
  }

  function EntryValues(es: seq<Entry>): (r: seq<Value>)
    ensures |r| == 2 * |es|
  {
    if es == [] then []
    else EntryValues(es[..|es| - 1]) + [KeyValue(es[|es| - 1].key), es[|es| - 1].value]
  }

  function FieldValues(fs: seq<Field>): (r: seq<Value>)
    ensures |r| == |fs| && forall i :: 0 <= i < |fs| ==> r[i] == fs[i].value
  {
    seq(|fs|, i requires 0 <= i < |fs| => fs[i].value)
  }

  /** The values one step further down. */
  function Children(h: Heap, v: Value): seq<Value> {
    match v
    case Interface(node) => [h.one(node)]
    case Pointer(_, node) => [h.one(node)]
    case Array(node) => h.many(node)
    case Slice(_, node) => h.many(node)
    case Map(_, node, _) => EntryValues(h.entries(node))
    case Struct(node) => FieldValues(h.fields(node))
    case _ => []
  }

  function Visits(v: Value): set<Visit> {
    if v.Pointer? || v.Slice? || v.Bytes? || v.Map? then {v.vis} else {}
  }

  /** Nothing on the way down, within the depth left, is met a second time or was seen before. */
  ghost predicate Unfolds(h: Heap, v: Value, seen: set<Visit>, fuel: nat)
    decreases fuel
  {
    fuel > 0 && Visits(v) !! seen &&
    forall i :: 0 <= i < |Children(h, v)| ==> Unfolds(h, Children(h, v)[i], seen + Visits(v), fuel - 1)
  }

  predicate IsPath(h: Heap, path: seq<Value>) {
    path != [] && forall i :: 0 < i < |path| ==> path[i] in Children(h, path[i - 1])
  }

  /** No pointer, slice or map is met again below itself on any path down, and no path is too deep. */
  lemma {:induction false} UnfoldsMeansAcyclic(h: Heap, v: Value, seen: set<Visit>, fuel: nat, path: seq<Value>)
    requires Unfolds(h, v, seen, fuel) && IsPath(h, path) && path[0] == v
    ensures |path| <= fuel
    ensures forall j :: 0 <= j < |path| ==> Visits(path[j]) !! seen
    ensures forall i, j :: 0 <= i < j < |path| ==> Visits(path[i]) !! Visits(path[j])
    decreases fuel
  {
    hide Children;
    if |path| > 1 {
      var rest := path[1..];
      assert forall i :: 0 < i < |rest| ==> rest[i] == path[i + 1] && rest[i - 1] == path[i];
      assert rest[0] == path[1] && path[1] in Children(h, path[0]);
      var k :| 0 <= k < |Children(h, v)| && Children(h, v)[k] == rest[0];
      UnfoldsMeansAcyclic(h, rest[0], seen + Visits(v), fuel - 1, rest);
      assert forall j :: 0 < j < |path| ==> path[j] == rest[j - 1];
    }
  }
}
