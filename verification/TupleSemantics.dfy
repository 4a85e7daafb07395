/** The Go fragment that a multi-target assignment is made of, with an aliasing memory model.
    Pointers and slices name places, so two targets may overlap in any way Go allows. */
module TupleSemantics {

  // ---------- Syntax ----------

  /** What the type checker knows of an operand, as far as the lowering asks. */
  datatype TypeKind = Pointer(toArray: bool) | MapOrSlice | Other

  datatype OperandKind = PtrOperand | BaseOperand | KeyOperand

  /** Generated names carry a prefix no source identifier has, so they live apart from Ident. */
  datatype Temp = Operand(kind: OperandKind, n: nat) | Result(i: nat)

  datatype Expr =
    | Ident(name: string, ty: TypeKind)
    | Tmp(id: Temp, ty: TypeKind)
    | Lit(n: int)
    | Paren(x: Expr)
    | Star(x: Expr, ty: TypeKind)
      // hops: the embedded pointer fields a promoted selector crosses implicitly
    | Selector(x: Expr, hops: seq<string>, sel: string, ty: TypeKind)
    | Index(x: Expr, i: Expr, ty: TypeKind)
    | Call(f: string, args: seq<Expr>, ty: TypeKind)

  /** Either one expression per target, or one operation yielding a value for each target. */
  datatype Rhs = Exprs(es: seq<Expr>) | Multi(f: string, args: seq<Expr>)

  datatype Stmt =
    | Define(ids: seq<Temp>, rhs: Rhs)
    | Assign(target: Expr, value: Expr)

  function TypeOf(e: Expr): TypeKind {
    match e
    case Lit(_) => Other
    case Paren(x) => TypeOf(x)
    case _ => e.ty
  }

  function Unparen(e: Expr): Expr {
    if e.Paren? then Unparen(e.x) else e
  }

  // ---------- Memory ----------

  datatype Root = Var(name: string) | Cell(id: int)
  datatype Step = Field(name: string) | At(key: Value)
  datatype Place = Base(root: Root) | Part(of: Place, step: Step)
  datatype Value =
    | Scalar(n: int)
    | Aggregate(parts: map<Step, Value>)
    | Ptr(to: Place)
    | Slice(backing: Place, off: int)

  datatype Event = Called(f: string, args: seq<Value>) | CalledMulti(f: string, args: seq<Value>)
  datatype World = World(mem: Memory, trace: seq<Event>)
  type Temps = map<Temp, Value>

  type Memory = imap<Root, Value>

  /** An arbitrary meaning for every call: what it returns, and what it does to memory. An operation
      with several results is never an operand, so the two kinds have separate meanings. */
  datatype Calls = Calls(
    result: (string, seq<Value>, Memory) -> Value,
    effect: (string, seq<Value>, Memory) -> Memory,
    results: (string, seq<Value>, Memory, nat) -> Value,
    effects: (string, seq<Value>, Memory) -> Memory)

  ghost function GetPart(v: Value, s: Step): Value {
    if v.Aggregate? then (if s in v.parts then v.parts[s] else Scalar(0)) else v
  }

  ghost function SetPart(v: Value, s: Step, x: Value): Value {
    Aggregate((if v.Aggregate? then v.parts else map[])[s := x])
  }

  ghost function Load(mem: Memory, p: Place): Value {
    match p
    case Base(r) => if r in mem then mem[r] else Scalar(0)
    case Part(q, s) => GetPart(Load(mem, q), s)
  }

  ghost function Store(mem: Memory, p: Place, v: Value): Memory {
    match p
    case Base(r) => mem[r := v]
    case Part(q, s) => Store(mem, q, SetPart(Load(mem, q), s, v))
  }

  /** The place a pointer names. */
  ghost function Pointee(v: Value): Place {
    match v
    case Ptr(p) => p
    case Slice(a, _) => a
    case Scalar(n) => Base(Cell(n))
    case Aggregate(_) => Base(Cell(0))
  }

  /** The element a map, a slice or a pointer to an array names under a key. */
  ghost function Element(v: Value, key: Value): Place {
    if v.Slice? && key.Scalar? then Part(v.backing, At(Scalar(v.off + key.n)))
    else Part(Pointee(v), At(key))
  }

  /** Implicit indirections of a promoted selector, read from memory one after the other. */
  ghost function HopPlace(mem: Memory, p: Place, hops: seq<string>): Place
    decreases |hops|
  {
    if hops == [] then p
    else HopPlace(mem, Pointee(Load(mem, Part(p, Field(hops[0])))), hops[1..])
  }

  ghost function HopValue(mem: Memory, v: Value, hops: seq<string>): Value
    decreases |hops|
  {
    if hops == [] then v
    else HopValue(mem, Load(mem, Pointee(GetPart(v, Field(hops[0])))), hops[1..])
  }

  // ---------- Evaluation, left to right ----------

  predicate IsPointer(e: Expr) { TypeOf(e).Pointer? }

  predicate IsReference(e: Expr) {
    TypeOf(e).MapOrSlice? || (TypeOf(e).Pointer? && TypeOf(e).toArray)
  }

  ghost function Eval(cs: Calls, e: Expr, temps: Temps, w: World): (Value, World)
    decreases e, 1
  {
    match e
    case Ident(name, _) => (Load(w.mem, Base(Var(name))), w)
    case Tmp(id, _) => (if id in temps then temps[id] else Scalar(0), w)
    case Lit(n) => (Scalar(n), w)
    case Paren(x) => Eval(cs, x, temps, w)
    case Star(x, _) =>
      var (v, w1) := Eval(cs, x, temps, w);
      (Load(w1.mem, Pointee(v)), w1)
    case Selector(x, hops, sel, _) =>
      var (v, w1) := Eval(cs, x, temps, w);
      var base := if IsPointer(x) then Load(w1.mem, Pointee(v)) else v;
      (GetPart(HopValue(w1.mem, base, hops), Field(sel)), w1)
    case Index(x, i, _) =>
      var (v, w1) := Eval(cs, x, temps, w);
      var (k, w2) := Eval(cs, i, temps, w1);
      (if IsReference(x) then Load(w2.mem, Element(v, k)) else GetPart(v, At(k)), w2)
    case Call(f, args, _) =>
      var (vs, w1) := EvalList(cs, args, temps, w);
      (cs.result(f, vs, w1.mem), World(cs.effect(f, vs, w1.mem), w1.trace + [Called(f, vs)]))
  }

  ghost function EvalList(cs: Calls, es: seq<Expr>, temps: Temps, w: World): (r: (seq<Value>, World))
    ensures |r.0| == |es|
    decreases es, 0
  {
    if es == [] then ([], w)
    else
      var (v, w1) := Eval(cs, es[0], temps, w);
      var (vs, w2) := EvalList(cs, es[1..], temps, w1);
      ([v] + vs, w2)
  }

  ghost function EvalRhs(cs: Calls, rhs: Rhs, count: nat, temps: Temps, w: World): (seq<Value>, World) {
    match rhs
    case Exprs(es) => EvalList(cs, es, temps, w)
    case Multi(f, args) =>
      var (vs, w1) := EvalList(cs, args, temps, w);
      (seq(count, i requires 0 <= i => cs.results(f, vs, w1.mem, i)),
       World(cs.effects(f, vs, w1.mem), w1.trace + [CalledMulti(f, vs)]))
  }

  /** The place a target denotes: evaluates the operands of its index expressions and pointer
      indirections, and nothing else. */
  ghost function PlaceOf(cs: Calls, t: Expr, temps: Temps, w: World): (Place, World) {
    match t
    case Ident(name, _) => (Base(Var(name)), w)
    case Paren(x) => PlaceOf(cs, x, temps, w)
    case Star(x, _) =>
      var (v, w1) := Eval(cs, x, temps, w);
      (Pointee(v), w1)
    case Selector(x, hops, sel, _) =>
      var (p, w1) := if IsPointer(x) then var (v, w1) := Eval(cs, x, temps, w); (Pointee(v), w1)
                     else PlaceOf(cs, x, temps, w);
      (Part(HopPlace(w1.mem, p, hops), Field(sel)), w1)
    case Index(x, i, _) =>
      if IsReference(x) then
        var (v, w1) := Eval(cs, x, temps, w);
        var (k, w2) := Eval(cs, i, temps, w1);
        (Element(v, k), w2)
      else
        var (p, w1) := PlaceOf(cs, x, temps, w);
        var (k, w2) := Eval(cs, i, temps, w1);
        (Part(p, At(k)), w2)
    case _ =>
      var (v, w1) := Eval(cs, t, temps, w);
      (Pointee(v), w1)
  }

  ghost function PlacesOf(cs: Calls, ts: seq<Expr>, temps: Temps, w: World): (r: (seq<Place>, World))
    ensures |r.0| == |ts|
  {
    if ts == [] then ([], w)
    else
      var (p, w1) := PlaceOf(cs, ts[0], temps, w);
      var (ps, w2) := PlacesOf(cs, ts[1..], temps, w1);
      ([p] + ps, w2)
  }

  ghost function StoreAll(ps: seq<Place>, vs: seq<Value>, w: World): World
    requires |ps| == |vs|
  {
    if ps == [] then w
    else StoreAll(ps[1..], vs[1..], w.(mem := Store(w.mem, ps[0], vs[0])))
  }

  /** Section "Assignment statements" of the Go specification: first the operands of the targets
      and the right-hand side, in source order; then the stores, left to right. */
  ghost function TwoPhase(cs: Calls, lhs: seq<Expr>, rhs: Rhs, w: World): World
    requires RhsFits(rhs, |lhs|)
  {
    var (ps, w1) := PlacesOf(cs, lhs, map[], w);
    var (vs, w2) := EvalRhs(cs, rhs, |lhs|, map[], w1);
    StoreAll(ps, vs, w2)
  }

  predicate RhsFits(rhs: Rhs, count: nat) {
    rhs.Exprs? ==> |rhs.es| == count
  }

  // ---------- Statements ----------

  ghost function BindAll(temps: Temps, ids: seq<Temp>, vs: seq<Value>): Temps
    decreases |ids|
  {
    if ids == [] || vs == [] then temps
    else BindAll(temps[ids[0] := vs[0]], ids[1..], vs[1..])
  }

  ghost function Run(cs: Calls, s: Stmt, temps: Temps, w: World): (Temps, World) {
    match s
    case Define(ids, rhs) =>
      var (vs, w1) := EvalRhs(cs, rhs, |ids|, temps, w);
      (BindAll(temps, ids, vs), w1)
    case Assign(target, value) =>
      var (p, w1) := PlaceOf(cs, target, temps, w);
      var (v, w2) := Eval(cs, value, temps, w1);
      (temps, w2.(mem := Store(w2.mem, p, v)))
  }

  ghost function RunAll(cs: Calls, ss: seq<Stmt>, temps: Temps, w: World): (Temps, World) {
    if ss == [] then (temps, w)
    else
      var (t1, w1) := Run(cs, ss[0], temps, w);
      RunAll(cs, ss[1..], t1, w1)
  }

  // ---------- Source programs ----------

  /** Written by the programmer: holds no generated name. */
  predicate Source(e: Expr)
    decreases e, 1
  {
    match e
    case Ident(_, _) => true
    case Tmp(_, _) => false
    case Lit(_) => true
    case Paren(x) => Source(x)
    case Star(x, _) => Source(x)
    case Selector(x, _, _, _) => Source(x)
    case Index(x, i, _) => Source(x) && Source(i)
    case Call(_, args, _) => SourceList(args)
  }

  predicate SourceList(es: seq<Expr>)
    decreases es, 0
  {
    es == [] || (Source(es[0]) && SourceList(es[1..]))
  }

  predicate SourceRhs(rhs: Rhs) {
    match rhs
    case Exprs(es) => SourceList(es)
    case Multi(_, args) => SourceList(args)
  }

  /** Source code cannot see a generated name. */
  lemma {:induction false} EvalIgnoresTemps(cs: Calls, e: Expr, t1: Temps, t2: Temps, w: World)
    requires Source(e)
    ensures Eval(cs, e, t1, w) == Eval(cs, e, t2, w)
    decreases e, 1
  {
    match e
    case Ident(_, _) =>
    case Lit(_) =>
    case Paren(x) => EvalIgnoresTemps(cs, x, t1, t2, w);
    case Star(x, _) => EvalIgnoresTemps(cs, x, t1, t2, w);
    case Selector(x, _, _, _) => EvalIgnoresTemps(cs, x, t1, t2, w);
    case Index(x, i, _) =>
      EvalIgnoresTemps(cs, x, t1, t2, w);
      EvalIgnoresTemps(cs, i, t1, t2, Eval(cs, x, t1, w).1);
    case Call(_, args, _) => EvalListIgnoresTemps(cs, args, t1, t2, w);
  }

  lemma {:induction false} EvalListIgnoresTemps(cs: Calls, es: seq<Expr>, t1: Temps, t2: Temps, w: World)
    requires SourceList(es)
    ensures EvalList(cs, es, t1, w) == EvalList(cs, es, t2, w)
    decreases es, 0
  {
    if es != [] {
      EvalIgnoresTemps(cs, es[0], t1, t2, w);
      EvalListIgnoresTemps(cs, es[1..], t1, t2, Eval(cs, es[0], t1, w).1);
    }
  }

  lemma {:induction false} PlaceIgnoresTemps(cs: Calls, t: Expr, t1: Temps, t2: Temps, w: World)
    requires Source(t)
    ensures PlaceOf(cs, t, t1, w) == PlaceOf(cs, t, t2, w)
  {
    match t
    case Ident(_, _) =>
    case Paren(x) => PlaceIgnoresTemps(cs, x, t1, t2, w);
    case Star(x, _) => EvalIgnoresTemps(cs, x, t1, t2, w);
    case Selector(x, _, _, _) =>
      if IsPointer(x) { EvalIgnoresTemps(cs, x, t1, t2, w); } else { PlaceIgnoresTemps(cs, x, t1, t2, w); }
    case Index(x, i, _) =>
      if IsReference(x) {
        EvalIgnoresTemps(cs, x, t1, t2, w);
        EvalIgnoresTemps(cs, i, t1, t2, Eval(cs, x, t1, w).1);
      } else {
        PlaceIgnoresTemps(cs, x, t1, t2, w);
        EvalIgnoresTemps(cs, i, t1, t2, PlaceOf(cs, x, t1, w).1);
      }
    case _ => EvalIgnoresTemps(cs, t, t1, t2, w);
  }

  lemma {:induction false} RunAppend(cs: Calls, a: seq<Stmt>, b: seq<Stmt>, temps: Temps, w: World)
    ensures RunAll(cs, a + b, temps, w) ==
            var (t1, w1) := RunAll(cs, a, temps, w);
            RunAll(cs, b, t1, w1)
  {
    if a == [] {
      assert a + b == b;
    } else {
      assert (a + b)[0] == a[0] && (a + b)[1..] == a[1..] + b;
      var (t1, w1) := Run(cs, a[0], temps, w);
      RunAppend(cs, a[1..], b, t1, w1);
    }
  }
}
