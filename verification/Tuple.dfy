/** The lowering of a multi-target `=` into single assignments (gosource/tuple.go), and its
    agreement with Go's two-phase assignment. */
module Tuple {
  import opened TupleSemantics

  // ---------- The lowering as a function ----------

  /** A rewritten target, the statements that bind its operands, and the next free number. */
  datatype Capture = Capture(target: Expr, binds: seq<Stmt>, next: nat)

  function Bind(e: Expr, kind: OperandKind, n: nat): (Expr, Stmt) {
    (Tmp(Operand(kind, n), TypeOf(e)), Define([Operand(kind, n)], Exprs([e])))
  }

  function CaptureOf(t: Expr, n: nat): Capture {
    match t
    case Star(x, ty) =>
      var (id, s) := Bind(x, PtrOperand, n);
      Capture(Star(id, ty), [s], n + 1)
    case Selector(x, hops, sel, ty) =>
      if IsPointer(x) then
        var (id, s) := Bind(x, BaseOperand, n);
        Capture(Selector(id, hops, sel, ty), [s], n + 1)
      else
        var c := CaptureOf(x, n);
        Capture(Selector(c.target, hops, sel, ty), c.binds, c.next)
    case Index(x, i, ty) =>
      if IsReference(x) then
        var (base, s0) := Bind(x, BaseOperand, n);
        var (key, s1) := Bind(i, KeyOperand, n + 1);
        Capture(Index(base, key, ty), [s0, s1], n + 2)
      else
        var c := CaptureOf(x, n);
        var (key, s) := Bind(i, KeyOperand, c.next);
        Capture(Index(c.target, key, ty), c.binds + [s], c.next + 1)
    case _ => Capture(t, [], n)
  }

  datatype Captures = Captures(targets: seq<Expr>, binds: seq<Stmt>, next: nat)

  function CaptureEach(lhs: seq<Expr>, n: nat): (r: Captures)
    ensures |r.targets| == |lhs|
  {
    if lhs == [] then Captures([], [], n)
    else
      var c := CaptureOf(Unparen(lhs[0]), n);
      var r := CaptureEach(lhs[1..], c.next);
      Captures([c.target] + r.targets, c.binds + r.binds, r.next)
  }

  function Results(from: nat, count: nat): (r: seq<Temp>)
    ensures |r| == count
  {
    seq(count, i requires 0 <= i => Result(from + i))
  }

  function Stores(targets: seq<Expr>, from: nat): seq<Stmt>
    decreases |targets|
  {
    if targets == [] then []
    else [Assign(targets[0], Tmp(Result(from), Other))] + Stores(targets[1..], from + 1)
  }

  function Lowered(lhs: seq<Expr>, rhs: Rhs): seq<Stmt> {
    var c := CaptureEach(lhs, 0);
    c.binds + [Define(Results(0, |lhs|), rhs)] + Stores(c.targets, 0)
  }

  // ---------- The lowering as the source runs it ----------

  /** The statements written so far and the counter that numbers the operands. */
  class Lowering {
    var out: seq<Stmt>
    var n: nat

    constructor ()
      ensures out == [] && n == 0
    {
      out, n := [], 0;
    }

    method BindOperand(e: Expr, kind: OperandKind) returns (id: Expr)
      modifies this
      ensures id == Tmp(Operand(kind, old(n)), TypeOf(e))
      ensures out == old(out) + [Define([Operand(kind, old(n))], Exprs([e]))]
      ensures n == old(n) + 1
    {
      id := Tmp(Operand(kind, n), TypeOf(e));
      out := out + [Define([Operand(kind, n)], Exprs([e]))];
      n := n + 1;
    }

    method CaptureTarget(t: Expr) returns (r: Expr)
      modifies this
      ensures var c := CaptureOf(t, old(n));
              r == c.target && out == old(out) + c.binds && n == c.next
      decreases t
    {
      match t
      case Star(x, ty) =>
        var id := BindOperand(x, PtrOperand);
        r := Star(id, ty);
      case Selector(x, hops, sel, ty) =>
        var base;
        if IsPointer(x) {
          base := BindOperand(x, BaseOperand);
        } else {
          base := CaptureTarget(x);
        }
        r := Selector(base, hops, sel, ty);
      case Index(x, i, ty) =>
        var base;
        if IsReference(x) {
          base := BindOperand(x, BaseOperand);
        } else {
          base := CaptureTarget(x);
        }
        var key := BindOperand(i, KeyOperand);
        r := Index(base, key, ty);
      case _ =>
        r := t;
    }
  }

  lemma {:induction false} CaptureEachAppend(lhs: seq<Expr>, t: Expr, n: nat)
    ensures var r := CaptureEach(lhs, n);
            var c := CaptureOf(Unparen(t), r.next);
            CaptureEach(lhs + [t], n) == Captures(r.targets + [c.target], r.binds + c.binds, c.next)
  {
    if lhs == [] {
      assert [t][1..] == [];
      assert CaptureEach([], CaptureOf(Unparen(t), n).next).targets == [];
    } else {
      var c0 := CaptureOf(Unparen(lhs[0]), n);
      assert (lhs + [t])[0] == lhs[0] && (lhs + [t])[1..] == lhs[1..] + [t];
      CaptureEachAppend(lhs[1..], t, c0.next);
      var r := CaptureEach(lhs[1..], c0.next);
      var c := CaptureOf(Unparen(t), r.next);
      assert [c0.target] + (r.targets + [c.target]) == ([c0.target] + r.targets) + [c.target];
      assert c0.binds + (r.binds + c.binds) == (c0.binds + r.binds) + c.binds;
    }
  }

  lemma {:induction false} StoresAppend(targets: seq<Expr>, k: nat, from: nat)
    requires k < |targets|
    ensures Stores(targets[..k+1], from) ==
            Stores(targets[..k], from) + [Assign(targets[k], Tmp(Result(from + k), Other))]
    decreases k
  {
    if k == 0 {
      assert targets[..1] == [targets[0]] && targets[..1][1..] == [] && targets[..0] == [];
    } else {
      StoresAppend(targets[1..], k - 1, from + 1);
      assert targets[..k+1][1..] == targets[1..][..k] && targets[..k][1..] == targets[1..][..k-1];
    }
  }

  /** Every target is captured, then the right-hand side is bound once, then each captured
      target receives its result. */
  method TupleAssignStmts(lhs: seq<Expr>, rhs: Rhs) returns (out: seq<Stmt>)
    ensures out == Lowered(lhs, rhs)
  {
    var l := new Lowering();
    var targets: seq<Expr> := [];
    for i := 0 to |lhs|
      invariant CaptureEach(lhs[..i], 0) == Captures(targets, l.out, l.n)
    {
      CaptureEachAppend(lhs[..i], lhs[i], 0);
      assert lhs[..i] + [lhs[i]] == lhs[..i+1];
      var t := l.CaptureTarget(Unparen(lhs[i]));
      targets := targets + [t];
    }
    assert lhs[..|lhs|] == lhs;
    out := l.out + [Define(Results(0, |lhs|), rhs)];
    ghost var captured := out;
    for i := 0 to |lhs|
      invariant out == captured + Stores(targets[..i], 0)
    {
      StoresAppend(targets, i, 0);
      out := out + [Assign(targets[i], Tmp(Result(i), Other))];
    }
    assert targets[..|lhs|] == targets;
  }

  // ---------- What the lowering gets right ----------

  predicate IsLiteral(e: Expr) { e.Lit? || (e.Paren? && IsLiteral(e.x)) }

  /** What the type checker guarantees of a target: it can be assigned to, and no literal scalar is
      dereferenced, selected or indexed anywhere in it. */
  predicate Assignable(t: Expr) {
    match t
    case Ident(_, _) => true
    case Paren(x) => Assignable(x)
    case Star(x, _) => Checked(x) && !IsLiteral(x)
    case Selector(x, _, _, _) => Checked(x) && !IsLiteral(x) && (IsPointer(x) || Assignable(x))
    case Index(x, i, _) => Checked(x) && !IsLiteral(x) && Checked(i) && (IsReference(x) || Assignable(x))
    case _ => false
  }

  predicate Checked(e: Expr)
    decreases e, 1
  {
    match e
    case Ident(_, _) => true
    case Tmp(_, _) => false
    case Lit(_) => true
    case Paren(x) => Checked(x)
    case Star(x, _) => Checked(x) && !IsLiteral(x)
    case Selector(x, _, _, _) => Checked(x) && !IsLiteral(x)
    case Index(x, i, _) => Checked(x) && !IsLiteral(x) && Checked(i)
    case Call(_, args, _) => CheckedList(args)
  }

  predicate CheckedList(es: seq<Expr>)
    decreases es, 0
  {
    es == [] || (Checked(es[0]) && CheckedList(es[1..]))
  }

  /** A parenthesised part below the top of a target is never descended into, so whatever it
      evaluates is evaluated late. It is harmless when it evaluates nothing but literals. */
  predicate EvaluatesNothing(t: Expr) {
    match t
    case Ident(_, _) => true
    case Paren(x) => EvaluatesNothing(x)
    case Selector(x, hops, _, _) => !IsPointer(x) && hops == [] && EvaluatesNothing(x)
    case Index(x, i, _) => !IsReference(x) && EvaluatesNothing(x) && IsLiteral(i)
    case _ => false
  }

  /** The targets whose operands the lowering captures completely: no promotion through an embedded
      pointer, and no evaluation hidden in a parenthesis. */
  predicate Captured(t: Expr) {
    match t
    case Ident(_, _) => true
    case Star(_, _) => true
    case Selector(x, hops, _, _) => hops == [] && (IsPointer(x) || Captured(x))
    case Index(x, _, _) => IsReference(x) || Captured(x)
    case Paren(x) => EvaluatesNothing(x)
    case _ => false
  }

  /** temps2 knows every operand temps knows. */
  ghost predicate Extends(temps: Temps, temps2: Temps) {
    forall id :: id in temps ==> id in temps2 && temps2[id] == temps[id]
  }

  ghost predicate Fresh(temps: Temps, n: nat) {
    forall id :: id in temps ==> id.Operand? && id.n < n
  }

  /** The target now denotes place p, whatever happens to the world. */
  ghost predicate Pinned(cs: Calls, t: Expr, p: Place, temps: Temps) {
    forall temps2, w: World {:trigger PlaceOf(cs, t, temps2, w)} ::
      Extends(temps, temps2) ==> PlaceOf(cs, t, temps2, w) == (p, w)
  }

  lemma RunBind(cs: Calls, e: Expr, kind: OperandKind, n: nat, temps: Temps, w: World)
    requires Source(e) && Fresh(temps, n)
    ensures var (v, w1) := Eval(cs, e, map[], w);
            var (t1, w2) := Run(cs, Bind(e, kind, n).1, temps, w);
            w2 == w1 && t1 == temps[Operand(kind, n) := v] && Extends(temps, t1) && Fresh(t1, n + 1)
  {
    EvalIgnoresTemps(cs, e, map[], temps, w);
    var (v, w1) := Eval(cs, e, temps, w);
    assert EvalList(cs, [e], temps, w) == ([v], w1) by {
      assert [e][1..] == [];
      assert EvalList(cs, [], temps, w1) == ([], w1);
      assert [v] + [] == [v];
    }
    assert BindAll(temps, [Operand(kind, n)], [v]) ==
           BindAll(temps[Operand(kind, n) := v], [Operand(kind, n)][1..], [v][1..]);
  }

  lemma CaptureKeepsType(t: Expr, n: nat)
    ensures TypeOf(CaptureOf(t, n).target) == TypeOf(t)
    ensures CaptureOf(t, n).next >= n
  {
  }

  lemma {:induction false} InertPlace(cs: Calls, t: Expr, temps: Temps, w: World, temps2: Temps, w2: World)
    requires EvaluatesNothing(t)
    ensures PlaceOf(cs, t, temps, w).1 == w && PlaceOf(cs, t, temps2, w2) == (PlaceOf(cs, t, temps, w).0, w2)
  {
    match t
    case Ident(_, _) =>
    case Paren(x) => InertPlace(cs, x, temps, w, temps2, w2);
    case Selector(x, _, _, _) => InertPlace(cs, x, temps, w, temps2, w2);
    case Index(x, i, _) =>
      InertPlace(cs, x, temps, w, temps2, w2);
      LiteralValue(cs, i, temps, w, temps2, w2);
  }

  lemma LiteralValue(cs: Calls, e: Expr, temps: Temps, w: World, temps2: Temps, w2: World)
    requires IsLiteral(e)
    ensures Eval(cs, e, temps, w).1 == w && Eval(cs, e, temps2, w2) == (Eval(cs, e, temps, w).0, w2)
  {
  }

  /** Running a captured target's statements leaves the world phase one leaves, and fixes the
      place phase one finds. */
  ghost predicate CapturedWell(cs: Calls, t: Expr, n: nat, temps: Temps, w: World) {
    var c := CaptureOf(t, n);
    var (p, w1) := PlaceOf(cs, t, map[], w);
    var (t1, w2) := RunAll(cs, c.binds, temps, w);
    w2 == w1 && Extends(temps, t1) && Fresh(t1, c.next) && Pinned(cs, c.target, p, t1)
  }

  lemma {:induction false} CapturePins(cs: Calls, t: Expr, n: nat, temps: Temps, w: World)
    requires Source(t) && Captured(t) && Fresh(temps, n)
    ensures CapturedWell(cs, t, n, temps, w)
  {
    match t
    case Ident(_, _) =>
    case Star(x, _) =>
      RunBind(cs, x, PtrOperand, n, temps, w);
      RunOne(cs, Bind(x, PtrOperand, n).1, temps, w);
    case Paren(x) =>
      forall temps2, w2: World ensures PlaceOf(cs, t, temps2, w2) == (PlaceOf(cs, t, map[], w).0, w2)
      {
        InertPlace(cs, x, map[], w, temps2, w2);
      }
      InertPlace(cs, x, map[], w, map[], w);
    case Selector(x, hops, _, _) =>
      if IsPointer(x) {
        RunBind(cs, x, BaseOperand, n, temps, w);
        RunOne(cs, Bind(x, BaseOperand, n).1, temps, w);
      } else {
        CapturePins(cs, x, n, temps, w);
        CaptureKeepsType(x, n);
      }
    case Index(x, i, _) =>
      if IsReference(x) {
        PinReferenceIndex(cs, t, n, temps, w);
      } else {
        CapturePins(cs, x, n, temps, w);
        PinValueIndex(cs, t, n, temps, w);
      }
  }

  lemma PinReferenceIndex(cs: Calls, t: Expr, n: nat, temps: Temps, w: World)
    requires t.Index? && IsReference(t.x) && Source(t) && Fresh(temps, n)
    ensures CapturedWell(cs, t, n, temps, w)
  {
    var s0, s1 := Bind(t.x, BaseOperand, n).1, Bind(t.i, KeyOperand, n + 1).1;
    RunBind(cs, t.x, BaseOperand, n, temps, w);
    var (t1, w1) := Run(cs, s0, temps, w);
    RunBind(cs, t.i, KeyOperand, n + 1, t1, w1);
    assert [s0, s1][1..] == [s1];
    RunOne(cs, s1, t1, w1);
    var (t2, w2) := Run(cs, s1, t1, w1);
    assert RunAll(cs, CaptureOf(t, n).binds, temps, w) == (t2, w2);
    var c, p := CaptureOf(t, n).target, PlaceOf(cs, t, map[], w).0;
    forall temps2, w': World | Extends(t2, temps2) ensures PlaceOf(cs, c, temps2, w') == (p, w') {
      assert Operand(BaseOperand, n) in t1 && Operand(BaseOperand, n) in t2;
    }
  }

  lemma PinValueIndex(cs: Calls, t: Expr, n: nat, temps: Temps, w: World)
    requires t.Index? && !IsReference(t.x) && Source(t) && CapturedWell(cs, t.x, n, temps, w)
    ensures CapturedWell(cs, t, n, temps, w)
  {
    var c := CaptureOf(t.x, n);
    CaptureKeepsType(t.x, n);
    var (p, _) := PlaceOf(cs, t.x, map[], w);
    var (t1, w1) := RunAll(cs, c.binds, temps, w);
    var s := Bind(t.i, KeyOperand, c.next).1;
    RunBind(cs, t.i, KeyOperand, c.next, t1, w1);
    RunOne(cs, s, t1, w1);
    RunAppend(cs, c.binds, [s], temps, w);
    var (t2, w2) := Run(cs, s, t1, w1);
    var c', p' := CaptureOf(t, n).target, PlaceOf(cs, t, map[], w).0;
    forall temps2, w': World | Extends(t2, temps2) ensures PlaceOf(cs, c', temps2, w') == (p', w') {
      assert Extends(t1, temps2);
      assert PlaceOf(cs, c.target, temps2, w') == (p, w');
    }
  }

  lemma RunOne(cs: Calls, s: Stmt, temps: Temps, w: World)
    ensures RunAll(cs, [s], temps, w) == Run(cs, s, temps, w)
  {
    assert [s][1..] == [];
  }

  lemma UnparenSame(cs: Calls, t: Expr, temps: Temps, w: World)
    ensures PlaceOf(cs, Unparen(t), temps, w) == PlaceOf(cs, t, temps, w)
    ensures Source(t) ==> Source(Unparen(t))
    ensures Assignable(t) ==> Assignable(Unparen(t))
  {
  }

  /** The targets of a whole statement. */
  ghost predicate AllCaptured(lhs: seq<Expr>) {
    forall i :: 0 <= i < |lhs| ==> Captured(Unparen(lhs[i]))
  }

  lemma CaptureFirst(lhs: seq<Expr>, n: nat)
    requires lhs != []
    ensures var c := CaptureOf(Unparen(lhs[0]), n);
            var r := CaptureEach(lhs[1..], c.next);
            CaptureEach(lhs, n) == Captures([c.target] + r.targets, c.binds + r.binds, r.next)
  {
    hide CaptureOf;
  }

  lemma PlacesFirst(cs: Calls, lhs: seq<Expr>, w: World)
    requires lhs != []
    ensures var (p, w1) := PlaceOf(cs, lhs[0], map[], w);
            var (ps, w2) := PlacesOf(cs, lhs[1..], map[], w1);
            PlacesOf(cs, lhs, map[], w) == ([p] + ps, w2)
  {
    hide PlaceOf;
  }

  lemma ExtendsTwice(temps: Temps, t1: Temps, t2: Temps)
    requires Extends(temps, t1) && Extends(t1, t2)
    ensures Extends(temps, t2)
  {
  }

  ghost predicate AllPinned(cs: Calls, targets: seq<Expr>, ps: seq<Place>, temps: Temps) {
    |targets| == |ps| && forall i :: 0 <= i < |targets| ==> Pinned(cs, targets[i], ps[i], temps)
  }

  lemma PinnedFirst(cs: Calls, t: Expr, p: Place, targets: seq<Expr>, ps: seq<Place>, temps: Temps)
    requires Pinned(cs, t, p, temps) && AllPinned(cs, targets, ps, temps)
    ensures AllPinned(cs, [t] + targets, [p] + ps, temps)
  {
    hide Pinned;
  }

  lemma {:induction false} CaptureEachPins(cs: Calls, lhs: seq<Expr>, n: nat, temps: Temps, w: World)
    requires SourceList(lhs) && AllCaptured(lhs) && Fresh(temps, n)
    ensures var c := CaptureEach(lhs, n);
            var (ps, w1) := PlacesOf(cs, lhs, map[], w);
            var (t1, w2) := RunAll(cs, c.binds, temps, w);
            w2 == w1 && Extends(temps, t1) && Fresh(t1, c.next) && AllPinned(cs, c.targets, ps, t1)
  {
    if lhs != [] {
      var t := Unparen(lhs[0]);
      UnparenSame(cs, lhs[0], map[], w);
      CaptureFirst(lhs, n);
      PlacesFirst(cs, lhs, w);
      CapturePins(cs, t, n, temps, w);
      hide CaptureEach, PlacesOf, RunAll, Captured, Source, Pinned, Extends, Fresh, AllPinned, CaptureOf;
      var c := CaptureOf(t, n);
      var (t1, w1) := RunAll(cs, c.binds, temps, w);
      CaptureEachPins(cs, lhs[1..], c.next, t1, w1);
      var r := CaptureEach(lhs[1..], c.next);
      RunAppend(cs, c.binds, r.binds, temps, w);
      var (t2, _) := RunAll(cs, r.binds, t1, w1);
      var p := PlaceOf(cs, t, map[], w).0;
      PinnedLater(cs, c.target, p, t1, t2);
      ExtendsTwice(temps, t1, t2);
      PinnedFirst(cs, c.target, p, r.targets, PlacesOf(cs, lhs[1..], map[], w1).0, t2);
    }
  }

  lemma PinnedLater(cs: Calls, t: Expr, p: Place, temps: Temps, temps2: Temps)
    requires Pinned(cs, t, p, temps) && Extends(temps, temps2)
    ensures Pinned(cs, t, p, temps2)
  {
    forall temps3, w: World | Extends(temps2, temps3) ensures PlaceOf(cs, t, temps3, w) == (p, w) {
      assert Extends(temps, temps3);
    }
  }

  ghost predicate HoldsResults(temps: Temps, from: nat, vs: seq<Value>)
    decreases |vs|
  {
    vs != [] ==>
      Result(from) in temps && temps[Result(from)] == vs[0] && HoldsResults(temps, from + 1, vs[1..])
  }

  lemma {:induction false} BindResults(temps: Temps, from: nat, vs: seq<Value>)
    requires forall id :: id in temps && id.Result? ==> id.i < from
    ensures var t1 := BindAll(temps, Results(from, |vs|), vs);
            Extends(temps, t1) && HoldsResults(t1, from, vs)
    decreases |vs|
  {
    if vs != [] {
      var temps' := temps[Result(from) := vs[0]];
      assert Results(from, |vs|)[1..] == Results(from + 1, |vs| - 1);
      BindResults(temps', from + 1, vs[1..]);
      assert Result(from) in temps';
    }
  }

  lemma {:induction false} RunStores(cs: Calls, targets: seq<Expr>, ps: seq<Place>, vs: seq<Value>, from: nat,
                                     temps: Temps, w: World)
    requires |targets| == |ps| == |vs| && HoldsResults(temps, from, vs)
    requires forall i :: 0 <= i < |targets| ==> Pinned(cs, targets[i], ps[i], temps)
    ensures RunAll(cs, Stores(targets, from), temps, w).1 == StoreAll(ps, vs, w)
    decreases |targets|
  {
    if targets != [] {
      assert PlaceOf(cs, targets[0], temps, w) == (ps[0], w);
      RunStores(cs, targets[1..], ps[1..], vs[1..], from + 1, temps, w.(mem := Store(w.mem, ps[0], vs[0])));
    }
  }

  lemma RhsIgnoresTemps(cs: Calls, rhs: Rhs, count: nat, t1: Temps, t2: Temps, w: World)
    requires SourceRhs(rhs)
    ensures EvalRhs(cs, rhs, count, t1, w) == EvalRhs(cs, rhs, count, t2, w)
  {
    EvalListIgnoresTemps(cs, if rhs.Exprs? then rhs.es else rhs.args, t1, t2, w);
  }

  ghost predicate LoweringAgrees(cs: Calls, lhs: seq<Expr>, rhs: Rhs, w: World)
    requires RhsFits(rhs, |lhs|)
  {
    RunAll(cs, Lowered(lhs, rhs), map[], w).1 == TwoPhase(cs, lhs, rhs, w)
  }

  /** The lowered statements leave exactly the memory and the call trace of Go's two-phase
      assignment: whatever the calls do, and however the targets alias. */
  lemma LoweringIsTwoPhase(cs: Calls, lhs: seq<Expr>, rhs: Rhs, w: World)
    requires SourceList(lhs) && SourceRhs(rhs) && RhsFits(rhs, |lhs|) && AllCaptured(lhs)
    ensures LoweringAgrees(cs, lhs, rhs, w)
  {
    var c := CaptureEach(lhs, 0);
    CaptureEachPins(cs, lhs, 0, map[], w);
    var (ps, w1) := PlacesOf(cs, lhs, map[], w);
    var (t1, _) := RunAll(cs, c.binds, map[], w);
    RhsIgnoresTemps(cs, rhs, |lhs|, map[], t1, w1);
    var (vs, w2) := EvalRhs(cs, rhs, |lhs|, t1, w1);
    var define := Define(Results(0, |lhs|), rhs);
    BindResults(t1, 0, vs);
    var t2 := BindAll(t1, Results(0, |lhs|), vs);
    RunOne(cs, define, t1, w1);
    forall i | 0 <= i < |lhs| ensures Pinned(cs, c.targets[i], ps[i], t2) {
      PinnedLater(cs, c.targets[i], ps[i], t1, t2);
    }
    RunStores(cs, c.targets, ps, vs, 0, t2, w2);
    RunAppend(cs, c.binds, [define], map[], w);
    RunAppend(cs, c.binds + [define], Stores(c.targets, 0), map[], w);
  }

  // ---------- What it gets wrong, and exactly when ----------

  const P := Ident("p", Pointer(false))
  const Q := Ident("q", Pointer(false))
  const PX := Selector(Paren(Star(P, Other)), [], "x", Other)

  /** Memory in which p points to cell 1 and q to cell 2. */
  ghost const TWO_CELLS := World(imap[Var("p") := Ptr(Base(Cell(1))), Var("q") := Ptr(Base(Cell(2)))], [])

  lemma PlaceOfPX(cs: Calls, temps: Temps, w: World, k: int)
    requires Var("p") in w.mem && w.mem[Var("p")] == Ptr(Base(Cell(k)))
    ensures PlaceOf(cs, PX, temps, w) == (Part(Base(Cell(k)), Field("x")), w)
  {
    assert PlaceOf(cs, Star(P, Other), temps, w) == (Base(Cell(k)), w);
  }

  lemma RhsOfExample(cs: Calls, w: World)
    requires w == TWO_CELLS
    ensures EvalRhs(cs, Exprs([Q, Lit(7)]), 2, map[], w) == ([Ptr(Base(Cell(2))), Scalar(7)], w)
    ensures SourceRhs(Exprs([Q, Lit(7)]))
  {
    var es, vs := [Q, Lit(7)], [Ptr(Base(Cell(2))), Scalar(7)];
    assert Eval(cs, Q, map[], w) == (vs[0], w);
    assert es[1..] == [Lit(7)] && [Lit(7)][1..] == [];
    assert EvalList(cs, [Lit(7)], map[], w) == ([Scalar(7)] + [], w);
    assert [vs[0]] + ([Scalar(7)] + []) == vs;
    assert SourceList([Lit(7)]) by { assert SourceList([]); }
  }

  /** `p, (*p).x = q, 7`: the parenthesis hides the pointer from the capture, so the second store
      goes through the pointer the first one has just replaced: Go changes cell 1, the lowering cell 2. */
  lemma HiddenPointerFails(cs: Calls)
    ensures Assignable(P) && Assignable(PX)
    ensures !LoweringAgrees(cs, [P, PX], Exprs([Q, Lit(7)]), TWO_CELLS)
  {
    hide TwoPhase, RunAll, Lowered, Source, Unparen;
    GoChangesOne(cs);
    LoweringChangesTwo(cs);
  }

  lemma GoChangesOne(cs: Calls)
    ensures var mem := TwoPhase(cs, [P, PX], Exprs([Q, Lit(7)]), TWO_CELLS).mem;
            Cell(1) in mem && Cell(2) !in mem
  {
    hide PlaceOf, RunAll, TwoPhase, EvalRhs, Eval, Store;
    var w, vs := TWO_CELLS, [Ptr(Base(Cell(2))), Scalar(7)];
    RhsOfExample(cs, w);
    PlaceOfPX(cs, map[], w, 1);
    EarlyStore(cs, [P, PX], Exprs([Q, Lit(7)]), w, vs, w);
    RootOfPart(1);
    StoreKeys(w.mem[Var("p") := vs[0]], Part(Base(Cell(1)), Field("x")), vs[1]);
  }

  lemma RootOfPart(k: int)
    ensures RootOf(Part(Base(Cell(k)), Field("x"))) == Cell(k)
  {
  }

  lemma LoweringChangesTwo(cs: Calls)
    ensures var mem := RunAll(cs, Lowered([P, PX], Exprs([Q, Lit(7)])), map[], TWO_CELLS).1.mem;
            Cell(2) in mem && Cell(1) !in mem
  {
    var w, vs := TWO_CELLS, [Ptr(Base(Cell(2))), Scalar(7)];
    assert RunAll(cs, [], map[], w) == (map[], w);
    assert CaptureOf(PX, 0) == Capture(PX, [], 0) && Unparen(PX) == PX;
    hide PlaceOf, RunAll, Lowered, EvalRhs, Eval, Store, CaptureOf, Unparen, BindAll;
    RhsOfExample(cs, w);
    LateStore(cs, [P, PX], Exprs([Q, Lit(7)]), w, vs, w);
    var mem := w.mem[Var("p") := vs[0]];
    var temps := BindAll(map[], Results(0, 2), vs);
    PlaceOfPX(cs, temps, w.(mem := mem), 2);
    RootOfPart(2);
    StoreKeys(mem, Part(Base(Cell(2)), Field("x")), ResultOf(temps, 1));
  }

  lemma StoreKeys(mem: Memory, p: Place, v: Value)
    ensures Store(mem, p, v).Keys == mem.Keys + iset{RootOf(p)}
  {
  }

  /** What Go's assignment to a plain name and a target t comes to. */
  lemma EarlyStore(cs: Calls, lhs: seq<Expr>, rhs: Rhs, w: World, vs: seq<Value>, w2: World)
    requires |lhs| == 2 == |vs| && lhs[0].Ident? && RhsFits(rhs, 2)
    requires EvalRhs(cs, rhs, 2, map[], PlaceOf(cs, lhs[1], map[], w).1) == (vs, w2)
    ensures TwoPhase(cs, lhs, rhs, w) ==
            w2.(mem := Store(w2.mem[Var(lhs[0].name) := vs[0]], PlaceOf(cs, lhs[1], map[], w).0, vs[1]))
  {
    var (p, w1) := PlaceOf(cs, lhs[1], map[], w);
    assert lhs[1..][1..] == [];
    assert PlacesOf(cs, lhs[1..], map[], w) == ([p], w1) by { assert [p] + [] == [p]; }
    var ps := [Base(Var(lhs[0].name)), p];
    assert PlacesOf(cs, lhs, map[], w) == (ps, w1) by { assert [ps[0]] + [p] == ps; }
    var w3 := w2.(mem := Store(w2.mem, ps[0], vs[0]));
    assert ps[1..] == [p] && vs[1..] == [vs[1]] && [p][1..] == [] && [vs[1]][1..] == [];
    assert StoreAll([p], [vs[1]], w3) == StoreAll([], [], w3.(mem := Store(w3.mem, p, vs[1])));
  }

  /** What the statements of a two-target assignment to a plain name and a target t come to. */
  lemma LateStore(cs: Calls, lhs: seq<Expr>, rhs: Rhs, w: World, vs: seq<Value>, w2: World)
    requires |lhs| == 2 == |vs| && lhs[0].Ident? && RhsFits(rhs, 2) && SourceRhs(rhs)
    requires var (t1, w1) := RunAll(cs, CaptureOf(Unparen(lhs[1]), 0).binds, map[], w);
             EvalRhs(cs, rhs, 2, map[], w1) == (vs, w2)
    ensures var c := CaptureOf(Unparen(lhs[1]), 0);
            var (t1, w1) := RunAll(cs, c.binds, map[], w);
            var w3 := w2.(mem := w2.mem[Var(lhs[0].name) := vs[0]]);
            var (p, w4) := PlaceOf(cs, c.target, BindAll(t1, Results(0, 2), vs), w3);
            RunAll(cs, Lowered(lhs, rhs), map[], w).1 ==
            w4.(mem := Store(w4.mem, p, ResultOf(BindAll(t1, Results(0, 2), vs), 1)))
  {
    var c := CaptureOf(Unparen(lhs[1]), 0);
    var (t1, w1) := RunAll(cs, c.binds, map[], w);
    hide EvalRhs, SourceRhs;
    assert CaptureEach(lhs, 0) == Captures([lhs[0], c.target], c.binds, c.next) by {
      assert lhs[1..][1..] == [];
      assert CaptureEach(lhs[1..], 0) == Captures([c.target], c.binds, c.next) by { assert c.binds + [] == c.binds; }
      assert [] + c.binds == c.binds;
    }
    RhsIgnoresTemps(cs, rhs, 2, map[], t1, w1);
    var define := Define(Results(0, 2), rhs);
    var s0, s1 := Assign(lhs[0], Tmp(Result(0), Other)), Assign(c.target, Tmp(Result(1), Other));
    assert Stores([lhs[0], c.target], 0) == [s0, s1] by {
      assert [lhs[0], c.target][1..] == [c.target] && [c.target][1..] == [];
      assert Stores([c.target], 1) == [s1] + Stores([], 2);
    }
    RunOne(cs, define, t1, w1);
    RunAppend(cs, c.binds, [define], map[], w);
    RunAppend(cs, c.binds + [define], [s0, s1], map[], w);
    var t2 := BindAll(t1, Results(0, 2), vs);
    assert [s0, s1][1..] == [s1];
    var w3 := w2.(mem := w2.mem[Var(lhs[0].name) := ResultOf(t2, 0)]);
    RunOne(cs, s1, t2, w3);
    assert t2 == t1[Result(0) := vs[0]][Result(1) := vs[1]] by { TwoBound(t1, vs); }
  }

  lemma TwoBound(temps: Temps, vs: seq<Value>)
    requires |vs| == 2
    ensures BindAll(temps, Results(0, 2), vs) == temps[Result(0) := vs[0]][Result(1) := vs[1]]
  {
    assert Results(0, 2)[1..] == [Result(1)];
  }

  ghost function ResultOf(temps: Temps, i: nat): Value {
    if Result(i) in temps then temps[Result(i)] else Scalar(0)
  }

  // Inert calls return 0 and touch nothing; a multi-valued one returns 2, 9, 9, ... and leaves a
  // memory that holds 2 everywhere.
  ghost function Uniform(c: int): Memory { imap r: Root | r.Var? || r.Cell? :: Scalar(c) }

  ghost function Inert(): Calls {
    Calls((f, args, mem) => Scalar(0), (f, args, mem) => mem,
          (f, args, mem, i) => Scalar(if i == 0 then 2 else 9), (f, args, mem) => Uniform(2))
  }

  ghost function Everywhere(c: int, trace: seq<Event>): World { World(Uniform(c), trace) }

  predicate HasCall(e: Expr) {
    match e
    case Call(_, _, _) => true
    case Paren(x) => HasCall(x)
    case Star(x, _) => HasCall(x)
    case Selector(x, _, _, _) => HasCall(x)
    case Index(x, i, _) => HasCall(x) || HasCall(i)
    case _ => false
  }

  /** tr2 is tr, or tr and some single-valued calls. */
  ghost predicate Continues(tr: seq<Event>, tr2: seq<Event>) {
    tr2 == tr || (|tr2| > |tr| && tr2[|tr2| - 1].Called?)
  }

  lemma {:induction false} QuietEval(e: Expr, c: int, temps: Temps, tr: seq<Event>)
    ensures var w1 := Eval(Inert(), e, temps, Everywhere(c, tr)).1;
            w1.mem == Uniform(c) && Continues(tr, w1.trace) && (HasCall(e) ==> w1.trace != tr)
    decreases e, 1
  {
    match e
    case Ident(_, _) =>
    case Tmp(_, _) =>
    case Lit(_) =>
    case Paren(x) => QuietEval(x, c, temps, tr);
    case Star(x, _) => QuietEval(x, c, temps, tr);
    case Selector(x, _, _, _) => QuietEval(x, c, temps, tr);
    case Index(x, i, _) =>
      QuietEval(x, c, temps, tr);
      QuietEval(i, c, temps, Eval(Inert(), x, temps, Everywhere(c, tr)).1.trace);
    case Call(_, args, _) => QuietEvalList(args, c, temps, tr);
  }

  lemma {:induction false} QuietEvalList(es: seq<Expr>, c: int, temps: Temps, tr: seq<Event>)
    ensures var w1 := EvalList(Inert(), es, temps, Everywhere(c, tr)).1;
            w1.mem == Uniform(c) && Continues(tr, w1.trace)
    decreases es, 0
  {
    if es != [] {
      QuietEval(es[0], c, temps, tr);
      QuietEvalList(es[1..], c, temps, Eval(Inert(), es[0], temps, Everywhere(c, tr)).1.trace);
    }
  }

  lemma {:induction false} QuietPlace(t: Expr, c: int, temps: Temps, tr: seq<Event>)
    ensures var w1 := PlaceOf(Inert(), t, temps, Everywhere(c, tr)).1;
            w1.mem == Uniform(c) && Continues(tr, w1.trace) && (HasCall(t) ==> w1.trace != tr)
  {
    match t
    case Ident(_, _) =>
    case Paren(x) => QuietPlace(x, c, temps, tr);
    case Selector(x, _, _, _) =>
      if IsPointer(x) { QuietEval(x, c, temps, tr); } else { QuietPlace(x, c, temps, tr); }
    case Index(x, i, _) =>
      if IsReference(x) { QuietEval(x, c, temps, tr); } else { QuietPlace(x, c, temps, tr); }
      var w1 := if IsReference(x) then Eval(Inert(), x, temps, Everywhere(c, tr)).1
                else PlaceOf(Inert(), x, temps, Everywhere(c, tr)).1;
      QuietEval(i, c, temps, w1.trace);
    case Star(x, _) => QuietEval(x, c, temps, tr);
    case _ => QuietEval(t, c, temps, tr);
  }

  /** In a uniform memory every checked expression without calls yields the number stored there. */
  lemma {:induction false} UniformEval(e: Expr, c: int, temps: Temps, tr: seq<Event>)
    requires Checked(e) && !HasCall(e)
    ensures Eval(Inert(), e, temps, Everywhere(c, tr)).1 == Everywhere(c, tr)
    ensures !IsLiteral(e) ==> Eval(Inert(), e, temps, Everywhere(c, tr)).0 == Scalar(c)
  {
    match e
    case Ident(_, _) =>
    case Lit(_) =>
    case Paren(x) => UniformEval(x, c, temps, tr);
    case Star(x, _) => UniformEval(x, c, temps, tr);
    case Selector(x, hops, _, _) =>
      UniformEval(x, c, temps, tr);
      UniformHops(c, Base(Cell(c)), Scalar(c), hops);
    case Index(x, i, _) =>
      UniformEval(x, c, temps, tr);
      UniformEval(i, c, temps, tr);
      UniformLoad(c, Element(Scalar(c), Eval(Inert(), i, temps, Everywhere(c, tr)).0));
  }

  lemma UniformLoad(c: int, p: Place)
    ensures Load(Uniform(c), p) == Scalar(c)
  {
  }

  lemma {:induction false} UniformHops(c: int, p: Place, v: Value, hops: seq<string>)
    requires v == Scalar(c)
    ensures hops != [] ==> HopPlace(Uniform(c), p, hops) == Base(Cell(c))
    ensures HopValue(Uniform(c), v, hops) == Scalar(c)
    decreases |hops|
  {
    if hops != [] {
      UniformLoad(c, Part(p, Field(hops[0])));
      UniformHops(c, Base(Cell(c)), v, hops[1..]);
    }
  }

  /** A part that evaluates something without calls denotes another place in another memory. */
  lemma {:induction false} PlaceMoves(t: Expr, temps: Temps, temps2: Temps, tr: seq<Event>, tr2: seq<Event>)
    requires Assignable(t) && !EvaluatesNothing(t) && !HasCall(t)
    ensures PlaceOf(Inert(), t, temps, Everywhere(1, tr)).0 != PlaceOf(Inert(), t, temps2, Everywhere(2, tr2)).0
  {
    match t
    case Paren(x) => PlaceMoves(x, temps, temps2, tr, tr2);
    case Star(x, _) =>
      UniformEval(x, 1, temps, tr);
      UniformEval(x, 2, temps2, tr2);
    case Selector(x, hops, _, _) =>
      if IsPointer(x) {
        UniformEval(x, 1, temps, tr);
        UniformEval(x, 2, temps2, tr2);
      } else if hops == [] {
        PlaceMoves(x, temps, temps2, tr, tr2);
      }
      if hops != [] {
        UniformSelector(t, 1, temps, tr);
        UniformSelector(t, 2, temps2, tr2);
      }
    case Index(x, i, _) =>
      if IsReference(x) {
        UniformEval(x, 1, temps, tr);
        UniformEval(x, 2, temps2, tr2);
      } else {
        if !EvaluatesNothing(x) { PlaceMoves(x, temps, temps2, tr, tr2); }
        StillPlace(x, 1, temps, tr);
        StillPlace(x, 2, temps2, tr2);
        UniformEval(i, 1, temps, tr);
        UniformEval(i, 2, temps2, tr2);
      }
  }

  lemma {:induction false} StillPlace(t: Expr, c: int, temps: Temps, tr: seq<Event>)
    requires Assignable(t) && !HasCall(t)
    ensures PlaceOf(Inert(), t, temps, Everywhere(c, tr)).1 == Everywhere(c, tr)
  {
    match t
    case Ident(_, _) =>
    case Paren(x) => StillPlace(x, c, temps, tr);
    case Star(x, _) => UniformEval(x, c, temps, tr);
    case Selector(x, _, _, _) =>
      if IsPointer(x) { UniformEval(x, c, temps, tr); } else { StillPlace(x, c, temps, tr); }
    case Index(x, i, _) =>
      if IsReference(x) { UniformEval(x, c, temps, tr); } else { StillPlace(x, c, temps, tr); }
      UniformEval(i, c, temps, tr);
  }

  /** A promoted selector reads its embedded pointers from the memory it is evaluated in. */
  lemma UniformSelector(t: Expr, c: int, temps: Temps, tr: seq<Event>)
    requires t.Selector? && t.hops != []
    ensures PlaceOf(Inert(), t, temps, Everywhere(c, tr)).0 == Part(Base(Cell(c)), Field(t.sel))
  {
    if IsPointer(t.x) { QuietEval(t.x, c, temps, tr); } else { QuietPlace(t.x, c, temps, tr); }
    var p := if IsPointer(t.x) then Pointee(Eval(Inert(), t.x, temps, Everywhere(c, tr)).0)
             else PlaceOf(Inert(), t.x, temps, Everywhere(c, tr)).0;
    UniformHops(c, p, Scalar(c), t.hops);
  }

  /** Run late, in a memory that holds 2 everywhere, an uncaptured target either calls something or
      denotes another place than it does in a memory that holds 1 everywhere. */
  lemma {:induction false} LateTargetMoves(t: Expr, n: nat, temps: Temps, tr: seq<Event>, tr2: seq<Event>)
    requires Assignable(t) && !Captured(t)
    ensures var c := CaptureOf(t, n);
            var (p1, _) := PlaceOf(Inert(), t, map[], Everywhere(1, tr));
            var (p2, w2) := PlaceOf(Inert(), c.target, temps, Everywhere(2, tr2));
            w2.trace != tr2 || p1 != p2
  {
    var c := CaptureOf(t, n);
    match t
    case Paren(x) =>
      if HasCall(x) { QuietPlace(x, 2, temps, tr2); } else { PlaceMoves(x, map[], temps, tr, tr2); }
    case Selector(x, hops, sel, ty) =>
      if hops != [] {
        UniformSelector(t, 1, map[], tr);
        UniformSelector(c.target, 2, temps, tr2);
      } else {
        LateTargetMoves(x, n, temps, tr, tr2);
        CaptureKeepsType(x, n);
      }
    case Index(x, i, _) =>
      LateTargetMoves(x, n, temps, tr, tr2);
      CaptureKeepsType(x, n);
  }

  function RootOf(p: Place): Root { if p.Base? then p.root else RootOf(p.of) }

  function Steps(p: Place): seq<Step> { if p.Base? then [] else Steps(p.of) + [p.step] }

  ghost function Nest(steps: seq<Step>, v: Value): Value {
    if steps == [] then v else Aggregate(map[steps[0] := Nest(steps[1..], v)])
  }

  lemma {:induction false} NestAppend(steps: seq<Step>, s: Step, v: Value)
    ensures Nest(steps + [s], v) == Nest(steps, Aggregate(map[s := v]))
  {
    if steps == [] {
      assert [s][1..] == [];
    } else {
      assert (steps + [s])[1..] == steps[1..] + [s];
      NestAppend(steps[1..], s, v);
    }
  }

  lemma {:induction false} StoreIsNest(p: Place, v: Value)
    ensures Store(Uniform(2), p, v) == Uniform(2)[RootOf(p) := Nest(Steps(p), v)]
  {
    if p.Part? {
      UniformLoad(2, p.of);
      StoreIsNest(p.of, Aggregate(map[p.step := v]));
      NestAppend(Steps(p.of), p.step, v);
    }
  }

  lemma {:induction false} NestTellsSteps(a: seq<Step>, b: seq<Step>)
    requires Nest(a, Scalar(9)) == Nest(b, Scalar(9))
    ensures a == b
    decreases |a|
  {
    if a != [] && b != [] {
      var x, y := Nest(a[1..], Scalar(9)), Nest(b[1..], Scalar(9));
      assert a[0] in map[a[0] := x] && a[0] in map[b[0] := y];
      assert map[a[0] := x][a[0]] == map[b[0] := y][a[0]];
      NestTellsSteps(a[1..], b[1..]);
      assert a == [a[0]] + a[1..] && b == [b[0]] + b[1..];
    }
  }

  lemma {:induction false} PathTellsPlace(p: Place, q: Place)
    requires RootOf(p) == RootOf(q) && Steps(p) == Steps(q)
    ensures p == q
  {
    if p.Part? && q.Part? {
      assert Steps(p)[..|Steps(p)| - 1] == Steps(p.of) && Steps(q)[..|Steps(q)| - 1] == Steps(q.of);
      assert Steps(p)[|Steps(p)| - 1] == p.step && Steps(q)[|Steps(q)| - 1] == q.step;
      PathTellsPlace(p.of, q.of);
    }
  }

  /** Memories written through two different places differ. */
  lemma StoreTellsPlaces(p: Place, q: Place)
    requires Store(Uniform(2), p, Scalar(9)) == Store(Uniform(2), q, Scalar(9))
    ensures p == q
  {
    StoreIsNest(p, Scalar(9));
    StoreIsNest(q, Scalar(9));
    var r, u := RootOf(p), Uniform(2);
    var x, y := Nest(Steps(p), Scalar(9)), Nest(Steps(q), Scalar(9));
    assert u[r := x][r] == u[RootOf(q) := y][r];
    assert r in u && u[r] == Scalar(2);
    NestTellsSteps(Steps(p), Steps(q));
    PathTellsPlace(p, q);
  }

  /** `_, t = f()` goes wrong for some f and some memory unless t is captured completely. */
  lemma UncapturedTargetFails(t: Expr)
    requires Source(t) && Assignable(t) && !Captured(Unparen(t))
    ensures !LoweringAgrees(Inert(), [Ident("_", Other), t], Multi("f", []), Everywhere(1, []))
  {
    var cs, w := Inert(), Everywhere(1, []);
    var lhs, rhs := [Ident("_", Other), t], Multi("f", []);
    hide PlaceOf, RunAll, CaptureOf, TwoPhase, Store, Lowered, Captured, Assignable, Source;
    var u := Unparen(t);
    UnparenSame(cs, t, map[], w);
    var vs := [Scalar(2), Scalar(9)];
    var c := CaptureOf(u, 0);
    var (p1, w1) := PlaceOf(cs, t, map[], w);
    var (t1, w1') := RunAll(cs, c.binds, map[], w);
    var w2 := Everywhere(2, w1.trace + [CalledMulti("f", [])]);
    var w2' := Everywhere(2, w1'.trace + [CalledMulti("f", [])]);
    assert EvalRhs(cs, rhs, 2, map[], w1).0 == vs;
    EarlyStore(cs, lhs, rhs, w, vs, w2);
    assert EvalRhs(cs, rhs, 2, map[], w1').0 == vs;
    LateStore(cs, lhs, rhs, w, vs, w2');
    assert Uniform(2)[Var("_") := Scalar(2)] == Uniform(2);
    var t2 := BindAll(t1, Results(0, 2), vs);
    assert ResultOf(t2, 1) == vs[1] by { assert Results(0, 2)[1..] == [Result(1)]; }
    var (p2, w4) := PlaceOf(cs, c.target, t2, w2');
    LateTargetMoves(u, 0, t2, [], w2'.trace);
    QuietPlace(c.target, 2, t2, w2'.trace);
    if TwoPhase(cs, lhs, rhs, w) == RunAll(cs, Lowered(lhs, rhs), map[], w).1 {
      assert w2.trace == w4.trace && w2.trace[|w2.trace| - 1].CalledMulti?;
      StoreTellsPlaces(p1, p2);
    }
  }

  /** Exactly which targets a multi-target assignment handles: with its other target a plain name, it
      agrees with Go for every right-hand side, every meaning of calls and every memory if and only
      if nothing the target evaluates is hidden from the capture. */
  lemma TargetHandledIffCaptured(t: Expr)
    requires Source(t) && Assignable(t)
    ensures Captured(Unparen(t)) <==>
            forall cs, rhs, w | SourceRhs(rhs) && RhsFits(rhs, 2) ::
              LoweringAgrees(cs, [Ident("_", Other), t], rhs, w)
  {
    var lhs := [Ident("_", Other), t];
    if Captured(Unparen(t)) {
      assert SourceList(lhs) by {
        assert lhs[1..] == [t] && [t][1..] == [] && SourceList([]);
        assert SourceList([t]);
      }
      forall cs, rhs, w | SourceRhs(rhs) && RhsFits(rhs, 2) ensures LoweringAgrees(cs, lhs, rhs, w) {
        LoweringIsTwoPhase(cs, lhs, rhs, w);
      }
    } else {
      UncapturedTargetFails(t);
      assert SourceRhs(Multi("f", [])) && RhsFits(Multi("f", []), 2);
    }
  }

  // ---------- Whole lists ----------

  ghost predicate DrawnFrom(ts: seq<Expr>, lhs: seq<Expr>) {
    forall i :: 0 <= i < |ts| ==> ts[i] == Ident("_", Other) || ts[i] in lhs
  }

  lemma {:induction false} DrawnIsSource(ts: seq<Expr>, lhs: seq<Expr>)
    requires DrawnFrom(ts, lhs) && forall t :: t in lhs ==> Source(t)
    ensures SourceList(ts)
  {
    if ts != [] {
      assert DrawnFrom(ts[1..], lhs) by { assert forall i :: 0 <= i < |ts| - 1 ==> ts[1..][i] == ts[i + 1]; }
      DrawnIsSource(ts[1..], lhs);
    }
  }

  /** The targets of a list are all captured if and only if every multi-target assignment to any of them, in
      any order and beside any number of blanks, agrees with Go for every right-hand side, every meaning of
      calls and every memory. */
  lemma ListsHandledIffCaptured(lhs: seq<Expr>)
    requires forall t :: t in lhs ==> Source(t) && Assignable(t)
    ensures AllCaptured(lhs) <==>
            forall ts, cs, rhs, w | DrawnFrom(ts, lhs) && SourceRhs(rhs) && RhsFits(rhs, |ts|) ::
              LoweringAgrees(cs, ts, rhs, w)
  {
    hide Source, Assignable, Captured, LoweringAgrees, SourceRhs;
    if AllCaptured(lhs) {
      BlankCall();
      forall ts, cs, rhs, w | DrawnFrom(ts, lhs) && SourceRhs(rhs) && RhsFits(rhs, |ts|)
        ensures LoweringAgrees(cs, ts, rhs, w)
      {
        DrawnIsSource(ts, lhs);
        LoweringIsTwoPhase(cs, ts, rhs, w);
      }
    } else {
      var i :| 0 <= i < |lhs| && !Captured(Unparen(lhs[i]));
      var ts := [Ident("_", Other), lhs[i]];
      assert DrawnFrom(ts, lhs);
      UncapturedTargetFails(lhs[i]);
      BlankCall();
    }
  }

  lemma BlankCall()
    ensures SourceRhs(Multi("f", [])) && Captured(Unparen(Ident("_", Other)))
  {
  }

  const A := Ident("a", Other)
  const AX := Selector(Paren(Index(A, Ident("i", Other), Other)), [], "x", Other)

  /** Nothing is left of a store when its whole variable is stored to afterwards. */
  lemma {:induction false} LaterStoreHides(mem: Memory, p: Place, v: Value, later: Value)
    ensures Store(mem, p, v)[RootOf(p) := later] == mem[RootOf(p) := later]
  {
    if p.Part? { LaterStoreHides(mem, p.of, SetPart(Load(mem, p.of), p.step, v), later); }
  }

  lemma PlaceOfAX(cs: Calls, temps: Temps, w: World)
    ensures PlaceOf(cs, AX, temps, w).1 == w && RootOf(PlaceOf(cs, AX, temps, w).0) == Var("a")
  {
    var k := Load(w.mem, Base(Var("i")));
    assert Eval(cs, Ident("i", Other), temps, w) == (k, w);
    assert PlaceOf(cs, Index(A, Ident("i", Other), Other), temps, w) == (Part(Base(Var("a")), At(k)), w);
    var p := Part(Base(Var("a")), At(k));
    assert PlaceOf(cs, AX, temps, w) == (Part(p, Field("x")), w);
    assert RootOf(p) == RootOf(Base(Var("a"))) == Var("a");
  }

  /** A single list can agree with Go although a target is not captured: in `(a[i]).x, a = f()` with an
      array a, the store to the wrong element is hidden by the one to all of a. */
  lemma OverwrittenTargetAgrees(cs: Calls, rhs: Rhs, w: World)
    requires SourceRhs(rhs) && RhsFits(rhs, 2)
    ensures Assignable(AX) && !AllCaptured([AX, A]) && LoweringAgrees(cs, [AX, A], rhs, w)
  {
    assert !Captured(Unparen([AX, A][0]));
    hide RunAll, TwoPhase, Lowered, EvalRhs, PlaceOf, Store, SourceRhs, LoweringAgrees;
    OverwrittenEarly(cs, rhs, w);
    OverwrittenLate(cs, rhs, w);
    LoweringAgreesMeans(cs, rhs, w);
  }

  lemma LoweringAgreesMeans(cs: Calls, rhs: Rhs, w: World)
    requires RhsFits(rhs, 2)
    ensures LoweringAgrees(cs, [AX, A], rhs, w) <==>
            RunAll(cs, Lowered([AX, A], rhs), map[], w).1 == TwoPhase(cs, [AX, A], rhs, w)
  {
    hide RunAll, TwoPhase, Lowered;
  }

  lemma StoresBoth(p: Place, v: Value, later: Value, w: World)
    requires RootOf(p) == Var("a")
    ensures StoreAll([p, Base(Var("a"))], [v, later], w) == w.(mem := w.mem[Var("a") := later])
  {
    LaterStoreHides(w.mem, p, v, later);
    var q := Base(Var("a"));
    var w3 := w.(mem := Store(w.mem, p, v));
    assert [p, q][1..] == [q] && [v, later][1..] == [later] && [q][1..] == [] && [later][1..] == [];
    assert StoreAll([q], [later], w3) == w3.(mem := w3.mem[Var("a") := later]);
  }

  lemma OverwrittenEarly(cs: Calls, rhs: Rhs, w: World)
    requires RhsFits(rhs, 2)
    ensures var (vs, w2) := EvalRhs(cs, rhs, 2, map[], w);
            |vs| == 2 && TwoPhase(cs, [AX, A], rhs, w) == w2.(mem := w2.mem[Var("a") := vs[1]])
  {
    var lhs, q := [AX, A], Base(Var("a"));
    var (vs, w2) := EvalRhs(cs, rhs, 2, map[], w);
    PlaceOfAX(cs, map[], w);
    hide EvalRhs, Store, StoreAll;
    var p := PlaceOf(cs, AX, map[], w).0;
    assert PlacesOf(cs, [A], map[], w) == ([q], w) by { assert [A][1..] == [] && [q] + [] == [q]; }
    assert PlacesOf(cs, lhs, map[], w) == ([p, q], w) by { assert lhs[1..] == [A] && [p] + [q] == [p, q]; }
    assert vs == [vs[0], vs[1]];
    StoresBoth(p, vs[0], vs[1], w2);
  }

  lemma OverwrittenLowered(rhs: Rhs)
    ensures Lowered([AX, A], rhs) ==
            [Define(Results(0, 2), rhs)] + [Assign(AX, Tmp(Result(0), Other)), Assign(A, Tmp(Result(1), Other))]
  {
    var lhs := [AX, A];
    assert CaptureOf(AX, 0) == Capture(AX, [], 0) && Unparen(AX) == AX;
    assert lhs[1..] == [A] && [A][1..] == [];
    assert CaptureEach([A], 0) == Captures([A], [], 0) by { assert [A] + [] == [A]; }
    assert CaptureEach(lhs, 0) == Captures([AX, A], [], 0) by { assert [AX] + [A] == [AX, A]; }
    assert [AX, A][1..] == [A];
    assert Stores([A], 1) == [Assign(A, Tmp(Result(1), Other))] + Stores([], 2);
    assert Stores([AX, A], 0) == [Assign(AX, Tmp(Result(0), Other))] + Stores([A], 1);
  }

  lemma OverwrittenLate(cs: Calls, rhs: Rhs, w: World)
    requires RhsFits(rhs, 2)
    ensures var (vs, w2) := EvalRhs(cs, rhs, 2, map[], w);
            |vs| == 2 && RunAll(cs, Lowered([AX, A], rhs), map[], w).1 == w2.(mem := w2.mem[Var("a") := vs[1]])
  {
    var (vs, w2) := EvalRhs(cs, rhs, 2, map[], w);
    OverwrittenLowered(rhs);
    hide EvalRhs, Lowered, Store, PlaceOf;
    var define := Define(Results(0, 2), rhs);
    var s0, s1 := Assign(AX, Tmp(Result(0), Other)), Assign(A, Tmp(Result(1), Other));
    RunOne(cs, define, map[], w);
    RunAppend(cs, [define], [s0, s1], map[], w);
    var t2 := BindAll(map[], Results(0, 2), vs);
    assert Results(0, 2)[1..] == [Result(1)];
    assert vs[1..][1..] == [];
    assert t2 == map[Result(0) := vs[0]][Result(1) := vs[1]];
    PlaceOfAX(cs, t2, w2);
    var p := PlaceOf(cs, AX, t2, w2).0;
    var w3 := w2.(mem := Store(w2.mem, p, vs[0]));
    StoreVariable(cs, s1, t2, w3, vs[1]);
    LaterStoreHides(w2.mem, p, vs[0], vs[1]);
    assert [s0, s1][1..] == [s1];
    RunOne(cs, s1, t2, w3);
  }

  lemma StoreVariable(cs: Calls, s: Stmt, temps: Temps, w: World, v: Value)
    requires s == Assign(A, Tmp(Result(1), Other)) && Result(1) in temps && temps[Result(1)] == v
    ensures Run(cs, s, temps, w) == (temps, w.(mem := w.mem[Var("a") := v]))
  {
  }
}
