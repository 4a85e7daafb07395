/** What a view and a publish have done when they return, whatever the other threads did meanwhile
    (interp/bashpp_cell_share.go). */
module CellCalls {
  import opened CellShare
  import opened Common

  // ---------- The steps of one operation ----------

  /** Thread t is inside an operation from state i on, and is idle again in state j. */
  ghost predicate During(run: seq<State>, steps: seq<Step>, t: nat, i: nat, j: nat) {
    && IsRun(run, steps) && i < j < |run| && t < |run[i].pcs|
    && (forall m :: i <= m < j ==> t < |run[m].pcs| && !run[m].pcs[t].Idle?)
    && t < |run[j].pcs| && run[j].pcs[t].Idle?
  }

  lemma DuringMeans(run: seq<State>, steps: seq<Step>, t: nat, i: nat, j: nat)
    requires During(run, steps, t, i, j)
    ensures IsRun(run, steps) && i < j < |run| == |steps| + 1 && t < |run[i].pcs| && !run[i].pcs[t].Idle?
    ensures t < |run[i + 1].pcs| && (run[i + 1].pcs[t].Idle? ==> i + 1 == j)
    ensures i + 1 < j ==> During(run, steps, t, i + 1, j)
    ensures !run[i + 1].pcs[t].Idle? ==> i + 1 < j
  {
    assert t < |run[i + 1].pcs|;
  }

  lemma StartMoves(s: State, step: Step, t: nat)
    requires CanStart(s, step) && t < |s.pcs| && !s.pcs[t].Idle?
    ensures t < |Start(s, step).pcs| && Start(s, step).pcs[t] == s.pcs[t]
  {
  }

  lemma Threads(s: State, t: nat)
    requires CanAdvance(s, t)
    ensures t < |s.pcs|
  {
  }

  /** Only its own steps move a thread that is inside an operation. */
  lemma OwnStep(run: seq<State>, steps: seq<Step>, t: nat, m: nat)
    requires IsRun(run, steps) && m < |steps| && t < |run[m].pcs| && !run[m].pcs[t].Idle?
    ensures Inv(run[m]) && Inv(run[m + 1]) && t < |run[m + 1].pcs|
    ensures steps[m] == Advance(t) ==> CanAdvance(run[m], t) && run[m + 1] == Go(run[m], t)
    ensures steps[m] != Advance(t) ==>
              run[m + 1].pcs[t] == run[m].pcs[t] &&
              (if steps[m].Advance? then steps[m].t != t && CanAdvance(run[m], steps[m].t) && run[m + 1] == Go(run[m], steps[m].t)
               else CanStart(run[m], steps[m]) && run[m + 1] == Start(run[m], steps[m]))
  {
    hide Inv, Go, Start, CanStart, CanAdvance;
    RunKeepsInv(run, steps, m);
    RunKeepsInv(run, steps, m + 1);
    var s, step := run[m], steps[m];
    assert CanDo(s, step) && run[m + 1] == Do(s, step);
    if step.Advance? {
      assert step == Advance(step.t);
      Threads(s, step.t);
      assert Shape(s, step.t, Go(s, step.t));
    } else {
      StartMoves(s, step, t);
    }
  }

  /** The next step of a thread that will be idle again. */
  lemma {:induction false} NextOwn(run: seq<State>, steps: seq<Step>, t: nat, i: nat, j: nat) returns (k: nat)
    requires During(run, steps, t, i, j)
    ensures i <= k < j < |run| == |steps| + 1 && steps[k] == Advance(t) && CanAdvance(run[k], t) && run[k + 1] == Go(run[k], t)
    ensures forall m :: i <= m <= k ==> t < |run[m].pcs| && run[m].pcs[t] == run[i].pcs[t]
    ensures forall m :: i <= m < k ==> steps[m] != Advance(t)
    ensures t < |run[k + 1].pcs| && (!run[k + 1].pcs[t].Idle? ==> k + 1 < j && During(run, steps, t, k + 1, j))
    ensures run[k + 1].pcs[t].Idle? ==> k + 1 == j
    ensures Inv(run[k]) && Inv(run[k + 1])
    decreases j - i
  {
    hide IsRun, Inv, Go, CanAdvance, Start, CanStart, During;
    DuringMeans(run, steps, t, i, j);
    OwnStep(run, steps, t, i);
    if steps[i] == Advance(t) {
      k := i;
    } else {
      k := NextOwn(run, steps, t, i + 1, j);
    }
  }

  // ---------- Cells nobody else can name ----------

  /** Thread t can name the unaliased cell c. */
  ghost predicate Private(s: State, t: nat, c: nat) {
    t < |s.pcs| && t < |s.reach| && c in s.reach[t] && c in s.cells && s.cells[c].guard.None?
  }

  lemma OtherNamesOther(s: State, t: nat, u: nat, c: nat)
    requires Inv(s) && Private(s, t, c) && u < |s.pcs| && u != t
    ensures c !in s.reach[u] && CellOf(s.pcs[u]) != Some(c)
  {
    hide ContentOk, SightsOk, LockOk;
    assert CellOk(s, c) && PcOk(s, u);
  }

  lemma ReadLeavesCell(s: State, u: nat, c: nat)
    requires CanAdvance(s, u) && Phase(s.pcs[u]) == 1
    ensures Go(s, u).cells == s.cells && Go(s, u).published == s.published
  {
    assert Go(s, u) == GoRead(s, u);
  }

  lemma WriteLeavesCell(s: State, u: nat, c: nat)
    requires CanAdvance(s, u) && Phase(s.pcs[u]) == 2 && c in s.cells && CellOf(s.pcs[u]) != Some(c)
    ensures c in Go(s, u).cells && Go(s, u).cells[c] == s.cells[c]
  {
    assert Go(s, u) == GoWrite(s, u);
  }

  lemma GoLeavesPrivate(s: State, t: nat, u: nat, c: nat)
    requires Inv(s) && Private(s, t, c) && CanAdvance(s, u) && u != t
    ensures Private(Go(s, u), t, c) && Go(s, u).cells[c] == s.cells[c]
  {
    Threads(s, u);
    OtherNamesOther(s, t, u, c);
    assert Shape(s, u, Go(s, u));
    if Phase(s.pcs[u]) == 1 {
      hide Inv, Go;
      ReadLeavesCell(s, u, c);
    } else {
      hide Inv, Go;
      WriteLeavesCell(s, u, c);
    }
  }

  lemma StartLeavesPrivate(s: State, t: nat, step: Step, c: nat)
    requires Inv(s) && Private(s, t, c) && CanStart(s, step) && !s.pcs[t].Idle?
    ensures Private(Start(s, step), t, c) && Start(s, step).cells[c] == s.cells[c]
  {
    forall u | 0 <= u < |s.pcs| && u != t ensures c !in s.reach[u] { OtherNamesOther(s, t, u, c); }
    hide Inv;
  }

  lemma {:induction false} PrivateStays(run: seq<State>, steps: seq<Step>, t: nat, c: nat, a: nat, b: nat)
    requires IsRun(run, steps) && a <= b < |run| && Private(run[a], t, c)
    requires forall m :: a <= m <= b ==> t < |run[m].pcs| && !run[m].pcs[t].Idle?
    requires forall m :: a <= m < b && m < |steps| ==> steps[m] != Advance(t)
    ensures Private(run[b], t, c) && run[b].cells[c] == run[a].cells[c]
    decreases b - a
  {
    if a < b {
      assert |run| == |steps| + 1;
      hide IsRun, Inv, Go, Start, CanStart, CanAdvance, Private;
      OwnStep(run, steps, t, a);
      if steps[a].Advance? { GoLeavesPrivate(run[a], t, steps[a].t, c); } else { StartLeavesPrivate(run[a], t, steps[a], c); }
      PrivateStays(run, steps, t, c, a + 1, b);
    }
  }

  // ---------- What a publish has done ----------

  lemma WriteSteps(s: State, t: nat, c: nat, snap: Bundle)
    requires CanAdvance(s, t) && Phase(s.pcs[t]) == 2 && c in s.cells
    ensures var r := Go(s, t);
            && t < |r.pcs| && c in r.cells && r.cells[c].guard == s.cells[c].guard
            && (s.pcs[t] == TestTarget(c, snap) ==>
                  && r.cells == s.cells && r.published == s.published
                  && r.pcs[t] == if s.cells[c].guard.None? then Storing(c, None, snap, 0)
                                 else WantWrite(c, s.cells[c].guard.value, snap))
            && (forall g :: s.pcs[t] == WantWrite(c, g, snap) ==>
                  r.pcs[t] == Announced(c, g, snap) && r.published == s.published)
            && (forall g :: s.pcs[t] == Announced(c, g, snap) ==>
                  r.pcs[t] == Storing(c, Some(g), snap, 0) && r.published == s.published)
  {
    assert Go(s, t) == GoWrite(s, t);
  }

  lemma StoreSteps(s: State, t: nat, c: nat, held: Option<nat>, snap: Bundle, n: nat)
    requires CanAdvance(s, t) && c in s.cells && s.pcs[t] == Storing(c, held, snap, n) && n <= FIELDS
    ensures var r := Go(s, t);
            && t < |r.pcs| && c in r.cells && r.cells[c].guard == s.cells[c].guard
            && (n < FIELDS ==>
                  && r.pcs[t] == Storing(c, held, snap, n + 1) && r.published == s.published
                  && r.cells[c].fields == s.cells[c].fields[n := snap[n]])
            && (n == FIELDS ==>
                  && r.pcs[t] == Idle && r.cells == s.cells
                  && (held.None? ==> r.published == s.published)
                  && (held.Some? ==>
                        c in s.published && r.published == s.published[c := s.published[c] + [snap]]))
  {
    assert Go(s, t) == GoWrite(s, t);
  }

  /** The first k fields are those of the snapshot. */
  ghost predicate StoredUpTo(s: State, c: nat, snap: Bundle, k: nat) {
    c in s.cells && k <= FIELDS && s.cells[c].fields[..k] == snap[..k]
  }

  /** A thread stores into a cell that nobody else can name: when it is done, all fields are the snapshot's. */
  lemma {:induction false} PrivateStored(run: seq<State>, steps: seq<Step>, t: nat, c: nat, snap: Bundle, n: nat,
                                         i: nat, j: nat)
    requires During(run, steps, t, i, j) && run[i].pcs[t] == Storing(c, None, snap, n) && n <= FIELDS
    requires Private(run[i], t, c) && StoredUpTo(run[i], c, snap, n)
    ensures j < |run| && c in run[j].cells && run[j].cells[c].fields == snap
    ensures |run| == |steps| + 1 && PublishesNothing(run, steps, t, i, j)
    decreases FIELDS - n
  {
    DuringMeans(run, steps, t, i, j);
    hide IsRun, CanAdvance, Inv, During, Go, Private, StoredUpTo, PublishesNothing;
    var a := NextOwn(run, steps, t, i, j);
    PrivateStays(run, steps, t, c, i, a);
    OneStored(run[i], run[a], t, c, snap, n);
    if n < FIELDS { PrivateStored(run, steps, t, c, snap, n + 1, a + 1, j); }
    NothingYet(run, steps, t, i, a, j);
  }

  lemma OneStored(s: State, was: State, t: nat, c: nat, snap: Bundle, n: nat)
    requires CanAdvance(was, t) && Private(s, t, c) && Private(was, t, c) && was.cells[c] == s.cells[c]
    requires was.pcs[t] == Storing(c, None, snap, n) && StoredUpTo(s, c, snap, n)
    ensures var r := Go(was, t);
            && r.published == was.published && t < |r.pcs|
            && (n < FIELDS ==> r.pcs[t] == Storing(c, None, snap, n + 1) && Private(r, t, c) && StoredUpTo(r, c, snap, n + 1))
            && (n == FIELDS ==> r.pcs[t] == Idle && c in r.cells && r.cells[c].fields == snap)
  {
    StoredBounds(s, c, snap, n);
    StillPrivate(was, t, c);
    StoreSteps(was, t, c, None, snap, n);
    hide Go, CanAdvance, StoredUpTo;
    StoredMore(s, was, Go(was, t), c, snap, n);
  }

  lemma StoredBounds(s: State, c: nat, snap: Bundle, n: nat)
    requires StoredUpTo(s, c, snap, n)
    ensures n <= FIELDS
  {
  }

  /** No step of thread t from i to j publishes anything. */
  ghost predicate PublishesNothing(run: seq<State>, steps: seq<Step>, t: nat, i: nat, j: nat)
    requires |run| == |steps| + 1 && j < |run|
  {
    forall m :: i <= m < j && steps[m] == Advance(t) ==> run[m + 1].published == run[m].published
  }

  lemma NothingYet(run: seq<State>, steps: seq<Step>, t: nat, i: nat, a: nat, j: nat)
    requires |run| == |steps| + 1 && i <= a < j < |run| && (a + 1 < j ==> PublishesNothing(run, steps, t, a + 1, j))
    requires run[a + 1].published == run[a].published && forall m :: i <= m < a ==> steps[m] != Advance(t)
    ensures PublishesNothing(run, steps, t, i, j)
  {
  }

  lemma StillPrivate(s: State, t: nat, c: nat)
    requires CanAdvance(s, t) && Private(s, t, c)
    ensures Private(Go(s, t), t, c)
  {
    assert Shape(s, t, Go(s, t));
  }

  lemma StoredMore(s: State, was: State, r: State, c: nat, snap: Bundle, n: nat)
    requires StoredUpTo(s, c, snap, n) && c in was.cells && c in r.cells && was.cells[c] == s.cells[c]
    requires if n < FIELDS then r.cells[c].fields == was.cells[c].fields[n := snap[n]] else r.cells[c] == was.cells[c]
    ensures n < FIELDS ==> StoredUpTo(r, c, snap, n + 1)
    ensures n == FIELDS ==> r.cells[c].fields == snap
  {
    if n == FIELDS {
      assert r.cells[c].fields[..n] == r.cells[c].fields && snap[..n] == snap;
    } else {
      var f, g := s.cells[c].fields, r.cells[c].fields;
      assert forall k :: 0 <= k < n ==> f[k] == f[..n][k] == snap[..n][k] == snap[k];
      assert forall k :: 0 <= k < n + 1 ==> g[k] == snap[k];
    }
  }

  /** Step k publishes a bundle into a cell, and no other step of thread t from i to j publishes anything. */
  ghost predicate PublishedOnce(run: seq<State>, steps: seq<Step>, t: nat, c: nat, snap: Bundle, k: nat, i: nat, j: nat)
    requires |run| == |steps| + 1 && j < |run|
  {
    && i <= k < j && steps[k] == Advance(t) && c in run[k].published
    && run[k + 1].published == run[k].published[c := run[k].published[c] + [snap]]
    && forall m :: i <= m < j && m != k && steps[m] == Advance(t) ==> run[m + 1].published == run[m].published
  }

  /** ... into a cell it has locked: when it is done, the snapshot has been published. */
  lemma {:induction false} SharedStored(run: seq<State>, steps: seq<Step>, t: nat, c: nat, g: nat, snap: Bundle, n: nat,
                                        i: nat, j: nat) returns (k: nat)
    requires During(run, steps, t, i, j) && run[i].pcs[t] == Storing(c, Some(g), snap, n) && n <= FIELDS
    ensures j < |run| == |steps| + 1 && PublishedOnce(run, steps, t, c, snap, k, i, j)
    ensures c in run[k + 1].cells && run[k + 1].cells[c].fields == snap
    decreases FIELDS - n
  {
    hide IsRun, CanAdvance, Inv, During, Go, PublishedOnce;
    var a := NextOwn(run, steps, t, i, j);
    CellKnown(run[a], t);
    StoreSteps(run[a], t, c, Some(g), snap, n);
    if n < FIELDS {
      k := SharedStored(run, steps, t, c, g, snap, n + 1, a + 1, j);
      MoreQuiet(run, steps, t, c, snap, k, i, a, j);
    } else {
      k := a;
      PublishedLast(run, steps, t, c, snap, a, i, j);
      AllStored(run[a], t, c, g, snap);
    }
  }

  lemma PublishedLast(run: seq<State>, steps: seq<Step>, t: nat, c: nat, snap: Bundle, a: nat, i: nat, j: nat)
    requires |run| == |steps| + 1 && i <= a < j < |run| && j == a + 1 && steps[a] == Advance(t) && c in run[a].published
    requires run[a + 1].published == run[a].published[c := run[a].published[c] + [snap]]
    requires forall m :: i <= m < a ==> steps[m] != Advance(t)
    ensures PublishedOnce(run, steps, t, c, snap, a, i, j)
  {
  }

  lemma CellKnown(s: State, t: nat)
    requires Inv(s) && t < |s.pcs| && CellOf(s.pcs[t]).Some?
    ensures CellOf(s.pcs[t]).value in s.cells && t < |s.reach| && CellOf(s.pcs[t]).value in s.reach[t]
    ensures GuardRead(s.pcs[t], s.cells[CellOf(s.pcs[t]).value].guard)
  {
    hide CellOk, ContentOk, LockOk, SightsOk;
    assert PcOk(s, t);
  }

  /** Once all fields are stored under the guard, they are the snapshot's. */
  lemma AllStored(s: State, t: nat, c: nat, g: nat, snap: Bundle)
    requires Inv(s) && t < |s.pcs| && s.pcs[t] == Storing(c, Some(g), snap, FIELDS)
    ensures c in s.cells && s.cells[c].fields == snap
  {
    hide SightsOk;
    assert PcOk(s, t) && CellOk(s, c) && ContentOk(s, c) && LockOk(s, g);
    assert Claims(s.pcs[t], g);
    assert snap[..FIELDS] + Latest(s, c)[FIELDS..] == snap;
  }

  /** When a publish returns it has stored the snapshot it took: into a cell that nobody else can name, all of
      whose fields are now the snapshot's, or into an armed one, for which it has published that bundle, once,
      and nothing else. */
  lemma PublishStores(run: seq<State>, steps: seq<Step>, t: nat, c: nat, snap: Bundle, i: nat, j: nat) returns (k: nat)
    requires During(run, steps, t, i, j) && run[i].pcs[t] == TestTarget(c, snap)
    ensures j < |run| == |steps| + 1 && c in run[i].cells
    ensures run[i].cells[c].guard.Some? ==>
              && PublishedOnce(run, steps, t, c, snap, k, i, j)
              && c in run[k + 1].cells && run[k + 1].cells[c].fields == snap
    ensures run[i].cells[c].guard.None? ==>
              c in run[j].cells && run[j].cells[c].fields == snap && PublishesNothing(run, steps, t, i, j)
  {
    DuringMeans(run, steps, t, i, j);
    OwnStep(run, steps, t, i);
    hide IsRun, CanAdvance, Inv, During, Go, PublishedOnce, PublishesNothing;
    CellKnown(run[i], t);
    k := 0;
    if run[i].cells[c].guard.None? {
      PrivatePublished(run, steps, t, c, snap, i, j);
    } else {
      k := SharedPublished(run, steps, t, c, snap, i, j);
    }
  }

  /** The test of the target's guard word, which has not changed since the publish began. */
  lemma TargetTested(run: seq<State>, steps: seq<Step>, t: nat, c: nat, snap: Bundle, i: nat, j: nat) returns (a: nat)
    requires During(run, steps, t, i, j) && run[i].pcs[t] == TestTarget(c, snap) && Inv(run[i]) && c in run[i].cells
    ensures i <= a < j < |run| == |steps| + 1 && During(run, steps, t, a + 1, j)
    ensures run[a + 1].published == run[a].published && forall m :: i <= m < a ==> steps[m] != Advance(t)
    ensures run[i].cells[c].guard.None? ==>
              && run[a + 1].pcs[t] == Storing(c, None, snap, 0)
              && Private(run[a + 1], t, c) && StoredUpTo(run[a + 1], c, snap, 0)
    ensures run[i].cells[c].guard.Some? ==> run[a + 1].pcs[t] == WantWrite(c, run[i].cells[c].guard.value, snap)
  {
    DuringMeans(run, steps, t, i, j);
    hide IsRun, CanAdvance, Inv, During, Go, Private, StoredUpTo;
    a := NextOwn(run, steps, t, i, j);
    CellKnown(run[a], t);
    GuardSame(run, steps, t, c, i, a);
    WriteSteps(run[a], t, c, snap);
    if run[i].cells[c].guard.None? { PrivateFrom(run[a], t, c, snap); }
  }

  lemma PrivatePublished(run: seq<State>, steps: seq<Step>, t: nat, c: nat, snap: Bundle, i: nat, j: nat)
    requires During(run, steps, t, i, j) && run[i].pcs[t] == TestTarget(c, snap) && Inv(run[i])
    requires c in run[i].cells && run[i].cells[c].guard.None?
    ensures j < |run| == |steps| + 1 && PublishesNothing(run, steps, t, i, j)
    ensures c in run[j].cells && run[j].cells[c].fields == snap
  {
    hide IsRun, CanAdvance, Inv, During, Go, Private, StoredUpTo, PublishesNothing;
    var a := TargetTested(run, steps, t, c, snap, i, j);
    PrivateStored(run, steps, t, c, snap, 0, a + 1, j);
    NothingYet(run, steps, t, i, a, j);
  }

  lemma SharedPublished(run: seq<State>, steps: seq<Step>, t: nat, c: nat, snap: Bundle, i: nat, j: nat) returns (k: nat)
    requires During(run, steps, t, i, j) && run[i].pcs[t] == TestTarget(c, snap) && Inv(run[i])
    requires c in run[i].cells && run[i].cells[c].guard.Some?
    ensures j < |run| == |steps| + 1 && PublishedOnce(run, steps, t, c, snap, k, i, j)
    ensures c in run[k + 1].cells && run[k + 1].cells[c].fields == snap
  {
    hide IsRun, CanAdvance, Inv, During, Go, Private, StoredUpTo, PublishedOnce;
    var a := TargetTested(run, steps, t, c, snap, i, j);
    k := LockedStored(run, steps, t, c, run[i].cells[c].guard.value, snap, a + 1, j);
    MoreQuiet(run, steps, t, c, snap, k, i, a, j);
  }

  /** Whether a cell is armed does not change under a thread that works on it. */
  lemma GuardSame(run: seq<State>, steps: seq<Step>, t: nat, c: nat, i: nat, a: nat)
    requires IsRun(run, steps) && i <= a < |run| && c in run[i].cells && c in run[a].cells && Inv(run[i])
    requires t < |run[i].pcs| && CellOf(run[i].pcs[t]) == Some(c)
    requires forall m :: i <= m <= a ==> t < |run[m].pcs| && !run[m].pcs[t].Idle?
    requires forall m :: i <= m < a ==> steps[m] != Advance(t)
    ensures run[a].cells[c].guard == run[i].cells[c].guard
    ensures run[i].cells[c].guard.None? ==> Private(run[i], t, c) && Private(run[a], t, c)
  {
    CellKnown(run[i], t);
    hide IsRun, Inv;
    if run[i].cells[c].guard.Some? {
      GuardWrittenOnce(run, steps, i, a, c);
    } else {
      PrivateStays(run, steps, t, c, i, a);
    }
  }

  lemma PrivateFrom(s: State, t: nat, c: nat, snap: Bundle)
    requires CanAdvance(s, t) && Private(s, t, c) && s.pcs[t] == TestTarget(c, snap)
    ensures Private(Go(s, t), t, c) && StoredUpTo(Go(s, t), c, snap, 0)
  {
    assert Go(s, t) == GoWrite(s, t);
  }

  lemma LockedStored(run: seq<State>, steps: seq<Step>, t: nat, c: nat, g: nat, snap: Bundle, i: nat, j: nat) returns (k: nat)
    requires During(run, steps, t, i, j) && run[i].pcs[t] == WantWrite(c, g, snap)
    ensures j < |run| == |steps| + 1 && PublishedOnce(run, steps, t, c, snap, k, i, j)
    ensures c in run[k + 1].cells && run[k + 1].cells[c].fields == snap
  {
    hide IsRun, CanAdvance, Inv, During, Go, PublishedOnce;
    var a := NextOwn(run, steps, t, i, j);
    CellKnown(run[a], t);
    WriteSteps(run[a], t, c, snap);
    var b := NextOwn(run, steps, t, a + 1, j);
    CellKnown(run[b], t);
    WriteSteps(run[b], t, c, snap);
    k := SharedStored(run, steps, t, c, g, snap, 0, b + 1, j);
    MoreQuiet(run, steps, t, c, snap, k, a + 1, b, j);
    MoreQuiet(run, steps, t, c, snap, k, i, a, j);
  }

  /** One more step in front that publishes nothing. */
  lemma MoreQuiet(run: seq<State>, steps: seq<Step>, t: nat, c: nat, snap: Bundle, k: nat, i: nat, a: nat, j: nat)
    requires |run| == |steps| + 1 && j < |run| && i <= a < j && PublishedOnce(run, steps, t, c, snap, k, a + 1, j)
    requires run[a + 1].published == run[a].published && forall m :: i <= m < a ==> steps[m] != Advance(t)
    ensures PublishedOnce(run, steps, t, c, snap, k, i, j)
  {
  }


  // ---------- What a view has seen ----------

  lemma ReadSteps(s: State, t: nat, src: nat, goal: Goal)
    requires CanAdvance(s, t) && Phase(s.pcs[t]) == 1 && src in s.cells
    ensures var r := Go(s, t);
            && t < |r.pcs|
            && (s.pcs[t] == TestSource(src, goal) ==>
                  r.pcs[t] == if s.cells[src].guard.None? then Copying(src, None, [], goal)
                              else WantRead(src, s.cells[src].guard.value, goal))
            && (forall g :: s.pcs[t] == WantRead(src, g, goal) ==> r.pcs[t] == Copying(src, Some(g), [], goal))
  {
    assert Go(s, t) == GoRead(s, t);
  }

  lemma CopySteps(s: State, t: nat, src: nat, held: Option<nat>, acc: seq<int>, goal: Goal)
    requires CanAdvance(s, t) && src in s.cells && s.pcs[t] == Copying(src, held, acc, goal) && |acc| <= FIELDS
    ensures var r := Go(s, t);
            && t < |r.pcs|
            && (|acc| < FIELDS ==> r.pcs[t] == Copying(src, held, acc + [s.cells[src].fields[|acc|]], goal) && r.sights == s.sights)
            && (|acc| == FIELDS ==> r.pcs[t] == if goal.Look? then Idle else TestTarget(goal.dst, acc))
            && (|acc| == FIELDS && held.None? ==> r.sights == s.sights)
            && (|acc| == FIELDS && held.Some? ==>
                  src in s.published && s.published[src] != [] &&
                  r.sights == s.sights + [Sight(src, acc, |s.published[src]| - 1)])
  {
    assert Go(s, t) == GoRead(s, t);
  }

  /** Step a completes a snapshot: all fields of the source as they are at that moment, which is what was last
      published if the source is armed. */
  ghost predicate Snapped(run: seq<State>, steps: seq<Step>, t: nat, src: nat, goal: Goal, a: nat)
    requires |run| == |steps| + 1 && a < |steps|
  {
    && steps[a] == Advance(t) && t < |run[a].pcs| && t < |run[a + 1].pcs| && src in run[a].cells
    && var snap := run[a].cells[src].fields;
       && run[a].pcs[t] == Copying(src, run[a].cells[src].guard, snap, goal)
       && (run[a].cells[src].guard.Some? ==>
             && src in run[a].published && run[a].published[src] != [] && snap == Latest(run[a], src)
             && run[a + 1].sights == run[a].sights + [Sight(src, snap, |run[a].published[src]| - 1)])
       && run[a + 1].pcs[t] == if goal.Look? then Idle else TestTarget(goal.dst, snap)
  }

  lemma {:induction false} CopyTaken(run: seq<State>, steps: seq<Step>, t: nat, src: nat, held: Option<nat>, acc: seq<int>,
                                     goal: Goal, i: nat, j: nat) returns (a: nat)
    requires During(run, steps, t, i, j) && run[i].pcs[t] == Copying(src, held, acc, goal) && |acc| <= FIELDS
    ensures i <= a < j < |run| == |steps| + 1 && Snapped(run, steps, t, src, goal, a)
    ensures goal.Look? ==> a + 1 == j
    ensures goal.Into? ==> During(run, steps, t, a + 1, j)
    decreases FIELDS - |acc|
  {
    hide IsRun, CanAdvance, Inv, During, Go, Snapped;
    var b := NextOwn(run, steps, t, i, j);
    CellKnown(run[b], t);
    CopySteps(run[b], t, src, held, acc, goal);
    if |acc| < FIELDS {
      a := CopyTaken(run, steps, t, src, held, acc + [run[b].cells[src].fields[|acc|]], goal, b + 1, j);
    } else {
      a := b;
      CopyIsWhole(run[b], t, src, held, acc, goal);
      SnappedAt(run, steps, t, src, goal, b);
    }
  }

  /** A complete copy is what the cell holds. */
  lemma CopyIsWhole(s: State, t: nat, src: nat, held: Option<nat>, acc: seq<int>, goal: Goal)
    requires Inv(s) && t < |s.pcs| && s.pcs[t] == Copying(src, held, acc, goal) && |acc| == FIELDS
    ensures src in s.cells && acc == s.cells[src].fields && held == s.cells[src].guard
    ensures held.Some? ==> src in s.published && s.published[src] != [] && acc == Latest(s, src)
  {
    hide SightsOk;
    assert PcOk(s, t);
    assert s.cells[src].fields[..FIELDS] == s.cells[src].fields;
    if held.Some? { CopiedLatest(s, t); }
  }

  lemma SnappedAt(run: seq<State>, steps: seq<Step>, t: nat, src: nat, goal: Goal, a: nat)
    requires |run| == |steps| + 1 && a < |steps| && steps[a] == Advance(t) && t < |run[a].pcs| && t < |run[a + 1].pcs|
    requires src in run[a].cells
    requires var snap := run[a].cells[src].fields;
             && run[a].pcs[t] == Copying(src, run[a].cells[src].guard, snap, goal)
             && (run[a].cells[src].guard.Some? ==>
                   && src in run[a].published && run[a].published[src] != [] && snap == Latest(run[a], src)
                   && run[a + 1].sights == run[a].sights + [Sight(src, snap, |run[a].published[src]| - 1)])
             && run[a + 1].pcs[t] == if goal.Look? then Idle else TestTarget(goal.dst, snap)
    ensures Snapped(run, steps, t, src, goal, a)
  {
  }

  /** A view takes a whole snapshot of its cell before it returns, and a publish one of its source before it
      turns to its target. */
  lemma SnapshotTaken(run: seq<State>, steps: seq<Step>, t: nat, src: nat, goal: Goal, i: nat, j: nat) returns (a: nat)
    requires During(run, steps, t, i, j) && run[i].pcs[t] == TestSource(src, goal)
    ensures i <= a < j < |run| == |steps| + 1 && Snapped(run, steps, t, src, goal, a)
    ensures goal.Look? ==> a + 1 == j
    ensures goal.Into? ==> During(run, steps, t, a + 1, j)
  {
    hide IsRun, CanAdvance, Inv, During, Go, Snapped;
    var b := NextOwn(run, steps, t, i, j);
    CellKnown(run[b], t);
    ReadSteps(run[b], t, src, goal);
    if run[b].cells[src].guard.None? {
      a := CopyTaken(run, steps, t, src, None, [], goal, b + 1, j);
    } else {
      var g := run[b].cells[src].guard.value;
      var c := NextOwn(run, steps, t, b + 1, j);
      CellKnown(run[c], t);
      ReadSteps(run[c], t, src, goal);
      a := CopyTaken(run, steps, t, src, Some(g), [], goal, c + 1, j);
    }
  }

  /** After dst = src has returned, dst has been given what src held: at step a all fields of src were read at
      once, and those very fields were then stored into dst, as one published bundle if dst is armed. */
  lemma PublishCopies(run: seq<State>, steps: seq<Step>, t: nat, dst: nat, src: nat, i: nat, j: nat) returns (a: nat, k: nat)
    requires During(run, steps, t, i, j) && run[i].pcs[t] == TestSource(src, Into(dst))
    ensures i <= a < a + 1 < j < |run| == |steps| + 1 && Snapped(run, steps, t, src, Into(dst), a)
    ensures dst in run[a + 1].cells
    ensures run[a + 1].cells[dst].guard.Some? ==> PublishedOnce(run, steps, t, dst, run[a].cells[src].fields, k, a + 1, j)
    ensures run[a + 1].cells[dst].guard.None? ==> dst in run[j].cells && run[j].cells[dst].fields == run[a].cells[src].fields
  {
    hide IsRun, CanAdvance, Inv, During, Go, PublishedOnce, PublishesNothing;
    a := SnapshotTaken(run, steps, t, src, Into(dst), i, j);
    DuringMeans(run, steps, t, a + 1, j);
    k := PublishStores(run, steps, t, dst, run[a].cells[src].fields, a + 1, j);
  }
}
