/** What each call on the signal state has done when it returns, whatever the other threads did meanwhile
    (interp/async_signal.go). */
module AsyncCalls {
  import opened AsyncSignal
  import opened Common

  // ---------- Trap callbacks ----------

  function Occurrences(q: seq<string>, callback: string): nat {
    if q == [] then 0 else Occurrences(q[..|q| - 1], callback) + (if q[|q| - 1] == callback then 1 else 0)
  }

  /** Whether a thread has decided to queue a callback and not done so yet. */
  function Holding(pc: Pc, callback: string): nat {
    if pc == RouteQuit(Some(callback)) || pc == RouteQueue(callback) then 1 else 0
  }

  function Held(pcs: seq<Pc>, callback: string): nat {
    if pcs == [] then 0 else Holding(pcs[0], callback) + Held(pcs[1..], callback)
  }

  /** This step reaches the verdict that the callback is to be queued. */
  ghost predicate Decides(s: State, step: Step, callback: string) {
    step.Advance? && step.t < |s.pcs| && s.pcs[step.t].RouteDecide? && s.pcs[step.t].sig < |s.signals| &&
    VerdictOf(s.signals[s.pcs[step.t].sig], s.traps) == Queue(callback)
  }

  ghost function Decided(run: seq<State>, steps: seq<Step>, i: nat, callback: string): nat
    requires i <= |steps| && i <= |run|
  {
    if i == 0 then 0
    else Decided(run, steps, i - 1, callback) + (if Decides(run[i - 1], steps[i - 1], callback) then 1 else 0)
  }

  lemma {:induction false} HeldUpdate(pcs: seq<Pc>, t: nat, pc: Pc, callback: string)
    requires t < |pcs|
    ensures Held(pcs[t := pc], callback) == Held(pcs, callback) - Holding(pcs[t], callback) + Holding(pc, callback)
  {
    if t == 0 {
      assert pcs[t := pc][1..] == pcs[1..];
    } else {
      assert pcs[t := pc][1..] == pcs[1..][t - 1 := pc];
      HeldUpdate(pcs[1..], t - 1, pc, callback);
    }
  }

  lemma {:induction false} IdleHoldsNothing(pcs: seq<Pc>, callback: string)
    requires forall t :: 0 <= t < |pcs| ==> pcs[t] == Idle
    ensures Held(pcs, callback) == 0
  {
    if pcs != [] { IdleHoldsNothing(pcs[1..], callback); }
  }

  lemma OccurrencesAppend(q: seq<string>, x: string, callback: string)
    ensures Occurrences(q + [x], callback) == Occurrences(q, callback) + (if x == callback then 1 else 0)
  {
    assert (q + [x])[..|q|] == q;
  }

  lemma JudgeConserves(s: State, t: nat, callback: string)
    requires CanAdvance(s, t) && Op(s.pcs[t]) == JudgeOp
    ensures var s' := GoJudge(s, t);
            Occurrences(s'.queued, callback) + Holding(s'.pcs[t], callback) ==
            Occurrences(s.queued, callback) + Holding(s.pcs[t], callback)
            + if Decides(s, Advance(t), callback) then 1 else 0
  {
    hide VerdictOf, Occurrences;
    if s.pcs[t].RouteQueue? { OccurrencesAppend(s.queued, s.pcs[t].callback, callback); }
  }

  /** Nothing is queued, and no verdict to queue is held. */
  ghost predicate QueuesNothing(s: State, t: nat, r: State) {
    r.queued == s.queued && t < |r.pcs| && !r.pcs[t].RouteQuit? && !r.pcs[t].RouteQueue?
  }

  lemma OthersConserve(s: State, t: nat, callback: string)
    requires CanAdvance(s, t) && Op(s.pcs[t]) != JudgeOp
    ensures Go(s, t).queued == s.queued && !Decides(s, Advance(t), callback)
    ensures Holding(Go(s, t).pcs[t], callback) == 0 == Holding(s.pcs[t], callback)
  {
    match Op(s.pcs[t])
    case BeginOp => BeginQueuesNothing(s, t);
    case EndOp => EndQueuesNothing(s, t);
    case RouteOp => RouteQueuesNothing(s, t);
    case FinishOp => FinishQueuesNothing(s, t);
    case ExecOp => ExecQueuesNothing(s, t);
  }

  lemma BeginQueuesNothing(s: State, t: nat)
    requires CanAdvance(s, t) && Op(s.pcs[t]) == BeginOp
    ensures QueuesNothing(s, t, Go(s, t))
  {
    assert Go(s, t) == GoBegin(s, t);
  }

  lemma EndQueuesNothing(s: State, t: nat)
    requires CanAdvance(s, t) && Op(s.pcs[t]) == EndOp
    ensures QueuesNothing(s, t, Go(s, t))
  {
    assert Go(s, t) == GoEnd(s, t);
  }

  lemma RouteQueuesNothing(s: State, t: nat)
    requires CanAdvance(s, t) && Op(s.pcs[t]) == RouteOp
    ensures QueuesNothing(s, t, Go(s, t))
  {
    assert Go(s, t) == GoRoute(s, t);
  }

  lemma FinishQueuesNothing(s: State, t: nat)
    requires CanAdvance(s, t) && Op(s.pcs[t]) == FinishOp
    ensures QueuesNothing(s, t, Go(s, t))
  {
    assert Go(s, t) == GoFinish(s, t);
  }

  lemma ExecQueuesNothing(s: State, t: nat)
    requires CanAdvance(s, t) && Op(s.pcs[t]) == ExecOp
    ensures QueuesNothing(s, t, Go(s, t))
  {
    assert Go(s, t) == GoExec(s, t);
  }

  lemma StepConserves(s: State, t: nat, callback: string)
    requires CanAdvance(s, t)
    ensures Occurrences(Go(s, t).queued, callback) + Held(Go(s, t).pcs, callback) ==
            Occurrences(s.queued, callback) + Held(s.pcs, callback)
            + if Decides(s, Advance(t), callback) then 1 else 0
  {
    var s' := Go(s, t);
    if Op(s.pcs[t]) == JudgeOp { JudgeConserves(s, t, callback); } else { OthersConserve(s, t, callback); }
    hide Go, Decides, Holding, Occurrences, Held, CanAdvance;
    assert s'.pcs == s.pcs[t := s'.pcs[t]];
    HeldUpdate(s.pcs, t, s'.pcs[t], callback);
  }

  lemma CallConserves(s: State, step: Step, callback: string)
    requires CanCall(s, step) && |s.pcs| == |s.open|
    ensures Call(s, step).queued == s.queued && Held(Call(s, step).pcs, callback) == Held(s.pcs, callback)
    ensures !Decides(s, step, callback)
  {
    var s' := Call(s, step);
    if !step.SetTraps? && !step.Unpublish? { HeldUpdate(s.pcs, step.t, s'.pcs[step.t], callback); }
  }

  /** No trap is lost or queued twice: each callback is queued, or in the hands of a thread about to queue it,
      exactly as often as a routed signal was judged to be trapped by it. */
  lemma {:induction false} TrapsConserved(run: seq<State>, steps: seq<Step>, i: nat, callback: string)
    requires IsRun(run, steps) && i < |run|
    ensures Occurrences(run[i].queued, callback) + Held(run[i].pcs, callback) == Decided(run, steps, i, callback)
  {
    hide Go, Call, CanAdvance, CanCall, Decides, Inv, Occurrences, Held;
    if i == 0 {
      NothingQueued(run[0], callback);
    } else {
      TrapsConserved(run, steps, i - 1, callback);
      var s, step := run[i - 1], steps[i - 1];
      assert CanDo(s, step) && run[i - 1 + 1] == Do(s, step);
      if step.Advance? {
        assert step == Advance(step.t);
        StepConserves(s, step.t, callback);
      } else {
        ThreadsKnown(run, steps, i - 1);
        CallConserves(s, step, callback);
      }
    }
  }

  lemma NothingQueued(s: State, callback: string)
    requires Init(s)
    ensures Occurrences(s.queued, callback) + Held(s.pcs, callback) == 0
  {
    IdleHoldsNothing(s.pcs, callback);
  }

  lemma ThreadsKnown(run: seq<State>, steps: seq<Step>, i: nat)
    requires IsRun(run, steps) && i < |run|
    ensures |run[i].pcs| == |run[i].open| && MutexOk(run[i])
  {
    hide IsRun;
    RunKeepsInv(run, steps, i);
    hide MutexOk, PcOk, InterruptOk, SignalsOk, ConservedOk;
    assert MutexOk(run[i]);
    MutexKnows(run[i]);
  }

  lemma MutexKnows(s: State)
    requires MutexOk(s)
    ensures |s.pcs| == |s.open|
  {
  }

  // ---------- The steps of one call ----------

  /** Thread t is inside a call from state i on, and has returned in state j. */
  ghost predicate During(run: seq<State>, steps: seq<Step>, t: nat, i: nat, j: nat) {
    && IsRun(run, steps) && i < j < |run| && t < |run[i].pcs|
    && (forall m :: i <= m < j ==> t < |run[m].pcs| && !run[m].pcs[t].Idle?)
    && t < |run[j].pcs| && run[j].pcs[t].Idle?
  }

  /** Only its own steps move a thread that is inside a call. */
  lemma OwnStep(run: seq<State>, steps: seq<Step>, t: nat, m: nat)
    requires IsRun(run, steps) && m < |steps| && t < |run[m].pcs| && !run[m].pcs[t].Idle?
    ensures Inv(run[m]) && Inv(run[m + 1]) && t < |run[m + 1].pcs|
    ensures steps[m] == Advance(t) ==> CanAdvance(run[m], t) && run[m + 1] == Go(run[m], t)
    ensures steps[m] != Advance(t) ==>
              run[m + 1].pcs[t] == run[m].pcs[t] &&
              (if steps[m].Advance? then CanAdvance(run[m], steps[m].t) && run[m + 1] == Go(run[m], steps[m].t)
               else CanCall(run[m], steps[m]) && run[m + 1] == Call(run[m], steps[m]))
  {
    hide Inv, Go, Call, CanCall, CanAdvance;
    RunKeepsInv(run, steps, m);
    RunKeepsInv(run, steps, m + 1);
    ThreadsKnown(run, steps, m);
    var s, step := run[m], steps[m];
    assert CanDo(s, step) && run[m + 1] == Do(s, step);
    if step.Advance? {
      assert step == Advance(step.t);
      assert Shape(s, step.t, Go(s, step.t)) by { Threads(s, step.t); }
    } else {
      CallMoves(s, step, t);
    }
  }

  lemma Threads(s: State, t: nat)
    requires CanAdvance(s, t)
    ensures t < |s.pcs|
  {
  }

  lemma CallMoves(s: State, step: Step, t: nat)
    requires CanCall(s, step) && |s.pcs| == |s.open| && t < |s.pcs| && !s.pcs[t].Idle?
    ensures t < |Call(s, step).pcs| && Call(s, step).pcs[t] == s.pcs[t]
  {
  }

  lemma DuringMeans(run: seq<State>, steps: seq<Step>, t: nat, i: nat, j: nat)
    requires During(run, steps, t, i, j)
    ensures IsRun(run, steps) && i < j < |run| == |steps| + 1 && t < |run[i].pcs| && !run[i].pcs[t].Idle?
    ensures t < |run[i + 1].pcs| && (run[i + 1].pcs[t].Idle? ==> i + 1 == j)
    ensures i + 1 < j ==> During(run, steps, t, i + 1, j)
    ensures !run[i + 1].pcs[t].Idle? ==> i + 1 < j
  {
    assert t < |run[i + 1].pcs|;
  }

  /** The next step of a thread that will have returned. */
  lemma {:induction false} NextOwn(run: seq<State>, steps: seq<Step>, t: nat, i: nat, j: nat) returns (k: nat)
    requires During(run, steps, t, i, j)
    ensures i <= k < j < |run| == |steps| + 1 && steps[k] == Advance(t) && CanAdvance(run[k], t) && run[k + 1] == Go(run[k], t)
    ensures forall m :: i <= m <= k ==> t < |run[m].pcs| && run[m].pcs[t] == run[i].pcs[t]
    ensures forall m :: i <= m < k ==> steps[m] != Advance(t)
    ensures t < |run[k + 1].pcs| && (!run[k + 1].pcs[t].Idle? ==> k + 1 < j && During(run, steps, t, k + 1, j))
    ensures run[k + 1].pcs[t].Idle? ==> k + 1 == j
    ensures Inv(run[k]) && Inv(run[k + 1])
    decreases j - i
  {
    hide IsRun, Inv, Go, CanAdvance, Call, CanCall, During;
    DuringMeans(run, steps, t, i, j);
    OwnStep(run, steps, t, i);
    if steps[i] == Advance(t) {
      k := i;
    } else {
      k := NextOwn(run, steps, t, i + 1, j);
    }
  }

  // ---------- What other threads leave alone ----------

  lemma OutsideBegins(s: State, u: nat)
    requires CanAdvance(s, u) && !Locked(s.pcs[u]) && Op(s.pcs[u]) != RouteOp && Op(s.pcs[u]) != JudgeOp
    ensures Untouched(s, Go(s, u))
  {
    match Op(s.pcs[u])
    case BeginOp => assert Go(s, u) == GoBegin(s, u);
    case EndOp => assert Go(s, u) == GoEnd(s, u);
    case FinishOp => assert Go(s, u) == GoFinish(s, u);
    case ExecOp => assert Go(s, u) == GoExec(s, u);
  }

  lemma OutsideRoutes(s: State, u: nat)
    requires CanAdvance(s, u) && !Locked(s.pcs[u]) && (Op(s.pcs[u]) == RouteOp || Op(s.pcs[u]) == JudgeOp)
    ensures Untouched(s, Go(s, u))
  {
    hide VerdictOf, AfterVerdict;
    assert Go(s, u) == if Op(s.pcs[u]) == RouteOp then GoRoute(s, u) else GoJudge(s, u);
  }

  /** What the mutex protects is the same, but that a published attempt may have been withdrawn. */
  ghost predicate Untouched(s: State, r: State) {
    && r.run == s.run && r.pending == s.pending && r.recorded == s.recorded && r.taken == s.taken && r.runs == s.runs
    && (r.current ==> s.current) && s.cancelled <= r.cancelled && s.signals <= r.signals
  }

  lemma CallUntouched(s: State, step: Step)
    requires CanCall(s, step) && |s.pcs| == |s.open|
    ensures Untouched(s, Call(s, step))
  {
  }

  lemma OthersUntouched(run: seq<State>, steps: seq<Step>, t: nat, m: nat)
    requires IsRun(run, steps) && m < |steps| && t < |run[m].pcs| && Locked(run[m].pcs[t]) && steps[m] != Advance(t)
    ensures Untouched(run[m], run[m + 1])
  {
    OwnStep(run, steps, t, m);
    ThreadsKnown(run, steps, m);
    hide Inv, Go, Call, CanCall, CanAdvance, Untouched, IsRun;
    var s, step := run[m], steps[m];
    if step.Advance? {
      OnlyOneLocked(s, t, step.t);
      if Op(s.pcs[step.t]) == RouteOp || Op(s.pcs[step.t]) == JudgeOp {
        OutsideRoutes(s, step.t);
      } else {
        OutsideBegins(s, step.t);
      }
    } else {
      CallUntouched(s, step);
    }
  }

  lemma OnlyOneLocked(s: State, t: nat, u: nat)
    requires MutexOk(s) && t < |s.pcs| && Locked(s.pcs[t]) && CanAdvance(s, u) && u != t
    ensures u < |s.pcs| && !Locked(s.pcs[u])
  {
  }

  lemma {:induction false} Steady(run: seq<State>, steps: seq<Step>, t: nat, a: nat, b: nat)
    requires IsRun(run, steps) && a <= b < |run|
    requires forall m :: a <= m <= b ==> t < |run[m].pcs| && Locked(run[m].pcs[t])
    requires forall m :: a <= m < b ==> steps[m] != Advance(t)
    ensures Untouched(run[a], run[b])
    decreases b - a
  {
    hide IsRun;
    if a < b {
      assert |run| == |steps| + 1 by { RunLength(run, steps); }
      Steady(run, steps, t, a + 1, b);
      OthersUntouched(run, steps, t, a);
    }
  }

  lemma RunLength(run: seq<State>, steps: seq<Step>)
    requires IsRun(run, steps)
    ensures |run| == |steps| + 1
  {
  }

  // ---------- What only grows ----------

  ghost predicate Grown(s: State, r: State) {
    s.cancelled <= r.cancelled && s.signals <= r.signals && s.runs <= r.runs &&
    (r.run.Some? ==> r.run == s.run || r.run.value >= s.runs)
  }

  lemma GoGrows(s: State, t: nat)
    requires CanAdvance(s, t)
    ensures Grown(s, Go(s, t))
  {
    hide VerdictOf, AfterVerdict;
    match Op(s.pcs[t])
    case BeginOp => assert Go(s, t) == GoBegin(s, t);
    case EndOp => assert Go(s, t) == GoEnd(s, t);
    case JudgeOp => assert Go(s, t) == GoJudge(s, t);
    case RouteOp => assert Go(s, t) == GoRoute(s, t);
    case FinishOp => assert Go(s, t) == GoFinish(s, t);
    case ExecOp => assert Go(s, t) == GoExec(s, t);
  }

  lemma {:induction false} RunGrown(run: seq<State>, steps: seq<Step>, a: nat, b: nat)
    requires IsRun(run, steps) && a <= b < |run|
    ensures Grown(run[a], run[b])
    decreases b - a
  {
    hide Go, Call, CanAdvance, CanCall;
    if a < b {
      RunGrown(run, steps, a + 1, b);
      var s, step := run[a], steps[a];
      assert CanDo(s, step) && run[a + 1] == Do(s, step);
      if step.Advance? {
        GoGrows(s, step.t);
      } else {
        ThreadsKnown(run, steps, a);
        CallUntouched(s, step);
      }
    }
  }


  // ---------- What a finished call has done ----------

  function AsList(o: Option<nat>): seq<nat> { if o.Some? then [o.value] else [] }

  /** A finish takes the signal that is pending, whichever it is, clears it, and returns just that one. */
  lemma FinishTakesPending(run: seq<State>, steps: seq<Step>, t: nat, i: nat, j: nat) returns (k: nat, l: nat)
    requires During(run, steps, t, i, j) && run[i].pcs[t].FinishWait?
    ensures i <= k < l < j && steps[k] == steps[l] == Advance(t)
    ensures run[k + 1].pending == None && run[k + 1].taken == run[k].taken + AsList(run[k].pending)
    ensures run[l + 1].finished == run[l].finished + AsList(run[k].pending)
  {
    hide IsRun, CanAdvance, Inv, During, Go, AsList;
    var a := NextOwn(run, steps, t, i, j);
    FinishSteps(run[a], t);
    var b := NextOwn(run, steps, t, a + 1, j);
    FinishSteps(run[b], t);
    k := NextOwn(run, steps, t, b + 1, j);
    FinishSteps(run[k], t);
    l := FinishReturns(run, steps, t, run[k].pending, k + 1, j);
  }

  /** What has been cleared is returned. */
  lemma FinishReturns(run: seq<State>, steps: seq<Step>, t: nat, got: Option<nat>, c: nat, j: nat) returns (l: nat)
    requires During(run, steps, t, c, j) && run[c].pcs[t] == FinishUnlock(got)
    ensures c <= l < j < |run| == |steps| + 1 && steps[l] == Advance(t)
    ensures run[l + 1].finished == run[l].finished + AsList(got)
  {
    hide IsRun, CanAdvance, Inv, During, Go, AsList;
    var d := NextOwn(run, steps, t, c, j);
    FinishSteps(run[d], t);
    l := NextOwn(run, steps, t, d + 1, j);
    FinishSteps(run[l], t);
  }

  lemma FinishSteps(s: State, t: nat)
    requires CanAdvance(s, t) && Op(s.pcs[t]) == FinishOp && Inv(s)
    ensures var r := Go(s, t);
            && t < |r.pcs|
            && (s.pcs[t].FinishWait? ==> r.pcs[t] == FinishRead)
            && (s.pcs[t].FinishRead? ==> r.pcs[t].FinishClear?)
            && (s.pcs[t].FinishClear? ==>
                  && s.pcs[t].got == s.pending && r.pcs[t] == FinishUnlock(s.pending)
                  && r.pending == None && r.taken == s.taken + AsList(s.pending))
            && (s.pcs[t].FinishUnlock? ==> r.pcs[t] == FinishReturn(s.pcs[t].got))
            && (s.pcs[t].FinishReturn? ==> r.pcs[t] == Idle && r.finished == s.finished + AsList(s.pcs[t].got))
  {
    hide InterruptOk, SignalsOk, ConservedOk, MutexOk;
    assert PcOk(s, t);
    assert s.taken + [] == s.taken && s.finished + [] == s.finished;
    assert Go(s, t) == GoFinish(s, t);
  }


  /** An end removes its own run, for good, and cancels it. */
  lemma EndRemovesRun(run: seq<State>, steps: seq<Step>, t: nat, r: nat, i: nat, j: nat)
    requires During(run, steps, t, i, j) && run[i].pcs[t] == EndWait(r)
    ensures run[j].run != Some(r) && r in run[j].cancelled
  {
    RunNumbersKnown(run, steps, i);
    assert i < |run| && IsRun(run, steps);
    hide IsRun, CanAdvance, Inv, During, Go, RunNumbers, Grown;
    assert r < run[i].runs by { KnownAt(run[i], t, r); }
    var c := EndReleases(run, steps, t, r, i, j);
    EndCancels(run, steps, t, r, c, j);
    assert run[c].run != Some(r);
    assert |run| > j by { DuringMeans(run, steps, t, c, j); }
    RunStaysGone(run, steps, r, i, c, j);
  }

  /** Up to the end of its critical section. */
  lemma EndReleases(run: seq<State>, steps: seq<Step>, t: nat, r: nat, i: nat, j: nat) returns (c: nat)
    requires During(run, steps, t, i, j) && run[i].pcs[t] == EndWait(r)
    ensures i <= c < j && During(run, steps, t, c, j) && run[c].pcs[t] == EndUnlock(r) && run[c].run != Some(r)
  {
    hide IsRun, CanAdvance, Inv, During, Go;
    var a := NextOwn(run, steps, t, i, j);
    EndSteps(run[a], t, r);
    var b := NextOwn(run, steps, t, a + 1, j);
    EndSteps(run[b], t, r);
    c := b + 1;
    if run[b].run == Some(r) {
      var d := NextOwn(run, steps, t, b + 1, j);
      EndSteps(run[d], t, r);
      c := d + 1;
    }
  }

  /** ... and from there on. */
  lemma EndCancels(run: seq<State>, steps: seq<Step>, t: nat, r: nat, c: nat, j: nat)
    requires During(run, steps, t, c, j) && run[c].pcs[t] == EndUnlock(r)
    ensures j < |run| && r in run[j].cancelled
  {
    hide IsRun, CanAdvance, Inv, During, Go;
    var d := NextOwn(run, steps, t, c, j);
    EndSteps(run[d], t, r);
    var e := NextOwn(run, steps, t, d + 1, j);
    EndSteps(run[e], t, r);
  }

  lemma EndSteps(s: State, t: nat, r: nat)
    requires CanAdvance(s, t) && Op(s.pcs[t]) == EndOp && Inv(s)
    ensures var s' := Go(s, t);
            && t < |s'.pcs|
            && (s.pcs[t] == EndWait(r) ==> s'.pcs[t] == EndTest(r))
            && (s.pcs[t] == EndTest(r) ==>
                  s'.run == s.run && s'.pcs[t] == if s.run == Some(r) then EndClear(r) else EndUnlock(r))
            && (s.pcs[t] == EndClear(r) ==> s'.pcs[t] == EndUnlock(r) && s'.run == None)
            && (s.pcs[t] == EndUnlock(r) ==> s'.pcs[t] == EndCancel(r))
            && (s.pcs[t] == EndCancel(r) ==> s'.pcs[t] == Idle && r in s'.cancelled)
  {
    hide Inv;
    assert Go(s, t) == GoEnd(s, t);
  }

  /** A run that has been replaced never comes back: runs are numbered afresh. */
  lemma RunStaysGone(run: seq<State>, steps: seq<Step>, r: nat, i: nat, c: nat, j: nat)
    requires IsRun(run, steps) && i <= c <= j < |run| && r < run[i].runs && run[c].run != Some(r)
    ensures run[j].run != Some(r)
  {
    RunGrown(run, steps, i, c);
    RunGrown(run, steps, c, j);
  }

  /** The run an ending thread is about. */
  function Ending(pc: Pc): Option<nat> {
    match pc
    case EndWait(r) => Some(r)
    case EndTest(r) => Some(r)
    case EndClear(r) => Some(r)
    case EndUnlock(r) => Some(r)
    case EndCancel(r) => Some(r)
    case BeginPending(r) => Some(r)
    case BeginUnlock(mine) => mine
    case _ => None
  }

  /** Every run that somebody may end, or is ending, has been created. */
  ghost predicate RunNumbers(s: State) {
    && (forall t, r :: 0 <= t < |s.open| && r in s.open[t] ==> r < s.runs)
    && (forall t :: 0 <= t < |s.pcs| && Ending(s.pcs[t]).Some? ==> Ending(s.pcs[t]).value < s.runs)
  }

  lemma KnownAt(s: State, t: nat, r: nat)
    requires RunNumbers(s) && t < |s.pcs| && s.pcs[t] == EndWait(r)
    ensures r < s.runs
  {
    assert Ending(s.pcs[t]) == Some(r);
  }

  lemma {:induction false} RunNumbersKnown(run: seq<State>, steps: seq<Step>, i: nat)
    requires IsRun(run, steps) && i < |run|
    ensures RunNumbers(run[i])
  {
    hide Go, Call, CanAdvance, CanCall, RunNumbers;
    if i == 0 {
      NoRunNumbers(run[0]);
    } else {
      RunNumbersKnown(run, steps, i - 1);
      ThreadsKnown(run, steps, i - 1);
      var s, step := run[i - 1], steps[i - 1];
      assert CanDo(s, step) && run[i - 1 + 1] == Do(s, step);
      if step.Advance? { GoKeepsNumbers(s, step.t); } else { CallKeepsNumbers(s, step); }
    }
  }

  lemma NoRunNumbers(s: State)
    requires Init(s)
    ensures RunNumbers(s)
  {
  }

  lemma CallKeepsNumbers(s: State, step: Step)
    requires CanCall(s, step) && |s.pcs| == |s.open| && RunNumbers(s)
    ensures RunNumbers(Call(s, step))
  {
  }

  /** One thread moved: it ends a run it was ending, or one just created. */
  ghost predicate NumbersMove(s: State, t: nat, r: State) {
    && t < |s.pcs| && t < |r.pcs| && r.pcs == s.pcs[t := r.pcs[t]] && s.runs <= r.runs && t < |s.open| && t < |r.open|
    && (Ending(r.pcs[t]).Some? ==> Ending(r.pcs[t]) == Ending(s.pcs[t]) || Ending(r.pcs[t]).value < r.runs)
    && r.open == s.open[t := r.open[t]]
    && forall x :: x in r.open[t] ==> x in s.open[t] || Ending(s.pcs[t]) == Some(x)
  }

  lemma BeginMovesNumbers(s: State, t: nat)
    requires CanAdvance(s, t) && Op(s.pcs[t]) == BeginOp
    ensures NumbersMove(s, t, Go(s, t))
  {
    assert Go(s, t) == GoBegin(s, t);
  }

  lemma EndMovesNumbers(s: State, t: nat)
    requires CanAdvance(s, t) && Op(s.pcs[t]) == EndOp
    ensures NumbersMove(s, t, Go(s, t))
  {
    assert Go(s, t) == GoEnd(s, t);
  }

  /** The other operations begin and end no run. */
  lemma OthersMoveNumbers(s: State, t: nat)
    requires CanAdvance(s, t) && Op(s.pcs[t]) != BeginOp && Op(s.pcs[t]) != EndOp
    ensures var r := Go(s, t);
            t < |r.pcs| && r.pcs == s.pcs[t := r.pcs[t]] && Ending(r.pcs[t]) == None && r.open == s.open && r.runs == s.runs
  {
    hide VerdictOf, AfterVerdict;
    match Op(s.pcs[t])
    case JudgeOp => assert Go(s, t) == GoJudge(s, t);
    case RouteOp => assert Go(s, t) == GoRoute(s, t);
    case FinishOp => assert Go(s, t) == GoFinish(s, t);
    case ExecOp => assert Go(s, t) == GoExec(s, t);
  }

  lemma GoMovesNumbers(s: State, t: nat)
    requires CanAdvance(s, t) && |s.pcs| == |s.open|
    ensures NumbersMove(s, t, Go(s, t))
  {
    hide Go;
    if Op(s.pcs[t]) == BeginOp { BeginMovesNumbers(s, t); }
    else if Op(s.pcs[t]) == EndOp { EndMovesNumbers(s, t); }
    else { OthersMoveNumbers(s, t); }
  }

  lemma GoKeepsNumbers(s: State, t: nat)
    requires CanAdvance(s, t) && RunNumbers(s) && |s.pcs| == |s.open|
    ensures RunNumbers(Go(s, t))
  {
    GoMovesNumbers(s, t);
    hide Go, CanAdvance, Ending;
  }


  lemma BeginSteps(s: State, t: nat)
    requires CanAdvance(s, t) && Op(s.pcs[t]) == BeginOp && Inv(s)
    ensures var r := Go(s, t);
            && t < |r.pcs| && t < |r.open| && t < |s.open|
            && (s.pcs[t].BeginWait? ==> r.pcs[t] == BeginTest && r.open[t] == s.open[t])
            && (s.pcs[t].BeginTest? && s.run.Some? ==> r.pcs[t] == BeginUnlock(None) && r.open[t] == s.open[t])
            && (s.pcs[t].BeginTest? && s.run.None? ==>
                  r.pcs[t] == BeginPending(s.runs) && r.run == Some(s.runs) && r.open[t] == s.open[t])
            && (s.pcs[t].BeginPending? ==>
                  && r.pcs[t] == BeginUnlock(Some(s.pcs[t].run)) && r.open[t] == s.open[t]
                  && (s.pending.Some? ==> s.pcs[t].run in r.cancelled))
            && (s.pcs[t].BeginUnlock? ==> r.pcs[t] == Idle && r.open[t] == s.open[t] + SetOf(s.pcs[t].mine))
  {
    hide Inv;
    assert Go(s, t) == GoBegin(s, t);
  }

  function SetOf(o: Option<nat>): set<nat> { if o.Some? then {o.value} else {} }

  /** A begin that finds no run installs a new one, which its thread may end from then on, cancelled at once if
      a signal is pending; one that finds a run installs none. */
  lemma BeginInstallsRun(run: seq<State>, steps: seq<Step>, t: nat, i: nat, j: nat) returns (k: nat)
    requires During(run, steps, t, i, j) && run[i].pcs[t].BeginWait?
    ensures i <= k < j && steps[k] == Advance(t) && run[k].pcs[t].BeginTest?
    ensures t < |run[i].open| && t < |run[j].open|
    ensures run[k].run.Some? ==> run[j].open[t] == run[i].open[t]
    ensures run[k].run.None? ==>
              && run[k + 1].run == Some(run[k].runs) && run[j].open[t] == run[i].open[t] + {run[k].runs}
              && (run[k].pending.Some? ==> run[k].runs in run[j].cancelled)
  {
    assert IsRun(run, steps);
    hide IsRun, CanAdvance, Inv, During, Go, Grown;
    var a := NextOwn(run, steps, t, i, j);
    BeginSteps(run[a], t);
    OpenStays(run, steps, t, i, a);
    k := NextOwn(run, steps, t, a + 1, j);
    BeginSteps(run[k], t);
    OpenStays(run, steps, t, a + 1, k);
    if run[k].run.Some? {
      BeginReturns(run, steps, t, None, k + 1, j);
    } else {
      BeginCreated(run, steps, t, k, j);
    }
  }

  lemma BeginCreated(run: seq<State>, steps: seq<Step>, t: nat, k: nat, j: nat)
    requires During(run, steps, t, k + 1, j) && k < |steps| && steps[k] == Advance(t) && run[k].run.None?
    requires CanAdvance(run[k], t) && run[k].pcs[t].BeginTest? && run[k + 1] == Go(run[k], t)
    requires run[k + 1].pcs[t] == BeginPending(run[k].runs)
    ensures t < |run[k + 1].open| && t < |run[j].open| && run[j].open[t] == run[k + 1].open[t] + {run[k].runs}
    ensures run[k].pending.Some? ==> run[k].runs in run[j].cancelled
  {
    assert IsRun(run, steps);
    hide IsRun, CanAdvance, Inv, During, Go, Grown;
    var c := NextOwn(run, steps, t, k + 1, j);
    BeginSteps(run[c], t);
    BeginUndisturbed(run, steps, t, k, c);
    OpenStays(run, steps, t, k + 1, c);
    BeginReturns(run, steps, t, Some(run[k].runs), c + 1, j);
    RunGrown(run, steps, c + 1, j);
    Grew(run[c + 1], run[j]);
  }

  lemma Grew(s: State, r: State)
    requires Grown(s, r)
    ensures s.cancelled <= r.cancelled
  {
  }

  lemma BeginReturns(run: seq<State>, steps: seq<Step>, t: nat, mine: Option<nat>, c: nat, j: nat)
    requires During(run, steps, t, c, j) && run[c].pcs[t] == BeginUnlock(mine)
    ensures j < |run| && t < |run[c].open| && t < |run[j].open| && run[j].open[t] == run[c].open[t] + SetOf(mine)
  {
    assert IsRun(run, steps);
    hide IsRun, CanAdvance, Inv, During, Go;
    var d := NextOwn(run, steps, t, c, j);
    BeginSteps(run[d], t);
    OpenStays(run, steps, t, c, d);
  }

  /** What is pending stays so while the beginning thread holds the mutex. */
  lemma BeginUndisturbed(run: seq<State>, steps: seq<Step>, t: nat, k: nat, c: nat)
    requires IsRun(run, steps) && k < c < |run| && steps[k] == Advance(t)
    requires CanAdvance(run[k], t) && run[k].pcs[t].BeginTest? && run[k].run.None? && run[k + 1] == Go(run[k], t)
    requires forall m :: k + 1 <= m <= c ==> t < |run[m].pcs| && run[m].pcs[t].BeginPending?
    requires forall m :: k + 1 <= m < c ==> steps[m] != Advance(t)
    ensures run[c].pending == run[k].pending
  {
    assert run[k + 1].pending == run[k].pending by { assert Go(run[k], t) == GoBegin(run[k], t); }
    hide IsRun, CanAdvance, Go;
    Steady(run, steps, t, k + 1, c);
  }

  /** Nobody else changes which runs a thread inside a call may end. */
  lemma {:induction false} OpenStays(run: seq<State>, steps: seq<Step>, t: nat, a: nat, b: nat)
    requires IsRun(run, steps) && a <= b < |run|
    requires forall m :: a <= m <= b ==> t < |run[m].pcs| && !run[m].pcs[t].Idle?
    requires forall m :: a <= m < b ==> steps[m] != Advance(t)
    ensures t < |run[a].open| && t < |run[b].open| && run[b].open[t] == run[a].open[t]
    decreases b - a
  {
    assert |run| == |steps| + 1;
    hide IsRun, Go, Call, CanAdvance, CanCall;
    ThreadsKnown(run, steps, a);
    if a < b {
      OpenStays(run, steps, t, a + 1, b);
      OwnStep(run, steps, t, a);
      if steps[a].Advance? { OthersOpen(run[a], steps[a].t, t); } else { CallsOpen(run[a], steps[a], t); }
    }
  }

  lemma OthersOpen(s: State, u: nat, t: nat)
    requires CanAdvance(s, u) && |s.pcs| == |s.open| && t < |s.open| && u != t
    ensures t < |Go(s, u).open| && Go(s, u).open[t] == s.open[t]
  {
    GoMovesNumbers(s, u);
  }

  lemma CallsOpen(s: State, step: Step, t: nat)
    requires CanCall(s, step) && |s.pcs| == |s.open| && t < |s.pcs| && !s.pcs[t].Idle?
    ensures t < |Call(s, step).open| && Call(s, step).open[t] == s.open[t]
  {
  }

  /** An exec publishes its attempt if and only if no signal is pending. */
  lemma ExecPublishes(run: seq<State>, steps: seq<Step>, t: nat, i: nat, j: nat) returns (k: nat)
    requires During(run, steps, t, i, j) && run[i].pcs[t].ExecWait?
    ensures i <= k < j && steps[k] == Advance(t)
    ensures run[k + 1].current == (run[k].current || run[k].pending.None?)
    ensures run[k].pending.None? ==> run[k + 1].current
  {
    hide IsRun, CanAdvance, Inv, During, Go;
    var a := NextOwn(run, steps, t, i, j);
    ExecSteps(run[a], t);
    k := NextOwn(run, steps, t, a + 1, j);
    ExecSteps(run[k], t);
  }

  lemma ExecSteps(s: State, t: nat)
    requires CanAdvance(s, t) && Op(s.pcs[t]) == ExecOp
    ensures var r := Go(s, t);
            && t < |r.pcs|
            && (s.pcs[t].ExecWait? ==> r.pcs[t] == ExecTest)
            && (s.pcs[t].ExecTest? ==> r.pcs[t] == ExecUnlock && r.current == (s.current || s.pending.None?))
  {
    assert Go(s, t) == GoExec(s, t);
  }


  lemma JudgeSteps(s: State, t: nat, sig: nat)
    requires CanAdvance(s, t) && Op(s.pcs[t]) == JudgeOp
    ensures var r := Go(s, t);
            && t < |r.pcs|
            && (s.pcs[t] == RouteWait(sig) ==> r.pcs[t] == RouteCurrent(sig))
            && (s.pcs[t] == RouteCurrent(sig) ==> r.pcs[t] == if s.current then RouteQuit(None) else RouteDecide(sig))
            && (s.pcs[t] == RouteDecide(sig) ==>
                  sig < |s.signals| &&
                  match VerdictOf(s.signals[sig], s.traps)
                  case Discard => r.pcs[t] == RouteQuit(None)
                  case Queue(callback) => r.pcs[t] == RouteQuit(Some(callback))
                  case Interrupt => r.pcs[t] == RouteRecord(sig))
            && (s.pcs[t] == RouteQuit(None) ==> r.pcs[t] == Idle)
            && (s.pcs[t].RouteQuit? && s.pcs[t].queued.Some? ==> r.pcs[t] == RouteQueue(s.pcs[t].queued.value))
            && (s.pcs[t].RouteQueue? ==> r.pcs[t] == Idle && r.queued == s.queued + [s.pcs[t].callback])
            && (!s.pcs[t].RouteQueue? ==> r.queued == s.queued)
            && r.pending == s.pending && r.recorded == s.recorded && r.cancelled == s.cancelled
  {
    hide VerdictOf;
    assert Go(s, t) == GoJudge(s, t);
  }

  lemma RouteSteps(s: State, t: nat)
    requires CanAdvance(s, t) && Op(s.pcs[t]) == RouteOp
    ensures var r := Go(s, t);
            && t < |r.pcs|
            && (s.pcs[t].RouteRecord? ==>
                  && r.pcs[t] == RouteCapture && r.run == s.run && r.pending.Some?
                  && (s.pending.None? ==> r.pending == Some(s.pcs[t].sig) && r.recorded == s.recorded + [s.pcs[t].sig])
                  && (s.pending.Some? ==> r.pending == s.pending && r.recorded == s.recorded))
            && (s.pcs[t].RouteCapture? ==> r.pcs[t] == RouteUnlock(s.run) && r.run == s.run)
            && (s.pcs[t].RouteUnlock? ==>
                  r.pcs[t] == if s.pcs[t].captured.Some? then RouteCancel(s.pcs[t].captured.value) else Idle)
            && (s.pcs[t].RouteCancel? ==> r.pcs[t] == Idle && s.pcs[t].run in r.cancelled)
  {
    assert Go(s, t) == GoRoute(s, t);
  }

  ghost predicate Silent(s: State, r: State) {
    r.queued == s.queued && r.pending == s.pending && r.recorded == s.recorded && r.cancelled == s.cancelled
  }

  /** What the route has done for the signal once its verdict has been reached in state m: queued the trap's
      callback at step l, or put the signal where the next finish takes it, unless an earlier one is there, and
      cancelled the run that was current; or left everything as it is. */
  ghost predicate Obeyed(run: seq<State>, steps: seq<Step>, t: nat, sig: nat, m: nat, l: nat, j: nat)
    requires m < j < |run| && l < |steps| && |run| == |steps| + 1 && sig < |run[m].signals|
  {
    match VerdictOf(run[m].signals[sig], run[m].traps)
    case Discard => forall n :: m <= n < j && steps[n] == Advance(t) ==> Silent(run[n], run[n + 1])
    case Queue(callback) => m < l < j && steps[l] == Advance(t) && run[l + 1].queued == run[l].queued + [callback]
    case Interrupt =>
      && m < l < j && steps[l] == Advance(t) && run[l + 1].pending.Some?
      && (if run[l].pending.None? then run[l + 1].pending == Some(sig) && run[l + 1].recorded == run[l].recorded + [sig]
          else run[l + 1].pending == run[l].pending)
      && (run[l].run.Some? ==> run[l].run.value in run[j].cancelled)
  }

  /** A routed signal is left to a published exec replacement, or else it is judged once and its verdict is
      obeyed. */
  lemma RouteObeysVerdict(run: seq<State>, steps: seq<Step>, t: nat, sig: nat, i: nat, j: nat) returns (m: nat, l: nat)
    requires During(run, steps, t, i, j) && run[i].pcs[t] == RouteWait(sig)
    ensures i <= m < j && l < |steps| && |run| == |steps| + 1 && steps[m] == Advance(t) && t < |run[m].pcs|
    ensures || (run[m].pcs[t] == RouteCurrent(sig) && run[m].current)
            || (run[m].pcs[t] == RouteDecide(sig) && sig < |run[m].signals| && Obeyed(run, steps, t, sig, m, l, j))
  {
    hide IsRun, CanAdvance, Inv, During, Go, Obeyed, VerdictOf;
    var a := NextOwn(run, steps, t, i, j);
    JudgeSteps(run[a], t, sig);
    var b := NextOwn(run, steps, t, a + 1, j);
    JudgeSteps(run[b], t, sig);
    m, l := b, b;
    if !run[b].current {
      m := NextOwn(run, steps, t, b + 1, j);
      JudgeSteps(run[m], t, sig);
      l := m;
      match VerdictOf(run[m].signals[sig], run[m].traps)
      case Discard => NothingToObey(run, steps, t, sig, m, j);
      case Queue(callback) => l := QueueObeyed(run, steps, t, sig, callback, m, j);
      case Interrupt => l := InterruptObeyed(run, steps, t, sig, m, j);
    }
  }

  lemma NothingToObey(run: seq<State>, steps: seq<Step>, t: nat, sig: nat, m: nat, j: nat)
    requires During(run, steps, t, m + 1, j) && run[m + 1].pcs[t] == RouteQuit(None) && Silent(run[m], run[m + 1])
    requires |run| == |steps| + 1 && sig < |run[m].signals|
    requires VerdictOf(run[m].signals[sig], run[m].traps) == Discard
    ensures Obeyed(run, steps, t, sig, m, m, j)
  {
    hide IsRun, CanAdvance, Inv, During, Go, VerdictOf;
    var a := NextOwn(run, steps, t, m + 1, j);
    JudgeSteps(run[a], t, sig);
  }

  lemma QueueObeyed(run: seq<State>, steps: seq<Step>, t: nat, sig: nat, callback: string, m: nat, j: nat) returns (l: nat)
    requires During(run, steps, t, m + 1, j) && run[m + 1].pcs[t] == RouteQuit(Some(callback))
    requires |run| == |steps| + 1 && sig < |run[m].signals|
    requires VerdictOf(run[m].signals[sig], run[m].traps) == Queue(callback)
    ensures m < j && l < |steps| && Obeyed(run, steps, t, sig, m, l, j)
  {
    hide IsRun, CanAdvance, Inv, During, Go, VerdictOf;
    var a := NextOwn(run, steps, t, m + 1, j);
    JudgeSteps(run[a], t, sig);
    l := NextOwn(run, steps, t, a + 1, j);
    JudgeSteps(run[l], t, sig);
  }

  lemma InterruptObeyed(run: seq<State>, steps: seq<Step>, t: nat, sig: nat, m: nat, j: nat) returns (l: nat)
    requires During(run, steps, t, m + 1, j) && run[m + 1].pcs[t] == RouteRecord(sig)
    requires |run| == |steps| + 1 && sig < |run[m].signals|
    requires VerdictOf(run[m].signals[sig], run[m].traps) == Interrupt
    ensures m < j && l < |steps| && Obeyed(run, steps, t, sig, m, l, j)
  {
    hide IsRun, CanAdvance, Inv, During, Go, VerdictOf, Obeyed;
    l := NextOwn(run, steps, t, m + 1, j);
    RouteSteps(run[l], t);
    if run[l].run.Some? { CurrentCancelled(run, steps, t, run[l].run.value, l + 1, j); }
    InterruptMeans(run, steps, t, sig, m, l, j);
  }

  lemma InterruptMeans(run: seq<State>, steps: seq<Step>, t: nat, sig: nat, m: nat, l: nat, j: nat)
    requires m < l < j < |run| == |steps| + 1 && sig < |run[m].signals| && steps[l] == Advance(t)
    requires VerdictOf(run[m].signals[sig], run[m].traps) == Interrupt && run[l + 1].pending.Some?
    requires if run[l].pending.None? then run[l + 1].pending == Some(sig) && run[l + 1].recorded == run[l].recorded + [sig]
             else run[l + 1].pending == run[l].pending
    requires run[l].run.Some? ==> run[l].run.value in run[j].cancelled
    ensures Obeyed(run, steps, t, sig, m, l, j)
  {
    hide VerdictOf;
  }

  /** The run that is current when the signal has been recorded is cancelled before the route returns. */
  lemma CurrentCancelled(run: seq<State>, steps: seq<Step>, t: nat, r: nat, c: nat, j: nat)
    requires During(run, steps, t, c, j) && run[c].pcs[t] == RouteCapture && run[c].run == Some(r)
    ensures j < |run| && r in run[j].cancelled
  {
    DuringMeans(run, steps, t, c, j);
    hide IsRun, CanAdvance, Inv, During, Go, Untouched;
    var a := NextOwn(run, steps, t, c, j);
    RouteSteps(run[a], t);
    Steady(run, steps, t, c, a);
    SameRun(run[c], run[a]);
    CapturedCancelled(run, steps, t, r, a + 1, j);
  }

  lemma SameRun(s: State, r: State)
    requires Untouched(s, r)
    ensures r.run == s.run
  {
  }

  lemma CapturedCancelled(run: seq<State>, steps: seq<Step>, t: nat, r: nat, c: nat, j: nat)
    requires During(run, steps, t, c, j) && run[c].pcs[t] == RouteUnlock(Some(r))
    ensures j < |run| && r in run[j].cancelled
  {
    hide IsRun, CanAdvance, Inv, During, Go;
    var a := NextOwn(run, steps, t, c, j);
    RouteSteps(run[a], t);
    var b := NextOwn(run, steps, t, a + 1, j);
    RouteSteps(run[b], t);
  }
}
