/** Routing a default signal from a background job to the foreground owner of the shell
    (interp/async_signal.go), as interleaved threads. Taking the state's mutex, every read and
    write under it, releasing it, and the cancellation after it are separate steps. */
module AsyncSignal {
  import opened Common

  /** What the routing asks of a signal: its name, whether it is the null signal, and whether its
      default action leaves a process alive. */
  datatype Signal = Signal(name: string, zero: bool, harmless: bool)

  /** A trap callback per signal name; the empty callback ignores the signal. */
  datatype Traps = Traps(callbacks: map<string, string>, ignoredAtStart: set<string>)

  datatype Verdict = Discard | Queue(callback: string) | Interrupt

  function VerdictOf(sig: Signal, traps: Traps): Verdict {
    var uncatchable := sig.name == "KILL" || sig.name == "STOP";
    var trapped := sig.name in traps.callbacks && !uncatchable;
    var ignored := !uncatchable &&
      (sig.name in traps.ignoredAtStart || (sig.name in traps.callbacks && traps.callbacks[sig.name] == ""));
    if sig.zero || ignored || (!trapped && sig.harmless) then Discard
    else if trapped then Queue(traps.callbacks[sig.name])
    else Interrupt
  }

  /** KILL and STOP cannot be caught or ignored; anything else interrupts only if it is neither, and if
      its default action terminates. A caught signal, and no other, queues its own callback. */
  lemma VerdictMeaning(sig: Signal, traps: Traps)
    ensures VerdictOf(sig, traps).Interrupt? <==>
      !sig.zero && !sig.harmless &&
      (sig.name in ["KILL", "STOP"] || (sig.name !in traps.callbacks && sig.name !in traps.ignoredAtStart))
    ensures forall callback :: VerdictOf(sig, traps) == Queue(callback) <==>
      !sig.zero && sig.name !in ["KILL", "STOP"] && sig.name !in traps.ignoredAtStart &&
      sig.name in traps.callbacks && traps.callbacks[sig.name] == callback != ""
  {
    assert sig.name in ["KILL", "STOP"] <==> sig.name == "KILL" || sig.name == "STOP";
  }

  /** Where a thread is. Runs and routed signals are numbered as they appear. */
  datatype Pc =
    | Idle
    // beginAsyncSignalRun
    | BeginWait | BeginTest | BeginPending(run: nat) | BeginUnlock(mine: Option<nat>)
    // the function it returns, which ends the run
    | EndWait(run: nat) | EndTest(run: nat) | EndClear(run: nat) | EndUnlock(run: nat) | EndCancel(run: nat)
    // routeAsyncOwnerSignal
    | RouteWait(sig: nat) | RouteCurrent(sig: nat) | RouteDecide(sig: nat) | RouteRecord(sig: nat)
    | RouteCapture | RouteUnlock(captured: Option<nat>) | RouteCancel(run: nat)
    | RouteQuit(queued: Option<string>) | RouteQueue(callback: string)
    // finishAsyncOwnerSignal
    | FinishWait | FinishRead | FinishClear(got: Option<nat>) | FinishUnlock(got: Option<nat>) | FinishReturn(got: Option<nat>)
    // the exec handler publishing a replacement attempt
    | ExecWait | ExecTest | ExecUnlock

  datatype State = State(
    mu: Option<nat>,
    run: Option<nat>,
    pending: Option<nat>,
    current: bool,               // an exec replacement attempt is published
    cancelled: set<nat>,         // the runs whose cancel function has been called
    runs: nat,                   // runs created so far
    open: seq<set<nat>>,         // per thread: the runs it began and has not started to end
    traps: Traps,
    pcs: seq<Pc>,
    signals: seq<Signal>,        // every signal routed so far
    recorded: seq<nat>,          // the signals stored into pending, in order
    taken: seq<nat>,             // the signals a finish cleared, in order
    finished: seq<nat>,          // the signals a finish returned
    queued: seq<string>)         // the trap callbacks queued

  datatype Step =
    | SetTraps(traps: Traps)
    | Unpublish
    | CallBegin(t: nat)
    | CallEnd(t: nat, run: nat)
    | CallRoute(t: nat, sig: Signal)
    | CallFinish(t: nat)
    | CallExec(t: nat)
    | Advance(t: nat)

  ghost predicate CanCall(s: State, step: Step) {
    match step
    case SetTraps(_) => true
    case Unpublish => true
    case CallEnd(t, r) => t < |s.pcs| && t < |s.open| && s.pcs[t].Idle? && r in s.open[t]
    case Advance(_) => false
    case _ => step.t < |s.pcs| && s.pcs[step.t].Idle?
  }

  ghost function At(s: State, t: nat, pc: Pc): State
    requires t < |s.pcs|
  {
    s.(pcs := s.pcs[t := pc])
  }

  /** Starting a call moves one idle thread to where it waits for the mutex. */
  ghost predicate CallShape(s: State, step: Step, r: State) {
    && |r.pcs| == |s.pcs| && |r.open| == |s.open|
    && r.mu == s.mu && r.run == s.run && r.pending == s.pending && (r.current ==> s.current)
    && r.cancelled == s.cancelled && r.runs == s.runs
    && r.recorded == s.recorded && r.taken == s.taken && r.finished == s.finished
    && |s.signals| <= |r.signals|
    && (step.SetTraps? || step.Unpublish? ==> r.pcs == s.pcs)
    && (!step.SetTraps? && !step.Unpublish? ==>
          && step.t < |s.pcs| && s.pcs[step.t].Idle? && Waits(r.pcs[step.t])
          && r.pcs == s.pcs[step.t := r.pcs[step.t]]
          && (r.pcs[step.t].RouteWait? ==> r.pcs[step.t].sig == |s.signals| < |r.signals|))
  }

  ghost function Call(s: State, step: Step): (r: State)
    requires CanCall(s, step)
    ensures |s.pcs| == |s.open| ==> CallShape(s, step, r)
  {
    match step
    case SetTraps(traps) => s.(traps := traps)
    case Unpublish => s.(current := false)
    case CallBegin(t) => At(s, t, BeginWait)
    case CallEnd(t, r) => At(s, t, EndWait(r)).(open := s.open[t := s.open[t] - {r}])
    case CallRoute(t, sig) => At(s, t, RouteWait(|s.signals|)).(signals := s.signals + [sig])
    case CallFinish(t) => At(s, t, FinishWait)
    case CallExec(t) => At(s, t, ExecWait)
  }

  predicate Waits(pc: Pc) {
    pc.BeginWait? || pc.EndWait? || pc.RouteWait? || pc.FinishWait? || pc.ExecWait?
  }

  predicate Locked(pc: Pc) {
    match pc
    case BeginTest | BeginPending(_) | BeginUnlock(_) => true
    case EndTest(_) | EndClear(_) | EndUnlock(_) => true
    case RouteCurrent(_) | RouteDecide(_) | RouteRecord(_) | RouteCapture | RouteUnlock(_) | RouteQuit(_) => true
    case FinishRead | FinishClear(_) | FinishUnlock(_) => true
    case ExecTest | ExecUnlock => true
    case _ => false
  }

  /** Only taking the mutex ever waits. */
  ghost predicate CanAdvance(s: State, t: nat) {
    t < |s.pcs| && t < |s.open| && !s.pcs[t].Idle? && (Waits(s.pcs[t]) ==> s.mu == None)
    && (s.pcs[t].RouteDecide? ==> s.pcs[t].sig < |s.signals|)
  }

  /** The signal a thread is routing and has not recorded. */
  function Routing(pc: Pc): Option<nat> {
    match pc
    case RouteWait(k) => Some(k)
    case RouteCurrent(k) => Some(k)
    case RouteDecide(k) => Some(k)
    case RouteRecord(k) => Some(k)
    case _ => None
  }

  /** Steps a thread still takes to finish its call. */
  function Remaining(pc: Pc): nat {
    match pc
    case Idle => 0
    case BeginWait => 4 case BeginTest => 3 case BeginPending(_) => 2 case BeginUnlock(_) => 1
    case EndWait(_) => 5 case EndTest(_) => 4 case EndClear(_) => 3 case EndUnlock(_) => 2 case EndCancel(_) => 1
    case RouteWait(_) => 7 case RouteCurrent(_) => 6 case RouteDecide(_) => 5 case RouteRecord(_) => 4
    case RouteCapture => 3 case RouteUnlock(_) => 2 case RouteCancel(_) => 1
    case RouteQuit(_) => 2 case RouteQueue(_) => 1
    case FinishWait => 5 case FinishRead => 4 case FinishClear(_) => 3 case FinishUnlock(_) => 2 case FinishReturn(_) => 1
    case ExecWait => 3 case ExecTest => 2 case ExecUnlock => 1
  }

  datatype Operation = NoOp | BeginOp | EndOp | JudgeOp | RouteOp | FinishOp | ExecOp

  function Op(pc: Pc): Operation {
    match pc
    case Idle => NoOp
    case BeginWait | BeginTest | BeginPending(_) | BeginUnlock(_) => BeginOp
    case EndWait(_) | EndTest(_) | EndClear(_) | EndUnlock(_) | EndCancel(_) => EndOp
    case RouteWait(_) | RouteCurrent(_) | RouteDecide(_) | RouteQuit(_) | RouteQueue(_) => JudgeOp
    case RouteRecord(_) | RouteCapture | RouteUnlock(_) | RouteCancel(_) => RouteOp
    case FinishWait | FinishRead | FinishClear(_) | FinishUnlock(_) | FinishReturn(_) => FinishOp
    case ExecWait | ExecTest | ExecUnlock => ExecOp
  }

  /** What every single step respects: only the stepping thread moves, the mutex is taken when free and
      released by its holder, and a signal is recorded by the thread that routes it. */
  ghost predicate Shape(s: State, t: nat, r: State)
    requires t < |s.pcs|
  {
    && |r.pcs| == |s.pcs| && |r.open| == |s.open| && r.signals == s.signals
    && (forall u :: 0 <= u < |s.pcs| && u != t ==> r.pcs[u] == s.pcs[u])
    && r.mu == (if Locked(r.pcs[t]) == Locked(s.pcs[t]) then s.mu else if Locked(r.pcs[t]) then Some(t) else None)
    && (Locked(r.pcs[t]) && !Locked(s.pcs[t]) ==> s.mu == None)
    && (Routing(r.pcs[t]).Some? ==> Routing(r.pcs[t]) == Routing(s.pcs[t]))
    && (r.recorded == s.recorded ||
        (s.pcs[t].RouteRecord? && r.recorded == s.recorded + [s.pcs[t].sig] && Routing(r.pcs[t]).None?))
    && (r.pending == s.pending || (s.pcs[t].RouteRecord? && s.pending.None?) ||
        (s.pcs[t].FinishClear? && r.pending == None && r.pcs[t] == FinishUnlock(s.pcs[t].got)))
    && (r.run == s.run || s.pcs[t].EndClear? || (s.pcs[t].BeginTest? && s.run.None?))
    && Remaining(r.pcs[t]) < Remaining(s.pcs[t])
  }

  /** beginAsyncSignalRun. */
  ghost function GoBegin(s: State, t: nat): (r: State)
    requires CanAdvance(s, t) && Op(s.pcs[t]) == BeginOp
    ensures Shape(s, t, r)
  {
    match s.pcs[t]
    case BeginWait => At(s, t, BeginTest).(mu := Some(t))
    case BeginTest =>
      if s.run.Some? then At(s, t, BeginUnlock(None))
      else At(s, t, BeginPending(s.runs)).(run := Some(s.runs), runs := s.runs + 1)
    case BeginPending(r) =>
      At(s, t, BeginUnlock(Some(r))).(cancelled := if s.pending.Some? then s.cancelled + {r} else s.cancelled)
    case BeginUnlock(mine) =>
      At(s, t, Idle).(mu := None, open := s.open[t := s.open[t] + (if mine.Some? then {mine.value} else {})])
  }

  /** The function that beginAsyncSignalRun returns. */
  ghost function GoEnd(s: State, t: nat): (r: State)
    requires CanAdvance(s, t) && Op(s.pcs[t]) == EndOp
    ensures Shape(s, t, r)
  {
    match s.pcs[t]
    case EndWait(r) => At(s, t, EndTest(r)).(mu := Some(t))
    case EndTest(r) => At(s, t, if s.run == Some(r) then EndClear(r) else EndUnlock(r))
    case EndClear(r) => At(s, t, EndUnlock(r)).(run := None)
    case EndUnlock(r) => At(s, t, EndCancel(r)).(mu := None)
    case EndCancel(r) => At(s, t, Idle).(cancelled := s.cancelled + {r})
  }

  function AfterVerdict(v: Verdict, k: nat): (pc: Pc)
    ensures pc.RouteQuit? || pc == RouteRecord(k)
  {
    match v
    case Discard => RouteQuit(None)
    case Queue(callback) => RouteQuit(Some(callback))
    case Interrupt => RouteRecord(k)
  }

  /** routeAsyncOwnerSignal up to its verdict, and the signals it drops or queues. */
  ghost function GoJudge(s: State, t: nat): (r: State)
    requires CanAdvance(s, t) && Op(s.pcs[t]) == JudgeOp
    ensures Shape(s, t, r)
  {
    match s.pcs[t]
    case RouteWait(k) => At(s, t, RouteCurrent(k)).(mu := Some(t))
    case RouteCurrent(k) => At(s, t, if s.current then RouteQuit(None) else RouteDecide(k))
    case RouteDecide(k) =>
      At(s, t, AfterVerdict(VerdictOf(s.signals[k], s.traps), k))
    case RouteQuit(callback) => At(s, t, if callback.Some? then RouteQueue(callback.value) else Idle).(mu := None)
    case RouteQueue(callback) => At(s, t, Idle).(queued := s.queued + [callback])
  }

  /** routeAsyncOwnerSignal, when the signal interrupts the owner. */
  ghost function GoRoute(s: State, t: nat): (r: State)
    requires CanAdvance(s, t) && Op(s.pcs[t]) == RouteOp
    ensures Shape(s, t, r)
  {
    match s.pcs[t]
    case RouteRecord(k) =>
      if s.pending.Some? then At(s, t, RouteCapture)
      else At(s, t, RouteCapture).(pending := Some(k), recorded := s.recorded + [k])
    case RouteCapture => At(s, t, RouteUnlock(s.run))
    case RouteUnlock(captured) => At(s, t, if captured.Some? then RouteCancel(captured.value) else Idle).(mu := None)
    case RouteCancel(r) => At(s, t, Idle).(cancelled := s.cancelled + {r})
  }

  /** finishAsyncOwnerSignal. */
  ghost function GoFinish(s: State, t: nat): (r: State)
    requires CanAdvance(s, t) && Op(s.pcs[t]) == FinishOp
    ensures Shape(s, t, r)
  {
    match s.pcs[t]
    case FinishWait => At(s, t, FinishRead).(mu := Some(t))
    case FinishRead => At(s, t, FinishClear(s.pending))
    case FinishClear(got) =>
      At(s, t, FinishUnlock(got))
        .(pending := None, taken := if got.Some? then s.taken + [got.value] else s.taken)
    case FinishUnlock(got) => At(s, t, FinishReturn(got)).(mu := None)
    case FinishReturn(got) =>
      At(s, t, Idle).(finished := if got.Some? then s.finished + [got.value] else s.finished)
  }

  /** Publishing a replacement attempt, unless a signal is pending. */
  ghost function GoExec(s: State, t: nat): (r: State)
    requires CanAdvance(s, t) && Op(s.pcs[t]) == ExecOp
    ensures Shape(s, t, r)
  {
    match s.pcs[t]
    case ExecWait => At(s, t, ExecTest).(mu := Some(t))
    case ExecTest => At(s, t, ExecUnlock).(current := if s.pending.Some? then s.current else true)
    case ExecUnlock => At(s, t, Idle).(mu := None)
  }

  ghost function Go(s: State, t: nat): (r: State)
    requires CanAdvance(s, t)
    ensures Shape(s, t, r)
  {
    match Op(s.pcs[t])
    case BeginOp => GoBegin(s, t)
    case EndOp => GoEnd(s, t)
    case JudgeOp => GoJudge(s, t)
    case RouteOp => GoRoute(s, t)
    case FinishOp => GoFinish(s, t)
    case ExecOp => GoExec(s, t)
  }

  ghost predicate CanDo(s: State, step: Step) {
    if step.Advance? then CanAdvance(s, step.t) else CanCall(s, step)
  }

  ghost function Do(s: State, step: Step): State
    requires CanDo(s, step)
  {
    if step.Advance? then Go(s, step.t) else Call(s, step)
  }

  ghost predicate Init(s: State) {
    && s.mu == None && s.run == None && s.pending == None && !s.current && s.cancelled == {} && s.runs == 0
    && s.signals == [] && s.recorded == [] && s.taken == [] && s.finished == [] && s.queued == []
    && |s.pcs| == |s.open|
    && (forall t :: 0 <= t < |s.pcs| ==> s.pcs[t] == Idle && s.open[t] == {})
  }

  ghost predicate IsRun(run: seq<State>, steps: seq<Step>) {
    && |run| == |steps| + 1 && Init(run[0])
    && forall i :: 0 <= i < |steps| ==> CanDo(run[i], steps[i]) && run[i + 1] == Do(run[i], steps[i])
  }

  // ---------- The invariant ----------

  /** The mutex belongs to the one thread inside a critical section. */
  ghost predicate MutexOk(s: State) {
    && |s.pcs| == |s.open|
    && (forall t :: 0 <= t < |s.pcs| ==> (Locked(s.pcs[t]) <==> s.mu == Some(t)))
    && (s.mu.Some? ==> s.mu.value < |s.pcs|)
  }

  /** A thread that will cancel run r, or that still holds the mutex and will see to it. */
  ghost predicate Attends(pc: Pc, r: nat) {
    pc == RouteCancel(r) || pc == RouteUnlock(Some(r)) || pc.RouteCapture? || pc == BeginPending(r)
  }

  /** A pending signal finds no run, a cancelled run, or a thread that attends to the run. */
  ghost predicate InterruptOk(s: State) {
    s.pending.Some? && s.run.Some? && s.run.value !in s.cancelled ==>
      exists t :: 0 <= t < |s.pcs| && Attends(s.pcs[t], s.run.value)
  }

  ghost predicate PcOk(s: State, t: nat) {
    t < |s.pcs| &&
    match s.pcs[t]
    case BeginPending(r) => s.run == Some(r) && r < s.runs
    case BeginUnlock(mine) => mine.Some? ==> s.run == mine && (s.pending.Some? ==> mine.value in s.cancelled)
    case EndClear(r) => s.run == Some(r)
    case RouteWait(k) => k < |s.signals|
    case RouteCurrent(k) => k < |s.signals|
    case RouteDecide(k) => k < |s.signals| && !s.current
    case RouteRecord(k) => k < |s.signals| && !s.current
    case RouteCapture => s.pending.Some?
    case RouteUnlock(captured) => s.pending.Some? && captured == s.run
    case FinishClear(got) => got == s.pending
    case _ => true
  }

  /** Each routed signal is in the hands of one thread, or recorded, or dropped. */
  ghost predicate SignalsOk(s: State) {
    && (forall t, u :: 0 <= t < |s.pcs| && 0 <= u < |s.pcs| && Routing(s.pcs[t]).Some? && Routing(s.pcs[t]) == Routing(s.pcs[u]) ==> t == u)
    && (forall t :: 0 <= t < |s.pcs| && Routing(s.pcs[t]).Some? ==> Routing(s.pcs[t]).value !in s.recorded)
    && (forall t :: 0 <= t < |s.pcs| && Routing(s.pcs[t]).Some? ==> Routing(s.pcs[t]).value < |s.signals|)
    && (forall k :: k in s.recorded ==> k < |s.signals|)
    && (forall i, j :: 0 <= i < j < |s.recorded| ==> s.recorded[i] != s.recorded[j])
  }

  function Times(q: seq<nat>, k: nat): nat {
    if q == [] then 0 else Times(q[..|q| - 1], k) + (if q[|q| - 1] == k then 1 else 0)
  }

  lemma TimesAppend(q: seq<nat>, x: nat, k: nat)
    ensures Times(q + [x], k) == Times(q, k) + (if x == k then 1 else 0)
  {
    assert (q + [x])[..|q|] == q;
  }

  /** Whether a finish has cleared signal k and not returned yet. */
  function Returning(pc: Pc, k: nat): nat {
    if (pc.FinishUnlock? || pc.FinishReturn?) && pc.got == Some(k) then 1 else 0
  }

  function InFlight(pcs: seq<Pc>, k: nat): nat {
    if pcs == [] then 0 else Returning(pcs[0], k) + InFlight(pcs[1..], k)
  }

  /** Nothing recorded is lost, and nothing is returned twice. */
  ghost predicate ConservedOk(s: State) {
    && s.recorded == s.taken + (if s.pending.Some? then [s.pending.value] else [])
    && forall k: nat :: Times(s.taken, k) == Times(s.finished, k) + InFlight(s.pcs, k)
  }

  ghost predicate RunsOk(s: State) {
    && (s.run.Some? ==> s.run.value < s.runs)
    && !(s.pending.Some? && s.current)
  }

  ghost predicate Inv(s: State) {
    && MutexOk(s)
    && (forall t :: 0 <= t < |s.pcs| ==> PcOk(s, t))
    && RunsOk(s)
    && InterruptOk(s)
    && SignalsOk(s)
    && ConservedOk(s)
  }

  lemma {:induction false} InFlightUpdate(pcs: seq<Pc>, t: nat, pc: Pc, k: nat)
    requires t < |pcs|
    ensures InFlight(pcs[t := pc], k) == InFlight(pcs, k) - Returning(pcs[t], k) + Returning(pc, k)
  {
    if t == 0 {
      assert pcs[t := pc][1..] == pcs[1..];
    } else {
      assert pcs[t := pc][1..] == pcs[1..][t - 1 := pc];
      InFlightUpdate(pcs[1..], t - 1, pc, k);
    }
  }

  lemma CallKeepsInterrupt(s: State, step: Step, s': State)
    requires CallShape(s, step, s') && InterruptOk(s)
    ensures InterruptOk(s')
  {
    if s.pending.Some? && s.run.Some? && s.run.value !in s.cancelled {
      var t :| 0 <= t < |s.pcs| && Attends(s.pcs[t], s.run.value);
      assert s'.pcs[t] == s.pcs[t];
    }
  }

  lemma CallKeepsSignals(s: State, step: Step, s': State)
    requires CallShape(s, step, s') && SignalsOk(s)
    ensures SignalsOk(s')
  {
    if s'.pcs != s.pcs {
      assert forall u :: 0 <= u < |s.pcs| && u != step.t ==> s'.pcs[u] == s.pcs[u];
      assert Routing(s'.pcs[step.t]).Some? ==> Routing(s'.pcs[step.t]).value == |s.signals|;
    }
  }

  lemma CallKeepsConserved(s: State, step: Step, s': State)
    requires CallShape(s, step, s') && ConservedOk(s)
    ensures ConservedOk(s')
  {
    if s'.pcs != s.pcs { ConservedFrame(s, s', step.t); }
  }

  lemma CallKeepsPc(s: State, step: Step, s': State, u: nat)
    requires CallShape(s, step, s') && u < |s.pcs| && PcOk(s, u)
    ensures PcOk(s', u)
  {
  }

  lemma CallKeepsMutex(s: State, step: Step, s': State)
    requires CallShape(s, step, s') && MutexOk(s)
    ensures MutexOk(s')
  {
    if s'.pcs != s.pcs { MutexFrame(s, s', step.t); }
  }

  lemma CallKeepsInv(s: State, step: Step)
    requires Inv(s) && CanCall(s, step)
    ensures Inv(Call(s, step))
  {
    var s' := Call(s, step);
    assert CallShape(s, step, s') && RunsOk(s');
    hide Call, CanCall, MutexOk, RunsOk, PcOk, InterruptOk, SignalsOk, ConservedOk;
    forall u | 0 <= u < |s'.pcs| ensures PcOk(s', u) { CallKeepsPc(s, step, s', u); }
    CallKeepsMutex(s, step, s');
    CallKeepsInterrupt(s, step, s');
    CallKeepsSignals(s, step, s');
    CallKeepsConserved(s, step, s');
  }

  lemma MutexFrame(s: State, s': State, t: nat)
    requires MutexOk(s) && t < |s.pcs| == |s'.pcs| && |s'.open| == |s.open|
    requires forall u :: 0 <= u < |s.pcs| && u != t ==> s'.pcs[u] == s.pcs[u]
    requires s'.mu == if Locked(s'.pcs[t]) == Locked(s.pcs[t]) then s.mu else if Locked(s'.pcs[t]) then Some(t) else None
    requires Locked(s'.pcs[t]) && !Locked(s.pcs[t]) ==> s.mu == None
    ensures MutexOk(s')
  {
  }

  /** Whoever is outside the critical section relies on nothing the mutex protects. */
  lemma PcFrame(s: State, s': State, u: nat)
    requires u < |s.pcs| == |s'.pcs| && PcOk(s, u) && !Locked(s.pcs[u]) && s'.pcs[u] == s.pcs[u]
    requires s'.signals == s.signals
    ensures PcOk(s', u)
  {
  }

  /** While one thread is inside, the others change only what is cancelled, queued and returned. */
  lemma PcOutside(s: State, t: nat, u: nat)
    requires CanAdvance(s, t) && u < |s.pcs| && u != t && PcOk(s, u) && Locked(s.pcs[u]) && !Locked(s.pcs[t])
    requires s.mu == Some(u)
    ensures PcOk(Go(s, t), u)
  {
    assert !Waits(s.pcs[t]);
    var s' := Go(s, t);
    assert s'.pending == s.pending && s'.run == s.run && s'.runs == s.runs && s'.current == s.current;
    assert s.cancelled <= s'.cancelled;
  }

  lemma SignalsFrame(s: State, s': State, t: nat)
    requires SignalsOk(s) && t < |s.pcs| == |s'.pcs| && s'.signals == s.signals
    requires forall u :: 0 <= u < |s.pcs| && u != t ==> s'.pcs[u] == s.pcs[u]
    requires Routing(s'.pcs[t]).Some? ==> Routing(s'.pcs[t]) == Routing(s.pcs[t])
    requires s'.recorded == s.recorded ||
             (s.pcs[t].RouteRecord? && s'.recorded == s.recorded + [s.pcs[t].sig] && Routing(s'.pcs[t]).None?)
    ensures SignalsOk(s')
  {
    if s'.recorded != s.recorded {
      assert Routing(s.pcs[t]) == Some(s.pcs[t].sig);
    }
  }

  lemma ConservedFrame(s: State, s': State, t: nat)
    requires ConservedOk(s) && t < |s.pcs| == |s'.pcs| && s'.pcs == s.pcs[t := s'.pcs[t]]
    requires s'.recorded == s'.taken + (if s'.pending.Some? then [s'.pending.value] else [])
    requires s'.taken == s.taken && s'.finished == s.finished
    requires forall k: nat :: Returning(s.pcs[t], k) == Returning(s'.pcs[t], k)
    ensures ConservedOk(s')
  {
    forall k: nat ensures Times(s'.taken, k) == Times(s'.finished, k) + InFlight(s'.pcs, k) {
      InFlightUpdate(s.pcs, t, s'.pcs[t], k);
    }
  }

  lemma ConservedTake(s: State, s': State, t: nat, x: nat)
    requires ConservedOk(s) && t < |s.pcs| == |s'.pcs| && s'.pcs == s.pcs[t := s'.pcs[t]]
    requires s.pending == Some(x) && s'.pending == None && s'.recorded == s.recorded
    requires s'.taken == s.taken + [x] && s'.finished == s.finished
    requires forall k: nat :: Returning(s.pcs[t], k) == 0
    requires s'.pcs[t] == FinishUnlock(Some(x))
    ensures ConservedOk(s')
  {
    assert s'.taken + [] == s'.taken;
    forall k: nat ensures Times(s'.taken, k) == Times(s'.finished, k) + InFlight(s'.pcs, k) {
      InFlightUpdate(s.pcs, t, s'.pcs[t], k);
      TimesAppend(s.taken, x, k);
    }
  }

  lemma ConservedReturn(s: State, s': State, t: nat, x: nat)
    requires ConservedOk(s) && t < |s.pcs| == |s'.pcs| && s'.pcs == s.pcs[t := Idle]
    requires s'.pending == s.pending && s'.recorded == s.recorded && s'.taken == s.taken
    requires s'.finished == s.finished + [x] && s.pcs[t] == FinishReturn(Some(x))
    ensures ConservedOk(s')
  {
    forall k: nat ensures Times(s'.taken, k) == Times(s'.finished, k) + InFlight(s'.pcs, k) {
      InFlightUpdate(s.pcs, t, Idle, k);
      TimesAppend(s.finished, x, k);
    }
  }

  /** What one step of each operation keeps, beside the mutex and the numbering of signals. */
  ghost predicate Kept(s: State) { RunsOk(s) && InterruptOk(s) && ConservedOk(s) }

  lemma InterruptFrame(s: State, s': State, t: nat)
    requires InterruptOk(s) && t < |s.pcs| == |s'.pcs| && s'.pcs == s.pcs[t := s'.pcs[t]]
    requires s.cancelled <= s'.cancelled
    requires s'.pending.Some? && s'.run.Some? && s'.run.value !in s'.cancelled ==>
               || Attends(s'.pcs[t], s'.run.value)
               || (s.pending.Some? && s.run == s'.run && !Attends(s.pcs[t], s.run.value))
    ensures InterruptOk(s')
  {
    if s'.pending.Some? && s'.run.Some? && s'.run.value !in s'.cancelled {
      if !Attends(s'.pcs[t], s'.run.value) {
        var u :| 0 <= u < |s.pcs| && Attends(s.pcs[u], s.run.value);
        assert s'.pcs[u] == s.pcs[u];
      }
    }
  }

  lemma BeginStep(s: State, t: nat)
    requires CanAdvance(s, t) && Op(s.pcs[t]) == BeginOp && PcOk(s, t) && Kept(s)
    ensures PcOk(GoBegin(s, t), t) && Kept(GoBegin(s, t))
  {
    var s' := GoBegin(s, t);
    assert s'.pcs == s.pcs[t := s'.pcs[t]];
    InterruptFrame(s, s', t);
    ConservedFrame(s, s', t);
  }

  lemma EndStep(s: State, t: nat)
    requires CanAdvance(s, t) && Op(s.pcs[t]) == EndOp && PcOk(s, t) && Kept(s)
    ensures PcOk(GoEnd(s, t), t) && Kept(GoEnd(s, t))
  {
    var s' := GoEnd(s, t);
    assert s'.pcs == s.pcs[t := s'.pcs[t]];
    InterruptFrame(s, s', t);
    ConservedFrame(s, s', t);
  }

  lemma JudgeChanges(s: State, t: nat)
    requires CanAdvance(s, t) && Op(s.pcs[t]) == JudgeOp
    ensures var s' := GoJudge(s, t);
            && s'.pcs == s.pcs[t := s'.pcs[t]] && s'.pending == s.pending && s'.run == s.run && s'.runs == s.runs
            && s'.cancelled == s.cancelled && s'.recorded == s.recorded && s'.taken == s.taken
            && s'.finished == s.finished && (forall r :: !Attends(s.pcs[t], r))
            && forall k :: Returning(s.pcs[t], k) == Returning(s'.pcs[t], k) == 0
  {
    hide VerdictOf, AfterVerdict;
  }

  lemma JudgeKeepsPc(s: State, t: nat)
    requires CanAdvance(s, t) && Op(s.pcs[t]) == JudgeOp && PcOk(s, t) && Kept(s)
    ensures PcOk(GoJudge(s, t), t)
  {
    hide VerdictOf, AfterVerdict, InterruptOk, ConservedOk;
  }

  lemma JudgeStep(s: State, t: nat)
    requires CanAdvance(s, t) && Op(s.pcs[t]) == JudgeOp && PcOk(s, t) && Kept(s)
    ensures PcOk(GoJudge(s, t), t) && Kept(GoJudge(s, t))
  {
    JudgeChanges(s, t);
    JudgeKeepsPc(s, t);
    hide GoJudge, PcOk, Attends, Returning, ConservedOk, InterruptOk;
    InterruptFrame(s, GoJudge(s, t), t);
    ConservedFrame(s, GoJudge(s, t), t);
  }

  lemma RouteStep(s: State, t: nat)
    requires CanAdvance(s, t) && Op(s.pcs[t]) == RouteOp && PcOk(s, t) && Kept(s)
    ensures PcOk(GoRoute(s, t), t) && Kept(GoRoute(s, t))
  {
    var s' := GoRoute(s, t);
    assert s'.pcs == s.pcs[t := s'.pcs[t]];
    assert s'.taken == s.taken && s'.finished == s.finished;
    assert s'.recorded == s'.taken + (if s'.pending.Some? then [s'.pending.value] else []) by {
      assert s.taken + [] == s.taken;
    }
    InterruptFrame(s, s', t);
    ConservedFrame(s, s', t);
  }

  lemma FinishStep(s: State, t: nat)
    requires CanAdvance(s, t) && Op(s.pcs[t]) == FinishOp && PcOk(s, t) && Kept(s)
    ensures PcOk(GoFinish(s, t), t) && Kept(GoFinish(s, t))
  {
    var pc, s' := s.pcs[t], GoFinish(s, t);
    assert s'.pcs == s.pcs[t := s'.pcs[t]];
    InterruptFrame(s, s', t);
    if pc.FinishClear? && pc.got.Some? {
      ConservedTake(s, s', t, pc.got.value);
    } else if pc.FinishReturn? && pc.got.Some? {
      ConservedReturn(s, s', t, pc.got.value);
    } else {
      ConservedFrame(s, s', t);
    }
  }

  lemma ExecStep(s: State, t: nat)
    requires CanAdvance(s, t) && Op(s.pcs[t]) == ExecOp && PcOk(s, t) && Kept(s)
    ensures PcOk(GoExec(s, t), t) && Kept(GoExec(s, t))
  {
    var s' := GoExec(s, t);
    assert s'.pcs == s.pcs[t := s'.pcs[t]];
    InterruptFrame(s, s', t);
    ConservedFrame(s, s', t);
  }

  lemma StepKept(s: State, t: nat)
    requires CanAdvance(s, t) && PcOk(s, t) && Kept(s)
    ensures PcOk(Go(s, t), t) && Kept(Go(s, t))
  {
    match Op(s.pcs[t])
    case BeginOp => BeginStep(s, t);
    case EndOp => EndStep(s, t);
    case JudgeOp => JudgeStep(s, t);
    case RouteOp => RouteStep(s, t);
    case FinishOp => FinishStep(s, t);
    case ExecOp => ExecStep(s, t);
  }

  lemma GoKeepsPc(s: State, t: nat, u: nat)
    requires MutexOk(s) && CanAdvance(s, t) && u < |s.pcs| && PcOk(s, t) && PcOk(s, u) && Kept(s)
    ensures PcOk(Go(s, t), u)
  {
    if u == t { StepKept(s, t); }
    else if Locked(s.pcs[u]) { PcOutside(s, t, u); }
    else { PcFrame(s, Go(s, t), u); }
  }

  lemma GoKeepsInv(s: State, t: nat)
    requires Inv(s) && CanAdvance(s, t)
    ensures Inv(Go(s, t))
  {
    var s' := Go(s, t);
    assert PcOk(s, t) && Kept(s);
    hide Go, PcOk, InterruptOk, SignalsOk, ConservedOk, RunsOk;
    MutexFrame(s, s', t);
    forall u | 0 <= u < |s'.pcs| ensures PcOk(s', u) { GoKeepsPc(s, t, u); }
    StepKept(s, t);
    SignalsFrame(s, s', t);
  }

  // ---------- Over whole runs ----------

  lemma InitiallyInv(s: State)
    requires Init(s)
    ensures Inv(s)
  {
    forall k: nat ensures InFlight(s.pcs, k) == 0 { IdleInFlight(s.pcs, k); }
  }

  lemma {:induction false} RunKeepsInv(run: seq<State>, steps: seq<Step>, i: nat)
    requires IsRun(run, steps) && i < |run|
    ensures Inv(run[i])
  {
    hide Init, Inv, Go, Call, CanAdvance, CanCall;
    if i == 0 {
      InitiallyInv(run[0]);
    } else {
      RunKeepsInv(run, steps, i - 1);
      var s, step := run[i - 1], steps[i - 1];
      assert CanDo(s, step) && run[i - 1 + 1] == Do(s, step);
      if step.Advance? { GoKeepsInv(s, step.t); } else { CallKeepsInv(s, step); }
    }
  }

  lemma {:induction false} IdleInFlight(pcs: seq<Pc>, k: nat)
    requires forall t :: 0 <= t < |pcs| ==> pcs[t] == Idle
    ensures InFlight(pcs, k) == 0
  {
    if pcs != [] { IdleInFlight(pcs[1..], k); }
  }

  /** No interrupt is lost. In every reachable state in which nobody holds the mutex, a pending signal
      finds no run, a run already cancelled, or a router that has captured that very run and is on its
      way to cancel it. */
  lemma PendingInterruptsRun(run: seq<State>, steps: seq<Step>, i: nat)
    requires IsRun(run, steps) && i < |run| && run[i].mu == None
    requires run[i].pending.Some? && run[i].run.Some?
    ensures || run[i].run.value in run[i].cancelled
            || exists t :: 0 <= t < |run[i].pcs| && run[i].pcs[t] == RouteCancel(run[i].run.value)
  {
    RunKeepsInv(run, steps, i);
    var s := run[i];
    if s.run.value !in s.cancelled {
      var t :| 0 <= t < |s.pcs| && Attends(s.pcs[t], s.run.value);
      assert !Locked(s.pcs[t]);
      assert s.pcs[t] == RouteCancel(s.run.value);
    }
  }

  /** Once every thread is idle, a pending signal and an uncancelled run do not coexist. */
  lemma QuietStateIsInterrupted(run: seq<State>, steps: seq<Step>, i: nat)
    requires IsRun(run, steps) && i < |run|
    requires forall t :: 0 <= t < |run[i].pcs| ==> run[i].pcs[t].Idle?
    ensures run[i].pending.Some? && run[i].run.Some? ==> run[i].run.value in run[i].cancelled
  {
    RunKeepsInv(run, steps, i);
  }

  /** A run begun while a signal is pending is cancelled before its begin returns. */
  lemma RunBegunLateStartsCancelled(run: seq<State>, steps: seq<Step>, i: nat, t: nat, r: nat)
    requires IsRun(run, steps) && i < |steps| && steps[i] == Advance(t)
    requires t < |run[i].pcs| && run[i].pcs[t] == BeginUnlock(Some(r)) && run[i].pending.Some?
    ensures r in run[i + 1].cancelled && run[i + 1].run == Some(r)
  {
    RunKeepsInv(run, steps, i);
    assert PcOk(run[i], t);
    assert CanDo(run[i], steps[i]) && run[i + 1] == Do(run[i], steps[i]);
  }

  /** The first recorded signal wins: only a finish takes it away, and later ones leave it alone. */
  lemma FirstSignalWins(run: seq<State>, steps: seq<Step>, i: nat)
    requires IsRun(run, steps) && i < |steps| && run[i].pending.Some?
    ensures || run[i + 1].pending == run[i].pending
            || (&& steps[i].Advance? && steps[i].t < |run[i].pcs|
                && run[i].pcs[steps[i].t] == FinishClear(run[i].pending)
                && run[i + 1].pcs[steps[i].t] == FinishUnlock(run[i].pending)
                && run[i + 1].pending == None)
  {
    hide Go, InterruptOk, SignalsOk, ConservedOk;
    RunKeepsInv(run, steps, i);
    assert CanDo(run[i], steps[i]) && run[i + 1] == Do(run[i], steps[i]);
    if steps[i].Advance? {
      assert PcOk(run[i], steps[i].t) && Shape(run[i], steps[i].t, run[i + 1]);
    }
  }

  lemma {:induction false} TimesOfDistinct(q: seq<nat>, k: nat)
    requires forall i, j :: 0 <= i < j < |q| ==> q[i] != q[j]
    ensures Times(q, k) == if k in q then 1 else 0
  {
    if q != [] {
      var p, x := q[..|q| - 1], q[|q| - 1];
      TimesOfDistinct(p, k);
      assert q == p + [x];
      assert forall i :: 0 <= i < |p| ==> p[i] == q[i];
    }
  }

  /** Every recorded signal is either still pending, or on its way out of exactly one finish, or was
      returned by exactly one finish. */
  lemma RecordedSignalReturnedOnce(run: seq<State>, steps: seq<Step>, i: nat, k: nat)
    requires IsRun(run, steps) && i < |run|
    ensures var s := run[i];
            Times(s.finished, k) + InFlight(s.pcs, k) + (if s.pending == Some(k) then 1 else 0) ==
            if k in s.recorded then 1 else 0
  {
    RunKeepsInv(run, steps, i);
    var s := run[i];
    TimesOfDistinct(s.recorded, k);
    if s.pending.Some? { TimesAppend(s.taken, s.pending.value, k); }
    assert s.taken + [] == s.taken;
  }

  /** Ending a run clears that run and no other. */
  lemma EndClearsOnlyItsRun(run: seq<State>, steps: seq<Step>, i: nat, r: nat)
    requires IsRun(run, steps) && i < |steps| && run[i].run == Some(r)
    ensures || run[i + 1].run == Some(r)
            || (steps[i].Advance? && steps[i].t < |run[i].pcs| && run[i].pcs[steps[i].t] == EndClear(r))
  {
    hide Go, InterruptOk, SignalsOk, ConservedOk;
    RunKeepsInv(run, steps, i);
    assert CanDo(run[i], steps[i]) && run[i + 1] == Do(run[i], steps[i]);
    if steps[i].Advance? {
      assert PcOk(run[i], steps[i].t) && Shape(run[i], steps[i].t, run[i + 1]);
    }
  }

  /** An early signal and a published exec replacement exclude each other. */
  lemma SignalExcludesReplacement(run: seq<State>, steps: seq<Step>, i: nat)
    requires IsRun(run, steps) && i < |run|
    ensures !(run[i].pending.Some? && run[i].current)
  {
    RunKeepsInv(run, steps, i);
  }

  /** No call waits on anything but the mutex, and its holder can always step: some thread that is
      inside a call can advance, and brings that call nearer to its end. */
  lemma SomeCallAdvances(run: seq<State>, steps: seq<Step>, i: nat, t: nat)
    requires IsRun(run, steps) && i < |run| && t < |run[i].pcs| && !run[i].pcs[t].Idle?
    ensures exists u: nat :: CanAdvance(run[i], u) && Remaining(Go(run[i], u).pcs[u]) < Remaining(run[i].pcs[u])
  {
    RunKeepsInv(run, steps, i);
    var s := run[i];
    var u := if s.mu.Some? then s.mu.value else t;
    assert Locked(s.pcs[u]) <==> s.mu == Some(u);
    assert PcOk(s, u);
    assert CanAdvance(s, u);
    assert Shape(s, u, Go(s, u));
  }

  // ---------- A run in full ----------

  lemma RunGrows(run: seq<State>, steps: seq<Step>, step: Step)
    requires IsRun(run, steps) && CanDo(run[|run| - 1], step)
    ensures IsRun(run + [Do(run[|run| - 1], step)], steps + [step])
  {
    hide Do, CanDo;
    var longer, all := run + [Do(run[|run| - 1], step)], steps + [step];
    forall i | 0 <= i < |all| ensures CanDo(longer[i], all[i]) && longer[i + 1] == Do(longer[i], all[i]) {
      if i < |steps| { assert run[i + 1] == Do(run[i], steps[i]); }
    }
  }

  /** The states of one thread that routes a signal. */
  ghost function Judging(k: nat): State {
    var pc := match k
      case 0 => RouteWait(0) case 1 => RouteCurrent(0) case 2 => RouteDecide(0) case 3 => RouteRecord(0)
      case 4 => RouteCapture case 5 => RouteUnlock(None) case _ => Idle;
    State(if 0 < k < 6 then Some(0) else None, None, if k < 4 then None else Some(0), false, {}, 0, [{}],
          Traps(map[], {}), [pc], [Signal("INT", false, false)], if k < 4 then [] else [0], [], [], [])
  }

  lemma JudgingStep(k: nat)
    requires k < 6
    ensures CanDo(Judging(k), Advance(0)) && Do(Judging(k), Advance(0)) == Judging(k + 1)
  {
    var s := Judging(k);
    if k < 3 {
      assert Go(s, 0) == GoJudge(s, 0);
    } else {
      assert Go(s, 0) == GoRoute(s, 0);
    }
  }

  /** A thread routes a signal ... */
  lemma SignalRouted() returns (run: seq<State>, steps: seq<Step>)
    ensures IsRun(run, steps) && |run| == 8 && run[7] == Judging(6)
  {
    var sig := Signal("INT", false, false);
    var s := State(None, None, None, false, {}, 0, [{}], Traps(map[], {}), [Idle], [], [], [], [], []);
    run, steps := [s], [];
    RunGrows(run, steps, CallRoute(0, sig));
    assert Do(s, CallRoute(0, sig)) == Judging(0);
    run, steps := run + [Judging(0)], steps + [CallRoute(0, sig)];
    hide Judging, Do, CanDo, IsRun;
    for k := 0 to 6
      invariant |run| == k + 2 && |steps| == k + 1 && IsRun(run, steps) && run[k + 1] == Judging(k)
    {
      JudgingStep(k);
      RunGrows(run, steps, Advance(0));
      run, steps := run + [Judging(k + 1)], steps + [Advance(0)];
    }
  }

  /** ... and begins a run afterwards, which its last step but one finds cancelled. */
  lemma RunBegunLate() returns (run: seq<State>, steps: seq<Step>)
    ensures IsRun(run, steps) && |run| == 13 && steps[11] == Advance(0)
    ensures |run[11].pcs| == 1 && run[11].pcs[0] == BeginUnlock(Some(0)) && run[11].pending.Some?
  {
    run, steps := SignalRouted();
    var s := run[7];
    RunGrows(run, steps, CallBegin(0));
    s := Do(s, CallBegin(0));
    run, steps := run + [s], steps + [CallBegin(0)];
    for k := 0 to 4
      invariant |run| == k + 9 && IsRun(run, steps) && run[|run| - 1] == s
      invariant |s.pcs| == |s.open| == 1 && s.pending == Some(0) && s.mu == if k in {0, 4} then None else Some(0)
      invariant k < 2 ==> s.run == None && s.runs == 0
      invariant s.pcs[0] == match k case 0 => BeginWait case 1 => BeginTest case 2 => BeginPending(0)
                                    case 3 => BeginUnlock(Some(0)) case _ => Idle
      invariant k == 4 ==> steps[11] == Advance(0) && run[11].pcs == [BeginUnlock(Some(0))] && run[11].pending == Some(0)
    {
      RunGrows(run, steps, Advance(0));
      ghost var was := s;
      s := Do(s, Advance(0));
      run, steps := run + [s], steps + [Advance(0)];
      assert k == 3 ==> run[11] == was;
    }
  }
}
