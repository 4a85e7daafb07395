/** Guarded publication of variable cells that several goroutines can name
    (interp/bashpp_cell_share.go), as interleaved threads. Testing the guard word, taking and
    releasing the reader/writer lock and moving each single field are separate steps. */
module CellShare {
  import opened Common

  /** storeFields moves twenty fields. */
  const FIELDS: nat := 20

  type Bundle = b: seq<int> | |b| == FIELDS witness seq(FIELDS, _ => 0)

  /** The guard word is nil until the cell is first aliased. */
  datatype Cell = Cell(fields: Bundle, guard: Option<nat>)

  /** sync.RWMutex: a writer announces itself, which keeps new readers and writers out, then waits
      for the readers that are in. */
  datatype Lock = Lock(readers: set<nat>, writer: Option<nat>)

  /** What a snapshot is taken for: to look at, or to publish into another cell. */
  datatype Goal = Look | Into(dst: nat)

  datatype Pc =
    | Idle
    | TestSource(src: nat, goal: Goal)
    | WantRead(src: nat, g: nat, goal: Goal)
    | Copying(src: nat, held: Option<nat>, acc: seq<int>, goal: Goal)
    | TestTarget(dst: nat, snap: Bundle)
    | WantWrite(dst: nat, g: nat, snap: Bundle)
    | Announced(dst: nat, g: nat, snap: Bundle)
    | Storing(dst: nat, held: Option<nat>, snap: Bundle, i: nat)

  /** One completed view of an armed cell: what it saw, and which published value that was. */
  datatype Sight = Sight(cell: nat, bundle: seq<int>, version: nat)

  datatype State = State(
    cells: map<nat, Cell>,
    locks: map<nat, Lock>,
    pcs: seq<Pc>,
    reach: seq<set<nat>>,             // the cells each thread can name
    published: map<nat, seq<Bundle>>, // per armed cell: its value when armed, then every published one
    sights: seq<Sight>)

  datatype Step =
    | Alloc(t: nat, c: nat, b: Bundle)
    | WritePrivate(t: nat, c: nat, b: Bundle)
    | Arm(t: nat, c: nat, g: nat)
    | Share(t: nat, u: nat, c: nat)
    | StartView(t: nat, c: nat)
    | StartPublish(t: nat, dst: nat, src: nat)
    | Advance(t: nat)

  ghost predicate InReach(s: State, t: nat, c: nat) {
    t < |s.pcs| && t < |s.reach| && c in s.reach[t] && c in s.cells
  }

  /** The steps that begin something. Arming happens in the goroutine that still owns the cell. */
  ghost predicate CanStart(s: State, step: Step) {
    match step
    case Alloc(t, c, _) => t < |s.pcs| && t < |s.reach| && s.pcs[t].Idle? && c !in s.cells && c !in s.published
    case WritePrivate(t, c, _) => InReach(s, t, c) && s.pcs[t].Idle? && s.cells[c].guard.None?
    case Arm(t, c, g) => InReach(s, t, c) && s.pcs[t].Idle? && s.cells[c].guard.None? && g !in s.locks
    case Share(t, u, c) => InReach(s, t, c) && s.pcs[t].Idle? && s.cells[c].guard.Some? && u < |s.reach|
    case StartView(t, c) => InReach(s, t, c) && s.pcs[t].Idle?
    case StartPublish(t, dst, src) => InReach(s, t, dst) && InReach(s, t, src) && s.pcs[t].Idle?
    case Advance(t) => false
  }

  ghost function Start(s: State, step: Step): (r: State)
    requires CanStart(s, step)
    ensures |r.pcs| == |s.pcs| && |r.reach| == |s.reach| && r.sights == s.sights
    ensures s.cells.Keys <= r.cells.Keys && s.locks.Keys <= r.locks.Keys
    ensures forall g :: g in s.locks ==> r.locks[g] == s.locks[g]
    ensures forall g :: g in r.locks && g !in s.locks ==> r.locks[g] == Lock({}, None)
    ensures forall u :: 0 <= u < |s.pcs| ==> r.pcs[u] == s.pcs[u] || (s.pcs[u].Idle? && r.pcs[u].TestSource?)
    ensures forall c :: c in s.cells && s.cells[c].guard.Some? ==>
              r.cells[c] == s.cells[c] && (c in s.published ==> c in r.published && r.published[c] == s.published[c])
  {
    match step
    case Alloc(t, c, b) => s.(cells := s.cells[c := Cell(b, None)], reach := s.reach[t := s.reach[t] + {c}])
    case WritePrivate(t, c, b) => s.(cells := s.cells[c := s.cells[c].(fields := b)])
    case Arm(t, c, g) =>
      s.(cells := s.cells[c := s.cells[c].(guard := Some(g))],
         locks := s.locks[g := Lock({}, None)],
         published := s.published[c := [s.cells[c].fields]])
    case Share(t, u, c) => s.(reach := s.reach[u := s.reach[u] + {c}])
    case StartView(t, c) => At(s, t, TestSource(c, Look))
    case StartPublish(t, dst, src) => At(s, t, TestSource(src, Into(dst)))
  }

  ghost function At(s: State, t: nat, pc: Pc): State
    requires t < |s.pcs|
  {
    s.(pcs := s.pcs[t := pc])
  }

  /** Whether a thread in the middle of an operation can take its next step: only the two lock
      acquisitions ever wait. */
  ghost predicate CanAdvance(s: State, t: nat) {
    t < |s.pcs| &&
    match s.pcs[t]
    case Idle => false
    case TestSource(c, _) => c in s.cells
    case WantRead(_, g, _) => g in s.locks && s.locks[g].writer.None?
    case Copying(c, held, acc, _) => c in s.cells && HeldKnown(s, c, held)
    case TestTarget(c, _) => c in s.cells
    case WantWrite(_, g, _) => g in s.locks && s.locks[g].writer.None?
    case Announced(_, g, _) => g in s.locks && s.locks[g].readers == {}
    case Storing(c, held, _, _) => c in s.cells && HeldKnown(s, c, held)
  }

  ghost predicate HeldKnown(s: State, c: nat, held: Option<nat>) {
    held.Some? ==> held.value in s.locks && c in s.published && s.published[c] != []
  }

  /** Taking a snapshot, or storing one. */
  function Phase(pc: Pc): int {
    if pc.Idle? then 0 else if pc.TestSource? || pc.WantRead? || pc.Copying? then 1 else 2
  }

  /** An upper bound on the steps an operation still has to take. */
  function Remaining(pc: Pc): nat {
    match pc
    case Idle => 0
    case TestSource(_, goal) => FIELDS + 3 + After(goal)
    case WantRead(_, _, goal) => FIELDS + 2 + After(goal)
    case Copying(_, _, acc, goal) => (if |acc| <= FIELDS then FIELDS - |acc| else 0) + 1 + After(goal)
    case TestTarget(_, _) => FIELDS + 4
    case WantWrite(_, _, _) => FIELDS + 3
    case Announced(_, _, _) => FIELDS + 2
    case Storing(_, _, _, i) => (if i <= FIELDS then FIELDS - i else 0) + 1
  }

  function After(goal: Goal): nat { if goal.Into? then FIELDS + 4 else 0 }

  /** What every step respects: only the stepping thread moves, nobody's reach or guard word changes,
      and taking a snapshot changes no cell and no writer. */
  ghost predicate Shape(s: State, t: nat, r: State)
    requires t < |s.pcs|
  {
    && |r.pcs| == |s.pcs| && r.reach == s.reach && (forall u :: 0 <= u < |s.pcs| && u != t ==> r.pcs[u] == s.pcs[u])
    && r.cells.Keys == s.cells.Keys && r.locks.Keys == s.locks.Keys && r.published.Keys == s.published.Keys
    && (forall c :: c in s.cells ==> r.cells[c].guard == s.cells[c].guard)
    && (Phase(s.pcs[t]) == 1 ==> r.cells == s.cells && r.published == s.published)
    && (Phase(s.pcs[t]) == 1 ==> forall g :: g in s.locks ==> r.locks[g].writer == s.locks[g].writer)
    && (Phase(s.pcs[t]) == 2 ==> r.sights == s.sights)
    && (forall c :: c in s.published ==> s.published[c] <= r.published[c])
    && Remaining(r.pcs[t]) < Remaining(s.pcs[t])
  }

  /** view, and the snapshot publish takes, one step at a time. */
  ghost function GoRead(s: State, t: nat): (r: State)
    requires CanAdvance(s, t) && Phase(s.pcs[t]) == 1
    ensures Shape(s, t, r)
  {
    match s.pcs[t]
    case TestSource(c, goal) =>
      At(s, t, if s.cells[c].guard.None? then Copying(c, None, [], goal) else WantRead(c, s.cells[c].guard.value, goal))
    case WantRead(c, g, goal) =>
      At(s, t, Copying(c, Some(g), [], goal))
        .(locks := s.locks[g := s.locks[g].(readers := s.locks[g].readers + {t})])
    case Copying(c, held, acc, goal) =>
      if |acc| < FIELDS then At(s, t, Copying(c, held, acc + [s.cells[c].fields[|acc|]], goal))
      else
        var next := if |acc| != FIELDS || goal.Look? then Idle else TestTarget(goal.dst, acc);
        if held.None? then At(s, t, next)
        else
          var g := held.value;
          At(s, t, next).(locks := s.locks[g := s.locks[g].(readers := s.locks[g].readers - {t})],
                          sights := s.sights + [Sight(c, acc, |s.published[c]| - 1)])
  }

  /** publish and storeFields, one step at a time. */
  ghost function GoWrite(s: State, t: nat): (r: State)
    requires CanAdvance(s, t) && Phase(s.pcs[t]) == 2
    ensures Shape(s, t, r)
  {
    match s.pcs[t]
    case TestTarget(c, snap) =>
      At(s, t, if s.cells[c].guard.None? then Storing(c, None, snap, 0) else WantWrite(c, s.cells[c].guard.value, snap))
    case WantWrite(c, g, snap) =>
      At(s, t, Announced(c, g, snap)).(locks := s.locks[g := s.locks[g].(writer := Some(t))])
    case Announced(c, g, snap) =>
      At(s, t, Storing(c, Some(g), snap, 0))
    case Storing(c, held, snap, i) =>
      if i < FIELDS then
        At(s, t, Storing(c, held, snap, i + 1))
          .(cells := s.cells[c := s.cells[c].(fields := s.cells[c].fields[i := snap[i]])])
      else if held.None? then At(s, t, Idle)
      else
        At(s, t, Idle).(locks := s.locks[held.value := s.locks[held.value].(writer := None)],
                        published := s.published[c := s.published[c] + [snap]])
  }

  ghost function Go(s: State, t: nat): (r: State)
    requires CanAdvance(s, t)
    ensures Shape(s, t, r)
  {
    if Phase(s.pcs[t]) == 1 then GoRead(s, t) else GoWrite(s, t)
  }

  ghost predicate CanDo(s: State, step: Step) {
    if step.Advance? then CanAdvance(s, step.t) else CanStart(s, step)
  }

  ghost function Do(s: State, step: Step): State
    requires CanDo(s, step)
  {
    if step.Advance? then Go(s, step.t) else Start(s, step)
  }

  ghost predicate Init(s: State) {
    && s.cells == map[] && s.locks == map[] && s.published == map[] && s.sights == []
    && |s.pcs| == |s.reach|
    && (forall t :: 0 <= t < |s.pcs| ==> s.pcs[t] == Idle && s.reach[t] == {})
  }

  ghost predicate IsRun(run: seq<State>, steps: seq<Step>) {
    && |run| == |steps| + 1 && Init(run[0])
    && forall i :: 0 <= i < |steps| ==> CanDo(run[i], steps[i]) && run[i + 1] == Do(run[i], steps[i])
  }

  // ---------- The invariant ----------

  ghost predicate Reads(pc: Pc, g: nat) { pc.Copying? && pc.held == Some(g) }
  ghost predicate Claims(pc: Pc, g: nat) { (pc.Announced? && pc.g == g) || Writes(pc, g) }
  ghost predicate Writes(pc: Pc, g: nat) { pc.Storing? && pc.held == Some(g) }

  /** The cell a pc is about, and the guard it has read from that cell's guard word. */
  ghost function CellOf(pc: Pc): Option<nat> {
    match pc
    case Idle => None
    case TestSource(c, _) => Some(c)
    case WantRead(c, _, _) => Some(c)
    case Copying(c, _, _, _) => Some(c)
    case TestTarget(c, _) => Some(c)
    case WantWrite(c, _, _) => Some(c)
    case Announced(c, _, _) => Some(c)
    case Storing(c, _, _, _) => Some(c)
  }

  ghost predicate GuardRead(pc: Pc, guard: Option<nat>) {
    match pc
    case WantRead(_, g, _) => guard == Some(g)
    case Copying(_, held, _, _) => guard == held
    case WantWrite(_, g, _) => guard == Some(g)
    case Announced(_, g, _) => guard == Some(g)
    case Storing(_, held, _, _) => guard == held
    case _ => true
  }

  ghost function GoalOf(pc: Pc): Goal {
    match pc
    case TestSource(_, goal) => goal
    case WantRead(_, _, goal) => goal
    case Copying(_, _, _, goal) => goal
    case _ => Look
  }

  ghost function Latest(s: State, c: nat): Bundle
    requires c in s.published && s.published[c] != []
  {
    s.published[c][|s.published[c]| - 1]
  }

  /** Every cell a thread works on is one it can name, and the guard it works under is that cell's. */
  ghost predicate PcOk(s: State, t: nat) {
    t < |s.pcs| == |s.reach| &&
    var pc := s.pcs[t];
    && (CellOf(pc).Some? ==> InReach(s, t, CellOf(pc).value) && GuardRead(pc, s.cells[CellOf(pc).value].guard))
    && (GoalOf(pc).Into? ==> InReach(s, t, GoalOf(pc).dst))
    && (pc.Copying? ==> |pc.acc| <= FIELDS && pc.acc == s.cells[pc.src].fields[..|pc.acc|])
    && (pc.Storing? ==> pc.i <= FIELDS)
  }

  /** An unaliased cell has one owner; an armed one has a guard of its own and a published value. */
  ghost predicate CellOk(s: State, c: nat) {
    c in s.cells && |s.pcs| == |s.reach| &&
    var guard := s.cells[c].guard;
    && (guard.None? ==> forall t, u :: 0 <= t < |s.pcs| && 0 <= u < |s.pcs| && c in s.reach[t] && c in s.reach[u] ==> t == u)
    && (guard.Some? ==>
          && guard.value in s.locks && c in s.published && s.published[c] != []
          && (forall d :: d in s.cells && s.cells[d].guard == guard ==> d == c))
  }

  /** What the lock records is what the threads are doing. */
  ghost predicate LockOk(s: State, g: nat) {
    g in s.locks &&
    var l := s.locks[g];
    && (forall t :: t in l.readers <==> 0 <= t < |s.pcs| && Reads(s.pcs[t], g))
    && (forall t :: 0 <= t < |s.pcs| ==> (Claims(s.pcs[t], g) <==> l.writer == Some(t)))
    && (l.writer.Some? ==> l.writer.value < |s.pcs|)
    && (forall t :: 0 <= t < |s.pcs| && Writes(s.pcs[t], g) ==> l.readers == {})
  }

  /** A guarded cell holds the latest published value, except for the fields its one writer has
      already replaced. */
  ghost predicate ContentOk(s: State, c: nat) {
    c in s.cells && s.cells[c].guard.Some? && c in s.published && s.published[c] != [] ==>
      s.cells[c].fields ==
        match WriterOf(s, s.cells[c].guard.value)
        case Some(Storing(_, _, snap, i)) => if i <= FIELDS then snap[..i] + Latest(s, c)[i..] else Latest(s, c)
        case _ => Latest(s, c)
  }

  /** What the thread that holds or awaits a guard for writing is doing. */
  ghost function WriterOf(s: State, g: nat): Option<Pc> {
    if g in s.locks && s.locks[g].writer.Some? && s.locks[g].writer.value < |s.pcs|
    then Some(s.pcs[s.locks[g].writer.value])
    else None
  }

  ghost predicate SightsOk(s: State) {
    && (forall k :: 0 <= k < |s.sights| ==>
          var v := s.sights[k];
          v.cell in s.published && v.version < |s.published[v.cell]| && v.bundle == s.published[v.cell][v.version])
    && (forall k, l :: 0 <= k < l < |s.sights| && s.sights[k].cell == s.sights[l].cell ==>
          s.sights[k].version <= s.sights[l].version)
  }

  ghost predicate Inv(s: State) {
    && |s.pcs| == |s.reach|
    && (forall c :: c in s.cells ==> CellOk(s, c))
    && (forall c :: c in s.published ==> c in s.cells && s.cells[c].guard.Some?)
    && (forall t :: 0 <= t < |s.pcs| ==> PcOk(s, t))
    && (forall t :: 0 <= t < |s.reach| ==> forall c :: c in s.reach[t] ==> c in s.cells)
    && (forall g :: g in s.locks ==> LockOk(s, g))
    && (forall c :: c in s.cells ==> ContentOk(s, c))
    && SightsOk(s)
  }

  /** Two threads in the middle of operations on one cell: if either is storing fields, neither
      moves a field while the other does. */
  lemma NoFieldRace(s: State, t: nat, u: nat)
    requires Inv(s) && t < |s.pcs| && u < |s.pcs| && t != u
    requires s.pcs[t].Storing? && CellOf(s.pcs[u]) == Some(s.pcs[t].dst)
    ensures !s.pcs[u].Copying? && !s.pcs[u].Storing?
  {
    hide ContentOk, SightsOk;
    var c := s.pcs[t].dst;
    assert PcOk(s, t) && PcOk(s, u) && CellOk(s, c);
    assert c in s.reach[t] && c in s.reach[u];
    if s.cells[c].guard.Some? {
      var g := s.cells[c].guard.value;
      assert LockOk(s, g) && Claims(s.pcs[t], g);
      assert u in s.locks[g].readers <==> Reads(s.pcs[u], g);
    }
  }

  /** A guard word is written only where no other thread can be about to read it. */
  lemma NoGuardRace(s: State, t: nat, u: nat, c: nat, g: nat)
    requires Inv(s) && CanStart(s, Arm(t, c, g)) && u < |s.pcs| && u != t
    ensures CellOf(s.pcs[u]) != Some(c) && GoalOf(s.pcs[u]) != Into(c)
  {
    assert PcOk(s, u) && CellOk(s, c);
  }

  // Each step keeps each part of the invariant; a part is proved from the parts it depends on.

  lemma StartKeepsPc(s: State, step: Step, u: nat)
    requires |s.pcs| == |s.reach| && CanStart(s, step) && u < |s.pcs| && PcOk(s, u)
    requires (step.WritePrivate? || step.Arm?) ==> CellOk(s, step.c)
    ensures PcOk(Start(s, step), u)
  {
  }

  lemma StartKeepsCell(s: State, step: Step, c: nat)
    requires |s.pcs| == |s.reach| && CanStart(s, step) && c in Start(s, step).cells
    requires forall d :: d in s.cells ==> CellOk(s, d)
    requires forall t, d :: 0 <= t < |s.reach| && d in s.reach[t] ==> d in s.cells
    ensures CellOk(Start(s, step), c)
  {
    if c in s.cells { assert CellOk(s, c); }
    var s' := Start(s, step);
    if s'.cells[c].guard.Some? {
      forall d | d in s'.cells && s'.cells[d].guard == s'.cells[c].guard ensures d == c {
        if d in s.cells { assert CellOk(s, d); }
      }
    }
  }

  lemma StartKeepsLock(s: State, s': State, g: nat)
    requires |s'.pcs| == |s.pcs| && g in s'.locks
    requires forall u :: 0 <= u < |s.pcs| ==> s'.pcs[u] == s.pcs[u] || (s.pcs[u].Idle? && s'.pcs[u].TestSource?)
    requires if g in s.locks then LockOk(s, g) && s'.locks[g] == s.locks[g] else s'.locks[g] == Lock({}, None)
    requires forall t :: 0 <= t < |s.pcs| && (Reads(s.pcs[t], g) || Claims(s.pcs[t], g)) ==> g in s.locks
    ensures LockOk(s', g)
  {
  }

  lemma ContentFrame(s: State, s': State, c: nat)
    requires ContentOk(s, c) && c in s.cells && c in s'.cells && s.cells[c] == s'.cells[c]
    requires c in s.published ==> c in s'.published && s.published[c] == s'.published[c]
    requires c in s'.published ==> c in s.published
    requires s.cells[c].guard.Some? ==> WriterOf(s, s.cells[c].guard.value) == WriterOf(s', s.cells[c].guard.value)
    ensures ContentOk(s', c)
  {
  }

  lemma StartKeepsContent(s: State, step: Step, c: nat)
    requires |s.pcs| == |s.reach| && CanStart(s, step) && c in Start(s, step).cells
    requires c in s.cells ==> CellOk(s, c) && ContentOk(s, c)
    requires c in s.cells && s.cells[c].guard.Some? ==> LockOk(s, s.cells[c].guard.value)
    ensures CellOk(Start(s, step), c) ==> ContentOk(Start(s, step), c)
  {
    var s' := Start(s, step);
    if c in s.cells && s.cells[c].guard.Some? {
      assert s'.cells[c] == s.cells[c] && s'.published[c] == s.published[c];
      hide Start, CanStart, ContentOk;
      ContentFrame(s, s', c);
    } else if s'.cells[c].guard.Some? {
      assert step.Arm? && step.c == c;
      assert WriterOf(s', step.g) == None;
    }
  }

  lemma GuardsInUse(s: State, t: nat, g: nat)
    requires Inv(s) && t < |s.pcs| && (Reads(s.pcs[t], g) || Claims(s.pcs[t], g))
    ensures g in s.locks
  {
    assert PcOk(s, t) && CellOk(s, CellOf(s.pcs[t]).value);
  }

  lemma StartKeepsEachCell(s: State, step: Step, c: nat)
    requires Inv(s) && CanStart(s, step) && c in Start(s, step).cells
    ensures CellOk(Start(s, step), c) && ContentOk(Start(s, step), c)
  {
    StartKeepsCell(s, step, c);
    StartKeepsContent(s, step, c);
  }

  lemma StartKeepsEachLock(s: State, step: Step, g: nat)
    requires Inv(s) && CanStart(s, step) && g in Start(s, step).locks
    ensures LockOk(Start(s, step), g)
  {
    forall t | 0 <= t < |s.pcs| && (Reads(s.pcs[t], g) || Claims(s.pcs[t], g)) ensures g in s.locks {
      GuardsInUse(s, t, g);
    }
    StartKeepsLock(s, Start(s, step), g);
  }

  lemma StartKeepsReach(s: State, step: Step)
    requires Inv(s) && CanStart(s, step)
    ensures var s' := Start(s, step);
            && (forall c :: c in s'.published ==> c in s'.cells && s'.cells[c].guard.Some?)
            && (forall t :: 0 <= t < |s'.reach| ==> forall c :: c in s'.reach[t] ==> c in s'.cells)
            && SightsOk(s')
  {
    hide PcOk, CellOk, LockOk, ContentOk;
    var s' := Start(s, step);
    assert SightsOk(s') by {
      assert forall c :: c in s.published ==> c in s'.published && s'.published[c] == s.published[c];
      hide *;
      SightsGrow(s, s');
    }
  }

  lemma InvOf(s: State)
    requires |s.pcs| == |s.reach| && SightsOk(s)
    requires forall t :: 0 <= t < |s.pcs| ==> PcOk(s, t)
    requires forall c :: c in s.cells ==> CellOk(s, c) && ContentOk(s, c)
    requires forall g :: g in s.locks ==> LockOk(s, g)
    requires forall c :: c in s.published ==> c in s.cells && s.cells[c].guard.Some?
    requires forall t :: 0 <= t < |s.reach| ==> forall c :: c in s.reach[t] ==> c in s.cells
    ensures Inv(s)
  {
    hide PcOk, CellOk, LockOk, ContentOk, SightsOk;
  }

  lemma StartKeepsThreads(s: State, step: Step)
    requires Inv(s) && CanStart(s, step)
    ensures var s' := Start(s, step); |s'.pcs| == |s'.reach| && forall u :: 0 <= u < |s'.pcs| ==> PcOk(s', u)
  {
    var s' := Start(s, step);
    hide CanStart, Start, PcOk, CellOk, LockOk, ContentOk, SightsOk;
    assert |s.pcs| == |s.reach| && |s'.pcs| == |s.pcs| == |s'.reach|;
    assert (step.WritePrivate? || step.Arm?) ==> CellOk(s, step.c) by { StartNeedsCell(s, step); }
    forall u | 0 <= u < |s'.pcs| ensures PcOk(s', u) { StartKeepsPc(s, step, u); }
  }

  lemma StartNeedsCell(s: State, step: Step)
    requires CanStart(s, step)
    ensures step.WritePrivate? || step.Arm? ==> step.c in s.cells
  {
  }

  lemma StartKeepsInv(s: State, step: Step)
    requires Inv(s) && CanStart(s, step)
    ensures Inv(Start(s, step))
  {
    hide *;
    var s' := Start(s, step);
    StartKeepsThreads(s, step);
    StartKeepsReach(s, step);
    forall c | c in s'.cells ensures CellOk(s', c) && ContentOk(s', c) { StartKeepsEachCell(s, step, c); }
    forall g | g in s'.locks ensures LockOk(s', g) { StartKeepsEachLock(s, step, g); }
    InvOf(s');
  }

  lemma GoKeepsPcReading(s: State, t: nat, u: nat)
    requires |s.pcs| == |s.reach| && CanAdvance(s, t) && u < |s.pcs| && PcOk(s, t) && PcOk(s, u)
    requires u != t && s.pcs[t].Storing? && CellOf(s.pcs[u]) == Some(s.pcs[t].dst) ==> !s.pcs[u].Copying?
    requires Phase(s.pcs[t]) == 1
    ensures PcOk(GoRead(s, t), u)
  {
  }

  lemma GoKeepsPcWriting(s: State, t: nat, u: nat)
    requires |s.pcs| == |s.reach| && CanAdvance(s, t) && u < |s.pcs| && PcOk(s, t) && PcOk(s, u)
    requires u != t && s.pcs[t].Storing? && CellOf(s.pcs[u]) == Some(s.pcs[t].dst) ==> !s.pcs[u].Copying?
    requires Phase(s.pcs[t]) == 2
    ensures PcOk(GoWrite(s, t), u)
  {
  }

  lemma GoKeepsCell(s: State, t: nat, s': State, c: nat)
    requires |s.pcs| == |s.reach| && t < |s.pcs| && c in s.cells && CellOk(s, c) && Shape(s, t, s')
    ensures c in s'.cells && CellOk(s', c)
  {
    assert forall d :: d in s'.cells ==> d in s.cells && s'.cells[d].guard == s.cells[d].guard;
  }

  lemma LockFrame(s: State, s': State, t: nat, g: nat)
    requires LockOk(s, g) && g in s'.locks && s'.locks[g] == s.locks[g] && t < |s.pcs| == |s'.pcs|
    requires forall u :: 0 <= u < |s.pcs| && u != t ==> s'.pcs[u] == s.pcs[u]
    requires Reads(s'.pcs[t], g) == Reads(s.pcs[t], g) && Claims(s'.pcs[t], g) == Claims(s.pcs[t], g)
    requires Writes(s'.pcs[t], g) ==> s.locks[g].readers == {}
    ensures LockOk(s', g)
  {
  }

  /** Thread t enters or leaves a reader's share of g. */
  lemma ReaderMoves(s: State, s': State, t: nat, g: nat)
    requires LockOk(s, g) && g in s'.locks && t < |s.pcs| == |s'.pcs|
    requires forall u :: 0 <= u < |s.pcs| && u != t ==> s'.pcs[u] == s.pcs[u]
    requires !Claims(s.pcs[t], g) && !Claims(s'.pcs[t], g) && s'.locks[g].writer == s.locks[g].writer
    requires s'.locks[g].readers == if Reads(s'.pcs[t], g) then s.locks[g].readers + {t} else s.locks[g].readers - {t}
    requires Reads(s'.pcs[t], g) ==> s.locks[g].writer.None?
    ensures LockOk(s', g)
  {
  }

  /** Thread t becomes or stops being the writer of g. */
  lemma WriterMoves(s: State, s': State, t: nat, g: nat)
    requires LockOk(s, g) && g in s'.locks && t < |s.pcs| == |s'.pcs|
    requires forall u :: 0 <= u < |s.pcs| && u != t ==> s'.pcs[u] == s.pcs[u]
    requires !Reads(s.pcs[t], g) && !Reads(s'.pcs[t], g) && s'.locks[g].readers == s.locks[g].readers
    requires s.locks[g].writer == (if Claims(s.pcs[t], g) then Some(t) else None)
    requires s'.locks[g].writer == (if Claims(s'.pcs[t], g) then Some(t) else None)
    requires !Writes(s'.pcs[t], g)
    ensures LockOk(s', g)
  {
  }

  lemma GoKeepsLockReading(s: State, t: nat, g: nat)
    requires CanAdvance(s, t) && g in s.locks && LockOk(s, g) && Phase(s.pcs[t]) == 1
    ensures LockOk(GoRead(s, t), g)
  {
    var pc, s' := s.pcs[t], GoRead(s, t);
    if (pc.WantRead? && pc.g == g) || (pc.Copying? && pc.held == Some(g) && |pc.acc| >= FIELDS) {
      assert t < |s.pcs| && !Claims(pc, g) && !Claims(s'.pcs[t], g);
      assert Reads(s'.pcs[t], g) <==> pc.WantRead?;
      ReaderMoves(s, s', t, g);
    } else {
      assert s'.locks[g] == s.locks[g];
      LockFrame(s, s', t, g);
    }
  }

  lemma GoKeepsLockWriting(s: State, t: nat, g: nat)
    requires CanAdvance(s, t) && g in s.locks && LockOk(s, g) && Phase(s.pcs[t]) == 2
    ensures LockOk(GoWrite(s, t), g)
  {
    var pc, s' := s.pcs[t], GoWrite(s, t);
    if (pc.WantWrite? && pc.g == g) || (pc.Storing? && pc.held == Some(g) && pc.i >= FIELDS) {
      assert t < |s.pcs| && s.locks[g].writer == (if Claims(pc, g) then Some(t) else None);
      assert Claims(s'.pcs[t], g) <==> pc.WantWrite?;
      WriterMoves(s, s', t, g);
    } else {
      assert s'.locks[g] == s.locks[g];
      LockFrame(s, s', t, g);
    }
  }

  lemma GoKeepsContentReading(s: State, t: nat, c: nat)
    requires |s.pcs| == |s.reach| && CanAdvance(s, t) && PcOk(s, t)
    requires c in s.cells && CellOk(s, c) && ContentOk(s, c)
    requires s.cells[c].guard.Some? ==> LockOk(s, s.cells[c].guard.value)
    requires Phase(s.pcs[t]) == 1
    ensures CellOk(GoRead(s, t), c) ==> ContentOk(GoRead(s, t), c)
  {
    var s' := GoRead(s, t);
    if s.cells[c].guard.Some? {
      var g := s.cells[c].guard.value;
      assert !Claims(s.pcs[t], g);
      ContentFrame(s, s', c);
    }
  }

  /** A writer of another cell works under another guard. */
  lemma OtherContent(s: State, t: nat, c: nat)
    requires |s.pcs| == |s.reach| && CanAdvance(s, t) && PcOk(s, t) && Phase(s.pcs[t]) == 2
    requires c in s.cells && CellOk(s, c) && ContentOk(s, c) && CellOf(s.pcs[t]) != Some(c)
    requires s.cells[c].guard.Some? ==> LockOk(s, s.cells[c].guard.value)
    ensures ContentOk(GoWrite(s, t), c)
  {
    var s' := GoWrite(s, t);
    assert s'.cells[c] == s.cells[c] && (c in s.published ==> s'.published[c] == s.published[c]);
    if s.cells[c].guard.Some? {
      var g := s.cells[c].guard.value;
      assert !Claims(s.pcs[t], g);
      assert s'.locks[g] == s.locks[g];
      hide GoWrite, CanAdvance, ContentOk, CellOk, PcOk;
      ContentFrame(s, s', c);
    }
  }

  lemma OneMoreField(fields: Bundle, snap: Bundle, latest: Bundle, i: nat)
    requires i < FIELDS && fields == snap[..i] + latest[i..]
    ensures fields[i := snap[i]] == snap[..i + 1] + latest[i + 1..]
  {
  }

  lemma StoringContent(s: State, t: nat, c: nat)
    requires |s.pcs| == |s.reach| && CanAdvance(s, t) && PcOk(s, t) && s.pcs[t].Storing? && s.pcs[t].dst == c
    requires c in s.cells && CellOk(s, c) && ContentOk(s, c) && s.cells[c].guard.Some? && LockOk(s, s.cells[c].guard.value)
    ensures ContentOk(GoWrite(s, t), c)
  {
    var g, s', pc := s.cells[c].guard.value, GoWrite(s, t), s.pcs[t];
    assert Claims(pc, g) && WriterOf(s, g) == Some(pc);
    var latest := Latest(s, c);
    assert pc.i <= FIELDS && s.cells[c].fields == pc.snap[..pc.i] + latest[pc.i..];
    if pc.i < FIELDS {
      OneMoreField(s.cells[c].fields, pc.snap, latest, pc.i);
      assert WriterOf(s', g) == Some(s'.pcs[t]) && Latest(s', c) == latest;
    } else {
      assert s.cells[c].fields == pc.snap;
      assert WriterOf(s', g) == None && Latest(s', c) == pc.snap;
    }
  }

  lemma ClaimedContent(s: State, t: nat, c: nat)
    requires |s.pcs| == |s.reach| && CanAdvance(s, t) && PcOk(s, t) && CellOf(s.pcs[t]) == Some(c)
    requires Phase(s.pcs[t]) == 2 && !s.pcs[t].Storing?
    requires c in s.cells && CellOk(s, c) && ContentOk(s, c) && s.cells[c].guard.Some? && LockOk(s, s.cells[c].guard.value)
    ensures ContentOk(GoWrite(s, t), c)
  {
    var g, s', pc := s.cells[c].guard.value, GoWrite(s, t), s.pcs[t];
    assert s'.cells == s.cells && s'.published == s.published;
    assert Claims(pc, g) <==> pc.Announced?;
    assert WriterOf(s', g) == if pc.TestTarget? then WriterOf(s, g) else Some(s'.pcs[t]);
  }

  lemma SightsGrow(s: State, s': State)
    requires SightsOk(s) && s'.sights == s.sights
    requires forall c :: c in s.published ==> c in s'.published && s.published[c] <= s'.published[c]
    ensures SightsOk(s')
  {
  }

  lemma SightAdded(s: State, s': State, c: nat)
    requires SightsOk(s) && s'.published == s.published && c in s.published && s.published[c] != []
    requires s'.sights == s.sights + [Sight(c, Latest(s, c), |s.published[c]| - 1)]
    ensures SightsOk(s')
  {
  }

  /** A guarded thread that has copied every field has copied the latest published value. */
  lemma CopiedLatest(s: State, t: nat)
    requires Inv(s) && t < |s.pcs| && s.pcs[t].Copying? && |s.pcs[t].acc| >= FIELDS && s.pcs[t].held.Some?
    ensures var c := s.pcs[t].src;
            c in s.published && s.published[c] != [] && s.pcs[t].acc == Latest(s, c)
  {
    var pc := s.pcs[t];
    assert PcOk(s, t) && CellOk(s, pc.src) && ContentOk(s, pc.src) && LockOk(s, pc.held.value);
  }

  lemma GoKeepsSights(s: State, t: nat)
    requires CanAdvance(s, t) && SightsOk(s)
    requires s.pcs[t].Copying? && |s.pcs[t].acc| >= FIELDS && s.pcs[t].held.Some? ==>
               s.pcs[t].acc == Latest(s, s.pcs[t].src)
    ensures SightsOk(Go(s, t))
  {
    var pc, s' := s.pcs[t], Go(s, t);
    if pc.Copying? && |pc.acc| >= FIELDS && pc.held.Some? {
      SightAdded(s, s', pc.src);
    } else {
      SightsGrow(s, s');
    }
  }

  lemma GoKeepsEachPc(s: State, t: nat, u: nat)
    requires Inv(s) && CanAdvance(s, t) && u < |s.pcs|
    ensures PcOk(Go(s, t), u)
  {
    if u != t && s.pcs[t].Storing? && CellOf(s.pcs[u]) == Some(s.pcs[t].dst) { NoFieldRace(s, t, u); }
    if Phase(s.pcs[t]) == 1 { GoKeepsPcReading(s, t, u); } else { GoKeepsPcWriting(s, t, u); }
  }

  lemma GoKeepsEachCell(s: State, t: nat, c: nat)
    requires Inv(s) && CanAdvance(s, t) && c in s.cells
    ensures c in Go(s, t).cells && CellOk(Go(s, t), c) && ContentOk(Go(s, t), c)
  {
    assert PcOk(s, t);
    GoKeepsCell(s, t, Go(s, t), c);
    if Phase(s.pcs[t]) == 1 { GoKeepsContentReading(s, t, c); }
    else if CellOf(s.pcs[t]) == Some(c) && s.cells[c].guard.None? { assert Go(s, t).cells[c].guard.None?; }
    else if CellOf(s.pcs[t]) == Some(c) && s.pcs[t].Storing? { StoringContent(s, t, c); }
    else if CellOf(s.pcs[t]) == Some(c) { ClaimedContent(s, t, c); }
    else { OtherContent(s, t, c); }
  }

  lemma GoKeepsEachLock(s: State, t: nat, g: nat)
    requires Inv(s) && CanAdvance(s, t) && g in s.locks
    ensures g in Go(s, t).locks && LockOk(Go(s, t), g)
  {
    assert PcOk(s, t);
    if Phase(s.pcs[t]) == 1 { GoKeepsLockReading(s, t, g); } else { GoKeepsLockWriting(s, t, g); }
  }

  lemma GoKeepsInv(s: State, t: nat)
    requires Inv(s) && CanAdvance(s, t)
    ensures Inv(Go(s, t))
  {
    var s' := Go(s, t);
    forall u | 0 <= u < |s'.pcs| ensures PcOk(s', u) { GoKeepsEachPc(s, t, u); }
    forall c | c in s'.cells ensures CellOk(s', c) && ContentOk(s', c) { GoKeepsEachCell(s, t, c); }
    forall g | g in s'.locks ensures LockOk(s', g) {
      assert g in s.locks;
      GoKeepsEachLock(s, t, g);
    }
    if s.pcs[t].Copying? && |s.pcs[t].acc| >= FIELDS && s.pcs[t].held.Some? { CopiedLatest(s, t); }
    GoKeepsSights(s, t);
  }

  // ---------- Over whole runs ----------

  lemma {:induction false} RunKeepsInv(run: seq<State>, steps: seq<Step>, i: nat)
    requires IsRun(run, steps) && i < |run|
    ensures Inv(run[i])
  {
    if i > 0 {
      RunKeepsInv(run, steps, i - 1);
      var s, step := run[i - 1], steps[i - 1];
      assert CanDo(s, step) && run[i - 1 + 1] == Do(s, step);
      if step.Advance? { GoKeepsInv(s, step.t); } else { StartKeepsInv(s, step); }
    }
  }

  /** In every interleaving each completed view of an armed cell is one complete value of that cell:
      the one it held when it was armed or one that a publish stored, and successive views never go
      back to an earlier one. */
  lemma ViewsAreComplete(run: seq<State>, steps: seq<Step>, i: nat)
    requires IsRun(run, steps) && i < |run|
    ensures var s := run[i];
            && (forall k :: 0 <= k < |s.sights| ==>
                  var v := s.sights[k];
                  && |v.bundle| == FIELDS && v.cell in s.published
                  && v.version < |s.published[v.cell]| && v.bundle == s.published[v.cell][v.version])
            && (forall k, l :: 0 <= k < l < |s.sights| && s.sights[k].cell == s.sights[l].cell ==>
                  s.sights[k].version <= s.sights[l].version)
  {
    RunKeepsInv(run, steps, i);
  }

  /** Views and publishes are linearizable: a guarded snapshot is the value last published when its
      read lock is released, whether it is looked at or published on. */
  lemma SnapshotIsLatest(run: seq<State>, steps: seq<Step>, i: nat)
    requires IsRun(run, steps) && i < |steps| && steps[i].Advance?
    requires steps[i].t < |run[i].pcs| && run[i].pcs[steps[i].t].Copying?
    requires run[i].pcs[steps[i].t].held.Some? && |run[i].pcs[steps[i].t].acc| >= FIELDS
    ensures var pc := run[i].pcs[steps[i].t];
            pc.src in run[i].published && run[i].published[pc.src] != [] && pc.acc == Latest(run[i], pc.src)
    ensures run[i].pcs[steps[i].t].goal.Into? ==>
              run[i + 1].pcs[steps[i].t] ==
                TestTarget(run[i].pcs[steps[i].t].goal.dst, Latest(run[i], run[i].pcs[steps[i].t].src))
  {
    RunKeepsInv(run, steps, i);
    CopiedLatest(run[i], steps[i].t);
    assert CanDo(run[i], steps[i]) && run[i + 1] == Do(run[i], steps[i]);
  }

  /** The guard word is written once: after arming, nothing in any run rewrites it. */
  lemma {:induction false} GuardWrittenOnce(run: seq<State>, steps: seq<Step>, i: nat, j: nat, c: nat)
    requires IsRun(run, steps) && i <= j < |run| && c in run[i].cells && run[i].cells[c].guard.Some?
    ensures c in run[j].cells && run[j].cells[c].guard == run[i].cells[c].guard
    decreases j - i
  {
    if i < j {
      assert CanDo(run[i], steps[i]) && run[i + 1] == Do(run[i], steps[i]);
      GuardWrittenOnce(run, steps, i + 1, j, c);
    }
  }

  /** What thread t holds: a reader's share of a guard, or the writer's claim on it. */
  ghost predicate Holds(s: State, t: nat, g: nat) {
    g in s.locks && (t in s.locks[g].readers || s.locks[g].writer == Some(t))
  }

  lemma NeverTwoGuards(run: seq<State>, steps: seq<Step>, i: nat, t: nat, g: nat, h: nat)
    requires IsRun(run, steps) && i < |run| && Holds(run[i], t, g) && Holds(run[i], t, h)
    ensures g == h
  {
    RunKeepsInv(run, steps, i);
    var s := run[i];
    assert LockOk(s, g) && LockOk(s, h);
    assert t < |s.pcs|;
  }

  /** No reachable state is deadlocked: while some operation is under way, some operation can step. */
  lemma NeverDeadlocked(run: seq<State>, steps: seq<Step>, i: nat, t: nat)
    requires IsRun(run, steps) && i < |run| && t < |run[i].pcs| && !run[i].pcs[t].Idle?
    ensures exists u :: CanAdvance(run[i], u)
  {
    RunKeepsInv(run, steps, i);
    SomeoneSteps(run[i], t);
  }

  lemma SomeoneSteps(s: State, t: nat)
    requires Inv(s) && t < |s.pcs| && !s.pcs[t].Idle?
    ensures exists u :: CanAdvance(s, u)
  {
    assert PcOk(s, t);
    var pc := s.pcs[t];
    var c := CellOf(pc).value;
    assert CellOk(s, c);
    if !CanAdvance(s, t) {
      var g := s.cells[c].guard.value;
      assert LockOk(s, g);
      if s.locks[g].readers != {} {
        var r :| r in s.locks[g].readers;
        HolderSteps(s, r, g);
      } else {
        var w := s.locks[g].writer.value;
        assert Claims(s.pcs[w], g);
        HolderSteps(s, w, g);
      }
    }
  }

  lemma HolderSteps(s: State, t: nat, g: nat)
    requires Inv(s) && t < |s.pcs| && (Reads(s.pcs[t], g) || Claims(s.pcs[t], g))
    requires s.pcs[t].Announced? ==> g in s.locks && s.locks[g].readers == {}
    ensures CanAdvance(s, t)
  {
    assert PcOk(s, t);
    assert CellOk(s, CellOf(s.pcs[t]).value);
  }

  function Work(pcs: seq<Pc>): nat {
    if pcs == [] then 0 else Remaining(pcs[0]) + Work(pcs[1..])
  }

  lemma {:induction false} WorkDrops(pcs: seq<Pc>, t: nat, pc: Pc)
    requires t < |pcs| && Remaining(pc) < Remaining(pcs[t])
    ensures Work(pcs[t := pc]) < Work(pcs)
  {
    if t == 0 {
      assert pcs[t := pc][1..] == pcs[1..];
    } else {
      assert pcs[t := pc][1..] == pcs[1..][t - 1 := pc];
      WorkDrops(pcs[1..], t - 1, pc);
    }
  }

  lemma GoIsProgress(s: State, t: nat)
    requires CanAdvance(s, t)
    ensures Work(Go(s, t).pcs) < Work(s.pcs)
  {
    var pc := Go(s, t).pcs[t];
    assert Go(s, t).pcs == s.pcs[t := pc];
    WorkDrops(s.pcs, t, pc);
  }

  /** Every view and every publish under way completes: however the scheduler interleaves them, their
      steps run out, and when none is left all threads are idle. */
  lemma {:induction false} OperationsComplete(run: seq<State>, ts: seq<nat>)
    requires |run| == |ts| + 1 && Inv(run[0])
    requires forall i :: 0 <= i < |ts| ==> CanAdvance(run[i], ts[i]) && run[i + 1] == Go(run[i], ts[i])
    ensures |ts| <= Work(run[0].pcs)
    ensures (forall t :: !CanAdvance(run[|ts|], t)) ==> forall t :: 0 <= t < |run[|ts|].pcs| ==> run[|ts|].pcs[t].Idle?
    decreases |ts|
  {
    if ts == [] {
      forall t | 0 <= t < |run[0].pcs| && !run[0].pcs[t].Idle? ensures exists u :: CanAdvance(run[0], u) {
        SomeoneSteps(run[0], t);
      }
    } else {
      assert CanAdvance(run[0], ts[0]) && run[0 + 1] == Go(run[0], ts[0]);
      GoIsProgress(run[0], ts[0]);
      GoKeepsInv(run[0], ts[0]);
      forall i | 0 <= i < |ts[1..]| ensures CanAdvance(run[1..][i], ts[1..][i]) && run[1..][i + 1] == Go(run[1..][i], ts[1..][i]) {
        assert CanAdvance(run[i + 1], ts[i + 1]) && run[i + 1 + 1] == Go(run[i + 1], ts[i + 1]);
      }
      OperationsComplete(run[1..], ts[1..]);
    }
  }

  // ---------- A run in full ----------

  lemma RunGrows(run: seq<State>, steps: seq<Step>, step: Step)
    requires IsRun(run, steps) && CanDo(run[|run| - 1], step)
    ensures IsRun(run + [Do(run[|run| - 1], step)], steps + [step])
  {
    hide Do, CanDo;
    var longer, all := run + [Do(run[|run| - 1], step)], steps + [step];
    forall i | 0 <= i < |all| ensures CanDo(longer[i], all[i]) && longer[i + 1] == Do(longer[i], all[i]) {
      if i < |steps| { assert run[i + 1] == Do(run[i], steps[i]); }
    }
  }

  function Zeroes(n: nat): (r: seq<int>)
    ensures |r| == n && forall i :: 0 <= i < n ==> r[i] == 0
  {
    if n == 0 then [] else Zeroes(n - 1) + [0]
  }

  const ZEROES: Bundle := Zeroes(FIELDS)

  /** The first thread makes and arms a cell and shares it with the second, which looks at it. */
  function Sharing(k: nat): Step {
    match k
    case 0 => Alloc(0, 0, ZEROES)
    case 1 => Arm(0, 0, 0)
    case 2 => Share(0, 1, 0)
    case 3 => StartView(1, 0)
    case _ => Advance(1)
  }

  ghost function Shared(k: nat): State {
    State(if k == 0 then map[] else map[0 := Cell(ZEROES, if k < 2 then None else Some(0))],
          if k < 2 then map[] else map[0 := Lock(if k < 6 then {} else {1}, None)],
          [Idle, if k < 4 then Idle else if k == 4 then TestSource(0, Look) else if k == 5 then WantRead(0, 0, Look)
                 else Copying(0, Some(0), Zeroes(k - 6), Look)],
          [if k == 0 then {} else {0}, if k < 3 then {} else {0}],
          if k < 2 then map[] else map[0 := [ZEROES]], [])
  }

  lemma SharingStarts(k: nat)
    requires k < 4
    ensures CanDo(Shared(k), Sharing(k)) && Do(Shared(k), Sharing(k)) == Shared(k + 1)
  {
    var s := Shared(k);
    var alone: set<nat> := {0};
    assert {} + alone == alone;
    if k == 0 {
      assert Do(s, Sharing(0)) == Shared(1);
    } else if k == 1 {
      assert Do(s, Sharing(1)) == Shared(2);
    } else if k == 2 {
      assert Do(s, Sharing(2)) == Shared(3);
    } else {
      assert Do(s, Sharing(3)) == Shared(4);
    }
  }

  lemma SharingCopies(k: nat)
    requires 4 <= k < 6 + FIELDS
    ensures CanDo(Shared(k), Sharing(k)) && Do(Shared(k), Sharing(k)) == Shared(k + 1)
  {
    var s := Shared(k);
    var second: set<nat> := {1};
    assert {} + second == second;
    if k < 6 {
      assert Go(s, 1).pcs == Shared(k + 1).pcs && Go(s, 1).locks == Shared(k + 1).locks;
    } else {
      assert ZEROES[k - 6] == 0 && Zeroes(k + 1 - 6) == Zeroes(k - 6) + [0];
      assert Go(s, 1).pcs == Shared(k + 1).pcs;
    }
  }

  /** The copy is complete after 26 steps, and the lock is about to be released. */
  lemma CopyCompletes() returns (run: seq<State>, steps: seq<Step>)
    ensures IsRun(run, steps) && |run| == |steps| + 1 == 28 && steps[26] == Advance(1)
    ensures |run[26].pcs| == 2 && run[26].pcs[1].Copying? && run[26].pcs[1].held.Some? && |run[26].pcs[1].acc| >= FIELDS
  {
    run, steps := [Shared(0)], [];
    hide Do, CanDo;
    for k := 0 to 26
      invariant |run| == |steps| + 1 == k + 1 && IsRun(run, steps) && run[k] == Shared(k)
    {
      if k < 4 { SharingStarts(k); } else { SharingCopies(k); }
      RunGrows(run, steps, Sharing(k));
      run, steps := run + [Shared(k + 1)], steps + [Sharing(k)];
    }
    SharingEnds();
    RunGrows(run, steps, Advance(1));
    run, steps := run + [Do(Shared(26), Advance(1))], steps + [Advance(1)];
  }

  lemma SharingEnds()
    ensures CanDo(Shared(26), Advance(1)) && Shared(26).pcs[1].Copying? && |Shared(26).pcs[1].acc| == FIELDS
  {
  }
}
