/**
 The executor between its locks: the dispatch loop, any number of exit handlers and the reconcile tick
 as threads whose steps are the stretches the mutex or the daemon makes atomic, in any interleaving.
 */
module ExecutorInterleaving {
  import opened Docker
  import opened ResilienceSpec

  /** Who wrote the slot last; the program does not keep this. */
  datatype Owner = ByDispatch | ByAdoption

  datatype Slot = Slot(id: ContainerID, owner: Owner)

  type Slots = map<ProjectName, Slot>

  datatype Box = Box(project: ProjectName, live: bool)

  /** Where the dispatch loop stands; `count` is its own running count, read once per pass. */
  datatype DispatchPc =
    | Idle
    | InPass(count: nat)
    | ReservedSlot(count: nat, project: ProjectName)
    | Launched(count: nat, project: ProjectName, id: ContainerID)
    | FailedToStart(count: nat, project: ProjectName)

  datatype ExitPc =
    | Resolved(id: ContainerID, project: ProjectName)
    | Inspected(id: ContainerID, project: ProjectName)
    | Reporting(id: ContainerID, project: ProjectName)
    | Removing(id: ContainerID)

  datatype TickPc =
    | Waiting
    | Listed(list: map<ContainerID, Box>)
    | Comparing(list: map<ContainerID, Box>, tracked: set<ContainerID>)

  datatype State = State(
    running: Slots, boxes: map<ContainerID, Box>, nextId: ContainerID,
    pc: DispatchPc, exits: map<nat, ExitPc>, tick: TickPc, reported: seq<ContainerID>)

  datatype Step =
    | BeginPass | Reserve(project: ProjectName) | Launch | FailStart | Fill | ReleaseFailed | EndPass
    | Stop(stopped: ContainerID)
    | ExitBegin(handler: nat, exited: ContainerID, owner: ProjectName)
    | ExitGone(handler: nat) | ExitInspect(handler: nat) | ExitReport(handler: nat)
    | ExitRelease(handler: nat) | ExitRemove(handler: nat)
    | ListBoxes | CompareBoxes | Adopt(orphan: ContainerID) | EndTick

  ghost predicate NoSlotHolds(running: Slots, id: ContainerID) {
    forall p :: p in running ==> running[p].id != id
  }

  ghost predicate Enabled(parallelism: nat, s: State, step: Step) {
    match step
    case BeginPass => s.pc.Idle?
    case Reserve(p) => s.pc.InPass? && s.pc.count < parallelism && p !in s.running
    case Launch => s.pc.ReservedSlot?
    case FailStart => s.pc.ReservedSlot?
    case Fill => s.pc.Launched?
    case ReleaseFailed => s.pc.FailedToStart?
    case EndPass => s.pc.InPass?
    case Stop(id) => id in s.boxes
    case ExitBegin(h, id, p) =>
      && h !in s.exits
      && ((p in s.running && s.running[p].id == id)
          || (NoSlotHolds(s.running, id) && id in s.boxes && s.boxes[id].project == p))
    // The inspection fails: the container is gone, or the daemon does not answer.
    case ExitGone(h) => h in s.exits && s.exits[h].Resolved?
    case ExitInspect(h) => h in s.exits && s.exits[h].Resolved? && s.exits[h].id in s.boxes
    // The logs have been collected meanwhile, and the container may be gone.
    case ExitReport(h) => h in s.exits && s.exits[h].Inspected?
    case ExitRelease(h) => h in s.exits && s.exits[h].Reporting?
    case ExitRemove(h) => h in s.exits && s.exits[h].Removing?
    case ListBoxes => s.tick.Waiting?
    case CompareBoxes => s.tick.Listed?
    case Adopt(id) => s.tick.Comparing? && id in s.tick.list && s.tick.list[id].live && id !in s.tick.tracked
    case EndTick => s.tick.Comparing?
  }

  ghost function SlotIds(running: Slots): set<ContainerID> {
    set p | p in running :: running[p].id
  }

  ghost function Next(parallelism: nat, s: State, step: Step): State
    requires Enabled(parallelism, s, step)
  {
    match step
    case BeginPass => s.(pc := InPass(|s.running|))
    case Reserve(p) => s.(running := s.running[p := Slot(RESERVED, ByDispatch)], pc := ReservedSlot(s.pc.count, p))
    case Launch =>
      s.(boxes := s.boxes[s.nextId := Box(s.pc.project, true)], nextId := s.nextId + 1,
         pc := Launched(s.pc.count, s.pc.project, s.nextId))
    case FailStart => s.(pc := FailedToStart(s.pc.count, s.pc.project))
    case Fill =>
      s.(running := s.running[s.pc.project := Slot(s.pc.id, ByDispatch)], pc := InPass(s.pc.count + 1))
    case ReleaseFailed => s.(running := s.running - {s.pc.project}, pc := InPass(s.pc.count))
    case EndPass => s.(pc := Idle)
    case Stop(id) => s.(boxes := s.boxes[id := s.boxes[id].(live := false)])
    case ExitBegin(h, id, p) => s.(exits := s.exits[h := Resolved(id, p)])
    case ExitGone(h) => s.(running := s.running - {s.exits[h].project}, exits := s.exits - {h})
    case ExitInspect(h) => s.(exits := s.exits[h := Inspected(s.exits[h].id, s.exits[h].project)])
    case ExitReport(h) =>
      s.(reported := s.reported + [s.exits[h].id], exits := s.exits[h := Reporting(s.exits[h].id, s.exits[h].project)])
    case ExitRelease(h) =>
      s.(running := s.running - {s.exits[h].project}, exits := s.exits[h := Removing(s.exits[h].id)])
    case ExitRemove(h) => s.(boxes := s.boxes - {s.exits[h].id}, exits := s.exits - {h})
    case ListBoxes => s.(tick := Listed(s.boxes))
    case CompareBoxes => s.(tick := Comparing(s.tick.list, SlotIds(s.running)))
    case Adopt(id) => s.(running := s.running[s.tick.list[id].project := Slot(id, ByAdoption)])
    case EndTick => s.(tick := Waiting)
  }

  const START := State(map[], map[], 1, Idle, map[], Waiting, [])

  /** The steps can be taken one after another from the first state, and lead to the last. */
  ghost predicate Leads(parallelism: nat, s: State, steps: seq<Step>, t: State)
    decreases |steps|
  {
    if steps == [] then s == t
    else Enabled(parallelism, s, steps[0]) && Leads(parallelism, Next(parallelism, s, steps[0]), steps[1..], t)
  }

  // ---------- The bound on slots ----------

  ghost function Placed(running: Slots): set<ProjectName> {
    set p | p in running && running[p].owner.ByDispatch?
  }

  ghost function Adopted(running: Slots): set<ProjectName> {
    set p | p in running && running[p].owner.ByAdoption?
  }

  /** The loop's stale count still bounds the slots it has placed, the one in its hands aside. */
  ghost predicate Bounded(parallelism: nat, s: State) {
    && |Placed(s.running)| <= parallelism
    && match s.pc
       case Idle => true
       case InPass(c) => |Placed(s.running)| <= c
       case ReservedSlot(c, p) => c < parallelism && |Placed(s.running) - {p}| <= c
       case Launched(c, p, _) => c < parallelism && |Placed(s.running) - {p}| <= c
       case FailedToStart(c, p) => c < parallelism && |Placed(s.running) - {p}| <= c
  }

  lemma SubsetSize<T>(a: set<T>, b: set<T>)
    requires a <= b
    ensures |a| <= |b|
  {
    if x :| x in b && x !in a {
      SubsetSize(a, b - {x});
    } else {
      assert a == b;
    }
  }

  lemma WithoutOne<T>(a: set<T>, x: T)
    ensures |a| <= |a - {x}| + 1
  {
    SubsetSize(a, (a - {x}) + {x});
  }

  /** Shrinking or adopting away placed slots keeps the bound. */
  lemma FewerPlaced(parallelism: nat, s: State, running: Slots)
    requires Bounded(parallelism, s) && Placed(running) <= Placed(s.running)
    ensures Bounded(parallelism, s.(running := running))
  {
    SubsetSize(Placed(running), Placed(s.running));
    if s.pc.ReservedSlot? || s.pc.Launched? || s.pc.FailedToStart? {
      SubsetSize(Placed(running) - {s.pc.project}, Placed(s.running) - {s.pc.project});
    }
  }

  lemma PlacedAfter(running: Slots, p: ProjectName, slot: Slot)
    requires slot.owner.ByDispatch?
    ensures Placed(running[p := slot]) - {p} == Placed(running) - {p}
    ensures |Placed(running[p := slot])| <= |Placed(running) - {p}| + 1
    ensures Placed(running - {p}) == Placed(running) - {p}
    ensures p !in running ==> Placed(running) - {p} == Placed(running)
  {
    assert Placed(running[p := slot]) - {p} == Placed(running) - {p};
    WithoutOne(Placed(running[p := slot]), p);
  }

  lemma DispatchKeepsBound(parallelism: nat, s: State, step: Step)
    requires Bounded(parallelism, s) && Enabled(parallelism, s, step)
    requires step.BeginPass? || step.Reserve? || step.Fill? || step.ReleaseFailed?
    ensures Bounded(parallelism, Next(parallelism, s, step))
  {
    match step
    case BeginPass => SubsetSize(Placed(s.running), s.running.Keys);
    case Reserve(p) => PlacedAfter(s.running, p, Slot(RESERVED, ByDispatch));
    case Fill => PlacedAfter(s.running, s.pc.project, Slot(s.pc.id, ByDispatch));
    case ReleaseFailed => PlacedAfter(s.running, s.pc.project, Slot(RESERVED, ByDispatch));
  }

  /** Every step of every thread keeps the bound. */
  lemma StepKeepsBound(parallelism: nat, s: State, step: Step)
    requires Bounded(parallelism, s) && Enabled(parallelism, s, step)
    ensures Bounded(parallelism, Next(parallelism, s, step))
  {
    var t := Next(parallelism, s, step);
    if step.BeginPass? || step.Reserve? || step.Fill? || step.ReleaseFailed? {
      DispatchKeepsBound(parallelism, s, step);
    } else if step.ExitGone? || step.ExitRelease? || step.Adopt? {
      FewerPlaced(parallelism, s, t.running);
    }
  }

  /**
   In every state any interleaving can reach, the dispatch loop holds at most `parallelism` slots, and
   the map exceeds that by no more than its re-adopted slots.
   */
  lemma {:induction false} SlotsAreBounded(parallelism: nat, s: State, steps: seq<Step>, t: State)
    requires Bounded(parallelism, s) && Leads(parallelism, s, steps, t)
    ensures Bounded(parallelism, t)
    ensures |Placed(t.running)| <= parallelism && |t.running| <= parallelism + |Adopted(t.running)|
    decreases |steps|
  {
    if steps == [] {
      var a, b := Placed(s.running), Adopted(s.running);
      assert s.running.Keys == a + b && a !! b;
    } else {
      StepKeepsBound(parallelism, s, steps[0]);
      SlotsAreBounded(parallelism, Next(parallelism, s, steps[0]), steps[1..], t);
    }
  }

  lemma SlotsAreBoundedFromStart(parallelism: nat, steps: seq<Step>, t: State)
    requires Leads(parallelism, START, steps, t)
    ensures |Placed(t.running)| <= parallelism && |t.running| <= parallelism + |Adopted(t.running)|
  {
    assert Placed(START.running) == {};
    SlotsAreBounded(parallelism, START, steps, t);
  }

  // ---------- What only whole steps guarantee ----------

  /** A filled slot whose container is gone. */
  ghost predicate DeadSlot(s: State, p: ProjectName) {
    p in s.running && s.running[p].id != RESERVED && s.running[p].id !in s.boxes
  }

  predicate InFlight(pc: DispatchPc) {
    pc.ReservedSlot? || pc.Launched? || pc.FailedToStart?
  }

  /** Exit handlers free the slot of their project, and an adoption overwrites it. */
  ghost predicate Writes(s: State, step: Step, p: ProjectName) {
    match step
    case ExitGone(h) => h in s.exits && s.exits[h].Resolved? && s.exits[h].project == p
    case ExitRelease(h) => h in s.exits && s.exits[h].Reporting? && s.exits[h].project == p
    case Adopt(id) => s.tick.Comparing? && id in s.tick.list && s.tick.list[id].project == p
    case _ => false
  }

  ghost predicate NeverWrites(parallelism: nat, s: State, steps: seq<Step>, p: ProjectName)
    decreases |steps|
  {
    steps == [] ||
    (Enabled(parallelism, s, steps[0]) && !Writes(s, steps[0], p)
     && NeverWrites(parallelism, Next(parallelism, s, steps[0]), steps[1..], p))
  }

  /**
   A dead slot stays dead, and keeps its project from being dispatched, until an exit handler or an
   adoption writes the slot.
   */
  lemma {:induction false} DeadSlotStays(parallelism: nat, s: State, steps: seq<Step>, t: State, p: ProjectName)
    requires DeadSlot(s, p) && s.running[p].id < s.nextId && !(InFlight(s.pc) && s.pc.project == p)
    requires Leads(parallelism, s, steps, t) && NeverWrites(parallelism, s, steps, p)
    ensures DeadSlot(t, p) && t.running[p] == s.running[p] && !Enabled(parallelism, t, Reserve(p))
    decreases |steps|
  {
    if steps != [] {
      DeadSlotStays(parallelism, Next(parallelism, s, steps[0]), steps[1..], t, p);
    }
  }

  /** An exit handled between the start of a container and the filling of its slot leaves a dead slot. */
  lemma ExitBeforeFill(p: ProjectName) returns (steps: seq<Step>, t: State)
    ensures Leads(1, START, steps, t) && DeadSlot(t, p)
  {
    var s3 := LaunchedState(p);
    var s4 := Next(1, s3, Stop(1));
    var s5 := Next(1, s4, ExitBegin(0, 1, p));
    var s6 := Next(1, s5, ExitInspect(0));
    var s7 := Next(1, s6, ExitReport(0));
    var s8 := Next(1, s7, ExitRelease(0));
    var s9 := Next(1, s8, ExitRemove(0));
    t := Next(1, s9, Fill);
    LeadsNone(1, t);
    steps := LeadsMore(1, s9, Fill, [], t);
    steps := LeadsMore(1, s8, ExitRemove(0), steps, t);
    steps := LeadsMore(1, s7, ExitRelease(0), steps, t);
    steps := LeadsMore(1, s6, ExitReport(0), steps, t);
    steps := LeadsMore(1, s5, ExitInspect(0), steps, t);
    steps := LeadsMore(1, s4, ExitBegin(0, 1, p), steps, t);
    steps := LeadsMore(1, s3, Stop(1), steps, t);
    steps := LeadsFromStart(p, steps, t);
  }

  /** A die event and a tick that both find the slot report the same container twice. */
  lemma ReportedTwice(p: ProjectName) returns (steps: seq<Step>, t: State)
    ensures Leads(1, START, steps, t) && t.reported == [1, 1]
  {
    var s5 := StoppedState(p);
    var s6 := s5.(exits := map[0 := Resolved(1, p)]);
    var s7 := s5.(exits := map[0 := Resolved(1, p), 1 := Resolved(1, p)]);
    assert Next(1, s5, ExitBegin(0, 1, p)) == s6;
    assert Next(1, s6, ExitBegin(1, 1, p)) == s7;
    steps, t := BothReport(p, s7);
    steps := LeadsMore(1, s6, ExitBegin(1, 1, p), steps, t);
    steps := LeadsMore(1, s5, ExitBegin(0, 1, p), steps, t);
    steps := LeadsFromStopped(p, steps, t);
  }

  /** Two handlers with the same container in their hands. */
  lemma BothReport(p: ProjectName, s: State) returns (steps: seq<Step>, t: State)
    requires s.exits == map[0 := Resolved(1, p), 1 := Resolved(1, p)] && 1 in s.boxes && s.reported == []
    ensures Leads(1, s, steps, t) && t.reported == [1, 1]
  {
    var s1 := Next(1, s, ExitInspect(0));
    var s2 := Next(1, s1, ExitInspect(1));
    var s3 := Next(1, s2, ExitReport(0));
    t := Next(1, s3, ExitReport(1));
    LeadsNone(1, t);
    steps := LeadsMore(1, s3, ExitReport(1), [], t);
    steps := LeadsMore(1, s2, ExitReport(0), steps, t);
    steps := LeadsMore(1, s1, ExitInspect(1), steps, t);
    steps := LeadsMore(1, s, ExitInspect(0), steps, t);
  }

  /** The first container has been tracked and has stopped. */
  ghost function StoppedState(p: ProjectName): State {
    State(map[p := Slot(1, ByDispatch)], map[1 := Box(p, false)], 2, InPass(1), map[], Waiting, [])
  }

  lemma LeadsFromStopped(p: ProjectName, steps: seq<Step>, t: State) returns (all: seq<Step>)
    requires Leads(1, StoppedState(p), steps, t)
    ensures Leads(1, START, all, t)
  {
    var s3 := LaunchedState(p);
    var s4 := Next(1, s3, Fill);
    assert Next(1, s4, Stop(1)) == StoppedState(p);
    all := LeadsMore(1, s4, Stop(1), steps, t);
    all := LeadsMore(1, s3, Fill, all, t);
    all := LeadsFromStart(p, all, t);
  }

  /** One pass has just started the first container. */
  ghost function LaunchedState(p: ProjectName): State {
    State(map[p := Slot(RESERVED, ByDispatch)], map[1 := Box(p, true)], 2, Launched(0, p, 1), map[], Waiting, [])
  }

  lemma LeadsFromStart(p: ProjectName, steps: seq<Step>, t: State) returns (all: seq<Step>)
    requires Leads(1, LaunchedState(p), steps, t)
    ensures Leads(1, START, all, t)
  {
    var s1 := Next(1, START, BeginPass);
    var s2 := Next(1, s1, Reserve(p));
    all := LeadsMore(1, s2, Launch, steps, t);
    all := LeadsMore(1, s1, Reserve(p), all, t);
    all := LeadsMore(1, START, BeginPass, all, t);
  }

  lemma LeadsNone(parallelism: nat, t: State)
    ensures Leads(parallelism, t, [], t)
  {
  }

  lemma LeadsMore(parallelism: nat, s: State, step: Step, steps: seq<Step>, t: State) returns (more: seq<Step>)
    requires Enabled(parallelism, s, step) && Leads(parallelism, Next(parallelism, s, step), steps, t)
    ensures Leads(parallelism, s, more, t)
  {
    more := [step] + steps;
    assert more[1..] == steps;
  }
}
