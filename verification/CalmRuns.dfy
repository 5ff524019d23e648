/**
 When the steps between the locks keep every guarantee of whole steps: an exit is taken up only of a
 stopped container that holds its slot and that no other handler works on, and a container is re-adopted
 only into a slot it holds already.  The condition is exact: any other step has a continuation, itself of
 such steps, that breaks a guarantee.
 */
module CalmRuns {
  import opened Docker
  import opened ExecutorInterleaving
  import opened ResilienceSpec

  /** The step can be taken, and the daemon answers for the containers it has and speaks of no others. */
  ghost predicate Possible(parallelism: nat, s: State, step: Step) {
    && Enabled(parallelism, s, step)
    && (step.ExitGone? ==> s.exits[step.handler].id !in s.boxes)
    && (step.ExitBegin? ==> step.exited != RESERVED)
  }

  ghost predicate Calm(s: State, step: Step) {
    match step
    case ExitBegin(_, id, p) =>
      && Holds(s, p, id) && id in s.boxes && !s.boxes[id].live
      && forall h :: h in s.exits ==> s.exits[h].id != id
    case Adopt(id) => s.tick.Comparing? && id in s.tick.list && Holds(s, s.tick.list[id].project, id)
    case _ => true
  }

  ghost predicate CalmRun(parallelism: nat, s: State, steps: seq<Step>, t: State)
    decreases |steps|
  {
    if steps == [] then s == t
    else
      && Possible(parallelism, s, steps[0]) && Calm(s, steps[0])
      && CalmRun(parallelism, Next(parallelism, s, steps[0]), steps[1..], t)
  }

  predicate JustLaunched(pc: DispatchPc, id: ContainerID) {
    pc.Launched? && pc.id == id
  }

  ghost predicate Holds(s: State, p: ProjectName, id: ContainerID) {
    p in s.running && s.running[p].id == id
  }

  ghost predicate BeingRemoved(s: State, id: ContainerID) {
    exists h :: h in s.exits && s.exits[h] == Removing(id)
  }

  /** A slot is the one in the dispatch loop's hands, or holds a container of its own project. */
  ghost predicate SlotOk(s: State, p: ProjectName) {
    p in s.running ==>
      if s.running[p].id == RESERVED then InFlight(s.pc) && s.pc.project == p
      else s.running[p].id in s.boxes && s.boxes[s.running[p].id].project == p && !JustLaunched(s.pc, s.running[p].id)
  }

  /** A container holds its project's slot, or is about to, or is stopped and about to be removed. */
  ghost predicate BoxOk(s: State, id: ContainerID) {
    id in s.boxes ==>
      && RESERVED < id < s.nextId
      && (JustLaunched(s.pc, id) || Holds(s, s.boxes[id].project, id) || BeingRemoved(s, id))
  }

  predicate Unreported(e: ExitPc) {
    e.Resolved? || e.Inspected?
  }

  ghost predicate HandlerOk(s: State, h: nat) {
    h in s.exits ==>
      var e := s.exits[h];
      && e.id in s.boxes && !s.boxes[e.id].live && !JustLaunched(s.pc, e.id) && e.id != RESERVED
      && (if e.Removing? then !Holds(s, s.boxes[e.id].project, e.id)
          else Holds(s, e.project, e.id) && s.boxes[e.id].project == e.project)
      && (Unreported(e) <==> e.id !in s.reported)
  }

  ghost predicate OneHandlerEach(s: State) {
    forall g, h :: g in s.exits && h in s.exits && s.exits[g].id == s.exits[h].id ==> g == h
  }

  /** What has been reported is gone, or in the hands of the handler that reported it. */
  ghost predicate ReportOk(s: State, id: ContainerID) {
    id in s.reported ==> id < s.nextId && (id in s.boxes ==> exists h :: h in s.exits && s.exits[h].id == id)
  }

  ghost predicate NoRepeats(ids: seq<ContainerID>) {
    forall i, j :: 0 <= i < j < |ids| ==> ids[i] != ids[j]
  }

  ghost predicate PcOk(s: State) {
    && s.nextId > RESERVED
    && (InFlight(s.pc) ==> s.pc.project in s.running && s.running[s.pc.project].id == RESERVED)
    && (s.pc.Launched? ==> s.pc.id in s.boxes && s.boxes[s.pc.id].project == s.pc.project && s.pc.id !in s.reported)
  }

  /** What a tick has listed are containers, of the projects they still have. */
  ghost predicate ListOk(s: State) {
    !s.tick.Waiting? ==>
      forall id :: id in s.tick.list ==>
        RESERVED < id < s.nextId && (id in s.boxes ==> s.boxes[id].project == s.tick.list[id].project)
  }

  ghost predicate InOrder(s: State) {
    && ListOk(s) && PcOk(s) && OneHandlerEach(s) && NoRepeats(s.reported)
    && (forall p :: SlotOk(s, p)) && (forall id :: BoxOk(s, id))
    && (forall h :: HandlerOk(s, h)) && (forall id :: ReportOk(s, id))
  }

  ghost predicate CalmStep(parallelism: nat, s: State, step: Step) {
    InOrder(s) && Possible(parallelism, s, step) && Calm(s, step)
  }

  /** The container a handler works on is always still there. */
  lemma NeverGone(parallelism: nat, s: State, step: Step)
    requires CalmStep(parallelism, s, step)
    ensures !step.ExitGone?
    ensures step.ExitInspect? || step.ExitReport? || step.ExitRelease? || step.ExitRemove? ==>
              HandlerOk(s, step.handler)
  {
    if step.ExitGone? || step.ExitInspect? || step.ExitReport? || step.ExitRelease? || step.ExitRemove? {
      assert HandlerOk(s, step.handler);
    }
  }

  lemma SlotKept(parallelism: nat, s: State, step: Step, p: ProjectName)
    requires CalmStep(parallelism, s, step)
    ensures SlotOk(Next(parallelism, s, step), p)
  {
    NeverGone(parallelism, s, step);
    assert SlotOk(s, p) && BoxOk(s, s.nextId);
    if s.pc.Launched? {
      assert BoxOk(s, s.pc.id);
    }
  }

  lemma BoxKept(parallelism: nat, s: State, step: Step, id: ContainerID)
    requires CalmStep(parallelism, s, step)
    ensures BoxOk(Next(parallelism, s, step), id)
  {
    NeverGone(parallelism, s, step);
    var t := Next(parallelism, s, step);
    assert BoxOk(s, id);
    if h :| h in s.exits && s.exits[h] == Removing(id) && id in t.boxes {
      assert t.exits[h] == Removing(id);
    } else if step.ExitRelease? && id == s.exits[step.handler].id {
      assert t.exits[step.handler] == Removing(id);
    }
  }

  lemma HandlerKept(parallelism: nat, s: State, step: Step, h: nat)
    requires CalmStep(parallelism, s, step)
    ensures HandlerOk(Next(parallelism, s, step), h)
  {
    NeverGone(parallelism, s, step);
    assert HandlerOk(s, h);
    if step.ExitBegin? {
      assert SlotOk(s, step.owner) && ReportOk(s, step.exited);
    } else if step.Launch? {
      assert BoxOk(s, s.nextId);
    }
  }

  lemma ReportKept(parallelism: nat, s: State, step: Step, id: ContainerID)
    requires CalmStep(parallelism, s, step)
    ensures ReportOk(Next(parallelism, s, step), id)
  {
    NeverGone(parallelism, s, step);
    var t := Next(parallelism, s, step);
    assert ReportOk(s, id) && BoxOk(s, id);
    if step.ExitReport? && id == s.exits[step.handler].id {
      assert t.exits[step.handler].id == id;
    } else if id in t.boxes && id in s.reported {
      var h :| h in s.exits && s.exits[h].id == id;
      assert t.exits[h].id == id;
    }
  }

  lemma PcKept(parallelism: nat, s: State, step: Step)
    requires CalmStep(parallelism, s, step)
    ensures PcOk(Next(parallelism, s, step))
  {
    NeverGone(parallelism, s, step);
    assert ReportOk(s, s.nextId);
  }

  lemma ListKept(parallelism: nat, s: State, step: Step)
    requires CalmStep(parallelism, s, step)
    ensures ListOk(Next(parallelism, s, step))
  {
    if step.ListBoxes? {
      forall id | id in s.boxes
        ensures RESERVED < id < s.nextId
      {
        assert BoxOk(s, id);
      }
    }
  }

  lemma ReportsStayDistinct(parallelism: nat, s: State, step: Step)
    requires CalmStep(parallelism, s, step)
    ensures NoRepeats(Next(parallelism, s, step).reported)
  {
    NeverGone(parallelism, s, step);
  }

  lemma HandlersStayDistinct(parallelism: nat, s: State, step: Step)
    requires CalmStep(parallelism, s, step)
    ensures OneHandlerEach(Next(parallelism, s, step))
  {
    var t := Next(parallelism, s, step);
    forall g, h | g in t.exits && h in t.exits && t.exits[g].id == t.exits[h].id
      ensures g == h
    {
      if g in s.exits && h in s.exits {
        assert s.exits[g].id == s.exits[h].id;
      }
    }
  }

  lemma StepKeepsOrder(parallelism: nat, s: State, step: Step)
    requires CalmStep(parallelism, s, step)
    ensures InOrder(Next(parallelism, s, step))
  {
    PcKept(parallelism, s, step);
    ListKept(parallelism, s, step);
    ReportsStayDistinct(parallelism, s, step);
    HandlersStayDistinct(parallelism, s, step);
    forall p { SlotKept(parallelism, s, step, p); }
    forall id { BoxKept(parallelism, s, step, id); }
    forall h { HandlerKept(parallelism, s, step, h); }
    forall id { ReportKept(parallelism, s, step, id); }
  }

  /**
   A live container holds its own project's slot or is just about to, a project has at most one live
   container, no slot is dead, and no container is reported twice.
   */
  ghost predicate Guaranteed(s: State) {
    && (forall id :: id in s.boxes && s.boxes[id].live ==> JustLaunched(s.pc, id) || Holds(s, s.boxes[id].project, id))
    && (forall i, j :: i in s.boxes && j in s.boxes && BothLive(s.boxes[i], s.boxes[j]) ==> i == j)
    && (forall p :: !DeadSlot(s, p))
    && NoRepeats(s.reported)
  }

  predicate BothLive(a: Box, b: Box) {
    a.live && b.live && a.project == b.project
  }

  lemma OrderGuarantees(s: State)
    requires InOrder(s)
    ensures Guaranteed(s)
  {
    forall id | id in s.boxes && s.boxes[id].live
      ensures JustLaunched(s.pc, id) || (Holds(s, s.boxes[id].project, id) && id != RESERVED)
    {
      assert BoxOk(s, id);
      assert !BeingRemoved(s, id) by {
        forall h | h in s.exits
          ensures s.exits[h] != Removing(id)
        {
          assert HandlerOk(s, h);
        }
      }
    }
    forall p
      ensures !DeadSlot(s, p)
    {
      assert SlotOk(s, p);
    }
  }

  /** Every state a calm run reaches keeps the guarantees of whole steps. */
  lemma {:induction false} CalmRunsAreSafe(parallelism: nat, s: State, steps: seq<Step>, t: State)
    requires InOrder(s) && CalmRun(parallelism, s, steps, t)
    ensures InOrder(t) && Guaranteed(t)
    decreases |steps|
  {
    if steps == [] {
      OrderGuarantees(t);
    } else {
      StepKeepsOrder(parallelism, s, steps[0]);
      CalmRunsAreSafe(parallelism, Next(parallelism, s, steps[0]), steps[1..], t);
    }
  }

  lemma CalmRunsFromStart(parallelism: nat, steps: seq<Step>, t: State)
    requires CalmRun(parallelism, START, steps, t)
    ensures Guaranteed(t)
  {
    assert InOrder(START);
    CalmRunsAreSafe(parallelism, START, steps, t);
  }

  // ---------- No other step will do ----------

  /** However a run goes on from here by calm steps, every guarantee is kept. */
  ghost predicate Safe(parallelism: nat, s: State) {
    forall steps, t :: CalmRun(parallelism, s, steps, t) ==> Guaranteed(t)
  }

  lemma BrokenNow(parallelism: nat, s: State)
    requires !Guaranteed(s)
    ensures !Safe(parallelism, s)
  {
    assert CalmRun(parallelism, s, [], s);
  }

  lemma BrokenLater(parallelism: nat, s: State, step: Step)
    requires Possible(parallelism, s, step) && Calm(s, step) && !Safe(parallelism, Next(parallelism, s, step))
    ensures !Safe(parallelism, s)
  {
    var steps, t :| CalmRun(parallelism, Next(parallelism, s, step), steps, t) && !Guaranteed(t);
    assert ([step] + steps)[1..] == steps;
    assert CalmRun(parallelism, s, [step] + steps, t);
  }

  /** A handler that has reported a container just launched removes it before its slot is filled. */
  lemma GoneBeforeFill(parallelism: nat, s: State, h: nat)
    requires h in s.exits && s.exits[h].Reporting?
    requires JustLaunched(s.pc, s.exits[h].id) && s.exits[h].id != RESERVED
    ensures !Safe(parallelism, s)
  {
    var s1 := Next(parallelism, s, ExitRelease(h));
    var s2 := Next(parallelism, s1, ExitRemove(h));
    var s3 := Next(parallelism, s2, Fill);
    assert DeadSlot(s3, s.pc.project);
    BrokenNow(parallelism, s3);
    BrokenLater(parallelism, s2, Fill);
    BrokenLater(parallelism, s1, ExitRemove(h));
    BrokenLater(parallelism, s, ExitRelease(h));
  }

  lemma RemovedBeforeFill(parallelism: nat, s: State, h: nat)
    requires h in s.exits && s.exits[h].Resolved? && s.exits[h].id in s.boxes
    requires JustLaunched(s.pc, s.exits[h].id) && s.exits[h].id != RESERVED
    ensures !Safe(parallelism, s)
  {
    var s1 := Next(parallelism, s, ExitInspect(h));
    GoneBeforeFill(parallelism, Next(parallelism, s1, ExitReport(h)), h);
    BrokenLater(parallelism, s1, ExitReport(h));
    BrokenLater(parallelism, s, ExitInspect(h));
  }

  /** A container that has been reported has been inspected by a second handler. */
  lemma ReportedAgain(parallelism: nat, s: State, h: nat)
    requires h in s.exits && s.exits[h].Inspected? && s.exits[h].id in s.reported
    ensures !Safe(parallelism, s)
  {
    var t := Next(parallelism, s, ExitReport(h));
    var i :| 0 <= i < |s.reported| && s.reported[i] == s.exits[h].id;
    assert t.reported[i] == t.reported[|s.reported|];
    BrokenNow(parallelism, t);
    BrokenLater(parallelism, s, ExitReport(h));
  }

  lemma BothInspected(parallelism: nat, s: State, g: nat, h: nat)
    requires g != h && g in s.exits && h in s.exits && s.exits[g].Inspected? && s.exits[h].Inspected?
    requires s.exits[g].id == s.exits[h].id
    ensures !Safe(parallelism, s)
  {
    ReportedAgain(parallelism, Next(parallelism, s, ExitReport(g)), h);
    BrokenLater(parallelism, s, ExitReport(g));
  }

  /** A handler about to inspect a container in the hands of another leads on to a second report. */
  lemma SecondHandler(parallelism: nat, s: State, g: nat, h: nat)
    requires g != h && g in s.exits && h in s.exits && s.exits[h].Resolved? && s.exits[g].id == s.exits[h].id
    requires s.exits[h].id in s.boxes && (!Unreported(s.exits[g]) ==> s.exits[g].id in s.reported)
    ensures !Safe(parallelism, s)
  {
    var t := Next(parallelism, s, ExitInspect(h));
    if s.exits[g].Resolved? {
      BothInspected(parallelism, Next(parallelism, t, ExitInspect(g)), g, h);
      BrokenLater(parallelism, t, ExitInspect(g));
    } else if s.exits[g].Inspected? {
      BothInspected(parallelism, t, g, h);
    } else {
      ReportedAgain(parallelism, t, h);
    }
    BrokenLater(parallelism, s, ExitInspect(h));
  }

  /** A live container loses its slot. */
  lemma LiveReleased(parallelism: nat, s: State, h: nat)
    requires h in s.exits && s.exits[h].Resolved? && s.exits[h].id in s.boxes
    requires s.boxes[s.exits[h].id] == Box(s.exits[h].project, true) && !JustLaunched(s.pc, s.exits[h].id)
    ensures !Safe(parallelism, s)
  {
    var s1 := Next(parallelism, s, ExitInspect(h));
    var s2 := Next(parallelism, s1, ExitReport(h));
    var s3 := Next(parallelism, s2, ExitRelease(h));
    assert s3.boxes[s.exits[h].id].live && !Holds(s3, s.exits[h].project, s.exits[h].id);
    BrokenNow(parallelism, s3);
    BrokenLater(parallelism, s2, ExitRelease(h));
    BrokenLater(parallelism, s1, ExitReport(h));
    BrokenLater(parallelism, s, ExitInspect(h));
  }

  lemma RashExit(parallelism: nat, s: State, step: Step)
    requires InOrder(s) && Possible(parallelism, s, step) && step.ExitBegin? && !Calm(s, step)
    ensures !Safe(parallelism, Next(parallelism, s, step))
  {
    var h, id, p := step.handler, step.exited, step.owner;
    var t := Next(parallelism, s, step);
    assert SlotOk(s, p) && BoxOk(s, id);
    if g :| g in s.exits && s.exits[g].id == id {
      assert HandlerOk(s, g);
      SecondHandler(parallelism, t, g, h);
    } else if JustLaunched(s.pc, id) {
      RemovedBeforeFill(parallelism, t, h);
    } else {
      LiveReleased(parallelism, t, h);
    }
  }

  lemma FreeHandler(used: set<nat>) returns (h: nat)
    ensures forall g :: g in used ==> g < h
  {
    if used == {} {
      h := 0;
    } else {
      var g :| g in used;
      h := FreeHandler(used - {g});
      h := if h <= g then g + 1 else h;
      assert used == (used - {g}) + {g};
    }
  }

  lemma RashAdoption(parallelism: nat, s: State, id: ContainerID)
    requires InOrder(s) && Possible(parallelism, s, Adopt(id)) && !Calm(s, Adopt(id))
    ensures !Safe(parallelism, Next(parallelism, s, Adopt(id)))
  {
    var p := s.tick.list[id].project;
    var t := Next(parallelism, s, Adopt(id));
    assert BoxOk(s, id);
    if id !in s.boxes {
      assert DeadSlot(t, p);
      BrokenNow(parallelism, t);
    } else if h :| h in s.exits && s.exits[h] == Removing(id) {
      assert DeadSlot(Next(parallelism, t, ExitRemove(h)), p);
      BrokenNow(parallelism, Next(parallelism, t, ExitRemove(h)));
      BrokenLater(parallelism, t, ExitRemove(h));
    } else {
      AdoptedBeforeFill(parallelism, s, t, id);
    }
  }

  /** A container adopted before its slot is filled can be gone when it is. */
  lemma AdoptedBeforeFill(parallelism: nat, s: State, t: State, id: ContainerID)
    requires InOrder(s) && JustLaunched(s.pc, id)
    requires t == s.(running := s.running[s.pc.project := Slot(id, ByAdoption)])
    ensures !Safe(parallelism, t)
  {
    assert BoxOk(s, id);
    forall h | h in s.exits
      ensures s.exits[h].id != id
    {
      assert HandlerOk(s, h);
    }
    var h := FreeHandler(s.exits.Keys);
    var t1 := Next(parallelism, t, Stop(id));
    RemovedBeforeFill(parallelism, Next(parallelism, t1, ExitBegin(h, id, s.pc.project)), h);
    BrokenLater(parallelism, t1, ExitBegin(h, id, s.pc.project));
    BrokenLater(parallelism, t, Stop(id));
  }

  lemma OrderIsSafe(parallelism: nat, s: State)
    requires InOrder(s)
    ensures Safe(parallelism, s)
  {
    forall steps, t | CalmRun(parallelism, s, steps, t)
      ensures Guaranteed(t)
    {
      CalmRunsAreSafe(parallelism, s, steps, t);
    }
  }

  /** From a state in order, a step is safe to take if and only if it is calm. */
  lemma SafeExactlyIfCalm(parallelism: nat, s: State, step: Step)
    requires InOrder(s) && Possible(parallelism, s, step)
    ensures Safe(parallelism, Next(parallelism, s, step)) <==> Calm(s, step)
  {
    if Calm(s, step) {
      StepKeepsOrder(parallelism, s, step);
      OrderIsSafe(parallelism, Next(parallelism, s, step));
    } else if step.ExitBegin? {
      RashExit(parallelism, s, step);
    } else {
      RashAdoption(parallelism, s, step.orphan);
    }
  }

  ghost predicate PossibleRun(parallelism: nat, s: State, steps: seq<Step>)
    decreases |steps|
  {
    steps == [] ||
    (Possible(parallelism, s, steps[0]) && PossibleRun(parallelism, Next(parallelism, s, steps[0]), steps[1..]))
  }

  ghost predicate AllCalm(parallelism: nat, s: State, steps: seq<Step>)
    requires PossibleRun(parallelism, s, steps)
    decreases |steps|
  {
    steps == [] || (Calm(s, steps[0]) && AllCalm(parallelism, Next(parallelism, s, steps[0]), steps[1..]))
  }

  ghost predicate AllSafe(parallelism: nat, s: State, steps: seq<Step>)
    requires PossibleRun(parallelism, s, steps)
    decreases |steps|
  {
    Safe(parallelism, s) && (steps == [] || AllSafe(parallelism, Next(parallelism, s, steps[0]), steps[1..]))
  }

  /** A run passes through safe states only if and only if all its steps are calm. */
  lemma {:induction false} RunsSafeExactlyIfCalm(parallelism: nat, s: State, steps: seq<Step>)
    requires InOrder(s) && PossibleRun(parallelism, s, steps)
    ensures AllSafe(parallelism, s, steps) <==> AllCalm(parallelism, s, steps)
    decreases |steps|
  {
    OrderIsSafe(parallelism, s);
    if steps != [] {
      var t := Next(parallelism, s, steps[0]);
      SafeExactlyIfCalm(parallelism, s, steps[0]);
      if Calm(s, steps[0]) {
        StepKeepsOrder(parallelism, s, steps[0]);
        RunsSafeExactlyIfCalm(parallelism, t, steps[1..]);
      } else {
        UnsafeStart(parallelism, t, steps[1..]);
      }
    }
  }

  lemma UnsafeStart(parallelism: nat, s: State, steps: seq<Step>)
    requires PossibleRun(parallelism, s, steps) && !Safe(parallelism, s)
    ensures !AllSafe(parallelism, s, steps)
  {
  }

  lemma RunsFromStartSafeExactlyIfCalm(parallelism: nat, steps: seq<Step>)
    requires PossibleRun(parallelism, START, steps)
    ensures AllSafe(parallelism, START, steps) <==> AllCalm(parallelism, START, steps)
  {
    assert InOrder(START);
    RunsSafeExactlyIfCalm(parallelism, START, steps);
  }
}
