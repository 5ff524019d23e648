/**
 The container executor with dispatch, exit handling and reconciliation each taken as one step, on a
 daemon whose inspections and removals succeed.  What happens between the locks is the subject of
 ExecutorInterleaving.
 */
module Executor {
  import opened DispatchOrder
  import opened Docker
  import opened Resilience
  import opened ResilienceSpec
  import opened Sequences
  import opened StateStore
  import opened Wrappers

  ghost predicate HoldsSlot(running: Slots, id: ContainerID, c: Container) {
    c.executor ==>
      && c.project.Some? && c.project.value in running && running[c.project.value] == id
      && !c.state.NotStarted?
  }

  ghost predicate SlotFilled(running: Slots, cs: Containers, p: ProjectName) {
    p in running ==> running[p] in cs && cs[running[p]].executor && cs[running[p]].project == Some(p)
  }

  /**
   Every executor container has been started and holds the slot of its own project, and every slot holds
   such a container.
   Only executor containers carry a project label.
   */
  ghost predicate Tracked(running: Slots, cs: Containers) {
    && (forall id :: id in cs ==> HoldsSlot(running, id, cs[id]) && (!cs[id].executor ==> cs[id].project.None?))
    && (forall p :: SlotFilled(running, cs, p))
  }

  /** So a project never has two executor containers. */
  lemma OneContainerEach(running: Slots, cs: Containers, i: ContainerID, j: ContainerID)
    requires Tracked(running, cs) && i in cs && j in cs
    requires cs[i].executor && cs[j].executor && cs[i].project == cs[j].project
    ensures i == j
  {
    assert HoldsSlot(running, i, cs[i]) && HoldsSlot(running, j, cs[j]);
  }

  /** An exit as it was reported: the container and the running map at that moment, and what the breaker was told. */
  datatype Exit = Exit(id: ContainerID, project: ProjectName, container: Container, running: Slots, event: Event)

  /** The container was reported under its own project, while it held the project's slot. */
  ghost predicate WhileHeld(e: Exit, minRuntime: Time) {
    && e.container.executor && e.container.project == Some(e.project)
    && e.project in e.running && e.running[e.project] == e.id
    && e.event.Reported? && e.event == ExitReport(e.container, e.project, e.event.now, e.event.draw, minRuntime)
  }

  /** Containers already reported: each once, while it held its slot, and all of them gone. */
  ghost predicate ReportedOnce(reported: seq<Exit>, cs: Containers, nextId: ContainerID, minRuntime: Time) {
    && (forall i, j :: 0 <= i < j < |reported| ==> reported[i].id != reported[j].id)
    && (forall i :: 0 <= i < |reported| ==>
          reported[i].id !in cs && reported[i].id < nextId && WhileHeld(reported[i], minRuntime))
  }

  ghost predicate IsReported(reported: seq<Exit>, id: ContainerID) {
    exists i :: 0 <= i < |reported| && reported[i].id == id
  }

  /** The exits reported since are what the breaker has been told since, one for one and in order. */
  ghost predicate Told(reported0: seq<Exit>, history0: History, reported: seq<Exit>, history: History) {
    && |reported0| <= |reported| && reported[..|reported0|] == reported0
    && |history0| <= |history| && history[..|history0|] == history0
    && history[|history0|..] == EventsOf(reported[|reported0|..])
  }

  ghost function EventsOf(exits: seq<Exit>): History {
    if exits == [] then [] else EventsOf(exits[..|exits| - 1]) + [exits[|exits| - 1].event]
  }

  lemma ToldNothing(reported: seq<Exit>, history: History)
    ensures Told(reported, history, reported, history)
  {
  }

  lemma ToldMore(reported0: seq<Exit>, history0: History, reported: seq<Exit>, history: History, e: Exit)
    requires Told(reported0, history0, reported, history)
    ensures Told(reported0, history0, reported + [e], history + [e.event])
  {
    var told := reported[|reported0|..];
    assert (reported + [e])[|reported0|..] == told + [e] && (told + [e])[..|told|] == told;
    assert (history + [e.event])[|history0|..] == history[|history0|..] + [e.event];
  }

  lemma {:induction false} EventsAppend(a: seq<Exit>, b: seq<Exit>)
    ensures EventsOf(a + b) == EventsOf(a) + EventsOf(b)
    decreases |b|
  {
    if b == [] {
      Empty(a);
      Empty(EventsOf(a));
    } else {
      EventsAppend(a, b[..|b| - 1]);
      Snoc(a, b);
      Assoc(EventsOf(a), EventsOf(b[..|b| - 1]), [b[|b| - 1].event]);
    }
  }

  lemma ToldOn(r0: seq<Exit>, h0: History, r1: seq<Exit>, h1: History, r2: seq<Exit>, h2: History)
    requires Told(r0, h0, r1, h1) && Told(r1, h1, r2, h2)
    ensures Told(r0, h0, r2, h2)
  {
    assert r2[|r0|..] == r1[|r0|..] + r2[|r1|..];
    assert h2[|h0|..] == h1[|h0|..] + h2[|h1|..];
    EventsAppend(r1[|r0|..], r2[|r1|..]);
  }

  function ClassifyOutcome(exitCode: int, runtime: Time, minRuntime: Time): Outcome {
    if exitCode == 0 then Success else if runtime < minRuntime then RapidFail else SlowFail
  }

  /** A live container that no slot held when the map was read, with a readable start time. */
  predicate IsLiveOrphan(c: Container, id: ContainerID, tracked: map<ContainerID, ProjectName>) {
    c.state.Live? && id !in tracked && c.startedAt.Some?
  }

  class DockerExecutor {
    const docker: Daemon
    const store: SQLiteStore
    const reporter: Manager
    const parallelism: nat
    const jobTimeout: Time
    const failureMinRuntime: Time
    var running: Slots
    var sources: map<ProjectName, Source>

    /** The exits reported to the breaker, in order. */
    ghost var reported: seq<Exit>

    ghost predicate Valid()
      reads this, docker
    {
      && docker.Valid()
      && Tracked(running, docker.containers)
      && ReportedOnce(reported, docker.containers, docker.nextId, failureMinRuntime)
      && |running| <= parallelism
    }

    constructor (docker: Daemon, store: SQLiteStore, reporter: Manager, parallelism: int,
                 jobTimeout: Time, failureMinRuntime: Time)
      requires docker.Valid()
      requires forall id :: id in docker.containers ==>
                 !docker.containers[id].executor && docker.containers[id].project.None?
      ensures Valid() && running == map[] && reported == []
      ensures this.docker == docker && this.store == store && this.reporter == reporter
      ensures this.parallelism == if parallelism <= 0 then 2 else parallelism
      ensures this.jobTimeout == if jobTimeout <= 0 then 1_800_000_000_000 else jobTimeout
      ensures this.failureMinRuntime == if failureMinRuntime <= 0 then 30_000_000_000 else failureMinRuntime
    {
      this.docker, this.store, this.reporter := docker, store, reporter;
      this.parallelism := if parallelism <= 0 then 2 else parallelism;
      this.jobTimeout := if jobTimeout <= 0 then 1800 * SECOND else jobTimeout;
      this.failureMinRuntime := if failureMinRuntime <= 0 then 30 * SECOND else failureMinRuntime;
      running, sources, reported := map[], map[], [];
    }

    // ---------- Dispatch ----------

    /** Creates and starts a container; a container that does not start is removed again. */
    method DispatchProject(job: JobName, project: ProjectName, outcome: StartOutcome, now: Time, dbFails: bool)
      returns (ok: bool)
      requires docker.Valid()
      modifies `running, `sources, docker, store
      ensures docker.Valid() && docker.nextId >= old(docker.nextId)
      ensures ok <==> outcome.Started?
      ensures !ok ==> docker.containers == old(docker.containers) && running == old(running)
      ensures ok ==> var id := old(docker.nextId);
                     && running == old(running)[project := id] && docker.nextId == id + 1
                     && docker.containers == old(docker.containers)[id := NewContainer(job, project, now)]
      ensures store.rows == if ok && !dbFails then MarkedRunning(old(store.rows), job, project, now)
                            else old(store.rows)
    {
      if outcome.PullFails? || outcome.CreateFails? {
        return false;
      }
      var id := docker.Create(Container(true, Some(project), Some(job), Some(now), NotStarted, 0));
      if outcome.StartFails? {
        docker.Remove(id);
        return false;
      }
      docker.Start(id);
      running := running[project := id];
      if project !in sources {
        sources := sources[project := Cron];
      }
      var _ := store.UpdateProjectStatus(job, project, StateStore.Running, NO_DETAILS, now, dbFails);
      return true;
    }

    /** One project of the dispatch loop: skip it, or reserve its slot and fill or release it. */
    method TryProject(job: JobName, project: ProjectName, outcome: StartOutcome, now: Time, dbFails: bool)
      returns (ok: bool)
      requires Valid() && |running| < parallelism
      modifies `running, `sources, docker, store
      ensures Valid()
      ensures ok <==> project !in old(running) && outcome.Started?
      ensures if ok then running == old(running)[project := old(docker.nextId)] && |running| == |old(running)| + 1
              else running == old(running)
      ensures old(docker.nextId) !in old(docker.containers)
      ensures if ok then docker.containers ==
                  old(docker.containers)[old(docker.nextId) := NewContainer(job, project, now)]
              else docker.containers == old(docker.containers)
    {
      if project in running {
        return false;
      }
      ghost var running0, cs0 := running, docker.containers;
      running := running[project := RESERVED];
      sources := sources[project := Cron];
      ok := DispatchProject(job, project, outcome, now, dbFails);
      if !ok {
        running, sources := running - {project}, sources - {project};
        assert running == running0;
      } else {
        assert running == running0[project := old(docker.nextId)];
        PlacedIsTracked(running0, cs0, project, old(docker.nextId), NewContainer(job, project, now));
      }
    }

    /** The dispatch pass: fills free slots until the parallelism limit. */
    method DoDispatch(batches: seq<Batch>, starts: Starts, now: Time, dbFails: bool)
      requires Valid()
      modifies `running, `sources, docker, store
      ensures Valid()
      // Slots are only added, each with a container of its own and to a project whose turn it was.
      ensures Added(old(running), old(docker.containers), running, docker.containers, starts, batches)
      // No slot is left free while a scheduled project that would start is not running.
      ensures |running| < parallelism ==> forall i :: 0 <= i < |batches| ==> AllSettled(running, starts, batches[i])
    {
      var runningCount := |running|;
      for i := 0 to |batches|
        invariant Valid() && runningCount == |running|
        invariant Added(old(running), old(docker.containers), running, docker.containers, starts, batches)
        invariant |running| < parallelism ==> forall k :: 0 <= k < i ==> AllSettled(running, starts, batches[k])
      {
        if runningCount >= parallelism {
          break;
        }
        runningCount := DispatchBatch(batches, i, runningCount, starts, now, dbFails,
                                      old(running), old(docker.containers));
      }
    }

    method DispatchBatch(batches: seq<Batch>, i: nat, runningCount0: nat, starts: Starts, now: Time, dbFails: bool,
                         ghost running0: Slots, ghost cs0: Containers) returns (runningCount: nat)
      requires Valid() && runningCount0 == |running| && i < |batches|
      requires Added(running0, cs0, running, docker.containers, starts, batches)
      requires forall k :: 0 <= k < i ==> AllSettled(running, starts, batches[k])
      modifies `running, `sources, docker, store
      ensures Valid() && runningCount == |running|
      ensures Added(running0, cs0, running, docker.containers, starts, batches)
      ensures |running| < parallelism ==> AllSettled(running, starts, batches[i])
      ensures old(running).Keys <= running.Keys
    {
      runningCount := runningCount0;
      var job := batches[i].job;
      var scheduled := SortByPriority(batches[i].scheduled);
      for j := 0 to |scheduled|
        invariant Valid() && runningCount == |running|
        invariant Added(running0, cs0, running, docker.containers, starts, batches)
        invariant SettledUpTo(running, starts, job, scheduled, j)
        invariant old(running).Keys <= running.Keys
      {
        if runningCount >= parallelism {
          return;
        }
        NextInTurn(running, starts, batches, i, scheduled, j);
        ghost var running1 := running;
        var ok := TryNext(batches, i, scheduled[j], starts, now, dbFails, running0, cs0);
        SettledMore(running1, running, starts, job, scheduled, j);
        if ok {
          runningCount := runningCount + 1;
        }
      }
      WholeBatchSettled(running, starts, batches[i], scheduled);
    }

    method TryNext(batches: seq<Batch>, i: nat, next: Candidate, starts: Starts, now: Time, dbFails: bool,
                   ghost running0: Slots, ghost cs0: Containers) returns (ok: bool)
      requires Valid() && |running| < parallelism && InTurn(running, starts, batches, i, next)
      requires Added(running0, cs0, running, docker.containers, starts, batches)
      modifies `running, `sources, docker, store
      ensures Valid() && |running| == |old(running)| + if ok then 1 else 0
      ensures Added(running0, cs0, running, docker.containers, starts, batches)
      ensures old(running).Keys <= running.Keys && Settled(running, starts, batches[i].job, next.name)
    {
      ghost var running1, cs1, id := running, docker.containers, docker.nextId;
      var job := batches[i].job;
      ok := TryProject(job, next.name, starts(job, next.name), now, dbFails);
      if ok {
        AddedMore(running0, cs0, running1, cs1, starts, batches, i, next, id, NewContainer(job, next.name, now));
      }
    }

    // ---------- Exit handling ----------

    ghost function State(): World
      reads this, docker, store, reporter
    {
      World(running, docker.containers, store.rows, reported, reporter.history)
    }

    /** Some project whose slot holds the container, in whatever order the map is walked. */
    method FindProject(id: ContainerID) returns (project: Option<ProjectName>)
      ensures match project
              case Some(p) => p in running && running[p] == id
              case None => NoSlotHolds(running, id)
    {
      var todo := running.Keys;
      while todo != {}
        invariant todo <= running.Keys
        invariant forall p :: p in running && p !in todo ==> running[p] != id
        decreases todo
      {
        var p :| p in todo;
        if running[p] == id {
          return Some(p);
        }
        todo := todo - {p};
      }
      return None;
    }

    /** `details` is what parsing the logs gave; `handled` is the project whose slot was freed. */
    method HandleContainerExit(id: ContainerID, now: Time, draw: real, details: RunDetails, dbFails: bool)
      returns (handled: Option<ProjectName>)
      requires docker.Valid() && reporter.Valid() && NotBefore(reporter.history, now) && IsDraw(draw)
      modifies `running, `sources, `reported, docker, store, reporter
      ensures docker.Valid() && reporter.Valid() && docker.nextId == old(docker.nextId)
      ensures ExitEffect(old(State()), id, now, draw, failureMinRuntime, details, dbFails, handled, State())
      ensures NotBefore(reporter.history, now)
    {
      var found := FindProject(id);
      if found.None? {
        if id !in docker.containers {
          return None;
        }
        found := docker.containers[id].project;
        if found.None? {
          return None;
        }
      }
      var project := found.value;
      if id !in docker.containers {
        running := running - {project};
        return Some(project);
      }
      RecordExit(docker.containers[id], project, now, draw, details, dbFails);
      ghost var event := ExitReport(docker.containers[id], project, now, draw, failureMinRuntime);
      reported := reported + [Exit(id, project, docker.containers[id], running, event)];
      running, sources := running - {project}, sources - {project};
      docker.Remove(id);
      return Some(project);
    }

    /** The report to the breaker and the final status of the run. */
    method RecordExit(info: Container, project: ProjectName, now: Time, draw: real, details: RunDetails, dbFails: bool)
      requires reporter.Valid() && NotBefore(reporter.history, now) && IsDraw(draw)
      modifies store, reporter
      ensures reporter.Valid() && NotBefore(reporter.history, now)
      ensures reporter.history == old(reporter.history) + [ExitReport(info, project, now, draw, failureMinRuntime)]
      ensures store.rows == Finished(old(store.rows), info, project, details, now, dbFails)
    {
      var runtime := if info.startedAt.Some? then now - info.startedAt.value else 0;
      var outcome := ClassifyOutcome(info.exitCode, runtime, failureMinRuntime);
      reporter.Report(now, draw, project, outcome, info.exitCode);
      ClockStep(old(reporter.history), Reported(now, project, outcome, draw, info.exitCode));
      if info.job.Some? {
        var status := if info.exitCode != 0 then StateStore.Failed else StateStore.Completed;
        var _ := store.UpdateProjectStatus(info.job.value, project, status, details, now, dbFails);
      }
    }

    /** A die event, delivered late, twice or not at all: with the map in order it cannot do harm. */
    method OnDieEvent(id: ContainerID, now: Time, draw: real, details: RunDetails, dbFails: bool)
      requires Valid() && reporter.Valid() && NotBefore(reporter.history, now) && IsDraw(draw)
      modifies `running, `sources, `reported, docker, store, reporter
      ensures Valid() && reporter.Valid() && NotBefore(reporter.history, now)
      ensures if IsTracked(old(State()), id)
              then Reports(old(State()), id, now, draw, failureMinRuntime, details, dbFails, State())
              else State() == old(State())
    {
      ghost var w := State();
      var handled := HandleContainerExit(id, now, draw, details, dbFails);
      ExitKeepsOrder(w, docker.nextId, id, now, draw, failureMinRuntime, details, dbFails, handled, State());
    }

    // ---------- Reconciliation ----------

    /** The inverse of the running map, taken in one go. */
    method TrackedContainers() returns (tracked: map<ContainerID, ProjectName>)
      ensures forall id :: id in tracked ==> tracked[id] in running && running[tracked[id]] == id
      ensures forall p :: p in running ==> running[p] in tracked
    {
      tracked := map[];
      var todo := running.Keys;
      while todo != {}
        invariant todo <= running.Keys
        invariant forall id :: id in tracked ==> tracked[id] in running && running[tracked[id]] == id
        invariant forall p :: p in running && p !in todo ==> running[p] in tracked
        decreases todo
      {
        var p :| p in todo;
        tracked := tracked[running[p] := p];
        todo := todo - {p};
      }
    }

    /** One listed container, as it was when the list was taken. */
    method ReconcileOne(id: ContainerID, c: Container, tracked: map<ContainerID, ProjectName>, now: Time, draw: real,
                        details: RunDetails, dbFails: bool) returns (ghost handled: Option<ProjectName>)
      requires docker.Valid() && reporter.Valid() && NotBefore(reporter.history, now) && IsDraw(draw)
      modifies `running, `sources, `reported, docker, store, reporter
      ensures docker.Valid() && reporter.Valid() && NotBefore(reporter.history, now)
              && docker.nextId == old(docker.nextId)
      // A stopped container is processed as a missed exit, tracked or not.
      ensures c.Stopped() ==>
                ExitEffect(old(State()), id, now, draw, failureMinRuntime, details, dbFails, handled, State())
      ensures !c.Stopped() && !IsLiveOrphan(c, id, tracked) ==> State() == old(State())
      // A live one nobody tracks is killed when overdue and adopted otherwise, whatever the limit on slots.
      ensures IsLiveOrphan(c, id, tracked) ==>
                && reported == old(reported) && reporter.history == old(reporter.history)
                && if now - c.startedAt.value > jobTimeout then
                     && running == old(running) && store.rows == old(store.rows)
                     && (id in docker.containers ==> docker.containers[id].Stopped())
                   else
                     && docker.containers == old(docker.containers)
                     && running == (if c.project.Some? then old(running)[c.project.value := id] else old(running))
                     && store.rows == if c.project.Some? && c.job.Some? && !dbFails
                                      then MarkedRunning(old(store.rows), c.job.value, c.project.value, now)
                                      else old(store.rows)
    {
      handled := None;
      if id in tracked {
        if c.Stopped() {
          handled := HandleContainerExit(id, now, draw, details, dbFails);
        }
        return;
      }
      if c.state.Live? {
        if c.startedAt.Some? {
          if now - c.startedAt.value > jobTimeout {
            docker.Stop(id, Exited, 137);
          } else {
            if c.project.Some? {
              running := running[c.project.value := id];
              if c.job.Some? {
                var _ := store.UpdateProjectStatus(c.job.value, c.project.value,
                                                   StateStore.Running, NO_DETAILS, now, dbFails);
              }
            }
            return;
          }
        }
      }
      if c.Stopped() {
        handled := HandleContainerExit(id, now, draw, details, dbFails);
      }
    }

    /** The same with the map in order: only a stopped container changes anything, and it is reported. */
    method ReconcileTracked(id: ContainerID, tracked: map<ContainerID, ProjectName>, now: Time, draw: real,
                            details: RunDetails, dbFails: bool)
      requires Valid() && reporter.Valid() && NotBefore(reporter.history, now) && IsDraw(draw)
      requires IsTracked(State(), id) && id in tracked
      modifies `running, `sources, `reported, docker, store, reporter
      ensures Valid() && reporter.Valid() && NotBefore(reporter.history, now)
      ensures if old(docker.containers)[id].Stopped()
              then Reports(old(State()), id, now, draw, failureMinRuntime, details, dbFails, State())
              else State() == old(State())
    {
      ghost var w := State();
      ghost var handled := ReconcileOne(id, docker.containers[id], tracked, now, draw, details, dbFails);
      if w.containers[id].Stopped() {
        ExitKeepsOrder(w, docker.nextId, id, now, draw, failureMinRuntime, details, dbFails, handled, State());
      }
    }

    /** The reconcile tick.  Afterwards every slot points at a live container. */
    method ReconcileOrphans(listFails: bool, clock: nat -> Time, ghost latest: Time,
                            draws: nat -> real, details: ContainerID -> RunDetails, dbFails: bool)
      returns (ok: bool)
      requires Valid() && reporter.Valid() && NotBefore(reporter.history, clock(0))
      requires (forall i, j | i <= j :: clock(i) <= clock(j) <= latest) && forall i :: IsDraw(draws(i))
      modifies `running, `sources, `reported, docker, store, reporter
      ensures Valid() && reporter.Valid() && ok == !listFails
      ensures !ok ==> State() == old(State())
      ensures ok ==> AllLive(running, docker.containers)
      ensures ok ==> Swept(old(State()), State())
      ensures NotBefore(reporter.history, latest)
    {
      if listFails {
        assert clock(0) <= latest;
        return false;
      }
      ghost var w := State();
      var ids := docker.ListExecutors();
      var tracked := TrackedContainers();
      AllListed(w, ids, tracked);
      for i := 0 to |ids|
        invariant Valid() && reporter.Valid() && NotBefore(reporter.history, clock(i))
        invariant SweptUpTo(w, State(), ids, i)
      {
        assert clock(i) <= clock(i + 1);
        ghost var before := State();
        NextListed(w, before, ids, tracked, i);
        ReconcileTracked(ids[i], tracked, clock(i), draws(i), details(ids[i]), dbFails);
        SweepStep(w, before, State(), ids, i, clock(i), draws(i), failureMinRuntime, details(ids[i]), dbFails);
      }
      SweptAll(w, State(), ids);
      assert clock(|ids|) <= latest;
      return true;
    }

    /** A container ends by itself; the executor may or may not hear of it. */
    method OnContainerStops(id: ContainerID, state: RunState, exitCode: int)
      requires Valid() && (state.Exited? || state.Dead?)
      modifies docker
      ensures Valid()
      ensures docker.containers.Keys == old(docker.containers).Keys
      ensures id in docker.containers ==> docker.containers[id].Stopped()
    {
      ghost var cs := docker.containers;
      docker.Stop(id, state, exitCode);
      SameLabelsTracked(running, cs, docker.containers);
    }

    /** Any run: passes, ticks, exits and events in any order, with events lost, late or repeated. */
    method Run(steps: seq<Step>, clock: nat -> Time, draws: nat -> real, dbFails: nat -> bool)
      requires Valid() && reporter.Valid() && NotBefore(reporter.history, clock(0))
      requires (forall i, j | i <= j :: clock(i) <= clock(j)) && forall i :: IsDraw(draws(i))
      modifies `running, `sources, `reported, docker, store, reporter
      ensures Valid() && reporter.Valid()
      // The breaker has been told of exactly the exits reported, one for one.
      ensures Told(old(reported), old(reporter.history), reported, reporter.history)
    {
      ghost var reported0, history0 := reported, reporter.history;
      ToldNothing(reported, reporter.history);
      for i := 0 to |steps|
        invariant Valid() && reporter.Valid() && NotBefore(reporter.history, clock(i))
        invariant Told(reported0, history0, reported, reporter.history)
      {
        assert clock(i) <= clock(i + 1);
        ghost var reported1, history1 := reported, reporter.history;
        RunStep(steps[i], clock(i), draws, draws(i), dbFails(i));
        ToldOn(reported0, history0, reported1, history1, reported, reporter.history);
      }
    }

    method RunStep(step: Step, now: Time, draws: nat -> real, draw: real, dbFails: bool)
      requires Valid() && reporter.Valid() && NotBefore(reporter.history, now) && IsDraw(draw)
               && forall i :: IsDraw(draws(i))
      modifies `running, `sources, `reported, docker, store, reporter
      ensures Valid() && reporter.Valid() && NotBefore(reporter.history, now)
      ensures Told(old(reported), old(reporter.history), reported, reporter.history)
    {
      ghost var w := State();
      ToldNothing(reported, reporter.history);
      match step {
        case DispatchPass(batches, starts) => DoDispatch(batches, starts, now, dbFails);
        case DieEvent(id, details) =>
          OnDieEvent(id, now, draw, details, dbFails);
          if IsTracked(w, id) {
            ReportsTell(w, id, now, draw, failureMinRuntime, details, dbFails, State());
          }
        case ContainerStops(id, exitCode) => OnContainerStops(id, Exited, exitCode);
        case ReconcileTick(listFails, details) =>
          var _ := ReconcileOrphans(listFails, _ => now, now, draws, details, dbFails);
      }
    }
  }

  /** What can happen to the executor; each is one step. */
  datatype Step =
    | DispatchPass(batches: seq<Batch>, starts: Starts)
    | DieEvent(id: ContainerID, details: RunDetails)
    | ContainerStops(stopped: ContainerID, exitCode: int)
    | ReconcileTick(listFails: bool, detailsOf: ContainerID -> RunDetails)

  lemma SameLabelsTracked(running: Slots, cs: Containers, cs': Containers)
    requires Tracked(running, cs) && cs'.Keys == cs.Keys
    requires forall id :: id in cs ==>
               && cs'[id].executor == cs[id].executor && cs'[id].project == cs[id].project
               && (cs'[id].state.NotStarted? ==> cs[id].state.NotStarted?)
    ensures Tracked(running, cs')
  {
    forall id | id in cs'
      ensures HoldsSlot(running, id, cs'[id])
    {
      assert HoldsSlot(running, id, cs[id]);
    }
    forall p
      ensures SlotFilled(running, cs', p)
    {
      assert SlotFilled(running, cs, p);
    }
  }

  // ---------- What an exit does ----------

  datatype World = World(running: Slots, containers: Containers, rows: Table, reported: seq<Exit>, history: History)

  ghost predicate NoSlotHolds(running: Slots, id: ContainerID) {
    forall p :: p in running ==> running[p] != id
  }

  /** The final status and details of a run, if its row is there to take them. */
  ghost function Finished(rows: Table, c: Container, p: ProjectName, details: RunDetails, now: Time,
                          dbFails: bool): Table {
    if c.job.None? || dbFails || Key(c.job.value, p) !in rows then rows
    else
      var key := Key(c.job.value, p);
      rows[key := Row(if c.exitCode == 0 then StateStore.Completed else StateStore.Failed,
                      rows[key].priority, now, details)]
  }

  /**
   An exit frees the slot that holds the container, or else the slot of the project its label names;
   a container that is still there is reported, once, and removed.
   */
  ghost predicate ExitEffect(w: World, id: ContainerID, now: Time, draw: real, minRuntime: Time, details: RunDetails,
                             dbFails: bool, handled: Option<ProjectName>, w': World) {
    match handled
    case None =>
      w' == w && NoSlotHolds(w.running, id) && (id in w.containers ==> w.containers[id].project.None?)
    case Some(p) =>
      && ((p in w.running && w.running[p] == id)
          || (NoSlotHolds(w.running, id) && id in w.containers && w.containers[id].project == Some(p)))
      && if id !in w.containers then w' == w.(running := w.running - {p})
         else
           w' == AfterReport(w, id, p, now, draw, minRuntime, details, dbFails)
  }

  ghost function ExitReport(c: Container, p: ProjectName, now: Time, draw: real, minRuntime: Time): Event {
    var runtime := if c.startedAt.Some? then now - c.startedAt.value else 0;
    Reported(now, p, ClassifyOutcome(c.exitCode, runtime, minRuntime), draw, c.exitCode)
  }

  ghost function AfterReport(w: World, id: ContainerID, p: ProjectName, now: Time, draw: real, minRuntime: Time,
                             details: RunDetails, dbFails: bool): World
    requires id in w.containers
  {
    var c := w.containers[id];
    var event := ExitReport(c, p, now, draw, minRuntime);
    World(w.running - {p}, w.containers - {id}, Finished(w.rows, c, p, details, now, dbFails),
          w.reported + [Exit(id, p, c, w.running, event)], w.history + [event])
  }

  ghost predicate IsTracked(w: World, id: ContainerID) {
    id in w.containers && w.containers[id].executor
  }

  /** The container is reported under its own project as it leaves the running map, and is gone. */
  ghost predicate Reports(w: World, id: ContainerID, now: Time, draw: real, minRuntime: Time, details: RunDetails,
                          dbFails: bool, w': World) {
    && IsTracked(w, id) && w.containers[id].project.Some?
    && var p := w.containers[id].project.value;
       p in w.running && w.running[p] == id && w' == AfterReport(w, id, p, now, draw, minRuntime, details, dbFails)
  }

  ghost predicate InOrder(w: World, nextId: ContainerID, minRuntime: Time) {
    Tracked(w.running, w.containers) && ReportedOnce(w.reported, w.containers, nextId, minRuntime)
  }

  /** With every container tracked, an exit touches only the container's own slot and reports it for the first time. */
  lemma ExitKeepsOrder(w: World, nextId: ContainerID, id: ContainerID, now: Time, draw: real, minRuntime: Time,
                       details: RunDetails, dbFails: bool, handled: Option<ProjectName>, w': World)
    requires InOrder(w, nextId, minRuntime) && (id in w.containers ==> id < nextId)
    requires ExitEffect(w, id, now, draw, minRuntime, details, dbFails, handled, w')
    ensures InOrder(w', nextId, minRuntime) && |w'.running| <= |w.running|
    ensures if IsTracked(w, id) then Reports(w, id, now, draw, minRuntime, details, dbFails, w') else w' == w
  {
    if id in w.containers {
      assert HoldsSlot(w.running, id, w.containers[id]);
    }
    match handled
    case None =>
    case Some(p) =>
      assert SlotFilled(w.running, w.containers, p);
      RemovedIsTracked(w.running, w.containers, p, id);
  }

  lemma RemovedIsTracked(running: Slots, cs: Containers, p: ProjectName, id: ContainerID)
    requires Tracked(running, cs) && p in running && running[p] == id
    ensures Tracked(running - {p}, cs - {id}) && |running - {p}| <= |running|
  {
    var running', cs' := running - {p}, cs - {id};
    assert SlotFilled(running, cs, p);
    forall i | i in cs'
      ensures HoldsSlot(running', i, cs'[i]) && (!cs'[i].executor ==> cs'[i].project.None?)
    {
      assert HoldsSlot(running, i, cs[i]);
    }
    forall q
      ensures SlotFilled(running', cs', q)
    {
      assert SlotFilled(running, cs, q);
    }
    assert running.Keys == running'.Keys + {p};
  }

  function NewContainer(job: JobName, project: ProjectName, now: Time): Container {
    Container(true, Some(project), Some(job), Some(now), Live, 0)
  }

  ghost function MarkedRunning(rows: Table, job: JobName, project: ProjectName, now: Time): Table {
    if Key(job, project) in rows
    then rows[Key(job, project) := Row(StateStore.Running, rows[Key(job, project)].priority, now, NO_DETAILS)]
    else rows
  }

  lemma PlacedIsTracked(running: Slots, cs: Containers, project: ProjectName, id: ContainerID, c: Container)
    requires Tracked(running, cs) && project !in running && id !in cs
    requires c.executor && c.project == Some(project) && c.state.Live?
    ensures Tracked(running[project := id], cs[id := c])
    ensures |running[project := id]| == |running| + 1
  {
    var running', cs' := running[project := id], cs[id := c];
    forall i | i in cs'
      ensures HoldsSlot(running', i, cs'[i]) && (!cs'[i].executor ==> cs'[i].project.None?)
    {
      assert i != id ==> HoldsSlot(running, i, cs[i]);
    }
    forall p
      ensures SlotFilled(running', cs', p)
    {
      assert p != project ==> SlotFilled(running, cs, p);
    }
  }

  // ---------- What a reconcile tick does ----------

  ghost predicate Swept(w: World, w': World) {
    // Exactly the stopped executor containers are gone, and exactly they are newly reported.
    && (forall id :: id in w'.containers <==>
          id in w.containers && !(w.containers[id].executor && w.containers[id].Stopped()))
    && (forall id :: id in w'.containers ==> w'.containers[id] == w.containers[id])
    && (forall id :: IsReported(w'.reported, id) <==>
          IsReported(w.reported, id) || (id in w.containers && id !in w'.containers))
    && Told(w.reported, w.history, w'.reported, w'.history)
  }

  /** The same for the first n of the listed containers. */
  ghost predicate SweptUpTo(w: World, w': World, ids: seq<ContainerID>, n: int)
    requires 0 <= n <= |ids|
  {
    && (forall id :: id in w'.containers <==> id in w.containers && !(id in ids[..n] && w.containers[id].Stopped()))
    && (forall id :: id in w'.containers ==> w'.containers[id] == w.containers[id])
    && (forall id :: IsReported(w'.reported, id) <==>
          IsReported(w.reported, id) || (id in w.containers && id !in w'.containers))
    && Told(w.reported, w.history, w'.reported, w'.history)
  }

  /** The list has every executor container once, and each is tracked. */
  ghost predicate IsList(w: World, ids: seq<ContainerID>, tracked: map<ContainerID, ProjectName>) {
    && (forall id :: id in ids <==> IsTracked(w, id))
    && (forall i, j :: 0 <= i < j < |ids| ==> ids[i] != ids[j])
    && forall id :: id in ids ==> id in tracked
  }

  lemma AllListed(w: World, ids: seq<ContainerID>, tracked: map<ContainerID, ProjectName>)
    requires Tracked(w.running, w.containers)
    requires forall id :: id in ids <==> IsTracked(w, id)
    requires forall i, j :: 0 <= i < j < |ids| ==> ids[i] != ids[j]
    requires forall p :: p in w.running ==> w.running[p] in tracked
    ensures IsList(w, ids, tracked)
  {
    forall id | id in ids
      ensures id in tracked
    {
      assert HoldsSlot(w.running, id, w.containers[id]);
    }
  }

  lemma NextListed(w: World, v: World, ids: seq<ContainerID>, tracked: map<ContainerID, ProjectName>, n: nat)
    requires n < |ids| && IsList(w, ids, tracked) && SweptUpTo(w, v, ids, n)
    ensures ids[n] in w.containers && ids[n] !in ids[..n] && IsTracked(v, ids[n]) && ids[n] in tracked
  {
    assert ids[n] in ids;
  }

  lemma SweepStep(w: World, v: World, v': World, ids: seq<ContainerID>, n: nat, now: Time, draw: real, minRuntime: Time,
                  details: RunDetails, dbFails: bool)
    requires n < |ids| && SweptUpTo(w, v, ids, n) && ids[n] in w.containers && ids[n] !in ids[..n]
    requires ids[n] in v.containers
    requires if v.containers[ids[n]].Stopped()
             then Reports(v, ids[n], now, draw, minRuntime, details, dbFails, v') else v' == v
    ensures SweptUpTo(w, v', ids, n + 1)
  {
    assert ids[..n + 1] == ids[..n] + [ids[n]];
    if v.containers[ids[n]].Stopped() {
      var e := v'.reported[|v.reported|];
      ToldMore(w.reported, w.history, v.reported, v.history, e);
      ReportedMore(v.reported, e);
    }
  }

  lemma ReportedMore(reported: seq<Exit>, e: Exit)
    ensures forall id :: IsReported(reported + [e], id) <==> IsReported(reported, id) || id == e.id
  {
    var more := reported + [e];
    assert more[|reported|] == e;
    forall id | IsReported(reported, id)
      ensures IsReported(more, id)
    {
      var i :| 0 <= i < |reported| && reported[i].id == id;
      assert more[i].id == id;
    }
  }

  lemma ReportsTell(w: World, id: ContainerID, now: Time, draw: real, minRuntime: Time, details: RunDetails,
                    dbFails: bool, w': World)
    requires Reports(w, id, now, draw, minRuntime, details, dbFails, w')
    ensures Told(w.reported, w.history, w'.reported, w'.history)
  {
    ToldNothing(w.reported, w.history);
    ToldMore(w.reported, w.history, w.reported, w.history, w'.reported[|w.reported|]);
  }

  lemma SweptAll(w: World, w': World, ids: seq<ContainerID>)
    requires forall id :: id in ids <==> id in w.containers && w.containers[id].executor
    requires SweptUpTo(w, w', ids, |ids|) && Tracked(w'.running, w'.containers)
    ensures Swept(w, w') && AllLive(w'.running, w'.containers)
  {
    assert ids[..|ids|] == ids;
    forall p | p in w'.running
      ensures w'.running[p] in w'.containers && w'.containers[w'.running[p]].state.Live?
    {
      assert SlotFilled(w'.running, w'.containers, p);
      assert HoldsSlot(w'.running, w'.running[p], w'.containers[w'.running[p]]);
    }
  }

  ghost predicate AllLive(running: Slots, cs: Containers) {
    forall p :: p in running ==> running[p] in cs && cs[running[p]].state.Live?
  }
}
