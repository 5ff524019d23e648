/**
 The part of the webhook handler that follows authentication: ask the gate, then either queue the
 project for replay or mark it scheduled.  Every call on the manager is atomic, but other callers may
 run between two of them; their calls are a parameter, so what is proved holds for every interleaving.
 */
module Webhook {
  import opened Wrappers
  import opened ResilienceSpec
  import opened Resilience
  import opened ResilienceTheorems
  import opened StateStore

  /** A call some other goroutine makes on the manager. */
  datatype Op =
    | DoReport(now: Time, draw: real, project: ProjectName, outcome: Outcome, exitCode: int)
    | DoAllow(now: Time, project: ProjectName, source: Source)
    | DoMark(project: ProjectName)
    | DoEnqueue(project: ProjectName)
    | DoReset(now: Time)
    | DoSnapshot(now: Time)
  {
    predicate Timed() { !DoMark? && !DoEnqueue? }
  }

  /** The clock never runs back from one call to the next. */
  ghost predicate Timely(r: Instant, ops: seq<Op>)
    decreases |ops|
  {
    ops == [] ||
    if ops[0].Timed() then
      && (r.At? ==> r.t <= ops[0].now)
      && (ops[0].DoReport? ==> IsDraw(ops[0].draw))
      && Timely(At(ops[0].now), ops[1..])
    else Timely(r, ops[1..])
  }

  /** The latest reading once the calls have been made. */
  ghost function ReadingAfter(r: Instant, ops: seq<Op>): Instant
    decreases |ops|
  {
    if ops == [] then r
    else ReadingAfter(if ops[0].Timed() then At(ops[0].now) else r, ops[1..])
  }

  /** The latest event carries the reading of the call that made it. */
  ghost predicate SameReading(op: Op, e: Event) {
    e.Timed() == op.Timed() && (op.Timed() ==> e.now == op.now)
  }

  method RunOp(m: Manager, op: Op)
    requires m.Valid() && Timely(LastReading(m.history), [op])
    modifies m
    ensures m.Valid() && m.history != [] && m.history == old(m.history) + [Last(m.history)]
    ensures SameReading(op, Last(m.history))
  {
    match op {
      case DoReport(now, draw, project, outcome, exitCode) => m.Report(now, draw, project, outcome, exitCode);
      case DoAllow(now, project, source) => var _ := m.AllowDispatch(now, project, source);
      case DoMark(project) => m.MarkManual(project);
      case DoEnqueue(project) => var _ := m.EnqueueWebhookReplay(project);
      case DoReset(now) => var _ := m.Reset(now);
      case DoSnapshot(now) => var _ := m.TakeSnapshot(now);
    }
  }

  method RunOps(m: Manager, ops: seq<Op>)
    requires m.Valid() && Timely(LastReading(m.history), ops)
    modifies m
    ensures m.Valid() && old(m.history) <= m.history
    ensures LastReading(m.history) == ReadingAfter(old(LastReading(m.history)), ops)
  {
    ghost var r0 := LastReading(m.history);
    for i := 0 to |ops|
      invariant m.Valid() && old(m.history) <= m.history
      invariant Timely(LastReading(m.history), ops[i..])
      invariant ReadingAfter(LastReading(m.history), ops[i..]) == ReadingAfter(r0, ops)
    {
      assert ops[i..][0] == ops[i] && ops[i..][1..] == ops[i + 1..] && [ops[i]][1..] == [];
      ghost var h := m.history;
      RunOp(m, ops[i]);
      ClockStep(h, Last(m.history));
    }
  }

  datatype Response = Scheduled202 | Queued202 | ProjectNotFound400 | Error500 | QueueFull503

  class Handler {
    const store: SQLiteStore
    const resilience: Manager

    constructor (store: SQLiteStore, resilience: Manager)
      ensures this.store == store && this.resilience == resilience
    {
      this.store, this.resilience := store, resilience;
    }

    /** `meanwhile` is what other callers do to the manager after the gate has answered. */
    method HandleForgejo(job: JobName, project: ProjectName, now: Time, meanwhile: seq<Op>, dbFails: bool)
      returns (response: Response)
      requires resilience.Valid() && NotBefore(resilience.history, now) && Timely(At(now), meanwhile)
      modifies store, resilience
      ensures resilience.Valid() && old(resilience.history) < resilience.history
      // An accepted webhook is in the store or in the replay set at the moment it is answered.
      ensures response.Scheduled202? ==>
                && Key(job, project) in old(store.rows)
                && store.rows == old(store.rows)[Key(job, project) :=
                                   Row(StateStore.Scheduled, old(store.rows)[Key(job, project)].priority,
                                       now, NO_DETAILS)]
      ensures response.Queued202? ==> project in Pending(resilience.history)
      // 503 only ever means that the replay set is full, and without the project.
      ensures response.QueueFull503? ==>
                project !in Pending(resilience.history)
                && |Pending(resilience.history)| == resilience.cfg.replayQueueCap
      // The gate's answer alone chooses between the two.
      ensures var v := VerdictOf(resilience.cfg, old(resilience.history), project, Webhook, now);
              if !v.Allowed? then response.Queued202? || response.QueueFull503?
              else response == if dbFails then Error500
                               else if Key(job, project) in old(store.rows) then Scheduled202 else ProjectNotFound400
      ensures response.Scheduled202? || store.rows == old(store.rows)
    {
      ghost var h0 := resilience.history;
      var verdict := resilience.AllowDispatch(now, project, Webhook);
      ClockStep(h0, Asked(now, project, Webhook, verdict.Allowed?));
      RunOps(resilience, meanwhile);
      if !verdict.Allowed? {
        response := Enqueue(project);
        return;
      }
      var err := store.UpdateProjectStatus(job, project, StateStore.Scheduled, NO_DETAILS, now, dbFails);
      match err {
        case None => return Scheduled202;
        case Some(ProjectNotFound) => return ProjectNotFound400;
        case Some(_) => return Error500;
      }
    }

    method Enqueue(project: ProjectName) returns (response: Response)
      requires resilience.Valid()
      modifies resilience
      ensures resilience.Valid() && old(resilience.history) < resilience.history
      ensures response.Queued202? || response.QueueFull503?
      ensures response.Queued202? ==> project in Pending(resilience.history)
      ensures response.QueueFull503? ==>
                project !in Pending(resilience.history)
                && |Pending(resilience.history)| == resilience.cfg.replayQueueCap
    {
      ghost var h := resilience.history;
      PendingBounded(resilience.cfg, h);
      var r := resilience.EnqueueWebhookReplay(project);
      Appended(h, Enqueued(project, r.Queued?));
      response := if r.Queued? then Queued202 else QueueFull503;
    }
  }

  /** A webhook answered "queued" waits in the replay set until an allowed dispatch of its project or a reset. */
  lemma QueuedUntilTakenOut(cfg: Config, h: History, later: History, p: ProjectName)
    requires cfg.Resolved() && WellFormed(cfg, h + later) && p in Pending(h)
    ensures p in Pending(h + later) || exists k :: 0 <= k < |later| && TakesOut(later[k], p)
    ensures |Pending(h + later)| <= cfg.replayQueueCap
  {
    PendingBounded(cfg, h + later);
    if p !in Pending(h + later) {
      PendingLeavesBy(h, later, p);
    }
  }
}
