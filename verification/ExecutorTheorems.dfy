/** What the exits of containers mean: for the breaker, for the back-off of their projects, and in the store. */
module ExecutorTheorems {
  import opened Docker
  import opened Executor
  import opened Resilience
  import opened ResilienceSpec
  import opened ResilienceTheorems
  import opened Sequences
  import opened StateStore
  import opened Wrappers

  // ---------- One exit ----------

  /** The container failed, and sooner after its start than the minimum; one without a start time failed at once. */
  predicate CrashedEarly(c: Container, now: Time, minRuntime: Time) {
    c.exitCode != 0 && (if c.startedAt.Some? then now - c.startedAt.value else 0) < minRuntime
  }

  /**
   An early crash feeds the breaker's window with its time, any other exit leaves the window alone; a
   success ends the project's run of failures, and any failure makes it one longer.
   */
  lemma ExitFeedsBreaker(h: History, c: Container, p: ProjectName, now: Time, draw: real, minRuntime: Time)
    ensures var after := h + [ExitReport(c, p, now, draw, minRuntime)];
            && RapidTimes(after) == (if CrashedEarly(c, now, minRuntime) then RapidTimes(h) + [now] else RapidTimes(h))
            && Failures(after, p) == if c.exitCode == 0 then 0 else Failures(h, p) + 1
  {
    var e := ExitReport(c, p, now, draw, minRuntime);
    Appended(h, e);
    var os := Outcomes(h, p);
    assert (os + [e.outcome])[..|os|] == os;
  }

  /** The row of a finished run: completed or failed by the exit code, with its time, details and old priority. */
  lemma ExitIsRecorded(rows: Table, c: Container, p: ProjectName, details: RunDetails, now: Time, k: Key)
    ensures var after := Finished(rows, c, p, details, now, false);
            && after.Keys == rows.Keys
            && (k in rows && c.job == Some(k.job) && k.project == p ==>
                  && (after[k].status == StateStore.Completed <==> c.exitCode == 0)
                  && (after[k].status == StateStore.Failed <==> c.exitCode != 0)
                  && after[k].priority == rows[k].priority && after[k].lastRun == now && after[k].details == details)
            && (k in rows && !(c.job == Some(k.job) && k.project == p) ==> after[k] == rows[k])
    ensures Finished(rows, c, p, details, now, true) == rows
  {
  }

  /** The row of a run that starts: running, with its old priority and none of the last run's details. */
  lemma StartIsRecorded(rows: Table, job: JobName, p: ProjectName, now: Time, k: Key)
    ensures var after := MarkedRunning(rows, job, p, now);
            && after.Keys == rows.Keys
            && (k in rows && k == Key(job, p) ==>
                  after[k] == Row(StateStore.Running, rows[k].priority, now, RunDetails(None, None, None, None)))
            && (k in rows && k != Key(job, p) ==> after[k] == rows[k])
  {
  }

  /** A container crashes early if it fails within the minimum time of its dispatch. */
  lemma CrashedSoonAfterStart(job: JobName, p: ProjectName, start: Time, state: RunState, exitCode: int, now: Time,
                              minRuntime: Time)
    ensures var c := NewContainer(job, p, start).(state := state, exitCode := exitCode);
            && c.project == Some(p) && c.job == Some(job)
            && (CrashedEarly(c, now, minRuntime) <==> exitCode != 0 && now - start < minRuntime)
  {
  }

  // ---------- A crash loop ----------

  /** The event is the report of an early crash. */
  ghost predicate IsEarlyCrash(e: Event, minRuntime: Time) {
    e.Reported?
    && exists c :: e == ExitReport(c, e.project, e.now, e.draw, minRuntime) && CrashedEarly(c, e.now, minRuntime)
  }

  lemma EarlyCrashIsRapid(e: Event, minRuntime: Time)
    requires IsEarlyCrash(e, minRuntime)
    ensures e.Reported? && e.outcome.RapidFail?
  {
  }

  ghost function EarlyCrashes(t: History, minRuntime: Time): nat {
    if t == [] then 0 else EarlyCrashes(Before(t), minRuntime) + if IsEarlyCrash(Last(t), minRuntime) then 1 else 0
  }

  ghost predicate Extends(ts: seq<Time>, us: seq<Time>, k: nat) {
    |us| >= |ts| + k && forall i :: 0 <= i < |ts| ==> us[i] == ts[i]
  }

  /** Without a reset, the rapid failures of a stretch are added to those before, early crashes among them. */
  lemma {:induction false} RapidTimesGrow(h: History, t: History, minRuntime: Time)
    requires !HasReset(t)
    ensures Extends(RapidTimes(h), RapidTimes(h + t), EarlyCrashes(t, minRuntime))
    ensures t != [] && IsEarlyCrash(t[0], minRuntime) ==>
              |RapidTimes(h + t)| > |RapidTimes(h)| && RapidTimes(h + t)[|RapidTimes(h)|] == t[0].now
    decreases |t|
  {
    if t == [] {
      Empty(h);
    } else {
      NoResetBefore(t);
      RapidTimesGrow(h, Before(t), minRuntime);
      SplitLast(h, t);
      RapidTimesStep(h + Before(t), Last(t));
      if IsEarlyCrash(Last(t), minRuntime) {
        EarlyCrashIsRapid(Last(t), minRuntime);
      }
      if |t| == 1 {
        Empty(h);
      } else {
        assert Before(t)[0] == t[0];
      }
    }
  }

  lemma SplitLast(h: History, t: History)
    requires t != []
    ensures h + t == (h + Before(t)) + [Last(t)]
  {
  }

  lemma NoResetBefore(t: History)
    requires t != [] && !HasReset(t)
    ensures !HasReset(Before(t)) && !Last(t).WasReset?
  {
    assert Last(t) == t[|t| - 1];
    forall i | 0 <= i < |Before(t)|
      ensures !Before(t)[i].WasReset?
    {
      assert Before(t)[i] == t[i];
    }
  }

  lemma RapidTimesStep(h: History, e: Event)
    requires !e.WasReset?
    ensures RapidTimes(h + [e]) ==
            if e.Reported? && e.outcome.RapidFail? then RapidTimes(h) + [e.now] else RapidTimes(h)
  {
    Appended(h, e);
  }

  /**
   A crash loop trips the breaker: a stretch without a reset that starts and ends with an early crash, has
   as many of them as the threshold and is no longer than the window leaves it open, until a reset.
   */
  lemma CrashLoopTrips(cfg: Config, h: History, t: History, later: History, minRuntime: Time)
    requires cfg.Resolved() && WellFormed(cfg, h + t) && t != []
    requires IsEarlyCrash(t[0], minRuntime) && IsEarlyCrash(Last(t), minRuntime)
    requires EarlyCrashes(t, minRuntime) >= cfg.rapidFailThreshold && Last(t).now - t[0].now <= cfg.rapidFailWindow
    requires !HasReset(t) && !HasReset(later)
    ensures BreakerOpen(cfg, h + t + later)
  {
    EarlyCrashIsRapid(Last(t), minRuntime);
    RapidTimesGrow(h, t, minRuntime);
    SplitLast(h, t);
    RapidTimesStep(h + Before(t), Last(t));
    RapidTimesSorted(cfg, h + t);
    LongEnough(RapidTimes(h + t), |RapidTimes(h)|, cfg.rapidFailThreshold, cfg.rapidFailWindow);
    OnlyResetCloses(cfg, h + t, later);
  }

  /** A sorted list whose tail from i spans no more than w has a burst as long as that tail, or shorter. */
  lemma LongEnough(ts: seq<Time>, i: nat, k: nat, w: Time)
    requires Sorted(ts) && i < |ts| && 0 < k <= |ts| - i && ts[|ts| - 1] - ts[i] <= w
    ensures HasBurst(ts, k, w)
  {
    assert Burst(ts, i, k, w);
  }

  // ---------- A crash loop in a run ----------

  predicate Crashed(e: Exit, minRuntime: Time) {
    e.event.Reported? && CrashedEarly(e.container, e.event.now, minRuntime)
  }

  function CrashCount(exits: seq<Exit>, minRuntime: Time): nat {
    if exits == [] then 0
    else CrashCount(exits[..|exits| - 1], minRuntime) + if Crashed(exits[|exits| - 1], minRuntime) then 1 else 0
  }

  ghost predicate AllHeld(exits: seq<Exit>, minRuntime: Time) {
    forall i :: 0 <= i < |exits| ==> WhileHeld(exits[i], minRuntime)
  }

  lemma HeldCrash(e: Exit, minRuntime: Time)
    requires WhileHeld(e, minRuntime) && Crashed(e, minRuntime)
    ensures IsEarlyCrash(e.event, minRuntime)
  {
    assert e.event == ExitReport(e.container, e.event.project, e.event.now, e.event.draw, minRuntime);
  }

  /** The events of some exits are reports, one for each, and the early crashes among them are early crashes. */
  lemma {:induction false} EventsOfHeld(exits: seq<Exit>, minRuntime: Time)
    requires AllHeld(exits, minRuntime)
    ensures |EventsOf(exits)| == |exits| && !HasReset(EventsOf(exits))
    ensures forall i :: 0 <= i < |exits| ==> EventsOf(exits)[i] == exits[i].event
    ensures EarlyCrashes(EventsOf(exits), minRuntime) >= CrashCount(exits, minRuntime)
  {
    if exits != [] {
      var b, e := exits[..|exits| - 1], exits[|exits| - 1];
      EventsOfHeld(b, minRuntime);
      Appended(EventsOf(b), e.event);
      assert WhileHeld(e, minRuntime);
      if Crashed(e, minRuntime) {
        HeldCrash(e, minRuntime);
      }
    }
  }

  /** Containers that keep crashing early, as a run of the executor reports them, trip the breaker. */
  lemma CrashingRunTrips(cfg: Config, reported0: seq<Exit>, history0: History, before: seq<Exit>, crashing: seq<Exit>,
                         after: seq<Exit>, history: History, minRuntime: Time)
    requires cfg.Resolved() && WellFormed(cfg, history)
    requires Told(reported0, history0, reported0 + (before + crashing + after), history)
    requires AllHeld(before, minRuntime) && AllHeld(crashing, minRuntime) && AllHeld(after, minRuntime)
    requires crashing != [] && Crashed(crashing[0], minRuntime) && Crashed(crashing[|crashing| - 1], minRuntime)
    requires CrashCount(crashing, minRuntime) >= cfg.rapidFailThreshold
    requires crashing[|crashing| - 1].event.now - crashing[0].event.now <= cfg.rapidFailWindow
    ensures BreakerOpen(cfg, history)
  {
    var a, t, later := EventsOf(before), EventsOf(crashing), EventsOf(after);
    ToldParts(reported0, history0, before, crashing, after, history);
    EventsOfHeld(crashing, minRuntime);
    EventsOfHeld(after, minRuntime);
    HeldCrash(crashing[0], minRuntime);
    HeldCrash(crashing[|crashing| - 1], minRuntime);
    PrefixIsPossible(cfg, history0 + a + t, later);
    CrashLoopTrips(cfg, history0 + a, t, later, minRuntime);
  }

  lemma ToldParts(reported0: seq<Exit>, history0: History, before: seq<Exit>, crashing: seq<Exit>, after: seq<Exit>,
                  history: History)
    requires Told(reported0, history0, reported0 + (before + crashing + after), history)
    ensures history == history0 + EventsOf(before) + EventsOf(crashing) + EventsOf(after)
  {
    var exits := before + crashing + after;
    assert (reported0 + exits)[|reported0|..] == exits;
    EventsAppend(before + crashing, after);
    EventsAppend(before, crashing);
    assert history == history0 + history[|history0|..];
    Assoc(history0, EventsOf(before) + EventsOf(crashing), EventsOf(after));
    Assoc(history0, EventsOf(before), EventsOf(crashing));
  }

  lemma {:induction false} PrefixIsPossible(cfg: Config, h: History, t: History)
    requires cfg.Resolved() && WellFormed(cfg, h + t)
    ensures WellFormed(cfg, h)
    decreases |t|
  {
    if t == [] {
      Empty(h);
    } else {
      SplitLast(h, t);
      Appended(h + Before(t), Last(t));
      PrefixIsPossible(cfg, h, Before(t));
    }
  }
}
