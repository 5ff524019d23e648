/**
 The resilience manager: circuit breaker, per-project back-off, single-shot bypass and webhook
 replay set.  The fields are the implementation's own, trimmed and overwritten as it goes; `Valid`
 says that each of them is what the complete history of calls says it should be.
 */
module Resilience {
  import opened Wrappers
  import opened ResilienceSpec

  datatype ProjectState = ProjectState(
    consecutiveFailures: nat,
    nextAllowedAt: Instant,
    lastExitCode: int,
    lastReportAt: Instant,
    manualPending: bool)

  const ZERO_PROJECT := ProjectState(0, Unset, 0, Unset, false)

  datatype ResetSummary = ResetSummary(
    previousState: BreakerState, replayedProjects: seq<ProjectName>, clearedBackoffs: nat)

  datatype Snapshot = Snapshot(
    state: BreakerState, openSince: Instant, openReason: Option<int>, rapidFailCount: nat, windowSeconds: int,
    pendingReplayCount: nat, lastReset: Instant, lastTripped: Instant, projects: map<ProjectName, ProjectState>)

  datatype EnqueueResult = Queued | ReplayQueueFull

  // ---------- What the history says about one project ----------

  ghost function RecordOf(cfg: Config, h: History, p: ProjectName): ProjectState {
    var r := LastReport(h, p);
    ProjectState(
      Failures(h, p),
      NextAllowed(cfg, h, p),
      if r.Some? then r.value.exitCode else 0,
      if r.Some? then At(r.value.now) else Unset,
      Armed(h, p))
  }

  function Record(projects: map<ProjectName, ProjectState>, p: ProjectName): ProjectState {
    if p in projects then projects[p] else ZERO_PROJECT
  }

  ghost predicate RecordsAgree(cfg: Config, h: History, projects: map<ProjectName, ProjectState>) {
    && projects.Keys == Touched(h)
    && forall p :: Record(projects, p) == RecordOf(cfg, h, p)
  }

  lemma Appended(h: History, e: Event)
    ensures Before(h + [e]) == h && Last(h + [e]) == e
  {
  }

  lemma RecordsStep(cfg: Config, h: History, projects: map<ProjectName, ProjectState>, e: Event,
                    p: ProjectName, s: ProjectState)
    requires RecordsAgree(cfg, h, projects)
    requires match e
             case Reported(_, q, _, _, _) => q == p && s == RecordOf(cfg, h + [e], p)
             case Asked(_, q, _, _) => q == p && s == Record(projects, p).(manualPending := false)
             case Marked(q) => q == p && s == Record(projects, p).(manualPending := true)
             case _ => false
    ensures RecordsAgree(cfg, h + [e], projects[p := s])
  {
    Appended(h, e);
    forall q
      ensures Record(projects[p := s], q) == RecordOf(cfg, h + [e], q)
    {
      assert Record(projects, q) == RecordOf(cfg, h, q);
    }
  }

  lemma RecordsKept(cfg: Config, h: History, projects: map<ProjectName, ProjectState>, e: Event)
    requires RecordsAgree(cfg, h, projects) && (e.Enqueued? || e.Snapped?)
    ensures RecordsAgree(cfg, h + [e], projects)
  {
    Appended(h, e);
    forall q
      ensures Record(projects, q) == RecordOf(cfg, h + [e], q)
    {
      assert Record(projects, q) == RecordOf(cfg, h, q);
    }
  }

  /** What a report adds to the record of its project. */
  lemma ReportedRecord(cfg: Config, h: History, e: Event)
    requires e.Reported?
    ensures var s := RecordOf(cfg, h, e.project);
            RecordOf(cfg, h + [e], e.project) ==
            if e.outcome.Success? then ProjectState(0, Unset, e.exitCode, At(e.now), s.manualPending)
            else var n := s.consecutiveFailures + 1;
                 ProjectState(n, At(e.now + ComputeBackoff(cfg, n, e.draw)), e.exitCode, At(e.now), s.manualPending)
  {
    Appended(h, e);
    var os := Outcomes(h, e.project);
    assert (os + [e.outcome])[..|os|] == os;
  }

  // ---------- The sliding window ----------

  /** The times from the first one that is not before the cutoff. */
  ghost function DropBefore(ts: seq<Time>, cutoff: Time): seq<Time> {
    if ts != [] && ts[0] < cutoff then DropBefore(ts[1..], cutoff) else ts
  }

  ghost predicate Sorted(ts: seq<Time>) {
    forall i, j :: 0 <= i < j < |ts| ==> ts[i] <= ts[j]
  }

  ghost predicate IsSuffix(full: seq<Time>, kept: seq<Time>) {
    |kept| <= |full| && forall i :: 0 <= i < |kept| ==> kept[i] == full[|full| - |kept| + i]
  }

  /** `kept` is what is left of `full` after forgetting only times before the cutoff. */
  ghost predicate WindowOf(full: seq<Time>, kept: seq<Time>, cutoff: Time) {
    && IsSuffix(full, kept)
    && forall i :: 0 <= i < |full| - |kept| ==> full[i] < cutoff
  }

  ghost predicate AllSince(ts: seq<Time>, cutoff: Time) {
    forall i :: 0 <= i < |ts| ==> ts[i] >= cutoff
  }

  lemma {:induction false} DropIsWindow(full: seq<Time>, kept: seq<Time>, cutoff: Time)
    requires Sorted(full) && WindowOf(full, kept, cutoff)
    ensures WindowOf(full, DropBefore(kept, cutoff), cutoff)
    ensures AllSince(DropBefore(kept, cutoff), cutoff)
    decreases |kept|
  {
    if kept == [] {
    } else if kept[0] < cutoff {
      DropIsWindow(full, kept[1..], cutoff);
    } else {
      assert DropBefore(kept, cutoff) == kept;
      forall i | 0 <= i < |kept|
        ensures kept[i] >= cutoff
      {
        assert kept[0] == full[|full| - |kept|] && kept[i] == full[|full| - |kept| + i];
      }
    }
  }

  ghost predicate UpTo(ts: seq<Time>, r: Instant) {
    ts == [] || (r.At? && forall i :: 0 <= i < |ts| ==> ts[i] <= r.t)
  }

  /** Every rapid time is at or before the latest reading, and they are in order. */
  lemma {:induction false} RapidTimesSorted(cfg: Config, h: History)
    requires cfg.Resolved() && WellFormed(cfg, h)
    ensures Sorted(RapidTimes(h)) && UpTo(RapidTimes(h), LastReading(h))
  {
    if h != [] {
      var b, e := Before(h), Last(h);
      RapidTimesSorted(cfg, b);
      assert Follows(cfg, b, e);
      var ts := RapidTimes(b);
      if e.Reported? && e.outcome.RapidFail? {
        assert RapidTimes(h) == ts + [e.now];
      } else {
        assert RapidTimes(h) == [] || RapidTimes(h) == ts;
      }
    }
  }

  /** One more time makes a burst only if the last k times are one. */
  lemma BurstStep(ts: seq<Time>, now: Time, k: nat, w: Time)
    requires k > 0
    ensures HasBurst(ts + [now], k, w) <==>
            HasBurst(ts, k, w) || (k <= |ts| + 1 && Burst(ts + [now], |ts| + 1 - k, k, w))
  {
    if HasBurst(ts + [now], k, w) {
      var i: nat :| Burst(ts + [now], i, k, w);
      assert i + k <= |ts| ==> Burst(ts, i, k, w);
    }
    if HasBurst(ts, k, w) {
      var i: nat :| Burst(ts, i, k, w);
      assert Burst(ts + [now], i, k, w);
    }
  }

  /** After a rapid failure the trimmed window decides the breaker, and it trips at the threshold exactly. */
  lemma WindowDecides(ts: seq<Time>, now: Time, kept: seq<Time>, k: nat, w: Time)
    requires k > 0
    requires Sorted(ts + [now]) && WindowOf(ts + [now], kept, now - w) && AllSince(kept, now - w)
    ensures !HasBurst(ts, k, w) ==> (HasBurst(ts + [now], k, w) <==> |kept| >= k)
    ensures !HasBurst(ts, k, w) && |kept| >= k ==> |kept| == k
  {
    BurstStep(ts, now, k, w);
    var full := ts + [now];
    var d := |full| - |kept|;
    assert full[|full| - 1] == now;
    if |kept| >= k {
      assert full[|full| - k] == kept[|kept| - k];
      assert Burst(full, |full| - k, k, w);
    } else if |full| >= k {
      assert full[|full| - k] < now - w;
    }
    if |kept| > k {
      assert ts[d] == full[d] == kept[0];
      assert ts[d + k - 1] == full[d + k - 1] <= full[|full| - 1];
      assert Burst(ts, d, k, w);
    }
  }

  lemma {:induction false} CountSinceIs(ts: seq<Time>, cutoff: Time)
    ensures CountSince(ts, cutoff) == |set i | 0 <= i < |ts| && ts[i] >= cutoff|
  {
    if ts != [] {
      var n := |ts| - 1;
      CountSinceIs(ts[..n], cutoff);
      var front := set i | 0 <= i < n && ts[..n][i] >= cutoff;
      var all := set i | 0 <= i < |ts| && ts[i] >= cutoff;
      assert all == if ts[n] >= cutoff then front + {n} else front;
    }
  }

  lemma {:induction false} NoneSince(ts: seq<Time>, cutoff: Time)
    requires forall i :: 0 <= i < |ts| ==> ts[i] < cutoff
    ensures CountSince(ts, cutoff) == 0
  {
    if ts != [] {
      NoneSince(ts[..|ts| - 1], cutoff);
    }
  }

  lemma {:induction false} WindowCounts(full: seq<Time>, kept: seq<Time>, cutoff: Time)
    requires WindowOf(full, kept, cutoff) && AllSince(kept, cutoff)
    ensures |kept| == CountSince(full, cutoff)
    decreases |full|
  {
    if kept == [] {
      NoneSince(full, cutoff);
    } else {
      assert full[|full| - 1] == kept[|kept| - 1];
      var f, k := full[..|full| - 1], kept[..|kept| - 1];
      WindowCounts(f, k, cutoff);
    }
  }

  /** Only times the latest reading `r` puts outside the window have been forgotten; stale ones may remain. */
  ghost predicate WindowFits(full: seq<Time>, kept: seq<Time>, r: Instant, w: Time) {
    && IsSuffix(full, kept)
    && forall i :: 0 <= i < |full| - |kept| ==> r.At? && full[i] < r.t - w
  }

  ghost predicate WindowAgrees(cfg: Config, h: History, rapidFails: seq<Time>) {
    WindowFits(RapidTimes(h), rapidFails, LastReading(h), cfg.rapidFailWindow)
  }

  lemma FitsLater(full: seq<Time>, kept: seq<Time>, r: Instant, r': Instant, w: Time)
    requires WindowFits(full, kept, r, w) && (r.At? ==> r'.At? && r.t <= r'.t)
    ensures WindowFits(full, kept, r', w)
  {
  }

  lemma WindowAt(cfg: Config, h: History, rapidFails: seq<Time>, now: Time)
    requires cfg.Resolved() && WellFormed(cfg, h) && WindowAgrees(cfg, h, rapidFails) && NotBefore(h, now)
    ensures WindowOf(RapidTimes(h), rapidFails, now - cfg.rapidFailWindow)
    ensures WindowOf(RapidTimes(h) + [now], rapidFails + [now], now - cfg.rapidFailWindow)
    ensures Sorted(RapidTimes(h) + [now])
  {
    RapidTimesSorted(cfg, h);
  }

  datatype Breaker = Breaker(
    state: BreakerState, openSince: Instant, openReason: Option<int>, lastTripped: Instant, lastReset: Instant)

  ghost predicate BreakerAgrees(cfg: Config, h: History, b: Breaker)
    requires cfg.Resolved()
  {
    && (b.state.Open? <==> BreakerOpen(cfg, h))
    && b.openSince == TrippedAt(cfg, h, true)
    && b.openReason == (if b.state.Open? then Some(cfg.rapidFailThreshold) else None)
    && b.lastTripped == TrippedAt(cfg, h, false)
    && b.lastReset == LastReset(h)
  }

  predicate FeedsBreaker(e: Event) {
    e.WasReset? || (e.Reported? && e.outcome.RapidFail?)
  }

  /** Calls that neither feed the window nor reset it leave window and breaker as they are. */
  lemma BreakerKept(cfg: Config, h: History, e: Event)
    requires cfg.Resolved() && !FeedsBreaker(e)
    ensures RapidTimes(h + [e]) == RapidTimes(h)
    ensures BreakerOpen(cfg, h + [e]) == BreakerOpen(cfg, h)
    ensures forall f :: TrippedAt(cfg, h + [e], f) == TrippedAt(cfg, h, f)
    ensures LastReset(h + [e]) == LastReset(h)
  {
    Appended(h, e);
  }

  lemma BreakerRapid(cfg: Config, h: History, e: Event)
    requires cfg.Resolved() && e.Reported? && e.outcome.RapidFail?
    ensures RapidTimes(h + [e]) == RapidTimes(h) + [e.now]
    ensures BreakerOpen(cfg, h) ==> BreakerOpen(cfg, h + [e])
    ensures forall f :: TrippedAt(cfg, h + [e], f) ==
              if BreakerOpen(cfg, h + [e]) && !BreakerOpen(cfg, h) then At(e.now) else TrippedAt(cfg, h, f)
    ensures LastReset(h + [e]) == LastReset(h)
  {
    Appended(h, e);
    BurstStep(RapidTimes(h), e.now, cfg.rapidFailThreshold, cfg.rapidFailWindow);
  }

  lemma ClockStep(h: History, e: Event)
    ensures LastReading(h + [e]) == if e.Timed() then At(e.now) else LastReading(h)
  {
    Appended(h, e);
  }

  lemma WindowKept(cfg: Config, h: History, rapidFails: seq<Time>, e: Event)
    requires cfg.Resolved() && !FeedsBreaker(e) && Follows(cfg, h, e) && WindowAgrees(cfg, h, rapidFails)
    ensures WindowAgrees(cfg, h + [e], rapidFails)
  {
    BreakerKept(cfg, h, e);
    ClockStep(h, e);
    FitsLater(RapidTimes(h), rapidFails, LastReading(h), LastReading(h + [e]), cfg.rapidFailWindow);
  }

  /** Asking moves only the project's bypass flag and, when allowed, its place in the replay set. */
  lemma AskedStep(cfg: Config, h: History, rapidFails: seq<Time>, b: Breaker, projects: map<ProjectName, ProjectState>,
                  e: Event)
    requires cfg.Resolved() && WellFormed(cfg, h) && e.Asked? && Follows(cfg, h, e)
    requires WindowAgrees(cfg, h, rapidFails) && BreakerAgrees(cfg, h, b) && RecordsAgree(cfg, h, projects)
    ensures WellFormed(cfg, h + [e])
    ensures WindowAgrees(cfg, h + [e], rapidFails) && BreakerAgrees(cfg, h + [e], b)
    ensures RecordsAgree(cfg, h + [e], projects[e.project := Record(projects, e.project).(manualPending := false)])
    ensures Pending(h + [e]) == if e.allowed then Pending(h) - {e.project} else Pending(h)
  {
    Appended(h, e);
    BreakerKept(cfg, h, e);
    WindowKept(cfg, h, rapidFails, e);
    RecordsStep(cfg, h, projects, e, e.project, Record(projects, e.project).(manualPending := false));
  }

  /** A mark moves only the project's bypass flag. */
  lemma MarkedStep(cfg: Config, h: History, rapidFails: seq<Time>, b: Breaker, projects: map<ProjectName, ProjectState>,
                   e: Event)
    requires cfg.Resolved() && WellFormed(cfg, h) && e.Marked?
    requires WindowAgrees(cfg, h, rapidFails) && BreakerAgrees(cfg, h, b) && RecordsAgree(cfg, h, projects)
    ensures WellFormed(cfg, h + [e]) && Pending(h + [e]) == Pending(h)
    ensures WindowAgrees(cfg, h + [e], rapidFails) && BreakerAgrees(cfg, h + [e], b)
    ensures RecordsAgree(cfg, h + [e], projects[e.project := Record(projects, e.project).(manualPending := true)])
  {
    Appended(h, e);
    BreakerKept(cfg, h, e);
    WindowKept(cfg, h, rapidFails, e);
    RecordsStep(cfg, h, projects, e, e.project, Record(projects, e.project).(manualPending := true));
  }

  /** A webhook for the replay set moves nothing but the set. */
  lemma EnqueuedStep(cfg: Config, h: History, rapidFails: seq<Time>, b: Breaker,
                     projects: map<ProjectName, ProjectState>,
                     e: Event)
    requires cfg.Resolved() && WellFormed(cfg, h) && e.Enqueued? && Follows(cfg, h, e)
    requires WindowAgrees(cfg, h, rapidFails) && BreakerAgrees(cfg, h, b) && RecordsAgree(cfg, h, projects)
    ensures WellFormed(cfg, h + [e])
    ensures WindowAgrees(cfg, h + [e], rapidFails) && BreakerAgrees(cfg, h + [e], b)
            && RecordsAgree(cfg, h + [e], projects)
    ensures Pending(h + [e]) == if e.accepted then Pending(h) + {e.project} else Pending(h)
  {
    Appended(h, e);
    BreakerKept(cfg, h, e);
    WindowKept(cfg, h, rapidFails, e);
    RecordsKept(cfg, h, projects, e);
  }

  /** What a rapid failure makes of window and breaker: append, trim, and trip at the threshold. */
  lemma RapidStep(cfg: Config, h: History, rapidFails: seq<Time>, b: Breaker, e: Event)
    requires cfg.Resolved() && WellFormed(cfg, h) && e.Reported? && e.outcome.RapidFail? && NotBefore(h, e.now)
    requires WindowAgrees(cfg, h, rapidFails) && BreakerAgrees(cfg, h, b)
    ensures var kept := DropBefore(rapidFails + [e.now], e.now - cfg.rapidFailWindow);
            && WindowAgrees(cfg, h + [e], kept)
            && BreakerAgrees(cfg, h + [e],
                             if b.state.Closed? && |kept| >= cfg.rapidFailThreshold
                             then Breaker(Open, At(e.now), Some(|kept|), At(e.now), b.lastReset) else b)
  {
    var now, cutoff := e.now, e.now - cfg.rapidFailWindow;
    WindowAt(cfg, h, rapidFails, now);
    DropIsWindow(RapidTimes(h) + [now], rapidFails + [now], cutoff);
    WindowDecides(RapidTimes(h), now, DropBefore(rapidFails + [now], cutoff),
                  cfg.rapidFailThreshold, cfg.rapidFailWindow);
    BreakerRapid(cfg, h, e);
    ClockStep(h, e);
  }

  /** The fields give the verdict that the history gives. */
  lemma FieldsDecide(cfg: Config, h: History, b: Breaker, projects: map<ProjectName, ProjectState>,
                     p: ProjectName, source: Source, now: Time)
    requires cfg.Resolved() && BreakerAgrees(cfg, h, b) && RecordsAgree(cfg, h, projects)
    ensures var ps := Record(projects, p);
            VerdictOf(cfg, h, p, source, now) ==
            if ps.manualPending then Allowed
            else if source != Manual && b.state.Open? then BreakerDenied
            else if ps.nextAllowedAt.At? && now < ps.nextAllowedAt.t then BackoffDenied(ps.nextAllowedAt.t - now)
            else Allowed
  {
    assert Record(projects, p) == RecordOf(cfg, h, p);
  }

  /** What a snapshot taken at the end of the history shows, field by field. */
  ghost predicate Shows(cfg: Config, h: History, now: Time, snap: Snapshot)
    requires cfg.Resolved()
  {
    && (snap.state.Open? <==> BreakerOpen(cfg, h))
    && snap.openSince == TrippedAt(cfg, h, true)
    && snap.openReason == (if snap.state.Open? then Some(cfg.rapidFailThreshold) else None)
    && snap.rapidFailCount == CountSince(RapidTimes(h), now - cfg.rapidFailWindow)
    && snap.windowSeconds * 1_000_000_000 <= cfg.rapidFailWindow < (snap.windowSeconds + 1) * 1_000_000_000
    && snap.pendingReplayCount == |Pending(h)|
    && snap.lastReset == LastReset(h)
    && snap.lastTripped == TrippedAt(cfg, h, false)
    && RecordsAgree(cfg, h, snap.projects)
  }

  // ---------- The manager ----------

  class Manager {
    const cfg: Config
    var projects: map<ProjectName, ProjectState>
    var rapidFails: seq<Time>
    var state: BreakerState
    var openSince: Instant
    /** The failure count quoted in the reason text; the window length quoted beside it is fixed. */
    var openReason: Option<int>
    var pendingReplay: set<ProjectName>
    var lastReset: Instant
    var lastTripped: Instant

    /** Every call answered so far. */
    ghost var history: History

    ghost function BreakerFields(): Breaker
      reads this
    {
      Breaker(state, openSince, openReason, lastTripped, lastReset)
    }

    /** Every field is what the history says. */
    ghost predicate Valid()
      reads this
      ensures Valid() ==> cfg.Resolved()
    {
      cfg.Resolved() && Agrees()
    }

    ghost predicate Agrees()
      requires cfg.Resolved()
      reads this
    {
      && WellFormed(cfg, history)
      && WindowAgrees(cfg, history, rapidFails)
      && BreakerAgrees(cfg, history, BreakerFields())
      && RecordsAgree(cfg, history, projects)
      && pendingReplay == Pending(history)
    }

    constructor (raw: Config)
      ensures Valid() && history == [] && cfg == WithDefaults(raw)
    {
      cfg := WithDefaults(raw);
      projects, rapidFails, state, pendingReplay := map[], [], Closed, {};
      openSince, openReason, lastReset, lastTripped := Unset, None, Unset, Unset;
      history := [];
    }

    method GetOrCreateProject(project: ProjectName) returns (ps: ProjectState)
      modifies `projects
      ensures ps == Record(old(projects), project)
      ensures projects == old(projects)[project := ps]
    {
      if project !in projects {
        projects := projects[project := ZERO_PROJECT];
      }
      ps := projects[project];
    }

    method TrimWindow(now: Time)
      modifies `rapidFails
      ensures rapidFails == DropBefore(old(rapidFails), now - cfg.rapidFailWindow)
    {
      var cutoff := now - cfg.rapidFailWindow;
      var i := 0;
      while i < |rapidFails| && rapidFails[i] < cutoff
        invariant 0 <= i <= |rapidFails|
        invariant DropBefore(rapidFails[i..], cutoff) == DropBefore(rapidFails, cutoff)
      {
        assert rapidFails[i..][1..] == rapidFails[i + 1..];
        i := i + 1;
      }
      if i > 0 {
        rapidFails := rapidFails[i..];
      }
    }

    method MaybeTrip(now: Time)
      modifies `state, `openSince, `openReason, `lastTripped
      ensures if old(state).Closed? && |rapidFails| >= cfg.rapidFailThreshold
              then state.Open? && openSince == lastTripped == At(now) && openReason == Some(|rapidFails|)
              else unchanged(this)
    {
      if state.Open? {
        return;
      }
      if |rapidFails| >= cfg.rapidFailThreshold {
        state := Open;
        openSince := At(now);
        openReason := Some(|rapidFails|);
        lastTripped := At(now);
      }
    }

    method Report(now: Time, draw: real, project: ProjectName, outcome: Outcome, exitCode: int)
      requires Valid() && NotBefore(history, now) && IsDraw(draw)
      modifies this
      ensures Valid()
      ensures history == old(history) + [Reported(now, project, outcome, draw, exitCode)]
    {
      ghost var h0, projects0, e := history, projects, Reported(now, project, outcome, draw, exitCode);
      Appended(h0, e);
      ReportedRecord(cfg, h0, e);
      var ps := GetOrCreateProject(project);
      ps := ps.(lastExitCode := exitCode, lastReportAt := At(now));
      match outcome {
        case Success =>
          ps := ps.(consecutiveFailures := 0, nextAllowedAt := Unset);
          BreakerKept(cfg, h0, e);
          WindowKept(cfg, h0, rapidFails, e);
        case RapidFail =>
          ps := ps.(consecutiveFailures := ps.consecutiveFailures + 1);
          ps := ps.(nextAllowedAt := At(now + ComputeBackoff(cfg, ps.consecutiveFailures, draw)));
          FeedWindow(now, e);
        case SlowFail =>
          ps := ps.(consecutiveFailures := ps.consecutiveFailures + 1);
          ps := ps.(nextAllowedAt := At(now + ComputeBackoff(cfg, ps.consecutiveFailures, draw)));
          BreakerKept(cfg, h0, e);
          WindowKept(cfg, h0, rapidFails, e);
      }
      projects := projects[project := ps];
      assert projects == projects0[project := ps];
      RecordsStep(cfg, h0, projects0, e, project, ps);
      history := h0 + [e];
    }

    /** The rapid-failure branch of Report: append, trim, maybe trip. */
    method FeedWindow(now: Time, ghost e: Event)
      requires cfg.Resolved() && WellFormed(cfg, history) && NotBefore(history, now)
      requires WindowAgrees(cfg, history, rapidFails) && BreakerAgrees(cfg, history, BreakerFields())
      requires e.Reported? && e.outcome.RapidFail? && e.now == now
      modifies `rapidFails, `state, `openSince, `openReason, `lastTripped
      ensures WindowAgrees(cfg, history + [e], rapidFails) && BreakerAgrees(cfg, history + [e], BreakerFields())
    {
      RapidStep(cfg, history, rapidFails, BreakerFields(), e);
      rapidFails := rapidFails + [now];
      TrimWindow(now);
      MaybeTrip(now);
    }

    /** The three results of `AllowDispatch` are the three cases of the verdict. */
    method AllowDispatch(now: Time, project: ProjectName, source: Source) returns (verdict: Verdict)
      requires Valid() && NotBefore(history, now)
      modifies this
      ensures Valid()
      ensures verdict == VerdictOf(cfg, old(history), project, source, now)
      ensures history == old(history) + [Asked(now, project, source, verdict.Allowed?)]
    {
      ghost var h0, projects0 := history, projects;
      FieldsDecide(cfg, h0, BreakerFields(), projects, project, source, now);
      var ps := GetOrCreateProject(project);
      verdict := Decide(ps, now, project, source);
      ghost var e := Asked(now, project, source, verdict.Allowed?);
      AskedStep(cfg, h0, rapidFails, BreakerFields(), projects0, e);
      assert projects == projects0[project := ps.(manualPending := false)];
      history := h0 + [e];
    }

    /** The three checks, in order; a bypass flag is used up, and whoever is let through waits no longer. */
    method Decide(ps: ProjectState, now: Time, project: ProjectName, source: Source) returns (verdict: Verdict)
      requires project in projects && projects[project] == ps
      modifies `projects, `pendingReplay
      ensures verdict == if ps.manualPending then Allowed
                         else if source != Manual && state.Open? then BreakerDenied
                         else if ps.nextAllowedAt.At? && now < ps.nextAllowedAt.t
                         then BackoffDenied(ps.nextAllowedAt.t - now)
                         else Allowed
      ensures projects == old(projects)[project := ps.(manualPending := false)]
      ensures pendingReplay == if verdict.Allowed? then old(pendingReplay) - {project} else old(pendingReplay)
    {
      if ps.manualPending {
        projects := projects[project := ps.(manualPending := false)];
        pendingReplay := pendingReplay - {project};
        return Allowed;
      }
      assert ps.(manualPending := false) == ps;
      if source != Manual && state.Open? {
        return BreakerDenied;
      }
      if ps.nextAllowedAt.At? && now < ps.nextAllowedAt.t {
        return BackoffDenied(ps.nextAllowedAt.t - now);
      }
      pendingReplay := pendingReplay - {project};
      return Allowed;
    }

    method MarkManual(project: ProjectName)
      requires Valid()
      modifies this
      ensures Valid()
      ensures history == old(history) + [Marked(project)]
    {
      ghost var h0, projects0, e := history, projects, Marked(project);
      var ps := GetOrCreateProject(project);
      projects := projects[project := ps.(manualPending := true)];
      MarkedStep(cfg, h0, rapidFails, BreakerFields(), projects0, e);
      assert projects == projects0[project := ps.(manualPending := true)];
      history := h0 + [e];
    }

    method EnqueueWebhookReplay(project: ProjectName) returns (r: EnqueueResult)
      requires Valid()
      modifies this
      ensures Valid()
      ensures r.Queued? <==> CanEnqueue(cfg, old(history), project)
      ensures history == old(history) + [Enqueued(project, r.Queued?)]
    {
      if project in pendingReplay {
        r := Queued;
      } else if |pendingReplay| >= cfg.replayQueueCap {
        r := ReplayQueueFull;
      } else {
        pendingReplay := pendingReplay + {project};
        r := Queued;
      }
      ghost var e := Enqueued(project, r.Queued?);
      EnqueuedStep(cfg, history, rapidFails, BreakerFields(), projects, e);
      history := history + [e];
    }

    /** Copies the replay set out in whatever order the map yields it. */
    method DrainReplay() returns (replayed: seq<ProjectName>)
      ensures multiset(replayed) == multiset(pendingReplay)
    {
      replayed := [];
      var todo := pendingReplay;
      while todo != {}
        invariant todo <= pendingReplay
        invariant multiset(replayed) + multiset(todo) == multiset(pendingReplay)
        decreases todo
      {
        var p :| p in todo;
        replayed := replayed + [p];
        todo := todo - {p};
      }
    }

    method CountBackoffs() returns (cleared: nat)
      ensures cleared == |set p | p in projects && projects[p].consecutiveFailures > 0|
    {
      cleared := 0;
      var todo := projects.Keys;
      while todo != {}
        invariant todo <= projects.Keys
        invariant cleared == |set p | p in projects.Keys - todo && projects[p].consecutiveFailures > 0|
        decreases todo
      {
        var p :| p in todo;
        ghost var seen := set q | q in projects.Keys - todo && projects[q].consecutiveFailures > 0;
        ghost var next := set q | q in projects.Keys - (todo - {p}) && projects[q].consecutiveFailures > 0;
        if projects[p].consecutiveFailures > 0 {
          cleared := cleared + 1;
          assert next == seen + {p};
        } else {
          assert next == seen;
        }
        todo := todo - {p};
      }
      assert projects.Keys - todo == projects.Keys;
      assert (set p | p in projects && projects[p].consecutiveFailures > 0)
          == (set p | p in projects.Keys - todo && projects[p].consecutiveFailures > 0);
    }

    method Reset(now: Time) returns (summary: ResetSummary)
      requires Valid() && NotBefore(history, now)
      modifies this
      ensures Valid()
      ensures history == old(history) + [WasReset(now)]
      ensures summary.previousState.Open? <==> BreakerOpen(cfg, old(history))
      ensures multiset(summary.replayedProjects) == multiset(Pending(old(history)))
      ensures summary.clearedBackoffs == |set p | p in Touched(old(history)) && Failures(old(history), p) > 0|
    {
      ghost var h0, e := history, WasReset(now);
      var replayed := DrainReplay();
      var cleared := CountBackoffs();
      FailingProjects(cfg, h0, projects);
      summary := ResetSummary(state, replayed, cleared);
      state, openSince, openReason := Closed, Unset, None;
      rapidFails, pendingReplay, projects := [], {}, map[];
      lastReset := At(now);
      Appended(h0, e);
      FreshlyReset(cfg, h0, e);
      history := h0 + [e];
    }

    method TakeSnapshot(now: Time) returns (snap: Snapshot)
      requires Valid() && NotBefore(history, now)
      modifies this
      ensures Valid()
      ensures history == old(history) + [Snapped(now)]
      ensures Shows(cfg, old(history), now, snap)
    {
      ghost var h0, cutoff, e := history, now - cfg.rapidFailWindow, Snapped(now);
      RapidTimesSorted(cfg, h0);
      WindowAt(cfg, h0, rapidFails, now);
      DropIsWindow(RapidTimes(h0), rapidFails, cutoff);
      TrimWindow(now);
      WindowCounts(RapidTimes(h0), rapidFails, cutoff);
      var copied := CopyProjects();
      snap := Snapshot(state, openSince, openReason, |rapidFails|, cfg.rapidFailWindow / SECOND, |pendingReplay|,
                       lastReset, lastTripped, copied);
      Appended(h0, e);
      BreakerKept(cfg, h0, e);
      ClockStep(h0, e);
      RecordsKept(cfg, h0, projects, e);
      history := h0 + [e];
    }

    method CopyProjects() returns (copied: map<ProjectName, ProjectState>)
      ensures copied == projects
    {
      copied := map[];
      var todo := projects.Keys;
      while todo != {}
        invariant todo <= projects.Keys
        invariant copied.Keys == projects.Keys - todo
        invariant forall p :: p in copied ==> copied[p] == projects[p]
        decreases todo
      {
        var p :| p in todo;
        copied := copied[p := projects[p]];
        todo := todo - {p};
      }
    }
  }

  lemma FailingProjects(cfg: Config, h: History, projects: map<ProjectName, ProjectState>)
    requires RecordsAgree(cfg, h, projects)
    ensures (set p | p in projects && projects[p].consecutiveFailures > 0)
         == (set p | p in Touched(h) && Failures(h, p) > 0)
  {
    forall p | p in projects
      ensures projects[p].consecutiveFailures == Failures(h, p)
    {
      assert Record(projects, p) == RecordOf(cfg, h, p);
    }
  }

  lemma FreshlyReset(cfg: Config, h: History, e: Event)
    requires cfg.Resolved() && e.WasReset?
    ensures WindowAgrees(cfg, h + [e], [])
    ensures BreakerAgrees(cfg, h + [e], Breaker(Closed, Unset, None, TrippedAt(cfg, h, false), At(e.now)))
    ensures RecordsAgree(cfg, h + [e], map[])
    ensures Pending(h + [e]) == {}
  {
    Appended(h, e);
  }
}
