/**
 The vocabulary of the resilience manager and its meaning over whole histories.

 Nothing here mentions the fields the manager keeps.  Every notion (is the breaker open, which
 webhooks are pending, how many failures in a row) is read off the complete, never trimmed sequence
 of calls the manager has answered.
 */
module ResilienceSpec {
  import opened Wrappers

  /** Nanoseconds, for both instants and durations. */
  type Time = int

  /** Project names are only ever compared. */
  type ProjectName(==, !new)

  datatype BreakerState = Closed | Open
  datatype Source = Cron | Webhook | Manual
  datatype Outcome = Success | RapidFail | SlowFail

  /** An instant; `Unset` is Go's zero time. */
  datatype Instant = Unset | At(t: Time)

  datatype Config = Config(
    failureMinRuntime: Time,
    backoffBase: Time,
    backoffMax: Time,
    rapidFailWindow: Time,
    rapidFailThreshold: int,
    replayQueueCap: int)
  {
    predicate Resolved() {
      && failureMinRuntime > 0 && backoffBase > 0 && backoffMax > 0
      && rapidFailWindow > 0 && rapidFailThreshold > 0 && replayQueueCap > 0
    }
  }

  const SECOND: Time := 1_000_000_000

  function WithDefaults(c: Config): (r: Config)
    ensures r.Resolved()
    ensures c.failureMinRuntime > 0 ==> r.failureMinRuntime == c.failureMinRuntime
    ensures c.backoffBase > 0 ==> r.backoffBase == c.backoffBase
    ensures c.backoffMax > 0 ==> r.backoffMax == c.backoffMax
    ensures c.rapidFailWindow > 0 ==> r.rapidFailWindow == c.rapidFailWindow
    ensures c.rapidFailThreshold > 0 ==> r.rapidFailThreshold == c.rapidFailThreshold
    ensures c.replayQueueCap > 0 ==> r.replayQueueCap == c.replayQueueCap
  {
    Config(
      if c.failureMinRuntime <= 0 then 30 * SECOND else c.failureMinRuntime,
      if c.backoffBase <= 0 then 30 * SECOND else c.backoffBase,
      if c.backoffMax <= 0 then 1800 * SECOND else c.backoffMax,
      if c.rapidFailWindow <= 0 then 300 * SECOND else c.rapidFailWindow,
      if c.rapidFailThreshold <= 0 then 10 else c.rapidFailThreshold,
      if c.replayQueueCap <= 0 then 10000 else c.replayQueueCap)
  }

  // ---------- Back-off delay ----------

  function Pow2(n: nat): (r: nat)
    ensures r >= 1
  {
    if n == 0 then 1 else 2 * Pow2(n - 1)
  }

  /** Doubling from the base, capped. */
  function RawDelay(cfg: Config, failures: nat): Time
    requires failures > 0
  {
    var raw := cfg.backoffBase * Pow2(failures - 1);
    if raw > cfg.backoffMax then cfg.backoffMax else raw
  }

  predicate IsDraw(draw: real) { 0.0 <= draw < 1.0 }

  function Jittered(x: real, draw: real): real { x * (0.8 + draw * 0.4) }

  /** The raw delay, jittered by one uniform draw and cut to whole nanoseconds. */
  function ComputeBackoff(cfg: Config, failures: nat, draw: real): Time {
    if failures == 0 then 0 else Jittered(RawDelay(cfg, failures) as real, draw).Floor
  }

  // ---------- Histories ----------

  datatype Event =
    | Reported(now: Time, project: ProjectName, outcome: Outcome, draw: real, exitCode: int)
    | Asked(now: Time, project: ProjectName, source: Source, allowed: bool)
    | Marked(project: ProjectName)
    | Enqueued(project: ProjectName, accepted: bool)
    | WasReset(now: Time)
    | Snapped(now: Time)
  {
    predicate Timed() { !Marked? && !Enqueued? }
  }

  type History = seq<Event>

  function Last(h: History): Event
    requires h != []
  {
    h[|h| - 1]
  }

  function Before(h: History): History
    requires h != []
  {
    h[..|h| - 1]
  }

  /** The latest clock reading. */
  ghost function LastReading(h: History): Instant {
    if h == [] then Unset
    else if Last(h).Timed() then At(Last(h).now)
    else LastReading(Before(h))
  }

  ghost predicate NotBefore(h: History, now: Time) {
    LastReading(h).Unset? || LastReading(h).t <= now
  }

  // ---------- The breaker ----------

  /** Times of every rapid failure since the last reset, oldest first, none forgotten. */
  ghost function RapidTimes(h: History): seq<Time> {
    if h == [] then []
    else match Last(h)
      case WasReset(_) => []
      case Reported(now, _, RapidFail, _, _) => RapidTimes(Before(h)) + [now]
      case _ => RapidTimes(Before(h))
  }

  /** The k consecutive times starting at index i span at most w. */
  ghost predicate Burst(ts: seq<Time>, i: nat, k: nat, w: Time) {
    0 < k && i + k <= |ts| && ts[i + k - 1] - ts[i] <= w
  }

  ghost predicate HasBurst(ts: seq<Time>, k: nat, w: Time) {
    exists i: nat :: Burst(ts, i, k, w)
  }

  ghost predicate BreakerOpen(cfg: Config, h: History)
    requires cfg.Resolved()
  {
    HasBurst(RapidTimes(h), cfg.rapidFailThreshold, cfg.rapidFailWindow)
  }

  /** How many of the times are at or after the cutoff. */
  ghost function CountSince(ts: seq<Time>, cutoff: Time): nat {
    if ts == [] then 0
    else CountSince(ts[..|ts| - 1], cutoff) + if ts[|ts| - 1] >= cutoff then 1 else 0
  }

  /** When the breaker last went from closed to open; `forgetOnReset` tells the two fields apart. */
  ghost function TrippedAt(cfg: Config, h: History, forgetOnReset: bool): Instant
    requires cfg.Resolved()
  {
    if h == [] then Unset
    else if Last(h).WasReset? && forgetOnReset then Unset
    else if BreakerOpen(cfg, h) && !BreakerOpen(cfg, Before(h)) && Last(h).Reported? then At(Last(h).now)
    else TrippedAt(cfg, Before(h), forgetOnReset)
  }

  ghost function LastReset(h: History): Instant {
    if h == [] then Unset
    else if Last(h).WasReset? then At(Last(h).now)
    else LastReset(Before(h))
  }

  // ---------- One project ----------

  /** Outcomes reported for the project since the last reset, oldest first. */
  ghost function Outcomes(h: History, p: ProjectName): seq<Outcome> {
    if h == [] then []
    else match Last(h)
      case WasReset(_) => []
      case Reported(_, q, o, _, _) => if q == p then Outcomes(Before(h), p) + [o] else Outcomes(Before(h), p)
      case _ => Outcomes(Before(h), p)
  }

  /** Length of the run of failures at the end. */
  ghost function TrailingFailures(os: seq<Outcome>): nat {
    if os == [] || os[|os| - 1].Success? then 0 else 1 + TrailingFailures(os[..|os| - 1])
  }

  ghost function Failures(h: History, p: ProjectName): nat {
    TrailingFailures(Outcomes(h, p))
  }

  /** The last report for the project since the last reset. */
  ghost function LastReport(h: History, p: ProjectName): (r: Option<Event>)
    ensures r.Some? ==> r.value.Reported?
  {
    if h == [] then None
    else match Last(h)
      case WasReset(_) => None
      case Reported(_, q, _, _, _) => if q == p then Some(Last(h)) else LastReport(Before(h), p)
      case _ => LastReport(Before(h), p)
  }

  ghost function NextAllowed(cfg: Config, h: History, p: ProjectName): Instant {
    match LastReport(h, p)
    case None => Unset
    case Some(e) =>
      if e.outcome.Success? then Unset
      else At(e.now + ComputeBackoff(cfg, Failures(h, p), e.draw))
  }

  /** A MarkManual that no later AllowDispatch for the project, and no later reset, has used up. */
  ghost predicate Armed(h: History, p: ProjectName) {
    h != [] &&
    match Last(h)
      case WasReset(_) => false
      case Marked(q) => q == p || Armed(Before(h), p)
      case Asked(_, q, _, _) => q != p && Armed(Before(h), p)
      case _ => Armed(Before(h), p)
  }

  /** Projects the manager has a record for. */
  ghost function Touched(h: History): set<ProjectName> {
    if h == [] then {}
    else match Last(h)
      case WasReset(_) => {}
      case Reported(_, p, _, _, _) => Touched(Before(h)) + {p}
      case Asked(_, p, _, _) => Touched(Before(h)) + {p}
      case Marked(p) => Touched(Before(h)) + {p}
      case _ => Touched(Before(h))
  }

  // ---------- Webhook replay ----------

  /** Accepted webhooks that no allowed dispatch and no reset has taken out since. */
  ghost function Pending(h: History): set<ProjectName> {
    if h == [] then {}
    else match Last(h)
      case WasReset(_) => {}
      case Enqueued(p, accepted) => if accepted then Pending(Before(h)) + {p} else Pending(Before(h))
      case Asked(_, p, _, allowed) => if allowed then Pending(Before(h)) - {p} else Pending(Before(h))
      case _ => Pending(Before(h))
  }

  ghost predicate CanEnqueue(cfg: Config, h: History, p: ProjectName) {
    p in Pending(h) || |Pending(h)| < cfg.replayQueueCap
  }

  // ---------- Dispatch answers ----------

  datatype Verdict = Allowed | BreakerDenied | BackoffDenied(retryAfter: Time)

  ghost function VerdictOf(cfg: Config, h: History, p: ProjectName, source: Source, now: Time): Verdict
    requires cfg.Resolved()
  {
    if Armed(h, p) then Allowed
    else if source != Manual && BreakerOpen(cfg, h) then BreakerDenied
    else match NextAllowed(cfg, h, p)
      case Unset => Allowed
      case At(t) => if now < t then BackoffDenied(t - now) else Allowed
  }

  /** The histories a manager can have: a clock that never runs back, and the answers it must give. */
  ghost predicate WellFormed(cfg: Config, h: History)
    requires cfg.Resolved()
  {
    h == [] || (WellFormed(cfg, Before(h)) && Follows(cfg, Before(h), Last(h)))
  }

  ghost predicate Follows(cfg: Config, h: History, e: Event)
    requires cfg.Resolved()
  {
    && (e.Timed() ==> NotBefore(h, e.now))
    && match e
       case Reported(_, _, _, draw, _) => IsDraw(draw)
       case Asked(now, p, source, allowed) => allowed == VerdictOf(cfg, h, p, source, now).Allowed?
       case Enqueued(p, accepted) => accepted == CanEnqueue(cfg, h, p)
       case _ => true
  }
}
