/** What holds of every history a resilience manager can have. */
module ResilienceTheorems {
  import opened Wrappers
  import opened ResilienceSpec
  import opened Resilience

  // ---------- Back-off delays ----------

  /** The delay is [0.8, 1.2) times the doubled and capped base, up to the cut to whole nanoseconds. */
  lemma BackoffBounds(cfg: Config, n: nat, draw: real)
    requires cfg.Resolved() && n > 0 && IsDraw(draw)
    ensures var raw := RawDelay(cfg, n) as real; var d := ComputeBackoff(cfg, n, draw) as real;
            0.8 * raw - 1.0 < d < 1.2 * raw && 0.0 <= d
    ensures 0 < RawDelay(cfg, n) <= cfg.backoffMax
    ensures RawDelay(cfg, n) == cfg.backoffBase * Pow2(n - 1) || RawDelay(cfg, n) == cfg.backoffMax
  {
    Product(cfg.backoffBase, Pow2(n - 1));
    Scaled(RawDelay(cfg, n) as real, draw);
  }

  function Min(a: int, b: int): int {
    if a < b then a else b
  }

  /** The raw delay starts at the base and doubles with every failure, up to the maximum. */
  lemma RawDelayDoubles(cfg: Config, n: nat)
    requires cfg.Resolved() && n > 0
    ensures RawDelay(cfg, 1) == Min(cfg.backoffBase, cfg.backoffMax)
    ensures RawDelay(cfg, n + 1) == Min(2 * RawDelay(cfg, n), cfg.backoffMax)
  {
    assert Pow2(0) == 1 && Pow2(n) == 2 * Pow2(n - 1);
    assert cfg.backoffBase * Pow2(n) == 2 * (cfg.backoffBase * Pow2(n - 1));
  }

  /** After its first failure a project waits for the configured base delay, jittered and capped. */
  lemma FirstFailureWaits(cfg: Config, h: History, e: Event)
    requires cfg.Resolved() && e.Reported? && IsDraw(e.draw) && !e.outcome.Success? && Failures(h, e.project) == 0
    ensures var next := NextAllowed(cfg, h + [e], e.project);
            var base := Min(cfg.backoffBase, cfg.backoffMax) as real;
            next.At? && 0.8 * base - 1.0 < (next.t - e.now) as real < 1.2 * base
  {
    ReportedRecord(cfg, h, e);
    RawDelayDoubles(cfg, 1);
    BackoffBounds(cfg, 1, e.draw);
  }

  /** The settings of a configuration that sets nothing, in nanoseconds. */
  lemma Defaults()
    ensures WithDefaults(Config(0, 0, 0, 0, 0, 0))
         == Config(30_000_000_000, 30_000_000_000, 1_800_000_000_000, 300_000_000_000, 10, 10_000)
  {
  }

  lemma Product(a: int, b: int)
    requires a >= 1 && b >= 1
    ensures a * b >= 1
  {
  }

  lemma Scaled(x: real, draw: real)
    requires x > 0.0 && IsDraw(draw)
    ensures 0.8 * x <= Jittered(x, draw) < 1.2 * x
  {
    var s := draw * 0.4;
    assert 0.0 <= s < 0.4;
    assert x * s >= 0.0;
    assert x * (0.4 - s) > 0.0;
  }

  /** The delays a raw delay can be jittered to, in whole nanoseconds. */
  function Shortest(raw: Time): Time { 4 * raw / 5 }

  function Longest(raw: Time): Time { (6 * raw + 4) / 5 - 1 }

  lemma DelayInRange(cfg: Config, n: nat, draw: real)
    requires cfg.Resolved() && n > 0 && IsDraw(draw)
    ensures Shortest(RawDelay(cfg, n)) <= ComputeBackoff(cfg, n, draw) <= Longest(RawDelay(cfg, n))
  {
    BackoffBounds(cfg, n, draw);
    Scaled(RawDelay(cfg, n) as real, draw);
  }

  /** Both ends of the range are met, the lower one by the draw 0. */
  lemma RangeIsMet(cfg: Config, n: nat) returns (high: real)
    requires cfg.Resolved() && n > 0
    ensures ComputeBackoff(cfg, n, 0.0) == Shortest(RawDelay(cfg, n))
    ensures IsDraw(high) && ComputeBackoff(cfg, n, high) == Longest(RawDelay(cfg, n))
  {
    BackoffBounds(cfg, n, 0.0);
    var raw := RawDelay(cfg, n);
    assert Jittered(raw as real, 0.0) == 0.8 * raw as real;
    high := DrawFor(raw as real, Longest(raw) as real);
  }

  /** The draw that jitters x to y. */
  lemma DrawFor(x: real, y: real) returns (draw: real)
    requires x > 0.0 && 0.8 * x <= y < 1.2 * x
    ensures IsDraw(draw) && Jittered(x, draw) == y
  {
    var q := y / x;
    assert q * x == y;
    assert 0.8 <= q < 1.2 by {
      assert q < 0.8 ==> q * x < 0.8 * x;
      assert q >= 1.2 ==> q * x >= 1.2 * x;
    }
    draw := (q - 0.8) / 0.4;
  }

  /** Whatever the two draws, one more failure means a longer delay. */
  ghost predicate Grows(cfg: Config, n: nat)
    requires n > 0
  {
    forall a, b | IsDraw(a) && IsDraw(b) :: ComputeBackoff(cfg, n, a) < ComputeBackoff(cfg, n + 1, b)
  }

  /** The delays grow whatever the jitter exactly when the range of one ends below the range of the next. */
  lemma DelaysGrow(cfg: Config, n: nat)
    requires cfg.Resolved() && n > 0
    ensures Grows(cfg, n) <==> Longest(RawDelay(cfg, n)) < Shortest(RawDelay(cfg, n + 1))
  {
    forall a, b | IsDraw(a) && IsDraw(b)
      ensures Longest(RawDelay(cfg, n)) < Shortest(RawDelay(cfg, n + 1)) ==>
                ComputeBackoff(cfg, n, a) < ComputeBackoff(cfg, n + 1, b)
    {
      DelayInRange(cfg, n, a);
      DelayInRange(cfg, n + 1, b);
    }
    var high := RangeIsMet(cfg, n);
    var _ := RangeIsMet(cfg, n + 1);
    assert IsDraw(0.0);
  }

  /** While doubling stays below the cap, that is when the smaller raw delay is over 1 ns. */
  lemma DelaysGrowBelowCap(cfg: Config, n: nat)
    requires cfg.Resolved() && n > 0 && cfg.backoffBase * Pow2(n) <= cfg.backoffMax
    ensures Grows(cfg, n) <==> RawDelay(cfg, n) >= 2
  {
    Doubles(cfg, n);
    BackoffBounds(cfg, n, 0.0);
    DelaysGrow(cfg, n);
  }

  /** Once at the cap, every further delay can be shorter than the one before. */
  lemma DelaysCanFallAtCap(cfg: Config, n: nat) returns (a: real, b: real)
    requires cfg.Resolved() && n > 0 && cfg.backoffBase * Pow2(n - 1) >= cfg.backoffMax
    ensures IsDraw(a) && IsDraw(b) && ComputeBackoff(cfg, n, a) > ComputeBackoff(cfg, n + 1, b)
  {
    var raw := cfg.backoffBase * Pow2(n - 1);
    assert cfg.backoffBase * Pow2(n) == 2 * raw by {
      assert Pow2(n) == 2 * Pow2(n - 1);
    }
    a := RangeIsMet(cfg, n);
    b := 0.0;
    var _ := RangeIsMet(cfg, n + 1);
  }

  lemma Doubles(cfg: Config, n: nat)
    requires cfg.Resolved() && n > 0 && cfg.backoffBase * Pow2(n) <= cfg.backoffMax
    ensures RawDelay(cfg, n + 1) == 2 * RawDelay(cfg, n)
  {
    assert cfg.backoffBase * Pow2(n) == 2 * (cfg.backoffBase * Pow2(n - 1)) by {
      assert Pow2(n) == 2 * Pow2(n - 1);
    }
    Product(cfg.backoffBase, Pow2(n - 1));
  }

  /** The failure count is the length of the run of failures after the last success or reset. */
  lemma {:induction false} FailuresAreTrailingRun(os: seq<Outcome>)
    ensures var n := TrailingFailures(os);
            && n <= |os|
            && (forall i :: |os| - n <= i < |os| ==> !os[i].Success?)
            && (n < |os| ==> os[|os| - n - 1].Success?)
  {
    if os != [] && !os[|os| - 1].Success? {
      FailuresAreTrailingRun(os[..|os| - 1]);
    }
  }

  lemma {:induction false} LastReportWasEarlier(cfg: Config, h: History, p: ProjectName)
    requires cfg.Resolved() && WellFormed(cfg, h)
    ensures var r := LastReport(h, p);
            r.Some? ==> IsDraw(r.value.draw) && LastReading(h).At? && r.value.now <= LastReading(h).t
    ensures var r := LastReport(h, p); var os := Outcomes(h, p);
            if r.Some? then os != [] && os[|os| - 1] == r.value.outcome else os == []
  {
    if h != [] {
      LastReportWasEarlier(cfg, Before(h), p);
    }
  }

  /** However a project got there, it never waits 1.2 times the maximum or more. */
  lemma RemainingBounded(cfg: Config, h: History, p: ProjectName, now: Time)
    requires cfg.Resolved() && WellFormed(cfg, h) && NotBefore(h, now) && NextAllowed(cfg, h, p).At?
    ensures (NextAllowed(cfg, h, p).t - now) as real < 1.2 * cfg.backoffMax as real
    ensures Failures(h, p) > 0
  {
    LastReportWasEarlier(cfg, h, p);
    var e := LastReport(h, p).value;
    BackoffBounds(cfg, Failures(h, p), e.draw);
  }

  /** Calls that concern neither the project's back-off nor everything. */
  ghost predicate Unrelated(t: History, p: ProjectName) {
    forall i :: 0 <= i < |t| ==> !t[i].WasReset? && !(t[i].Reported? && t[i].project == p) && t[i] != Marked(p)
  }

  lemma {:induction false} BackoffKept(cfg: Config, h: History, t: History, p: ProjectName)
    requires Unrelated(t, p) && !Armed(h, p)
    ensures NextAllowed(cfg, h + t, p) == NextAllowed(cfg, h, p) && !Armed(h + t, p)
    decreases |t|
  {
    if t == [] {
      assert h + t == h;
    } else {
      BackoffKept(cfg, h, Before(t), p);
      assert h + t == (h + Before(t)) + [Last(t)];
      assert Last(t) == t[|t| - 1];
      OtherEvent(cfg, h + Before(t), Last(t), p);
    }
  }

  lemma OtherEvent(cfg: Config, h: History, e: Event, p: ProjectName)
    requires !e.WasReset? && !(e.Reported? && e.project == p) && e != Marked(p) && !Armed(h, p)
    ensures NextAllowed(cfg, h + [e], p) == NextAllowed(cfg, h, p) && !Armed(h + [e], p)
  {
    Appended(h, e);
  }

  /**
   `retryAfter` is the first moment at which back-off stops denying.  Whatever else happens, short of a
   reset and of a report or a mark for the project itself: asked again, an open breaker denies, and
   otherwise back-off denies exactly before that moment, with the time that is left.
   */
  lemma RetryAfterIsExact(cfg: Config, h: History, p: ProjectName, source: Source, now: Time, between: History, t: Time)
    requires cfg.Resolved() && VerdictOf(cfg, h, p, source, now).BackoffDenied? && Unrelated(between, p)
    ensures var r := VerdictOf(cfg, h, p, source, now).retryAfter;
            var again := h + [Asked(now, p, source, false)] + between;
            && r > 0
            && VerdictOf(cfg, again, p, source, t)
            == if source != Manual && BreakerOpen(cfg, again) then BreakerDenied
               else if t < now + r then BackoffDenied(now + r - t)
               else Allowed
  {
    OtherEvent(cfg, h, Asked(now, p, source, false), p);
    BackoffKept(cfg, h + [Asked(now, p, source, false)], between, p);
  }

  // ---------- The breaker ----------

  predicate HasReset(t: History) {
    exists i :: 0 <= i < |t| && t[i].WasReset?
  }

  /** Whatever happens, an open breaker stays open until a reset. */
  lemma {:induction false} OnlyResetCloses(cfg: Config, h: History, t: History)
    requires cfg.Resolved() && BreakerOpen(cfg, h) && !HasReset(t)
    ensures BreakerOpen(cfg, h + t)
    decreases |t|
  {
    if t == [] {
      assert h + t == h;
    } else {
      var e := Last(t);
      OnlyResetCloses(cfg, h, Before(t));
      assert h + t == (h + Before(t)) + [e];
      if FeedsBreaker(e) {
        BreakerRapid(cfg, h + Before(t), e);
      } else {
        BreakerKept(cfg, h + Before(t), e);
      }
    }
  }

  /** The breaker opens only on a rapid failure that completes a burst ending at that very moment. */
  lemma OpensOnlyOnRapidFailure(cfg: Config, h: History, e: Event)
    requires cfg.Resolved() && !BreakerOpen(cfg, h) && BreakerOpen(cfg, h + [e])
    ensures e.Reported? && e.outcome.RapidFail?
    ensures var ts := RapidTimes(h) + [e.now];
            |ts| >= cfg.rapidFailThreshold && e.now - ts[|ts| - cfg.rapidFailThreshold] <= cfg.rapidFailWindow
  {
    if FeedsBreaker(e) {
      if e.WasReset? {
        FreshlyReset(cfg, h, e);
        assert false;
      }
      BreakerRapid(cfg, h, e);
      BurstStep(RapidTimes(h), e.now, cfg.rapidFailThreshold, cfg.rapidFailWindow);
    } else {
      BreakerKept(cfg, h, e);
      assert false;
    }
  }

  // ---------- What answers depend on ----------

  ghost predicate SameProject(h: History, g: History, p: ProjectName) {
    && Outcomes(h, p) == Outcomes(g, p)
    && LastReport(h, p) == LastReport(g, p)
    && (Armed(h, p) <==> Armed(g, p))
  }

  /** Two histories no later answer can tell apart. */
  ghost predicate SameMeaning(cfg: Config, h: History, g: History)
    requires cfg.Resolved()
  {
    && RapidTimes(h) == RapidTimes(g)
    && TrippedAt(cfg, h, true) == TrippedAt(cfg, g, true)
    && Pending(h) == Pending(g)
    && forall p :: SameProject(h, g, p)
  }

  ghost function FailingSet(h: History): set<ProjectName> {
    set p | p in Touched(h) && Failures(h, p) > 0
  }

  /** The same dispatch answers, enqueue answers and reset summary. */
  ghost predicate SameAnswers(cfg: Config, h: History, g: History)
    requires cfg.Resolved()
  {
    && (forall p, source, now :: VerdictOf(cfg, h, p, source, now) == VerdictOf(cfg, g, p, source, now))
    && (forall p :: CanEnqueue(cfg, h, p) <==> CanEnqueue(cfg, g, p))
    && (BreakerOpen(cfg, h) <==> BreakerOpen(cfg, g))
    && Pending(h) == Pending(g)
    && FailingSet(h) == FailingSet(g)
  }

  lemma MeaningDecides(cfg: Config, h: History, g: History)
    requires cfg.Resolved() && SameMeaning(cfg, h, g)
    ensures SameAnswers(cfg, h, g)
  {
    forall p, source, now
      ensures VerdictOf(cfg, h, p, source, now) == VerdictOf(cfg, g, p, source, now)
    {
      assert SameProject(h, g, p);
    }
    forall q | Failures(h, q) > 0 || Failures(g, q) > 0
      ensures q in FailingSet(h) && q in FailingSet(g)
    {
      assert SameProject(h, g, q);
      ReportedIsTouched(h, q);
      ReportedIsTouched(g, q);
    }
  }

  lemma SameStep(cfg: Config, h: History, g: History, e: Event)
    requires cfg.Resolved() && SameMeaning(cfg, h, g)
    ensures SameMeaning(cfg, h + [e], g + [e])
  {
    Appended(h, e);
    Appended(g, e);
    forall p
      ensures SameProject(h + [e], g + [e], p)
    {
      assert SameProject(h, g, p);
    }
    if FeedsBreaker(e) {
      if e.Reported? {
        BreakerRapid(cfg, h, e);
        BreakerRapid(cfg, g, e);
      }
    } else {
      BreakerKept(cfg, h, e);
      BreakerKept(cfg, g, e);
    }
  }

  // ---------- Reset ----------

  /** Nothing before a reset is remembered (only `lastReset` and `lastTripped` are, and no answer reads them). */
  lemma {:induction false} ResetForgets(cfg: Config, h: History, now: Time, t: History)
    requires cfg.Resolved()
    ensures SameMeaning(cfg, h + [WasReset(now)] + t, t)
    decreases |t|
  {
    var r := h + [WasReset(now)];
    if t == [] {
      assert r + t == r;
      Appended(h, WasReset(now));
      forall p
        ensures SameProject(r, [], p)
      {
      }
    } else {
      ResetForgets(cfg, h, now, Before(t));
      SameStep(cfg, r + Before(t), Before(t), Last(t));
      assert r + t == (r + Before(t)) + [Last(t)];
      assert t == Before(t) + [Last(t)];
    }
  }

  /** After a reset the manager answers as a new one would. */
  lemma AnswersAfterReset(cfg: Config, h: History, now: Time, t: History)
    requires cfg.Resolved()
    ensures SameAnswers(cfg, h + [WasReset(now)] + t, t)
  {
    ResetForgets(cfg, h, now, t);
    MeaningDecides(cfg, h + [WasReset(now)] + t, t);
  }

  function Or(r: Instant, other: Instant): Instant {
    if r.At? then r else other
  }

  /** No clock reading is before the instant. */
  ghost predicate NoneBefore(t: History, now: Time) {
    forall i :: 0 <= i < |t| && t[i].Timed() ==> t[i].now >= now
  }

  lemma {:induction false} ReadingsAfterReset(h: History, now: Time, t: History)
    ensures LastReading(h + [WasReset(now)] + t) == Or(LastReading(t), At(now))
    ensures NoneBefore(t, now) && LastReading(t).At? ==> LastReading(t).t >= now
    decreases |t|
  {
    var r := h + [WasReset(now)];
    if t == [] {
      assert r + t == r;
    } else {
      ReadingsAfterReset(h, now, Before(t));
      assert r + t == (r + Before(t)) + [Last(t)];
      ClockStep(r + Before(t), Last(t));
      assert Last(t) == t[|t| - 1];
    }
  }

  /** Calls and answers can follow a reset if and only if a new manager can have them from then on. */
  lemma {:induction false} PossibleAfterReset(cfg: Config, h: History, now: Time, t: History)
    requires cfg.Resolved() && WellFormed(cfg, h + [WasReset(now)])
    ensures WellFormed(cfg, h + [WasReset(now)] + t) <==> WellFormed(cfg, t) && NoneBefore(t, now)
    decreases |t|
  {
    var r := h + [WasReset(now)];
    if t == [] {
      assert r + t == r;
    } else {
      var b, e := Before(t), Last(t);
      PossibleAfterReset(cfg, h, now, b);
      AnswersAfterReset(cfg, h, now, b);
      ReadingsAfterReset(h, now, b);
      assert r + t == (r + b) + [e] && t == b + [e];
      PossibleMore(cfg, r + b, b, now, e);
    }
  }

  lemma PossibleMore(cfg: Config, h: History, g: History, now: Time, e: Event)
    requires cfg.Resolved() && SameAnswers(cfg, h, g) && LastReading(h) == Or(LastReading(g), At(now))
    requires NoneBefore(g, now) && LastReading(g).At? ==> LastReading(g).t >= now
    requires WellFormed(cfg, h) <==> WellFormed(cfg, g) && NoneBefore(g, now)
    ensures WellFormed(cfg, h + [e]) <==> WellFormed(cfg, g + [e]) && NoneBefore(g + [e], now)
  {
    Appended(h, e);
    Appended(g, e);
    NoneBeforeMore(g, now, e);
    if NoneBefore(g + [e], now) {
      SameFollows(cfg, h, g, e);
    }
  }

  lemma NoneBeforeMore(t: History, now: Time, e: Event)
    ensures NoneBefore(t + [e], now) <==> NoneBefore(t, now) && (e.Timed() ==> e.now >= now)
  {
    var more := t + [e];
    assert more[|t|] == e;
    assert forall i :: 0 <= i < |t| ==> more[i] == t[i];
  }

  /** Equal answers leave only the clock to tell two histories apart. */
  lemma SameFollows(cfg: Config, h: History, g: History, e: Event)
    requires cfg.Resolved() && SameAnswers(cfg, h, g)
    requires e.Timed() ==> (NotBefore(h, e.now) <==> NotBefore(g, e.now))
    ensures Follows(cfg, h, e) <==> Follows(cfg, g, e)
  {
  }

  /** What a reset does not wipe out: the records made since are all there are, and two stamps last. */
  lemma {:induction false} StampsAfterReset(cfg: Config, h: History, now: Time, t: History)
    requires cfg.Resolved()
    ensures var k := h + [WasReset(now)] + t;
            && Touched(k) == Touched(t)
            && LastReset(k) == Or(LastReset(t), At(now))
            && TrippedAt(cfg, k, false) == Or(TrippedAt(cfg, t, false), TrippedAt(cfg, h, false))
    decreases |t|
  {
    var r := h + [WasReset(now)];
    if t == [] {
      assert r + t == r;
      Appended(h, WasReset(now));
      assert RapidTimes(r) == [];
    } else {
      StampsAfterReset(cfg, h, now, Before(t));
      ResetForgets(cfg, h, now, Before(t));
      ResetForgets(cfg, h, now, t);
      assert r + t == (r + Before(t)) + [Last(t)];
      Appended(r + Before(t), Last(t));
    }
  }

  /**
   A snapshot after a reset is a new manager's snapshot in every field but `lastReset` and `lastTripped`,
   which are a new manager's too once it has been reset, or has tripped, itself.
   */
  lemma SnapshotAfterReset(cfg: Config, h: History, now: Time, t: History, at: Time, snap: Snapshot)
    requires cfg.Resolved()
    ensures Shows(cfg, h + [WasReset(now)] + t, at, snap) <==>
            && Shows(cfg, t, at, snap.(lastReset := LastReset(t), lastTripped := TrippedAt(cfg, t, false)))
            && snap.lastReset == Or(LastReset(t), At(now))
            && snap.lastTripped == Or(TrippedAt(cfg, t, false), TrippedAt(cfg, h, false))
  {
    var k := h + [WasReset(now)] + t;
    ResetForgets(cfg, h, now, t);
    StampsAfterReset(cfg, h, now, t);
    SameRecords(cfg, k, t, snap.projects);
    SameShown(cfg, k, t, at, snap);
  }

  /** Snapshots of two histories that agree but for the stamps that last. */
  lemma SameShown(cfg: Config, h: History, g: History, at: Time, snap: Snapshot)
    requires cfg.Resolved() && RapidTimes(h) == RapidTimes(g) && TrippedAt(cfg, h, true) == TrippedAt(cfg, g, true)
    requires Pending(h) == Pending(g) && (RecordsAgree(cfg, h, snap.projects) <==> RecordsAgree(cfg, g, snap.projects))
    ensures Shows(cfg, h, at, snap) <==>
            && Shows(cfg, g, at, snap.(lastReset := LastReset(g), lastTripped := TrippedAt(cfg, g, false)))
            && snap.lastReset == LastReset(h) && snap.lastTripped == TrippedAt(cfg, h, false)
  {
    var shown := snap.(lastReset := LastReset(g), lastTripped := TrippedAt(cfg, g, false));
    if Shows(cfg, h, at, snap) {
      assert Shows(cfg, g, at, shown);
    }
    if Shows(cfg, g, at, shown) && snap.lastReset == LastReset(h) && snap.lastTripped == TrippedAt(cfg, h, false) {
      assert Shows(cfg, h, at, snap);
    }
  }

  lemma SameRecords(cfg: Config, h: History, g: History, projects: map<ProjectName, ProjectState>)
    requires cfg.Resolved() && SameMeaning(cfg, h, g) && Touched(h) == Touched(g)
    ensures RecordsAgree(cfg, h, projects) <==> RecordsAgree(cfg, g, projects)
  {
    forall p
      ensures RecordOf(cfg, h, p) == RecordOf(cfg, g, p)
    {
      assert SameProject(h, g, p);
    }
  }

  // ---------- Calls that leave no trace ----------

  predicate LeavesNoTrace(e: Event) {
    e.Snapped? || (e.Asked? && !e.allowed)
  }

  /** The history without its snapshots and its denied dispatches. */
  ghost function Erase(h: History): History {
    if h == [] then []
    else if LeavesNoTrace(Last(h)) then Erase(Before(h))
    else Erase(Before(h)) + [Last(h)]
  }

  lemma TracelessStep(cfg: Config, h: History, e: Event)
    requires cfg.Resolved() && LeavesNoTrace(e) && Follows(cfg, h, e)
    ensures SameMeaning(cfg, h + [e], h)
  {
    Appended(h, e);
    BreakerKept(cfg, h, e);
    forall p
      ensures SameProject(h + [e], h, p)
    {
    }
  }

  lemma SameTrans(cfg: Config, h: History, g: History, k: History)
    requires cfg.Resolved() && SameMeaning(cfg, h, g) && SameMeaning(cfg, g, k)
    ensures SameMeaning(cfg, h, k)
  {
    forall p
      ensures SameProject(h, k, p)
    {
      assert SameProject(h, g, p) && SameProject(g, k, p);
    }
  }

  /** The second history is the first without some of its snapshots and denied dispatches. */
  ghost predicate Thinned(h: History, g: History) {
    if h == [] then g == []
    else
      || (LeavesNoTrace(Last(h)) && Thinned(Before(h), g))
      || (g != [] && Last(g) == Last(h) && Thinned(Before(h), Before(g)))
  }

  lemma {:induction false} ErasedIsThinned(h: History)
    ensures Thinned(h, Erase(h))
  {
    if h != [] {
      ErasedIsThinned(Before(h));
    }
  }

  /** Any snapshots and denied dispatches can be taken out of any history: it stays possible and means the same. */
  lemma {:induction false} ThinningIsInvisible(cfg: Config, h: History, g: History)
    requires cfg.Resolved() && WellFormed(cfg, h) && Thinned(h, g)
    ensures WellFormed(cfg, g) && SameMeaning(cfg, h, g)
    ensures LastReading(g).At? ==> LastReading(h).At? && LastReading(g).t <= LastReading(h).t
  {
    if h != [] {
      var b, e := Before(h), Last(h);
      assert h == b + [e];
      ClockStep(b, e);
      if LeavesNoTrace(e) && Thinned(b, g) {
        ThinningIsInvisible(cfg, b, g);
        TracelessStep(cfg, b, e);
        SameTrans(cfg, h, b, g);
      } else {
        ThinningIsInvisible(cfg, b, Before(g));
        assert g == Before(g) + [e];
        SameStep(cfg, b, Before(g), e);
        MeaningDecides(cfg, b, Before(g));
        ClockStep(Before(g), e);
        assert Follows(cfg, Before(g), e);
      }
    }
  }

  lemma {:induction false} ThinningKeepsStamps(cfg: Config, h: History, g: History)
    requires cfg.Resolved() && Thinned(h, g)
    ensures RapidTimes(h) == RapidTimes(g) && LastReset(h) == LastReset(g)
    ensures forall f :: TrippedAt(cfg, h, f) == TrippedAt(cfg, g, f)
  {
    if h != [] {
      var b, e := Before(h), Last(h);
      assert h == b + [e];
      if LeavesNoTrace(e) && Thinned(b, g) {
        ThinningKeepsStamps(cfg, b, g);
        BreakerKept(cfg, b, e);
      } else {
        ThinningKeepsStamps(cfg, b, Before(g));
        SameStamps(cfg, b, Before(g), e);
        assert g == Before(g) + [e];
      }
    }
  }

  lemma SameStamps(cfg: Config, h: History, g: History, e: Event)
    requires cfg.Resolved() && RapidTimes(h) == RapidTimes(g) && LastReset(h) == LastReset(g)
    requires forall f :: TrippedAt(cfg, h, f) == TrippedAt(cfg, g, f)
    ensures RapidTimes(h + [e]) == RapidTimes(g + [e]) && LastReset(h + [e]) == LastReset(g + [e])
    ensures forall f :: TrippedAt(cfg, h + [e], f) == TrippedAt(cfg, g + [e], f)
  {
    Appended(h, e);
    Appended(g, e);
  }

  /** So every later answer is the same with them and without, and so is what the breaker shows. */
  lemma AnswersWithoutTraceless(cfg: Config, h: History, g: History)
    requires cfg.Resolved() && WellFormed(cfg, h) && Thinned(h, g)
    ensures SameAnswers(cfg, h, g) && LastReset(h) == LastReset(g)
    ensures forall f :: TrippedAt(cfg, h, f) == TrippedAt(cfg, g, f)
  {
    ThinningIsInvisible(cfg, h, g);
    MeaningDecides(cfg, h, g);
    ThinningKeepsStamps(cfg, h, g);
  }

  /** In particular, all of them can go at once. */
  lemma ErasureIsInvisible(cfg: Config, h: History)
    requires cfg.Resolved() && WellFormed(cfg, h)
    ensures WellFormed(cfg, Erase(h)) && SameMeaning(cfg, h, Erase(h)) && SameAnswers(cfg, h, Erase(h))
  {
    ErasedIsThinned(h);
    ThinningIsInvisible(cfg, h, Erase(h));
    MeaningDecides(cfg, h, Erase(h));
  }

  lemma {:induction false} ReportedIsTouched(h: History, p: ProjectName)
    requires Outcomes(h, p) != []
    ensures p in Touched(h)
  {
    if !(Last(h).Reported? && Last(h).project == p) {
      ReportedIsTouched(Before(h), p);
    }
  }

  // ---------- Single-shot bypass ----------

  ghost predicate BypassGrant(h: History, i: int, p: ProjectName) {
    0 <= i < |h| && h[i].Asked? && h[i].project == p && Armed(h[..i], p)
  }

  lemma {:induction false} ArmedByMark(h: History, p: ProjectName, i: int)
    requires 0 <= i < |h| && h[i].Asked? && h[i].project == p && Armed(h, p)
    ensures exists k :: i < k < |h| && h[k] == Marked(p)
    decreases |h|
  {
    if Last(h) != Marked(p) {
      ArmedByMark(Before(h), p, i);
      var k :| i < k < |Before(h)| && Before(h)[k] == Marked(p);
      assert h[k] == Marked(p);
    }
  }

  /** One MarkManual buys one bypass: two grants for a project have a MarkManual for it in between. */
  lemma MarkBetweenBypasses(h: History, i: int, j: int, p: ProjectName)
    requires i < j && BypassGrant(h, i, p) && BypassGrant(h, j, p)
    ensures exists k :: i < k < j && h[k] == Marked(p)
  {
    ArmedByMark(h[..j], p, i);
    var k :| i < k < j && h[..j][k] == Marked(p);
    assert h[k] == Marked(p);
  }

  /** Calls that neither ask about the project nor reset the manager. */
  ghost predicate KeepsMark(t: History, p: ProjectName) {
    forall i :: 0 <= i < |t| ==> !t[i].WasReset? && !(t[i].Asked? && t[i].project == p)
  }

  /** A mark gets the project's next question through, whatever breaker and back-off say, and only that one. */
  lemma MarkBuysOneGrant(cfg: Config, h: History, t: History, p: ProjectName, source: Source, now: Time)
    requires cfg.Resolved() && KeepsMark(t, p)
    ensures VerdictOf(cfg, h + [Marked(p)] + t, p, source, now) == Allowed
    ensures !Armed(h + [Marked(p)] + t + [Asked(now, p, source, true)], p)
  {
    Appended(h, Marked(p));
    StaysArmed(h + [Marked(p)], t, p);
    Appended(h + [Marked(p)] + t, Asked(now, p, source, true));
  }

  lemma {:induction false} StaysArmed(h: History, t: History, p: ProjectName)
    requires Armed(h, p) && KeepsMark(t, p)
    ensures Armed(h + t, p)
    decreases |t|
  {
    if t == [] {
      assert h + t == h;
    } else {
      StaysArmed(h, Before(t), p);
      assert h + t == (h + Before(t)) + [Last(t)];
      assert Last(t) == t[|t| - 1];
    }
  }

  /** A call that gives the project a record. */
  predicate Mentions(e: Event, p: ProjectName) {
    (e.Reported? || e.Asked? || e.Marked?) && e.project == p
  }

  ghost predicate MentionedAt(h: History, i: int, p: ProjectName) {
    0 <= i < |h| && Mentions(h[i], p) && forall j :: i < j < |h| ==> !h[j].WasReset?
  }

  lemma MentionedMore(h: History, e: Event, i: int, p: ProjectName)
    ensures MentionedAt(h + [e], i, p) <==>
            if i == |h| then Mentions(e, p) else MentionedAt(h, i, p) && !e.WasReset?
  {
    var more := h + [e];
    assert more[|h|] == e;
    assert forall j :: 0 <= j < |h| ==> more[j] == h[j];
  }

  /** The manager has a record exactly of the projects reported, asked about or marked since the last reset. */
  lemma {:induction false} TouchedExactly(h: History, p: ProjectName)
    ensures p in Touched(h) <==> exists i :: MentionedAt(h, i, p)
  {
    if h != [] {
      var b, e := Before(h), Last(h);
      TouchedExactly(b, p);
      assert h == b + [e];
      forall i
        ensures MentionedAt(h, i, p) <==> if i == |b| then Mentions(e, p) else MentionedAt(b, i, p) && !e.WasReset?
      {
        MentionedMore(b, e, i, p);
      }
      TouchedStep(b, e, p);
      if Mentions(e, p) {
        assert MentionedAt(h, |b|, p);
      } else if p in Touched(b) && !e.WasReset? {
        var i :| MentionedAt(b, i, p);
        assert MentionedAt(h, i, p);
      }
    }
  }

  lemma TouchedStep(h: History, e: Event, p: ProjectName)
    ensures p in Touched(h + [e]) <==> Mentions(e, p) || (p in Touched(h) && !e.WasReset?)
  {
    Appended(h, e);
  }

  // ---------- Webhook replay ----------

  predicate TakesOut(e: Event, p: ProjectName) {
    e.WasReset? || (e.Asked? && e.project == p && e.allowed)
  }

  /** A pending webhook leaves only by an allowed dispatch of its project or in a reset. */
  lemma {:induction false} PendingLeavesBy(h: History, t: History, p: ProjectName)
    requires p in Pending(h) && p !in Pending(h + t)
    ensures exists k :: 0 <= k < |t| && TakesOut(t[k], p)
    decreases |t|
  {
    assert t == [] ==> h + t == h;
    if t != [] {
      assert h + t == (h + Before(t)) + [Last(t)];
      Appended(h + Before(t), Last(t));
      if p in Pending(h + Before(t)) {
        assert TakesOut(t[|t| - 1], p);
      } else {
        PendingLeavesBy(h, Before(t), p);
        var k :| 0 <= k < |Before(t)| && TakesOut(Before(t)[k], p);
        assert TakesOut(t[k], p);
      }
    }
  }

  /** The replay set never exceeds its cap, so a webhook is refused only when the set is exactly full. */
  lemma {:induction false} PendingBounded(cfg: Config, h: History)
    requires cfg.Resolved() && WellFormed(cfg, h)
    ensures |Pending(h)| <= cfg.replayQueueCap
    ensures forall p :: !CanEnqueue(cfg, h, p) ==> p !in Pending(h) && |Pending(h)| == cfg.replayQueueCap
  {
    if h != [] {
      PendingBounded(cfg, Before(h));
      match Last(h)
      case Asked(_, p, _, true) => Shrinks(Pending(Before(h)), p);
      case Enqueued(p, true) =>
        if p in Pending(Before(h)) {
          assert Pending(Before(h)) + {p} == Pending(Before(h));
        }
      case _ =>
    }
  }

  lemma Shrinks<T>(s: set<T>, x: T)
    ensures |s - {x}| <= |s|
  {
    if x in s {
      assert |s - {x}| + 1 == |s|;
    } else {
      assert s - {x} == s;
    }
  }
}
