/** The scheduler's dispatcher: one gated pass over a list of projects. */
module Dispatch {
  import opened Wrappers
  import opened ResilienceSpec
  import opened Resilience
  import opened Sequences

  /** The callback's outcome, given how many calls it has had in this pass and the project. */
  type DispatchFunc = (nat, ProjectName) -> Option<string>

  /** The first error of a list of calls, by position. */
  function FirstError(fn: DispatchFunc, calls: seq<ProjectName>): Option<string> {
    if calls == [] then None
    else
      var earlier := FirstError(fn, calls[..|calls| - 1]);
      if earlier.Some? then earlier else fn(|calls| - 1, calls[|calls| - 1])
  }

  /** An error is returned if and only if a call fails, and it is that of the first call that does. */
  lemma {:induction false} FirstErrorIsFirst(fn: DispatchFunc, calls: seq<ProjectName>)
    ensures FirstError(fn, calls).None? ==> forall i :: 0 <= i < |calls| ==> fn(i, calls[i]).None?
    ensures FirstError(fn, calls).Some? ==>
              exists i :: 0 <= i < |calls| && fn(i, calls[i]) == FirstError(fn, calls)
                          && forall j :: 0 <= j < i ==> fn(j, calls[j]).None?
  {
    if calls != [] {
      FirstErrorIsFirst(fn, calls[..|calls| - 1]);
    }
  }

  /** Clock readings, one for each project, that never run back. */
  ghost predicate Readings(h: History, readings: seq<Time>) {
    && (forall i :: 0 <= i < |readings| ==> NotBefore(h, readings[i]))
    && forall i, j :: 0 <= i < j < |readings| ==> readings[i] <= readings[j]
  }

  /** The calls to the gate in one pass, each answered in the light of the ones before it. */
  ghost function Pass(cfg: Config, h: History, projects: seq<ProjectName>, source: Source,
                      readings: seq<Time>): (t: History)
    requires cfg.Resolved() && |projects| <= |readings|
    ensures |t| == |projects| && AllAsked(t)
    decreases |projects|
  {
    if projects == [] then []
    else
      var n := |projects| - 1;
      var t := Pass(cfg, h, projects[..n], source, readings);
      t + [Asked(readings[n], projects[n], source, VerdictOf(cfg, h + t, projects[n], source, readings[n]).Allowed?)]
  }

  ghost predicate AllAsked(t: History) {
    forall i :: 0 <= i < |t| ==> t[i].Asked?
  }

  /** The projects a pass lets through, in order. */
  ghost function Granted(t: History): seq<ProjectName>
    requires AllAsked(t)
  {
    if t == [] then []
    else if Last(t).allowed then Granted(Before(t)) + [Last(t).project]
    else Granted(Before(t))
  }

  lemma GrantedStep(t: History, e: Event)
    requires AllAsked(t) && e.Asked?
    ensures AllAsked(t + [e]) && Granted(t + [e]) == if e.allowed then Granted(t) + [e.project] else Granted(t)
  {
    Appended(t, e);
  }

  lemma FirstErrorStep(fn: DispatchFunc, calls: seq<ProjectName>, p: ProjectName)
    ensures FirstError(fn, calls + [p]) == if FirstError(fn, calls).Some? then FirstError(fn, calls) else fn(|calls|, p)
  {
    assert (calls + [p])[..|calls|] == calls;
  }

  lemma PassStep(cfg: Config, h: History, projects: seq<ProjectName>, source: Source, readings: seq<Time>, n: nat)
    requires cfg.Resolved() && n < |projects| <= |readings|
    ensures var t := Pass(cfg, h, projects[..n], source, readings);
            Pass(cfg, h, projects[..n + 1], source, readings) ==
            t + [Asked(readings[n], projects[n], source,
                     VerdictOf(cfg, h + t, projects[n], source, readings[n]).Allowed?)]
  {
    assert projects[..n + 1][..n] == projects[..n];
  }

  /** What one more question leaves of clock and grants. */
  lemma OneMoreAsked(h: History, t: History, e: Event)
    requires AllAsked(t) && e.Asked?
    ensures h + t + [e] == h + (t + [e]) && LastReading(h + (t + [e])) == At(e.now)
    ensures AllAsked(t + [e]) && Granted(t + [e]) == if e.allowed then Granted(t) + [e.project] else Granted(t)
  {
    Assoc(h, t, [e]);
    ClockStep(h + t, e);
    GrantedStep(t, e);
  }

  class Dispatcher {
    const gate: Manager

    constructor (gate: Manager)
      ensures this.gate == gate
    {
      this.gate := gate;
    }

    /** `t` is what the gate has been asked in this pass, ahead of project number `n`. */
    ghost predicate PassedTo(n: nat, h0: History, t: History, projects: seq<ProjectName>, source: Source,
                             readings: seq<Time>)
      requires n <= |projects| == |readings|
      reads gate
    {
      && gate.Valid()
      && gate.history == h0 + t
      && t == Pass(gate.cfg, h0, projects[..n], source, readings)
      && LastReading(h0 + t) == if n == 0 then LastReading(h0) else At(readings[n - 1])
    }

    /** The gate check of one iteration. */
    method Ask(n: nat, projects: seq<ProjectName>, source: Source, readings: seq<Time>,
               ghost h0: History, ghost t: History)
      returns (allowed: bool, ghost e: Event)
      requires n < |projects| == |readings|
      requires Readings(h0, readings) && PassedTo(n, h0, t, projects, source, readings) && AllAsked(t)
      modifies gate
      ensures e == Asked(readings[n], projects[n], source, allowed)
      ensures PassedTo(n + 1, h0, t + [e], projects, source, readings)
      ensures AllAsked(t + [e]) && Granted(t + [e]) == if allowed then Granted(t) + [projects[n]] else Granted(t)
    {
      var verdict := gate.AllowDispatch(readings[n], projects[n], source);
      allowed := verdict.Allowed?;
      e := Asked(readings[n], projects[n], source, allowed);
      PassStep(gate.cfg, h0, projects, source, readings, n);
      OneMoreAsked(h0, t, e);
    }

    /** One call of the callback: it is counted whether it fails or not, and the first error is kept. */
    method Call(fn: DispatchFunc, project: ProjectName, dispatched0: nat, firstErr0: Option<string>,
                calls0: seq<ProjectName>)
      returns (dispatched: nat, firstErr: Option<string>, calls: seq<ProjectName>)
      requires dispatched0 == |calls0| && firstErr0 == FirstError(fn, calls0)
      ensures calls == calls0 + [project] && dispatched == |calls| && firstErr == FirstError(fn, calls)
    {
      FirstErrorStep(fn, calls0, project);
      dispatched, firstErr, calls := dispatched0 + 1, firstErr0, calls0 + [project];
      var err := fn(dispatched0, project);
      if err.Some? && firstErr0.None? {
        firstErr := err;
      }
    }

    /** Returns, besides the two results of `DispatchProjects`, the calls made to the callback. */
    method DispatchProjects(projects: seq<ProjectName>, source: Source, fn: DispatchFunc, readings: seq<Time>)
      returns (dispatched: nat, firstErr: Option<string>, calls: seq<ProjectName>)
      requires |readings| == |projects|
      requires gate.Valid() && Readings(gate.history, readings)
      modifies gate
      ensures gate.Valid()
      ensures gate.history == old(gate.history) + Pass(gate.cfg, old(gate.history), projects, source, readings)
      ensures calls == Granted(Pass(gate.cfg, old(gate.history), projects, source, readings))
      ensures dispatched == |calls| && firstErr == FirstError(fn, calls)
    {
      dispatched, firstErr, calls := 0, None, [];
      ghost var h0, t: History := gate.history, [];
      Empty(h0);
      for n := 0 to |projects|
        invariant PassedTo(n, h0, t, projects, source, readings)
        invariant AllAsked(t) && calls == Granted(t)
        invariant dispatched == |calls| && firstErr == FirstError(fn, calls)
      {
        var project := projects[n];
        var allowed;
        ghost var e;
        allowed, e := Ask(n, projects, source, readings, h0, t);
        t := t + [e];
        if allowed {
          dispatched, firstErr, calls := Call(fn, project, dispatched, firstErr, calls);
        }
      }
      TakeAll(projects);
    }
  }

  // ---------- A pass with the breaker open ----------

  /** Halfway through such a pass the breaker is still open and every project asked about is disarmed. */
  lemma {:induction false} OpenPassState(cfg: Config, h: History, projects: seq<ProjectName>, source: Source,
                                         readings: seq<Time>, p: ProjectName)
    requires cfg.Resolved() && |projects| <= |readings| && BreakerOpen(cfg, h)
    ensures var t := Pass(cfg, h, projects, source, readings);
            && BreakerOpen(cfg, h + t)
            && (Armed(h + t, p) <==> Armed(h, p) && p !in projects)
    decreases |projects|
  {
    var t := Pass(cfg, h, projects, source, readings);
    if projects == [] {
      assert h + t == h;
    } else {
      var b := projects[..|projects| - 1];
      OpenPassState(cfg, h, b, source, readings, p);
      var s := Pass(cfg, h, b, source, readings);
      assert h + t == (h + s) + [Last(t)];
      BreakerKept(cfg, h + s, Last(t));
      Appended(h + s, Last(t));
      assert p in projects <==> p in b || p == projects[|projects| - 1];
    }
  }

  ghost function ArmedAmong(h: History, projects: seq<ProjectName>): set<ProjectName> {
    set p | p in projects && Armed(h, p)
  }

  /** With the breaker open, exactly the listed projects with an armed bypass get through, once each. */
  lemma {:induction false} OpenBreakerPass(cfg: Config, h: History, projects: seq<ProjectName>, source: Source,
                                         readings: seq<Time>)
    requires cfg.Resolved() && |projects| <= |readings| && BreakerOpen(cfg, h) && source != Manual
    ensures multiset(Granted(Pass(cfg, h, projects, source, readings))) == multiset(ArmedAmong(h, projects))
    decreases |projects|
  {
    if projects == [] {
      assert ArmedAmong(h, projects) == {};
    } else {
      var b, q := projects[..|projects| - 1], projects[|projects| - 1];
      OpenBreakerPass(cfg, h, b, source, readings);
      OpenPassState(cfg, h, b, source, readings, q);
      var s, t := Pass(cfg, h, b, source, readings), Pass(cfg, h, projects, source, readings);
      assert t == s + [Last(t)] && Last(t).project == q;
      GrantedStep(s, Last(t));
      ArmedGrows(h, b, q);
      assert projects == b + [q];
      assert Last(t).allowed <==> Armed(h, q) && q !in b;
    }
  }

  lemma ArmedGrows(h: History, b: seq<ProjectName>, q: ProjectName)
    ensures multiset(ArmedAmong(h, b + [q])) ==
            if Armed(h, q) && q !in b then multiset(ArmedAmong(h, b)) + multiset{q} else multiset(ArmedAmong(h, b))
  {
    if Armed(h, q) && q !in b {
      assert ArmedAmong(h, b + [q]) == ArmedAmong(h, b) + {q};
    } else {
      assert ArmedAmong(h, b + [q]) == ArmedAmong(h, b);
    }
  }
}
