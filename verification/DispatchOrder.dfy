/** In which order a dispatch pass tries the scheduled projects, and what that order promises. */
module DispatchOrder {
  import opened Docker
  import opened ResilienceSpec
  import opened StateStore

  type Slots = map<ProjectName, ContainerID>

  /** How far starting a container gets. */
  datatype StartOutcome = PullFails | CreateFails | StartFails | Started

  type Starts = (JobName, ProjectName) -> StartOutcome

  /** `lastRun` is what the store says; the sort does not look at it. */
  datatype Candidate = Candidate(name: ProjectName, priority: int, lastRun: Time)

  /** The scheduled projects of one job, as the store yields them. */
  datatype Batch = Batch(job: JobName, scheduled: seq<Candidate>)

  // ---------- Sorting by priority ----------

  ghost predicate Descending(s: seq<Candidate>) {
    forall i, j :: 0 <= i < j < |s| ==> s[i].priority >= s[j].priority
  }

  method InsertByPriority(s: seq<Candidate>, c: Candidate) returns (r: seq<Candidate>)
    requires Descending(s)
    ensures Descending(r) && multiset(r) == multiset(s) + multiset{c}
  {
    var k := 0;
    while k < |s| && s[k].priority >= c.priority
      invariant 0 <= k <= |s|
      invariant forall i :: 0 <= i < k ==> s[i].priority >= c.priority
    {
      k := k + 1;
    }
    r := s[..k] + [c] + s[k..];
    OneMore(s, k, c);
  }

  lemma OneMore(s: seq<Candidate>, k: nat, c: Candidate)
    requires k <= |s|
    ensures multiset(s[..k] + [c] + s[k..]) == multiset(s) + multiset{c}
  {
    assert s == s[..k] + s[k..];
  }

  /** Higher priority first; among equals any order will do, since `sort.Slice` is not stable. */
  method SortByPriority(cs: seq<Candidate>) returns (s: seq<Candidate>)
    ensures Descending(s) && multiset(s) == multiset(cs)
  {
    s := [];
    for i := 0 to |cs|
      invariant Descending(s) && multiset(s) == multiset(cs[..i])
    {
      assert cs[..i + 1] == cs[..i] + [cs[i]];
      s := InsertByPriority(s, cs[i]);
    }
    assert cs[..|cs|] == cs;
  }

  lemma SameCandidates(s: seq<Candidate>, cs: seq<Candidate>)
    requires multiset(s) == multiset(cs)
    ensures forall c :: c in s <==> c in cs
  {
    forall c
      ensures c in s <==> c in cs
    {
      assert c in s <==> c in multiset(s);
      assert c in cs <==> c in multiset(cs);
    }
  }

  // ---------- The documented order ----------

  ghost predicate Sorts(s: seq<Candidate>, cs: seq<Candidate>) {
    Descending(s) && multiset(s) == multiset(cs)
  }

  /** Higher priority first, and the longest wait first among equals. */
  ghost predicate LongestWaitFirst(s: seq<Candidate>) {
    forall i, j :: 0 <= i < j < |s| ==>
      s[i].priority > s[j].priority || (s[i].priority == s[j].priority && s[i].lastRun <= s[j].lastRun)
  }

  /** Candidates of the same priority have waited equally long. */
  ghost predicate EqualWaits(cs: seq<Candidate>) {
    forall c, d :: c in cs && d in cs && c.priority == d.priority ==> c.lastRun == d.lastRun
  }

  lemma {:induction false} SortExists(cs: seq<Candidate>) returns (s: seq<Candidate>)
    ensures Sorts(s, cs)
  {
    if cs == [] {
      s := [];
    } else {
      var n := |cs| - 1;
      var front := SortExists(cs[..n]);
      var k := PlaceFor(front, cs[n].priority);
      s := front[..k] + [cs[n]] + front[k..];
      OneMore(front, k, cs[n]);
      assert cs == cs[..n] + [cs[n]];
    }
  }

  lemma {:induction false} PlaceFor(s: seq<Candidate>, priority: int) returns (k: nat)
    requires Descending(s)
    ensures k <= |s|
    ensures forall i :: 0 <= i < k ==> s[i].priority >= priority
    ensures forall i :: k <= i < |s| ==> s[i].priority < priority
  {
    if s == [] || s[|s| - 1].priority >= priority {
      k := |s|;
    } else {
      k := PlaceFor(s[..|s| - 1], priority);
    }
  }

  /** A longer and a shorter wait of the same priority can come out in the wrong order. */
  lemma TieCanGoWrong(cs: seq<Candidate>, c: Candidate, d: Candidate) returns (s: seq<Candidate>)
    requires c in cs && d in cs && c.priority == d.priority && c.lastRun < d.lastRun
    ensures Sorts(s, cs) && !LongestWaitFirst(s)
  {
    s := SortExists(cs);
    SameCandidates(s, cs);
    var i :| 0 <= i < |s| && s[i] == c;
    var j :| 0 <= j < |s| && s[j] == d;
    if i < j {
      Swapped(s, i, j);
      s := s[i := d][j := c];
      assert s[i].lastRun > s[j].lastRun;
    } else {
      assert s[j].lastRun > s[i].lastRun;
    }
  }

  lemma Swapped(s: seq<Candidate>, i: nat, j: nat)
    requires i < j < |s|
    ensures multiset(s[i := s[j]][j := s[i]]) == multiset(s)
  {
    var t := s[i := s[j]];
    assert multiset(t) == multiset(s) - multiset{s[i]} + multiset{s[j]};
    assert multiset(t[j := s[i]]) == multiset(t) - multiset{s[j]} + multiset{s[i]};
  }

  /**
   Sorting by priority alone gives the order by priority and then by longest wait, whatever the sort does
   with equal priorities, if and only if equal priorities have equal waits.
   */
  lemma WaitCountsExactlyIf(cs: seq<Candidate>)
    ensures (forall s: seq<Candidate> :: Sorts(s, cs) ==> LongestWaitFirst(s)) <==> EqualWaits(cs)
  {
    if EqualWaits(cs) {
      forall s: seq<Candidate> | Sorts(s, cs)
        ensures LongestWaitFirst(s)
      {
        SameCandidates(s, cs);
        forall i, j | 0 <= i < j < |s|
          ensures s[i].priority > s[j].priority || (s[i].priority == s[j].priority && s[i].lastRun <= s[j].lastRun)
        {
          assert s[i] in s && s[j] in s;
        }
      }
    } else {
      var c: Candidate, d: Candidate :| c in cs && d in cs && c.priority == d.priority && c.lastRun != d.lastRun;
      var longer, shorter := if c.lastRun < d.lastRun then c else d, if c.lastRun < d.lastRun then d else c;
      var s := TieCanGoWrong(cs, longer, shorter);
      assert Sorts(s, cs) && !LongestWaitFirst(s);
    }
  }

  // ---------- Who is served before whom ----------

  /** The project runs, or could not be started. */
  ghost predicate Settled(running: Slots, starts: Starts, job: JobName, name: ProjectName) {
    name in running || !starts(job, name).Started?
  }

  ghost predicate AllSettled(running: Slots, starts: Starts, b: Batch) {
    forall c :: c in b.scheduled ==> Settled(running, starts, b.job, c.name)
  }

  ghost predicate HigherSettled(running: Slots, starts: Starts, b: Batch, priority: int) {
    forall c :: c in b.scheduled && c.priority > priority ==> Settled(running, starts, b.job, c.name)
  }

  /** Everything of earlier jobs, and everything of its own job with a higher priority, is settled. */
  ghost predicate InTurn(running: Slots, starts: Starts, batches: seq<Batch>, i: int, c: Candidate) {
    && 0 <= i < |batches| && c in batches[i].scheduled
    && HigherSettled(running, starts, batches[i], c.priority)
    && forall k :: 0 <= k < i ==> AllSettled(running, starts, batches[k])
  }

  ghost predicate CameInTurn(running: Slots, starts: Starts, batches: seq<Batch>, p: ProjectName) {
    exists i, c :: InTurn(running, starts, batches, i, c) && c.name == p
  }

  lemma TurnKept(running: Slots, running': Slots, starts: Starts, batches: seq<Batch>, p: ProjectName)
    requires CameInTurn(running, starts, batches, p) && running.Keys <= running'.Keys
    ensures CameInTurn(running', starts, batches, p)
  {
    var i, c :| InTurn(running, starts, batches, i, c) && c.name == p;
    assert InTurn(running', starts, batches, i, c);
  }

  ghost predicate Placed(running: Slots, cs: Containers, starts: Starts, batches: seq<Batch>, p: ProjectName) {
    p in running && running[p] in cs && cs[running[p]].state.Live? && CameInTurn(running, starts, batches, p)
  }

  lemma PlacedKept(running: Slots, cs: Containers, starts: Starts, batches: seq<Batch>, p: ProjectName,
                   q: ProjectName, id: ContainerID, c: Container)
    requires Placed(running, cs, starts, batches, p) && q !in running && id !in cs
    ensures Placed(running[q := id], cs[id := c], starts, batches, p)
  {
    TurnKept(running, running[q := id], starts, batches, p);
  }

  /** What one pass has added so far: slots with a live container, each to a project whose turn it was. */
  ghost predicate Added(running0: Slots, cs0: Containers, running: Slots, cs: Containers,
                        starts: Starts, batches: seq<Batch>) {
    && (forall p :: p in running0 ==> p in running && running[p] == running0[p])
    && (forall id :: id in cs0 ==> id in cs && cs[id] == cs0[id])
    && (forall p :: p in running && p !in running0 ==> Placed(running, cs, starts, batches, p))
  }

  lemma AddedMore(running0: Slots, cs0: Containers, running: Slots, cs: Containers, starts: Starts, batches: seq<Batch>,
                  i: int, next: Candidate, id: ContainerID, c: Container)
    requires Added(running0, cs0, running, cs, starts, batches) && InTurn(running, starts, batches, i, next)
    requires next.name !in running && id !in cs && c.state.Live?
    ensures Added(running0, cs0, running[next.name := id], cs[id := c], starts, batches)
  {
    var running' := running[next.name := id];
    assert InTurn(running', starts, batches, i, next);
    forall p | p in running && p !in running0
      ensures Placed(running', cs[id := c], starts, batches, p)
    {
      PlacedKept(running, cs, starts, batches, p, next.name, id, c);
    }
  }

  /** The first n of the sorted candidates are settled. */
  ghost predicate SettledUpTo(running: Slots, starts: Starts, job: JobName, sorted: seq<Candidate>, n: int) {
    forall j :: 0 <= j < n <= |sorted| ==> Settled(running, starts, job, sorted[j].name)
  }

  lemma SettledMore(running: Slots, running': Slots, starts: Starts, job: JobName, sorted: seq<Candidate>, n: int)
    requires 0 <= n < |sorted| && running.Keys <= running'.Keys
    requires Settled(running', starts, job, sorted[n].name) && SettledUpTo(running, starts, job, sorted, n)
    ensures SettledUpTo(running', starts, job, sorted, n + 1)
  {
  }

  /** With everything before it settled, it is the next candidate's turn. */
  lemma NextInTurn(running: Slots, starts: Starts, batches: seq<Batch>, i: int, sorted: seq<Candidate>, n: int)
    requires 0 <= i < |batches| && 0 <= n < |sorted|
    requires Descending(sorted) && multiset(sorted) == multiset(batches[i].scheduled)
    requires SettledUpTo(running, starts, batches[i].job, sorted, n)
    requires forall k :: 0 <= k < i ==> AllSettled(running, starts, batches[k])
    ensures InTurn(running, starts, batches, i, sorted[n])
  {
    SameCandidates(sorted, batches[i].scheduled);
    forall c | c in batches[i].scheduled && c.priority > sorted[n].priority
      ensures Settled(running, starts, batches[i].job, c.name)
    {
      var k :| 0 <= k < |sorted| && sorted[k] == c;
    }
  }

  lemma WholeBatchSettled(running: Slots, starts: Starts, b: Batch, sorted: seq<Candidate>)
    requires multiset(sorted) == multiset(b.scheduled) && SettledUpTo(running, starts, b.job, sorted, |sorted|)
    ensures AllSettled(running, starts, b)
  {
    SameCandidates(sorted, b.scheduled);
    forall c | c in b.scheduled
      ensures Settled(running, starts, b.job, c.name)
    {
      var k :| 0 <= k < |sorted| && sorted[k] == c;
    }
  }
}
