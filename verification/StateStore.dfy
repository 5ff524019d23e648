/** The projects table: one row for each (job, project), and the two writers the other modules use. */
module StateStore {
  import opened Wrappers
  import opened ResilienceSpec

  type JobName(==, !new)

  datatype ProjectStatus = Scheduled | Running | Completed | Failed | Cancelled

  /** What a finished run leaves behind; the columns hold text the store does not look into. */
  datatype RunDetails = RunDetails(
    duration: Option<string>, resultStatus: Option<string>, prActivity: Option<string>, logIssues: Option<string>)

  const NO_DETAILS := RunDetails(None, None, None, None)

  datatype Row = Row(status: ProjectStatus, priority: int, lastRun: Time, details: RunDetails)

  /** The unique key of the table. */
  datatype Key = Key(job: JobName, project: ProjectName)

  type Table = map<Key, Row>

  /** Where, if anywhere, the database fails during a reconciliation. */
  datatype Fault = NoFault | ReadFails | BeginFails | PrepareFails | StatementFails(n: nat) | CommitFails

  datatype StoreError = Database | UniqueViolation | ProjectNotFound

  ghost function NamesOf(rows: Table, job: JobName): (names: set<ProjectName>)
    ensures forall p :: p in names <==> Key(job, p) in rows
  {
    assert forall k :: k in rows && k.job == job ==> k == Key(job, k.project);
    set k | k in rows && k.job == job :: k.project
  }

  ghost function Listed(projects: seq<ProjectName>): set<ProjectName> {
    set p | p in projects
  }

  function NewRow(now: Time): Row { Row(Scheduled, 0, now, NO_DETAILS) }

  /** The table a reconciliation is to leave: the job has exactly the listed projects. */
  ghost function Target(rows: Table, job: JobName, projects: set<ProjectName>, now: Time): Table {
    map k | k in rows.Keys + AllKeys(job, projects) && (k.job != job || k.project in projects) ::
      if k in rows then rows[k] else NewRow(now)
  }

  ghost function AllKeys(job: JobName, projects: set<ProjectName>): (keys: set<Key>)
    ensures forall k :: k in keys <==> k.job == job && k.project in projects
  {
    set p | p in projects :: Key(job, p)
  }

  /** A name the job does not have yet stands twice in the list. */
  ghost predicate RepeatsNew(rows: Table, job: JobName, projects: seq<ProjectName>) {
    RepeatsOutside(projects, NamesOf(rows, job))
  }

  lemma TargetNames(rows: Table, job: JobName, projects: set<ProjectName>, now: Time)
    ensures NamesOf(Target(rows, job, projects, now), job) == projects
    ensures forall other :: other != job ==> NamesOf(Target(rows, job, projects, now), other) == NamesOf(rows, other)
    ensures forall k :: k in rows && (k.job != job || k.project in projects) ==>
              k in Target(rows, job, projects, now) && Target(rows, job, projects, now)[k] == rows[k]
    // A new project is scheduled, with the default priority and nothing known of any run.
    ensures forall p :: p in projects && Key(job, p) !in rows ==>
              && Key(job, p) in Target(rows, job, projects, now)
              && Target(rows, job, projects, now)[Key(job, p)]
              == Row(Scheduled, 0, now, RunDetails(None, None, None, None))
  {
    var t := Target(rows, job, projects, now);
    forall p
      ensures p in projects <==> p in NamesOf(t, job)
    {
      assert p in projects ==> Key(job, p) in t;
    }
    forall other, p | other != job
      ensures p in NamesOf(t, other) <==> p in NamesOf(rows, other)
    {
      assert Key(other, p) in t <==> Key(other, p) in rows;
    }
  }

  /** Reconciling again with the same projects, at any later time, changes nothing and removes nothing. */
  lemma TargetIsStable(rows: Table, job: JobName, projects: set<ProjectName>, now: Time, later: Time)
    ensures var t := Target(rows, job, projects, now);
            Target(t, job, projects, later) == t && NamesOf(t, job) - projects == {}
  {
    var t := Target(rows, job, projects, now);
    TargetNames(rows, job, projects, now);
    forall k | k in t
      ensures k.job != job || k.project in projects
    {
      assert k.job == job ==> k.project in NamesOf(t, job);
    }
    forall p | p in projects
      ensures Key(job, p) in t
    {
      assert p in NamesOf(t, job);
    }
    assert Target(t, job, projects, later) == t;
  }

  class SQLiteStore {
    var rows: Table

    constructor ()
      ensures rows == map[]
    {
      rows := map[];
    }

    method UpdateProjectStatus(job: JobName, project: ProjectName, status: ProjectStatus, details: RunDetails,
                               now: Time, dbFails: bool)
      returns (err: Option<StoreError>)
      modifies this
      ensures err == if dbFails then Some(Database)
                     else if Key(job, project) !in old(rows) then Some(ProjectNotFound) else None
      ensures rows == if err.Some? then old(rows)
                      else old(rows)[Key(job, project) :=
                           Row(status, old(rows)[Key(job, project)].priority, now, details)]
    {
      if dbFails {
        return Some(Database);
      }
      if Key(job, project) !in rows {
        return Some(ProjectNotFound);
      }
      rows := rows[Key(job, project) := Row(status, rows[Key(job, project)].priority, now, details)];
      return None;
    }

    method ExistingNames(job: JobName) returns (existing: set<ProjectName>)
      ensures existing == NamesOf(rows, job)
    {
      existing := {};
      var todo := rows.Keys;
      while todo != {}
        invariant todo <= rows.Keys
        invariant existing == set k | k in rows.Keys - todo && k.job == job :: k.project
        decreases todo
      {
        var k :| k in todo;
        ghost var before := todo;
        todo := todo - {k};
        assert rows.Keys - todo == (rows.Keys - before) + {k};
        if k.job == job {
          existing := existing + {k.project};
        }
      }
      assert rows.Keys - todo == rows.Keys;
    }

    /** The existing names that are not discovered any more, in whatever order the map yields them. */
    method FindRemoved(existing: set<ProjectName>, discovered: set<ProjectName>) returns (removed: seq<ProjectName>)
      ensures multiset(removed) == multiset(existing - discovered)
    {
      removed := [];
      var todo := existing;
      while todo != {}
        invariant todo <= existing
        invariant multiset(removed) == multiset((existing - todo) - discovered)
        decreases todo
      {
        var name :| name in todo;
        ghost var done := (existing - todo) - discovered;
        todo := todo - {name};
        if name !in discovered {
          removed := removed + [name];
          assert (existing - todo) - discovered == done + {name};
        } else {
          assert (existing - todo) - discovered == done;
        }
      }
      assert (existing - todo) - discovered == existing - discovered;
    }

    method FindInserts(projects: seq<ProjectName>, existing: set<ProjectName>) returns (toInsert: seq<ProjectName>)
      ensures toInsert == Fresh(projects, existing)
    {
      toInsert := [];
      for i := 0 to |projects|
        invariant toInsert == Fresh(projects[..i], existing)
      {
        assert projects[..i + 1][..i] == projects[..i];
        if projects[i] !in existing {
          toInsert := toInsert + [projects[i]];
        }
      }
      assert projects[..|projects|] == projects;
    }

    method ReconcileProjects(job: JobName, projects: seq<ProjectName>, now: Time, fault: Fault)
      returns (removed: seq<ProjectName>, err: Option<StoreError>)
      modifies this
      ensures err.Some? ==> rows == old(rows) && removed == []
      ensures err.None? ==> rows == Target(old(rows), job, Listed(projects), now)
      ensures err.None? ==> multiset(removed) == multiset(NamesOf(old(rows), job) - Listed(projects))
      ensures err.None? ==> !RepeatsNew(old(rows), job, projects)
      ensures fault.NoFault? ==> err == if RepeatsNew(old(rows), job, projects) then Some(UniqueViolation) else None
    {
      if fault.ReadFails? {
        return [], Some(Database);
      }
      var existing := ExistingNames(job);
      var discovered := {};
      for i := 0 to |projects|
        invariant discovered == set p | p in projects[..i]
      {
        discovered := discovered + {projects[i]};
      }
      assert discovered == Listed(projects) by {
        assert projects[..|projects|] == projects;
      }
      removed := FindRemoved(existing, discovered);
      var toInsert := FindInserts(projects, existing);
      if fault.BeginFails? {
        return [], Some(Database);
      }
      // The transaction works on its own copy, which only the commit makes the table.
      var tx, failed := DeleteAll(rows, job, removed, fault);
      if failed.Some? {
        return [], failed;
      }
      FreshIsNew(projects, existing);
      InsertsAreNew(rows, job, removed, toInsert);
      if |toInsert| > 0 {
        if fault.PrepareFails? {
          return [], Some(Database);
        }
        tx, failed := InsertAll(tx, job, toInsert, now, fault, |removed|);
        if failed.Some? {
          return [], failed;
        }
      }
      if fault.CommitFails? {
        return [], Some(Database);
      }
      SameMembers(removed, existing - discovered);
      ReachesTarget(rows, job, projects, removed, toInsert, tx, now);
      rows := tx;
      return removed, None;
    }
  }

  /** The deletes of one transaction. */
  method DeleteAll(start: Table, job: JobName, names: seq<ProjectName>, fault: Fault)
    returns (tx: Table, err: Option<StoreError>)
    ensures err.None? ==> tx == start - KeysOf(job, names)
    ensures err.Some? ==> err == Some(Database) && fault.StatementFails?
  {
    tx := start;
    for i := 0 to |names|
      invariant tx == start - KeysOf(job, names[..i])
    {
      assert names[..i + 1][..i] == names[..i];
      if fault == StatementFails(i) {
        return tx, Some(Database);
      }
      tx := tx - {Key(job, names[i])};
    }
    assert names[..|names|] == names;
    return tx, None;
  }

  /** The inserts, each checked against the unique key. */
  method InsertAll(start: Table, job: JobName, names: seq<ProjectName>, now: Time, fault: Fault, executed: nat)
    returns (tx: Table, err: Option<StoreError>)
    requires forall p :: p in names ==> Key(job, p) !in start
    ensures err.None? ==> tx == start + NewRows(job, names, now) && !Repeats(names)
    ensures err.Some? && !fault.StatementFails? ==> err == Some(UniqueViolation) && Repeats(names)
  {
    tx := start;
    for i := 0 to |names|
      invariant tx == start + NewRows(job, names[..i], now) && !Repeats(names[..i])
    {
      if fault == StatementFails(executed + i) {
        return tx, Some(Database);
      }
      InsertStep(start, job, names, i, now);
      var key := Key(job, names[i]);
      if key in tx {
        return tx, Some(UniqueViolation);
      }
      tx := tx[key := NewRow(now)];
    }
    assert names[..|names|] == names;
    return tx, None;
  }

  /** The unique key stops the next insert exactly when its name has been inserted before. */
  lemma InsertStep(start: Table, job: JobName, names: seq<ProjectName>, i: nat, now: Time)
    requires i < |names| && !Repeats(names[..i]) && Key(job, names[i]) !in start
    ensures var tx := start + NewRows(job, names[..i], now); var key := Key(job, names[i]);
            if key in tx then Repeats(names)
            else tx[key := NewRow(now)] == start + NewRows(job, names[..i + 1], now) && !Repeats(names[..i + 1])
  {
    assert names[..i + 1] == names[..i] + [names[i]];
    RepeatsGrow(names[..i], names[i], {});
    NewRowsStep(start, job, names, i, now);
    if names[i] in names[..i] {
      RepeatsLonger(names[..i + 1], names);
    }
  }

  ghost function NewRows(job: JobName, names: seq<ProjectName>, now: Time): Table {
    map k | k in KeysOf(job, names) :: NewRow(now)
  }

  lemma NewRowsStep(start: Table, job: JobName, names: seq<ProjectName>, i: nat, now: Time)
    requires i < |names|
    ensures start + NewRows(job, names[..i + 1], now)
            == (start + NewRows(job, names[..i], now))[Key(job, names[i]) := NewRow(now)]
  {
    assert names[..i + 1][..i] == names[..i];
    assert NewRows(job, names[..i + 1], now) == NewRows(job, names[..i], now)[Key(job, names[i]) := NewRow(now)];
  }

  lemma RepeatsLonger(some: seq<ProjectName>, more: seq<ProjectName>)
    requires some <= more && Repeats(some)
    ensures Repeats(more)
  {
    var i, j :| 0 <= i < j < |some| && some[i] == some[j];
    assert more[i] == more[j];
  }

  lemma InsertsAreNew(rows: Table, job: JobName, removed: seq<ProjectName>, toInsert: seq<ProjectName>)
    requires forall p :: p in toInsert ==> p !in NamesOf(rows, job)
    ensures forall p :: p in toInsert ==> Key(job, p) !in rows - KeysOf(job, removed)
  {
  }

  ghost function KeysOf(job: JobName, names: seq<ProjectName>): (keys: set<Key>)
    ensures forall k :: k in keys <==> k.job == job && k.project in names
  {
    if names == [] then {}
    else
      assert names == names[..|names| - 1] + [names[|names| - 1]];
      KeysOf(job, names[..|names| - 1]) + {Key(job, names[|names| - 1])}
  }

  lemma ReachesTarget(rows: Table, job: JobName, projects: seq<ProjectName>, removed: seq<ProjectName>,
                      toInsert: seq<ProjectName>, tx: Table, now: Time)
    requires forall p :: p in removed <==> Key(job, p) in rows && p !in projects
    requires forall p :: p in toInsert <==> Key(job, p) !in rows && p in projects
    requires tx == (rows - KeysOf(job, removed)) + NewRows(job, toInsert, now)
    ensures tx == Target(rows, job, Listed(projects), now)
  {
    var t := Target(rows, job, Listed(projects), now);
    forall k: Key
      ensures k in tx <==> k in t
    {
      assert k.job == job ==> k == Key(job, k.project);
    }
    assert tx.Keys == t.Keys;
  }

  lemma SameMembers(names: seq<ProjectName>, s: set<ProjectName>)
    requires multiset(names) == multiset(s)
    ensures forall p :: p in names <==> p in s
  {
    forall p
      ensures p in names <==> p in s
    {
      assert p in names <==> p in multiset(names);
    }
  }

  // ---------- The insert list ----------

  /** The listed names that are not there yet, repeats and all. */
  ghost function Fresh(projects: seq<ProjectName>, existing: set<ProjectName>): seq<ProjectName> {
    if projects == [] then []
    else
      var n := |projects| - 1;
      if projects[n] in existing then Fresh(projects[..n], existing)
      else Fresh(projects[..n], existing) + [projects[n]]
  }

  ghost predicate Repeats(names: seq<ProjectName>) {
    exists i, j :: 0 <= i < j < |names| && names[i] == names[j]
  }

  ghost predicate RepeatsOutside(names: seq<ProjectName>, existing: set<ProjectName>) {
    exists i, j :: 0 <= i < j < |names| && names[i] == names[j] && names[i] !in existing
  }

  lemma {:induction false} FreshIsNew(projects: seq<ProjectName>, existing: set<ProjectName>)
    ensures forall p :: p in Fresh(projects, existing) <==> p in projects && p !in existing
    ensures Repeats(Fresh(projects, existing)) <==> RepeatsOutside(projects, existing)
  {
    if projects != [] {
      var n := |projects| - 1;
      var b, last := projects[..n], projects[n];
      FreshIsNew(b, existing);
      assert projects == b + [last];
      RepeatsGrow(b, last, existing);
      var f := Fresh(b, existing);
      if last in existing {
        assert Fresh(projects, existing) == f;
      } else {
        RepeatsGrow(f, last, existing);
        assert Fresh(projects, existing) == f + [last];
      }
    }
  }

  lemma RepeatsGrow(names: seq<ProjectName>, p: ProjectName, existing: set<ProjectName>)
    ensures RepeatsOutside(names + [p], existing) <==> RepeatsOutside(names, existing) || (p in names && p !in existing)
    ensures Repeats(names + [p]) <==> Repeats(names) || p in names
  {
    var longer := names + [p];
    if p in names {
      var i :| 0 <= i < |names| && names[i] == p;
      assert longer[i] == longer[|names|];
    }
    if Repeats(names) {
      var i, j :| 0 <= i < j < |names| && names[i] == names[j];
      assert longer[i] == longer[j];
    }
    if RepeatsOutside(names, existing) {
      var i, j :| 0 <= i < j < |names| && names[i] == names[j] && names[i] !in existing;
      assert longer[i] == longer[j];
    }
  }
}
