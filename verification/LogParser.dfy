/** The log parser: one scan over the entries, updating counters, issues and a shared map of detail objects. */
module LogParser {
  import opened Activity
  import opened LogSpec
  import opened Sequences
  import opened Strings
  import opened Wrappers

  /** The fields a handler leaves in a detail it has got hold of. */
  method Assign(d: Detail, s: Step) returns (number: int, title: string, action: Action)
    requires !s.change.Listed?
    ensures Apply(Some(d), s) == Some(Detail(d.branch, number, title, action))
  {
    number, title, action := d.number, d.title, d.action;
    match s.change {
      case Named(a, t) => action, title := a, t;
      case NotUpdated(n) => action, number := Unchanged, n;
      case Pushed(found) =>
        if found.Some? {
          number := found.value;
        }
      case Opened(pr, prTitle) =>
        number := pr;
        if title == "" && prTitle != "" {
          title := prTitle;
        }
      case Merged(pr, prTitle) =>
        action := Automerged;
        if pr > 0 {
          number := pr;
        }
        if title == "" && prTitle != "" {
          title := prTitle;
        }
    }
  }

  class PRDetail {
    var branch: string
    var number: int
    var title: string
    var action: Action

    constructor (branch: string)
      ensures Value() == Detail(branch, 0, "", NoAction)
    {
      this.branch, number, title, action := branch, 0, "", NoAction;
    }

    function Value(): Detail
      reads this
    {
      Detail(branch, number, title, action)
    }
  }

  /** The map from branch to detail that every handler is handed. */
  class BranchMap {
    var details: map<string, PRDetail>

    /** Each detail knows its key; so different keys have different details. */
    ghost predicate Valid()
      reads this, details.Values
    {
      forall b :: b in details ==> details[b].branch == b
    }

    ghost function View(): Table
      reads this, details.Values
    {
      map b | b in details :: details[b].Value()
    }

    constructor ()
      ensures Valid() && View() == map[] && details == map[]
    {
      details := map[];
    }

    method GetOrCreateDetail(branch: string) returns (d: PRDetail)
      requires Valid()
      modifies `details
      ensures Valid() && branch in details && details[branch] == d
      ensures if branch in old(details) then details == old(details)
              else fresh(d) && details == old(details)[branch := d]
      ensures (forall b :: b in details ==> details[b] in old(details.Values) || fresh(details[b]))
      ensures View() == old(View())[branch := OrNew(Lookup(old(View()), branch), branch)]
    {
      if branch in details {
        d := details[branch];
      } else {
        d := new PRDetail(branch);
        details := details[branch := d];
      }
    }

    /** Stores into the fields of one detail; no other branch sees it. */
    method Store(branch: string, number: int, title: string, action: Action)
      requires Valid() && branch in details
      modifies details[branch]
      ensures details == old(details)
      ensures Valid() && View() == old(View())[branch := Detail(branch, number, title, action)]
    {
      var d := details[branch];
      d.number, d.title, d.action := number, title, action;
    }

    // ---------- The handlers ----------

    /** Gets or creates the branch's detail and makes one change to it, as the pointer handlers do. */
    method Amend(s: Step)
      requires Valid() && !s.change.Listed?
      modifies this, details.Values
      ensures Valid() && (forall b :: b in details ==> details[b] in old(details.Values) || fresh(details[b]))
      ensures View() == ApplyTo(old(View()), s)
    {
      ghost var t0 := View();
      var d := GetOrCreateDetail(s.branch);
      assert View()[s.branch] == d.Value();
      var number, title, action := Assign(d.Value(), s);
      AmendIsApply(t0, s, number, title, action);
      Store(s.branch, number, title, action);
    }

    /** One item of the branches summary: fills in a missing title, or adds an active branch. */
    method AmendListed(info: BranchInfo)
      requires Valid()
      modifies this, details.Values
      ensures Valid() && (forall b :: b in details ==> details[b] in old(details.Values) || fresh(details[b]))
      ensures View() == ApplyTo(old(View()), Step(info.branchName, Listed(info)))
    {
      if info.branchName in details {
        BackfillTitle(info);
        return;
      }
      if !Active(info.result) {
        return;
      }
      AddListed(info);
    }

    method BackfillTitle(info: BranchInfo)
      requires Valid() && info.branchName in details
      modifies details[info.branchName]
      ensures Valid() && details == old(details)
      ensures View() == ApplyTo(old(View()), Step(info.branchName, Listed(info)))
    {
      var existing := details[info.branchName];
      assert View()[info.branchName] == existing.Value();
      if existing.title == "" && info.prTitle != "" {
        Store(info.branchName, existing.number, info.prTitle, existing.action);
      } else {
        assert View() == View()[info.branchName := existing.Value()];
      }
    }

    method AddListed(info: BranchInfo)
      requires Valid() && info.branchName !in details && Active(info.result)
      modifies `details
      ensures Valid() && (forall b :: b in details ==> details[b] in old(details.Values) || fresh(details[b]))
      ensures View() == ApplyTo(old(View()), Step(info.branchName, Listed(info)))
    {
      ghost var t0 := View();
      var d := GetOrCreateDetail(info.branchName);
      assert View()[info.branchName] == d.Value();
      var action := if info.result == "needs-approval" then NeedsApproval else Unchanged;
      var number := if info.prNo.Some? then info.prNo.value else d.number;
      AddIsApply(t0, info, number, action);
      Store(info.branchName, number, info.prTitle, action);
    }

    method HandleBranchesInfoExtended(infos: seq<BranchInfo>)
      requires Valid()
      modifies this, details.Values
      ensures Valid() && (forall b :: b in details ==> details[b] in old(details.Values) || fresh(details[b]))
      ensures View() == Fold(old(View()), InfoSteps(infos))
    {
      ghost var t0 := View();
      for i := 0 to |infos|
        invariant Valid() && (forall b :: b in details ==> details[b] in old(details.Values) || fresh(details[b]))
        invariant View() == Fold(t0, InfoSteps(infos[..i]))
      {
        InfoStep(t0, infos, i);
        if infos[i].branchName == "" {
          continue;
        }
        AmendListed(infos[i]);
      }
      assert infos[..|infos|] == infos;
    }

    method HandleGitPush(f: Fields)
      requires Valid()
      modifies this, details.Values
      ensures Valid() && (forall b :: b in details ==> details[b] in old(details.Values) || fresh(details[b]))
      ensures View() == Fold(old(View()),
                             if f.branch == "" || FirstUrl(f.remote).None? then []
                             else [Step(f.branch, Pushed(FirstUrl(f.remote).value))])
    {
      ghost var t0 := View();
      if f.branch == "" {
        return;
      }
      for i := 0 to |f.remote|
        invariant Valid() && details == old(details) && View() == t0
        invariant FirstUrl(f.remote[i..]) == FirstUrl(f.remote)
      {
        assert f.remote[i..][0] == f.remote[i] && f.remote[i..][1..] == f.remote[i + 1..];
        if f.remote[i].Url? {
          Amend(Step(f.branch, Pushed(f.remote[i].number)));
          FoldOne(t0, Step(f.branch, Pushed(f.remote[i].number)));
          return;
        }
      }
    }

    /** The message switch of the scan loop. */
    method Dispatch(e: Entry)
      requires Valid()
      modifies this, details.Values
      ensures Valid() && (forall b :: b in details ==> details[b] in old(details.Values) || fresh(details[b]))
      ensures View() == Fold(old(View()), StepsOf(e))
    {
      ghost var t0 := View();
      if e.fields.None? {
        return;
      }
      var f := e.fields.value;
      match KindOf(e.msg) {
        case CreatingPR =>
          if f.branch != "" {
            AmendOne(Step(f.branch, Named(Created, f.title)));
          }
        case UpdatingPR =>
          if f.branch != "" {
            AmendOne(Step(f.branch, Named(Updated, f.title)));
          }
        case NoUpdateNeeded =>
          if e.prNumber.Some? && f.branch != "" {
            AmendOne(Step(f.branch, NotUpdated(e.prNumber.value)));
          }
        case GitPush =>
          HandleGitPush(f);
        case PRCreated =>
          if f.branch != "" && f.pr > 0 {
            AmendOne(Step(f.branch, Opened(f.pr, f.prTitle)));
          }
        case PRAutomerged =>
          if f.branch != "" {
            AmendOne(Step(f.branch, Merged(f.pr, f.prTitle)));
          }
        case BranchesInfo =>
          HandleBranchesInfoExtended(f.infos);
        case _ =>
      }
    }

    method AmendOne(s: Step)
      requires Valid() && !s.change.Listed?
      modifies this, details.Values
      ensures Valid() && (forall b :: b in details ==> details[b] in old(details.Values) || fresh(details[b]))
      ensures View() == Fold(old(View()), [s])
    {
      FoldOne(View(), s);
      Amend(s);
    }
  }

  /** Creating a detail and then storing the changed fields is the change. */
  lemma AmendIsApply(t: Table, s: Step, number: int, title: string, action: Action)
    requires !s.change.Listed?
    requires Apply(Some(OrNew(Lookup(t, s.branch), s.branch)), s)
          == Some(Detail(OrNew(Lookup(t, s.branch), s.branch).branch, number, title, action))
    requires OrNew(Lookup(t, s.branch), s.branch).branch == s.branch
    ensures t[s.branch := OrNew(Lookup(t, s.branch), s.branch)][s.branch := Detail(s.branch, number, title, action)]
            == ApplyTo(t, s)
  {
  }

  /** The same for a branch that a summary adds. */
  lemma AddIsApply(t: Table, info: BranchInfo, number: int, action: Action)
    requires info.branchName !in t && Active(info.result)
    requires number == if info.prNo.Some? then info.prNo.value else 0
    requires action == if info.result == "needs-approval" then NeedsApproval else Unchanged
    ensures var b := info.branchName;
            t[b := OrNew(Lookup(t, b), b)][b := Detail(b, number, info.prTitle, action)]
            == ApplyTo(t, Step(b, Listed(info)))
  {
  }

  // ---------- The summary ----------

  /** Branches without an action count as updated, in whatever order the map yields them. */
  method ApplyDefaults(table: BranchMap)
    requires table.Valid()
    modifies table.details.Values
    ensures table.Valid() && table.View() == Final(old(table.View()))
    ensures table.details == old(table.details)
  {
    ghost var t0 := table.View();
    var todo := table.details.Keys;
    while todo != {}
      invariant todo <= table.details.Keys && table.details == old(table.details) && table.Valid()
      invariant table.View() == FinalBut(t0, todo)
      decreases todo
    {
      var b :| b in todo;
      var d := table.details[b];
      assert table.View()[b] == d.Value();
      FinalStep(t0, todo, b);
      if d.action.NoAction? && d.number > 0 {
        table.Store(b, d.number, d.title, Updated);
      }
      todo := todo - {b};
    }
  }

  /** The table with the defaults in for all branches but some. */
  ghost function FinalBut(t: Table, todo: set<string>): Table {
    map b | b in t :: if b in todo then t[b] else Defaulted(t[b])
  }

  lemma FinalStep(t: Table, todo: set<string>, b: string)
    requires b in todo && b in t
    ensures FinalBut(t, todo)[b] == t[b]
    ensures FinalBut(t, todo - {b}) == FinalBut(t, todo)[b := Defaulted(t[b])]
    ensures Defaulted(t[b]) == t[b] ==> FinalBut(t, todo - {b}) == FinalBut(t, todo)
  {
  }

  method CountActions(table: BranchMap) returns (a: PRActivity)
    requires table.Valid()
    ensures Summarizes(table.View(), a) && a.prs == [] && !a.truncated
  {
    a := PRActivity(0, 0, 0, 0, 0, [], false);
    ghost var t := table.View();
    CountNone(t);
    var todo := table.details.Keys;
    while todo != {}
      invariant todo <= t.Keys && a.prs == [] && !a.truncated && CountsAllBut(t, todo, a)
      decreases todo
    {
      var b :| b in todo;
      CountsStep(t, todo, b, a);
      a := CountOne(a, table.details[b].action);
      todo := todo - {b};
    }
    CountedAll(t, a);
  }

  /** The switch over a branch's action. */
  method CountOne(a0: PRActivity, action: Action) returns (a: PRActivity)
    ensures a == Counted(a0, action)
  {
    a := a0;
    match action {
      case Automerged => a := a.(automerged := a.automerged + 1);
      case Created => a := a.(created := a.created + 1);
      case Updated => a := a.(updated := a.updated + 1);
      case NeedsApproval => a := a.(needsApproval := a.needsApproval + 1);
      case Unchanged => a := a.(notChanged := a.notChanged + 1);
      case NoAction =>
    }
  }

  method CollectDetails(table: BranchMap) returns (prs: seq<Detail>)
    requires table.Valid()
    ensures OneBranchEach(prs)
    ensures forall d :: d in prs <==> d.branch in table.View() && table.View()[d.branch] == d
  {
    prs := [];
    ghost var t := table.View();
    var todo := table.details.Keys;
    while todo != {}
      invariant todo <= table.details.Keys
      invariant OneBranchEach(prs)
      invariant forall d :: d in prs <==> d.branch in table.details.Keys - todo && t[d.branch] == d
      decreases todo
    {
      var b :| b in todo;
      assert forall i :: 0 <= i < |prs| ==> prs[i] in prs;
      prs := prs + [table.details[b].Value()];
      todo := todo - {b};
    }
  }

  method BuildPRActivity(table: BranchMap) returns (activity: PRActivity)
    requires table.Valid()
    modifies table.details.Values
    ensures IsActivityOf(old(table.View()), activity)
  {
    ghost var t0 := table.View();
    if |table.details| == 0 {
      assert t0 == map[];
      EmptyActivity();
      return PRActivity(0, 0, 0, 0, 0, [], false);
    }
    KeyedBranches(table);
    ApplyDefaults(table);
    var prs;
    activity, prs := Summarize(table, t0);
    if |prs| > MAX_PR_DETAILS {
      prs := prs[..MAX_PR_DETAILS];
      activity := activity.(truncated := true);
    }
    activity := activity.(prs := prs);
  }

  /** The counts and the full listing, once the defaults are in. */
  method Summarize(table: BranchMap, ghost t: Table) returns (a: PRActivity, prs: seq<Detail>)
    requires table.Valid() && table.View() == Final(t) && forall b :: b in t ==> t[b].branch == b
    ensures |prs| <= MAX_PR_DETAILS ==> IsActivityOf(t, a.(prs := prs))
    ensures |prs| > MAX_PR_DETAILS ==> IsActivityOf(t, a.(prs := prs[..MAX_PR_DETAILS], truncated := true))
  {
    a := CountActions(table);
    prs := ListDetails(table);
    FinalActivity(t, a, prs);
  }

  method ListDetails(table: BranchMap) returns (prs: seq<Detail>)
    requires table.Valid()
    ensures IsListing(table.View(), prs)
  {
    prs := CollectDetails(table);
    prs := SortDetails(prs);
  }

  lemma KeyedBranches(table: BranchMap)
    requires table.Valid()
    ensures forall b :: b in table.View() ==> table.View()[b].branch == b
  {
  }

  lemma FinalActivity(t: Table, a: PRActivity, listing: seq<Detail>)
    requires forall b :: b in t ==> t[b].branch == b
    requires Summarizes(Final(t), a) && IsListing(Final(t), listing) && !a.truncated
    ensures |listing| <= MAX_PR_DETAILS ==> IsActivityOf(t, a.(prs := listing))
    ensures |listing| > MAX_PR_DETAILS ==> IsActivityOf(t, a.(prs := listing[..MAX_PR_DETAILS], truncated := true))
  {
    ListingSize(Final(t), listing);
    assert Final(t).Keys == t.Keys;
  }

  ghost predicate CountsUpTo(t: Table, done: set<string>, a: PRActivity) {
    && a.automerged == CountIn(t, done, Automerged) && a.created == CountIn(t, done, Created)
    && a.updated == CountIn(t, done, Updated) && a.needsApproval == CountIn(t, done, NeedsApproval)
    && a.notChanged == CountIn(t, done, Unchanged)
  }

  ghost function Counted(a: PRActivity, action: Action): PRActivity {
    a.(automerged := a.automerged + One(action, Automerged), created := a.created + One(action, Created),
       updated := a.updated + One(action, Updated), needsApproval := a.needsApproval + One(action, NeedsApproval),
       notChanged := a.notChanged + One(action, Unchanged))
  }

  ghost function One(action: Action, counted: Action): nat {
    if action == counted then 1 else 0
  }

  ghost predicate CountsAllBut(t: Table, todo: set<string>, a: PRActivity) {
    CountsUpTo(t, t.Keys - todo, a)
  }

  lemma CountsStep(t: Table, todo: set<string>, b: string, a: PRActivity)
    requires b in todo && todo <= t.Keys && CountsAllBut(t, todo, a)
    ensures CountsAllBut(t, todo - {b}, Counted(a, t[b].action))
  {
    var done := t.Keys - todo;
    assert t.Keys - (todo - {b}) == done + {b};
    CountStep(t, done, b, Automerged);
    CountStep(t, done, b, Created);
    CountStep(t, done, b, Updated);
    CountStep(t, done, b, NeedsApproval);
    CountStep(t, done, b, Unchanged);
  }

  lemma CountNone(t: Table)
    ensures CountsAllBut(t, t.Keys, PRActivity(0, 0, 0, 0, 0, [], false))
  {
    assert t.Keys - t.Keys == {};
    CountAll(t, Automerged);
    CountAll(t, Created);
    CountAll(t, Updated);
    CountAll(t, NeedsApproval);
    CountAll(t, Unchanged);
  }

  lemma CountedAll(t: Table, a: PRActivity)
    requires CountsAllBut(t, {}, a)
    ensures Summarizes(t, a)
  {
    assert t.Keys - {} == t.Keys;
    CountAll(t, Automerged);
    CountAll(t, Created);
    CountAll(t, Updated);
    CountAll(t, NeedsApproval);
    CountAll(t, Unchanged);
  }

  lemma EmptyActivity()
    ensures IsActivityOf(map[], PRActivity(0, 0, 0, 0, 0, [], false))
  {
    var t: Table := map[];
    assert Final(t) == t;
    CountNone(t);
    CountedAll(t, PRActivity(0, 0, 0, 0, 0, [], false));
    assert IsListing(t, []);
  }

  // ---------- The scan ----------

  datatype LogIssues = LogIssues(warnCount: nat, errorCount: nat, issues: seq<Issue>, truncated: bool)

  datatype LogParseResult = LogParseResult(
    hasIssues: bool, status: Option<string>, activity: Option<PRActivity>, logIssues: Option<LogIssues>)

  ghost predicate SeenUpTo(es: seq<Entry>, seen: set<string>) {
    forall m :: m in seen <==> Mentioned(es, m)
  }

  /** The counters and the issue list after some entries. */
  ghost predicate IssuesOf(es: seq<Entry>, warnCount: nat, errorCount: nat, issues: seq<Issue>, truncated: bool) {
    && warnCount + errorCount == AtLeast(es, 40) && errorCount == AtLeast(es, 50)
    && (truncated <==> |DistinctIssues(es)| > MAX_LOG_ISSUES)
    && issues == if |DistinctIssues(es)| > MAX_LOG_ISSUES then DistinctIssues(es)[..MAX_LOG_ISSUES]
                 else DistinctIssues(es)
  }

  /** The issue part of one turn of the scan. */
  method CollectIssue(e: Entry, warnCount0: nat, errorCount0: nat, issues0: seq<Issue>,
                      truncated0: bool, seen0: set<string>,
                      ghost es: seq<Entry>)
    returns (warnCount: nat, errorCount: nat, issues: seq<Issue>, truncated: bool, seen: set<string>)
    requires IssuesOf(es, warnCount0, errorCount0, issues0, truncated0) && SeenUpTo(es, seen0)
    ensures IssuesOf(es + [e], warnCount, errorCount, issues, truncated) && SeenUpTo(es + [e], seen)
  {
    warnCount, errorCount, issues, truncated, seen := warnCount0, errorCount0, issues0, truncated0, seen0;
    ghost var es' := es + [e];
    assert es'[..|es|] == es;
    MentionsGrow(es');
    if e.level >= 40 {
      if e.level >= 50 {
        errorCount := errorCount + 1;
      } else {
        warnCount := warnCount + 1;
      }
      var msg := e.msg;
      if |msg| > MAX_ISSUE_MESSAGE_LEN {
        msg := msg[..MAX_ISSUE_MESSAGE_LEN] + ELLIPSIS;
      }
      if msg != "" && msg !in seen {
        seen := seen + {msg};
        if |issues| < MAX_LOG_ISSUES {
          issues := issues + [Issue(e.level, msg)];
        } else {
          truncated := true;
        }
      }
    }
  }

  /** What the scan knows of the entries so far, but for the issues. */
  ghost predicate ScannedTo(es: seq<Entry>, t: Table, hasIssues: bool, status: Option<string>) {
    t == TableOf(AllSteps(es)) && status == StatusOf(es) && (hasIssues <==> AtLeast(es, 40) > 0)
  }

  lemma ScannedMore(es: seq<Entry>, e: Entry)
    ensures TableOf(AllSteps(es + [e])) == Fold(TableOf(AllSteps(es)), StepsOf(e))
    ensures StatusOf(es + [e]) == if KindOf(e.msg).RepositoryFinished? && e.fields.Some?
                                  then Some(ResultStatus(e.fields.value.result, e.fields.value.status))
                                  else StatusOf(es)
    ensures AtLeast(es + [e], 40) == AtLeast(es, 40) + if e.level >= 40 then 1 else 0
  {
    assert (es + [e])[..|es|] == es;
    FoldAppend(map[], AllSteps(es), StepsOf(e));
  }

  /** The rest of one turn. */
  method ScanEntry(e: Entry, table: BranchMap, hasIssues0: bool, status0: Option<string>, ghost es: seq<Entry>)
    returns (hasIssues: bool, status: Option<string>)
    requires table.Valid() && ScannedTo(es, table.View(), hasIssues0, status0)
    modifies table, table.details.Values
    ensures table.Valid() && (forall b :: b in table.details ==>
              table.details[b] in old(table.details.Values) || fresh(table.details[b]))
    ensures ScannedTo(es + [e], table.View(), hasIssues, status)
  {
    hasIssues, status := hasIssues0, status0;
    ScannedMore(es, e);
    if e.level >= 40 {
      hasIssues := true;
    }
    if KindOf(e.msg).RepositoryFinished? && e.fields.Some? {
      status := Some(ResultStatus(e.fields.value.result, e.fields.value.status));
    }
    table.Dispatch(e);
  }

  /** The scan loop. */
  method ScanAll(entries: seq<Entry>)
    returns (table: BranchMap, hasIssues: bool, status: Option<string>, warnCount: nat, errorCount: nat,
             issues: seq<Issue>,
             truncated: bool)
    ensures fresh(table) && table.Valid() && forall b :: b in table.details ==> fresh(table.details[b])
    ensures ScannedTo(entries, table.View(), hasIssues, status)
    ensures IssuesOf(entries, warnCount, errorCount, issues, truncated)
  {
    hasIssues, status := false, None;
    table := new BranchMap();
    warnCount, errorCount, issues, truncated := 0, 0, [], false;
    var seen: set<string> := {};
    ghost var es: seq<Entry> := [];
    for i := 0 to |entries|
      invariant fresh(table) && table.Valid() && forall b :: b in table.details ==> fresh(table.details[b])
      invariant es == entries[..i] && ScannedTo(es, table.View(), hasIssues, status)
      invariant IssuesOf(es, warnCount, errorCount, issues, truncated) && SeenUpTo(es, seen)
    {
      var e := entries[i];
      warnCount, errorCount, issues, truncated, seen :=
        CollectIssue(e, warnCount, errorCount, issues, truncated, seen, es);
      hasIssues, status := ScanEntry(e, table, hasIssues, status, es);
      TakeMore(entries, i);
      es := es + [e];
    }
    TakeAll(entries);
  }

  /** Entries are the lines that decode; a log without any says nothing. */
  method ParseRenovateLogs(entries: seq<Entry>) returns (r: LogParseResult)
    ensures r.hasIssues <==> AtLeast(entries, 40) > 0
    ensures r.status == StatusOf(entries)
    ensures entries == [] ==> r.activity.None? && r.logIssues.None?
    ensures entries != [] ==> r.activity.Some? && IsActivityOf(TableOf(AllSteps(entries)), r.activity.value)
    ensures entries != [] ==> r.logIssues.Some? && var l := r.logIssues.value;
                              IssuesOf(entries, l.warnCount, l.errorCount, l.issues, l.truncated)
    // A hundred branches and twenty issues at most are listed, and a list says whether it has been cut.
    ensures entries != [] ==> var a := r.activity.value; var n := |TableOf(AllSteps(entries))|;
                              |a.prs| == (if n > 100 then 100 else n) && (a.truncated <==> n > 100)
    ensures entries != [] ==> var l := r.logIssues.value; var n := |DistinctIssues(entries)|;
                              |l.issues| == (if n > 20 then 20 else n) && (l.truncated <==> n > 20)
  {
    var table, hasIssues, status, warnCount, errorCount, issues, truncated := ScanAll(entries);
    r := LogParseResult(hasIssues, status, None, None);
    if entries != [] {
      var activity := BuildPRActivity(table);
      r := r.(activity := Some(activity), logIssues := Some(LogIssues(warnCount, errorCount, issues, truncated)));
    }
  }

  lemma InfoStep(t: Table, infos: seq<BranchInfo>, i: nat)
    requires i < |infos|
    ensures Fold(t, InfoSteps(infos[..i + 1])) ==
            if infos[i].branchName == "" then Fold(t, InfoSteps(infos[..i]))
            else ApplyTo(Fold(t, InfoSteps(infos[..i])), Step(infos[i].branchName, Listed(infos[i])))
  {
    var info := infos[i];
    assert infos[..i + 1][..i] == infos[..i];
    if info.branchName == "" {
      Empty(InfoSteps(infos[..i]));
    } else {
      FoldAppend(t, InfoSteps(infos[..i]), [Step(info.branchName, Listed(info))]);
      FoldOne(Fold(t, InfoSteps(infos[..i])), Step(info.branchName, Listed(info)));
    }
  }

  /** Adjacent messages about different branches in either order: the same activity. */
  lemma SwapKeepsActivity(before: seq<Entry>, e: Entry, f: Entry, after: seq<Entry>, a: PRActivity, b: PRActivity)
    requires !SharesBranch(StepsOf(e), StepsOf(f))
    requires IsActivityOf(TableOf(AllSteps(before + [e] + [f] + after)), a)
    requires IsActivityOf(TableOf(AllSteps(before + [f] + [e] + after)), b)
    ensures a == b
  {
    SwapMessages(before, e, f, after);
    ActivityIsUnique(TableOf(AllSteps(before + [e] + [f] + after)), a, b);
  }
}
