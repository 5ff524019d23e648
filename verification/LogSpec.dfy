/**
 Decoded log entries and what they mean.  Strings are sequences of bytes, as Go counts them.

 An entry changes the details of branches one branch at a time; the whole log means one independent
 fold for each branch.
 */
module LogSpec {
  import opened Sequences
  import opened Strings
  import opened Wrappers

  const MAX_PR_DETAILS := 100
  const MAX_LOG_ISSUES := 20
  const MAX_ISSUE_MESSAGE_LEN := 256

  datatype Action = NoAction | Automerged | Created | Updated | NeedsApproval | Unchanged

  datatype Detail = Detail(branch: string, number: int, title: string, action: Action)

  datatype BranchInfo = BranchInfo(branchName: string, prNo: Option<int>, prTitle: string, result: string)

  /** What the URL search finds in one remote message of a push; the number may not be readable. */
  datatype Remote = NoUrl | Url(number: Option<int>)

  /** The fields a handler reads from its line. */
  datatype Fields = Fields(
    branch: string, title: string, pr: int, prTitle: string, remote: seq<Remote>, infos: seq<BranchInfo>,
    result: string, status: string)

  datatype Kind =
    | RepositoryFinished | CreatingPR | UpdatingPR | NoUpdateNeeded | GitPush
    | PRCreated | PRAutomerged | BranchesInfo | Other

  predicate OccursAt(s: string, t: string, i: int) {
    0 <= i <= |s| - |t| && s[i..i + |t|] == t
  }

  predicate Contains(s: string, t: string) {
    exists i | 0 <= i <= |s| - |t| :: OccursAt(s, t, i)
  }

  function KindOf(msg: string): Kind {
    if msg == "Repository finished" then RepositoryFinished
    else if msg == "Creating PR" then CreatingPR
    else if msg == "Updating PR" then UpdatingPR
    else if Contains(msg, "does not need updating") then NoUpdateNeeded
    else if msg == "git push" then GitPush
    else if msg == "PR created" then PRCreated
    else if msg == "PR automerged" then PRAutomerged
    else if msg == "branches info extended" then BranchesInfo
    else Other
  }

  /**
   One decoded line.  `fields` is None when the line does not decode for its handler, `prNumber` when the
   message names no PR.
   */
  datatype Entry = Entry(level: int, msg: string, prNumber: Option<int>, fields: Option<Fields>)

  // ---------- Changes to one branch ----------

  datatype Change =
    | Named(action: Action, title: string)
    | NotUpdated(number: int)
    | Pushed(found: Option<int>)
    | Opened(pr: int, prTitle: string)
    | Merged(pr: int, prTitle: string)
    | Listed(info: BranchInfo)

  datatype Step = Step(branch: string, change: Change)

  predicate Active(result: string) {
    result == "needs-approval" || result == "done" || result == "automerged" || result == ""
  }

  function OrNew(d: Option<Detail>, branch: string): Detail {
    if d.Some? then d.value else Detail(branch, 0, "", NoAction)
  }

  function Backfilled(d: Detail, title: string): Detail {
    if d.title == "" && title != "" then d.(title := title) else d
  }

  function Apply(d: Option<Detail>, s: Step): Option<Detail> {
    var e := OrNew(d, s.branch);
    match s.change
    case Named(action, title) => Some(e.(action := action, title := title))
    case NotUpdated(number) => Some(e.(action := Unchanged, number := number))
    case Pushed(found) => Some(if found.Some? then e.(number := found.value) else e)
    case Opened(pr, prTitle) => Some(Backfilled(e.(number := pr), prTitle))
    case Merged(pr, prTitle) =>
      Some(Backfilled(e.(action := Automerged, number := if pr > 0 then pr else e.number), prTitle))
    case Listed(info) =>
      if d.Some? then Some(Backfilled(d.value, info.prTitle))
      else if !Active(info.result) then None
      else Some(Detail(s.branch, if info.prNo.Some? then info.prNo.value else 0, info.prTitle,
                       if info.result == "needs-approval" then NeedsApproval else Unchanged))
  }

  /** The first remote message with a URL. */
  function FirstUrl(remote: seq<Remote>): Option<Option<int>> {
    if remote == [] then None
    else if remote[0].Url? then Some(remote[0].number)
    else FirstUrl(remote[1..])
  }

  function InfoSteps(infos: seq<BranchInfo>): seq<Step> {
    if infos == [] then []
    else
      var last := infos[|infos| - 1];
      InfoSteps(infos[..|infos| - 1]) + if last.branchName == "" then [] else [Step(last.branchName, Listed(last))]
  }

  /** The changes an entry makes, in order. */
  function StepsOf(e: Entry): seq<Step> {
    if e.fields.None? then []
    else
      var f := e.fields.value;
      match KindOf(e.msg)
      case CreatingPR => if f.branch == "" then [] else [Step(f.branch, Named(Created, f.title))]
      case UpdatingPR => if f.branch == "" then [] else [Step(f.branch, Named(Updated, f.title))]
      case NoUpdateNeeded =>
        if f.branch == "" || e.prNumber.None? then [] else [Step(f.branch, NotUpdated(e.prNumber.value))]
      case GitPush =>
        if f.branch == "" || FirstUrl(f.remote).None? then [] else [Step(f.branch, Pushed(FirstUrl(f.remote).value))]
      case PRCreated => if f.branch == "" || f.pr <= 0 then [] else [Step(f.branch, Opened(f.pr, f.prTitle))]
      case PRAutomerged => if f.branch == "" then [] else [Step(f.branch, Merged(f.pr, f.prTitle))]
      case BranchesInfo => InfoSteps(f.infos)
      case _ => []
  }

  function AllSteps(es: seq<Entry>): seq<Step> {
    if es == [] then [] else AllSteps(es[..|es| - 1]) + StepsOf(es[|es| - 1])
  }

  // ---------- The shared table and the separate branches ----------

  type Table = map<string, Detail>

  function Lookup(t: Table, branch: string): Option<Detail> {
    if branch in t then Some(t[branch]) else None
  }

  function ApplyTo(t: Table, s: Step): Table {
    var d := Apply(Lookup(t, s.branch), s);
    if d.Some? then t[s.branch := d.value] else t
  }

  ghost function Fold(t: Table, steps: seq<Step>): Table {
    if steps == [] then t else ApplyTo(Fold(t, steps[..|steps| - 1]), steps[|steps| - 1])
  }

  /** What the shared table holds after the changes. */
  ghost function TableOf(steps: seq<Step>): Table { Fold(map[], steps) }

  lemma {:induction false} FoldAppend(t: Table, a: seq<Step>, b: seq<Step>)
    ensures Fold(t, a + b) == Fold(Fold(t, a), b)
    decreases |b|
  {
    if b == [] {
      Empty(a);
    } else {
      FoldAppend(t, a, b[..|b| - 1]);
      Snoc(a, b);
    }
  }

  lemma FoldOne(t: Table, s: Step)
    ensures Fold(t, [s]) == ApplyTo(t, s) && Fold(t, []) == t
  {
    assert [s][..0] == [];
  }

  /** What one branch ends up as, looking at its own changes only. */
  ghost function BranchOf(steps: seq<Step>, branch: string): Option<Detail> {
    if steps == [] then None
    else
      var before := BranchOf(steps[..|steps| - 1], branch);
      if steps[|steps| - 1].branch == branch then Apply(before, steps[|steps| - 1]) else before
  }

  /** The shared table is one independent fold per branch, and no detail strays from its key. */
  lemma {:induction false} BranchesAreIndependent(steps: seq<Step>, branch: string)
    ensures Lookup(TableOf(steps), branch) == BranchOf(steps, branch)
    ensures forall b :: b in TableOf(steps) ==> TableOf(steps)[b].branch == b
  {
    if steps != [] {
      var front, last := steps[..|steps| - 1], steps[|steps| - 1];
      BranchesAreIndependent(front, branch);
      BranchesAreIndependent(front, last.branch);
    }
  }

  /** The changes to one branch. */
  ghost function Only(steps: seq<Step>, branch: string): seq<Step> {
    if steps == [] then []
    else
      var front, last := Only(steps[..|steps| - 1], branch), steps[|steps| - 1];
      if last.branch == branch then front + [last] else front
  }

  lemma {:induction false} OnlyOwnChangesCount(steps: seq<Step>, branch: string)
    ensures BranchOf(steps, branch) == BranchOf(Only(steps, branch), branch)
  {
    if steps != [] {
      OnlyOwnChangesCount(steps[..|steps| - 1], branch);
      var front := Only(steps[..|steps| - 1], branch);
      assert (front + [steps[|steps| - 1]])[..|front|] == front;
    }
  }

  lemma {:induction false} OnlyAppend(a: seq<Step>, b: seq<Step>, branch: string)
    ensures Only(a + b, branch) == Only(a, branch) + Only(b, branch)
    decreases |b|
  {
    if b == [] {
      Empty(a);
      Empty(Only(a, branch));
    } else {
      OnlyAppend(a, b[..|b| - 1], branch);
      Snoc(a, b);
      Assoc(Only(a, branch), Only(b[..|b| - 1], branch), [b[|b| - 1]]);
    }
  }

  lemma {:induction false} NoneOfAnother(steps: seq<Step>, branch: string)
    requires forall s :: s in steps ==> s.branch != branch
    ensures Only(steps, branch) == []
  {
    if steps != [] {
      NoneOfAnother(steps[..|steps| - 1], branch);
    }
  }

  ghost predicate SharesBranch(x: seq<Step>, y: seq<Step>) {
    exists s, t :: s in x && t in y && s.branch == t.branch
  }

  /** Two blocks of changes to different branches can change places. */
  lemma SwapBlocks(before: seq<Step>, x: seq<Step>, y: seq<Step>, after: seq<Step>)
    requires !SharesBranch(x, y)
    ensures TableOf(before + x + y + after) == TableOf(before + y + x + after)
  {
    var p, q := before + x + y + after, before + y + x + after;
    forall b
      ensures Lookup(TableOf(p), b) == Lookup(TableOf(q), b)
    {
      OnlyFour(before, x, y, after, b);
      OnlyFour(before, y, x, after, b);
      if s :| s in x && s.branch == b {
        NoneOfAnother(y, b);
      } else {
        NoneOfAnother(x, b);
      }
      Empty(Only(before, b));
      Empty(Only(before, b) + Only(x, b));
      Empty(Only(before, b) + Only(y, b));
      BranchesAreIndependent(p, b);
      BranchesAreIndependent(q, b);
      OnlyOwnChangesCount(p, b);
      OnlyOwnChangesCount(q, b);
    }
    SameTables(TableOf(p), TableOf(q));
  }

  lemma OnlyFour(w: seq<Step>, x: seq<Step>, y: seq<Step>, z: seq<Step>, b: string)
    ensures Only(w + x + y + z, b) == Only(w, b) + Only(x, b) + Only(y, b) + Only(z, b)
  {
    OnlyAppend(w + x + y, z, b);
    OnlyAppend(w + x, y, b);
    OnlyAppend(w, x, b);
  }

  lemma SameTables(t: Table, u: Table)
    requires forall b :: Lookup(t, b) == Lookup(u, b)
    ensures t == u
  {
    forall b
      ensures b in t <==> b in u
      ensures b in t ==> t[b] == u[b]
    {
      assert Lookup(t, b) == Lookup(u, b);
    }
  }

  lemma {:induction false} AllStepsAppend(a: seq<Entry>, b: seq<Entry>)
    ensures AllSteps(a + b) == AllSteps(a) + AllSteps(b)
    decreases |b|
  {
    if b == [] {
      Empty(a);
      Empty(AllSteps(a));
    } else {
      AllStepsAppend(a, b[..|b| - 1]);
      Snoc(a, b);
      Assoc(AllSteps(a), AllSteps(b[..|b| - 1]), StepsOf(b[|b| - 1]));
    }
  }

  /** Adjacent messages about different branches can change places without changing any branch. */
  lemma SwapMessages(before: seq<Entry>, e: Entry, f: Entry, after: seq<Entry>)
    requires !SharesBranch(StepsOf(e), StepsOf(f))
    ensures TableOf(AllSteps(before + [e] + [f] + after)) == TableOf(AllSteps(before + [f] + [e] + after))
  {
    StepsOfFour(before, e, f, after);
    StepsOfFour(before, f, e, after);
    SwapBlocks(AllSteps(before), StepsOf(e), StepsOf(f), AllSteps(after));
  }

  lemma StepsOfFour(before: seq<Entry>, e: Entry, f: Entry, after: seq<Entry>)
    ensures AllSteps(before + [e] + [f] + after) == AllSteps(before) + StepsOf(e) + StepsOf(f) + AllSteps(after)
  {
    AllStepsAppend(before + [e] + [f], after);
    AllStepsAppend(before + [e], [f]);
    AllStepsAppend(before, [e]);
    OneEntry(e);
    OneEntry(f);
  }

  lemma OneEntry(e: Entry)
    ensures AllSteps([e]) == StepsOf(e)
  {
    assert [e][..0] == [];
    Empty(StepsOf(e));
  }

  lemma {:induction false} InfoStepsAppend(a: seq<BranchInfo>, b: seq<BranchInfo>)
    ensures InfoSteps(a + b) == InfoSteps(a) + InfoSteps(b)
    decreases |b|
  {
    if b == [] {
      Empty(a);
      Empty(InfoSteps(a));
    } else {
      var last := b[|b| - 1];
      InfoStepsAppend(a, b[..|b| - 1]);
      Snoc(a, b);
      Assoc(InfoSteps(a), InfoSteps(b[..|b| - 1]),
            if last.branchName == "" then [] else [Step(last.branchName, Listed(last))]);
    }
  }

  /** The same for adjacent items of one branches-info message, wherever the message stands in the log. */
  lemma SwapItems(before: seq<Step>, a: seq<BranchInfo>, i: BranchInfo, j: BranchInfo,
                  b: seq<BranchInfo>, after: seq<Step>)
    requires i.branchName != j.branchName
    ensures TableOf(before + InfoSteps(a + [i] + [j] + b) + after)
          == TableOf(before + InfoSteps(a + [j] + [i] + b) + after)
  {
    ItemsOfFour(a, i, j, b);
    ItemsOfFour(a, j, i, b);
    var w, x, y, z := InfoSteps(a), InfoSteps([i]), InfoSteps([j]), InfoSteps(b);
    OneItem(i);
    OneItem(j);
    SwapBlocks(before + w, x, y, z + after);
    Regroup(before, w, x, y, z, after);
    Regroup(before, w, y, x, z, after);
  }

  lemma Regroup<T>(before: seq<T>, w: seq<T>, x: seq<T>, y: seq<T>, z: seq<T>, after: seq<T>)
    ensures before + (w + x + y + z) + after == (before + w) + x + y + (z + after)
  {
  }

  lemma OneItem(i: BranchInfo)
    ensures InfoSteps([i]) == if i.branchName == "" then [] else [Step(i.branchName, Listed(i))]
  {
    assert [i][..0] == [];
  }

  lemma ItemsOfFour(a: seq<BranchInfo>, i: BranchInfo, j: BranchInfo, b: seq<BranchInfo>)
    ensures InfoSteps(a + [i] + [j] + b) == InfoSteps(a) + InfoSteps([i]) + InfoSteps([j]) + InfoSteps(b)
  {
    InfoStepsAppend(a + [i] + [j], b);
    InfoStepsAppend(a + [i], [j]);
    InfoStepsAppend(a, [i]);
  }

  // ---------- The repository's result ----------

  function ResultStatus(result: string, status: string): string {
    if result == "disabled-by-config" then "Disabled"
    else if result == "disabled-closed-onboarding" then "Onboarding Closed"
    else if result == "disabled-no-config" then "No Config"
    else if result != "" then result
    else if status == "onboarding" then "Onboarding"
    else "Unknown"
  }

  /** The last decodable "Repository finished" decides. */
  ghost function StatusOf(es: seq<Entry>): Option<string> {
    if es == [] then None
    else
      var e := es[|es| - 1];
      if KindOf(e.msg).RepositoryFinished? && e.fields.Some?
      then Some(ResultStatus(e.fields.value.result, e.fields.value.status))
      else StatusOf(es[..|es| - 1])
  }

  // ---------- Issues ----------

  datatype Issue = Issue(level: int, message: string)

  function Shorten(msg: string): string {
    if |msg| > MAX_ISSUE_MESSAGE_LEN then msg[..MAX_ISSUE_MESSAGE_LEN] + ELLIPSIS else msg
  }

  predicate Notable(e: Entry) {
    e.level >= 40 && Shorten(e.msg) != ""
  }

  ghost predicate Mentioned(es: seq<Entry>, message: string) {
    exists i :: 0 <= i < |es| && Notable(es[i]) && Shorten(es[i].msg) == message
  }

  /** The positions at which a notable message stands for the first time, in order. */
  ghost function FirstMentions(es: seq<Entry>): seq<nat> {
    if es == [] then []
    else
      var n := |es| - 1;
      if Notable(es[n]) && !Mentioned(es[..n], Shorten(es[n].msg)) then FirstMentions(es[..n]) + [n]
      else FirstMentions(es[..n])
  }

  function IssueOf(e: Entry): Issue { Issue(e.level, Shorten(e.msg)) }

  /** The distinct notable messages in order of first occurrence, each with the level it first had. */
  ghost function DistinctIssues(es: seq<Entry>): seq<Issue> {
    if es == [] then []
    else
      var n := |es| - 1;
      if Notable(es[n]) && !Mentioned(es[..n], Shorten(es[n].msg)) then DistinctIssues(es[..n]) + [IssueOf(es[n])]
      else DistinctIssues(es[..n])
  }

  /** How many entries are at or above the level. */
  ghost function AtLeast(es: seq<Entry>, level: int): nat {
    if es == [] then 0
    else AtLeast(es[..|es| - 1], level) + if es[|es| - 1].level >= level then 1 else 0
  }

  /** Each issue is the first of its message, they stand in the order of the log, and none is missing. */
  lemma {:induction false} IssuesAreFirstMentions(es: seq<Entry>)
    ensures |DistinctIssues(es)| == |FirstMentions(es)|
    ensures forall k :: 0 <= k < |FirstMentions(es)| ==>
              var i := FirstMentions(es)[k];
              && i < |es| && Notable(es[i]) && !Mentioned(es[..i], Shorten(es[i].msg))
              && DistinctIssues(es)[k].level == es[i].level && DistinctIssues(es)[k].message == Shorten(es[i].msg)
    ensures forall k, l :: 0 <= k < l < |FirstMentions(es)| ==> FirstMentions(es)[k] < FirstMentions(es)[l]
  {
    if es != [] {
      var n := |es| - 1;
      IssuesAreFirstMentions(es[..n]);
      forall i | 0 <= i <= n
        ensures es[..n][..i] == es[..i]
      {
      }
    }
  }

  ghost predicate IsIssue(issues: seq<Issue>, message: string) {
    exists k :: 0 <= k < |issues| && issues[k].message == message
  }

  lemma {:induction false} MentionedIsIssue(es: seq<Entry>, message: string)
    ensures Mentioned(es, message) <==> IsIssue(DistinctIssues(es), message)
  {
    if es != [] {
      var n := |es| - 1;
      MentionedIsIssue(es[..n], message);
      MentionsGrow(es);
      var s, t := DistinctIssues(es[..n]), DistinctIssues(es);
      if k :| 0 <= k < |s| && s[k].message == message {
        assert t[k].message == message;
      }
      if k :| 0 <= k < |t| && t[k].message == message {
        assert k < |s| ==> s[k].message == message;
      }
      assert |t| > |s| ==> t[|t| - 1] == IssueOf(es[n]);
    }
  }

  lemma MentionsGrow(es: seq<Entry>)
    requires es != []
    ensures var n := |es| - 1;
            forall m :: Mentioned(es, m) <==> Mentioned(es[..n], m) || (Notable(es[n]) && Shorten(es[n].msg) == m)
  {
    var n := |es| - 1;
    var b := es[..n];
    forall m
      ensures Mentioned(es, m) <==> Mentioned(b, m) || (Notable(es[n]) && Shorten(es[n].msg) == m)
    {
      if Mentioned(b, m) {
        var i :| 0 <= i < n && Notable(b[i]) && Shorten(b[i].msg) == m;
        assert Notable(es[i]);
      }
      if i :| 0 <= i < |es| && Notable(es[i]) && Shorten(es[i].msg) == m {
        assert i < n ==> Notable(b[i]);
      }
    }
  }
}
