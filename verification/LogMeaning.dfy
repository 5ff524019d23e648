/**
 What each message of a log means for its branch, read off the entry itself: what the branch ends up as
 when no later entry names it, whatever comes before and whatever is said about other branches.
 */
module LogMeaning {
  import opened LogSpec
  import opened Sequences
  import opened Wrappers

  // ---------- Logs that say no more about a branch ----------

  /** The entry has something about the branch in the fields its handler would read. */
  ghost predicate Names(e: Entry, b: string) {
    e.fields.Some? && (e.fields.value.branch == b || ItemsName(e.fields.value.infos, b))
  }

  ghost predicate ItemsName(infos: seq<BranchInfo>, b: string) {
    exists i :: 0 <= i < |infos| && infos[i].branchName == b
  }

  ghost predicate NeverNamed(es: seq<Entry>, b: string) {
    forall i :: 0 <= i < |es| ==> !Names(es[i], b)
  }

  lemma {:induction false} ItemsOfOthers(infos: seq<BranchInfo>, b: string)
    requires !ItemsName(infos, b)
    ensures forall s :: s in InfoSteps(infos) ==> s.branch != b
  {
    if infos != [] {
      var front, last := infos[..|infos| - 1], infos[|infos| - 1];
      assert last.branchName != b;
      assert forall i :: 0 <= i < |front| ==> front[i].branchName == infos[i].branchName;
      ItemsOfOthers(front, b);
    }
  }

  lemma StepsOfOthers(e: Entry, b: string)
    requires !Names(e, b)
    ensures forall s :: s in StepsOf(e) ==> s.branch != b
  {
    if e.fields.Some? {
      ItemsOfOthers(e.fields.value.infos, b);
    }
  }

  lemma {:induction false} NothingForBranch(es: seq<Entry>, b: string)
    requires NeverNamed(es, b)
    ensures forall s :: s in AllSteps(es) ==> s.branch != b
  {
    if es != [] {
      var front, last := es[..|es| - 1], es[|es| - 1];
      assert forall i :: 0 <= i < |front| ==> front[i] == es[i];
      NothingForBranch(front, b);
      StepsOfOthers(last, b);
    }
  }

  /** What a log ends up saying about a branch. */
  ghost function Final(es: seq<Entry>, b: string): Option<Detail> {
    Lookup(TableOf(AllSteps(es)), b)
  }

  /** The last entry that names a branch has the last word, on top of what was known before it. */
  lemma LastWord(before: seq<Entry>, e: Entry, after: seq<Entry>, b: string)
    requires NeverNamed(after, b)
    ensures Final(before + [e] + after, b) == Lookup(Fold(TableOf(AllSteps(before)), StepsOf(e)), b)
  {
    var steps := AllSteps(before) + StepsOf(e);
    AllStepsAppend(before + [e], after);
    AllStepsAppend(before, [e]);
    OneEntry(e);
    NothingForBranch(after, b);
    OnlyAppend(steps, AllSteps(after), b);
    NoneOfAnother(AllSteps(after), b);
    Empty(Only(steps, b));
    SameOnly(steps + AllSteps(after), steps, b);
    FoldAppend(map[], AllSteps(before), StepsOf(e));
  }

  lemma SameOnly(p: seq<Step>, q: seq<Step>, b: string)
    requires Only(p, b) == Only(q, b)
    ensures Lookup(TableOf(p), b) == Lookup(TableOf(q), b)
  {
    OnlyOwnChangesCount(p, b);
    OnlyOwnChangesCount(q, b);
    BranchesAreIndependent(p, b);
    BranchesAreIndependent(q, b);
  }

  /** A detail of the right branch, if there is any. */
  lemma FinalIsKeyed(es: seq<Entry>, b: string)
    ensures Final(es, b).Some? ==> Final(es, b).value.branch == b
  {
    BranchesAreIndependent(AllSteps(es), b);
  }

  // ---------- The messages ----------

  /** What the handlers start from: the branch as it was, or an empty detail. */
  ghost predicate StartsFrom(was: Option<Detail>, b: string, d: Detail) {
    if was.Some? then d == was.value else d == Detail(b, 0, "", NoAction)
  }

  /** An entry that makes one change to a branch. */
  lemma OneChange(before: seq<Entry>, e: Entry, after: seq<Entry>, s: Step)
    requires NeverNamed(after, s.branch) && StepsOf(e) == [s]
    ensures Final(before + [e] + after, s.branch) == Apply(Final(before, s.branch), s)
  {
    LastWord(before, e, after, s.branch);
    FoldOne(TableOf(AllSteps(before)), s);
  }

  /** An entry that changes nothing. */
  lemma NoChange(before: seq<Entry>, e: Entry, after: seq<Entry>, b: string)
    requires NeverNamed(after, b) && StepsOf(e) == []
    ensures Final(before + [e] + after, b) == Final(before, b)
  {
    LastWord(before, e, after, b);
  }

  lemma Creating(before: seq<Entry>, e: Entry, after: seq<Entry>, was: Detail)
    requires e.msg == "Creating PR" && e.fields.Some? && e.fields.value.branch != ""
    requires NeverNamed(after, e.fields.value.branch)
    requires StartsFrom(Final(before, e.fields.value.branch), e.fields.value.branch, was)
    ensures var f := e.fields.value;
            Final(before + [e] + after, f.branch) == Some(Detail(was.branch, was.number, f.title, Created))
  {
    OneChange(before, e, after, Step(e.fields.value.branch, Named(Created, e.fields.value.title)));
  }

  lemma Updating(before: seq<Entry>, e: Entry, after: seq<Entry>, was: Detail)
    requires e.msg == "Updating PR" && e.fields.Some? && e.fields.value.branch != ""
    requires NeverNamed(after, e.fields.value.branch)
    requires StartsFrom(Final(before, e.fields.value.branch), e.fields.value.branch, was)
    ensures var f := e.fields.value;
            Final(before + [e] + after, f.branch) == Some(Detail(was.branch, was.number, f.title, Updated))
  {
    OneChange(before, e, after, Step(e.fields.value.branch, Named(Updated, e.fields.value.title)));
  }

  lemma NotUpdatedKind(left: string, right: string)
    ensures KindOf(left + "does not need updating" + right) == NoUpdateNeeded
  {
    var phrase, msg := "does not need updating", left + "does not need updating" + right;
    assert msg[|left|..|left| + |phrase|] == phrase;
    assert OccursAt(msg, phrase, |left|);
    assert |msg| >= 22;
  }

  lemma DoesNotNeedUpdating(before: seq<Entry>, e: Entry, after: seq<Entry>, was: Detail, left: string, right: string)
    requires e.msg == left + "does not need updating" + right
    requires e.fields.Some? && e.fields.value.branch != "" && e.prNumber.Some?
    requires NeverNamed(after, e.fields.value.branch)
    requires StartsFrom(Final(before, e.fields.value.branch), e.fields.value.branch, was)
    ensures Final(before + [e] + after, e.fields.value.branch)
         == Some(Detail(was.branch, e.prNumber.value, was.title, Unchanged))
  {
    NotUpdatedKind(left, right);
    OneChange(before, e, after, Step(e.fields.value.branch, NotUpdated(e.prNumber.value)));
  }

  lemma {:induction false} FirstUrlIs(remote: seq<Remote>, i: nat)
    requires i < |remote| && remote[i].Url? && forall j :: 0 <= j < i ==> remote[j].NoUrl?
    ensures FirstUrl(remote) == Some(remote[i].number)
  {
    if i > 0 {
      FirstUrlIs(remote[1..], i - 1);
    }
  }

  /** Only the first remote message with a URL counts, and only if its number can be read. */
  lemma GitPushed(before: seq<Entry>, e: Entry, after: seq<Entry>, was: Detail, i: nat)
    requires e.msg == "git push" && e.fields.Some? && e.fields.value.branch != ""
    requires var remote := e.fields.value.remote;
             i < |remote| && remote[i].Url? && forall j :: 0 <= j < i ==> remote[j].NoUrl?
    requires NeverNamed(after, e.fields.value.branch)
    requires StartsFrom(Final(before, e.fields.value.branch), e.fields.value.branch, was)
    ensures var f := e.fields.value; var found := f.remote[i].number;
            Final(before + [e] + after, f.branch) ==
            Some(Detail(was.branch, if found.Some? then found.value else was.number, was.title, was.action))
  {
    FirstUrlIs(e.fields.value.remote, i);
    OneChange(before, e, after, Step(e.fields.value.branch, Pushed(e.fields.value.remote[i].number)));
  }

  lemma PullRequestCreated(before: seq<Entry>, e: Entry, after: seq<Entry>, was: Detail)
    requires e.msg == "PR created" && e.fields.Some? && e.fields.value.branch != "" && e.fields.value.pr > 0
    requires NeverNamed(after, e.fields.value.branch)
    requires StartsFrom(Final(before, e.fields.value.branch), e.fields.value.branch, was)
    ensures var f := e.fields.value;
            Final(before + [e] + after, f.branch) ==
            Some(Detail(was.branch, f.pr, if was.title == "" then f.prTitle else was.title, was.action))
  {
    OneChange(before, e, after, Step(e.fields.value.branch, Opened(e.fields.value.pr, e.fields.value.prTitle)));
  }

  lemma PullRequestAutomerged(before: seq<Entry>, e: Entry, after: seq<Entry>, was: Detail)
    requires e.msg == "PR automerged" && e.fields.Some? && e.fields.value.branch != ""
    requires NeverNamed(after, e.fields.value.branch)
    requires StartsFrom(Final(before, e.fields.value.branch), e.fields.value.branch, was)
    ensures var f := e.fields.value;
            Final(before + [e] + after, f.branch) ==
            Some(Detail(was.branch, if f.pr > 0 then f.pr else was.number,
                        if was.title == "" then f.prTitle else was.title, Automerged))
  {
    OneChange(before, e, after, Step(e.fields.value.branch, Merged(e.fields.value.pr, e.fields.value.prTitle)));
  }

  /**
   A summary item gives a known branch a title it lacks; it adds an unknown branch if the result says that
   it was worked on, and otherwise leaves it out.
   */
  ghost predicate AfterItem(was: Option<Detail>, info: BranchInfo, now: Option<Detail>) {
    var number := if info.prNo.Some? then info.prNo.value else 0;
    if was.Some? then
      now == Some(Detail(was.value.branch, was.value.number,
                         if was.value.title == "" then info.prTitle else was.value.title, was.value.action))
    else if info.result == "needs-approval" then
      now == Some(Detail(info.branchName, number, info.prTitle, NeedsApproval))
    else if info.result == "done" || info.result == "automerged" || info.result == "" then
      now == Some(Detail(info.branchName, number, info.prTitle, Unchanged))
    else
      now == None
  }

  lemma ItemMeans(was: Option<Detail>, info: BranchInfo)
    ensures AfterItem(was, info, Apply(was, Step(info.branchName, Listed(info))))
  {
  }

  lemma SummarySteps(e: Entry)
    requires e.msg == "branches info extended" && e.fields.Some?
    ensures StepsOf(e) == InfoSteps(e.fields.value.infos)
  {
    var msg, phrase := "branches info extended", "does not need updating";
    assert !OccursAt(msg, phrase, 0) by {
      assert msg[0..22][0] == 'b' && phrase[0] == 'd';
    }
    assert |msg| == |phrase| && !Contains(msg, phrase);
  }

  /** The message with the items before number i only. */
  ghost function CutAt(e: Entry, i: nat): Entry
    requires e.fields.Some? && i <= |e.fields.value.infos|
  {
    e.(fields := Some(e.fields.value.(infos := e.fields.value.infos[..i])))
  }

  /** Such is what the last summary item about a branch does, on top of what the items before it have done. */
  lemma Summarized(before: seq<Entry>, e: Entry, after: seq<Entry>, i: nat)
    requires e.msg == "branches info extended" && e.fields.Some? && i < |e.fields.value.infos|
    requires var infos := e.fields.value.infos;
             infos[i].branchName != "" && !ItemsName(infos[i + 1..], infos[i].branchName)
    requires NeverNamed(after, e.fields.value.infos[i].branchName)
    ensures var info := e.fields.value.infos[i]; var b := info.branchName;
            AfterItem(Final(before + [CutAt(e, i)], b), info, Final(before + [e] + after, b))
  {
    var infos := e.fields.value.infos;
    var b := infos[i].branchName;
    LastWord(before, e, after, b);
    LastWord(before, CutAt(e, i), [], b);
    Empty(before + [CutAt(e, i)]);
    SummarySteps(e);
    SummarySteps(CutAt(e, i));
    OneItemCounts(TableOf(AllSteps(before)), infos, i);
    ItemMeans(Final(before + [CutAt(e, i)], b), infos[i]);
  }

  /** Items about other branches do nothing to a branch. */
  lemma SummarizedOthers(before: seq<Entry>, e: Entry, after: seq<Entry>, b: string)
    requires e.msg == "branches info extended" && e.fields.Some? && !ItemsName(e.fields.value.infos, b)
    requires NeverNamed(after, b)
    ensures Final(before + [e] + after, b) == Final(before, b)
  {
    LastWord(before, e, after, b);
    SummarySteps(e);
    ItemsOfOthers(e.fields.value.infos, b);
    OthersKeep(TableOf(AllSteps(before)), InfoSteps(e.fields.value.infos), b);
  }

  /** Of a summary, a branch sees only the items that name it. */
  lemma OneItemCounts(t: Table, infos: seq<BranchInfo>, i: nat)
    requires i < |infos| && infos[i].branchName != "" && !ItemsName(infos[i + 1..], infos[i].branchName)
    ensures var b := infos[i].branchName;
            Lookup(Fold(t, InfoSteps(infos)), b) ==
            Apply(Lookup(Fold(t, InfoSteps(infos[..i])), b), Step(b, Listed(infos[i])))
  {
    var b := infos[i].branchName;
    InfoStepsInThree(infos, i);
    ItemsOfOthers(infos[i + 1..], b);
    OneStepCounts(t, InfoSteps(infos[..i]), Step(b, Listed(infos[i])), InfoSteps(infos[i + 1..]));
  }

  lemma InfoStepsInThree(infos: seq<BranchInfo>, i: nat)
    requires i < |infos| && infos[i].branchName != ""
    ensures InfoSteps(infos) ==
            InfoSteps(infos[..i]) + [Step(infos[i].branchName, Listed(infos[i]))] + InfoSteps(infos[i + 1..])
  {
    assert infos == infos[..i] + [infos[i]] + infos[i + 1..];
    InfoStepsAppend(infos[..i] + [infos[i]], infos[i + 1..]);
    InfoStepsAppend(infos[..i], [infos[i]]);
    OneItem(infos[i]);
  }

  lemma OneStepCounts(t: Table, x: seq<Step>, s: Step, z: seq<Step>)
    requires forall r :: r in z ==> r.branch != s.branch
    ensures Lookup(Fold(t, x + [s] + z), s.branch) == Apply(Lookup(Fold(t, x), s.branch), s)
  {
    FoldAppend(t, x + [s], z);
    FoldAppend(t, x, [s]);
    FoldOne(Fold(t, x), s);
    OthersKeep(Fold(t, x + [s]), z, s.branch);
  }

  lemma {:induction false} OthersKeep(t: Table, steps: seq<Step>, b: string)
    requires forall s :: s in steps ==> s.branch != b
    ensures Lookup(Fold(t, steps), b) == Lookup(t, b)
  {
    if steps != [] {
      OthersKeep(t, steps[..|steps| - 1], b);
    }
  }

  /** Not one of the messages that have a handler. */
  ghost predicate Unhandled(msg: string) {
    && msg != "Creating PR" && msg != "Updating PR" && msg != "git push" && msg != "PR created"
    && msg != "PR automerged" && msg != "branches info extended"
    && forall i :: !OccursAt(msg, "does not need updating", i)
  }

  lemma UnhandledKind(msg: string)
    requires Unhandled(msg)
    ensures KindOf(msg) == RepositoryFinished || KindOf(msg) == Other
  {
  }

  /** A line that does not decode, one without a branch, and one without what its message needs say nothing. */
  lemma SaysNothing(before: seq<Entry>, e: Entry, after: seq<Entry>, b: string)
    requires NeverNamed(after, b)
    requires
      || e.fields.None? || Unhandled(e.msg)
      || (e.fields.value.branch == "" && e.msg != "branches info extended")
      || (e.msg == "PR created" && e.fields.value.pr <= 0)
      || (e.msg == "git push" && forall j :: 0 <= j < |e.fields.value.remote| ==> e.fields.value.remote[j].NoUrl?)
    ensures Final(before + [e] + after, b) == Final(before, b)
  {
    if Unhandled(e.msg) {
      UnhandledKind(e.msg);
    } else if e.fields.Some? && e.msg == "git push" {
      NoUrlAnywhere(e.fields.value.remote);
    }
    NoChange(before, e, after, b);
  }

  lemma NoNumberSaysNothing(before: seq<Entry>, e: Entry, after: seq<Entry>, b: string, left: string, right: string)
    requires e.msg == left + "does not need updating" + right && e.prNumber.None? && NeverNamed(after, b)
    ensures Final(before + [e] + after, b) == Final(before, b)
  {
    NotUpdatedKind(left, right);
    NoChange(before, e, after, b);
  }

  lemma {:induction false} NoUrlAnywhere(remote: seq<Remote>)
    ensures (forall j :: 0 <= j < |remote| ==> remote[j].NoUrl?) ==> FirstUrl(remote) == None
  {
    if remote != [] {
      NoUrlAnywhere(remote[1..]);
    }
  }

  // ---------- The repository's result and the issues ----------

  /** The last "Repository finished" that decodes decides the status, by its result or else its status field. */
  lemma FinishedMeans(before: seq<Entry>, e: Entry, after: seq<Entry>)
    requires e.msg == "Repository finished" && e.fields.Some?
    requires forall i :: 0 <= i < |after| ==> after[i].msg != "Repository finished" || after[i].fields.None?
    ensures var f := e.fields.value; var status := StatusOf(before + [e] + after);
            && (f.result == "disabled-by-config" ==> status == Some("Disabled"))
            && (f.result == "disabled-closed-onboarding" ==> status == Some("Onboarding Closed"))
            && (f.result == "disabled-no-config" ==> status == Some("No Config"))
            && (f.result == "" && f.status == "onboarding" ==> status == Some("Onboarding"))
            && (f.result == "" && f.status != "onboarding" ==> status == Some("Unknown"))
            && (f.result !in ["disabled-by-config", "disabled-closed-onboarding", "disabled-no-config", ""] ==>
                  status == Some(f.result))
  {
    StatusStays(before + [e], after);
    assert (before + [e])[..|before|] == before;
  }

  lemma {:induction false} StatusStays(es: seq<Entry>, after: seq<Entry>)
    requires forall i :: 0 <= i < |after| ==> after[i].msg != "Repository finished" || after[i].fields.None?
    ensures StatusOf(es + after) == StatusOf(es)
    decreases |after|
  {
    if after == [] {
      Empty(es);
    } else {
      StatusStays(es, after[..|after| - 1]);
      Snoc(es, after);
      OtherKind(after[|after| - 1].msg);
    }
  }

  lemma OtherKind(msg: string)
    ensures KindOf(msg).RepositoryFinished? <==> msg == "Repository finished"
  {
  }

  /** Messages up to 256 bytes are shown as they are, and of longer ones the first 256 with an ellipsis. */
  lemma ShortenMeans(msg: string)
    ensures |msg| <= 256 ==> Shorten(msg) == msg
    ensures |msg| > 256 ==> |Shorten(msg)| == 259 && Shorten(msg)[..256] == msg[..256]
  {
  }

  /** Warnings and worse with a message are worth an issue. */
  lemma NotableMeans(e: Entry)
    ensures Notable(e) <==> e.level >= 40 && e.msg != ""
  {
  }

  lemma {:induction false} AtLeastCounts(es: seq<Entry>, level: int)
    ensures AtLeast(es, level) == |set i | 0 <= i < |es| && es[i].level >= level|
  {
    if es != [] {
      var n := |es| - 1;
      AtLeastCounts(es[..n], level);
      var front := set i | 0 <= i < n && es[..n][i].level >= level;
      var all := set i | 0 <= i < |es| && es[i].level >= level;
      assert all == if es[n].level >= level then front + {n} else front;
    }
  }
}
