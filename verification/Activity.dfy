/** The summary of a table of branches: counts, and one listing that does not depend on iteration order. */
module Activity {
  import opened LogSpec

  datatype PRActivity = PRActivity(
    automerged: nat, created: nat, updated: nat, needsApproval: nat, notChanged: nat, prs: seq<Detail>, truncated: bool)

  /** Branches seen only in pushes or PR creation count as updated. */
  function Defaulted(d: Detail): Detail {
    if d.action.NoAction? && d.number > 0 then d.(action := Updated) else d
  }

  ghost function Final(t: Table): Table {
    map b | b in t :: Defaulted(t[b])
  }

  // ---------- Order ----------

  /** A detail without an action has the rank a missing map entry gives it. */
  function Rank(a: Action): nat {
    match a
    case NoAction => 0
    case Automerged => 0
    case Created => 1
    case Updated => 2
    case NeedsApproval => 3
    case Unchanged => 4
  }

  predicate LessString(a: string, b: string) {
    b != "" && (a == "" || a[0] < b[0] || (a[0] == b[0] && LessString(a[1..], b[1..])))
  }

  predicate Less(d: Detail, e: Detail) {
    Rank(d.action) < Rank(e.action) || (Rank(d.action) == Rank(e.action) && LessString(d.branch, e.branch))
  }

  /** Automerged, created, updated, waiting for approval, unchanged: the order of the list. */
  lemma RankOrder(d: Detail, e: Detail)
    ensures d.action == Automerged && e.action in {Created, Updated, NeedsApproval, Unchanged} ==> Less(d, e)
    ensures d.action == Created && e.action in {Updated, NeedsApproval, Unchanged} ==> Less(d, e)
    ensures d.action == Updated && e.action in {NeedsApproval, Unchanged} ==> Less(d, e)
    ensures d.action == NeedsApproval && e.action == Unchanged ==> Less(d, e)
    ensures d.action == e.action ==> (Less(d, e) <==> LessString(d.branch, e.branch))
  {
  }

  /** Strings are ordered by their first difference, and a prefix comes before what it begins. */
  lemma {:induction false} LessStringIs(a: string, b: string, i: nat)
    requires i <= |a| && i <= |b| && a[..i] == b[..i]
    ensures i == |a| < |b| ==> LessString(a, b)
    ensures i < |a| && i < |b| && a[i] < b[i] ==> LessString(a, b)
  {
    if i > 0 {
      assert a[0] == a[..i][0] == b[..i][0] == b[0];
      assert a[1..][..i - 1] == a[..i][1..] && b[1..][..i - 1] == b[..i][1..];
      LessStringIs(a[1..], b[1..], i - 1);
    }
  }

  lemma {:induction false} NotBelowItself(a: string)
    ensures !LessString(a, a)
  {
    if a != "" {
      NotBelowItself(a[1..]);
    }
  }

  lemma {:induction false} StringsAreOrdered(a: string, b: string)
    ensures !(LessString(a, b) && LessString(b, a))
    ensures LessString(a, b) || LessString(b, a) || a == b
  {
    if a != "" && b != "" && a[0] == b[0] {
      StringsAreOrdered(a[1..], b[1..]);
      assert a == [a[0]] + a[1..] && b == [b[0]] + b[1..];
    }
  }

  lemma {:induction false} StringOrderIsTransitive(a: string, b: string, c: string)
    requires LessString(a, b) && LessString(b, c)
    ensures LessString(a, c)
  {
    if a != "" && a[0] == b[0] && b[0] == c[0] {
      StringOrderIsTransitive(a[1..], b[1..], c[1..]);
    }
  }

  lemma LessIsTransitive(d: Detail, e: Detail, f: Detail)
    requires Less(d, e) && Less(e, f)
    ensures Less(d, f)
  {
    if Rank(d.action) == Rank(e.action) && Rank(e.action) == Rank(f.action) {
      StringOrderIsTransitive(d.branch, e.branch, f.branch);
    }
  }

  ghost predicate Ordered(s: seq<Detail>) {
    forall i, j :: 0 <= i < j < |s| ==> Less(s[i], s[j])
  }

  /** The branches of the table, in order, each once. */
  ghost predicate IsListing(t: Table, s: seq<Detail>) {
    Ordered(s) && forall d :: d in s <==> d.branch in t && t[d.branch] == d
  }

  lemma LastIsGreatest(s: seq<Detail>, d: Detail)
    requires Ordered(s) && d in s
    ensures d == s[|s| - 1] || Less(d, s[|s| - 1])
  {
  }

  lemma LessIsAsymmetric(d: Detail, e: Detail)
    ensures !(Less(d, e) && Less(e, d)) && !Less(d, d)
  {
    StringsAreOrdered(d.branch, e.branch);
    NotBelowItself(d.branch);
  }

  /** Two ordered lists of the same details are the same list. */
  lemma {:induction false} OrderDetermines(s: seq<Detail>, t: seq<Detail>)
    requires Ordered(s) && Ordered(t) && forall d :: d in s <==> d in t
    ensures s == t
    decreases |s|
  {
    if s == [] {
      assert forall i :: 0 <= i < |t| ==> t[i] in t;
    } else {
      var x := s[|s| - 1];
      assert x in s && x in t;
      var y := t[|t| - 1];
      assert y in t && y in s;
      LastIsGreatest(s, y);
      LastIsGreatest(t, x);
      LessIsAsymmetric(x, y);
      var s', t' := s[..|s| - 1], t[..|t| - 1];
      forall d
        ensures d in s' <==> d in t'
      {
        WithoutLast(s, d);
        WithoutLast(t, d);
      }
      OrderDetermines(s', t');
    }
  }

  lemma WithoutLast(s: seq<Detail>, d: Detail)
    requires Ordered(s) && s != []
    ensures d in s[..|s| - 1] <==> d in s && d != s[|s| - 1]
  {
    LessIsAsymmetric(d, d);
    var b, last := s[..|s| - 1], s[|s| - 1];
    assert s == b + [last];
    assert forall i :: 0 <= i < |b| ==> Less(b[i], last);
  }

  /** So the listing does not depend on the order in which the map was walked. */
  lemma ListingIsUnique(t: Table, s: seq<Detail>, u: seq<Detail>)
    requires IsListing(t, s) && IsListing(t, u)
    ensures s == u
  {
    OrderDetermines(s, u);
  }

  // ---------- Counts ----------

  ghost function With(t: Table, a: Action): set<string> {
    set b | b in t && t[b].action == a
  }

  ghost predicate Summarizes(t: Table, a: PRActivity) {
    && a.automerged == |With(t, Automerged)| && a.created == |With(t, Created)| && a.updated == |With(t, Updated)|
    && a.needsApproval == |With(t, NeedsApproval)| && a.notChanged == |With(t, Unchanged)|
  }

  /** The five counts cover every branch but those with no action and no positive number, cap or no cap. */
  lemma CountsAddUp(t: Table, a: PRActivity)
    requires Summarizes(Final(t), a)
    ensures a.automerged + a.created + a.updated + a.needsApproval + a.notChanged
         == |t| - |set b | b in t && t[b].action.NoAction? && t[b].number <= 0|
  {
    var f := Final(t);
    SixCounts(f);
    assert With(f, NoAction) == set b | b in t && t[b].action.NoAction? && t[b].number <= 0;
    assert f.Keys == t.Keys;
  }

  /** What is counted: every branch with its own action, and as updated also those with a number and no action. */
  lemma CountsMean(t: Table, a: PRActivity)
    requires Summarizes(Final(t), a)
    ensures a.automerged == |set b | b in t && t[b].action == Automerged|
    ensures a.created == |set b | b in t && t[b].action == Created|
    ensures a.updated == |set b | b in t && (t[b].action == Updated || (t[b].action == NoAction && t[b].number > 0))|
    ensures a.needsApproval == |set b | b in t && t[b].action == NeedsApproval|
    ensures a.notChanged == |set b | b in t && t[b].action == Unchanged|
  {
    var f := Final(t);
    assert With(f, Automerged) == set b | b in t && t[b].action == Automerged;
    assert With(f, Created) == set b | b in t && t[b].action == Created;
    assert With(f, Updated)
        == set b | b in t && (t[b].action == Updated || (t[b].action == NoAction && t[b].number > 0));
    assert With(f, NeedsApproval) == set b | b in t && t[b].action == NeedsApproval;
    assert With(f, Unchanged) == set b | b in t && t[b].action == Unchanged;
  }

  lemma SixCounts(t: Table)
    ensures |With(t, NoAction)| + |With(t, Automerged)| + |With(t, Created)| + |With(t, Updated)|
            + |With(t, NeedsApproval)| + |With(t, Unchanged)| == |t.Keys|
  {
    var a0: set<Action> := {};
    OneMoreAction(t, a0, NoAction);
    var a1 := a0 + {NoAction};
    OneMoreAction(t, a1, Automerged);
    var a2 := a1 + {Automerged};
    OneMoreAction(t, a2, Created);
    var a3 := a2 + {Created};
    OneMoreAction(t, a3, Updated);
    var a4 := a3 + {Updated};
    OneMoreAction(t, a4, NeedsApproval);
    var a5 := a4 + {NeedsApproval};
    OneMoreAction(t, a5, Unchanged);
    EveryAction(t, a5 + {Unchanged});
  }

  ghost function WithAny(t: Table, actions: set<Action>): set<string> {
    set b | b in t && t[b].action in actions
  }

  lemma OneMoreAction(t: Table, actions: set<Action>, a: Action)
    requires a !in actions
    ensures |WithAny(t, actions + {a})| == |WithAny(t, actions)| + |With(t, a)|
    ensures actions == {} ==> WithAny(t, actions) == {}
  {
    assert WithAny(t, actions + {a}) == WithAny(t, actions) + With(t, a);
    assert WithAny(t, actions) !! With(t, a);
  }

  lemma EveryAction(t: Table, actions: set<Action>)
    requires NoAction in actions && Automerged in actions && Created in actions
    requires Updated in actions && NeedsApproval in actions && Unchanged in actions
    ensures WithAny(t, actions) == t.Keys
  {
    forall b | b in t
      ensures t[b].action in actions
    {
      match t[b].action
      case NoAction =>
      case Automerged =>
      case Created =>
      case Updated =>
      case NeedsApproval =>
      case Unchanged =>
    }
  }

  ghost function CountIn(t: Table, branches: set<string>, a: Action): nat {
    |set b | b in branches && b in t && t[b].action == a|
  }

  lemma CountStep(t: Table, done: set<string>, b: string, a: Action)
    requires b in t && b !in done
    ensures CountIn(t, done + {b}, a) == CountIn(t, done, a) + if t[b].action == a then 1 else 0
  {
    var before := set c | c in done && c in t && t[c].action == a;
    var after := set c | c in done + {b} && c in t && t[c].action == a;
    if t[b].action == a {
      assert after == before + {b};
    } else {
      assert after == before;
    }
  }

  lemma CountAll(t: Table, a: Action)
    ensures CountIn(t, t.Keys, a) == |With(t, a)|
    ensures CountIn(t, {}, a) == 0
  {
    assert With(t, a) == set b | b in t.Keys && b in t && t[b].action == a;
  }

  // ---------- Sorting ----------

  ghost predicate OneBranchEach(s: seq<Detail>) {
    forall i, j :: 0 <= i < j < |s| ==> s[i].branch != s[j].branch
  }

  method InsertSorted(s: seq<Detail>, d: Detail) returns (r: seq<Detail>)
    requires Ordered(s) && forall i :: 0 <= i < |s| ==> s[i].branch != d.branch
    ensures Ordered(r) && forall e :: e in r <==> e in s || e == d
  {
    var k := 0;
    while k < |s| && Less(s[k], d)
      invariant 0 <= k <= |s|
      invariant forall i :: 0 <= i < k ==> Less(s[i], d)
    {
      k := k + 1;
    }
    forall i | k <= i < |s|
      ensures Less(d, s[i])
    {
      StringsAreOrdered(d.branch, s[k].branch);
      if k < i {
        LessIsTransitive(d, s[k], s[i]);
      }
    }
    r := s[..k] + [d] + s[k..];
    assert s == s[..k] + s[k..];
  }

  /** Any sorting routine will do, since the order of different branches is total. */
  method SortDetails(prs: seq<Detail>) returns (s: seq<Detail>)
    requires OneBranchEach(prs)
    ensures Ordered(s) && forall d :: d in s <==> d in prs
  {
    s := [];
    for i := 0 to |prs|
      invariant Ordered(s) && forall d :: d in s <==> d in prs[..i]
    {
      forall j | 0 <= j < |s|
        ensures s[j].branch != prs[i].branch
      {
        assert s[j] in prs[..i];
      }
      s := InsertSorted(s, prs[i]);
      assert prs[..i + 1] == prs[..i] + [prs[i]];
    }
    assert prs[..|prs|] == prs;
  }

  /** The listing cut at the cap, with the counts of the whole table. */
  ghost predicate IsActivityOf(t: Table, a: PRActivity) {
    var f := Final(t);
    && Summarizes(f, a)
    && (a.truncated <==> |t| > MAX_PR_DETAILS)
    && exists s :: IsListing(f, s) && |s| == |t| && a.prs == if |s| > MAX_PR_DETAILS then s[..MAX_PR_DETAILS] else s
  }

  /** A table has exactly one activity, however its map is walked. */
  lemma ActivityIsUnique(t: Table, a: PRActivity, b: PRActivity)
    requires IsActivityOf(t, a) && IsActivityOf(t, b)
    ensures a == b
  {
    var f := Final(t);
    var s :| IsListing(f, s) && |s| == |t| && a.prs == if |s| > MAX_PR_DETAILS then s[..MAX_PR_DETAILS] else s;
    var u :| IsListing(f, u) && |u| == |t| && b.prs == if |u| > MAX_PR_DETAILS then u[..MAX_PR_DETAILS] else u;
    ListingIsUnique(f, s, u);
  }

  lemma ListingSize(t: Table, s: seq<Detail>)
    requires IsListing(t, s) && forall b :: b in t ==> t[b].branch == b
    ensures |s| == |t|
  {
    forall i, j | 0 <= i < j < |s|
      ensures s[i].branch != s[j].branch
    {
      assert s[i] in s && s[j] in s;
      LessIsAsymmetric(s[i], s[j]);
      LessIsAsymmetric(s[i], s[i]);
    }
    ListedBranches(s);
    assert t.Keys == BranchesIn(s) by {
      forall b
        ensures b in t <==> b in BranchesIn(s)
      {
        if b in t {
          assert t[b] in s;
        }
      }
    }
  }

  ghost function BranchesIn(s: seq<Detail>): set<string> {
    set d | d in s :: d.branch
  }

  lemma {:induction false} ListedBranches(s: seq<Detail>)
    requires OneBranchEach(s)
    ensures |BranchesIn(s)| == |s|
  {
    if s != [] {
      var b, d := s[..|s| - 1], s[|s| - 1];
      ListedBranches(b);
      assert s == b + [d];
      assert BranchesIn(s) == BranchesIn(b) + {d.branch};
    }
  }
}
