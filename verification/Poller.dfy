/** The image-update poller: what one tick makes of the registry's answers, and what every state keeps. */
module Poller {
  import opened Wrappers
  import opened Semver
  import opened Strings
  import Reference

  /** An error and whether it already carries a class; wrapping keeps the class, as errors.As sees through it. */
  datatype PollError = PollError(message: string, classified: bool)

  function Wrap(context: string, e: PollError): PollError {
    PollError(context + ": " + e.message, e.classified)
  }

  function Classify(e: PollError): PollError {
    if e.classified then e else PollError("network: " + e.message, true)
  }

  const MAX_ERROR := 120

  ghost function FirstLine(s: string): string {
    if s == "" || s[0] == '\n' then "" else [s[0]] + FirstLine(s[1..])
  }

  ghost function Truncated(s: string): string {
    var line := FirstLine(s);
    if |line| <= MAX_ERROR then line else line[..MAX_ERROR] + ELLIPSIS
  }

  /** The first line is what stands before the first newline, or everything. */
  lemma {:induction false} FirstLineIs(s: string)
    ensures var line := FirstLine(s);
            && |line| <= |s| && s[..|line|] == line && '\n' !in line && (line == s || s[|line|] == '\n')
  {
    if s != "" && s[0] != '\n' {
      FirstLineIs(s[1..]);
      var rest := FirstLine(s[1..]);
      assert s[..|rest| + 1] == [s[0]] + s[1..][..|rest|];
    }
  }

  /** Up to 120 bytes are shown as they are; of more, the first 120 and an ellipsis of three bytes. */
  lemma TruncatedIs(s: string)
    ensures |FirstLine(s)| <= 120 ==> Truncated(s) == FirstLine(s)
    ensures |FirstLine(s)| > 120 ==>
              |Truncated(s)| == 123 && Truncated(s)[..120] == FirstLine(s)[..120] && Truncated(s)[120..] == ELLIPSIS
  {
  }

  method TruncateError(s: string) returns (msg: string)
    ensures msg == Truncated(s)
  {
    msg := s;
    for i := 0 to |s|
      invariant msg == s
      invariant FirstLine(s) == s[..i] + FirstLine(s[i..])
    {
      if s[i] == '\n' {
        msg := s[..i];
        assert FirstLine(s) == msg;
        break;
      }
      assert s[i..][1..] == s[i + 1..];
    }
    assert FirstLine(s) == msg;
    if |msg| <= MAX_ERROR {
      return msg;
    }
    return msg[..MAX_ERROR] + ELLIPSIS;
  }

  /** `lastChecked` is None before the first poll. */
  datatype Status = Status(
    enabled: bool, ready: bool, configuredRef: string, registry: string, repository: string, tag: string,
    digest: string, localDigest: string, latestTag: string, latestDigest: string, updateAvailable: bool,
    lastChecked: Option<int>, lastError: string)

  /** What the outside world answers during one tick. */
  datatype Answers = Answers(
    head: Result<string, PollError>,
    local: Option<Result<string, PollError>>,
    tags: Result<seq<string>, PollError>,
    latestHead: Result<string, PollError>)

  // ---------- What a status says ----------

  predicate DigestsDiffer(s: Status) {
    s.localDigest != "" && s.digest != "" && s.localDigest != s.digest
  }

  /** The tag is of the configured tag's suffix family, with a strictly greater triple. */
  ghost predicate Upgrades(configured: string, tag: string) {
    var c, t := SemverOf(configured), SemverOf(tag);
    c.Some? && t.Some? && t.value.suffix == c.value.suffix && t.value.NewerThan(c.value)
  }

  ghost predicate Honest(configured: string, s: Status) {
    && (s.updateAvailable <==> s.latestTag != "" || DigestsDiffer(s))
    && (s.latestTag != "" ==> Upgrades(configured, s.latestTag))
  }

  /** The newest listed tag of the configured tag's family, if it is an upgrade. */
  ghost predicate NewTag(configured: string, tags: seq<string>, tag: string) {
    && SemverOf(configured).Some?
    && IsLatest(tags, SemverOf(configured).value.suffix, tag)
    && Upgrades(configured, tag)
  }

  ghost predicate HasNewTag(configured: string, tags: seq<string>) {
    exists tag :: NewTag(configured, tags, tag)
  }

  lemma EmptyIsNoVersion()
    ensures SemverOf("").None?
  {
    assert ""[..0] == "" && ""[0..] == "";
    ScannedVersion("", 0);
  }

  /** The latest of a family is of the family. */
  lemma LatestInFamily(tags: seq<string>, family: string, tag: string)
    requires IsLatest(tags, family, tag)
    ensures SemverOf(tag).Some? && SemverOf(tag).value.suffix == family
  {
    var i :| FirstGreatest(Versions(tags, family), i) && tag == tags[i];
    assert Versions(tags, family)[i] == VersionIn(tags[i], family);
  }

  class Poller {
    const enabled: bool
    const configuredRef: string
    /** The reference parsed at construction; all fields empty when it does not parse. */
    const parsed: Reference.Ref
    var state: Status

    /** The tag for which the registry gave `state.latestDigest`; empty when there is none. */
    ghost var digestOf: string

    /** The latest digest belongs to the latest tag. */
    ghost predicate DigestFits()
      reads this
    {
      digestOf == state.latestTag
    }

    ghost predicate Valid()
      reads this
    {
      && Honest(parsed.tag, state)
      && state.configuredRef == configuredRef
      && state.registry == parsed.registry && state.repository == parsed.repository && state.tag == parsed.tag
    }

    constructor (enabled: bool, configuredRef: string)
      ensures Valid() && !state.ready && state.latestTag == "" && state.lastError == "" && DigestFits()
      ensures this.enabled == enabled && this.configuredRef == configuredRef
      ensures parsed == match Reference.Parse(configuredRef)
                        case Ok(ref) => ref
                        case Err(_) => Reference.Ref("", "", "", "")
    {
      this.enabled, this.configuredRef := enabled, configuredRef;
      var ref := Reference.Ref("", "", "", "");
      match Reference.Parse(configuredRef) {
        case Ok(r) => ref := r;
        case Err(_) =>
      }
      parsed := ref;
      state := Status(enabled, false, configuredRef, ref.registry, ref.repository, ref.tag,
                      "", "", "", "", false, None, "");
      digestOf := "";
    }

    method Snapshot() returns (s: Status)
      ensures s == state
    {
      s := state;
    }

    method MarkDisabled()
      requires Valid()
      modifies this
      ensures Valid() && DigestFits()
      ensures state == Status(false, true, configuredRef, parsed.registry, parsed.repository, parsed.tag,
                              "", "", "", "", false, None, "")
    {
      state := Status(false, true, configuredRef, parsed.registry, parsed.repository, parsed.tag,
                      "", "", "", "", false, None, "");
      digestOf := "";
    }

    method RecordTotalFailure(e: PollError, now: int) returns (err: PollError)
      requires Valid()
      modifies `state
      ensures Valid() && err == Classify(e)
      ensures err.classified && err.message == (if e.classified then "" else "network: ") + e.message
      ensures state == old(state).(lastError := Truncated(err.message), lastChecked := Some(now))
    {
      err := Classify(e);
      var msg := TruncateError(err.message);
      state := state.(lastError := msg, lastChecked := Some(now));
    }

    method RecordPartialSuccess(next0: Status, e: PollError, now: int) returns (err: PollError)
      requires Valid()
      requires next0.latestTag != "" ==> Upgrades(parsed.tag, next0.latestTag)
      modifies `state
      ensures err == Classify(e)
      ensures var carried := next0.latestTag == "" && old(state).latestTag != "";
              var next := next0.(
                ready := true, lastChecked := Some(now), lastError := Truncated(err.message),
                latestTag := if carried then old(state).latestTag else next0.latestTag,
                latestDigest := if carried then old(state).latestDigest else next0.latestDigest);
              state == next.(updateAvailable := next.latestTag != "" || DigestsDiffer(next))
      ensures state.updateAvailable <==>
                || state.latestTag != ""
                || (state.localDigest != "" && state.digest != "" && state.localDigest != state.digest)
    {
      err := Classify(e);
      var msg := TruncateError(err.message);
      var next := next0.(ready := true, lastChecked := Some(now), lastError := msg);
      var prior := Snapshot();
      if next.latestTag == "" && prior.latestTag != "" {
        next := next.(latestTag := prior.latestTag, latestDigest := prior.latestDigest);
      }
      next := next.(updateAvailable := false);
      if next.latestTag != "" {
        next := next.(updateAvailable := true);
      }
      if DigestsDiffer(next) {
        next := next.(updateAvailable := true);
      }
      state := next;
    }

    /** The semver branch: the newest tag of the family and its digest, when it is an upgrade. */
    method CheckTags(next0: Status, current: Version, tags: seq<string>, latestHead: Result<string, PollError>)
      returns (next: Status)
      requires SemverOf(parsed.tag) == Some(current)
      ensures !HasNewTag(parsed.tag, tags) ==> next == next0
      ensures HasNewTag(parsed.tag, tags) ==>
                && NewTag(parsed.tag, tags, next.latestTag) && next.latestTag != ""
                && next == next0.(latestTag := next.latestTag,
                                  latestDigest := if latestHead.Ok? then latestHead.value else next0.latestDigest)
    {
      next := next0;
      var latest := LatestSemverTag(tags, current.suffix);
      match latest {
        case None =>
          forall tag
            ensures !NewTag(parsed.tag, tags, tag)
          {
            NoLatest(tags, current.suffix, tag);
          }
        case Some(tag) =>
          LatestInFamily(tags, current.suffix, tag);
          forall other | IsLatest(tags, current.suffix, other)
            ensures other == tag
          {
            OneLatest(tags, current.suffix, tag, other);
          }
          var v := ParseSemverPrefix(tag);
          if v.value.NewerThan(current) {
            assert NewTag(parsed.tag, tags, tag);
            EmptyIsNoVersion();
            next := next.(latestTag := tag);
            if latestHead.Ok? {
              next := next.(latestDigest := latestHead.value);
            }
          }
      }
    }

    /** Whether something after the first registry answer fails. */
    ghost predicate Partial(answers: Answers) {
      || (answers.local.Some? && answers.local.value.Err?)
      || (SemverOf(parsed.tag).Some? && answers.tags.Err?)
    }

    /** The end of a tick in which nothing failed. */
    method RecordSuccess(next0: Status, now: int)
      modifies `state
      ensures state == next0.(ready := true, lastChecked := Some(now), lastError := "",
                              updateAvailable := next0.latestTag != "" || DigestsDiffer(next0))
    {
      var next := next0.(updateAvailable := false);
      if next.latestTag != "" {
        next := next.(updateAvailable := true);
      }
      if DigestsDiffer(next) {
        next := next.(updateAvailable := true);
      }
      state := next.(ready := true, lastChecked := Some(now), lastError := "");
    }

    /** The registry has said what the new tag's digest is. */
    ghost predicate ReadsNewDigest(answers: Answers) {
      && !Partial(answers) && SemverOf(parsed.tag).Some? && HasNewTag(parsed.tag, answers.tags.value)
      && answers.latestHead.Ok?
    }

    /** What a tick does once the registry has answered for the configured tag. */
    method Observe(next0: Status, answers: Answers, now: int) returns (err: Option<PollError>)
      requires Valid() && answers.head.Ok?
      requires next0 == state.(enabled := true, digest := answers.head.value)
      modifies this
      ensures Valid()
      ensures state.ready && state.enabled && state.digest == answers.head.value && state.lastChecked == Some(now)
      ensures err.Some? <==> Partial(answers)
      ensures answers.local.Some? && answers.local.value.Err? ==>
                err == Some(Classify(Wrap("local digest", answers.local.value.error)))
      ensures (answers.local.Some? ==> answers.local.value.Ok?) && err.Some? ==>
                err == Some(Classify(Wrap("list tags", answers.tags.error)))
      ensures state.lastError == if err.None? then "" else Truncated(err.value.message)
      ensures state.localDigest == if answers.local.Some? && answers.local.value.Ok? then answers.local.value.value
                                   else old(state).localDigest
      ensures if err.None? && SemverOf(parsed.tag).Some? && HasNewTag(parsed.tag, answers.tags.value)
              then
                && NewTag(parsed.tag, answers.tags.value, state.latestTag) && state.latestTag != ""
                && state.latestDigest == if answers.latestHead.Ok? then answers.latestHead.value
                                         else old(state).latestDigest
              else state.latestTag == old(state).latestTag && state.latestDigest == old(state).latestDigest
      ensures digestOf == if ReadsNewDigest(answers) then state.latestTag else old(digestOf)
    {
      var next := next0;
      if answers.local.Some? {
        if answers.local.value.Err? {
          var e := RecordPartialSuccess(next, Wrap("local digest", answers.local.value.error), now);
          return Some(e);
        }
        next := next.(localDigest := answers.local.value.value);
      }
      err := ObserveTags(next, answers, now);
    }

    /** The second half: the tags, if the configured one is a version, and the end of the tick. */
    method ObserveTags(next0: Status, answers: Answers, now: int) returns (err: Option<PollError>)
      requires Valid() && next0.latestTag == state.latestTag && next0.latestDigest == state.latestDigest
      requires next0.latestTag != "" ==> Upgrades(parsed.tag, next0.latestTag)
      modifies this
      ensures err == if SemverOf(parsed.tag).Some? && answers.tags.Err?
                     then Some(Classify(Wrap("list tags", answers.tags.error))) else None
      ensures var found := err.None? && SemverOf(parsed.tag).Some? && HasNewTag(parsed.tag, answers.tags.value);
              && (found ==> NewTag(parsed.tag, answers.tags.value, state.latestTag) && state.latestTag != "")
              && (!found ==> state.latestTag == next0.latestTag)
              && state.latestDigest == (if found && answers.latestHead.Ok? then answers.latestHead.value
                                        else next0.latestDigest)
              && digestOf == if found && answers.latestHead.Ok? then state.latestTag else old(digestOf)
      ensures state == next0.(ready := true, lastChecked := Some(now),
                              lastError := if err.None? then "" else Truncated(err.value.message),
                              latestTag := state.latestTag, latestDigest := state.latestDigest,
                              updateAvailable := state.latestTag != "" || DigestsDiffer(next0))
    {
      var next := next0;
      var current := ParseSemverPrefix(parsed.tag);
      if current.Some? {
        if answers.tags.Err? {
          var e := RecordPartialSuccess(next, Wrap("list tags", answers.tags.error), now);
          return Some(e);
        }
        next := CheckTags(next, current.value, answers.tags.value, answers.latestHead);
        if HasNewTag(parsed.tag, answers.tags.value) && answers.latestHead.Ok? {
          digestOf := next.latestTag;
        }
      }
      RecordSuccess(next, now);
      return None;
    }

    ghost predicate Refreshes(answers: Answers) {
      enabled && parsed.registry != "" && answers.head.Ok? && ReadsNewDigest(answers)
    }

    method Tick(answers: Answers, now: int) returns (err: Option<PollError>)
      requires Valid()
      modifies this
      ensures Valid()
      // Only a tick that the registry answers makes the status ready, and nothing takes that back.
      ensures state.ready <==> old(state).ready || (enabled && parsed.registry != "" && answers.head.Ok?)
      ensures old(state).latestTag != "" ==> state.latestTag != ""
      ensures !enabled ==> err == None && state == old(state)
      // An update is available when there is a newer tag, or when the two digests are known and different.
      ensures state.updateAvailable <==>
                || state.latestTag != ""
                || (state.localDigest != "" && state.digest != "" && state.localDigest != state.digest)
      ensures enabled && parsed.registry != "" && answers.head.Ok? && answers.local.Some? && answers.local.value.Ok? ==>
                && state.localDigest == answers.local.value.value
                && (state.latestTag == "" ==>
                      (state.updateAvailable <==>
                         && answers.local.value.value != "" && answers.head.value != ""
                         && answers.local.value.value != answers.head.value))
      // A total failure touches the error and the time, nothing else.
      ensures enabled && (parsed.registry == "" || answers.head.Err?) ==>
                err.Some? && state == old(state).(lastError := Truncated(err.value.message), lastChecked := Some(now))
      // Any other tick is an observation, complete unless a later answer is an error.
      ensures enabled && parsed.registry != "" && answers.head.Ok? ==>
                && state.ready && state.digest == answers.head.value && (err.Some? <==> Partial(answers))
                && if err.None? && SemverOf(parsed.tag).Some? && HasNewTag(parsed.tag, answers.tags.value)
                   then
                     && NewTag(parsed.tag, answers.tags.value, state.latestTag)
                     && (answers.latestHead.Err? ==> state.latestDigest == old(state).latestDigest)
                   else state.latestTag == old(state).latestTag && state.latestDigest == old(state).latestDigest
      // The latest digest is the new tag's when the registry gave it, and otherwise stays another tag's.
      ensures if Refreshes(answers) then DigestFits() && state.latestDigest == answers.latestHead.value
              else digestOf == old(digestOf) && state.latestDigest == old(state).latestDigest
      ensures old(DigestFits()) ==>
                (DigestFits() <==> Refreshes(answers) || state.latestTag == old(state).latestTag)
    {
      if !enabled {
        return None;
      }
      if parsed.registry == "" {
        var e := RecordTotalFailure(PollError("image reference not parseable", false), now);
        return Some(e);
      }
      var next := Snapshot();
      next := next.(enabled := true);
      if answers.head.Err? {
        var e := RecordTotalFailure(answers.head.error, now);
        return Some(e);
      }
      next := next.(digest := answers.head.value);
      err := Observe(next, answers, now);
    }
  }

  // ---------- A latest digest that is not the latest tag's ----------

  function Dotted(a: string, b: string, c: string): string { a + "." + b + "." + c + "" }

  lemma DottedVersion(a: string, b: string, c: string)
    requires Number(a) && Number(b) && Number(c)
    ensures SemverOf(Dotted(a, b, c)) == Some(Version(Value(a), Value(b), Value(c), ""))
  {
    SpelledIsRead(a, b, c, "");
  }

  lemma OneDigit(c: char)
    requires IsDigit(c)
    ensures Number([c]) && Value([c]) == c as int - '0' as int
  {
    assert [c][..0] == "";
  }

  /** The tag 1.d.0. */
  function Minor(d: string): string { Dotted("1", d, "0") }

  lemma MinorVersion(d: string)
    requires Number(d)
    ensures SemverOf(Minor(d)) == Some(Version(1, Value(d), 0, ""))
  {
    OneDigit('1');
    OneDigit('0');
    DottedVersion("1", d, "0");
  }

  /** A single listed tag with a greater minor version is the new tag. */
  lemma OneNewTag(d: string, e: string)
    requires Number(d) && Number(e) && Value(d) < Value(e)
    ensures NewTag(Minor(d), [Minor(e)], Minor(e))
    ensures forall tag :: NewTag(Minor(d), [Minor(e)], tag) ==> tag == Minor(e)
  {
    MinorVersion(d);
    MinorVersion(e);
    assert FirstGreatest(Versions([Minor(e)], ""), 0);
  }

  /** A tick that lists one tag, which is an upgrade. */
  method TickOn(p: Poller, d: string, e: string, latestHead: Result<string, PollError>)
    requires p.Valid() && p.enabled && p.parsed.registry != "" && p.parsed.tag == Minor(d)
    requires Number(d) && Number(e) && Value(d) < Value(e)
    modifies p
    ensures p.Valid() && p.state.latestTag == Minor(e)
    ensures if latestHead.Ok? then p.DigestFits() && p.state.latestDigest == latestHead.value
            else p.digestOf == old(p.digestOf) && p.state.latestDigest == old(p.state.latestDigest)
  {
    MinorVersion(d);
    OneNewTag(d, e);
    var _ := p.Tick(Answers(Ok("sha256:0"), None, Ok([Minor(e)]), latestHead), 0);
  }

  lemma Pollable(r: Reference.Ref)
    requires r.registry == "r.io" && r.repository == "a" && r.tag == Minor("0") && r.digest == ""
    ensures Reference.Parse(Reference.Print(r)) == Ok(r)
  {
    assert r.registry[1] == '.';
    Reference.PrintParses(r);
  }

  /** Two ticks, the second without an answer for the new tag: the digest shown is the older tag's. */
  method StaleDigest() returns (p: Poller)
    ensures fresh(p) && p.Valid() && !p.DigestFits()
    ensures p.digestOf == Minor("1") && p.state.latestTag == Minor("2") && p.state.latestDigest == "sha256:1"
  {
    var ref := Reference.Ref("r.io", "a", Minor("0"), "");
    Pollable(ref);
    OneDigitVersions();
    p := new Poller(true, Reference.Print(ref));
    TickOn(p, "0", "1", Ok("sha256:1"));
    TickOn(p, "0", "2", Err(PollError("timeout", false)));
  }

  lemma OneDigitVersions()
    ensures Number("0") && Number("1") && Number("2") && Value("0") < Value("1") < Value("2")
    ensures Minor("1") != Minor("2")
  {
    OneDigit('0');
    OneDigit('1');
    OneDigit('2');
    assert Minor("1")[2] == '1' && Minor("2")[2] == '2';
  }

  lemma NoLatest(tags: seq<string>, family: string, tag: string)
    requires AllNone(Versions(tags, family))
    ensures !IsLatest(tags, family, tag)
  {
  }

  lemma OneLatest(tags: seq<string>, family: string, tag: string, other: string)
    requires IsLatest(tags, family, tag) && IsLatest(tags, family, other)
    ensures tag == other
  {
    var i :| FirstGreatest(Versions(tags, family), i) && tag == tags[i];
    var j :| FirstGreatest(Versions(tags, family), j) && other == tags[j];
    FirstGreatestIsUnique(Versions(tags, family), i, j);
  }
}
