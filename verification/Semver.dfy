/** Version tags: a three-number prefix with an optional suffix, and the newest tag of a suffix family. */
module Semver {
  import opened Sequences
  import opened Wrappers

  /** The largest value strconv.Atoi accepts on a 64-bit platform. */
  const MAX_INT: nat := 0x7FFF_FFFF_FFFF_FFFF

  datatype Version = Version(major: nat, minor: nat, patch: nat, suffix: string) {
    /** A greater version triple; the suffix does not count. */
    predicate NewerThan(v: Version) {
      || major > v.major
      || (major == v.major && minor > v.minor)
      || (major == v.major && minor == v.minor && patch > v.patch)
    }
  }

  predicate IsDigit(c: char) { '0' <= c <= '9' }

  predicate Digits(s: string) {
    forall i :: 0 <= i < |s| ==> IsDigit(s[i])
  }

  function Value(s: string): nat
    requires Digits(s)
  {
    if s == "" then 0
    else Value(s[..|s| - 1]) * 10 + (s[|s| - 1] as int - '0' as int)
  }

  predicate Number(s: string) {
    s != "" && Digits(s) && Value(s) <= MAX_INT
  }

  predicate SuffixOk(s: string) {
    s == "" || (s[0] != '.' && !IsDigit(s[0]))
  }

  // ---------- The shape of a version tag ----------

  /** The tag is written with these three numbers and this suffix. */
  ghost predicate Spells(tag: string, a: string, b: string, c: string, suffix: string) {
    tag == a + "." + b + "." + c + suffix && Number(a) && Number(b) && Number(c) && SuffixOk(suffix)
  }

  ghost predicate HasVersion(tag: string, v: Version) {
    exists a, b, c :: Spells(tag, a, b, c, v.suffix) && v == Version(Value(a), Value(b), Value(c), v.suffix)
  }

  ghost function SemverOf(tag: string): (r: Option<Version>)
    ensures r.Some? ==> HasVersion(tag, r.value)
    ensures r.None? ==> forall v :: !HasVersion(tag, v)
  {
    if v :| HasVersion(tag, v) then Some(v) else None
  }

  // ---------- Scanning ----------

  /** Where a left-to-right scan over digits and at most two dots stops. */
  ghost function ScanEnd(tag: string, i: nat, dots: nat): nat
    requires i <= |tag|
    decreases |tag| - i
  {
    if i < |tag| && IsDigit(tag[i]) then ScanEnd(tag, i + 1, dots)
    else if i < |tag| && tag[i] == '.' && dots < 2 then ScanEnd(tag, i + 1, dots + 1)
    else i
  }

  lemma {:induction false} ScanDigits(tag: string, i: nat, j: nat, dots: nat)
    requires i <= j <= |tag| && Digits(tag[i..j])
    ensures ScanEnd(tag, i, dots) == ScanEnd(tag, j, dots)
    decreases j - i
  {
    if i < j {
      assert IsDigit(tag[i..j][0]);
      assert tag[i + 1..j] == tag[i..j][1..];
      ScanDigits(tag, i + 1, j, dots);
    }
  }

  /** The pieces of a string between its dots. */
  function Split(s: string): (parts: seq<string>)
    ensures |parts| > 0
  {
    if s == "" then [""]
    else
      var parts := Split(s[..|s| - 1]);
      if s[|s| - 1] == '.' then parts + [""]
      else parts[..|parts| - 1] + [parts[|parts| - 1] + [s[|s| - 1]]]
  }

  lemma {:induction false} SplitDot(a: string, b: string)
    requires '.' !in b
    ensures Split(a + "." + b) == Split(a) + [b]
    decreases |b|
  {
    var s := a + "." + b;
    if b == "" {
      assert s[..|s| - 1] == a;
    } else {
      SplitDot(a, b[..|b| - 1]);
      assert s[..|s| - 1] == a + "." + b[..|b| - 1];
      assert b == b[..|b| - 1] + [b[|b| - 1]];
    }
  }

  lemma {:induction false} SplitNoDot(b: string)
    requires '.' !in b
    ensures Split(b) == [b]
  {
    if b != "" {
      SplitNoDot(b[..|b| - 1]);
      assert b == b[..|b| - 1] + [b[|b| - 1]];
    }
  }

  ghost function Join(parts: seq<string>): string
    requires parts != []
  {
    if |parts| == 1 then parts[0] else Join(parts[..|parts| - 1]) + "." + parts[|parts| - 1]
  }

  lemma JoinMore(parts: seq<string>, p: string)
    requires parts != []
    ensures Join(parts + [p]) == Join(parts) + "." + p
  {
    assert (parts + [p])[..|parts|] == parts;
  }

  lemma JoinLast(front: seq<string>, last: string, x: char)
    ensures Join(front + [last + [x]]) == Join(front + [last]) + [x]
  {
    if front == [] {
      assert front + [last + [x]] == [last + [x]] && front + [last] == [last];
    } else {
      JoinMore(front, last + [x]);
      JoinMore(front, last);
      Assoc(Join(front) + ".", last, [x]);
    }
  }

  lemma JoinLonger(parts: seq<string>, x: char)
    requires parts != []
    ensures var n := |parts| - 1; Join(parts[..n] + [parts[n] + [x]]) == Join(parts) + [x]
  {
    var n := |parts| - 1;
    assert parts == parts[..n] + [parts[n]];
    JoinLast(parts[..n], parts[n], x);
  }

  lemma {:induction false} SplitJoins(s: string)
    ensures Join(Split(s)) == s
  {
    if s != "" {
      var b, x := s[..|s| - 1], s[|s| - 1];
      SplitJoins(b);
      assert s == b + [x];
      if x == '.' {
        JoinMore(Split(b), "");
        Empty(b + ".");
      } else {
        JoinLonger(Split(b), x);
      }
    }
  }

  ghost predicate DigitsOrDots(s: string) {
    forall i :: 0 <= i < |s| ==> IsDigit(s[i]) || s[i] == '.'
  }

  lemma {:induction false} PiecesAreDigits(s: string)
    requires DigitsOrDots(s)
    ensures forall i :: 0 <= i < |Split(s)| ==> Digits(Split(s)[i])
  {
    if s != "" {
      PiecesAreDigits(s[..|s| - 1]);
    }
  }

  lemma CutSpelled(tag: string, a: string, b: string, c: string, suffix: string)
    requires tag == a + "." + b + "." + c + suffix
    ensures var i, j, end := |a|, |a| + 1 + |b|, |a| + |b| + |c| + 2;
            && |tag| == end + |suffix|
            && tag[0..i] == a && tag[i] == '.' && tag[i + 1..j] == b && tag[j] == '.' && tag[j + 1..end] == c
            && tag[end..] == suffix && tag[..end] == a + "." + b + "." + c
  {
  }

  /** Scanning and splitting take a spelled tag apart the way it was put together. */
  lemma SpelledIsScanned(tag: string, a: string, b: string, c: string, suffix: string)
    requires Spells(tag, a, b, c, suffix)
    ensures var end := |a| + |b| + |c| + 2;
            ScanEnd(tag, 0, 0) == end && tag[end..] == suffix && Split(tag[..end]) == [a, b, c]
  {
    var i, j, end := |a|, |a| + 1 + |b|, |a| + |b| + |c| + 2;
    CutSpelled(tag, a, b, c, suffix);
    ScanDigits(tag, 0, i, 0);
    ScanDigits(tag, i + 1, j, 1);
    ScanDigits(tag, j + 1, end, 2);
    assert end < |tag| ==> tag[end] == tag[end..][0];
    SplitThree(a, b, c);
  }

  lemma SplitThree(a: string, b: string, c: string)
    requires Digits(a) && Digits(b) && Digits(c)
    ensures Split(a + "." + b + "." + c) == [a, b, c]
  {
    SplitNoDot(a);
    SplitDot(a, b);
    SplitDot(a + "." + b, c);
  }

  /** A tag has at most one version. */
  lemma VersionIsUnique(tag: string, v: Version, w: Version)
    requires HasVersion(tag, v) && HasVersion(tag, w)
    ensures v == w
  {
    var a, b, c :| Spells(tag, a, b, c, v.suffix) && v == Version(Value(a), Value(b), Value(c), v.suffix);
    var d, e, f :| Spells(tag, d, e, f, w.suffix) && w == Version(Value(d), Value(e), Value(f), w.suffix);
    SpelledIsScanned(tag, a, b, c, v.suffix);
    SpelledIsScanned(tag, d, e, f, w.suffix);
    assert [a, b, c][0] == [d, e, f][0] && [a, b, c][1] == [d, e, f][1] && [a, b, c][2] == [d, e, f][2];
  }

  /** Whatever numbers and suffix a tag is put together from are read back. */
  lemma SpelledIsRead(a: string, b: string, c: string, suffix: string)
    requires Number(a) && Number(b) && Number(c) && SuffixOk(suffix)
    ensures SemverOf(a + "." + b + "." + c + suffix) == Some(Version(Value(a), Value(b), Value(c), suffix))
  {
    var tag, v := a + "." + b + "." + c + suffix, Version(Value(a), Value(b), Value(c), suffix);
    assert Spells(tag, a, b, c, suffix);
    assert HasVersion(tag, v);
    VersionIsUnique(tag, v, SemverOf(tag).value);
  }

  /** strconv.Atoi on a string of digits: out of range is an error. */
  function Atoi(s: string): Option<nat>
    requires Digits(s)
  {
    if s == "" || Value(s) > MAX_INT then None else Some(Value(s))
  }

  ghost function Assemble(parts: seq<string>, suffix: string): Option<Version> {
    if |parts| == 3 && Number(parts[0]) && Number(parts[1]) && Number(parts[2]) && SuffixOk(suffix)
    then Some(Version(Value(parts[0]), Value(parts[1]), Value(parts[2]), suffix))
    else None
  }

  lemma AssembledIsSpelled(tag: string, end: nat)
    requires end <= |tag| && Assemble(Split(tag[..end]), tag[end..]).Some?
    ensures SemverOf(tag) == Assemble(Split(tag[..end]), tag[end..])
  {
    var parts, suffix := Split(tag[..end]), tag[end..];
    var a, b, c := parts[0], parts[1], parts[2];
    SplitJoins(tag[..end]);
    JoinThree(a, b, c);
    assert parts == [a, b, c];
    assert tag == tag[..end] + suffix;
    SpelledIsRead(a, b, c, suffix);
  }

  lemma JoinThree(a: string, b: string, c: string)
    ensures Join([a, b, c]) == a + "." + b + "." + c
  {
    JoinMore([a], b);
    JoinMore([a] + [b], c);
    assert [a, b, c] == [a] + [b] + [c];
  }

  lemma SpelledIsAssembled(tag: string, end: nat)
    requires end == ScanEnd(tag, 0, 0) && end <= |tag| && SemverOf(tag).Some?
    ensures Assemble(Split(tag[..end]), tag[end..]).Some?
  {
    var v := SemverOf(tag).value;
    var a, b, c :| Spells(tag, a, b, c, v.suffix) && v == Version(Value(a), Value(b), Value(c), v.suffix);
    SpelledIsScanned(tag, a, b, c, v.suffix);
  }

  /** The scanned prefix and the rest decide the version. */
  lemma ScannedVersion(tag: string, end: nat)
    requires end == ScanEnd(tag, 0, 0) && end <= |tag|
    ensures SemverOf(tag) == Assemble(Split(tag[..end]), tag[end..])
  {
    if Assemble(Split(tag[..end]), tag[end..]).Some? {
      AssembledIsSpelled(tag, end);
    } else if SemverOf(tag).Some? {
      SpelledIsAssembled(tag, end);
      assert false;
    }
  }

  method ParseSemverPrefix(tag: string) returns (v: Option<Version>)
    ensures v == SemverOf(tag)
  {
    var end, dots := 0, 0;
    while end < |tag|
      invariant 0 <= end <= |tag| && 0 <= dots <= 2
      invariant ScanEnd(tag, end, dots) == ScanEnd(tag, 0, 0)
      invariant DigitsOrDots(tag[..end])
      invariant |Split(tag[..end])| == dots + 1
    {
      var ch := tag[end];
      assert tag[..end + 1][..end] == tag[..end];
      if IsDigit(ch) {
        end := end + 1;
        continue;
      }
      if ch == '.' && dots < 2 {
        dots := dots + 1;
        end := end + 1;
        continue;
      }
      break;
    }
    var prefix, suffix := tag[..end], tag[end..];
    ScannedVersion(tag, end);
    if dots != 2 {
      return None;
    }
    var parts := Split(prefix);
    PiecesAreDigits(prefix);
    if |parts| != 3 || parts[0] == "" || parts[1] == "" || parts[2] == "" {
      return None;
    }
    if suffix != "" {
      if suffix[0] == '.' {
        return None;
      }
      if IsDigit(suffix[0]) {
        return None;
      }
    }
    var major := Atoi(parts[0]);
    if major.None? {
      return None;
    }
    var minor := Atoi(parts[1]);
    if minor.None? {
      return None;
    }
    var patch := Atoi(parts[2]);
    if patch.None? {
      return None;
    }
    return Some(Version(major.value, minor.value, patch.value, suffix));
  }

  // ---------- Printed versions ----------

  /** A number as it is printed in decimal. */
  function Decimal(n: nat): string {
    if n < 10 then [('0' as int + n) as char] else Decimal(n / 10) + Decimal(n % 10)
  }

  lemma {:induction false} DecimalIsRead(n: nat)
    ensures Digits(Decimal(n)) && Decimal(n) != "" && Value(Decimal(n)) == n
  {
    if n < 10 {
      assert Decimal(n)[..0] == "";
    } else {
      DecimalIsRead(n / 10);
      var front, last := Decimal(n / 10), ('0' as int + n % 10) as char;
      assert Decimal(n) == front + [last];
      assert (front + [last])[..|front|] == front;
    }
  }

  /** Any three numbers in range are recovered from the tag they are printed in, and so is the suffix. */
  lemma PrintedIsRead(major: nat, minor: nat, patch: nat, suffix: string)
    requires major <= 9223372036854775807 && minor <= 9223372036854775807 && patch <= 9223372036854775807
    requires suffix == "" || (suffix[0] != '.' && !('0' <= suffix[0] <= '9'))
    ensures SemverOf(Decimal(major) + "." + Decimal(minor) + "." + Decimal(patch) + suffix)
         == Some(Version(major, minor, patch, suffix))
  {
    DecimalIsRead(major);
    DecimalIsRead(minor);
    DecimalIsRead(patch);
    SpelledIsRead(Decimal(major), Decimal(minor), Decimal(patch), suffix);
  }

  /** Versions are ordered by number: major before minor before patch, and equal triples not at all. */
  lemma OrderIsNumeric(v: Version, w: Version)
    ensures v.major > w.major ==> v.NewerThan(w) && !w.NewerThan(v)
    ensures v.major == w.major && v.minor > w.minor ==> v.NewerThan(w) && !w.NewerThan(v)
    ensures v.major == w.major && v.minor == w.minor ==> (v.NewerThan(w) <==> v.patch > w.patch)
  {
  }

  // ---------- The newest tag of a family ----------

  ghost predicate Newer(v: Option<Version>, w: Option<Version>) {
    w.Some? ==> v.Some? && v.value.NewerThan(w.value)
  }

  /** The first of the greatest among some versions, not all of which need be there, stands at index i. */
  ghost predicate FirstGreatest(vs: seq<Option<Version>>, i: int) {
    && 0 <= i < |vs| && vs[i].Some?
    && (forall j :: 0 <= j < |vs| && vs[j].Some? ==> !Newer(vs[j], vs[i]))
    && (forall j :: 0 <= j < i ==> Newer(vs[i], vs[j]))
  }

  ghost predicate AllNone(vs: seq<Option<Version>>) {
    forall i :: 0 <= i < |vs| ==> vs[i].None?
  }

  lemma FirstGreatestIsUnique(vs: seq<Option<Version>>, i: int, j: int)
    requires FirstGreatest(vs, i) && FirstGreatest(vs, j)
    ensures i == j
  {
    var lo, hi := if i < j then i else j, if i < j then j else i;
    assert !Newer(vs[hi], vs[lo]);
  }

  /** One more version takes over exactly when it is newer than the best so far. */
  lemma GreatestStep(vs: seq<Option<Version>>, at: int, v: Option<Version>)
    requires FirstGreatest(vs, at) || AllNone(vs)
    ensures v.None? && AllNone(vs) ==> AllNone(vs + [v])
    ensures v.Some? && AllNone(vs) ==> FirstGreatest(vs + [v], |vs|)
    ensures FirstGreatest(vs, at) && (v.None? || !Newer(v, vs[at])) ==> FirstGreatest(vs + [v], at)
    ensures FirstGreatest(vs, at) && v.Some? && Newer(v, vs[at]) ==> FirstGreatest(vs + [v], |vs|)
  {
    if FirstGreatest(vs, at) && v.Some? && Newer(v, vs[at]) {
      forall j | 0 <= j < |vs|
        ensures Newer(v, vs[j])
      {
        assert vs[j].Some? ==> !Newer(vs[j], vs[at]);
      }
    }
  }

  /** The version of a tag, if it belongs to the suffix family. */
  ghost function VersionIn(tag: string, family: string): Option<Version> {
    var v := SemverOf(tag);
    if v.Some? && v.value.suffix == family then v else None
  }

  ghost function Versions(tags: seq<string>, family: string): (vs: seq<Option<Version>>)
    ensures |vs| == |tags|
    ensures forall i :: 0 <= i < |vs| ==> vs[i] == VersionIn(tags[i], family)
  {
    if tags == [] then []
    else Versions(tags[..|tags| - 1], family) + [VersionIn(tags[|tags| - 1], family)]
  }

  ghost predicate IsLatest(tags: seq<string>, family: string, tag: string) {
    exists i :: FirstGreatest(Versions(tags, family), i) && tag == tags[i]
  }

  /** No tag of the family is newer than the latest, and every one listed before it is older. */
  lemma LatestMeans(tags: seq<string>, family: string, tag: string)
    requires IsLatest(tags, family, tag)
    ensures SemverOf(tag).Some? && SemverOf(tag).value.suffix == family
    ensures exists i :: 0 <= i < |tags| && tags[i] == tag && IsNewestAt(tags, family, i, SemverOf(tag).value)
  {
    var i :| FirstGreatest(Versions(tags, family), i) && tag == tags[i];
    var vs, best := Versions(tags, family), SemverOf(tag).value;
    assert vs[i] == VersionIn(tags[i], family);
    forall j | 0 <= j < |tags| && SemverOf(tags[j]).Some? && SemverOf(tags[j]).value.suffix == family
      ensures !SemverOf(tags[j]).value.NewerThan(best) && (j < i ==> best.NewerThan(SemverOf(tags[j]).value))
    {
      assert vs[j] == VersionIn(tags[j], family);
    }
    assert IsNewestAt(tags, family, i, best);
  }

  ghost predicate IsNewestAt(tags: seq<string>, family: string, i: int, best: Version) {
    forall j :: 0 <= j < |tags| && SemverOf(tags[j]).Some? && SemverOf(tags[j]).value.suffix == family ==>
      !SemverOf(tags[j]).value.NewerThan(best) && (j < i ==> best.NewerThan(SemverOf(tags[j]).value))
  }

  method LatestSemverTag(tags: seq<string>, family: string) returns (best: Option<string>)
    ensures best.Some? ==> IsLatest(tags, family, best.value)
    ensures best.None? ==> AllNone(Versions(tags, family))
  {
    best := None;
    var bestVersion := Version(0, 0, 0, "");
    ghost var at, vs: seq<Option<Version>> := 0, [];
    for n := 0 to |tags|
      invariant vs == Versions(tags[..n], family)
      invariant if best.None? then AllNone(vs)
                else FirstGreatest(vs, at) && best.value == tags[at] && vs[at] == Some(bestVersion)
    {
      assert tags[..n + 1][..n] == tags[..n];
      ghost var own := VersionIn(tags[n], family);
      GreatestStep(vs, at, own);
      vs := vs + [own];
      var v := ParseSemverPrefix(tags[n]);
      if v.None? {
        continue;
      }
      if v.value.suffix != family {
        continue;
      }
      if best.None? || v.value.NewerThan(bestVersion) {
        best, bestVersion, at := Some(tags[n]), v.value, n;
      }
    }
    assert tags[..|tags|] == tags;
  }
}
