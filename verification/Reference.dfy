/** Image references: the parser is a retraction onto its own canonical results. */
module Reference {
  import opened Wrappers
  import opened Strings

  /** `Ref` has an empty tag only when it is pinned by digest, and an empty digest only when it is not. */
  datatype Ref = Ref(registry: string, repository: string, tag: string, digest: string)

  datatype ParseError = EmptyRef | EmptyDigest | EmptyRepository | EmptyTag

  const DEFAULT_REGISTRY := "index.docker.io"

  /** Whether the first slash-segment names a registry host. */
  predicate IsHost(first: string) {
    '.' in first || ':' in first || first == "localhost"
  }

  /** Registry and remainder; the registry is empty when the first segment is no host. */
  function SplitHost(ref: string): (string, string) {
    var slash := Index(ref, '/');
    if slash >= 0 && IsHost(ref[..slash]) then (ref[..slash], ref[slash + 1..]) else ("", "")
  }

  /** The digest stands behind the last at-sign. */
  function SplitDigest(ref: string): (string, Option<string>) {
    var at := LastIndex(ref, '@');
    if at >= 0 then (ref[..at], Some(ref[at + 1..])) else (ref, None)
  }

  function Parse(ref: string): Result<Ref, ParseError> {
    if ref == "" then Err(EmptyRef)
    else
      var (name, digest) := SplitDigest(ref);
      if digest == Some("") then Err(EmptyDigest)
      else ParseName(name, if digest.Some? then digest.value else "")
  }

  function ParseName(name: string, digest: string): Result<Ref, ParseError> {
    var (host, rest) := SplitHost(name);
    var registry := if host == "" then DEFAULT_REGISTRY else host;
    var remainder := if host == "" then name else rest;
    if remainder == "" then Err(EmptyRepository)
    else
      var (repository, tag) := SplitTag(remainder);
      if tag == Some("") then Err(EmptyTag)
      else if repository == "" then Err(EmptyRepository)
      else Ok(Ref(registry, Namespaced(registry, repository), DefaultTag(tag, digest), digest))
  }

  /** Bare repositories on Docker Hub live under "library/". */
  function Namespaced(registry: string, repository: string): string {
    if registry == DEFAULT_REGISTRY && '/' !in repository then "library/" + repository else repository
  }

  function DefaultTag(tag: Option<string>, digest: string): string {
    match tag
    case Some(t) => t
    case None => if digest == "" then "latest" else ""
  }

  /** A tag stands behind the last colon, unless a slash comes after that. */
  function SplitTag(remainder: string): (string, Option<string>) {
    var colon := LastIndex(remainder, ':');
    if colon >= 0 && '/' !in remainder[colon + 1..] then (remainder[..colon], Some(remainder[colon + 1..]))
    else (remainder, None)
  }

  function Print(r: Ref): string {
    r.registry + "/" + Remainder(r) + if r.digest == "" then "" else "@" + r.digest
  }

  function Remainder(r: Ref): string {
    r.repository + if r.tag == "" then "" else ":" + r.tag
  }

  /** The last colon of the name, if any, is followed by a slash, so it separates no tag. */
  predicate NoTagIn(name: string) {
    var colon := LastIndex(name, ':');
    colon < 0 || '/' in name[colon + 1..]
  }

  /** Exactly the references that parsing can produce (see `ParseRange`). */
  predicate Canonical(r: Ref) {
    && r.registry != "" && r.repository != ""
    && '/' !in r.registry && IsHost(r.registry)
    && (r.registry == DEFAULT_REGISTRY ==> '/' in r.repository)
    && ':' !in r.tag && '/' !in r.tag
    && '@' !in r.digest
    && (r.tag == "" ==> r.digest != "" && NoTagIn(r.repository))
    && (r.digest == "" ==> '@' !in r.registry && '@' !in r.repository && '@' !in r.tag)
  }

  lemma SplitHostParts(name: string)
    ensures var (host, rest) := SplitHost(name);
            host != "" ==>
              && name == host + "/" + rest && '/' !in host && IsHost(host)
              && ('@' !in name ==> '@' !in host && '@' !in rest)
  {
    var slash := Index(name, '/');
    if slash >= 0 {
      var host, rest := name[..slash], name[slash + 1..];
      assert name == host + "/" + rest;
      InConcat(host + "/", rest, '@');
      InConcat(host, "/", '@');
    }
  }

  lemma SplitTagParts(m: string)
    ensures var (repository, tag) := SplitTag(m);
            if tag.Some? then m == repository + ":" + tag.value && ':' !in tag.value && '/' !in tag.value
            else m == repository && NoTagIn(m)
    ensures var (repository, tag) := SplitTag(m);
            '@' !in m ==> '@' !in repository && (tag.Some? ==> '@' !in tag.value)
  {
  }

  lemma NamespacedName(registry: string, name: string)
    requires name != ""
    ensures var n := Namespaced(registry, name);
            && n != "" && (registry == DEFAULT_REGISTRY ==> '/' in n)
            && (NoTagIn(name) ==> NoTagIn(n)) && ('@' !in name ==> '@' !in n)
  {
    var n := "library/" + name;
    InConcat("library/", name, '@');
    InConcat("library/", name, ':');
    assert n[7] == '/';
    assert '/' !in name && NoTagIn(name) ==> ':' !in name;
  }

  lemma DefaultTagName(tag: Option<string>, digest: string)
    requires tag != Some("")
             && (tag.Some? ==> ':' !in tag.value && '/' !in tag.value && (digest == "" ==> '@' !in tag.value))
    ensures var t := DefaultTag(tag, digest);
            ':' !in t && '/' !in t && (digest == "" ==> '@' !in t && t != "") && (t == "" ==> tag.None?)
  {
  }

  lemma DefaultIsHost()
    ensures IsHost(DEFAULT_REGISTRY) && '/' !in DEFAULT_REGISTRY && '@' !in DEFAULT_REGISTRY
  {
    assert DEFAULT_REGISTRY[5] == '.';
  }

  lemma ParseNameCanonical(name: string, digest: string)
    requires '@' !in digest && (digest == "" ==> '@' !in name)
    ensures ParseName(name, digest).Ok? ==> Canonical(ParseName(name, digest).value)
  {
    var (host, rest) := SplitHost(name);
    SplitHostParts(name);
    DefaultIsHost();
    var remainder := if host == "" then name else rest;
    var (repository, tag) := SplitTag(remainder);
    SplitTagParts(remainder);
    if repository != "" && tag != Some("") {
      NamespacedName(if host == "" then DEFAULT_REGISTRY else host, repository);
      DefaultTagName(tag, digest);
    }
  }

  /** Every successful parse is canonical. */
  lemma ParseIsCanonical(ref: string)
    ensures Parse(ref).Ok? ==> Canonical(Parse(ref).value)
  {
    var at := LastIndex(ref, '@');
    if at >= 0 {
      if ref[at + 1..] != "" {
        ParseNameCanonical(ref[..at], ref[at + 1..]);
      }
    } else {
      ParseNameCanonical(ref, "");
    }
  }

  /** The printed remainder splits into repository and tag again. */
  lemma RemainderSplits(r: Ref)
    requires Canonical(r)
    ensures SplitTag(Remainder(r)) == (r.repository, if r.tag == "" then None else Some(r.tag))
  {
    if r.tag == "" {
      assert Remainder(r) == r.repository;
    } else {
      LastSplits(r.repository, ':', r.tag);
    }
  }

  lemma NameSplits(r: Ref)
    requires Canonical(r)
    ensures SplitHost(r.registry + "/" + Remainder(r)) == (r.registry, Remainder(r))
  {
    var name := r.registry + "/" + Remainder(r);
    assert name[..|r.registry|] == r.registry && name[|r.registry|] == '/' && name[|r.registry| + 1..] == Remainder(r);
    IndexIs(name, '/', |r.registry|);
  }

  lemma NameParses(r: Ref)
    requires Canonical(r)
    ensures ParseName(r.registry + "/" + Remainder(r), r.digest) == Ok(r)
  {
    NameSplits(r);
    RemainderSplits(r);
  }

  lemma NoAtInName(r: Ref)
    requires Canonical(r) && r.digest == ""
    ensures '@' !in r.registry + "/" + Remainder(r)
  {
    InConcat(":", r.tag, '@');
    InConcat(r.repository, if r.tag == "" then "" else ":" + r.tag, '@');
    InConcat(r.registry, "/", '@');
    InConcat(r.registry + "/", Remainder(r), '@');
  }

  lemma DigestSplits(name: string, digest: string)
    requires '@' !in digest && (digest == "" ==> '@' !in name)
    ensures SplitDigest(name + if digest == "" then "" else "@" + digest)
         == (name, if digest == "" then None else Some(digest))
  {
    if digest == "" {
      assert name + "" == name;
    } else {
      LastSplits(name, '@', digest);
    }
  }

  /** Printing a canonical reference and parsing it gives the same four fields. */
  lemma PrintParses(r: Ref)
    requires Canonical(r)
    ensures Parse(Print(r)) == Ok(r)
  {
    if r.digest == "" {
      NoAtInName(r);
    }
    NameParses(r);
    DigestSplits(r.registry + "/" + Remainder(r), r.digest);
  }

  /** Parsing is a retraction: print any result and parse again, and nothing changes. */
  lemma ParseIsRetraction(ref: string)
    ensures Parse(ref).Ok? ==> Parse(Print(Parse(ref).value)) == Parse(ref)
  {
    ParseIsCanonical(ref);
    if Parse(ref).Ok? {
      PrintParses(Parse(ref).value);
    }
  }

  /** The canonical references are exactly the results of the parser. */
  lemma ParseRange(r: Ref)
    ensures Canonical(r) <==> exists ref :: Parse(ref) == Ok(r)
  {
    if Canonical(r) {
      PrintParses(r);
    }
    if ref :| Parse(ref) == Ok(r) {
      ParseIsCanonical(ref);
    }
  }

  // ---------- References without a host ----------

  /** What stands before the last at-sign, or everything. */
  function NameOf(ref: string): string { SplitDigest(ref).0 }

  /** No first segment, or one that has neither dot nor colon and is not "localhost". */
  ghost predicate Hostless(name: string) {
    forall i :: 0 <= i < |name| && name[i] == '/' && '/' !in name[..i] ==>
      '.' !in name[..i] && ':' !in name[..i] && name[..i] != "localhost"
  }

  lemma HostlessHasNoHost(name: string)
    requires Hostless(name)
    ensures SplitHost(name) == ("", "")
  {
    var slash := Index(name, '/');
    if slash >= 0 {
      assert name[slash] == '/' && '/' !in name[..slash];
    }
  }

  lemma HubPrefix(name: string)
    ensures SplitHost("index.docker.io" + "/" + name) == ("index.docker.io", name)
  {
    var full := "index.docker.io" + "/" + name;
    assert full[..15] == "index.docker.io" && full[15] == '/' && full[16..] == name;
    assert full[..15][5] == '.';
    NoSlash();
    IndexIs(full, '/', 15);
  }

  lemma NoSlash()
    ensures '/' !in "index.docker.io" && '@' !in "index.docker.io"
  {
  }

  /** A reference without a host is the same one on Docker Hub. */
  lemma HostlessIsOnHub(ref: string)
    requires ref != "" && Hostless(NameOf(ref))
    ensures Parse("index.docker.io" + "/" + ref) == Parse(ref)
  {
    var (name, digest) := SplitDigest(ref);
    PrefixKeepsDigest("index.docker.io" + "/", ref);
    HostlessHasNoHost(name);
    HubPrefix(name);
  }

  lemma PrefixKeepsDigest(prefix: string, ref: string)
    requires '@' !in prefix
    ensures SplitDigest(prefix + ref) == (prefix + SplitDigest(ref).0, SplitDigest(ref).1)
  {
    var at := LastIndex(ref, '@');
    var full := prefix + ref;
    if at >= 0 {
      var n := |prefix| + at;
      assert full[n] == '@' && full[n + 1..] == ref[at + 1..] && full[..n] == prefix + ref[..at];
      LastIndexIs(full, '@', n);
    } else {
      InConcat(prefix, ref, '@');
    }
  }

  /** A first segment with a dot or a colon, or "localhost", is the registry. */
  lemma HostIsKept(host: string, rest: string, digest: string)
    requires '/' !in host && ('.' in host || ':' in host || host == "localhost")
    ensures SplitHost(host + "/" + rest) == (host, rest)
    ensures var r := ParseName(host + "/" + rest, digest); r.Ok? ==> r.value.registry == host
  {
    var name := host + "/" + rest;
    assert name[..|host|] == host && name[|host|] == '/' && name[|host| + 1..] == rest;
    IndexIs(name, '/', |host|);
  }

  /** A bare name is an official image's latest tag, and behind a digest no tag is assumed. */
  lemma BareNameIsOfficial(name: string, digest: string)
    requires name != "" && '/' !in name && ':' !in name && '@' !in name && '@' !in digest && digest != ""
    ensures Parse(name) == Ok(Ref("index.docker.io", "library/" + name, "latest", ""))
    ensures Parse(name + ("@" + digest)) == Ok(Ref("index.docker.io", "library/" + name, "", digest))
  {
    DigestSplits(name, "");
    DigestSplits(name, digest);
    assert name + "" == name;
    BareNameParses(name, "");
    BareNameParses(name, digest);
  }

  lemma BareNameParses(name: string, digest: string)
    requires name != "" && '/' !in name && ':' !in name
    ensures ParseName(name, digest)
         == Ok(Ref("index.docker.io", "library/" + name, if digest == "" then "latest" else "", digest))
  {
    assert SplitHost(name) == ("", "");
    assert SplitTag(name) == (name, None);
  }

  /** Behind the last colon of a name without a host stands its tag, with a digest and without. */
  lemma TaggedName(name: string, tag: string, digest: string)
    requires name != "" && '/' !in name && '@' !in name && tag != "" && ':' !in tag && '/' !in tag && '@' !in tag
    requires '@' !in digest && digest != ""
    ensures Parse(name + (":" + tag)) == Ok(Ref("index.docker.io", "library/" + name, tag, ""))
    ensures Parse((name + (":" + tag)) + ("@" + digest)) == Ok(Ref("index.docker.io", "library/" + name, tag, digest))
  {
    var tagged := name + (":" + tag);
    InConcat(name, ":" + tag, '@');
    InConcat(":", tag, '@');
    DigestSplits(tagged, "");
    DigestSplits(tagged, digest);
    assert tagged + "" == tagged;
    TaggedNameParses(name, tag, "");
    TaggedNameParses(name, tag, digest);
  }

  lemma TaggedNameParses(name: string, tag: string, digest: string)
    requires name != "" && '/' !in name && tag != "" && ':' !in tag && '/' !in tag
    ensures ParseName(name + (":" + tag), digest) == Ok(Ref("index.docker.io", "library/" + name, tag, digest))
  {
    var tagged := name + (":" + tag);
    InConcat(name, ":" + tag, '/');
    InConcat(":", tag, '/');
    LastSplits(name, ':', tag);
    assert SplitHost(tagged) == ("", "");
    assert SplitTag(tagged) == (name, Some(tag));
  }
}
