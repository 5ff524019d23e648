/** Bearer challenges: splitting outside quotes, and reading key="value" parameters. */
module Challenge {
  import opened Sequences
  import opened Strings
  import opened Wrappers

  // ---------- Splitting outside quotes ----------

  /** Whether an odd number of double quotes has been read. */
  ghost function Quoted(s: string): bool {
    s != "" && (Quoted(s[..|s| - 1]) != (s[|s| - 1] == '"'))
  }

  /** A separator that counts: the quote itself never does. */
  ghost predicate SplitsAt(s: string, i: int, sep: char) {
    0 <= i < |s| && s[i] == sep && sep != '"' && !Quoted(s[..i])
  }

  ghost predicate NoSplit(s: string, sep: char) {
    forall i :: 0 <= i < |s| ==> !SplitsAt(s, i, sep)
  }

  ghost function Join(parts: seq<string>, sep: char): string
    requires parts != []
  {
    if |parts| == 1 then parts[0] else Join(parts[..|parts| - 1], sep) + [sep] + parts[|parts| - 1]
  }

  /** The pieces are the whole string, none has a separator outside quotes, and each but the last closes its quotes. */
  ghost predicate IsSplit(s: string, sep: char, parts: seq<string>) {
    && parts != [] && Join(parts, sep) == s && (sep == '"' ==> |parts| == 1)
    && (forall i :: 0 <= i < |parts| ==> NoSplit(parts[i], sep))
    && (forall i :: 0 <= i < |parts| - 1 ==> !Quoted(parts[i]))
  }

  lemma {:induction false} QuotedAppend(a: string, b: string)
    ensures Quoted(a + b) == (Quoted(a) != Quoted(b))
    decreases |b|
  {
    if b == "" {
      Empty(a);
    } else {
      Snoc(a, b);
      QuotedAppend(a, b[..|b| - 1]);
    }
  }

  lemma JoinMore(parts: seq<string>, p: string, sep: char)
    requires parts != []
    ensures Join(parts + [p], sep) == Join(parts, sep) + [sep] + p
  {
    assert (parts + [p])[..|parts|] == parts;
  }

  /** Pieces without splits, joined where quotes are closed: the separators are exactly where they should be. */
  lemma PieceExtends(p: string, c: char, sep: char)
    requires NoSplit(p, sep) && !(c == sep && sep != '"' && !Quoted(p))
    ensures NoSplit(p + [c], sep)
  {
    var q := p + [c];
    forall i | 0 <= i < |q|
      ensures !SplitsAt(q, i, sep)
    {
      assert q[..i] == p[..i];
      assert i == |p| ==> p[..i] == p;
      assert i < |p| ==> !SplitsAt(p, i, sep);
    }
  }

  /** Up to i, `out` holds the pieces that are complete and the piece at hand starts at `start`. */
  ghost predicate SplitTo(s: string, sep: char, i: nat, start: nat, inQuote: bool, out: seq<string>) {
    && start <= i <= |s|
    && inQuote == Quoted(s[start..i]) && NoSplit(s[start..i], sep)
    && (forall j :: 0 <= j < |out| ==> NoSplit(out[j], sep) && !Quoted(out[j]))
    && (sep == '"' ==> out == [])
    && if out == [] then start == 0 else start > 0 && Join(out, sep) + [sep] == s[..start]
  }

  lemma StaysInPiece(s: string, sep: char, i: nat, start: nat, inQuote: bool, out: seq<string>)
    requires i < |s| && SplitTo(s, sep, i, start, inQuote, out)
    requires s[i] == '"' || s[i] != sep || inQuote
    ensures SplitTo(s, sep, i + 1, start, inQuote != (s[i] == '"'), out)
  {
    var piece := s[start..i];
    assert s[start..i + 1] == piece + [s[i]];
    PieceExtends(piece, s[i], sep);
    QuotedOne(piece, s[i]);
  }

  lemma QuotedOne(s: string, c: char)
    ensures Quoted(s + [c]) == (Quoted(s) != (c == '"'))
  {
    assert (s + [c])[..|s|] == s;
  }

  lemma CutsPiece(s: string, sep: char, i: nat, start: nat, out: seq<string>)
    requires i < |s| && SplitTo(s, sep, i, start, false, out) && s[i] == sep && sep != '"'
    ensures SplitTo(s, sep, i + 1, i + 1, false, out + [s[start..i]])
  {
    var piece := s[start..i];
    JoinOne(piece, sep);
    if out == [] {
      assert s[..i + 1] == piece + [sep] && out + [piece] == [piece];
    } else {
      JoinMore(out, piece, sep);
      assert s[..i + 1] == s[..start] + piece + [sep];
    }
    assert s[i + 1..i + 1] == "";
  }

  lemma JoinOne(p: string, sep: char)
    ensures Join([p], sep) == p
  {
  }

  lemma LastPiece(s: string, sep: char, start: nat, inQuote: bool, out: seq<string>)
    requires SplitTo(s, sep, |s|, start, inQuote, out)
    ensures IsSplit(s, sep, out + [s[start..]])
  {
    var piece := s[start..];
    assert s[start..|s|] == piece;
    JoinOne(piece, sep);
    if out == [] {
      assert out + [piece] == [piece] && piece == s;
    } else {
      JoinMore(out, piece, sep);
      assert s == s[..start] + piece;
    }
  }

  method SplitOutsideQuotes(s: string, sep: char) returns (out: seq<string>)
    ensures IsSplit(s, sep, out)
  {
    out := [];
    var start := 0;
    var inQuote := false;
    assert s[..0] == "";
    for i := 0 to |s|
      invariant SplitTo(s, sep, i, start, inQuote, out)
    {
      if s[i] == '"' {
        StaysInPiece(s, sep, i, start, inQuote, out);
        inQuote := !inQuote;
      } else if s[i] == sep && !inQuote {
        CutsPiece(s, sep, i, start, out);
        out := out + [s[start..i]];
        start := i + 1;
      } else {
        StaysInPiece(s, sep, i, start, inQuote, out);
      }
    }
    LastPiece(s, sep, start, inQuote, out);
    out := out + [s[start..]];
  }

  // ---------- There is only one such split ----------

  ghost function SplitOf(s: string, sep: char): (parts: seq<string>)
    ensures parts != []
  {
    if s == "" then [""]
    else
      var b := s[..|s| - 1];
      var parts := SplitOf(b, sep);
      if SplitsAt(s, |s| - 1, sep) then parts + [""]
      else parts[..|parts| - 1] + [parts[|parts| - 1] + [s[|s| - 1]]]
  }

  lemma {:induction false} SplitOfPiece(p: string, sep: char)
    requires NoSplit(p, sep)
    ensures SplitOf(p, sep) == [p]
  {
    if p != "" {
      NoSplitPrefix(p, sep);
      SplitOfPiece(p[..|p| - 1], sep);
      assert p == p[..|p| - 1] + [p[|p| - 1]];
      assert !SplitsAt(p, |p| - 1, sep);
    }
  }

  lemma NoSplitPrefix(p: string, sep: char)
    requires NoSplit(p, sep) && p != ""
    ensures NoSplit(p[..|p| - 1], sep)
  {
    var q := p[..|p| - 1];
    forall i | 0 <= i < |q|
      ensures !SplitsAt(q, i, sep)
    {
      assert q[..i] == p[..i] && !SplitsAt(p, i, sep);
    }
  }

  function Longer(parts: seq<string>, c: char): seq<string>
    requires parts != []
  {
    parts[..|parts| - 1] + [parts[|parts| - 1] + [c]]
  }

  lemma LongerLast(parts: seq<string>, p: string, c: char)
    ensures Longer(parts + [p], c) == parts + [p + [c]]
  {
    assert (parts + [p])[..|parts|] == parts;
  }

  lemma SplitOfMore(s: string, c: char, sep: char)
    ensures SplitOf(s + [c], sep) ==
            if c == sep && sep != '"' && !Quoted(s) then SplitOf(s, sep) + [""] else Longer(SplitOf(s, sep), c)
  {
    assert (s + [c])[..|s|] == s;
  }

  /** Behind closed quotes and a separator, one more piece is one more piece. */
  lemma {:induction false} SplitOfAppend(a: string, p: string, sep: char)
    requires sep != '"' && !Quoted(a) && NoSplit(p, sep)
    ensures SplitOf(a + [sep] + p, sep) == SplitOf(a, sep) + [p]
    decreases |p|
  {
    var s := a + [sep];
    if p == "" {
      Empty(s);
      SplitOfMore(a, sep, sep);
    } else {
      var b, x := p[..|p| - 1], p[|p| - 1];
      NoSplitPrefix(p, sep);
      SplitOfAppend(a, b, sep);
      assert !SplitsAt(p, |p| - 1, sep);
      QuotedOne(a, sep);
      QuotedAppend(s, b);
      Snoc(s, p);
      SplitOfMore(s + b, x, sep);
      LongerLast(SplitOf(a, sep), b, x);
      assert p == b + [x];
    }
  }

  lemma {:induction false} JoinIsClosed(parts: seq<string>, sep: char)
    requires parts != [] && sep != '"' && forall i :: 0 <= i < |parts| ==> !Quoted(parts[i])
    ensures !Quoted(Join(parts, sep))
  {
    if |parts| > 1 {
      var a, p := Join(parts[..|parts| - 1], sep), parts[|parts| - 1];
      JoinIsClosed(parts[..|parts| - 1], sep);
      QuotedAppend(a, [sep]);
      QuotedAppend(a + [sep], p);
      assert [sep][..0] == "" && !Quoted([sep]);
    }
  }

  /** The string determines its split. */
  lemma {:induction false} SplitIsUnique(s: string, sep: char, parts: seq<string>)
    requires IsSplit(s, sep, parts)
    ensures parts == SplitOf(s, sep)
    decreases |parts|
  {
    if |parts| == 1 {
      SplitOfPiece(parts[0], sep);
    } else {
      var front, p := parts[..|parts| - 1], parts[|parts| - 1];
      JoinIsClosed(front, sep);
      SplitOfAppend(Join(front, sep), p, sep);
      SplitIsUnique(Join(front, sep), sep, front);
      assert parts == front + [p];
    }
  }

  // ---------- Parsing a challenge ----------

  /** unicode.IsSpace. */
  predicate IsSpace(c: char) {
    || '\t' <= c <= '\r' || c == ' ' || c == '\U{85}' || c == '\U{a0}' || c == '\U{1680}'
    || '\U{2000}' <= c <= '\U{200a}' || c == '\U{2028}' || c == '\U{2029}' || c == '\U{202f}' || c == '\U{205f}'
    || c == '\U{3000}'
  }

  /** Of the ASCII characters, the six that are white space are, and none of the visible ones. */
  lemma AsciiSpaces(c: char)
    ensures c in "\t\n\r " || c == 11 as char || c == 12 as char ==> IsSpace(c)
    ensures '!' <= c <= '~' ==> !IsSpace(c)
  {
  }

  function TrimLeft(s: string): string {
    if s != "" && IsSpace(s[0]) then TrimLeft(s[1..]) else s
  }

  function TrimRight(s: string): string {
    if s != "" && IsSpace(s[|s| - 1]) then TrimRight(s[..|s| - 1]) else s
  }

  function TrimSpace(s: string): string { TrimRight(TrimLeft(s)) }

  function LowerChar(c: char): char {
    if 'A' <= c <= 'Z' then ((c as int) + 32) as char else c
  }

  function ToLower(s: string): (r: string)
    ensures |r| == |s|
  {
    if s == "" then "" else ToLower(s[..|s| - 1]) + [LowerChar(s[|s| - 1])]
  }

  predicate EqualFold(a: string, b: string) { ToLower(a) == ToLower(b) }

  function Unquote(v: string): string {
    if |v| >= 2 && v[0] == '"' && v[|v| - 1] == '"' then v[1..|v| - 1] else v
  }

  /** A field is a parameter, or nothing when it is blank or a bare token. */
  function ReadField(raw: string): Option<(string, string)> {
    var field := TrimSpace(raw);
    var eq := Index(field, '=');
    if field == "" || eq < 0 then None
    else Some((ToLower(TrimSpace(field[..eq])), Unquote(TrimSpace(field[eq + 1..]))))
  }

  ghost function Params(fields: seq<string>): map<string, string> {
    if fields == [] then map[]
    else
      var params := Params(fields[..|fields| - 1]);
      match ReadField(fields[|fields| - 1])
      case None => params
      case Some((k, v)) => params[k := v]
  }

  datatype ChallengeError = EmptyChallenge | MissingRealm

  function StripScheme(s: string): string {
    if |s| >= 7 && EqualFold(s[..7], "Bearer ") then s[7..] else s
  }

  ghost function ChallengeOf(challenge: string): Result<map<string, string>, ChallengeError> {
    var s := StripScheme(TrimSpace(challenge));
    var params := Params(SplitOf(s, ','));
    if s == "" then Err(EmptyChallenge)
    else if "realm" !in params then Err(MissingRealm)
    else Ok(params)
  }

  method ParseChallenge(challenge: string) returns (r: Result<map<string, string>, ChallengeError>)
    ensures r == ChallengeOf(challenge)
  {
    var s := TrimSpace(challenge);
    if |s| >= 7 && EqualFold(s[..7], "Bearer ") {
      s := s[7..];
    }
    if s == "" {
      return Err(EmptyChallenge);
    }
    var fields := SplitOutsideQuotes(s, ',');
    SplitIsUnique(s, ',', fields);
    var out := ReadParams(fields);
    if "realm" !in out {
      return Err(MissingRealm);
    }
    return Ok(out);
  }

  /** The field loop of `parseChallenge`. */
  method ReadParams(fields: seq<string>) returns (out: map<string, string>)
    ensures out == Params(fields)
  {
    out := map[];
    for i := 0 to |fields|
      invariant out == Params(fields[..i])
    {
      ParamsStep(fields, i);
      var param := ReadOne(fields[i]);
      if param.Some? {
        out := out[param.value.0 := param.value.1];
      }
    }
    TakeAll(fields);
  }

  /** One turn of it: nothing for a blank field or a bare token. */
  method ReadOne(raw: string) returns (param: Option<(string, string)>)
    ensures param == ReadField(raw)
  {
    var field := TrimSpace(raw);
    if field == "" {
      return None;
    }
    var eq := Index(field, '=');
    if eq < 0 {
      return None;
    }
    var key, value := TrimSpace(field[..eq]), TrimSpace(field[eq + 1..]);
    if |value| >= 2 && value[0] == '"' && value[|value| - 1] == '"' {
      value := value[1..|value| - 1];
    }
    return Some((ToLower(key), value));
  }

  lemma ParamsStep(fields: seq<string>, i: nat)
    requires i < |fields|
    ensures Params(fields[..i + 1]) ==
            match ReadField(fields[i])
            case None => Params(fields[..i])
            case Some((k, v)) => Params(fields[..i])[k := v]
  {
    assert fields[..i + 1][..i] == fields[..i];
  }

  // ---------- Printed challenges are recovered ----------

  datatype Param = Param(key: string, value: string) {
    /** A lower-case key without separators or blanks, and a value without quotes. */
    ghost predicate Printable() {
      && ToLower(key) == key && '"' !in value
      && forall i :: 0 <= i < |key| ==> key[i] !in ",=\"" && !IsSpace(key[i])
    }

    function Text(): string { key + "=\"" + value + "\"" }
  }

  ghost predicate Blank(s: string) {
    forall i :: 0 <= i < |s| ==> IsSpace(s[i])
  }

  /** The parameters as fields; `gap` is the white space written after each comma. */
  ghost function Fields(gap: string, ps: seq<Param>): (fields: seq<string>)
    ensures |fields| == |ps|
  {
    if ps == [] then []
    else
      var n := |ps| - 1;
      Fields(gap, ps[..n]) + [if n == 0 then ps[n].Text() else gap + ps[n].Text()]
  }

  ghost function AsMap(ps: seq<Param>): map<string, string> {
    if ps == [] then map[] else AsMap(ps[..|ps| - 1])[ps[|ps| - 1].key := ps[|ps| - 1].value]
  }

  lemma {:induction false} QuoteFree(s: string)
    requires '"' !in s
    ensures !Quoted(s)
  {
    if s != "" {
      QuoteFree(s[..|s| - 1]);
    }
  }

  // ---- Trimming ----

  lemma {:induction false} TrimLeftOf(gap: string, s: string)
    requires Blank(gap) && (s == "" || !IsSpace(s[0]))
    ensures TrimLeft(gap + s) == s
  {
    if gap == "" {
      Empty(s);
    } else {
      assert (gap + s)[1..] == gap[1..] + s;
      TrimLeftOf(gap[1..], s);
    }
  }

  lemma TrimOf(gap: string, s: string)
    requires Blank(gap) && s != "" && !IsSpace(s[0]) && !IsSpace(s[|s| - 1])
    ensures TrimSpace(gap + s) == s
  {
    TrimLeftOf(gap, s);
  }

  lemma TrimNone(s: string)
    requires forall i :: 0 <= i < |s| ==> !IsSpace(s[i])
    ensures TrimSpace(s) == s
  {
  }

  // ---- One printed parameter ----

  lemma TextIsTrimmed(p: Param)
    requires p.Printable()
    ensures var t := p.Text(); t != "" && !IsSpace(t[0]) && !IsSpace(t[|t| - 1]) && t[|t| - 1] == '"'
  {
    var t := p.Text();
    assert t[0] == if p.key == "" then '=' else p.key[0];
    assert t[|t| - 1] == '"';
  }

  lemma TextIsRead(gap: string, p: Param)
    requires Blank(gap) && p.Printable()
    ensures ReadField(gap + p.Text()) == Some((p.key, p.value))
  {
    var t, n := p.Text(), |p.key|;
    TextIsTrimmed(p);
    TrimOf(gap, t);
    assert t[..n] == p.key && t[n] == '=' && t[n + 1..] == "\"" + p.value + "\"";
    assert '=' !in p.key;
    IndexIs(t, '=', n);
    TrimNone(p.key);
    QuotedValue(p.value);
  }

  lemma QuotedValue(v: string)
    ensures var q := "\"" + v + "\""; TrimSpace(q) == q && Unquote(q) == v
  {
    var q := "\"" + v + "\"";
    Empty(q);
    TrimOf("", q);
    assert q[1..|q| - 1] == v;
  }

  /** Commas stand only inside the quotes of a printed parameter, and the quotes are closed. */
  lemma TextHasNoSplit(gap: string, p: Param)
    requires Blank(gap) && p.Printable()
    ensures NoSplit(gap + p.Text(), ',') && !Quoted(gap + p.Text())
  {
    var head, f := gap + p.key + "=", gap + p.Text();
    assert f == head + "\"" + p.value + "\"";
    assert '"' !in head && ',' !in head;
    QuotedOnce(head, p.value);
    forall i | 0 <= i < |f|
      ensures !SplitsAt(f, i, ',')
    {
      if |head| < i < |f| - 1 {
        var inside := p.value[..i - |head| - 1];
        assert f[..i] == head + "\"" + inside;
        QuotedOnce(head, inside);
      } else if i < |head| {
        assert f[i] == head[i];
      }
    }
  }

  lemma QuotedOnce(head: string, v: string)
    requires '"' !in head && '"' !in v
    ensures Quoted(head + "\"" + v) && !Quoted(head + "\"" + v + "\"")
  {
    QuoteFree(head);
    QuoteFree(v);
    assert "\""[..0] == "" && Quoted("\"");
    QuotedAppend(head, "\"");
    QuotedAppend(head + "\"", v);
    QuotedAppend(head + "\"" + v, "\"");
  }

  lemma {:induction false} FieldsAreClosed(gap: string, ps: seq<Param>)
    requires Blank(gap) && forall i :: 0 <= i < |ps| ==> ps[i].Printable()
    ensures forall i :: 0 <= i < |ps| ==> NoSplit(Fields(gap, ps)[i], ',') && !Quoted(Fields(gap, ps)[i])
  {
    if ps != [] {
      var n := |ps| - 1;
      Empty(ps[n].Text());
      TextHasNoSplit(if n == 0 then "" else gap, ps[n]);
      FieldsAreClosed(gap, ps[..n]);
    }
  }

  lemma FieldsSplit(gap: string, ps: seq<Param>)
    requires Blank(gap) && ps != [] && forall i :: 0 <= i < |ps| ==> ps[i].Printable()
    ensures SplitOf(Join(Fields(gap, ps), ','), ',') == Fields(gap, ps)
  {
    FieldsAreClosed(gap, ps);
    SplitIsUnique(Join(Fields(gap, ps), ','), ',', Fields(gap, ps));
  }

  lemma {:induction false} FieldsAreRead(gap: string, ps: seq<Param>)
    requires Blank(gap) && forall i :: 0 <= i < |ps| ==> ps[i].Printable()
    ensures Params(Fields(gap, ps)) == AsMap(ps)
  {
    if ps != [] {
      var n := |ps| - 1;
      FieldsAreRead(gap, ps[..n]);
      Empty(ps[n].Text());
      TextIsRead(if n == 0 then "" else gap, ps[n]);
      ParamsStep(Fields(gap, ps), n);
      assert Fields(gap, ps)[..n] == Fields(gap, ps[..n]);
      assert Fields(gap, ps)[..n + 1] == Fields(gap, ps);
    }
  }

  // ---- The whole challenge ----

  lemma {:induction false} LowerAt(s: string, i: nat)
    requires i < |s|
    ensures ToLower(s)[i] == LowerChar(s[i])
  {
    if i < |s| - 1 {
      LowerAt(s[..|s| - 1], i);
    }
  }

  /** A body of printed parameters starts with its first key and an equals sign, and ends with a quote. */
  lemma {:induction false} BodyEnds(gap: string, ps: seq<Param>)
    requires ps != []
    ensures var body := Join(Fields(gap, ps), ','); var n := |ps[0].key|;
            n < |body| && body[..n] == ps[0].key && body[n] == '=' && body[|body| - 1] == '"'
    decreases |ps|
  {
    var n := |ps| - 1;
    var t := ps[n].Text();
    if n > 0 {
      var front := Fields(gap, ps[..n]);
      BodyEnds(gap, ps[..n]);
      JoinMore(front, gap + t, ',');
      assert Fields(gap, ps) == front + [gap + t];
    } else {
      assert Fields(gap, ps) == [t];
    }
  }

  lemma NoScheme(body: string, key: string)
    requires |key| < |body| && body[..|key|] == key && body[|key|] == '='
             && forall i :: 0 <= i < |key| ==> !IsSpace(key[i])
    ensures StripScheme(body) == body
  {
    if |body| >= 7 {
      var i := if |key| < 7 then |key| else 6;
      LowerAt(body[..7], i);
      LowerAt("Bearer ", i);
      assert "Bearer "[i] != '=' && "Bearer "[6] == ' ';
      assert |key| >= 7 ==> body[6] == body[..|key|][6] == key[6];
      assert ToLower(body[..7])[i] != ToLower("Bearer ")[i];
    }
  }

  lemma StartsPlain(body: string, key: string)
    requires |key| < |body| && body[..|key|] == key && body[|key|] == '='
             && forall i :: 0 <= i < |key| ==> !IsSpace(key[i])
    ensures !IsSpace(body[0])
  {
    if key != "" {
      assert body[0] == body[..|key|][0] == key[0];
    }
  }

  lemma WithScheme(scheme: string, body: string)
    requires EqualFold(scheme, "Bearer ")
    ensures scheme != "" && StripScheme(scheme + body) == body && !IsSpace((scheme + body)[0])
  {
    assert (scheme + body)[..7] == scheme && (scheme + body)[7..] == body;
    LowerAt(scheme, 0);
    LowerAt("Bearer ", 0);
  }

  lemma BareBody(body: string, key: string)
    requires |key| < |body| && body[..|key|] == key && body[|key|] == '='
             && forall i :: 0 <= i < |key| ==> !IsSpace(key[i])
    requires body[|body| - 1] == '"'
    ensures StripScheme(TrimSpace(body)) == body
  {
    StartsPlain(body, key);
    TrimWhole(body);
    NoScheme(body, key);
  }

  lemma SchemedBody(scheme: string, body: string)
    requires EqualFold(scheme, "Bearer ") && body != "" && body[|body| - 1] == '"'
    ensures StripScheme(TrimSpace(scheme + body)) == body
  {
    WithScheme(scheme, body);
    TrimWhole(scheme + body);
  }

  lemma SchemeIsStripped(scheme: string, gap: string, ps: seq<Param>)
    requires scheme == "" || EqualFold(scheme, "Bearer ")
    requires ps != [] && ps[0].Printable()
    ensures var body := Join(Fields(gap, ps), ',');
            body != "" && StripScheme(TrimSpace(scheme + body)) == body
  {
    var body := Join(Fields(gap, ps), ',');
    BodyEnds(gap, ps);
    if scheme == "" {
      Empty(body);
      BareBody(body, ps[0].key);
    } else {
      SchemedBody(scheme, body);
    }
  }

  lemma TrimWhole(s: string)
    requires s != "" && !IsSpace(s[0]) && !IsSpace(s[|s| - 1])
    ensures TrimSpace(s) == s
  {
    Empty(s);
    TrimOf("", s);
  }

  /**
   A challenge printed as parameters, with or without the scheme and with any white space behind the
   commas, is recovered exactly (section 11.6.1 of RFC 9110, section 3 of RFC 6750).
   */
  lemma ChallengeIsRecovered(scheme: string, gap: string, ps: seq<Param>)
    requires scheme == "" || EqualFold(scheme, "Bearer ")
    requires Blank(gap) && forall i :: 0 <= i < |ps| ==> ps[i].Printable()
    requires exists i :: 0 <= i < |ps| && ps[i].key == "realm"
    ensures ChallengeOf(scheme + Join(Fields(gap, ps), ',')) == Ok(AsMap(ps))
  {
    SchemeIsStripped(scheme, gap, ps);
    FieldsSplit(gap, ps);
    FieldsAreRead(gap, ps);
    var i :| 0 <= i < |ps| && ps[i].key == "realm";
    KeysInMap(ps, i);
  }

  lemma {:induction false} KeysInMap(ps: seq<Param>, i: nat)
    requires i < |ps|
    ensures ps[i].key in AsMap(ps)
  {
    if i < |ps| - 1 {
      KeysInMap(ps[..|ps| - 1], i);
    }
  }

  /** With distinct keys the map holds exactly the printed pairs. */
  lemma {:induction false} AsMapIsExact(ps: seq<Param>)
    requires forall i, j :: 0 <= i < j < |ps| ==> ps[i].key != ps[j].key
    ensures forall i :: 0 <= i < |ps| ==> ps[i].key in AsMap(ps) && AsMap(ps)[ps[i].key] == ps[i].value
    ensures forall k :: k in AsMap(ps) ==> exists i :: 0 <= i < |ps| && ps[i].key == k
  {
    if ps != [] {
      var n := |ps| - 1;
      AsMapIsExact(ps[..n]);
      forall k | k in AsMap(ps)
        ensures exists i :: 0 <= i < |ps| && ps[i].key == k
      {
        if k != ps[n].key {
          var i :| 0 <= i < n && ps[..n][i].key == k;
          assert ps[i].key == k;
        } else {
          assert ps[n].key == k;
        }
      }
    }
  }

  // ---------- What else a field can be ----------

  /** Exactly the ASCII capitals are lowered, each to its own small letter. */
  lemma LowerIs(s: string, i: nat)
    requires i < |s|
    ensures 'A' <= s[i] <= 'Z' ==> ToLower(s)[i] as int - 'a' as int == s[i] as int - 'A' as int
    ensures !('A' <= s[i] <= 'Z') ==> ToLower(s)[i] == s[i]
  {
    LowerAt(s, i);
  }

  /** A key without separators or blanks, in letters of either case. */
  ghost predicate PlainKey(key: string) {
    forall i :: 0 <= i < |key| ==> key[i] !in ",=\"" && !IsSpace(key[i])
  }

  ghost predicate Unpadded(v: string) {
    v == "" || (!IsSpace(v[0]) && !IsSpace(v[|v| - 1]))
  }

  lemma FieldIsRead(gap: string, key: string, v: string)
    requires Blank(gap) && PlainKey(key) && Unpadded(v)
    ensures ReadField(gap + (key + "=" + v)) == Some((ToLower(key), Unquote(v)))
  {
    var t, n := key + "=" + v, |key|;
    assert t[..n] == key && t[n] == '=' && t[n + 1..] == v;
    assert t[0] == (if key == "" then '=' else key[0]) && t[|t| - 1] == if v == "" then '=' else v[|v| - 1];
    TrimOf(gap, t);
    assert '=' !in key;
    IndexIs(t, '=', n);
    TrimNone(key);
    if v != "" {
      TrimWhole(v);
    }
  }

  /** Keys are read in lower case; quotes around a value are taken off, and a value without any is as it stands. */
  lemma ValuesAreRead(gap: string, key: string, v: string)
    requires Blank(gap) && PlainKey(key) && '"' !in v
    ensures ReadField(gap + (key + "=" + ("\"" + v + "\""))) == Some((ToLower(key), v))
    ensures Unpadded(v) ==> ReadField(gap + (key + "=" + v)) == Some((ToLower(key), v))
  {
    QuotedValue(v);
    FieldIsRead(gap, key, "\"" + v + "\"");
    if Unpadded(v) {
      FieldIsRead(gap, key, v);
    }
  }

  lemma {:induction false} TrimLeftKeeps(s: string, c: char)
    requires c !in s
    ensures c !in TrimLeft(s)
  {
    if s != "" && IsSpace(s[0]) {
      TrimLeftKeeps(s[1..], c);
    }
  }

  lemma {:induction false} TrimRightKeeps(s: string, c: char)
    requires c !in s
    ensures c !in TrimRight(s)
  {
    if s != "" && IsSpace(s[|s| - 1]) {
      TrimRightKeeps(s[..|s| - 1], c);
    }
  }

  /** A field without an equals sign is ignored. */
  lemma BareTokenIsIgnored(raw: string)
    requires '=' !in raw
    ensures ReadField(raw) == None
  {
    TrimLeftKeeps(raw, '=');
    TrimRightKeeps(TrimLeft(raw), '=');
  }

  /** A blank challenge is an error, and so is a printed one without a realm. */
  lemma BlankIsEmpty(challenge: string)
    requires Blank(challenge)
    ensures ChallengeOf(challenge) == Err(EmptyChallenge)
  {
    TrimLeftOf(challenge, "");
    Empty(challenge);
  }

  lemma NoRealmIsMissed(scheme: string, gap: string, ps: seq<Param>)
    requires scheme == "" || EqualFold(scheme, "Bearer ")
    requires Blank(gap) && ps != [] && forall i :: 0 <= i < |ps| ==> ps[i].Printable() && ps[i].key != "realm"
    ensures ChallengeOf(scheme + Join(Fields(gap, ps), ',')) == Err(MissingRealm)
  {
    SchemeIsStripped(scheme, gap, ps);
    FieldsSplit(gap, ps);
    FieldsAreRead(gap, ps);
    OnlyTheirKeys(ps, "realm");
  }

  lemma {:induction false} OnlyTheirKeys(ps: seq<Param>, key: string)
    requires forall i :: 0 <= i < |ps| ==> ps[i].key != key
    ensures key !in AsMap(ps)
  {
    if ps != [] {
      OnlyTheirKeys(ps[..|ps| - 1], key);
    }
  }
}
