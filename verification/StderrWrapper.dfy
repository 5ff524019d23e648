/**
 The stderr re-framer: a writer that cuts a byte stream into lines, in place, over a shared backing
 array, and writes each non-blank line to an inner writer as one JSON record.
 */
module StderrWrapper {
  import opened Sequences

  type Byte = bv8
  type Bytes = seq<Byte>

  const NEWLINE: Byte := 10

  /** What the wrapper takes from the libraries: trimming, JSON validation, and building a record. */
  datatype Library = Library(
    trim: Bytes -> (nat, nat),
    validJson: Bytes -> bool,
    record: Bytes -> Bytes)
  {
    /** Trimming yields a slice of the line. */
    ghost predicate Valid() {
      forall line {:trigger trim(line)} :: trim(line).0 <= trim(line).1 <= |line|
    }

    function Trimmed(line: Bytes): Bytes
      requires Valid()
    {
      line[trim(line).0..trim(line).1]
    }

    /** The record for a non-blank line, with its newline. */
    function Framed(trimmed: Bytes): Bytes {
      (if validJson(trimmed) then trimmed else record(trimmed)) + [NEWLINE]
    }
  }

  // ---------- Lines of a stream ----------

  /** The complete lines of a stream, without their newlines. */
  ghost function Lines(s: Bytes): seq<Bytes> {
    if s == [] then []
    else if s[|s| - 1] == NEWLINE then Lines(s[..|s| - 1]) + [Rest(s[..|s| - 1])]
    else Lines(s[..|s| - 1])
  }

  /** The bytes after the last newline. */
  ghost function Rest(s: Bytes): Bytes {
    if s == [] || s[|s| - 1] == NEWLINE then []
    else Rest(s[..|s| - 1]) + [s[|s| - 1]]
  }

  /** What one line writes: nothing when it is blank. */
  ghost function RecordsOf(lib: Library, line: Bytes): seq<Bytes>
    requires lib.Valid()
  {
    if lib.Trimmed(line) == [] then [] else [lib.Framed(lib.Trimmed(line))]
  }

  ghost function Records(lib: Library, lines: seq<Bytes>): seq<Bytes>
    requires lib.Valid()
  {
    if lines == [] then []
    else Records(lib, lines[..|lines| - 1]) + RecordsOf(lib, lines[|lines| - 1])
  }

  // ---------- What the records are ----------

  /** What is not JSON is wrapped into something that is. */
  ghost predicate WrapsIntoJson(lib: Library) {
    forall x :: lib.validJson(lib.record(x))
  }

  /** One line of valid JSON. */
  ghost predicate IsJsonLine(lib: Library, p: Bytes) {
    exists x :: lib.validJson(x) && p == x + [NEWLINE]
  }

  ghost predicate AllJsonLines(lib: Library, ps: seq<Bytes>) {
    forall i :: 0 <= i < |ps| ==> IsJsonLine(lib, ps[i])
  }

  /** Whatever the lines are, every record is a line of valid JSON. */
  lemma {:induction false} RecordsAreJson(lib: Library, lines: seq<Bytes>)
    requires lib.Valid() && WrapsIntoJson(lib)
    ensures AllJsonLines(lib, Records(lib, lines))
  {
    if lines != [] {
      RecordsAreJson(lib, lines[..|lines| - 1]);
      var x := lib.Trimmed(lines[|lines| - 1]);
      if x != [] {
        assert IsJsonLine(lib, (if lib.validJson(x) then x else lib.record(x)) + [NEWLINE]);
      }
    }
  }

  /** The lines that are not blank, trimmed. */
  ghost function Contents(lib: Library, lines: seq<Bytes>): seq<Bytes>
    requires lib.Valid()
  {
    if lines == [] then []
    else
      var front, x := Contents(lib, lines[..|lines| - 1]), lib.Trimmed(lines[|lines| - 1]);
      if x == [] then front else front + [x]
  }

  /** Each line that is not blank has its record: valid JSON as it is, and anything else wrapped. */
  lemma {:induction false} RecordsOfContents(lib: Library, lines: seq<Bytes>)
    requires lib.Valid()
    ensures |Records(lib, lines)| == |Contents(lib, lines)|
    ensures forall i :: 0 <= i < |Contents(lib, lines)| ==>
              var x := Contents(lib, lines)[i];
              && x != []
              && (lib.validJson(x) ==> Records(lib, lines)[i] == x + [NEWLINE])
              && (!lib.validJson(x) ==> Records(lib, lines)[i] == lib.record(x) + [NEWLINE])
  {
    if lines != [] {
      RecordsOfContents(lib, lines[..|lines| - 1]);
    }
  }

  /** A stream whose lines are JSON or blank passes through: its trimmed lines, each with one newline. */
  lemma JsonPassesThrough(lib: Library, lines: seq<Bytes>)
    requires lib.Valid() && forall i :: 0 <= i < |Contents(lib, lines)| ==> lib.validJson(Contents(lib, lines)[i])
    ensures |Records(lib, lines)| == |Contents(lib, lines)|
    ensures forall i :: 0 <= i < |Contents(lib, lines)| ==>
              Records(lib, lines)[i] == Contents(lib, lines)[i] + [NEWLINE]
  {
    RecordsOfContents(lib, lines);
  }

  /** Lines that are neither blank nor padded are their own contents. */
  lemma {:induction false} ContentsOfPlain(lib: Library, lines: seq<Bytes>)
    requires lib.Valid() && forall i :: 0 <= i < |lines| ==> IsPlain(lib, lines[i])
    ensures Contents(lib, lines) == lines
  {
    if lines != [] {
      var n := |lines| - 1;
      ContentsOfPlain(lib, lines[..n]);
      assert IsPlain(lib, lines[n]);
      TakeMore(lines, n);
      TakeAll(lines);
    }
  }

  ghost predicate IsPlain(lib: Library, line: Bytes)
    requires lib.Valid()
  {
    line != [] && lib.Trimmed(line) == line
  }

  lemma OneMoreByte(s: Bytes, x: Byte)
    ensures Lines(s + [x]) == if x == NEWLINE then Lines(s) + [Rest(s)] else Lines(s)
    ensures Rest(s + [x]) == if x == NEWLINE then [] else Rest(s) + [x]
  {
    assert (s + [x])[..|s|] == s;
  }

  /** Cutting a stream anywhere: the second part is read with what the first left over in front of it. */
  lemma {:induction false} LinesAppend(a: Bytes, b: Bytes)
    ensures Lines(a + b) == Lines(a) + Lines(Rest(a) + b)
    ensures Rest(a + b) == Rest(Rest(a) + b)
    decreases |b|
  {
    if b == [] {
      Empty(a);
      Empty(Rest(a));
      Empty(Lines(a));
      RestHasNoLine(a);
    } else {
      var c, x := b[..|b| - 1], b[|b| - 1];
      LinesAppend(a, c);
      Snoc(a, b);
      Snoc(Rest(a), b);
      OneMoreByte(a + c, x);
      OneMoreByte(Rest(a) + c, x);
      Assoc(Lines(a), Lines(Rest(a) + c), [Rest(a + c)]);
    }
  }

  lemma {:induction false} RestHasNoLine(s: Bytes)
    ensures NEWLINE !in Rest(s)
    ensures Lines(Rest(s)) == [] && Rest(Rest(s)) == Rest(s)
  {
    NoNewlineTail(s);
    NoLine(Rest(s));
  }

  lemma {:induction false} NoNewlineTail(s: Bytes)
    ensures NEWLINE !in Rest(s)
  {
    if s != [] && s[|s| - 1] != NEWLINE {
      NoNewlineTail(s[..|s| - 1]);
    }
  }

  lemma {:induction false} NoLine(s: Bytes)
    requires NEWLINE !in s
    ensures Lines(s) == [] && Rest(s) == s
  {
    if s != [] {
      NoLine(s[..|s| - 1]);
    }
  }

  lemma {:induction false} RecordsAppend(lib: Library, xs: seq<Bytes>, ys: seq<Bytes>)
    requires lib.Valid()
    ensures Records(lib, xs + ys) == Records(lib, xs) + Records(lib, ys)
    decreases |ys|
  {
    if ys == [] {
      Empty(xs);
      Empty(Records(lib, xs));
    } else {
      var zs := ys[..|ys| - 1];
      RecordsAppend(lib, xs, zs);
      Snoc(xs, ys);
      Assoc(Records(lib, xs), Records(lib, zs), RecordsOf(lib, ys[|ys| - 1]));
    }
  }

  /** The stream that consists of these lines. */
  ghost function Terminated(lines: seq<Bytes>): Bytes {
    if lines == [] then []
    else Terminated(lines[..|lines| - 1]) + lines[|lines| - 1] + [NEWLINE]
  }

  ghost predicate AreLines(lines: seq<Bytes>) {
    forall i :: 0 <= i < |lines| ==> NEWLINE !in lines[i]
  }

  lemma OneMoreLine(lines: seq<Bytes>, line: Bytes)
    ensures Terminated(lines + [line]) == Terminated(lines) + line + [NEWLINE]
    ensures AreLines(lines) && NEWLINE !in line ==> AreLines(lines + [line])
  {
    assert (lines + [line])[..|lines|] == lines;
  }

  /** No byte is lost or invented: the lines and the rest make up the stream again. */
  lemma {:induction false} LinesRebuild(s: Bytes)
    ensures AreLines(Lines(s)) && NEWLINE !in Rest(s) && Terminated(Lines(s)) + Rest(s) == s
  {
    if s != [] {
      var c, x := s[..|s| - 1], s[|s| - 1];
      LinesRebuild(c);
      if x == NEWLINE {
        OneMoreLine(Lines(c), Rest(c));
        Empty(c + [x]);
      } else {
        Assoc(Terminated(Lines(c)), Rest(c), [x]);
      }
      assert s == c + [x];
    }
  }

  /** And only they do. */
  lemma {:induction false} LinesAreUnique(lines: seq<Bytes>, rest: Bytes)
    requires AreLines(lines) && NEWLINE !in rest
    ensures Lines(Terminated(lines) + rest) == lines && Rest(Terminated(lines) + rest) == rest
    decreases |lines|
  {
    if lines == [] {
      Empty(rest);
      NoLine(rest);
    } else {
      var front, last := lines[..|lines| - 1], lines[|lines| - 1];
      LinesAreUnique(front, last);
      assert lines == front + [last];
      LinesOfOneMore(front, last, rest);
    }
  }

  lemma LinesOfOneMore(front: seq<Bytes>, last: Bytes, rest: Bytes)
    requires Lines(Terminated(front) + last) == front && Rest(Terminated(front) + last) == last && NEWLINE !in rest
    ensures var s := Terminated(front + [last]) + rest; Lines(s) == front + [last] && Rest(s) == rest
  {
    OneMoreLine(front, last);
    OneMoreByte(Terminated(front) + last, NEWLINE);
    Finished(Terminated(front + [last]) + rest, Terminated(front + [last]), rest);
  }

  // ---------- Any chunking gives the same output ----------

  function Concat(chunks: seq<Bytes>): Bytes {
    if chunks == [] then [] else Concat(chunks[..|chunks| - 1]) + chunks[|chunks| - 1]
  }

  /** What the chunks write one after another, each behind what the ones before it left over. */
  ghost function ChunkedRecords(lib: Library, pending: Bytes, chunks: seq<Bytes>): seq<Bytes>
    requires lib.Valid()
  {
    if chunks == [] then []
    else
      var n := |chunks| - 1;
      ChunkedRecords(lib, pending, chunks[..n]) + Records(lib, Lines(ChunkedRest(pending, chunks[..n]) + chunks[n]))
  }

  ghost function ChunkedRest(pending: Bytes, chunks: seq<Bytes>): Bytes {
    if chunks == [] then pending
    else Rest(ChunkedRest(pending, chunks[..|chunks| - 1]) + chunks[|chunks| - 1])
  }

  lemma OneMoreChunk(lib: Library, before: Bytes, chunk: Bytes)
    requires lib.Valid()
    ensures Records(lib, Lines(before + chunk))
            == Records(lib, Lines(before)) + Records(lib, Lines(Rest(before) + chunk))
    ensures Rest(before + chunk) == Rest(Rest(before) + chunk)
  {
    LinesAppend(before, chunk);
    RecordsAppend(lib, Lines(before), Lines(Rest(before) + chunk));
  }

  lemma {:induction false} ChunkingIsInvisible(lib: Library, pending: Bytes, chunks: seq<Bytes>)
    requires lib.Valid() && NEWLINE !in pending
    ensures ChunkedRecords(lib, pending, chunks) == Records(lib, Lines(pending + Concat(chunks)))
    ensures ChunkedRest(pending, chunks) == Rest(pending + Concat(chunks))
  {
    if chunks == [] {
      Empty(pending);
      NoLine(pending);
    } else {
      var n := |chunks| - 1;
      ChunkingIsInvisible(lib, pending, chunks[..n]);
      Assoc(pending, Concat(chunks[..n]), chunks[n]);
      OneMoreChunk(lib, pending + Concat(chunks[..n]), chunks[n]);
    }
  }

  lemma OneMoreRest(lib: Library, pending: Bytes, chunks: seq<Bytes>, i: nat)
    requires lib.Valid() && i < |chunks|
    ensures var before := ChunkedRest(pending, chunks[..i]);
            && ChunkedRest(pending, chunks[..i + 1]) == Rest(before + chunks[i])
            && ChunkedRecords(lib, pending, chunks[..i + 1])
            == ChunkedRecords(lib, pending, chunks[..i]) + Records(lib, Lines(before + chunks[i]))
  {
    assert chunks[..i + 1][..i] == chunks[..i];
  }

  // ---------- The writer ----------

  lemma SliceInTwo<T>(s: seq<T>, from: nat, cut: nat, to: nat)
    requires from <= cut <= to <= |s|
    ensures s[from..to] == s[from..cut] + s[cut..to]
  {
  }

  lemma SliceOfSlice<T>(s: seq<T>, from: nat, to: nat, a: nat, b: nat)
    requires from <= to <= |s| && a <= b <= to - from
    ensures s[from..to][a..b] == s[from + a..from + b]
  {
    var line := s[from..to];
    forall k | 0 <= k < b - a
      ensures line[a..b][k] == s[from + a..from + b][k]
    {
      assert line[a + k] == s[from + (a + k)];
    }
  }

  /** The inner writer: it copies what it is given, and `fails` says which attempts fail. */
  class InnerWriter {
    const fails: nat -> bool
    var attempts: nat
    var written: seq<Bytes>

    constructor (fails: nat -> bool)
      ensures this.fails == fails && written == []
    {
      this.fails, attempts, written := fails, 0, [];
    }

    ghost predicate Reliable() {
      forall n :: !fails(n)
    }

    method Write(p: Bytes) returns (ok: bool)
      modifies this
      ensures written == if ok then old(written) + [p] else old(written)
      ensures Reliable() ==> ok
    {
      ok := !fails(attempts);
      attempts := attempts + 1;
      if ok {
        written := written + [p];
      }
    }
  }

  class StderrJsonWrapper {
    const lib: Library
    const w: InnerWriter
    /** The pending slice is backing[start..end]; its capacity reaches to the end of the array. */
    var backing: array<Byte>
    var start: nat
    var end: nat

    ghost predicate Valid()
      reads this
    {
      lib.Valid() && start <= end <= backing.Length
    }

    ghost function Pending(): Bytes
      requires Valid()
      reads this, backing
    {
      backing[start..end]
    }

    constructor (lib: Library, w: InnerWriter)
      requires lib.Valid()
      ensures Valid() && Pending() == [] && this.lib == lib && this.w == w
      ensures fresh(backing)
    {
      this.lib, this.w := lib, w;
      backing, start, end := new Byte[0], 0, 0;
    }

    /** Go's append to the pending slice: in place while the capacity lasts, else in a new array. */
    method Append(p: Bytes, spare: nat)
      requires Valid()
      modifies this, backing
      ensures Valid() && Pending() == old(Pending()) + p
      ensures backing == old(backing) || fresh(backing)
    {
      if end + |p| <= backing.Length {
        AppendInPlace(p);
      } else {
        Grow(p, spare);
      }
    }

    method AppendInPlace(p: Bytes)
      requires Valid() && end + |p| <= backing.Length
      modifies backing, `end
      ensures Valid() && Pending() == old(Pending()) + p
    {
      ghost var was, cut := Pending(), end;
      forall i | 0 <= i < |p| {
        backing[end + i] := p[i];
      }
      end := end + |p|;
      assert backing[start..cut] == was && backing[cut..end] == p;
      SliceInTwo(backing[..], start, cut, end);
    }

    method Grow(p: Bytes, spare: nat)
      requires Valid()
      modifies this
      ensures Valid() && Pending() == old(Pending()) + p && fresh(backing)
    {
      ghost var was := Pending();
      var n := end - start;
      var grown := new Byte[n + |p| + spare](_ => 0);
      forall i | 0 <= i < n {
        grown[i] := backing[start + i];
      }
      assert grown[0..n] == was;
      forall i | 0 <= i < |p| {
        grown[n + i] := p[i];
      }
      assert grown[0..n] == was && grown[n..n + |p|] == p;
      SliceInTwo(grown[..], 0, n, n + |p|);
      backing, start, end := grown, 0, n + |p|;
    }

    method IndexNewline() returns (nl: int)
      requires Valid()
      ensures nl < 0 ==> NEWLINE !in Pending()
      ensures nl >= 0 ==> nl < |Pending()| && Pending()[nl] == NEWLINE && NEWLINE !in Pending()[..nl]
    {
      nl := 0;
      while start + nl < end
        invariant 0 <= nl <= end - start
        invariant NEWLINE !in Pending()[..nl]
      {
        if backing[start + nl] == NEWLINE {
          return;
        }
        nl := nl + 1;
      }
      assert Pending()[..nl] == Pending();
      return -1;
    }

    /** Takes a line and its newline off the front of the pending slice. */
    method CutLine(nl: nat) returns (ghost line: Bytes)
      requires Valid() && nl < |Pending()| && Pending()[nl] == NEWLINE && NEWLINE !in Pending()[..nl]
      modifies `start
      ensures Valid() && start == old(start) + nl + 1
      ensures line == backing[old(start)..start - 1] && NEWLINE !in line
      ensures old(Pending()) == line + [NEWLINE] + Pending()
    {
      line := Pending()[..nl];
      start := start + nl + 1;
    }

    /** Appends the newline to the trimmed slice where it lies, which is behind the unread bytes. */
    method TerminateInPlace(hi: nat)
      requires Valid() && hi < start
      modifies backing
      ensures backing[..] == old(backing[..])[hi := NEWLINE]
      ensures Pending() == old(Pending())
    {
      backing[hi] := NEWLINE;
    }

    /** Writes the line that lies at backing[from..to], which has already been cut off the pending slice. */
    method EmitLine(from: nat, to: nat) returns (ok: bool)
      requires Valid() && from <= to < start
      modifies backing, w
      ensures Pending() == old(Pending())
      ensures ok ==> w.written == old(w.written) + RecordsOf(lib, old(backing[from..to]))
      ensures !ok ==> w.written == old(w.written)
      ensures w.Reliable() ==> ok
    {
      ghost var line := backing[from..to];
      var (a, b) := lib.trim(backing[from..to]);
      var lo, hi := from + a, from + b;
      SliceOfSlice(backing[..], from, to, a, b);
      if lo == hi {
        return true;
      }
      if lib.validJson(backing[lo..hi]) {
        TerminateInPlace(hi);
        assert backing[lo..hi + 1] == lib.Trimmed(line) + [NEWLINE];
        ok := w.Write(backing[lo..hi + 1]);
      } else {
        var data := lib.record(backing[lo..hi]);
        ok := w.Write(data + [NEWLINE]);
      }
    }

    /** The stream `s` has been consumed up to the end of some line, and its records written behind `w0`. */
    ghost predicate ReadUpTo(s: Bytes, read: Bytes, w0: seq<Bytes>)
      requires Valid()
      reads this, backing, w
    {
      s == read + Pending() && Rest(read) == [] && w.written == w0 + Records(lib, Lines(read))
    }

    /** One turn of the loop: cuts off a line and writes its record. */
    method NextRecord(nl: nat) returns (ok: bool, ghost line: Bytes)
      requires Valid() && nl < |Pending()| && Pending()[nl] == NEWLINE && NEWLINE !in Pending()[..nl]
      modifies this, backing, w
      ensures Valid() && backing == old(backing) && end - start < old(end - start)
      ensures NEWLINE !in line && old(Pending()) == line + [NEWLINE] + Pending()
      ensures w.written == if ok then old(w.written) + RecordsOf(lib, line) else old(w.written)
      ensures w.Reliable() ==> ok
    {
      var from := start;
      line := CutLine(nl);
      ok := EmitLine(from, from + nl);
    }

    /**
     Returns the byte count and whether every inner write succeeded; `spare` is whatever room the
     runtime adds when it grows the buffer.  After a failed write `read` is what has been consumed.
     */
    method Write(p: Bytes, spare: nat) returns (n: nat, ok: bool, ghost read: Bytes)
      requires Valid()
      modifies this, backing, w
      ensures Valid() && n == |p|
      ensures backing == old(backing) || fresh(backing)
      ensures ok ==> w.written == old(w.written) + Records(lib, Lines(old(Pending()) + p))
      ensures ok ==> Pending() == Rest(old(Pending()) + p)
      ensures !ok ==> old(Pending()) + p == read + Pending() && Rest(read) == [] && Lines(read) != []
      ensures !ok ==> w.written == old(w.written) + Records(lib, Lines(read)[..|Lines(read)| - 1])
      ensures w.Reliable() ==> ok
      // Failing or not, what has been written is lines of JSON.
      ensures WroteJson(old(w.written))
    {
      ghost var s, w0 := Pending() + p, w.written;
      n, read := |p|, [];
      Append(p, spare);
      Empty(s);
      while true
        invariant Valid() && (backing == old(backing) || fresh(backing))
        invariant ReadUpTo(s, read, w0)
        decreases end - start
      {
        var nl := IndexNewline();
        if nl < 0 {
          Finished(s, read, Pending());
          WrittenIsJson(w0, Lines(s));
          return n, true, read;
        }
        ghost var line;
        ok, line := NextRecord(nl);
        LineCut(s, read, line, Pending());
        LineWritten(lib, read, line, w0);
        NextLine(lib, read, line);
        read := read + line + [NEWLINE];
        if !ok {
          WrittenIsJson(w0, Lines(read)[..|Lines(read)| - 1]);
          return n, false, read;
        }
      }
    }

    ghost predicate WroteJson(w0: seq<Bytes>)
      reads w
    {
      && |w0| <= |w.written|
      && (WrapsIntoJson(lib) ==> AllJsonLines(lib, w.written[|w0|..]))
    }

    lemma WrittenIsJson(w0: seq<Bytes>, lines: seq<Bytes>)
      requires lib.Valid() && w.written == w0 + Records(lib, lines)
      ensures WroteJson(w0)
    {
      assert w.written[|w0|..] == Records(lib, lines);
      if WrapsIntoJson(lib) {
        RecordsAreJson(lib, lines);
      }
    }

    /** Any number of writes: only the concatenation of the chunks shows in the output. */
    method WriteAll(chunks: seq<Bytes>, spare: nat)
      requires Valid() && w.Reliable() && NEWLINE !in Pending()
      modifies this, backing, w
      ensures Valid()
      ensures w.written == old(w.written) + Records(lib, Lines(old(Pending()) + Concat(chunks)))
      ensures Pending() == Rest(old(Pending()) + Concat(chunks))
      ensures WroteJson(old(w.written))
    {
      ghost var p0, w0 := Pending(), w.written;
      for i := 0 to |chunks|
        invariant Valid() && (backing == old(backing) || fresh(backing))
        invariant w.written == w0 + ChunkedRecords(lib, p0, chunks[..i])
        invariant Pending() == ChunkedRest(p0, chunks[..i])
      {
        ghost var before := Pending();
        var _, _, _ := Write(chunks[i], spare);
        OneMoreRest(lib, p0, chunks, i);
        Assoc(w0, ChunkedRecords(lib, p0, chunks[..i]), Records(lib, Lines(before + chunks[i])));
      }
      assert chunks[..|chunks|] == chunks;
      ChunkingIsInvisible(lib, p0, chunks);
      WrittenIsJson(w0, Lines(p0 + Concat(chunks)));
    }
  }

  /** With no newline left, everything before the pending bytes was complete lines. */
  lemma Finished(s: Bytes, read: Bytes, pending: Bytes)
    requires s == read + pending && Rest(read) == [] && NEWLINE !in pending
    ensures Lines(s) == Lines(read) && Rest(s) == pending
  {
    LinesAppend(read, pending);
    Empty(pending);
    NoLine(pending);
    Empty(Lines(read));
  }

  lemma LineWritten(lib: Library, read: Bytes, line: Bytes, w0: seq<Bytes>)
    requires lib.Valid() && Rest(read) == [] && NEWLINE !in line
    ensures var next := read + line + [NEWLINE];
            Rest(next) == []
            && (w0 + Records(lib, Lines(read))) + RecordsOf(lib, line) == w0 + Records(lib, Lines(next))
  {
    NextLine(lib, read, line);
    Assoc(w0, Records(lib, Lines(read)), RecordsOf(lib, line));
  }

  lemma LineCut(s: Bytes, read: Bytes, line: Bytes, pending: Bytes)
    requires s == read + (line + [NEWLINE] + pending)
    ensures s == read + line + [NEWLINE] + pending
  {
    Assoc(read, line + [NEWLINE], pending);
    Assoc(read, line, [NEWLINE]);
  }

  /** Reading one more line. */
  lemma NextLine(lib: Library, read: Bytes, line: Bytes)
    requires lib.Valid() && Rest(read) == [] && NEWLINE !in line
    ensures var next := read + line + [NEWLINE];
            && Rest(next) == [] && Lines(next) == Lines(read) + [line]
            && Lines(next)[..|Lines(next)| - 1] == Lines(read)
            && Records(lib, Lines(next)) == Records(lib, Lines(read)) + RecordsOf(lib, line)
  {
    OneMoreByte(read + line, NEWLINE);
    LinesAppend(read, line);
    Empty(line);
    NoLine(line);
    Empty(Lines(read));
    assert (Lines(read) + [line])[..|Lines(read)|] == Lines(read);
  }
}
