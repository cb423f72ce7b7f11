/** `TextLogStream`: text in, log messages of bounded size out. */
module LogStream {
  import opened Basics

  const MAX_BYTES_PER_WRITE: nat := 4000
  const MAX_CHARS_PER_WRITE: nat := MAX_BYTES_PER_WRITE / 4
  const NEWLINE: int := 0x0a

  /** Text is a sequence of code points, a message a sequence of bytes. */
  type Text = seq<int>
  type Bytes = seq<int>

  // ----- Lines -----

  predicate IsLineBreak(c: int) {
    0x0a <= c <= 0x0d || 0x1c <= c <= 0x1e || c == 0x85 || c == 0x2028 || c == 0x2029
  }

  /** The length of the first line, its line break included. */
  function LineLength(s: Text): (k: nat)
    requires s != []
    ensures 1 <= k <= |s|
    ensures NEWLINE !in s[..k - 1]
  {
    if s[0] == 0x0d && |s| > 1 && s[1] == NEWLINE then 2
    else if IsLineBreak(s[0]) || |s| == 1 then 1
    else 1 + LineLength(s[1..])
  }

  /** `s.splitlines(keepends=True)` */
  function SplitLines(s: Text): seq<Text> {
    if s == [] then [] else [s[..LineLength(s)]] + SplitLines(s[LineLength(s)..])
  }

  /** A line of s ends before index k: at the end, or after a line break that is not the first half of CR LF. */
  predicate EndsLine(s: Text, k: nat) {
    0 < k <= |s| && (k == |s| || (IsLineBreak(s[k - 1]) && !(s[k - 1] == 0x0d && s[k] == NEWLINE)))
  }

  /** s[a..b] is a line of s. */
  ghost predicate IsLineOf(s: Text, a: nat, b: nat) {
    a < b <= |s| && EndsLine(s, b) && forall k: nat :: a < k < b ==> !EndsLine(s, k)
  }

  lemma {:induction false} FirstLineEnds(s: Text)
    requires s != []
    ensures IsLineOf(s, 0, LineLength(s))
  {
    if !(s[0] == 0x0d && |s| > 1 && s[1] == NEWLINE) && !IsLineBreak(s[0]) && |s| > 1 {
      FirstLineEnds(s[1..]);
      TailEndsLine(s, 1);
      assert !EndsLine(s, 1);
    }
  }

  lemma TailEndsLine(s: Text, a: nat)
    requires a <= |s|
    ensures forall k: nat :: 0 < k ==> (EndsLine(s[a..], k) <==> EndsLine(s, a + k))
    ensures forall k: nat {:trigger EndsLine(s, k)} :: a < k ==> (EndsLine(s[a..], k - a) <==> EndsLine(s, k))
  {
  }

  lemma LineInText(s: Text, a: nat)
    requires a < |s|
    ensures IsLineOf(s, a, a + LineLength(s[a..]))
  {
    FirstLineEnds(s[a..]);
    TailEndsLine(s, a);
  }

  /** What one chunk of s is: as much of a line as is left, up to the limit. */
  ghost predicate IsChunk(s: Text, a: nat, b: nat) {
    && a < b <= |s| && b - a <= 1000
    && (forall k: nat :: a < k < b ==> !EndsLine(s, k))
    && (b - a == 1000 || EndsLine(s, b))
  }

  /** cs are the chunks of s[a..b]. */
  ghost predicate Chunked(s: Text, a: nat, b: nat, cs: seq<Text>)
    decreases |cs|
  {
    if cs == [] then a == b
    else
      var m := a + |cs[0]|;
      m <= b <= |s| && cs[0] == s[a..m] && IsChunk(s, a, m) && Chunked(s, m, b, cs[1..])
  }

  lemma {:induction false} ChunkedMore(s: Text, a: nat, m: nat, b: nat, cs: seq<Text>)
    requires Chunked(s, a, m, cs) && IsChunk(s, m, b)
    ensures Chunked(s, a, b, cs + [s[m..b]])
    decreases |cs|
  {
    if cs == [] {
      assert cs + [s[m..b]] == [s[m..b]] && [s[m..b]][1..] == [];
    } else {
      ChunkedMore(s, a + |cs[0]|, m, b, cs[1..]);
      assert (cs + [s[m..b]])[1..] == cs[1..] + [s[m..b]];
    }
  }

  /** A text has only one division into chunks. */
  lemma {:induction false} ChunkedUnique(s: Text, a: nat, b: nat, cs: seq<Text>, ds: seq<Text>)
    requires Chunked(s, a, b, cs) && Chunked(s, a, b, ds)
    ensures cs == ds
    decreases |cs|
  {
    if cs != [] && ds != [] {
      var m, n := a + |cs[0]|, a + |ds[0]|;
      assert m == n;
      ChunkedUnique(s, m, b, cs[1..], ds[1..]);
      assert cs == [cs[0]] + cs[1..] && ds == [ds[0]] + ds[1..];
    }
  }

  function Join(parts: seq<seq<int>>): seq<int> {
    if parts == [] then [] else parts[0] + Join(parts[1..])
  }

  lemma {:induction false} JoinAppend(parts: seq<seq<int>>, part: seq<int>)
    ensures Join(parts + [part]) == Join(parts) + part
  {
    if parts == [] {
      assert [part][1..] == [];
    } else {
      JoinAppend(parts[1..], part);
      assert (parts + [part])[1..] == parts[1..] + [part];
    }
  }

  /** A newline can only be the last character. */
  ghost predicate OneLine(line: seq<int>) {
    line != [] ==> NEWLINE !in line[..|line| - 1]
  }

  /** `b.endswith(b"\n")` */
  predicate EndsWithNewline(b: seq<int>) {
    b != [] && b[|b| - 1] == NEWLINE
  }

  ghost predicate AllOneLine(lines: seq<seq<int>>) {
    forall i :: 0 <= i < |lines| ==> OneLine(lines[i])
  }

  /** Splitting loses nothing, and every line ends at its first newline. */
  lemma {:induction false} LinesOfText(s: Text)
    ensures Join(SplitLines(s)) == s
    ensures AllOneLine(SplitLines(s))
    ensures s != [] ==> SplitLines(s) != []
    ensures EndsWithNewline(s) ==> EndsWithNewline(SplitLines(s)[|SplitLines(s)| - 1])
  {
    if s != [] {
      var k := LineLength(s);
      var lines := SplitLines(s[k..]);
      LinesOfText(s[k..]);
      FirstLine(s, k);
      JoinCons(s[..k], lines);
      LinesCons(s[..k], lines);
      LastOfCons(s[..k], lines);
    }
  }

  lemma FirstLine(s: Text, k: nat)
    requires s != [] && k == LineLength(s)
    ensures OneLine(s[..k]) && s == s[..k] + s[k..]
    ensures EndsWithNewline(s) ==> EndsWithNewline(if s[k..] == [] then s[..k] else s[k..])
  {
    assert s[..k][..k - 1] == s[..k - 1];
  }

  lemma JoinCons(line: Text, lines: seq<Text>)
    ensures Join([line] + lines) == line + Join(lines)
  {
    assert ([line] + lines)[1..] == lines;
  }

  lemma LinesCons(line: Text, lines: seq<Text>)
    requires OneLine(line) && AllOneLine(lines)
    ensures AllOneLine([line] + lines)
  {
  }

  lemma LastOfCons(line: Text, lines: seq<Text>)
    ensures var all := [line] + lines; all[|all| - 1] == if lines == [] then line else lines[|lines| - 1]
  {
  }

  lemma OneLineParts(chunk: seq<int>, rest: seq<int>)
    requires OneLine(chunk + rest)
    ensures OneLine(chunk) && OneLine(rest)
    ensures EndsWithNewline(chunk + rest) ==> EndsWithNewline(if rest == [] then chunk else rest)
  {
    var line := chunk + rest;
    if rest != [] {
      assert line[..|line| - 1] == chunk + rest[..|rest| - 1];
      assert chunk != [] ==> chunk == chunk[..|chunk| - 1] + [chunk[|chunk| - 1]];
    } else {
      assert line == chunk;
    }
  }

  // ----- One message per line -----

  /** The length of the first line up to and with its newline byte */
  function NewlineAt(b: Bytes): (k: nat)
    requires NEWLINE in b
    ensures 1 <= k <= |b| && b[k - 1] == NEWLINE && NEWLINE !in b[..k - 1]
  {
    if b[0] == NEWLINE then 1 else 1 + NewlineAt(b[1..])
  }

  /** The lines of b that end with a newline, and what is left */
  function Complete(b: Bytes): seq<Bytes> {
    if NEWLINE in b then [b[..NewlineAt(b)]] + Complete(b[NewlineAt(b)..]) else []
  }

  function Remainder(b: Bytes): Bytes {
    if NEWLINE in b then Remainder(b[NewlineAt(b)..]) else b
  }

  lemma CompleteHead(line: Bytes, more: Bytes)
    requires OneLine(line) && EndsWithNewline(line)
    ensures Complete(line + more) == [line] + Complete(more) && Remainder(line + more) == Remainder(more)
  {
    var b := line + more;
    assert b[|line| - 1] == NEWLINE;
    var k := NewlineAt(b);
    assert b[..k - 1] <= b && forall i :: 0 <= i < k - 1 ==> b[..k - 1][i] == b[i];
    assert forall i :: 0 <= i < |line| - 1 ==> line[..|line| - 1][i] == b[i];
    assert k == |line|;
    assert b[..k] == line && b[k..] == more;
  }

  /** Every line of b and what is left fits in a message. */
  ghost predicate Fits(b: Bytes) {
    (forall m :: m in Complete(b) ==> |m| <= MAX_BYTES_PER_WRITE) && |Remainder(b)| <= MAX_BYTES_PER_WRITE
  }

  lemma FitsHead(line: Bytes, more: Bytes)
    requires OneLine(line) && Fits(line + more)
    ensures |line| <= MAX_BYTES_PER_WRITE
    ensures EndsWithNewline(line) ==> Fits(more)
  {
    if EndsWithNewline(line) {
      CompleteHead(line, more);
      assert line in [line] + Complete(more);
      assert forall m :: m in Complete(more) ==> m in [line] + Complete(more);
    } else {
      assert NEWLINE !in line by {
        assert line != [] ==> line == line[..|line| - 1] + [line[|line| - 1]];
      }
      NoNewlineHead(line, more);
    }
  }

  lemma NoNewlineHead(line: Bytes, more: Bytes)
    requires NEWLINE !in line && Fits(line + more)
    ensures |line| <= MAX_BYTES_PER_WRITE
  {
    var b := line + more;
    assert forall i :: 0 <= i < |line| ==> b[i] == line[i] && b[i] != NEWLINE;
    if NEWLINE in b {
      assert b[..NewlineAt(b)] in Complete(b);
    }
  }

  // ----- Encoding -----

  /** The stream's encoder works character by character. */
  function Encode(s: Text, encoder: int -> Bytes): Bytes {
    if s == [] then [] else encoder(s[0]) + Encode(s[1..], encoder)
  }

  lemma {:induction false} EncodeJoin(s: Text, t: Text, encoder: int -> Bytes)
    ensures Encode(s + t, encoder) == Encode(s, encoder) + Encode(t, encoder)
  {
    if s == [] {
      assert s + t == t;
    } else {
      EncodeJoin(s[1..], t, encoder);
      assert (s + t)[1..] == s[1..] + t;
      Associate(encoder(s[0]), Encode(s[1..], encoder), Encode(t, encoder));
    }
  }

  /** As in UTF-8, the newline byte encodes the newline character and occurs in no other encoding. */
  ghost predicate NewlineSafe(encoder: int -> Bytes) {
    encoder(NEWLINE) == [NEWLINE] && forall c :: c != NEWLINE ==> NEWLINE !in encoder(c)
  }

  lemma {:induction false} NoNewlineEncoded(s: Text, encoder: int -> Bytes)
    requires NewlineSafe(encoder) && NEWLINE !in s
    ensures NEWLINE !in Encode(s, encoder)
  {
    if s != [] {
      NoNewlineEncoded(s[1..], encoder);
      assert s[0] != NEWLINE;
    }
  }

  lemma EncodedLine(s: Text, encoder: int -> Bytes)
    requires NewlineSafe(encoder) && OneLine(s)
    ensures OneLine(Encode(s, encoder))
    ensures EndsWithNewline(s) ==> EndsWithNewline(Encode(s, encoder))
  {
    if EndsWithNewline(s) {
      var t := s[..|s| - 1];
      assert s == t + [NEWLINE];
      EncodeJoin(t, [NEWLINE], encoder);
      assert [NEWLINE][1..] == [];
      NoNewlineEncoded(t, encoder);
      assert (Encode(t, encoder) + [NEWLINE])[..|Encode(t, encoder)|] == Encode(t, encoder);
    } else {
      assert s != [] ==> s == s[..|s| - 1] + [s[|s| - 1]];
      NoNewlineEncoded(s, encoder);
    }
  }

  /** At most four bytes for a character, as in UTF-8 */
  ghost predicate Narrow(encoder: int -> Bytes) {
    forall c :: |encoder(c)| <= 4
  }

  lemma NarrowCharacter(c: int, encoder: int -> Bytes)
    requires Narrow(encoder)
    ensures |encoder(c)| <= 4
  {
  }

  lemma {:induction false} NarrowChunk(s: Text, encoder: int -> Bytes)
    requires Narrow(encoder)
    ensures |Encode(s, encoder)| <= 4 * |s|
  {
    if s != [] {
      NarrowChunk(s[1..], encoder);
      NarrowCharacter(s[0], encoder);
    }
  }

  /** A message is within the limit, unless it is a single chunk. */
  ghost predicate SizeOk(m: Bytes, encoder: int -> Bytes) {
    |m| <= MAX_BYTES_PER_WRITE || exists t: Text :: |t| <= MAX_CHARS_PER_WRITE && m == Encode(t, encoder)
  }

  /** What holds of every message: its size, and at most one newline, at the end. */
  ghost predicate MessageOk(m: Bytes, encoder: int -> Bytes) {
    SizeOk(m, encoder) && (NewlineSafe(encoder) ==> OneLine(m))
  }

  ghost predicate AllOk(sent: seq<Bytes>, encoder: int -> Bytes) {
    forall i :: 0 <= i < |sent| ==> MessageOk(sent[i], encoder)
  }

  /** What is pending can be sent as it is, and still grow: it has no newline and is within the limit. */
  ghost predicate Pending(b: Bytes, encoder: int -> Bytes) {
    |b| <= MAX_BYTES_PER_WRITE && (NewlineSafe(encoder) ==> NEWLINE !in b)
  }

  /** Adding an encoded chunk either stays within the limit or starts from nothing. */
  lemma ChunkAdded(before: Bytes, chunk: Text, encoder: int -> Bytes)
    requires Pending(before, encoder) && OneLine(chunk) && |chunk| <= MAX_CHARS_PER_WRITE
    requires before == [] || |before + Encode(chunk, encoder)| <= MAX_BYTES_PER_WRITE
    ensures MessageOk(before + Encode(chunk, encoder), encoder)
    ensures NewlineSafe(encoder) && !EndsWithNewline(Encode(chunk, encoder)) ==>
      NEWLINE !in before + Encode(chunk, encoder)
  {
    var b := Encode(chunk, encoder);
    assert before == [] ==> before + b == b;
    if NewlineSafe(encoder) {
      EncodedLine(chunk, encoder);
      if b != [] {
        assert (before + b)[..|before + b| - 1] == before + b[..|b| - 1];
        assert b == b[..|b| - 1] + [b[|b| - 1]];
      } else {
        assert before + b == before;
      }
    }
  }

  // ----- Histories -----

  function EncodeAll(cs: seq<Text>, encoder: int -> Bytes): seq<Bytes> {
    if cs == [] then [] else [Encode(cs[0], encoder)] + EncodeAll(cs[1..], encoder)
  }

  lemma {:induction false} EncodeAllAppend(cs: seq<Text>, c: Text, encoder: int -> Bytes)
    ensures EncodeAll(cs + [c], encoder) == EncodeAll(cs, encoder) + [Encode(c, encoder)]
  {
    if cs == [] {
      assert cs + [c] == [c] && [c][1..] == [];
    } else {
      EncodeAllAppend(cs[1..], c, encoder);
      assert (cs + [c])[1..] == cs[1..] + [c];
    }
  }

  /** The chunks that a message was made of, and whether `flush` was asked for */
  datatype Span = Span(from: nat, to: nat, asked: bool)

  /** Why the message m was sent before the chunk cs[k]: it ends a line, or is too long already, or would be with that
      chunk. */
  ghost predicate Due(m: Bytes, cs: seq<Text>, k: nat, encoder: int -> Bytes) {
    || EndsWithNewline(m)
    || |m| > MAX_BYTES_PER_WRITE
    || (k < |cs| && |m| + |Encode(cs[k], encoder)| > MAX_BYTES_PER_WRITE)
  }

  /** m is made of the chunks of its span; without write-through it was due, with write-through it is one chunk. */
  ghost predicate SpanOk(m: Bytes, span: Span, cs: seq<Text>, encoder: int -> Bytes, writeThrough: bool) {
    && span.from < span.to <= |cs|
    && m == Join(EncodeAll(cs[span.from..span.to], encoder)) && m != []
    && (if writeThrough then span.to == span.from + 1 else span.asked || Due(m, cs, span.to, encoder))
  }

  ghost predicate Explained(sent: seq<Bytes>, spans: seq<Span>, start: nat, cs: seq<Text>, encoder: int -> Bytes,
      writeThrough: bool)
  {
    && |spans| == |sent|
    && (forall i :: 0 <= i < |sent| ==> SpanOk(sent[i], spans[i], cs, encoder, writeThrough))
    && (forall i :: 0 < i < |spans| ==> spans[i - 1].to <= spans[i].from)
    && (spans != [] ==> spans[|spans| - 1].to <= start)
  }

  lemma ExplainedWithChunk(sent: seq<Bytes>, spans: seq<Span>, start: nat, cs: seq<Text>, c: Text,
      encoder: int -> Bytes, writeThrough: bool)
    requires Explained(sent, spans, start, cs, encoder, writeThrough)
    ensures Explained(sent, spans, start, cs + [c], encoder, writeThrough)
  {
    forall i | 0 <= i < |sent|
      ensures SpanOk(sent[i], spans[i], cs + [c], encoder, writeThrough)
    {
      assert SpanOk(sent[i], spans[i], cs, encoder, writeThrough);
      assert (cs + [c])[spans[i].from..spans[i].to] == cs[spans[i].from..spans[i].to];
    }
  }

  lemma ExplainedWithMessage(sent: seq<Bytes>, spans: seq<Span>, start: nat, cs: seq<Text>, encoder: int -> Bytes,
      writeThrough: bool, m: Bytes, span: Span)
    requires Explained(sent, spans, start, cs, encoder, writeThrough)
    requires span.from == start && SpanOk(m, span, cs, encoder, writeThrough)
    ensures Explained(sent + [m], spans + [span], span.to, cs, encoder, writeThrough)
  {
  }

  /** The messages that were added were not asked for by `flush`. */
  ghost predicate SpansAdded(before: seq<Span>, spans: seq<Span>) {
    before <= spans && forall i :: |before| <= i < |spans| ==> !spans[i].asked
  }

  /** With what is pending, b is sent if it ends a line, and kept otherwise. */
  ghost predicate KeptOrSent(before: seq<Bytes>, p: Bytes, b: Bytes, sent: seq<Bytes>, pending: Bytes) {
    if EndsWithNewline(b) then sent == before + [p + b] && pending == [] else sent == before && pending == p + b
  }

  /** Sending the lines of b after the one messages is the same as those of b' after the other. */
  ghost predicate SameSegments(sent: seq<Bytes>, b: Bytes, sent': seq<Bytes>, b': Bytes) {
    Fits(b') && sent + Complete(b) == sent' + Complete(b') && Remainder(b) == Remainder(b')
  }

  /** A line added to what is pending, which has no newline */
  lemma OneLineMore(p: Bytes, line: Text, encoder: int -> Bytes)
    requires NewlineSafe(encoder) && NEWLINE !in p && OneLine(line)
    ensures OneLine(p + Encode(line, encoder))
    ensures EndsWithNewline(p + Encode(line, encoder)) <==> EndsWithNewline(Encode(line, encoder))
  {
    var e := Encode(line, encoder);
    EncodedLine(line, encoder);
    if e == [] {
      assert p + e == p;
    } else {
      assert (p + e)[..|p + e| - 1] == p + e[..|e| - 1];
    }
  }

  lemma LineFits(p: Bytes, line: Text, more: Bytes, encoder: int -> Bytes)
    requires NewlineSafe(encoder) && NEWLINE !in p && OneLine(line)
    requires Fits(p + (Encode(line, encoder) + more))
    ensures |p| + |Encode(line, encoder)| <= MAX_BYTES_PER_WRITE
  {
    OneLineMore(p, line, encoder);
    Associate(p, Encode(line, encoder), more);
    FitsHead(p + Encode(line, encoder), more);
  }

  lemma LineSegments(sent: seq<Bytes>, p: Bytes, line: Text, more: Bytes, sent': seq<Bytes>, p': Bytes,
      encoder: int -> Bytes)
    requires NewlineSafe(encoder) && NEWLINE !in p && OneLine(line)
    requires Fits(p + (Encode(line, encoder) + more))
    requires KeptOrSent(sent, p, Encode(line, encoder), sent', p')
    ensures SameSegments(sent, p + (Encode(line, encoder) + more), sent', p' + more) && NEWLINE !in p'
  {
    var b := p + Encode(line, encoder);
    OneLineMore(p, line, encoder);
    Associate(p, Encode(line, encoder), more);
    if EndsWithNewline(b) {
      CompleteHead(b, more);
      FitsHead(b, more);
      assert p' + more == more;
      Associate(sent, [b], Complete(more));
    }
  }

  // ----- States of the stream -----

  /** Besides what is sent and pending: all the text written so far, the chunks in which it came, the chunks of each
      message, and the first chunk that is pending */
  datatype State = State(writeThrough: bool, encoder: int -> Bytes, sent: seq<Bytes>, pending: seq<Bytes>,
    written: Text, chunks: seq<Text>, spans: seq<Span>, start: nat)

  /** The chunks before `to` have been sent or are pending. */
  ghost predicate Recorded(x: State, to: nat) {
    match x
    case State(writeThrough, encoder, sent, pending, written, chunks, spans, start) =>
      && Join(sent) + Join(pending) == Encode(written, encoder)
      && AllOk(sent, encoder)
      && start <= to <= |chunks| && pending == EncodeAll(chunks[start..to], encoder)
      && Explained(sent, spans, start, chunks, encoder, writeThrough)
  }

  ghost predicate Sound(x: State) {
    Recorded(x, |x.chunks|) && Pending(Join(x.pending), x.encoder) && (x.writeThrough ==> x.pending == [])
  }

  ghost function Flushed(x: State, to: nat, asked: bool): State {
    var m := Join(x.pending);
    if m == [] then x.(pending := [], start := to)
    else x.(sent := x.sent + [m], pending := [], spans := x.spans + [Span(x.start, to, asked)], start := to)
  }

  ghost function ChunkAnnounced(x: State, s: Text): State {
    var y := x.(chunks := x.chunks + [s]);
    if |Join(x.pending)| + |Encode(s, x.encoder)| > MAX_BYTES_PER_WRITE then Flushed(y, |x.chunks|, false) else y
  }

  ghost function ChunkAppended(x: State, s: Text): State {
    x.(pending := x.pending + [Encode(s, x.encoder)], written := x.written + s)
  }

  ghost function ChunkWritten(x: State, s: Text): State {
    var y := ChunkAppended(ChunkAnnounced(x, s), s);
    if x.writeThrough || EndsWithNewline(Encode(s, x.encoder)) || |Join(y.pending)| > MAX_BYTES_PER_WRITE
    then Flushed(y, |y.chunks|, false) else y
  }

  lemma FlushedIsRecorded(x: State, to: nat, asked: bool)
    requires Recorded(x, to) && MessageOk(Join(x.pending), x.encoder)
    requires Join(x.pending) != [] ==>
      SpanOk(Join(x.pending), Span(x.start, to, asked), x.chunks, x.encoder, x.writeThrough)
    ensures Recorded(Flushed(x, to, asked), to)
  {
    var m := Join(x.pending);
    if m != [] {
      JoinAppend(x.sent, m);
      ExplainedWithMessage(x.sent, x.spans, x.start, x.chunks, x.encoder, x.writeThrough, m, Span(x.start, to, asked));
    }
    assert EncodeAll(x.chunks[to..to], x.encoder) == [];
  }

  lemma NothingToSend(x: State, to: nat)
    requires Recorded(x, to) && Join(x.pending) != []
    ensures x.start < to
  {
    assert x.start == to ==> x.pending == [];
  }

  lemma WithChunkIsRecorded(x: State, s: Text)
    requires Recorded(x, |x.chunks|)
    ensures Recorded(x.(chunks := x.chunks + [s]), |x.chunks|)
  {
    ExplainedWithChunk(x.sent, x.spans, x.start, x.chunks, s, x.encoder, x.writeThrough);
    PrefixSlice(x.chunks, s, x.start);
  }

  lemma PrefixSlice<T>(s: seq<T>, x: T, a: nat)
    requires a <= |s|
    ensures (s + [x])[a..|s|] == s[a..|s|]
  {
  }

  lemma AnnouncedIsRecorded(x: State, s: Text)
    requires Sound(x)
    ensures Recorded(ChunkAnnounced(x, s), |x.chunks|)
  {
    var y := x.(chunks := x.chunks + [s]);
    WithChunkIsRecorded(x, s);
    if Join(x.pending) != [] {
      NothingToSend(y, |x.chunks|);
    }
    if |Join(x.pending)| + |Encode(s, x.encoder)| > MAX_BYTES_PER_WRITE {
      PendingIsOk(Join(x.pending), x.encoder);
      FlushedIsRecorded(y, |x.chunks|, false);
    }
  }

  lemma PendingIsOk(b: Bytes, encoder: int -> Bytes)
    requires Pending(b, encoder)
    ensures MessageOk(b, encoder)
  {
  }

  lemma AppendedIsRecorded(x: State, s: Text)
    requires |x.chunks| > 0 && x.chunks[|x.chunks| - 1] == s && Recorded(x, |x.chunks| - 1)
    ensures Recorded(ChunkAppended(x, s), |x.chunks|)
  {
    var k := |x.chunks| - 1;
    EncodeJoin(x.written, s, x.encoder);
    JoinAppend(x.pending, Encode(s, x.encoder));
    EncodeAllAppend(x.chunks[x.start..k], s, x.encoder);
    assert x.chunks[x.start..k + 1] == x.chunks[x.start..k] + [s];
    Associate(Join(x.sent), Join(x.pending), Encode(s, x.encoder));
  }

  /** What is pending before the chunk is appended */
  lemma AnnouncedIsPending(x: State, s: Text)
    requires Sound(x)
    ensures var y := ChunkAnnounced(x, s);
      && Pending(Join(y.pending), x.encoder) && (x.writeThrough ==> y.pending == [] && y.start == |x.chunks|)
      && (Join(y.pending) == [] || |Join(y.pending)| + |Encode(s, x.encoder)| <= MAX_BYTES_PER_WRITE)
  {
    assert x.writeThrough && x.start < |x.chunks| ==> x.pending != [];
  }

  /** A chunk keeps the state sound. */
  lemma ChunkIsSound(x: State, s: Text)
    requires Sound(x) && |s| <= MAX_CHARS_PER_WRITE && OneLine(s)
    ensures Sound(ChunkWritten(x, s))
  {
    var y := ChunkAnnounced(x, s);
    AnnouncedIsPending(x, s);
    AppendedIsOk(y, s);
    ReadyToSend(x, s);
    WrittenIsSound(x, ChunkAppended(y, s), s);
  }

  lemma ReadyToSend(x: State, s: Text)
    requires Sound(x)
    ensures var z := ChunkAppended(ChunkAnnounced(x, s), s);
      && Recorded(z, |z.chunks|) && (Join(z.pending) != [] ==> z.start < |z.chunks|)
  {
    AnnouncedIsRecorded(x, s);
    AppendedIsReady(ChunkAnnounced(x, s), s);
  }

  lemma AppendedIsReady(y: State, s: Text)
    requires |y.chunks| > 0 && y.chunks[|y.chunks| - 1] == s && Recorded(y, |y.chunks| - 1)
    ensures var z := ChunkAppended(y, s);
      Recorded(z, |z.chunks|) && (Join(z.pending) != [] ==> z.start < |z.chunks|)
  {
    AppendedIsRecorded(y, s);
    if Join(ChunkAppended(y, s).pending) != [] {
      NothingToSend(ChunkAppended(y, s), |y.chunks|);
    }
  }

  lemma AppendedIsOk(y: State, s: Text)
    requires Pending(Join(y.pending), y.encoder) && OneLine(s) && |s| <= MAX_CHARS_PER_WRITE
    requires Join(y.pending) == [] || |Join(y.pending)| + |Encode(s, y.encoder)| <= MAX_BYTES_PER_WRITE
    ensures var m, b := Join(ChunkAppended(y, s).pending), Encode(s, y.encoder);
      && MessageOk(m, y.encoder) && (EndsWithNewline(b) ==> EndsWithNewline(m))
      && (NewlineSafe(y.encoder) && !EndsWithNewline(b) ==> NEWLINE !in m)
  {
    JoinAppend(y.pending, Encode(s, y.encoder));
    ChunkAdded(Join(y.pending), s, y.encoder);
  }

  lemma WrittenIsSound(x: State, z: State, s: Text)
    requires z == ChunkAppended(ChunkAnnounced(x, s), s) && Recorded(z, |z.chunks|)
    requires MessageOk(Join(z.pending), z.encoder) && (Join(z.pending) != [] ==> z.start < |z.chunks|)
    requires z.writeThrough ==> z.start + 1 == |z.chunks|
    requires NewlineSafe(z.encoder) && !EndsWithNewline(Encode(s, z.encoder)) ==> NEWLINE !in Join(z.pending)
    requires EndsWithNewline(Encode(s, z.encoder)) ==> EndsWithNewline(Join(z.pending))
    ensures Sound(ChunkWritten(x, s))
  {
    var flush := z.writeThrough || EndsWithNewline(Encode(s, z.encoder)) || |Join(z.pending)| > MAX_BYTES_PER_WRITE;
    if flush {
      FlushedIsRecorded(z, |z.chunks|, false);
    }
  }

  /** What a chunk changes: without write-through, one that ends no line and fits is only kept, and a line that fits is
      sent when it ends. */
  ghost predicate Buffered(x: State, s: Text, y: State) {
    var b, p := Encode(s, x.encoder), Join(x.pending);
    && (EndsWithNewline(b) ==> y.pending == [])
    && (!x.writeThrough && |p| + |b| <= MAX_BYTES_PER_WRITE ==> KeptOrSent(x.sent, p, b, y.sent, Join(y.pending)))
  }

  lemma ChunkIsBuffered(x: State, s: Text)
    ensures Buffered(x, s, ChunkWritten(x, s))
  {
    JoinAppend(x.pending, Encode(s, x.encoder));
  }

  ghost predicate Grows(x: State, s: Text, cs: seq<Text>, y: State) {
    && y.writeThrough == x.writeThrough && y.encoder == x.encoder
    && y.written == x.written + s && y.chunks == x.chunks + cs && SpansAdded(x.spans, y.spans)
  }

  lemma ChunkGrows(x: State, s: Text)
    ensures Grows(x, s, [s], ChunkWritten(x, s))
  {
  }

  // ----- Many chunks -----

  ghost function Fold<S>(step: (S, Text) -> S, x: S, cs: seq<Text>): S
    decreases |cs|
  {
    if cs == [] then x else Fold(step, step(x, cs[0]), cs[1..])
  }

  lemma {:induction false} FoldAppend<S>(step: (S, Text) -> S, x: S, cs: seq<Text>, c: Text)
    ensures Fold(step, x, cs + [c]) == step(Fold(step, x, cs), c)
    decreases |cs|
  {
    if cs == [] {
      assert cs + [c] == [c] && [c][1..] == [];
    } else {
      FoldAppend(step, step(x, cs[0]), cs[1..], c);
      assert (cs + [c])[1..] == cs[1..] + [c];
    }
  }

  /** inv holds of a state once s[..a] has been written: each chunk keeps it. */
  ghost predicate Keeps<S(!new)>(step: (S, Text) -> S, inv: (S, nat) -> bool, s: Text) {
    forall x: S, a: nat, m: nat {:trigger inv(x, a), IsChunk(s, a, m)} ::
      inv(x, a) && IsChunk(s, a, m) ==> inv(step(x, s[a..m]), m)
  }

  lemma {:induction false} ChunksKeep<S(!new)>(step: (S, Text) -> S, inv: (S, nat) -> bool, x: S, s: Text, a: nat,
      cs: seq<Text>)
    requires Keeps(step, inv, s) && Chunked(s, a, |s|, cs) && inv(x, a)
    ensures inv(Fold(step, x, cs), |s|)
    decreases |cs|
  {
    if cs != [] {
      var m := a + |cs[0]|;
      assert IsChunk(s, a, m);
      ChunksKeep(step, inv, step(x, cs[0]), s, m, cs[1..]);
    }
  }

  lemma ChunkOfLine(s: Text, a: nat, m: nat)
    requires IsChunk(s, a, m)
    ensures OneLine(s[a..m]) && |s[a..m]| <= MAX_CHARS_PER_WRITE
  {
    var c := s[a..m];
    forall i | 0 <= i < |c| - 1
      ensures c[i] != NEWLINE
    {
      assert !EndsLine(s, a + i + 1);
    }
  }

  lemma ChunkAndRest(s: Text, a: nat, m: nat)
    requires a <= m <= |s|
    ensures s[a..] == s[a..m] + s[m..]
  {
  }

  lemma ChunksAreSound(x: State, s: Text, cs: seq<Text>)
    requires Sound(x) && Chunked(s, 0, |s|, cs)
    ensures Sound(Fold(ChunkWritten, x, cs))
  {
    var inv := (y: State, a: nat) => Sound(y);
    forall y: State, a: nat, m: nat | inv(y, a) && IsChunk(s, a, m)
      ensures inv(ChunkWritten(y, s[a..m]), m)
    {
      ChunkOfLine(s, a, m);
      ChunkIsSound(y, s[a..m]);
    }
    ChunksKeep(ChunkWritten, inv, x, s, 0, cs);
  }

  lemma {:induction false} ChunksJoin(s: Text, a: nat, cs: seq<Text>)
    requires Chunked(s, a, |s|, cs)
    ensures Join(cs) == s[a..]
    decreases |cs|
  {
    if cs != [] {
      ChunksJoin(s, a + |cs[0]|, cs[1..]);
      ChunkAndRest(s, a, a + |cs[0]|);
    }
  }

  /** All of the text is written, in its chunks, and nothing is sent because `flush` is asked for. */
  lemma {:induction false} ChunksGrow(x: State, cs: seq<Text>)
    ensures Grows(x, Join(cs), cs, Fold(ChunkWritten, x, cs))
    decreases |cs|
  {
    if cs == [] {
      assert x.written + Join(cs) == x.written && x.chunks + cs == x.chunks;
    } else {
      var y := ChunkWritten(x, cs[0]);
      ChunkGrows(x, cs[0]);
      ChunksGrow(y, cs[1..]);
      GrowsMore(x, cs[0], y, Join(cs[1..]), cs[1..], Fold(ChunkWritten, y, cs[1..]));
      assert cs == [cs[0]] + cs[1..];
    }
  }

  lemma GrowsMore(x: State, c: Text, y: State, s: Text, cs: seq<Text>, z: State)
    requires Grows(x, c, [c], y) && Grows(y, s, cs, z)
    ensures Grows(x, c + s, [c] + cs, z)
  {
    Associate(x.written, c, s);
    Associate(x.chunks, [c], cs);
  }

  /** Nothing is pending after a newline. */
  lemma ChunksEnd(x: State, s: Text, cs: seq<Text>)
    requires Chunked(s, 0, |s|, cs) && NewlineSafe(x.encoder) && EndsWithNewline(s)
    ensures Fold(ChunkWritten, x, cs).pending == []
  {
    var inv := (y: State, a: nat) =>
      y.encoder == x.encoder && a <= |s| && (EndsWithNewline(s[..a]) ==> y.pending == []);
    forall y: State, a: nat, m: nat | inv(y, a) && IsChunk(s, a, m)
      ensures inv(ChunkWritten(y, s[a..m]), m)
    {
      ChunkEnds(y, s, a, m);
    }
    ChunksKeep(ChunkWritten, inv, x, s, 0, cs);
    assert s[..|s|] == s;
  }

  lemma ChunkEnds(y: State, s: Text, a: nat, m: nat)
    requires IsChunk(s, a, m) && NewlineSafe(y.encoder)
    ensures var z := ChunkWritten(y, s[a..m]);
      z.encoder == y.encoder && (EndsWithNewline(s[..m]) ==> z.pending == [])
  {
    var c := s[a..m];
    ChunkGrows(y, c);
    ChunkIsBuffered(y, c);
    ChunkOfLine(s, a, m);
    EncodedLine(c, y.encoder);
    assert s[..m][m - 1] == c[|c| - 1];
  }

  /** If all lines fit, exactly the lines are sent, and the rest is kept. */
  lemma ChunksSendLines(x: State, s: Text, cs: seq<Text>)
    requires NEWLINE !in Join(x.pending) && Chunked(s, 0, |s|, cs) && !x.writeThrough && NewlineSafe(x.encoder)
    requires Fits(Join(x.pending) + Encode(s, x.encoder))
    ensures var b, y := Join(x.pending) + Encode(s, x.encoder), Fold(ChunkWritten, x, cs);
      y.sent == x.sent + Complete(b) && Join(y.pending) == Remainder(b)
  {
    var inv := (y: State, a: nat) => LinesSent(x, y, s, a);
    forall y: State, a: nat, m: nat | inv(y, a) && IsChunk(s, a, m)
      ensures inv(ChunkWritten(y, s[a..m]), m)
    {
      SegmentOf(x, y, s, a, m);
    }
    assert s[0..] == s;
    ChunksKeep(ChunkWritten, inv, x, s, 0, cs);
    AllLinesSent(x, Fold(ChunkWritten, x, cs), s);
  }

  /** What has been sent of s[..a] and what is left are the lines of all of it. */
  ghost predicate LinesSent(x: State, y: State, s: Text, a: nat) {
    && a <= |s| && NEWLINE !in Join(y.pending) && !y.writeThrough && y.encoder == x.encoder
    && SameSegments(x.sent, Join(x.pending) + Encode(s, x.encoder), y.sent, Join(y.pending) + Encode(s[a..], x.encoder))
  }

  lemma AllLinesSent(x: State, y: State, s: Text)
    requires LinesSent(x, y, s, |s|)
    ensures var b := Join(x.pending) + Encode(s, x.encoder);
      y.sent == x.sent + Complete(b) && Join(y.pending) == Remainder(b)
  {
    assert Join(y.pending) + Encode(s[|s|..], x.encoder) == Join(y.pending);
    assert y.sent + [] == y.sent;
  }

  lemma SegmentOf(x: State, y: State, s: Text, a: nat, m: nat)
    requires LinesSent(x, y, s, a) && IsChunk(s, a, m) && NewlineSafe(x.encoder)
    ensures LinesSent(x, ChunkWritten(y, s[a..m]), s, m)
  {
    var c, p, rest := s[a..m], Join(y.pending), Encode(s[m..], x.encoder);
    var z := ChunkWritten(y, c);
    ChunkGrows(y, c);
    ChunkIsBuffered(y, c);
    ChunkOfLine(s, a, m);
    ChunkAndRest(s, a, m);
    EncodeJoin(c, s[m..], x.encoder);
    LineFits(p, c, rest, x.encoder);
    LineSegments(y.sent, p, c, rest, z.sent, Join(z.pending), x.encoder);
  }

  /** The chunks of s[..m] have been written. */
  ghost predicate Written<S(!new)>(step: (S, Text) -> S, x: S, y: S, s: Text, m: nat, cs: seq<Text>) {
    y == Fold(step, x, cs) && Chunked(s, 0, m, cs)
  }

  lemma OneChunkMore<S(!new)>(step: (S, Text) -> S, x: S, y: S, s: Text, m: nat, k: nat, cs: seq<Text>)
    requires Written(step, x, y, s, m, cs) && IsChunk(s, m, k)
    ensures Written(step, x, step(y, s[m..k]), s, k, cs + [s[m..k]])
  {
    FoldAppend(step, x, cs, s[m..k]);
    ChunkedMore(s, 0, m, k, cs);
  }

  lemma HeadOfLine(s: Text, off: nat, m: nat, end: nat, rest: Text, k: nat)
    requires IsLineOf(s, off, end) && off <= m < end && rest == s[m..end]
    requires k == if |rest| < 1000 then |rest| else 1000
    ensures IsChunk(s, m, m + k) && rest[..k] == s[m..m + k] && rest[k..] == s[m + k..end]
  {
  }

  // ----- The stream -----

  class TextLogStream {
    const writeThrough: bool
    const encoder: int -> Bytes
    var pending: seq<Bytes>
    var pendingCount: nat
    /** The messages handed to logcat */
    var sent: seq<Bytes>
    ghost var state: State

    ghost predicate Valid()
      reads this
    {
      Agrees() && Sound(state)
    }

    ghost predicate Agrees()
      reads this
    {
      && state.writeThrough == writeThrough && state.encoder == encoder
      && state.sent == sent && state.pending == pending && pendingCount == |Join(pending)|
    }

    constructor (writeThrough: bool, encoder: int -> Bytes)
      ensures Valid() && state == State(writeThrough, encoder, [], [], [], [], [], 0)
      ensures this.writeThrough == writeThrough && this.encoder == encoder
    {
      this.writeThrough, this.encoder := writeThrough, encoder;
      pending, pendingCount, sent := [], 0, [];
      state := State(writeThrough, encoder, [], [], [], [], [], 0);
    }

    /** `flush`, with the rule of BinaryLogStream.write that empty output has no effect */
    method Flush(ghost to: nat, ghost asked: bool)
      requires Agrees()
      modifies `pending, `pendingCount, `sent, `state
      ensures Agrees() && state == Flushed(old(state), to, asked)
      ensures pending == [] && sent == old(sent) + (if Join(old(pending)) == [] then [] else [Join(old(pending))])
      ensures Sound(old(state)) && to == |old(state).chunks| && asked ==> Sound(state)
    {
      var b := Join(pending);
      if Sound(state) {
        AskedIsSound(state);
      }
      state := Flushed(state, to, asked);
      if b != [] {
        sent := sent + [b];
      }
      pending, pendingCount := [], 0;
    }

    /** `_write_chunk` */
    method WriteChunk(s: Text)
      requires Agrees()
      modifies `pending, `pendingCount, `sent, `state
      ensures Agrees() && state == ChunkWritten(old(state), s)
      ensures Grows(old(state), s, [s], state) && Buffered(old(state), s, state)
      ensures Sound(old(state)) && OneLine(s) && |s| <= MAX_CHARS_PER_WRITE ==> Sound(state)
    {
      ChunkKeepsAll(state, s);
      Announce(s);
      Append(s);
    }

    method Announce(s: Text)
      requires Agrees()
      modifies `pending, `pendingCount, `sent, `state
      ensures Agrees() && state == ChunkAnnounced(old(state), s)
    {
      var b := Encode(s, encoder);
      ghost var k := |state.chunks|;
      state := state.(chunks := state.chunks + [s]);
      if pendingCount + |b| > MAX_BYTES_PER_WRITE {
        Flush(k, false);
      }
    }

    method Append(s: Text)
      requires Agrees()
      modifies `pending, `pendingCount, `sent, `state
      ensures Agrees()
      ensures var y := ChunkAppended(old(state), s);
        state == if writeThrough || EndsWithNewline(Encode(s, encoder)) || |Join(y.pending)| > MAX_BYTES_PER_WRITE
          then Flushed(y, |y.chunks|, false) else y
    {
      var b := Encode(s, encoder);
      JoinAppend(pending, b);
      state := ChunkAppended(state, s);
      pending := pending + [b];
      pendingCount := pendingCount + |b|;
      if writeThrough || EndsWithNewline(b) || pendingCount > MAX_BYTES_PER_WRITE {
        Flush(|state.chunks|, false);
      }
    }

    /** `write`: every line in chunks of at most MAX_CHARS_PER_WRITE characters.  Without write-through, if all lines
        fit, every line that is complete is one message and the rest is kept. */
    method Write(s: Text) returns (n: nat, ghost cs: seq<Text>)
      requires Valid()
      modifies `pending, `pendingCount, `sent, `state
      ensures Valid() && n == |s|
      ensures Grows(old(state), s, cs, state) && Chunked(s, 0, |s|, cs)
      ensures NewlineSafe(encoder) && EndsWithNewline(s) ==> pending == []
      ensures var b := Join(old(pending)) + Encode(s, encoder);
        !writeThrough && NewlineSafe(encoder) && Fits(b) ==>
          sent == old(sent) + Complete(b) && Join(pending) == Remainder(b)
    {
      var lines := SplitLines(s);
      ghost var x, off: nat := state, 0;
      cs := [];
      assert lines[0..] == lines && s[0..] == s;
      for i := 0 to |lines|
        invariant Agrees() && Written(ChunkWritten, x, state, s, off, cs)
        invariant off <= |s| && lines[i..] == SplitLines(s[off..])
      {
        ghost var end := off + |lines[i]|;
        HeadOf(lines, i);
        NextLine(lines[i], lines[i + 1..], s, off, end);
        cs := WriteLine(lines[i], s, x, off, end, cs);
        off := end;
      }
      TextWritten(x, state, s, cs);
      n := |s|;
    }

    /** `Lib/_android_support.py:73-76`, for the line s[off..end] of the text */
    method WriteLine(line: Text, ghost s: Text, ghost x: State, ghost off: nat, ghost end: nat, ghost before: seq<Text>)
      returns (ghost cs: seq<Text>)
      requires IsLineOf(s, off, end) && line == s[off..end]
      requires Agrees() && Written(ChunkWritten, x, state, s, off, before)
      modifies `pending, `pendingCount, `sent, `state
      ensures Agrees() && Written(ChunkWritten, x, state, s, end, cs)
    {
      var rest := line;
      ghost var m := off;
      cs := before;
      while rest != []
        invariant off <= m <= end && rest == s[m..end]
        invariant Agrees() && Written(ChunkWritten, x, state, s, m, cs)
        decreases |rest|
      {
        rest, m, cs := WriteHead(rest, s, x, off, m, end, cs);
      }
    }

    method WriteHead(line: Text, ghost s: Text, ghost x: State, ghost off: nat, ghost m: nat, ghost end: nat,
        ghost before: seq<Text>) returns (rest: Text, ghost k: nat, ghost cs: seq<Text>)
      requires IsLineOf(s, off, end) && off <= m < end && line == s[m..end]
      requires Agrees() && Written(ChunkWritten, x, state, s, m, before)
      modifies `pending, `pendingCount, `sent, `state
      ensures m < k <= end && rest == s[k..end] && Agrees() && Written(ChunkWritten, x, state, s, k, cs)
    {
      var n := if |line| < MAX_CHARS_PER_WRITE then |line| else MAX_CHARS_PER_WRITE;
      var chunk := line[..n];
      HeadOfLine(s, off, m, end, line, n);
      k, cs := m + n, before + [chunk];
      OneChunkMore(ChunkWritten, x, state, s, m, k, before);
      WriteChunk(chunk);
      rest := line[n..];
    }
  }

  lemma ChunkKeepsAll(x: State, s: Text)
    ensures Grows(x, s, [s], ChunkWritten(x, s)) && Buffered(x, s, ChunkWritten(x, s))
    ensures Sound(x) && OneLine(s) && |s| <= MAX_CHARS_PER_WRITE ==> Sound(ChunkWritten(x, s))
  {
    ChunkGrows(x, s);
    ChunkIsBuffered(x, s);
    if Sound(x) && OneLine(s) && |s| <= MAX_CHARS_PER_WRITE {
      ChunkIsSound(x, s);
    }
  }

  lemma TextWritten(x: State, y: State, s: Text, cs: seq<Text>)
    requires Sound(x) && Written(ChunkWritten, x, y, s, |s|, cs)
    ensures Sound(y) && Grows(x, s, cs, y)
    ensures NewlineSafe(x.encoder) && EndsWithNewline(s) ==> y.pending == []
    ensures var b := Join(x.pending) + Encode(s, x.encoder);
      !x.writeThrough && NewlineSafe(x.encoder) && Fits(b) ==>
        y.sent == x.sent + Complete(b) && Join(y.pending) == Remainder(b)
  {
    ChunksAreSound(x, s, cs);
    ChunksGrow(x, cs);
    ChunksJoin(s, 0, cs);
    assert s[0..] == s;
    if NewlineSafe(x.encoder) && EndsWithNewline(s) {
      ChunksEnd(x, s, cs);
    }
    if !x.writeThrough && NewlineSafe(x.encoder) && Fits(Join(x.pending) + Encode(s, x.encoder)) {
      ChunksSendLines(x, s, cs);
    }
  }

  lemma AskedIsSound(x: State)
    requires Sound(x)
    ensures Sound(Flushed(x, |x.chunks|, true))
  {
    PendingIsOk(Join(x.pending), x.encoder);
    if Join(x.pending) != [] {
      NothingToSend(x, |x.chunks|);
    }
    FlushedIsRecorded(x, |x.chunks|, true);
  }

  lemma NextLine(line: Text, tail: seq<Text>, s: Text, off: nat, end: nat)
    requires off <= |s| && [line] + tail == SplitLines(s[off..]) && end == off + |line|
    ensures IsLineOf(s, off, end) && line == s[off..end] && tail == SplitLines(s[end..])
  {
    var rest := s[off..];
    var k := LineLength(rest);
    SameHead(line, tail, rest[..k], SplitLines(rest[k..]));
    LineInText(s, off);
    assert rest[k..] == s[off + k..] && rest[..k] == s[off..off + k];
  }

  lemma SameHead<T>(x: T, s: seq<T>, y: T, t: seq<T>)
    requires [x] + s == [y] + t
    ensures x == y && s == t
  {
    assert s == ([x] + s)[1..] == ([y] + t)[1..] == t;
    assert ([x] + s)[0] == ([y] + t)[0];
  }

  lemma HeadOf<T>(s: seq<T>, i: nat)
    requires i < |s|
    ensures s[i..] == [s[i]] + s[i + 1..]
  {
  }

  /** With a narrow encoding, no message exceeds the limit. */
  lemma NarrowMessagesFit(m: Bytes, encoder: int -> Bytes)
    requires Narrow(encoder) && SizeOk(m, encoder)
    ensures |m| <= MAX_BYTES_PER_WRITE
  {
    if |m| > MAX_BYTES_PER_WRITE {
      var t: Text :| |t| <= MAX_CHARS_PER_WRITE && m == Encode(t, encoder);
      NarrowChunk(t, encoder);
    }
  }
}
