/**
 * The `Content-Length` framing of scripts/mcp_vector_search.py: how
 * `send_response`/`send_error` frame a reply, and the two-state line machine
 * of `run` (locals `buffer` and `content_length`) that cuts request bodies
 * out of standard input.
 */
module Framing {
  import opened Wrappers
  import opened PyText

  const HeaderPrefix := "Content-Length: "

  /** `run`'s two locals: the pending text and, once a header was read, the announced length. */
  datatype Framer = Framer(buffer: string, contentLength: Option<int>)

  /** `buffer = ""`, `content_length = None`: the state at start and after every body. */
  const Idle := Framer("", None)

  /**
   * What becomes of a body: `json.loads` raises `JSONDecodeError`; the JSON is
   * not an object, so `handle_request` raises on its first `request.get`; or a request.
   */
  datatype Parsed<R> = Malformed | NotAnObject | Request(request: R)

  /** The branch one line takes through the loop body, before any parsing. */
  datatype Step = SetLength(n: int) | Discard | Keep | Body(text: string)

  datatype Fed<R> = Fed(state: Framer, request: Option<R>)

  /** The state after a run of lines, and the requests handed to `handle_request`, in order. */
  datatype Run<R> = Run(state: Framer, requests: seq<R>)

  predicate StartsWith(s: string, prefix: string) {
    |prefix| <= |s| && s[..|prefix|] == prefix
  }

  /**
   * `buffer += line` and the branch taken. In header state a buffer starting
   * with `"Content-Length: "` sets the length to `int(buffer.split(":")[1].strip())`;
   * when `int` raises, the loop's outer handler swallows the error and the
   * buffer stays as it is. A bare line end is dropped, anything else stays in
   * the buffer. In body state a blank buffer is dropped, and once the buffer's
   * UTF-8 size reaches the length, its first `content_length` characters are the body.
   */
  function Scan(st: Framer, line: string): (r: Step)
    ensures r.SetLength? ==> st.contentLength.None? && StartsWith(st.buffer + line, HeaderPrefix)
    ensures r.Body? ==> st.contentLength.Some? && r.text <= st.buffer + line
  {
    var buffer := st.buffer + line;
    match st.contentLength
    case None =>
      if StartsWith(buffer, HeaderPrefix) then
        assert buffer[14] == HeaderPrefix[14];
        match ParseInt(Strip(FieldAfterFirst(buffer, ':')))
        case Some(n) => SetLength(n)
        case None => Keep
      else if buffer == "\r\n" || buffer == "\n" then Discard
      else Keep
    case Some(n) =>
      if Strip(buffer) == [] then Discard
      else if Utf8Len(buffer) >= n then Body(PrefixTo(buffer, n))
      else Keep
  }

  /**
   * One turn of `run`'s loop on a line that is not end of input. A body that
   * is not JSON resets the state; one that is not an object raises out of
   * `handle_request` before the reset, so the buffer and length are kept.
   */
  function Next<R>(st: Framer, line: string, parse: string -> Parsed<R>): (r: Fed<R>)
    ensures r.request.Some? ==> r.state == Idle
    ensures r.state.buffer == [] || r.state.buffer == st.buffer + line
  {
    var buffer := st.buffer + line;
    match Scan(st, line)
    case SetLength(n) => Fed(Framer("", Some(n)), None)
    case Discard => Fed(Framer("", st.contentLength), None)
    case Keep => Fed(Framer(buffer, st.contentLength), None)
    case Body(text) =>
      match parse(text)
      case Malformed => Fed(Idle, None)
      case NotAnObject => Fed(Framer(buffer, st.contentLength), None)
      case Request(r) => Fed(Idle, Some(r))
  }

  function OptionSeq<R>(o: Option<R>): seq<R> {
    match o
    case Some(r) => [r]
    case None => []
  }

  /** `run`'s loop over `lines`, none of which is the end of input. */
  function FeedAll<R>(st: Framer, lines: seq<string>, parse: string -> Parsed<R>): (r: Run<R>)
    ensures |r.requests| <= |lines|
  {
    if lines == [] then Run(st, [])
    else
      var before := FeedAll(st, lines[..|lines| - 1], parse);
      var fed := Next(before.state, lines[|lines| - 1], parse);
      Run(fed.state, before.requests + OptionSeq(fed.request))
  }

  /** The lines `readline` returns before the first empty read, which ends the loop. */
  function BeforeEof(lines: seq<string>): (r: seq<string>)
    ensures r <= lines && "" !in r
    ensures |r| < |lines| ==> lines[|r|] == ""
  {
    if lines == [] || lines[0] == "" then [] else [lines[0]] + BeforeEof(lines[1..])
  }

  /** `f"Content-Length: {len(out)}\r\n\r\n{out}"`: the length counts characters. */
  function Frame(out: string): (f: string)
    ensures StartsWith(f, HeaderPrefix) && |out| < |f| && f[|f| - |out|..] == out
  {
    HeaderPrefix + NatToString(|out|) + "\r\n\r\n" + out
  }

  /** `readline` over a stream: each piece runs up to and including a newline, the last one may lack it. */
  function ReadLines(s: string): seq<string>
    decreases |s|
  {
    if s == [] then []
    else if '\n' in s then
      var i := FirstIndex(s, '\n');
      [s[..i + 1]] + ReadLines(s[i + 1..])
    else [s]
  }

  function Concat(lines: seq<string>): string {
    if lines == [] then [] else Concat(lines[..|lines| - 1]) + lines[|lines| - 1]
  }

  /** The header line of a reply to `out`. */
  function HeaderLine(out: string): string {
    HeaderPrefix + NatToString(|out|) + "\r\n"
  }

  /** The lines a reader gets from a framed reply without a newline of its own: header, blank line, body. */
  lemma {:induction false} FrameLines(out: string)
    requires out != [] && '\n' !in out
    ensures ReadLines(Frame(out)) == [HeaderLine(out), "\r\n", out]
  {
    var h := HeaderLine(out);
    var s := Frame(out);
    assert s == h + "\r\n" + out;
    var d := NatToString(|out|);
    assert '\n' !in d by {
      forall k | 0 <= k < |d| ensures d[k] != '\n' { assert IsDigit(d[k]); }
    }
    assert s[..|h|] == h;
    assert h[|h| - 1] == '\n' && s[|h| - 1] == '\n';
    assert '\n' !in h[..|h| - 1];
    FirstIndexAt(s, '\n', |h| - 1);
    var rest := s[|h|..];
    assert rest == "\r\n" + out;
    assert rest[1] == '\n' && rest[..1] == "\r";
    FirstIndexAt(rest, '\n', 1);
    assert rest[..2] == "\r\n";
    assert rest[2..] == out;
    assert ReadLines(out) == [out];
    assert ReadLines(rest) == ["\r\n"] + ReadLines(out);
    assert ReadLines(s) == [h] + ReadLines(rest);
  }

  lemma FirstIndexAt(s: string, c: char, k: nat)
    requires k < |s| && s[k] == c && c !in s[..k]
    ensures FirstIndex(s, c) == k
  {
  }

  /** Parsing the header line the way `run` does gives back `len(out)`. */
  lemma HeaderRoundTrip(out: string)
    ensures Scan(Idle, HeaderLine(out)) == SetLength(|out|)
  {
    var d := NatToString(|out|);
    var buffer := HeaderLine(out);
    assert Idle.buffer + buffer == buffer;
    HeaderField(d);
    HeaderValue(d);
    ParseNatToString(|out|);
    assert ParseInt(Strip(FieldAfterFirst(buffer, ':'))) == Some(|out|);
  }

  /** The text `split(":")[1]` takes from a header line: everything after the colon. */
  lemma HeaderField(d: string)
    requires AllDigits(d)
    ensures var buffer := HeaderPrefix + d + "\r\n";
      StartsWith(buffer, HeaderPrefix) && FieldAfterFirst(buffer, ':') == " " + d + "\r\n"
  {
    var buffer := HeaderPrefix + d + "\r\n";
    assert buffer[..|HeaderPrefix|] == HeaderPrefix;
    assert buffer == "Content-Length" + [':'] + (" " + d + "\r\n");
    assert ':' !in " " + d + "\r\n" by {
      forall k | 0 <= k < |d| ensures d[k] != ':' { assert IsDigit(d[k]); }
    }
    FieldAfterFirstOf("Content-Length", " " + d + "\r\n", ':');
  }

  /** Stripping the field leaves the digits. */
  lemma HeaderValue(d: string)
    requires d != [] && AllDigits(d)
    ensures Strip(" " + d + "\r\n") == d
  {
    assert IsDigit(d[0]) && IsDigit(d[|d| - 1]);
    StripPadded(" ", d, "\r\n", IsSpace);
  }

  lemma FieldAfterFirstOf(a: string, b: string, sep: char)
    requires sep !in a && sep !in b
    ensures FieldAfterFirst(a + [sep] + b, sep) == b
  {
    var s := a + [sep] + b;
    assert s[..|a|] == a;
    FirstIndexAt(s, sep, |a|);
    assert s[|a| + 1..] == b;
  }

  /** Feeding one more line is one more `Next` step. */
  lemma FeedAllSnoc<R>(st: Framer, lines: seq<string>, line: string, parse: string -> Parsed<R>)
    ensures var before := FeedAll(st, lines, parse);
      var fed := Next(before.state, line, parse);
      FeedAll(st, lines + [line], parse) == Run(fed.state, before.requests + OptionSeq(fed.request))
  {
    assert (lines + [line])[..|lines|] == lines;
  }

  /** The header line of a reply takes the machine from idle to expecting `len(out)` characters. */
  lemma NextHeader<R>(out: string, parse: string -> Parsed<R>)
    ensures Next(Idle, HeaderLine(out), parse) == Fed(Framer("", Some(|out|)), None)
  {
    HeaderRoundTrip(out);
  }

  /** After a header the blank separator line is dropped. */
  lemma NextBlank<R>(n: int, parse: string -> Parsed<R>)
    ensures Next(Framer("", Some(n)), "\r\n", parse) == Fed(Framer("", Some(n)), None)
  {
    assert "" + "\r\n" == "\r\n";
    StripEmptyIff("\r\n", IsSpace);
    assert Scan(Framer("", Some(n)), "\r\n") == Discard;
  }

  /** A non-blank ASCII body of the announced length is handed over whole. */
  lemma NextBody<R>(out: string, parse: string -> Parsed<R>)
    requires IsAscii(out) && Strip(out) != []
    ensures parse(out).Request? ==> Next(Framer("", Some(|out|)), out, parse) == Fed(Idle, Some(parse(out).request))
    ensures parse(out).Malformed? ==> Next(Framer("", Some(|out|)), out, parse) == Fed(Idle, None)
  {
    BodyScan(out);
    BodyDispatched(Framer("", Some(|out|)), out, parse);
  }

  /** A non-blank ASCII line read in body state with its own length is cut out whole. */
  lemma BodyScan(out: string)
    requires IsAscii(out) && Strip(out) != []
    ensures Scan(Framer("", Some(|out|)), out) == Body(out)
  {
    AppendEmpty(out);
  }

  /**
   * In body state exactly the buffers that strip to nothing are dropped, and
   * dropping one keeps the announced length.
   */
  lemma BlankDiscarded<R>(st: Framer, line: string, parse: string -> Parsed<R>)
    requires st.contentLength.Some?
    ensures Scan(st, line) == Discard <==> Strip(st.buffer + line) == []
    ensures Strip(st.buffer + line) == [] ==> Next(st, line, parse) == Fed(Framer("", st.contentLength), None)
  {
  }

  /**
   * In header state a buffer starting with `Content-Length: ` sets the length
   * `int()` reads after the first colon and clears the buffer; when `int()`
   * raises, the loop's handler runs before either assignment, so the buffer is kept.
   */
  lemma HeaderSetsLength<R>(st: Framer, line: string, parse: string -> Parsed<R>)
    requires st.contentLength.None? && StartsWith(st.buffer + line, HeaderPrefix) && ':' in st.buffer + line
    ensures var n := ParseInt(Strip(FieldAfterFirst(st.buffer + line, ':')));
      && (n.Some? ==> Next(st, line, parse) == Fed(Framer("", n), None))
      && (n.None? ==> Next(st, line, parse) == Fed(Framer(st.buffer + line, None), None))
  {
  }

  /** In header state exactly a bare line end is dropped, which leaves the machine idle. */
  lemma LineEndDiscarded<R>(st: Framer, line: string, parse: string -> Parsed<R>)
    requires st.contentLength.None?
    ensures Scan(st, line) == Discard <==> st.buffer + line == "\r\n" || st.buffer + line == "\n"
    ensures Scan(st, line) == Discard ==> Next(st, line, parse) == Fed(Idle, None)
  {
  }

  /**
   * In body state a non-blank buffer is cut exactly once its UTF-8 byte count
   * reaches the length, and the body is its first `content_length` characters;
   * until then the buffer is kept.
   */
  lemma BodyTaken(st: Framer, line: string)
    requires st.contentLength.Some? && Strip(st.buffer + line) != []
    ensures Scan(st, line).Body? <==> Utf8Len(st.buffer + line) >= st.contentLength.value
    ensures Scan(st, line).Body? ==> Scan(st, line).text == PrefixTo(st.buffer + line, st.contentLength.value)
    ensures !Scan(st, line).Body? ==> Scan(st, line) == Keep
  {
  }

  /**
   * Whatever body is cut out goes to the parser: a request is handed over and
   * the machine returns to idle; text that is not JSON resets it without a
   * request; JSON that is not an object leaves buffer and length as they were.
   */
  lemma BodyDispatched<R>(st: Framer, line: string, parse: string -> Parsed<R>)
    requires Scan(st, line).Body?
    ensures var text := Scan(st, line).text;
      && (parse(text).Request? ==> Next(st, line, parse) == Fed(Idle, Some(parse(text).request)))
      && (parse(text).Malformed? ==> Next(st, line, parse) == Fed(Idle, None))
      && (parse(text).NotAnObject? ==> Next(st, line, parse) == Fed(Framer(st.buffer + line, st.contentLength), None))
  {
  }

  /**
   * A framed reply read line by line brings the machine from idle back to
   * idle and hands over exactly its body, provided the body is ASCII, has no
   * newline and is not blank: then its UTF-8 size equals the announced
   * character count. A body that is not JSON is dropped the same way.
   */
  lemma FrameRoundTrip<R>(out: string, parse: string -> Parsed<R>)
    requires IsAscii(out) && '\n' !in out && Strip(out) != []
    ensures parse(out).Request? ==> FeedAll(Idle, ReadLines(Frame(out)), parse) == Run(Idle, [parse(out).request])
    ensures parse(out).Malformed? ==> FeedAll(Idle, ReadLines(Frame(out)), parse) == Run(Idle, [])
  {
    FrameLines(out);
    NextHeader(out, parse);
    NextBlank(|out|, parse);
    NextBody(out, parse);
    FeedThree(Idle, HeaderLine(out), "\r\n", out, parse);
  }

  /** Three lines of which the first two hand over nothing: only the third can add a request. */
  lemma FeedThree<R>(st: Framer, a: string, b: string, c: string, parse: string -> Parsed<R>)
    requires Next(st, a, parse).request.None?
    requires Next(Next(st, a, parse).state, b, parse).request.None?
    ensures var last := Next(Next(Next(st, a, parse).state, b, parse).state, c, parse);
      FeedAll(st, [a, b, c], parse) == Run(last.state, OptionSeq(last.request))
  {
    var none: seq<R> := [];
    AppendEmpty(none);
    AppendEmpty([a]);
    FeedAllSnoc(st, [], a, parse);
    SnocTwo(a, b);
    FeedAllSnoc(st, [a], b, parse);
    SnocThree(a, b, c);
    FeedAllSnoc(st, [a, b], c, parse);
    AppendEmpty(OptionSeq(Next(Next(Next(st, a, parse).state, b, parse).state, c, parse).request));
  }

  /**
   * A header-state buffer that no further text can turn into a header line or
   * into a bare line end: it is not a beginning of `"Content-Length: "`, does
   * not start with it, and is not a beginning of `"\r\n"` or `"\n"`.
   */
  predicate Stray(buffer: string) {
    && !(buffer <= HeaderPrefix) && !StartsWith(buffer, HeaderPrefix)
    && !(buffer <= "\r\n") && !(buffer <= "\n")
  }

  /**
   * Two common ways a buffer becomes stray: a complete line that is neither a
   * header nor a bare line end, and text whose first character cannot begin either.
   */
  lemma StrayCases(buffer: string)
    ensures '\n' in buffer && !StartsWith(buffer, HeaderPrefix) && buffer != "\r\n" && buffer != "\n" ==> Stray(buffer)
    ensures buffer != [] && buffer[0] != 'C' && buffer[0] != '\r' && buffer[0] != '\n' ==> Stray(buffer)
  {
    if '\n' in buffer {
      var i :| 0 <= i < |buffer| && buffer[i] == '\n';
      assert i >= |HeaderPrefix| || HeaderPrefix[i] != '\n';
    }
  }

  /** A stray buffer absorbs any line in header state and stays stray. */
  lemma StrayKeeps(buffer: string, line: string)
    requires Stray(buffer)
    ensures Scan(Framer(buffer, None), line) == Keep
    ensures Stray(buffer + line)
  {
    var b := buffer + line;
    PrefixOfLonger(buffer, b, HeaderPrefix);
    PrefixOfLonger(buffer, b, "\r\n");
    PrefixOfLonger(buffer, b, "\n");
  }

  /**
   * When `a` begins `b` and is itself not a beginning of `p`, neither is `b`,
   * and `b` starts with `p` only if `a` does.
   */
  lemma PrefixOfLonger(a: string, b: string, p: string)
    requires a <= b && !(a <= p)
    ensures !(b <= p)
    ensures StartsWith(b, p) ==> StartsWith(a, p)
  {
    assert b[..|a|] == a;
    if |a| <= |p| {
      assert p[..|a|] != a;
      assert |b| <= |p| ==> p[..|b|][..|a|] == p[..|a|];
      assert |p| <= |b| ==> b[..|p|][..|a|] == a;
    } else {
      assert |p| <= |b| ==> b[..|p|] == a[..|p|];
    }
  }

  /**
   * Once the header-state buffer is stray, every later line stays in the
   * buffer: no header is recognised again and no request is ever handled.
   */
  lemma {:induction false} StrayLineWedges<R>(stray: string, lines: seq<string>, parse: string -> Parsed<R>)
    requires Stray(stray)
    ensures FeedAll(Framer(stray, None), lines, parse) == Run(Framer(stray + Concat(lines), None), [])
    ensures Stray(stray + Concat(lines))
  {
    if lines == [] {
      assert stray + Concat(lines) == stray;
    } else {
      var init, last := lines[..|lines| - 1], lines[|lines| - 1];
      assert init + [last] == lines;
      assert stray + Concat(lines) == stray + Concat(init) + last;
      StrayLineWedges(stray, init, parse);
      StrayKeeps(stray + Concat(init), last);
      FeedAllSnoc(Framer(stray, None), init, last, parse);
    }
  }

  /**
   * In body state the body handed over always covers at least the announced
   * number of bytes, and exactly that many characters when the length is in
   * range; for ASCII text bytes and characters agree.
   */
  lemma BodyCoversLength(st: Framer, line: string)
    requires st.contentLength.Some? && 0 <= st.contentLength.value
    requires Scan(st, line).Body?
    ensures var n, body := st.contentLength.value, Scan(st, line).text;
      && n <= Utf8Len(body)
      && (n <= |st.buffer + line| ==> |body| == n)
      && (IsAscii(st.buffer + line) ==> Utf8Len(body) == n)
  {
    var buffer := st.buffer + line;
    var n := st.contentLength.value;
    var body := PrefixTo(buffer, n);
    if n <= |buffer| {
      Utf8LenPrefix(buffer, n);
      assert body == buffer[..n];
    }
    if IsAscii(buffer) {
      assert IsAscii(body) by {
        forall k | 0 <= k < |body| ensures body[k] as int < 0x80 { assert body[k] == buffer[k]; }
      }
    }
  }

  /** A prefix never takes more bytes than the whole, and bytes never fall below characters. */
  lemma {:induction false} Utf8LenPrefix(s: string, k: nat)
    requires k <= |s|
    ensures Utf8Len(s[..k]) <= Utf8Len(s)
    decreases |s|
  {
    if k < |s| {
      var init := s[..|s| - 1];
      Utf8LenPrefix(init, k);
      assert init[..k] == s[..k];
    } else {
      assert s[..k] == s;
    }
  }

  /** `"é"` in quotes is three characters and four UTF-8 bytes. */
  lemma QuotedAcuteBytes()
    ensures Utf8Len("\"é\"") == 4
  {
    var q := "\"é\"";
    assert q[..2] == "\"é" && q[..2][..1] == "\"" && q[..2][..1][..0] == [];
  }

  /** The line below is not blank. */
  lemma FrameTextNotBlank(line: string)
    requires line == "\"é\"Content-Length: 2\r\n"
    ensures Strip(line) != []
  {
    StripEmptyIff(line, IsSpace);
    assert !IsSpace(line[0]);
  }

  /**
   * The byte/character mismatch: a client announces the 4 UTF-8 bytes of the
   * body `"é"` and sends the next frame on the same line; the server slices
   * 4 characters, so the body it parses already holds the next frame's first letter.
   */
  lemma ByteCountCharacterSlice()
    ensures Utf8Len("\"é\"") == 4
    ensures Scan(Framer("", Some(4)), "\"é\"Content-Length: 2\r\n") == Body("\"é\"C")
  {
    QuotedAcuteBytes();
    var line := "\"é\"Content-Length: 2\r\n";
    AppendEmpty(line);
    FrameTextNotBlank(line);
    BodyTaken(Framer("", Some(4)), line);
    assert line[..4] == "\"é\"C";
  }
}
