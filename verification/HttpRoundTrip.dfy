/** The sender's byte stream and the parser of base/httpbase.cc are inverse: chunked
    coding (section 3.6.1 of RFC 2616), header lines, and whole messages. */
module HttpRoundTrip {
  import opened Wrappers
  import opened Streams
  import opened HttpText
  import opened HttpWire
  import opened HttpParser
  import S = HttpSender
  import R = HttpReceiver
  import G = HttpGrammar

  // ---------------------------------------------------------------------------
  // Lines
  // ---------------------------------------------------------------------------

  predicate Trimmed(s: string) { s == "" || !IsSpace(s[|s| - 1]) }

  lemma {:induction false} TrimBlanks(text: string, blanks: string)
    requires Trimmed(text) && forall i :: 0 <= i < |blanks| ==> IsSpace(blanks[i])
    ensures TrimRight(text + blanks) == text
  {
    if blanks == "" {
      assert text + blanks == text;
    } else {
      assert (text + blanks)[..|text + blanks| - 1] == text + blanks[..|blanks| - 1];
      TrimBlanks(text, blanks[..|blanks| - 1]);
    }
  }

  /** A line as the sender ends it has the effect of its text. */
  lemma FeedPaddedLine(cb: Callbacks, p: Parser, text: string, pad: string, tail: string)
    requires p.done.None? && InLine(p) && Lacks(text, '\n') && Trimmed(text)
    requires pad == "" || pad == " "
    requires !Dangling(p, text)
    ensures FeedAll(cb, At(p, ""), text + pad + CRLF + tail)
            == FeedAll(cb, Start(LineStep(cb, p, text, "\n")), tail)
  {
    hide FeedAll, LineStep, TrimRight, Dangling;
    var buf := text + pad + CRLF + tail;
    var k := |text| + |pad| + 1;
    assert buf[..k] == text + (pad + "\r") && buf[k + 1..] == tail;
    FirstLine(cb, p, buf, k);
    TrimBlanks(text, pad + "\r");
  }

  lemma FeedLine(cb: Callbacks, p: Parser, text: string, tail: string)
    requires p.done.None? && InLine(p) && Lacks(text, '\n') && Trimmed(text)
    requires !Dangling(p, text)
    ensures FeedAll(cb, At(p, ""), text + CRLF + tail) == FeedAll(cb, Start(LineStep(cb, p, text, "\n")), tail)
  {
    hide FeedAll, LineStep, Dangling;
    FeedPaddedLine(cb, p, text, "", tail);
    assert text + "" + CRLF + tail == text + CRLF + tail;
  }

  // ---------------------------------------------------------------------------
  // Chunk sizes
  // ---------------------------------------------------------------------------

  ghost function Pow16(d: nat): nat { if d == 0 then 1 else 16 * Pow16(d - 1) }

  lemma {:induction false} HexDigits(n: nat, d: nat)
    ensures forall c :: c in Hex(n, d) ==> IsDigit(c, 16) && c != 'x' && c != 'X'
    ensures forall i :: 0 <= i < d ==> IsDigit(Hex(n, d)[i], 16) && Hex(n, d)[i] != 'x' && Hex(n, d)[i] != 'X'
  {
    if d > 0 { HexDigits(n / 16, d - 1); }
  }

  lemma {:induction false} HexValue(n: nat, d: nat)
    requires n < Pow16(d)
    ensures forall c :: c in Hex(n, d) ==> IsDigit(c, 16)
    ensures DigitsValue(Hex(n, d), 16) == n
  {
    HexDigits(n, d);
    if d > 0 {
      HexValue(n / 16, d - 1);
      assert Hex(n, d)[..d - 1] == Hex(n / 16, d - 1);
    }
  }

  lemma {:induction false} AllDigitsEnd(s: string, i: nat, base: nat)
    requires i <= |s| && forall j :: i <= j < |s| ==> IsDigit(s[j], base)
    ensures DigitEnd(s, i, base) == |s|
    decreases |s| - i
  {
    if i < |s| { AllDigitsEnd(s, i + 1, base); }
  }

  lemma HexScans(n: nat)
    requires n <= 0xFFFF_FFFF
    ensures StrToUl(Hex(n, CHUNK_DIGITS), 16) == Number(n, CHUNK_DIGITS)
  {
    hide Hex, DigitsValue, DigitEnd, SkipSpace;
    var s := Hex(n, CHUNK_DIGITS);
    HexDigits(n, CHUNK_DIGITS);
    assert Pow16(8) == 0x1_0000_0000 by {
      assert Pow16(4) == 65536;
    }
    HexValue(n, CHUNK_DIGITS);
    assert IsDigit(s[0], 16) && IsDigit(s[1], 16) && s[1] != 'x' && s[1] != 'X';
    assert SkipSpace(s, 0) == 0;
    AllDigitsEnd(s, 0, 16);
    assert s[0..8] == s;
  }

  lemma HexLine(n: nat)
    ensures Lacks(Hex(n, CHUNK_DIGITS), '\n') && Trimmed(Hex(n, CHUNK_DIGITS))
  {
    hide Hex;
    HexDigits(n, CHUNK_DIGITS);
    var s := Hex(n, CHUNK_DIGITS);
    assert IsDigit(s[7], 16);
  }

  // ---------------------------------------------------------------------------
  // Chunked bodies
  // ---------------------------------------------------------------------------

  predicate AtChunk(p: Parser) { p.done.None? && p.phase == ChunkSize && p.chunked }

  function AfterChunks(p: Parser, data: string): Parser { p.(body := p.body + data, size := 0) }

  function Finished(p: Parser): Parser { Finish(p.(phase := Trailers, size := 0), HE_NONE) }

  lemma SizeLine(cb: Callbacks, p: Parser, n: nat, tail: string)
    requires AtChunk(p) && n < 0xFFFF_FFFF
    ensures FeedAll(cb, At(p, ""), Hex(n, CHUNK_DIGITS) + CRLF + tail)
            == FeedAll(cb, At(p.(size := n, phase := if n == 0 then Trailers else Data), ""), tail)
  {
    hide Hex, FeedAll, StrToUl, Feed;
    var s := Hex(n, CHUNK_DIGITS);
    HexLine(n);
    HexScans(n);
    FeedLine(cb, p, s, tail);
    NumberStaysInLine(s, "\n", 16);
  }

  /** One non-empty frame is taken in whole and leaves the parser at the next size. */
  lemma FeedFrame(cb: Callbacks, p: Parser, data: string, tail: string)
    requires AtChunk(p) && 0 < |data| < 0xFFFF_FFFF
    ensures FeedAll(cb, At(p, ""), Frame(data) + tail) == FeedAll(cb, At(AfterChunks(p, data), ""), tail)
  {
    hide Hex, FeedAll, Feed;
    var size := Hex(|data|, CHUNK_DIGITS);
    assert Frame(data) + tail == size + CRLF + (data + (CRLF + tail));
    SizeLine(cb, p, |data|, data + (CRLF + tail));
    var q := p.(size := |data|, phase := Data);
    FeedAllAppend(cb, At(q, ""), data, CRLF + tail);
    FeedBlock(cb, q, data);
    var t := q.(body := p.body + data, size := 0, phase := ChunkTerm);
    assert Settle(Deliver(q, data)) == t;
    FeedLine(cb, t, "", tail);
    assert "" + CRLF + tail == CRLF + tail;
  }

  lemma FrontAndLast(chunks: seq<string>)
    requires chunks != [] && NonEmpty(chunks) && Small(chunks)
    ensures NonEmpty(chunks[..|chunks| - 1]) && Small(chunks[..|chunks| - 1])
    ensures 0 < |chunks[|chunks| - 1]| <= BUFFER_SIZE
  {
    assert chunks[|chunks| - 1] != "";
  }

  lemma {:induction false} FeedFrames(cb: Callbacks, p: Parser, chunks: seq<string>, tail: string)
    requires AtChunk(p) && NonEmpty(chunks) && Small(chunks)
    ensures FeedAll(cb, At(p, ""), Frames(chunks) + tail)
            == if chunks == [] then FeedAll(cb, At(p, ""), tail)
               else FeedAll(cb, At(AfterChunks(p, Concat(chunks)), ""), tail)
  {
    hide FeedAll, Frame, NonEmpty, Small;
    if chunks == [] {
      assert Frames(chunks) + tail == tail;
    } else {
      var front, last := chunks[..|chunks| - 1], chunks[|chunks| - 1];
      FrontAndLast(chunks);
      assert Frames(chunks) + tail == Frames(front) + (Frame(last) + tail);
      FeedFrames(cb, p, front, Frame(last) + tail);
      var q := if front == [] then p else AfterChunks(p, Concat(front));
      FeedFrame(cb, q, last, tail);
      assert q.body + last == p.body + Concat(chunks);
    }
  }

  /** An empty frame is a last chunk: whatever follows is left over. */
  lemma FeedEmptyFrame(cb: Callbacks, p: Parser, tail: string)
    requires AtChunk(p)
    ensures FeedAll(cb, At(p, ""), Frame("") + tail) == At(Finished(p), tail)
  {
    hide Hex, FeedAll, Feed;
    assert Frame("") + tail == Hex(0, CHUNK_DIGITS) + CRLF + (CRLF + tail);
    SizeLine(cb, p, 0, CRLF + tail);
    EndTrailers(cb, p.(size := 0, phase := Trailers), tail);
  }

  lemma EndTrailers(cb: Callbacks, p: Parser, tail: string)
    requires p.done.None? && p.phase == Trailers
    ensures FeedAll(cb, At(p, ""), CRLF + tail) == At(Finish(p, HE_NONE), tail)
  {
    hide FeedAll, Feed;
    FeedLine(cb, p, "", tail);
    assert "" + CRLF + tail == CRLF + tail;
    FeedHeld(cb, Finish(p, HE_NONE), "", tail);
    assert "" + tail == tail;
  }

  lemma FeedLastChunk(cb: Callbacks, p: Parser)
    requires AtChunk(p)
    ensures FeedAll(cb, At(p, ""), LAST_CHUNK) == At(Finished(p), "")
  {
    hide FeedAll, Feed, StrToUl;
    assert LAST_CHUNK == "0" + CRLF + (CRLF + "");
    ZeroScans("0");
    FeedLine(cb, p, "0", CRLF + "");
    NumberStaysInLine("0", "\n", 16);
    EndTrailers(cb, p.(size := 0, phase := Trailers), "");
  }

  lemma ZeroScans(s: string)
    requires s == "0"
    ensures StrToUl(s, 16) == Number(0, 1)
  {
    assert SkipSpace(s, 0) == 0;
    assert DigitEnd(s, 0, 16) == 1;
    assert s[0..1] == s && DigitsValue(s, 16) == 0;
  }

  lemma {:induction false} FramesSplit(a: seq<string>, b: seq<string>)
    ensures Frames(a + b) == Frames(a) + Frames(b)
  {
    hide Frame;
    if b == [] {
      assert a + b == a;
    } else {
      assert (a + b)[..|a + b| - 1] == a + b[..|b| - 1];
      FramesSplit(a, b[..|b| - 1]);
    }
  }

  lemma FirstEmpty(chunks: seq<string>) returns (i: nat)
    requires !NonEmpty(chunks)
    ensures i < |chunks| && chunks[i] == "" && NonEmpty(chunks[..i])
  {
    i := 0;
    while chunks[i] != ""
      invariant i < |chunks| && NonEmpty(chunks[..i]) && !NonEmpty(chunks[i..])
      decreases |chunks| - i
    {
      assert chunks[i..] == [chunks[i]] + chunks[i + 1..];
      assert chunks[..i + 1] == chunks[..i] + [chunks[i]];
      i := i + 1;
    }
  }

  /** Chunked round trip, exactly: a framed body parses back to the document, without
      error and without a byte left over, if and only if no document read was empty
      (an empty read is framed as the last chunk). */
  lemma ChunkedRoundTripIff(cb: Callbacks, p: Parser, chunks: seq<string>)
    requires AtChunk(p) && Small(chunks)
    ensures FeedAll(cb, At(p, ""), Frames(chunks) + LAST_CHUNK)
              == At(Finished(AfterChunks(p, Concat(chunks))), "")
            <==> NonEmpty(chunks)
  {
    hide FeedAll, Frame;
    if NonEmpty(chunks) {
      FeedFrames(cb, p, chunks, LAST_CHUNK);
      assert p.body + "" == p.body;
      FeedLastChunk(cb, if chunks == [] then p else AfterChunks(p, Concat(chunks)));
    } else {
      var i := FirstEmpty(chunks);
      var a, b := chunks[..i], chunks[i + 1..];
      assert chunks == a + ([""] + b);
      FramesSplit(a, [""] + b);
      FramesSplit([""], b);
      assert [""][..0] == [] && Frames([""]) == "" + Frame("") == Frame("");
      var tail := Frames(b) + LAST_CHUNK;
      assert Frames(chunks) + LAST_CHUNK == Frames(a) + (Frame("") + tail);
      FeedFrames(cb, p, a, Frame("") + tail);
      FeedEmptyFrame(cb, if a == [] then p else AfterChunks(p, Concat(a)), tail);
    }
  }

  // ---------------------------------------------------------------------------
  // Headers
  // ---------------------------------------------------------------------------

  /** Headers that survive: no separator or line end where it would split or cut the
      line, and no white space at the rim of the value. */
  predicate Clean(h: Header)
  {
    && Lacks(h.0, ':') && Lacks(h.0, '\n') && Lacks(h.0, '\0')
    && Lacks(h.1, '\n') && Lacks(h.1, '\0')
    && (h.1 != "" ==> !IsSpace(h.1[0]) && !IsSpace(h.1[|h.1| - 1]))
  }

  /** The trimmed line of a clean header: the blank after the colon goes with the
      value if that is empty. */
  function LineText(h: Header): string { h.0 + ":" + if h.1 == "" then "" else " " + h.1 }

  lemma PrintedClean(s: string)
    requires Lacks(s, '\0')
    ensures Printed(s) == s
  {
    IndexOfIs(s, '\0', |s|);
  }

  lemma HeaderLineText(h: Header)
    requires Clean(h)
    ensures HeaderLine(h) == LineText(h) + (if h.1 == "" then " " else "") + CRLF
    ensures Lacks(LineText(h), '\n') && Trimmed(LineText(h)) && LineText(h) != ""
  {
    hide Printed;
    PrintedClean(h.0);
    PrintedClean(h.1);
  }

  lemma SplitLineText(h: Header)
    requires Clean(h)
    ensures SplitHeader(LineText(h)) == Some(h)
  {
    var line := LineText(h);
    var n := |h.0|;
    IndexOfIs(line, ':', n);
    assert LacksBefore(line, n, '\0');
    assert IndexOf(line, '\0') >= n;
    assert line[..n] == h.0;
    if h.1 == "" {
      assert line[SkipSpace(line, n + 1)..] == "";
    } else {
      assert line[n + 1] == ' ' && line[n + 2] == h.1[0];
      assert SkipSpace(line, n + 1) == SkipSpace(line, n + 2) == n + 2;
      assert line[n + 2..] == h.1;
    }
  }

  /** Exactly the clean headers come back, among those without line ends and NULs. */
  lemma HeaderSplitIff(h: Header)
    requires Lacks(h.0, '\n') && Lacks(h.0, '\0') && Lacks(h.1, '\n') && Lacks(h.1, '\0')
    ensures SplitHeader(TrimRight(h.0 + ": " + h.1)) == Some(h) <==> Clean(h)
  {
    var text := h.0 + ": " + h.1;
    if Clean(h) {
      SplitLineText(h);
      HeaderLineText(h);
      var pad := if h.1 == "" then " " else "";
      assert text == LineText(h) + pad;
      TrimBlanks(LineText(h), pad);
    } else if SplitHeader(TrimRight(text)) == Some(h) {
      var line := TrimRight(text);
      assert LacksBefore(line, |h.0|, ':') && line[..|h.0|] == h.0;
      assert forall i :: 0 <= i < |h.0| ==> h.0[i] == line[i];
    }
  }

  predicate Acceptable(h: Header)
  {
    && Clean(h) && Fits(h)
    && (IsContentLength(h.0) ==> h.1 != "" && StrToUl(h.1, 10).Number?)
    && (IsTransferEncoding(h.0) && !IsContentLength(h.0) ==> SetEncoding(Initial, h.1).Some?)
  }

  /** The parser after one more header. */
  function Absorb(p: Parser, h: Header): Parser
    requires Acceptable(h)
  {
    var q := if IsContentLength(h.0) then p.(size := StrToUl(h.1, 10).value)
             else if IsTransferEncoding(h.0) then p.(chunked := EqualIgnoringCase(h.1, "chunked"))
             else p;
    q.(headers := p.headers + [h])
  }

  predicate AllAcceptable(hs: seq<Header>) { forall i :: 0 <= i < |hs| ==> Acceptable(hs[i]) }

  function AbsorbAll(p: Parser, hs: seq<Header>): (q: Parser)
    requires AllAcceptable(hs)
    ensures q.headers == p.headers + hs
    ensures q.phase == p.phase && q.done == p.done && q.leader == p.leader && q.body == p.body
  {
    if hs == [] then p
    else
      assert hs == hs[..|hs| - 1] + [hs[|hs| - 1]];
      Absorb(AbsorbAll(p, hs[..|hs| - 1]), hs[|hs| - 1])
  }

  lemma HeaderStepAbsorbs(p: Parser, h: Header)
    requires p.phase == Headers && Acceptable(h)
    ensures HeaderStep(p, LineText(h), "\n") == Absorb(p, h)
    ensures !Dangling(p, LineText(h))
  {
    hide StrToUl, SplitHeader, LineText, Fits;
    SplitLineText(h);
    if IsContentLength(h.0) {
      NumberStaysInLine(h.1, "\n", 10);
    }
  }

  lemma FeedHeader(cb: Callbacks, p: Parser, h: Header, tail: string)
    requires p.done.None? && p.phase == Headers && Acceptable(h)
    ensures FeedAll(cb, At(p, ""), HeaderLine(h) + tail) == FeedAll(cb, At(Absorb(p, h), ""), tail)
  {
    hide FeedAll, StrToUl, SplitHeader, LineText, Fits, HeaderLine, HeaderStep;
    HeaderStepAbsorbs(p, h);
    HeaderLineText(h);
    FeedPaddedLine(cb, p, LineText(h), if h.1 == "" then " " else "", tail);
  }

  lemma {:induction false} FeedHeaders(cb: Callbacks, p: Parser, hs: seq<Header>, tail: string)
    requires p.done.None? && p.phase == Headers && AllAcceptable(hs)
    ensures FeedAll(cb, At(p, ""), HeaderLines(hs) + tail) == FeedAll(cb, At(AbsorbAll(p, hs), ""), tail)
  {
    hide FeedAll, HeaderLine, Fits, Absorb;
    if hs == [] {
      assert HeaderLines(hs) + tail == tail;
    } else {
      var front, last := hs[..|hs| - 1], hs[|hs| - 1];
      assert Acceptable(last);
      assert HeaderLines(hs) + tail == HeaderLines(front) + (HeaderLine(last) + tail);
      FeedHeaders(cb, p, front, HeaderLine(last) + tail);
      FeedHeader(cb, AbsorbAll(p, front), last, tail);
    }
  }

  // ---------------------------------------------------------------------------
  // Whole messages
  // ---------------------------------------------------------------------------

  predicate GoodHead(leader: string, headers: seq<Header>)
  {
    |leader| + 4 < BUFFER_SIZE && Lacks(leader, '\n') && Trimmed(leader) && AllAcceptable(headers)
  }

  function AfterHead(leader: string, headers: seq<Header>): Parser
    requires GoodHead(leader, headers)
  {
    AbsorbAll(Initial.(phase := Headers, leader := leader), headers)
  }

  /** The owner lets the message through as it is announced. */
  ghost predicate Accepts(cb: Callbacks, leader: string, headers: seq<Header>)
    requires GoodHead(leader, headers)
  {
    var p := AfterHead(leader, headers);
    cb.leader(leader) == HE_NONE && cb.headersDone(leader, headers, p.chunked, p.size) == (p.size, HE_NONE)
  }

  lemma FeedHead(cb: Callbacks, leader: string, headers: seq<Header>, tail: string)
    requires GoodHead(leader, headers) && Accepts(cb, leader, headers)
    ensures var p := AfterHead(leader, headers);
            FeedAll(cb, Start(Initial), Head(leader, headers, |headers|) + tail)
            == FeedAll(cb, Start(p.(phase := if p.chunked then ChunkSize else Data)), tail)
  {
    hide FeedAll, HeaderLines, AbsorbAll, Fits, HeaderStep;
    var p0 := Initial.(phase := Headers, leader := leader);
    var lines := HeaderLines(headers);
    assert [] + headers == headers;
    HeadLayout(leader, headers, tail);
    FeedLine(cb, Initial, leader, lines + (CRLF + tail));
    FeedHeaders(cb, p0, headers, CRLF + tail);
    FeedLine(cb, AbsorbAll(p0, headers), "", tail);
    assert "" + CRLF + tail == CRLF + tail;
  }

  lemma Regroup(a: string, b: string, c: string, d: string)
    ensures a + b + c + d == a + (b + (c + d))
  {
  }

  lemma NoHeaderLines()
    ensures HeaderLines([]) == ""
  {
  }

  lemma HeadLayout(leader: string, headers: seq<Header>, tail: string)
    requires |leader| + 4 < BUFFER_SIZE
    ensures Head(leader, headers, |headers|) + tail == leader + CRLF + (HeaderLines(headers) + (CRLF + tail))
  {
    hide HeaderLines;
    NoHeaderLines();
    assert headers[..|headers|] == headers;
    var first, lines := leader + CRLF, HeaderLines(headers);
    Regroup(first, lines, CRLF, tail);
    if headers == [] {
      assert first + "" == first;
    }
  }

  function AllLines(hs: seq<Header>): string
  {
    if hs == [] then "" else AllLines(hs[..|hs| - 1]) + HeaderLine(hs[|hs| - 1])
  }

  predicate AllFit(hs: seq<Header>) { forall i :: 0 <= i < |hs| ==> Fits(hs[i]) }

  lemma {:induction false} LinesKept(hs: seq<Header>)
    ensures |HeaderLines(hs)| <= |AllLines(hs)|
    ensures AllFit(hs) ==> HeaderLines(hs) == AllLines(hs)
    ensures !AllFit(hs) ==> |HeaderLines(hs)| < |AllLines(hs)|
  {
    hide Fits, Printed;
    if hs != [] {
      var front, last := hs[..|hs| - 1], hs[|hs| - 1];
      LinesKept(front);
      assert |HeaderLine(last)| > 0;
      if AllFit(front) && Fits(last) {
        assert forall i :: 0 <= i < |hs| ==> hs[i] == if i < |front| then front[i] else last;
      }
      if !AllFit(front) {
        var i :| 0 <= i < |front| && !Fits(front[i]);
        assert !Fits(hs[i]);
      }
    }
  }

  /** The head goes out complete (leader, every header in order, one blank line) if and
      only if the leader leaves room for its line ends and each line for the NUL and
      the blank line; otherwise it is cut, or the over-long headers are missing. */
  lemma HeadCompleteIff(leader: string, headers: seq<Header>)
    ensures Head(leader, headers, |headers|) == leader + CRLF + AllLines(headers) + CRLF
            <==> AllFit(headers) && |leader| + (if headers == [] then 4 else 2) < BUFFER_SIZE
  {
    hide AllLines, HeaderLines;
    LinesKept(headers);
    assert headers[..|headers|] == headers;
    if headers == [] {
      NoHeaderLines();
      assert leader + CRLF + "" == leader + CRLF;
      assert AllFit(headers) && AllLines(headers) == "";
    }
  }

  /** What the parser holds at the end of a message it took in whole. */
  predicate Delivered(m: Machine, leader: string, headers: seq<Header>, document: string)
  {
    && m.At? && m.pending == ""
    && m.p.done == Some(HE_NONE)
    && m.p.leader == leader && m.p.headers == headers && m.p.body == document
  }

  /** A chunked message comes back whole: leader, headers in order, document. */
  lemma ChunkedMessageRoundTrip(cb: Callbacks, leader: string, headers: seq<Header>, chunks: seq<string>)
    requires GoodHead(leader, headers) && Accepts(cb, leader, headers)
    requires AfterHead(leader, headers).chunked
    requires NonEmpty(chunks) && Small(chunks)
    ensures Delivered(Reference(cb, Head(leader, headers, |headers|) + Body(true, chunks, true)),
                      leader, headers, Concat(chunks))
  {
    hide FeedAll, AbsorbAll, Frames, HeaderLines, Fits;
    var p := AfterHead(leader, headers).(phase := ChunkSize);
    FeedHead(cb, leader, headers, Frames(chunks) + LAST_CHUNK);
    ChunkedRoundTripIff(cb, p, chunks);
    assert [] + headers == headers && "" + Concat(chunks) == Concat(chunks);
  }

  /** So does a message with an announced length, however its document was read. */
  lemma SizedMessageRoundTrip(cb: Callbacks, leader: string, headers: seq<Header>, chunks: seq<string>)
    requires GoodHead(leader, headers) && Accepts(cb, leader, headers)
    requires var p := AfterHead(leader, headers);
             !p.chunked && p.size == |Concat(chunks)| < SIZE_UNKNOWN
    ensures Delivered(Reference(cb, Head(leader, headers, |headers|) + Body(false, chunks, false)),
                      leader, headers, Concat(chunks))
  {
    hide FeedAll, AbsorbAll, Concat, HeaderLines, Fits, Feed;
    var p := AfterHead(leader, headers).(phase := Data);
    var data := Concat(chunks);
    FeedHead(cb, leader, headers, data);
    assert [] + headers == headers && "" + data == data;
    if p.size == 0 {
      FeedHeld(cb, Finish(p, HE_NONE), "", data);
    } else {
      FeedBlock(cb, p, data);
    }
  }

  // ---------------------------------------------------------------------------
  // Which coding
  // ---------------------------------------------------------------------------

  function LastCoding(hs: seq<Header>): string
  {
    if hs == [] then ""
    else if IsTransferEncoding(hs[|hs| - 1].0) then hs[|hs| - 1].1
    else LastCoding(hs[..|hs| - 1])
  }

  /** The parser goes by the last Transfer-Encoding header and ignores case. */
  lemma {:induction false} ParsedCoding(p: Parser, hs: seq<Header>)
    requires AllAcceptable(hs) && !p.chunked
    ensures AbsorbAll(p, hs).chunked == EqualIgnoringCase(LastCoding(hs), "chunked")
  {
    hide StrToUl, Clean, Fits;
    if hs != [] {
      ParsedCoding(p, hs[..|hs| - 1]);
      assert Acceptable(hs[|hs| - 1]);
    }
  }

  /** Sender and parser take the body the same way if and only if the first and the last
      Transfer-Encoding header agree on it, one to the letter, the other ignoring case;
      with one coding only, if and only if that is not a different spelling of "chunked". */
  lemma CodingAgreesIff(leader: string, headers: seq<Header>)
    requires GoodHead(leader, headers)
    ensures var parsed := AfterHead(leader, headers).chunked;
      && (SendsChunked(headers) == parsed
          <==> (FirstCoding(headers) == "chunked") == EqualIgnoringCase(LastCoding(headers), "chunked"))
      && (FirstCoding(headers) == LastCoding(headers) ==>
          (SendsChunked(headers) == parsed
           <==> (EqualIgnoringCase(FirstCoding(headers), "chunked") ==> FirstCoding(headers) == "chunked")))
  {
    ParsedCoding(Initial.(phase := Headers, leader := leader), headers);
    hide AbsorbAll, LastCoding, FirstCoding, AllAcceptable;
  }

  /** "Chunked" is such a spelling: announced as chunked, sent as it is. */
  lemma CodingSplit(h: Header)
    requires h == ("Transfer-Encoding", "Chunked")
    ensures !SendsChunked([h]) && EqualIgnoringCase(LastCoding([h]), "chunked")
  {
    assert IsTransferEncoding(h.0);
    assert h.1[0] == 'C';
  }

  // ---------------------------------------------------------------------------
  // End to end
  // ---------------------------------------------------------------------------

  /** The headers announce the document as the sender sends it. */
  predicate Announced(leader: string, headers: seq<Header>, document: string)
    requires GoodHead(leader, headers)
  {
    var p := AfterHead(leader, headers);
    p.chunked == SendsChunked(headers) && (!p.chunked ==> p.size == |document| < SIZE_UNKNOWN)
  }

  /** Once the sender has completed, every receiver that gets the bytes on the wire, in
      whatever pieces and with whatever stale memory, has parsed exactly the message, with
      nothing left over: chunked or with an announced length. */
  lemma EndToEnd(cb: Callbacks, s: S.HttpSender, net: Sink, doc: Source, arrivals: seq<Read>)
    requires s.Valid(net, doc) && s.len == 0 && s.header == |s.headers| && doc.remaining == ""
    requires s.chunkedMessage == s.ended == SendsChunked(s.headers) && (s.ended ==> NonEmpty(s.chunks))
    requires GoodHead(s.leader, s.headers) && Accepts(cb, s.leader, s.headers)
    requires Announced(s.leader, s.headers, s.document)
    requires Received(arrivals) == net.wire
    ensures var (p, rest) := Session(cb, arrivals);
            Delivered(At(p, rest), s.leader, s.headers, s.document)
  {
    hide FeedAll, AbsorbAll, Frames, HeaderLines, Fits, Head, Concat, SendsChunked;
    assert net.wire == net.wire + s.Mem()[..0] == s.Emitted();
    assert s.document == Concat(s.chunks) + "" == Concat(s.chunks);
    if s.ended {
      ChunkedMessageRoundTrip(cb, s.leader, s.headers, s.chunks);
    } else {
      SizedMessageRoundTrip(cb, s.leader, s.headers, s.chunks);
    }
    SessionIsReference(cb, arrivals);
  }

  /** The third kind of message announces neither length nor chunks and ends with the
      connection: every receiver has exactly the message, waits for more of it, and takes an
      orderly close for its end. */
  lemma EndToEndClosed(cb: Callbacks, s: S.HttpSender, net: Sink, doc: Source, arrivals: seq<Read>)
    requires s.Valid(net, doc) && s.len == 0 && s.header == |s.headers| && doc.remaining == ""
    requires !s.chunkedMessage && !s.ended
    requires GoodHead(s.leader, s.headers) && Accepts(cb, s.leader, s.headers)
    requires var p := AfterHead(s.leader, s.headers); !p.chunked && p.size == SIZE_UNKNOWN
    requires Received(arrivals) == net.wire
    ensures var (p, rest) := Session(cb, arrivals);
      && p.leader == s.leader && p.headers == s.headers && p.body == s.document
      && p.done == None && rest == "" && R.CloseError(p, 0) == HE_NONE
  {
    hide FeedAll, AbsorbAll, Frames, HeaderLines, Fits, Head, Concat, Session, Received, Feed;
    var document := s.document;
    assert net.wire == net.wire + s.Mem()[..0] == s.Emitted();
    assert document == Concat(s.chunks) + "" == Concat(s.chunks);
    var p := AfterHead(s.leader, s.headers).(phase := Data);
    FeedHead(cb, s.leader, s.headers, document);
    FeedBlock(cb, p, document);
    assert [] + s.headers == s.headers && "" + document == document;
    SessionIsReference(cb, arrivals);
  }

  /** A chunk size of eight f's is taken for an unknown size: cut off anywhere behind it,
      without a last chunk, the message counts as complete. */
  lemma HugeChunkCloses(cb: Callbacks, h: G.Head, size: string, data: string, arrivals: seq<Read>)
    requires G.ChunkedHead(cb, h) && size == "ffffffff"
    requires Received(arrivals) == G.HeadText(h) + (size + G.NL + data)
    ensures var (p, rest) := Session(cb, arrivals); p.done == None && R.CloseError(p, 0) == HE_NONE
  {
    hide Session, Received, G.HeadText, G.Coding, G.Length, G.HeadersOf;
    HugeSize(size);
    hide G.SizeOf;
    var t := G.InChunk(h, [], size, data);
    assert G.ChunksText([]) + (size + G.NL + data) == size + G.NL + data;
    G.SessionMeans(cb, t, arrivals);
  }

  lemma HugeSize(size: string)
    requires size == "ffffffff"
    ensures Lacks(size, '\n') && G.SizeOf(size) == Some(SIZE_UNKNOWN)
  {
    HexScans(0xFFFF_FFFF);
    EightDigits(size);
    hide StrToUl, Hex;
    assert TrimRight(size) == size;
  }

  lemma EightDigits(size: string)
    requires size == "ffffffff"
    ensures Hex(0xFFFF_FFFF, 8) == size
  {
    assert Hex(0xF, 1) == "f" by { assert Hex(0, 0) == ""; }
    assert Hex(0xFF, 2) == "ff";
    assert Hex(0xFFF, 3) == "fff";
    assert Hex(0xFFFF, 4) == "ffff";
    assert Hex(0xF_FFFF, 5) == "fffff";
    assert Hex(0xFF_FFFF, 6) == "ffffff";
    assert Hex(0xFFF_FFFF, 7) == "fffffff";
  }

  /** And it does complete: a connection that accepts often enough and a document that
      delivers bring the message across, whatever the pieces on either side. */
  method Exchange(cb: Callbacks, leader: string, headers: seq<Header>, net: Sink, doc: Source)
    requires doc.ends && net.wire == "" && S.Ready(doc.script, doc.remaining) && Willing(net.script)
    requires BUFFER_SIZE + S.LinesLeft(headers, 0) + 14 * |doc.remaining| + 7 < |net.script|
    requires GoodHead(leader, headers) && Accepts(cb, leader, headers) && Announced(leader, headers, doc.remaining)
    modifies net, doc
    ensures forall arrivals :: Received(arrivals) == net.wire ==>
      var (p, rest) := Session(cb, arrivals); Delivered(At(p, rest), leader, headers, old(doc.remaining))
  {
    hide Accepts, GoodHead, AfterHead, Announced, Delivered, Session, Received, Progresses, Willing;
    hide S.Ready, S.LinesLeft, Concat, SendsChunked, Head;
    ghost var document := doc.remaining;
    S.ReadyProgresses(doc.script, doc.remaining);
    var s := new S.HttpSender(leader, headers, true, document);
    assert Concat(s.chunks) + document == document by { NothingRead(document); }
    assert net.wire + s.Mem()[..s.len] == s.Mem()[..s.len];
    var outcome := s.FlushData(net, doc);
    forall arrivals | Received(arrivals) == net.wire
      ensures var (p, rest) := Session(cb, arrivals); Delivered(At(p, rest), leader, headers, document)
    {
      EndToEnd(cb, s, net, doc, arrivals);
    }
  }

  lemma NothingRead(document: string)
    ensures Concat([]) + document == document
  {
  }

  /** A header line beyond the limit is not sent. */
  lemma LongHeaderLost(leader: string, value: string)
    requires value == seq(BUFFER_SIZE, _ => 'a')
    ensures Head(leader, [("A", value)], 1) != leader + CRLF + AllLines([("A", value)]) + CRLF
  {
    var hs := [("A", value)];
    IndexOfIs(value, '\0', |value|);
    assert !Fits(hs[0]);
    HeadCompleteIff(leader, hs);
  }
}
