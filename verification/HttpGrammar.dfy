/** What a stream of bytes is as an HTTP message, told without the parser: a grammar of
    lines, headers and chunks with the state each text stands for. The parser of
    base/httpbase.cc is in that state exactly on those texts. */
module HttpGrammar {
  import opened Wrappers
  import opened HttpText
  import opened HttpParser

  const NL: string := "\n"

  // ---------------------------------------------------------------------------
  // Texts
  // ---------------------------------------------------------------------------

  /** A head as it arrives: raw lines, without their line feeds. */
  datatype Head = Head(lead: string, raws: seq<string>, blank: string)

  /** A chunk: the line with its size, its data, and the empty line behind. */
  datatype Chunk = Chunk(size: string, data: string, end: string)

  /** Where a text stops: within the leader, the headers, a body; at the end of a message
      with surplus bytes; within a chunk's size line, data or end; within the trailers. */
  datatype Text =
    | InLeader(part: string)
    | InHeaders(lead: string, raws: seq<string>, part: string)
    | InBody(head: Head, data: string)
    | Whole(head: Head, data: string, surplus: string)
    | InSize(head: Head, chunks: seq<Chunk>, part: string)
    | InChunk(head: Head, chunks: seq<Chunk>, size: string, data: string)
    | InEnd(head: Head, chunks: seq<Chunk>, size: string, data: string, part: string)
    | InTrailers(head: Head, chunks: seq<Chunk>, size: string, trailers: seq<string>, part: string)
    | Over(head: Head, chunks: seq<Chunk>, size: string, trailers: seq<string>, blank: string, surplus: string)

  function LinesText(raws: seq<string>): string
  {
    if raws == [] then "" else LinesText(raws[..|raws| - 1]) + (raws[|raws| - 1] + NL)
  }

  function HeadText(h: Head): string { h.lead + NL + (LinesText(h.raws) + (h.blank + NL)) }

  function ChunkText(c: Chunk): string { c.size + NL + (c.data + (c.end + NL)) }

  function ChunksText(cs: seq<Chunk>): string
  {
    if cs == [] then "" else ChunksText(cs[..|cs| - 1]) + ChunkText(cs[|cs| - 1])
  }

  function Print(t: Text): string
  {
    match t
    case InLeader(part) => part
    case InHeaders(lead, raws, part) => lead + NL + (LinesText(raws) + part)
    case InBody(h, data) => HeadText(h) + data
    case Whole(h, data, surplus) => HeadText(h) + (data + surplus)
    case InSize(h, cs, part) => HeadText(h) + (ChunksText(cs) + part)
    case InChunk(h, cs, size, data) => HeadText(h) + (ChunksText(cs) + (size + NL + data))
    case InEnd(h, cs, size, data, part) => HeadText(h) + (ChunksText(cs) + (size + NL + (data + part)))
    case InTrailers(h, cs, size, trailers, part) =>
      HeadText(h) + (ChunksText(cs) + (size + NL + (LinesText(trailers) + part)))
    case Over(h, cs, size, trailers, blank, surplus) =>
      HeadText(h) + (ChunksText(cs) + (size + NL + (LinesText(trailers) + (blank + NL + surplus))))
  }

  // ---------------------------------------------------------------------------
  // Which texts are messages, or the beginning of one
  // ---------------------------------------------------------------------------

  predicate Blank(raw: string) { TrimRight(raw) == "" }

  /** A header that the parser takes: numbers are numbers, codings are known. */
  predicate HeaderOk(h: Header)
  {
    && (IsContentLength(h.0) ==> h.1 != "" && StrToUl(h.1, 10).Number?)
    && (IsTransferEncoding(h.0) && !IsContentLength(h.0) ==>
          EqualIgnoringCase(h.1, "chunked") || EqualIgnoringCase(h.1, "identity"))
  }

  predicate RawOk(raw: string)
  {
    && Lacks(raw, '\n') && !Blank(raw)
    && SplitHeader(TrimRight(raw)).Some? && HeaderOk(SplitHeader(TrimRight(raw)).value)
  }

  predicate RawsOk(raws: seq<string>) { forall i :: 0 <= i < |raws| ==> RawOk(raws[i]) }

  function HeadersOf(raws: seq<string>): (r: seq<Header>)
    requires RawsOk(raws)
  {
    if raws == [] then []
    else HeadersOf(raws[..|raws| - 1]) + [SplitHeader(TrimRight(raws[|raws| - 1])).value]
  }

  /** Whether the last Transfer-Encoding header says chunked. */
  function Coding(hs: seq<Header>): bool
  {
    if hs == [] then false
    else
      var h := hs[|hs| - 1];
      if IsTransferEncoding(h.0) && !IsContentLength(h.0) then EqualIgnoringCase(h.1, "chunked")
      else Coding(hs[..|hs| - 1])
  }

  /** The number in the last Content-Length header; none is the largest number. */
  function Length(hs: seq<Header>): size_t
  {
    if hs == [] then SIZE_UNKNOWN
    else
      var h := hs[|hs| - 1];
      if IsContentLength(h.0) && StrToUl(h.1, 10).Number? then StrToUl(h.1, 10).value
      else Length(hs[..|hs| - 1])
  }

  /** What the owner makes of the head: the size of the body, and its verdict. */
  function Verdict(cb: Callbacks, h: Head): (size_t, HttpError)
    requires RawsOk(h.raws)
  {
    var hs := HeadersOf(h.raws);
    cb.headersDone(TrimRight(h.lead), hs, Coding(hs), Length(hs))
  }

  predicate LeadOk(cb: Callbacks, lead: string) { Lacks(lead, '\n') && cb.leader(TrimRight(lead)) == HE_NONE }

  predicate HeadOk(cb: Callbacks, h: Head)
  {
    && LeadOk(cb, h.lead) && RawsOk(h.raws)
    && Lacks(h.blank, '\n') && Blank(h.blank)
    && Verdict(cb, h).1 == HE_NONE
  }

  predicate PlainHead(cb: Callbacks, h: Head) { HeadOk(cb, h) && !Coding(HeadersOf(h.raws)) }

  predicate ChunkedHead(cb: Callbacks, h: Head) { HeadOk(cb, h) && Coding(HeadersOf(h.raws)) }

  /** The number in a chunk's size line, which must fill it. */
  function SizeOf(raw: string): Option<size_t>
  {
    var line := TrimRight(raw);
    if line == "" then None
    else
      match StrToUl(line, 16)
      case NoConversion => None
      case Number(v, end) => if end == |line| then Some(v) else None
  }

  predicate SizeLine(raw: string, n: nat) { Lacks(raw, '\n') && n <= SIZE_UNKNOWN && SizeOf(raw) == Some(n) }

  predicate ChunkOk(c: Chunk)
  {
    SizeLine(c.size, |c.data|) && 0 < |c.data| < SIZE_UNKNOWN && Lacks(c.end, '\n') && Blank(c.end)
  }

  predicate ChunksOk(cs: seq<Chunk>) { forall i :: 0 <= i < |cs| ==> ChunkOk(cs[i]) }

  function Datas(cs: seq<Chunk>): string
  {
    if cs == [] then "" else Datas(cs[..|cs| - 1]) + cs[|cs| - 1].data
  }

  predicate TrailersOk(raws: seq<string>) { forall i :: 0 <= i < |raws| ==> Lacks(raws[i], '\n') && !Blank(raws[i]) }

  predicate Good(cb: Callbacks, t: Text)
  {
    match t
    case InLeader(part) => Lacks(part, '\n')
    case InHeaders(lead, raws, part) => LeadOk(cb, lead) && RawsOk(raws) && Lacks(part, '\n')
    case InBody(h, data) =>
      PlainHead(cb, h) && var n := Verdict(cb, h).0; n == SIZE_UNKNOWN || |data| < n
    case Whole(h, data, _) =>
      PlainHead(cb, h) && Verdict(cb, h).0 == |data| && |data| < SIZE_UNKNOWN
    case InSize(h, cs, part) => ChunkedHead(cb, h) && ChunksOk(cs) && Lacks(part, '\n')
    case InChunk(h, cs, size, data) =>
      && ChunkedHead(cb, h) && ChunksOk(cs) && Lacks(size, '\n') && SizeOf(size).Some?
      && var n := SizeOf(size).value; n == SIZE_UNKNOWN || |data| < n
    case InEnd(h, cs, size, data, part) =>
      && ChunkedHead(cb, h) && ChunksOk(cs) && SizeLine(size, |data|) && 0 < |data| < SIZE_UNKNOWN && Lacks(part, '\n')
    case InTrailers(h, cs, size, trailers, part) =>
      ChunkedHead(cb, h) && ChunksOk(cs) && SizeLine(size, 0) && TrailersOk(trailers) && Lacks(part, '\n')
    case Over(h, cs, size, trailers, blank, _) =>
      && ChunkedHead(cb, h) && ChunksOk(cs) && SizeLine(size, 0) && TrailersOk(trailers)
      && Lacks(blank, '\n') && Blank(blank)
  }

  /** What is left of n, if n is known. */
  function Minus(n: size_t, k: nat): size_t
    requires n == SIZE_UNKNOWN || k <= n
  {
    if n == SIZE_UNKNOWN then n else n - k
  }

  /** The parser's fields and the held bytes that a text stands for. */
  function StateOf(cb: Callbacks, t: Text): Machine
    requires Good(cb, t)
  {
    match t
    case InLeader(part) => At(Parser(Leader, false, SIZE_UNKNOWN, "", [], "", None), part)
    case InHeaders(lead, raws, part) =>
      var hs := HeadersOf(raws);
      At(Parser(Headers, Coding(hs), Length(hs), TrimRight(lead), hs, "", None), part)
    case InBody(h, data) =>
      At(Parser(Data, false, Minus(Verdict(cb, h).0, |data|), TrimRight(h.lead), HeadersOf(h.raws), data, None), "")
    case Whole(h, data, surplus) =>
      At(Parser(Data, false, 0, TrimRight(h.lead), HeadersOf(h.raws), data, Some(HE_NONE)), surplus)
    case InSize(h, cs, part) =>
      At(Parser(ChunkSize, true, if cs == [] then Verdict(cb, h).0 else 0,
                TrimRight(h.lead), HeadersOf(h.raws), Datas(cs), None), part)
    case InChunk(h, cs, size, data) =>
      At(Parser(Data, true, Minus(SizeOf(size).value, |data|),
                TrimRight(h.lead), HeadersOf(h.raws), Datas(cs) + data, None), "")
    case InEnd(h, cs, _, data, part) =>
      At(Parser(ChunkTerm, true, 0, TrimRight(h.lead), HeadersOf(h.raws), Datas(cs) + data, None), part)
    case InTrailers(h, cs, _, _, part) =>
      At(Parser(Trailers, true, 0, TrimRight(h.lead), HeadersOf(h.raws), Datas(cs), None), part)
    case Over(h, cs, _, _, _, surplus) =>
      At(Parser(Trailers, true, 0, TrimRight(h.lead), HeadersOf(h.raws), Datas(cs), Some(HE_NONE)), surplus)
  }

  // ---------------------------------------------------------------------------
  // Each text leads to its state
  // ---------------------------------------------------------------------------

  lemma TrimmedEnd(raw: string)
    ensures TrimRight(raw) == "" || !IsSpace(TrimRight(raw)[|TrimRight(raw)| - 1])
  {
  }

  lemma FeedRaw(cb: Callbacks, p: Parser, raw: string, tail: string)
    requires p.done.None? && InLine(p) && Lacks(raw, '\n') && !Dangling(p, TrimRight(raw))
    ensures FeedAll(cb, At(p, ""), raw + NL + tail)
         == FeedAll(cb, Start(LineStep(cb, p, TrimRight(raw), "\n")), tail)
  {
    hide FeedAll, LineStep, TrimRight, Dangling;
    var buf := raw + NL + tail;
    assert buf[..|raw|] == raw && buf[|raw| + 1..] == tail;
    FirstLine(cb, p, buf, |raw|);
  }

  /** The parser's fields after one more header. */
  function With(p: Parser, h: Header): Parser
    requires HeaderOk(h)
  {
    p.(headers := p.headers + [h],
       size := if IsContentLength(h.0) then StrToUl(h.1, 10).value else p.size,
       chunked := if IsTransferEncoding(h.0) && !IsContentLength(h.0) then EqualIgnoringCase(h.1, "chunked") else p.chunked)
  }

  lemma HeaderTaken(p: Parser, line: string, h: Header)
    requires p.done.None? && p.phase == Headers && SplitHeader(line) == Some(h) && HeaderOk(h)
    requires h.1 == "" || !IsSpace(h.1[|h.1| - 1])
    ensures !Dangling(p, line) && HeaderStep(p, line, "\n") == With(p, h)
  {
    hide TrimRight, SplitHeader, StrToUl, EqualIgnoringCase;
    if IsContentLength(h.0) {
      NumberStaysInLine(h.1, "\n", 10);
    }
  }

  lemma SplitEnd(raw: string)
    requires RawOk(raw)
    ensures var h := SplitHeader(TrimRight(raw)).value; h.1 == "" || !IsSpace(h.1[|h.1| - 1])
  {
    TrimmedEnd(raw);
  }

  function AfterLead(lead: string): Parser { Parser(Headers, false, SIZE_UNKNOWN, TrimRight(lead), [], "", None) }

  function InHead(lead: string, raws: seq<string>): Parser
    requires RawsOk(raws)
  {
    var hs := HeadersOf(raws);
    Parser(Headers, Coding(hs), Length(hs), TrimRight(lead), hs, "", None)
  }

  lemma FeedHeaderRaw(cb: Callbacks, p: Parser, raw: string, tail: string)
    requires p.done.None? && p.phase == Headers && RawOk(raw)
    ensures FeedAll(cb, At(p, ""), raw + NL + tail)
         == FeedAll(cb, At(With(p, SplitHeader(TrimRight(raw)).value), ""), tail)
  {
    var line := TrimRight(raw);
    var h := SplitHeader(line).value;
    SplitEnd(raw);
    HeaderTaken(p, line, h);
    FeedRaw(cb, p, raw, tail);
    hide FeedAll, TrimRight, SplitHeader, HeaderStep, StrToUl, EqualIgnoringCase;
  }

  lemma InHeadNext(lead: string, raws: seq<string>)
    requires RawsOk(raws) && raws != []
    ensures var front := raws[..|raws| - 1];
      RawsOk(front) && InHead(lead, raws) == With(InHead(lead, front), SplitHeader(TrimRight(raws[|raws| - 1])).value)
  {
    var front, last := raws[..|raws| - 1], raws[|raws| - 1];
    assert RawOk(last);
    hide SplitHeader, StrToUl, EqualIgnoringCase, TrimRight, RawOk;
    var hs := HeadersOf(raws);
    assert hs[..|hs| - 1] == HeadersOf(front);
  }

  lemma {:induction false} FeedRaws(cb: Callbacks, lead: string, raws: seq<string>, tail: string)
    requires RawsOk(raws)
    ensures FeedAll(cb, At(AfterLead(lead), ""), LinesText(raws) + tail)
         == FeedAll(cb, At(InHead(lead, raws), ""), tail)
  {
    hide FeedAll, TrimRight, SplitHeader, With;
    if raws == [] {
      assert LinesText(raws) + tail == tail;
    } else {
      var front, last := raws[..|raws| - 1], raws[|raws| - 1];
      assert RawOk(last);
      assert LinesText(raws) + tail == LinesText(front) + (last + NL + tail);
      FeedRaws(cb, lead, front, last + NL + tail);
      FeedHeaderRaw(cb, InHead(lead, front), last, tail);
      InHeadNext(lead, raws);
    }
  }

  lemma FeedLead(cb: Callbacks, lead: string, tail: string)
    requires LeadOk(cb, lead)
    ensures FeedAll(cb, Start(Initial), lead + NL + tail) == FeedAll(cb, At(AfterLead(lead), ""), tail)
  {
    hide FeedAll, TrimRight;
    FeedRaw(cb, Initial, lead, tail);
  }

  /** The parser behind a complete head. */
  function AfterHead(cb: Callbacks, h: Head): Parser
    requires HeadOk(cb, h)
  {
    var hs := HeadersOf(h.raws);
    Parser(if Coding(hs) then ChunkSize else Data, Coding(hs), Verdict(cb, h).0, TrimRight(h.lead), hs, "", None)
  }

  lemma FeedHeadText(cb: Callbacks, h: Head, tail: string)
    requires HeadOk(cb, h)
    ensures FeedAll(cb, Start(Initial), HeadText(h) + tail) == FeedAll(cb, Start(AfterHead(cb, h)), tail)
  {
    hide FeedAll, TrimRight, LinesText, Coding, Length, HeadersOf, RawsOk, Dangling;
    var rest := h.blank + NL + tail;
    assert HeadText(h) + tail == h.lead + NL + (LinesText(h.raws) + rest);
    FeedLead(cb, h.lead, LinesText(h.raws) + rest);
    FeedRaws(cb, h.lead, h.raws, rest);
    NoDangling(InHead(h.lead, h.raws));
    FeedRaw(cb, InHead(h.lead, h.raws), h.blank, tail);
  }

  lemma NoDangling(p: Parser)
    ensures !Dangling(p, "")
  {
  }

  /** The line of a chunk's size. */
  lemma FeedSize(cb: Callbacks, p: Parser, raw: string, n: nat, tail: string)
    requires p.done.None? && p.phase == ChunkSize && p.chunked && SizeLine(raw, n)
    ensures FeedAll(cb, At(p, ""), raw + NL + tail)
         == FeedAll(cb, At(p.(size := n, phase := if n == 0 then Trailers else Data), ""), tail)
  {
    TrimmedEnd(raw);
    hide FeedAll, TrimRight, StrToUl;
    var line := TrimRight(raw);
    NumberStaysInLine(line, "\n", 16);
    FeedRaw(cb, p, raw, tail);
  }

  function AfterChunk(p: Parser, data: string): Parser { p.(size := 0, phase := ChunkSize, body := p.body + data) }

  /** The data of a chunk, of which the whole is announced. */
  lemma FeedChunkData(cb: Callbacks, p: Parser, data: string, tail: string)
    requires p.done.None? && p.phase == Data && p.chunked && 0 < |data| < SIZE_UNKNOWN && p.size == |data|
    ensures FeedAll(cb, At(p, ""), data + tail)
         == FeedAll(cb, At(p.(size := 0, phase := ChunkTerm, body := p.body + data), ""), tail)
  {
    hide FeedAll, Feed;
    FeedAllAppend(cb, At(p, ""), data, tail);
    FeedBlock(cb, p, data);
  }

  lemma FeedEnd(cb: Callbacks, p: Parser, raw: string, tail: string)
    requires p.done.None? && p.phase == ChunkTerm && p.chunked && Lacks(raw, '\n') && Blank(raw) && p.size == 0
    ensures FeedAll(cb, At(p, ""), raw + NL + tail) == FeedAll(cb, At(p.(phase := ChunkSize), ""), tail)
  {
    hide FeedAll, TrimRight;
    FeedRaw(cb, p, raw, tail);
  }

  lemma FeedChunk(cb: Callbacks, p: Parser, c: Chunk, tail: string)
    requires p.done.None? && p.phase == ChunkSize && p.chunked && ChunkOk(c)
    ensures FeedAll(cb, At(p, ""), ChunkText(c) + tail) == FeedAll(cb, At(AfterChunk(p, c.data), ""), tail)
  {
    hide FeedAll, TrimRight, SizeOf;
    var end := c.end + NL + tail;
    assert ChunkText(c) + tail == c.size + NL + (c.data + end);
    FeedSize(cb, p, c.size, |c.data|, c.data + end);
    var q := p.(size := |c.data|, phase := Data);
    FeedChunkData(cb, q, c.data, end);
    FeedEnd(cb, q.(size := 0, phase := ChunkTerm, body := p.body + c.data), c.end, tail);
  }

  function AfterChunks(p: Parser, cs: seq<Chunk>): Parser
  {
    if cs == [] then p else p.(size := 0, body := p.body + Datas(cs))
  }

  lemma {:induction false} FeedChunks(cb: Callbacks, p: Parser, cs: seq<Chunk>, tail: string)
    requires p.done.None? && p.phase == ChunkSize && p.chunked && ChunksOk(cs)
    ensures FeedAll(cb, At(p, ""), ChunksText(cs) + tail) == FeedAll(cb, At(AfterChunks(p, cs), ""), tail)
  {
    hide FeedAll, ChunkText, ChunkOk;
    if cs == [] {
      assert ChunksText(cs) + tail == tail;
    } else {
      var front, last := cs[..|cs| - 1], cs[|cs| - 1];
      assert ChunkOk(last);
      assert ChunksText(cs) + tail == ChunksText(front) + (ChunkText(last) + tail);
      FeedChunks(cb, p, front, ChunkText(last) + tail);
      var q := AfterChunks(p, front);
      FeedChunk(cb, q, last, tail);
      assert q.body + last.data == p.body + Datas(cs);
    }
  }

  /** Trailer lines change nothing. */
  lemma {:induction false} FeedTrailers(cb: Callbacks, p: Parser, raws: seq<string>, tail: string)
    requires p.done.None? && p.phase == Trailers && TrailersOk(raws)
    ensures FeedAll(cb, At(p, ""), LinesText(raws) + tail) == FeedAll(cb, At(p, ""), tail)
  {
    hide FeedAll, TrimRight;
    if raws == [] {
      assert LinesText(raws) + tail == tail;
    } else {
      var front, last := raws[..|raws| - 1], raws[|raws| - 1];
      assert Lacks(last, '\n') && !Blank(last);
      assert LinesText(raws) + tail == LinesText(front) + (last + NL + tail);
      FeedTrailers(cb, p, front, last + NL + tail);
      FeedRaw(cb, p, last, tail);
    }
  }

  lemma HeadersMeans(cb: Callbacks, t: Text)
    requires t.InHeaders? && Good(cb, t)
    ensures Reference(cb, Print(t)) == StateOf(cb, t)
  {
    hide FeedAll, TrimRight, LinesText;
    FeedLead(cb, t.lead, LinesText(t.raws) + t.part);
    FeedRaws(cb, t.lead, t.raws, t.part);
    var p := InHead(t.lead, t.raws);
    FeedHeld(cb, p, "", t.part);
    assert "" + t.part == t.part;
  }

  lemma LeaderMeans(cb: Callbacks, t: Text)
    requires t.InLeader? && Good(cb, t)
    ensures Reference(cb, Print(t)) == StateOf(cb, t)
  {
    FeedHeld(cb, Initial, "", t.part);
    assert "" + t.part == t.part;
  }

  lemma BodyMeans(cb: Callbacks, t: Text)
    requires (t.InBody? || t.Whole?) && Good(cb, t)
    ensures Reference(cb, Print(t)) == StateOf(cb, t)
  {
    hide FeedAll, TrimRight, HeadText, Verdict, Coding, HeadersOf, Feed;
    var h, p := t.head, AfterHead(cb, t.head);
    if t.InBody? {
      FeedHeadText(cb, h, t.data);
      FeedBlock(cb, p, t.data);
      assert "" + t.data == t.data;
    } else {
      FeedHeadText(cb, h, t.data + t.surplus);
      var q := p.(size := 0, body := t.data, done := Some(HE_NONE));
      FeedHeld(cb, q, "", t.surplus);
      assert "" + t.surplus == t.surplus && "" + t.data == t.data;
      if t.data == "" {
        assert t.data + t.surplus == t.surplus;
      } else {
        FeedAllAppend(cb, At(p, ""), t.data, t.surplus);
        FeedBlock(cb, p, t.data);
      }
    }
  }

  function AtSize(cb: Callbacks, h: Head, cs: seq<Chunk>): Parser
    requires ChunkedHead(cb, h)
  {
    Parser(ChunkSize, true, if cs == [] then Verdict(cb, h).0 else 0, TrimRight(h.lead), HeadersOf(h.raws), Datas(cs), None)
  }

  lemma FeedToSize(cb: Callbacks, h: Head, cs: seq<Chunk>, tail: string)
    requires ChunkedHead(cb, h) && ChunksOk(cs)
    ensures Reference(cb, HeadText(h) + (ChunksText(cs) + tail)) == FeedAll(cb, At(AtSize(cb, h, cs), ""), tail)
  {
    hide FeedAll, TrimRight, HeadText, ChunksText, Verdict, Coding, HeadersOf, ChunksOk;
    FeedHeadText(cb, h, ChunksText(cs) + tail);
    FeedChunks(cb, AfterHead(cb, h), cs, tail);
    assert "" + Datas(cs) == Datas(cs);
  }

  lemma SizeMeans(cb: Callbacks, t: Text)
    requires (t.InSize? || t.InChunk? || t.InEnd?) && Good(cb, t)
    ensures Reference(cb, Print(t)) == StateOf(cb, t)
  {
    hide FeedAll, TrimRight, HeadText, ChunksText, Verdict, Coding, HeadersOf, ChunksOk, SizeOf, Feed, Datas;
    var h, cs := t.head, t.chunks;
    var p := AtSize(cb, h, cs);
    match t
    case InSize(_, _, part) =>
      FeedToSize(cb, h, cs, part);
      FeedHeld(cb, p, "", part);
      assert "" + part == part;
    case InChunk(_, _, size, data) =>
      var n := SizeOf(size).value;
      FeedToSize(cb, h, cs, size + NL + data);
      FeedSize(cb, p, size, n, data);
      FeedBlock(cb, p.(size := n, phase := Data), data);
    case InEnd(_, _, size, data, part) =>
      FeedToSize(cb, h, cs, size + NL + (data + part));
      FeedSize(cb, p, size, |data|, data + part);
      FeedChunkData(cb, p.(size := |data|, phase := Data), data, part);
      FeedHeld(cb, p.(size := 0, phase := ChunkTerm, body := p.body + data), "", part);
      assert "" + part == part;
    case _ =>
  }

  lemma TrailersMeans(cb: Callbacks, t: Text)
    requires (t.InTrailers? || t.Over?) && Good(cb, t)
    ensures Reference(cb, Print(t)) == StateOf(cb, t)
  {
    hide FeedAll, TrimRight, HeadText, ChunksText, LinesText, Verdict, Coding, HeadersOf, ChunksOk, SizeOf, Feed, Datas;
    var p := AtSize(cb, t.head, t.chunks);
    var q := p.(size := 0, phase := Trailers);
    var tail := if t.InTrailers? then t.part else t.blank + NL + t.surplus;
    FeedToSize(cb, t.head, t.chunks, t.size + NL + (LinesText(t.trailers) + tail));
    FeedSize(cb, p, t.size, 0, LinesText(t.trailers) + tail);
    FeedTrailers(cb, q, t.trailers, tail);
    if t.InTrailers? {
      FeedHeld(cb, q, "", t.part);
      assert "" + t.part == t.part;
    } else {
      FeedRaw(cb, q, t.blank, t.surplus);
      FeedHeld(cb, Finish(q, HE_NONE), "", t.surplus);
      assert "" + t.surplus == t.surplus;
    }
  }

  /** Every message, and every beginning of one, puts the parser into its state: fields,
      reports, completion and held bytes. */
  lemma TextMeans(cb: Callbacks, t: Text)
    requires Good(cb, t)
    ensures Reference(cb, Print(t)) == StateOf(cb, t)
  {
    hide Good, Print, StateOf, FeedAll;
    match t
    case InLeader(_) => LeaderMeans(cb, t);
    case InHeaders(_, _, _) => HeadersMeans(cb, t);
    case InBody(_, _) => BodyMeans(cb, t);
    case Whole(_, _, _) => BodyMeans(cb, t);
    case InSize(_, _, _) => SizeMeans(cb, t);
    case InChunk(_, _, _, _) => SizeMeans(cb, t);
    case InEnd(_, _, _, _, _) => SizeMeans(cb, t);
    case InTrailers(_, _, _, _, _) => TrailersMeans(cb, t);
    case Over(_, _, _, _, _, _) => TrailersMeans(cb, t);
  }

  // ---------------------------------------------------------------------------
  // Every stream is such a text, or breaks off with an error
  // ---------------------------------------------------------------------------

  predicate LineOpen(t: Text) { t.InLeader? || t.InHeaders? || t.InSize? || t.InEnd? || t.InTrailers? }

  /** The line that is open, completed by a line feed, is refused with this error. */
  function Refusal(cb: Callbacks, t: Text): (r: Option<HttpError>)
    requires Good(cb, t)
    ensures r != Some(HE_NONE)
  {
    match t
    case InLeader(part) =>
      if cb.leader(TrimRight(part)) == HE_NONE then None else Some(cb.leader(TrimRight(part)))
    case InHeaders(lead, raws, part) =>
      if Blank(part) then
        var e := Verdict(cb, Head(lead, raws, part)).1;
        if e == HE_NONE then None else Some(e)
      else if Dangles(t) || RawOk(part) then None else Some(HE_PROTOCOL)
    case InSize(_, _, part) => if SizeOf(part).None? then Some(HE_PROTOCOL) else None
    case InEnd(_, _, _, _, part) => if Blank(part) then None else Some(HE_PROTOCOL)
    case _ => None
  }

  /** The open line is a Content-Length header without a value. */
  predicate Dangles(t: Text)
  {
    t.InHeaders? &&
    match SplitHeader(TrimRight(t.part))
    case None => false
    case Some((name, value)) => IsContentLength(name) && value == ""
  }

  /** The open line with one more character. */
  function Longer(t: Text, c: char): Text
    requires LineOpen(t)
  {
    match t
    case InLeader(part) => InLeader(part + [c])
    case InHeaders(lead, raws, part) => InHeaders(lead, raws, part + [c])
    case InSize(h, cs, part) => InSize(h, cs, part + [c])
    case InEnd(h, cs, size, data, part) => InEnd(h, cs, size, data, part + [c])
    case InTrailers(h, cs, size, trailers, part) => InTrailers(h, cs, size, trailers, part + [c])
  }

  /** One more byte of data, or behind the end. */
  function MoreData(cb: Callbacks, t: Text, c: char): Text
    requires Good(cb, t) && !LineOpen(t)
  {
    match t
    case InBody(h, data) =>
      var n := Verdict(cb, h).0;
      if n == SIZE_UNKNOWN || |data| + 1 < n then InBody(h, data + [c]) else Whole(h, data + [c], "")
    case Whole(h, data, surplus) => Whole(h, data, surplus + [c])
    case InChunk(h, cs, size, data) =>
      var n := SizeOf(size).value;
      if n == SIZE_UNKNOWN || |data| + 1 < n then InChunk(h, cs, size, data + [c])
      else InEnd(h, cs, size, data + [c], "")
    case Over(h, cs, size, trailers, blank, surplus) => Over(h, cs, size, trailers, blank, surplus + [c])
  }

  /** The text with one more byte, if it is still one. */
  function Extend(cb: Callbacks, t: Text, c: char): Option<Text>
    requires Good(cb, t)
  {
    if !LineOpen(t) then Some(MoreData(cb, t, c))
    else if c != '\n' then Some(Longer(t, c))
    else if Refusal(cb, t).Some? || Dangles(t) then None
    else Some(NextLine(cb, t))
  }

  /** Behind the line that was open. */
  function NextLine(cb: Callbacks, t: Text): Text
    requires Good(cb, t) && LineOpen(t) && Refusal(cb, t).None? && !Dangles(t)
  {
    match t
    case InLeader(part) => InHeaders(part, [], "")
    case InHeaders(lead, raws, part) =>
      if !Blank(part) then InHeaders(lead, raws + [part], "")
      else
        var h := Head(lead, raws, part);
        if Coding(HeadersOf(raws)) then InSize(h, [], "")
        else if Verdict(cb, h).0 == 0 then Whole(h, "", "")
        else InBody(h, "")
    case InSize(h, cs, part) =>
      if SizeOf(part) == Some(0) then InTrailers(h, cs, part, [], "") else InChunk(h, cs, part, "")
    case InEnd(h, cs, size, data, part) => InSize(h, cs + [Chunk(size, data, part)], "")
    case InTrailers(h, cs, size, trailers, part) =>
      if Blank(part) then Over(h, cs, size, trailers, part, "") else InTrailers(h, cs, size, trailers + [part], "")
  }

  lemma LinesMore(raws: seq<string>, raw: string)
    ensures LinesText(raws + [raw]) == LinesText(raws) + (raw + NL)
  {
    assert (raws + [raw])[..|raws|] == raws;
  }

  lemma ChunksMore(cs: seq<Chunk>, c: Chunk)
    ensures ChunksText(cs + [c]) == ChunksText(cs) + ChunkText(c)
  {
    assert (cs + [c])[..|cs|] == cs;
  }

  lemma NextLineGood(cb: Callbacks, t: Text)
    requires Good(cb, t) && LineOpen(t) && Refusal(cb, t).None? && !Dangles(t)
    ensures Good(cb, NextLine(cb, t))
  {
    hide TrimRight, SplitHeader, Good, NextLine;
    match t
    case InLeader(part) => LeaderGood(cb, t);
    case InHeaders(lead, raws, part) => HeadersGood(cb, t);
    case InSize(h, cs, part) => SizeGood(cb, t);
    case InEnd(h, cs, size, data, part) => EndGood(cb, t);
    case InTrailers(h, cs, size, trailers, part) => TrailersGood(cb, t);
  }

  lemma LeaderGood(cb: Callbacks, t: Text)
    requires t.InLeader? && Good(cb, t) && Refusal(cb, t).None?
    ensures Good(cb, NextLine(cb, t))
  {
  }

  lemma SizeGood(cb: Callbacks, t: Text)
    requires t.InSize? && Good(cb, t) && Refusal(cb, t).None?
    ensures Good(cb, NextLine(cb, t))
  {
    hide TrimRight, HeadOk, Coding, HeadersOf, ChunksOk, StrToUl;
  }

  lemma EndGood(cb: Callbacks, t: Text)
    requires t.InEnd? && Good(cb, t) && Refusal(cb, t).None?
    ensures Good(cb, NextLine(cb, t))
  {
    hide TrimRight, HeadOk, Coding, HeadersOf, SizeOf;
  }

  lemma TrailersGood(cb: Callbacks, t: Text)
    requires t.InTrailers? && Good(cb, t)
    ensures Good(cb, NextLine(cb, t))
  {
    hide TrimRight, HeadOk, Coding, HeadersOf, ChunksOk, SizeOf;
  }

  lemma HeadersGood(cb: Callbacks, t: Text)
    requires t.InHeaders? && Good(cb, t) && Refusal(cb, t).None? && !Dangles(t)
    ensures Good(cb, NextLine(cb, t))
  {
    hide TrimRight, SplitHeader, Coding, Length, HeadersOf, HeaderOk;
  }

  lemma Glue2(a: string, b: string, c: string)
    ensures a + (b + c) == a + b + c
  {
  }

  lemma Glue3(a: string, b: string, c: string, d: string)
    ensures a + (b + (c + d)) == a + (b + c) + d
  {
  }

  lemma Glue4(a: string, b: string, c: string, d: string, e: string)
    ensures a + (b + (c + (d + e))) == a + (b + (c + d)) + e
  {
  }

  lemma Glue5(a: string, b: string, c: string, d: string, e: string, f: string)
    ensures a + (b + (c + (d + (e + f)))) == a + (b + (c + (d + e))) + f
  {
  }

  lemma LeaderLine(part: string)
    ensures Print(InHeaders(part, [], "")) == Print(InLeader(part)) + NL
  {
    assert part + NL + (LinesText([]) + "") == part + NL;
  }

  lemma HeaderLine(lead: string, raws: seq<string>, part: string)
    ensures Print(InHeaders(lead, raws + [part], "")) == Print(InHeaders(lead, raws, part)) + NL
  {
    hide LinesText;
    LinesMore(raws, part);
    assert LinesText(raws + [part]) + "" == LinesText(raws + [part]);
    Glue3(lead + NL, LinesText(raws), part, NL);
  }

  lemma HeadEnds(lead: string, raws: seq<string>, part: string)
    ensures HeadText(Head(lead, raws, part)) == Print(InHeaders(lead, raws, part)) + NL
  {
    hide LinesText;
    Glue3(lead + NL, LinesText(raws), part, NL);
  }

  lemma BehindHead(h: Head)
    ensures Print(InSize(h, [], "")) == HeadText(h) && Print(Whole(h, "", "")) == HeadText(h)
    ensures Print(InBody(h, "")) == HeadText(h)
  {
    hide HeadText;
    assert ChunksText([]) + "" == "" && "" + "" == "";
    assert HeadText(h) + "" == HeadText(h);
  }

  lemma SizeEnds(h: Head, cs: seq<Chunk>, part: string)
    ensures Print(InTrailers(h, cs, part, [], "")) == Print(InSize(h, cs, part)) + NL
    ensures Print(InChunk(h, cs, part, "")) == Print(InSize(h, cs, part)) + NL
  {
    hide HeadText, ChunksText;
    assert part + NL + (LinesText([]) + "") == part + NL;
    assert part + NL + "" == part + NL;
    Glue3(HeadText(h), ChunksText(cs), part, NL);
  }

  lemma ChunkEnds(h: Head, cs: seq<Chunk>, size: string, data: string, part: string)
    ensures Print(InSize(h, cs + [Chunk(size, data, part)], "")) == Print(InEnd(h, cs, size, data, part)) + NL
  {
    hide HeadText, ChunksText;
    var c := Chunk(size, data, part);
    ChunksMore(cs, c);
    assert ChunksText(cs + [c]) + "" == ChunksText(cs + [c]);
    Glue5(HeadText(h), ChunksText(cs), size + NL, data, part, NL);
  }

  lemma TrailerEnds(h: Head, cs: seq<Chunk>, size: string, trailers: seq<string>, part: string)
    ensures Print(InTrailers(h, cs, size, trailers + [part], "")) == Print(InTrailers(h, cs, size, trailers, part)) + NL
    ensures Print(Over(h, cs, size, trailers, part, "")) == Print(InTrailers(h, cs, size, trailers, part)) + NL
  {
    hide HeadText, ChunksText, LinesText;
    LinesMore(trailers, part);
    assert LinesText(trailers + [part]) + "" == LinesText(trailers + [part]);
    assert part + NL + "" == part + NL;
    Glue5(HeadText(h), ChunksText(cs), size + NL, LinesText(trailers), part, NL);
  }

  lemma NextLinePrint(cb: Callbacks, t: Text)
    requires Good(cb, t) && LineOpen(t) && Refusal(cb, t).None? && !Dangles(t)
    ensures Print(NextLine(cb, t)) == Print(t) + NL
  {
    hide TrimRight, SplitHeader, Coding, Length, HeadersOf, Print, HeadText, Verdict, SizeOf, Refusal, Dangles;
    match t
    case InLeader(part) => LeaderLine(part);
    case InHeaders(lead, raws, part) =>
      HeaderLine(lead, raws, part);
      HeadEnds(lead, raws, part);
      BehindHead(Head(lead, raws, part));
    case InSize(h, cs, part) => SizeEnds(h, cs, part);
    case InEnd(h, cs, size, data, part) => ChunkEnds(h, cs, size, data, part);
    case InTrailers(h, cs, size, trailers, part) => TrailerEnds(h, cs, size, trailers, part);
  }

  lemma LongerGood(cb: Callbacks, t: Text, c: char)
    requires Good(cb, t) && LineOpen(t) && c != '\n'
    ensures Good(cb, Longer(t, c))
  {
    hide PlainHead, ChunkedHead, LeadOk, RawsOk, ChunksOk, TrailersOk, SizeLine;
  }

  lemma LongerPrint(t: Text, c: char)
    requires LineOpen(t)
    ensures Print(Longer(t, c)) == Print(t) + [c]
  {
    hide HeadText, ChunksText, LinesText;
    match t
    case InLeader(part) =>
    case InHeaders(lead, raws, part) => Glue3(lead + NL, LinesText(raws), part, [c]);
    case InSize(h, cs, part) => Glue3(HeadText(h), ChunksText(cs), part, [c]);
    case InEnd(h, cs, size, data, part) => Glue5(HeadText(h), ChunksText(cs), size + NL, data, part, [c]);
    case InTrailers(h, cs, size, trailers, part) =>
      Glue5(HeadText(h), ChunksText(cs), size + NL, LinesText(trailers), part, [c]);
  }

  lemma DataGood(cb: Callbacks, t: Text, c: char)
    requires Good(cb, t) && !LineOpen(t)
    ensures Good(cb, MoreData(cb, t, c))
  {
    hide HeadOk, Coding, HeadersOf, ChunksOk, TrailersOk, SizeOf, TrimRight;
  }

  lemma DataPrint(cb: Callbacks, t: Text, c: char)
    requires Good(cb, t) && !LineOpen(t)
    ensures Print(MoreData(cb, t, c)) == Print(t) + [c]
  {
    hide HeadText, ChunksText, LinesText, Verdict, SizeOf, PlainHead, ChunkedHead;
    match t
    case InBody(h, data) =>
      Glue2(HeadText(h), data, [c]);
      assert data + [c] + "" == data + [c];
    case Whole(h, data, surplus) => Glue3(HeadText(h), data, surplus, [c]);
    case InChunk(h, cs, size, data) =>
      assert data + [c] + "" == data + [c];
      Glue4(HeadText(h), ChunksText(cs), size + NL, data, [c]);
    case Over(h, cs, size, trailers, blank, surplus) =>
      Glue2(blank + NL, surplus, [c]);
      Glue5(HeadText(h), ChunksText(cs), size + NL, LinesText(trailers), blank + NL + surplus, [c]);
  }

  lemma ExtendGood(cb: Callbacks, t: Text, c: char)
    requires Good(cb, t) && Extend(cb, t, c).Some?
    ensures Good(cb, Extend(cb, t, c).value) && Print(Extend(cb, t, c).value) == Print(t) + [c]
  {
    hide Good, Print, NextLine, Longer, MoreData, Refusal, Dangles;
    if !LineOpen(t) {
      DataGood(cb, t, c);
      DataPrint(cb, t, c);
    } else if c != '\n' {
      LongerGood(cb, t, c);
      LongerPrint(t, c);
    } else {
      NextLineGood(cb, t);
      NextLinePrint(cb, t);
    }
  }

  // ---------------------------------------------------------------------------
  // Refused lines
  // ---------------------------------------------------------------------------

  lemma HeaderRefused(p: Parser, part: string)
    requires p.done.None? && p.phase == Headers && Lacks(part, '\n') && !Blank(part) && !RawOk(part)
    requires !Dangling(p, TrimRight(part))
    ensures HeaderStep(p, TrimRight(part), "\n") == Finish(p, HE_PROTOCOL)
  {
    var line := TrimRight(part);
    TrimmedEnd(part);
    var split := SplitHeader(line);
    if split.Some? && IsContentLength(split.value.0) {
      NumberStaysInLine(split.value.1, "\n", 10);
    }
    hide TrimRight, SplitHeader, StrToUl, EqualIgnoringCase;
  }

  lemma SizeRefused(p: Parser, part: string)
    requires p.done.None? && p.phase == ChunkSize && SizeOf(part).None?
    ensures ChunkSizeStep(p, TrimRight(part), "\n").done == Some(HE_PROTOCOL)
  {
    var line := TrimRight(part);
    TrimmedEnd(part);
    if line != "" {
      NumberStaysInLine(line, "\n", 16);
    }
    hide TrimRight, StrToUl;
  }

  /** A refused line ends the parse with its error, and a valueless Content-Length leaves
      the outcome open. */
  lemma RefusedMeans(cb: Callbacks, t: Text)
    requires Good(cb, t) && LineOpen(t)
    ensures Refusal(cb, t).Some? ==>
      var m := Feed(cb, StateOf(cb, t), '\n'); m.At? && m.p.done == Refusal(cb, t) && m.pending == ""
    ensures Dangles(t) ==> Feed(cb, StateOf(cb, t), '\n') == Indeterminate
  {
    if t.InHeaders? {
      HeadersRefused(cb, t);
    } else {
      OthersRefused(cb, t);
    }
  }

  lemma OthersRefused(cb: Callbacks, t: Text)
    requires Good(cb, t) && LineOpen(t) && !t.InHeaders?
    ensures Refusal(cb, t).Some? ==>
      var m := Feed(cb, StateOf(cb, t), '\n'); m.At? && m.p.done == Refusal(cb, t) && m.pending == ""
  {
    hide TrimRight, SplitHeader, StrToUl, HeaderStep, ChunkSizeStep, SizeOf, HeadOk, Coding, HeadersOf, Verdict, ChunksOk;
    if t.InSize? && SizeOf(t.part).None? {
      SizeRefused(StateOf(cb, t).p, t.part);
    }
  }

  lemma HeadersRefused(cb: Callbacks, t: Text)
    requires t.InHeaders? && Good(cb, t)
    ensures Refusal(cb, t).Some? ==>
      var m := Feed(cb, StateOf(cb, t), '\n'); m.At? && m.p.done == Refusal(cb, t) && m.pending == ""
    ensures Dangles(t) ==> Feed(cb, StateOf(cb, t), '\n') == Indeterminate
  {
    hide TrimRight, SplitHeader, StrToUl, HeaderStep, Coding, Length, HeadersOf, RawOk, RawsOk;
    var p := StateOf(cb, t).p;
    if Refusal(cb, t).Some? && !Blank(t.part) {
      HeaderRefused(p, t.part);
    } else if Blank(t.part) {
      NoDangling(p);
    }
  }

  // ---------------------------------------------------------------------------
  // The parser is the grammar
  // ---------------------------------------------------------------------------

  ghost predicate IsText(cb: Callbacks, s: string) { exists t :: Good(cb, t) && Print(t) == s }

  /** A text up to a line that is refused with this error, and any bytes behind it. */
  ghost predicate Breaks(cb: Callbacks, s: string, e: HttpError)
  {
    exists t, surplus :: Good(cb, t) && Refusal(cb, t) == Some(e) && s == Print(t) + NL + surplus
  }

  lemma RefusalInLine(cb: Callbacks, t: Text)
    requires Good(cb, t)
    ensures Refusal(cb, t).Some? ==> LineOpen(t)
    ensures Refusal(cb, t) != Some(HE_NONE)
  {
    hide TrimRight, SplitHeader, HeadOk, Verdict;
  }

  lemma FeedOne(cb: Callbacks, s: string, c: char)
    ensures Reference(cb, s + [c]) == Feed(cb, Reference(cb, s), c)
  {
    hide Feed;
    assert (s + [c])[..|s|] == s;
  }

  lemma BreaksMeans(cb: Callbacks, s: string, e: HttpError)
    requires Breaks(cb, s, e)
    ensures Reference(cb, s).At? && Reference(cb, s).p.done == Some(e) && e != HE_NONE
  {
    hide Good, StateOf, Print, Refusal, FeedAll, Feed, LineOpen;
    var t, surplus :| Good(cb, t) && Refusal(cb, t) == Some(e) && s == Print(t) + NL + surplus;
    TextMeans(cb, t);
    RefusalInLine(cb, t);
    RefusedMeans(cb, t);
    FeedOne(cb, Print(t), '\n');
    FeedAllAppend(cb, Start(Initial), Print(t) + NL, surplus);
    var m := Feed(cb, StateOf(cb, t), '\n');
    FeedHeld(cb, m.p, "", surplus);
  }

  lemma TextDone(cb: Callbacks, t: Text)
    requires Good(cb, t)
    ensures StateOf(cb, t).At? && (StateOf(cb, t).p.done == None || StateOf(cb, t).p.done == Some(HE_NONE))
  {
    hide HeadOk, Coding, Length, HeadersOf, TrimRight, Verdict, RawsOk, SizeOf;
  }

  lemma TextGrows(cb: Callbacks, s: string, c: char)
    requires IsText(cb, s)
    ensures IsText(cb, s + [c]) || (exists e :: Breaks(cb, s + [c], e)) || Reference(cb, s + [c]) == Indeterminate
  {
    hide Good, StateOf, Print, Refusal, FeedAll, Feed, LineOpen, Dangles, MoreData, NextLine, Longer;
    var t :| Good(cb, t) && Print(t) == s;
    TextMeans(cb, t);
    FeedOne(cb, s, c);
    if Extend(cb, t, c).Some? {
      ExtendGood(cb, t, c);
    } else {
      RefusedMeans(cb, t);
      if Refusal(cb, t).Some? {
        assert Print(t) + NL + "" == s + [c];
        assert Breaks(cb, s + [c], Refusal(cb, t).value);
      }
    }
  }

  lemma BreaksGrows(cb: Callbacks, s: string, e: HttpError, c: char)
    requires Breaks(cb, s, e)
    ensures Breaks(cb, s + [c], e)
  {
    hide Good, Print, Refusal;
    var t, surplus :| Good(cb, t) && Refusal(cb, t) == Some(e) && s == Print(t) + NL + surplus;
    Glue2(Print(t) + NL, surplus, [c]);
  }

  lemma {:induction false} Covered(cb: Callbacks, s: string)
    ensures IsText(cb, s) || (exists e :: Breaks(cb, s, e)) || Reference(cb, s) == Indeterminate
  {
    if s == "" {
      assert Good(cb, InLeader("")) && Print(InLeader("")) == "";
    } else {
      hide IsText, Breaks, FeedAll, Feed;
      var r, c := s[..|s| - 1], s[|s| - 1];
      assert s == r + [c];
      Covered(cb, r);
      FeedOne(cb, r, c);
      if IsText(cb, r) {
        TextGrows(cb, r, c);
      } else if e :| Breaks(cb, r, e) {
        BreaksGrows(cb, r, e, c);
      } else {
        FeedLost(cb, c);
      }
    }
  }

  lemma FeedLost(cb: Callbacks, c: char)
    ensures Feed(cb, Indeterminate, c) == Indeterminate
  {
  }

  /** A stream is a message, or the beginning of one, if and only if the parser has not
      reported an error on it (nor met a valueless Content-Length). */
  lemma MessageIff(cb: Callbacks, s: string)
    ensures IsText(cb, s) <==>
      var m := Reference(cb, s); m.At? && (m.p.done == None || m.p.done == Some(HE_NONE))
  {
    hide Breaks, FeedAll, Good, Print, StateOf;
    if IsText(cb, s) {
      var t :| Good(cb, t) && Print(t) == s;
      TextMeans(cb, t);
      TextDone(cb, t);
    } else {
      Covered(cb, s);
      if e :| Breaks(cb, s, e) {
        BreaksMeans(cb, s, e);
      }
    }
  }

  /** It reports an error if and only if some line is refused with it: by the owner, or as
      a violation of the protocol. */
  lemma ErrorIff(cb: Callbacks, s: string, e: HttpError)
    requires e != HE_NONE
    ensures Breaks(cb, s, e) <==> Reference(cb, s).At? && Reference(cb, s).p.done == Some(e)
  {
    hide Breaks, FeedAll, IsText;
    if Breaks(cb, s, e) {
      BreaksMeans(cb, s, e);
    } else {
      Covered(cb, s);
      MessageIff(cb, s);
      if f :| Breaks(cb, s, f) {
        BreaksMeans(cb, s, f);
      }
    }
  }

  /** However a text arrives, in whatever pieces and with whatever memory behind them, the
      parser ends up in the text's state. */
  lemma SessionMeans(cb: Callbacks, t: Text, arrivals: seq<Read>)
    requires Good(cb, t) && Received(arrivals) == Print(t)
    ensures var (p, rest) := Session(cb, arrivals); At(p, rest) == StateOf(cb, t)
  {
    hide Good, StateOf, Print, FeedAll, Session, Received;
    TextMeans(cb, t);
    TextDone(cb, t);
    SessionIsReference(cb, arrivals);
  }

  /** A body of which neither length nor chunks were announced: all bytes behind the head
      are handed over, and the parser waits for more. */
  lemma OpenBody(cb: Callbacks, h: Head, data: string, arrivals: seq<Read>)
    requires PlainHead(cb, h) && Verdict(cb, h).0 == SIZE_UNKNOWN && Received(arrivals) == HeadText(h) + data
    ensures var (p, rest) := Session(cb, arrivals);
      && p.leader == TrimRight(h.lead) && p.headers == HeadersOf(h.raws) && p.body == data
      && p.done == None && rest == ""
  {
    hide Session, Received, HeadText, Coding, Length, HeadersOf, TrimRight;
    SessionMeans(cb, InBody(h, data), arrivals);
  }

  /** A text to which any data may be added: behind a head without chunks whose size is
      not known, or in a chunk that announces the largest size there is. */
  predicate Unbounded(cb: Callbacks, t: Text)
    requires Good(cb, t)
  {
    || (t.InBody? && Verdict(cb, t.head).0 == SIZE_UNKNOWN)
    || (t.InChunk? && SizeOf(t.size) == Some(SIZE_UNKNOWN))
  }

  ghost predicate EndsOpen(cb: Callbacks, s: string)
  {
    exists t :: Good(cb, t) && Print(t) == s && Unbounded(cb, t)
  }

  lemma UnboundedIff(cb: Callbacks, t: Text)
    requires Good(cb, t) && StateOf(cb, t).p.done == None
    ensures Unbounded(cb, t) <==> var p := StateOf(cb, t).p; p.phase == Data && p.size == SIZE_UNKNOWN
  {
    hide HeadOk, Coding, Length, HeadersOf, TrimRight, Verdict, RawsOk, SizeOf, ChunksOk;
  }

  lemma EndsOpenIff(cb: Callbacks, s: string)
    requires var m := Reference(cb, s); m.At? && m.p.done == None
    ensures EndsOpen(cb, s) <==> var p := Reference(cb, s).p; p.phase == Data && p.size == SIZE_UNKNOWN
  {
    hide Good, StateOf, Print, FeedAll, Unbounded;
    MessageIff(cb, s);
    if EndsOpen(cb, s) {
      var t :| Good(cb, t) && Print(t) == s && Unbounded(cb, t);
      TextMeans(cb, t);
      UnboundedIff(cb, t);
    } else {
      var t :| Good(cb, t) && Print(t) == s;
      TextMeans(cb, t);
      UnboundedIff(cb, t);
    }
  }
}
