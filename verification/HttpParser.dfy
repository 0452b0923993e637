/** The incremental HTTP parser of base/httpbase.cc (`HttpParser::Process` and
    `ProcessLine`) as functions on values, a byte-at-a-time reference machine, and
    the proof that how the stream is cut into reads makes no difference. */
module HttpParser {
  import opened Wrappers
  import opened HttpText

  datatype Phase = Leader | Headers | ChunkSize | ChunkTerm | Trailers | Data

  type Header = (string, string)

  /** The verdicts of the parser's owner: on the leader line, and on the finished
      header block, where it may also replace the announced size. */
  datatype Callbacks = Callbacks(
    leader: string -> HttpError,
    headersDone: (string, seq<Header>, bool, size_t) -> (size_t, HttpError))

  /** Parser fields together with everything reported so far. `done` holds the
      error code once `Process` has returned PR_COMPLETE. */
  datatype Parser = Parser(phase: Phase, chunked: bool, size: size_t,
                           leader: string, headers: seq<Header>, body: string,
                           done: Option<HttpError>)

  const Initial: Parser := Parser(Leader, false, SIZE_UNKNOWN, "", [], "", None)

  predicate InLine(p: Parser) { p.phase != Data }

  function Finish(p: Parser, e: HttpError): Parser { p.(done := Some(e)) }

  /** Name and value of a header line: the name ends at the first ':' that no NUL
      precedes, the value starts at the next character that is not white space. */
  function SplitHeader(line: string): (r: Option<(string, string)>)
    ensures r.Some? ==> |r.value.0| + |r.value.1| < |line|
    ensures r.Some? && line != "" && !IsSpace(line[|line| - 1]) ==>
              r.value.1 == "" || (!IsSpace(r.value.1[0]) && !IsSpace(r.value.1[|r.value.1| - 1]))
  {
    var n := IndexOf(line, ':');
    if n == |line| || IndexOf(line, '\0') < n then None
    else Some((line[..n], line[SkipSpace(line, n + 1)..]))
  }

  function ScanLength(p: Parser, value: string, beyond: string): (r: Option<Parser>)
  {
    match StrToUl(value + beyond, 10)
    case NoConversion => None
    case Number(v, _) => Some(p.(size := v))
  }

  function SetEncoding(p: Parser, value: string): (r: Option<Parser>)
  {
    if EqualIgnoringCase(value, "chunked") then Some(p.(chunked := true))
    else if EqualIgnoringCase(value, "identity") then Some(p.(chunked := false))
    else None
  }

  function HeaderStep(p: Parser, line: string, beyond: string): Parser
  {
    match SplitHeader(line)
    case None => Finish(p, HE_PROTOCOL)
    case Some((name, value)) =>
      var q := if IsContentLength(name) then ScanLength(p, value, beyond)
               else if IsTransferEncoding(name) then SetEncoding(p, value)
               else Some(p);
      if q.None? then Finish(p, HE_PROTOCOL)
      else q.value.(headers := p.headers + [(name, value)])
  }

  function ChunkSizeStep(p: Parser, line: string, beyond: string): Parser
  {
    if line == "" then Finish(p, HE_PROTOCOL)
    else
      match StrToUl(line + beyond, 16)
      case NoConversion => Finish(p.(size := 0), HE_PROTOCOL)
      case Number(v, end) =>
        var q := p.(size := v);
        if end != |line| then Finish(q, HE_PROTOCOL)
        else if v == 0 then q.(phase := Trailers) else q.(phase := Data)
  }

  /** `ProcessLine`. `line` is trimmed; `beyond` is the memory that follows it,
      which the unbounded number scanners are free to look at. */
  function LineStep(cb: Callbacks, p: Parser, line: string, beyond: string): Parser
  {
    match p.phase
    case Leader =>
      var q := p.(phase := Headers, leader := line);
      if cb.leader(line) == HE_NONE then q else Finish(q, cb.leader(line))
    case Headers =>
      if line != "" then HeaderStep(p, line, beyond)
      else
        var (size, e) := cb.headersDone(p.leader, p.headers, p.chunked, p.size);
        var q := p.(phase := if p.chunked then ChunkSize else Data, size := size);
        if e == HE_NONE then q else Finish(q, e)
    case ChunkSize => ChunkSizeStep(p, line, beyond)
    case ChunkTerm =>
      if line != "" then Finish(p, HE_PROTOCOL)
      else p.(phase := if p.chunked then ChunkSize else Data)
    case Trailers => if line == "" then Finish(p, HE_NONE) else p
    case Data => p
  }

  function Deliver(p: Parser, data: string): Parser
    requires p.size == SIZE_UNKNOWN || |data| <= p.size
  {
    p.(body := p.body + data, size := if p.size == SIZE_UNKNOWN then p.size else p.size - |data|)
  }

  function Offered(p: Parser, buf: string): (n: nat)
    ensures n <= |buf|
    ensures p.size != SIZE_UNKNOWN ==> n <= p.size
    ensures buf != "" && p.size != 0 ==> 0 < n
  {
    if p.size != SIZE_UNKNOWN && |buf| > p.size then p.size else |buf|
  }

  /** One `Process` call on the buffered bytes `buf`, with `stale` in the memory
      behind them: the new parser and the bytes left unprocessed. */
  function Process(cb: Callbacks, p: Parser, buf: string, stale: string): (r: (Parser, string))
    decreases |buf|, if p.phase.Data? then 1 else 0
  {
    if p.done.Some? then (p, buf)
    else if InLine(p) then
      var k := IndexOf(buf, '\n');
      if k == |buf| then (p, buf)
      else
        var line := TrimRight(buf[..k]);
        Process(cb, LineStep(cb, p, line, buf[|line|..] + stale), buf[k + 1..], stale)
    else if p.size == 0 then
      if p.chunked then Process(cb, p.(phase := ChunkTerm), buf, stale)
      else (Finish(p, HE_NONE), buf)
    else if buf == "" then (p, buf)
    else
      var n := Offered(p, buf);
      Process(cb, Deliver(p, buf[..n]), buf[n..], stale)
  }

  lemma ProcessOneLine(cb: Callbacks, p: Parser, buf: string, stale: string, k: nat)
    requires p.done.None? && InLine(p) && k < |buf| && k == IndexOf(buf, '\n')
    ensures var line := TrimRight(buf[..k]);
      |line| <= k && Process(cb, p, buf, stale)
      == Process(cb, LineStep(cb, p, line, buf[|line|..] + stale), buf[k + 1..], stale)
  {
    hide LineStep, IndexOf, Offered;
  }

  lemma ProcessOneBlock(cb: Callbacks, p: Parser, buf: string, stale: string)
    requires p.done.None? && p.phase == Data && p.size != 0 && buf != ""
    ensures var n := Offered(p, buf);
      Process(cb, p, buf, stale) == Process(cb, Deliver(p, buf[..n]), buf[n..], stale)
  {
    hide LineStep, IndexOf, TrimRight;
  }

  /** A connection as `DoReceiveLoop` drives it: each read delivers some bytes, which
      join the carried-over suffix; `stale` is whatever the buffer held behind them. */
  datatype Read = Read(bytes: string, stale: string)

  function Session(cb: Callbacks, arrivals: seq<Read>): (Parser, string)
  {
    if arrivals == [] then (Initial, "")
    else
      var last := arrivals[|arrivals| - 1];
      var (p, rest) := Session(cb, arrivals[..|arrivals| - 1]);
      Process(cb, p, rest + last.bytes, last.stale)
  }

  function Received(arrivals: seq<Read>): string
  {
    if arrivals == [] then "" else Received(arrivals[..|arrivals| - 1]) + arrivals[|arrivals| - 1].bytes
  }

  lemma SessionSnoc(cb: Callbacks, arrivals: seq<Read>, r: Read)
    ensures var (p, rest) := Session(cb, arrivals);
            Session(cb, arrivals + [r]) == Process(cb, p, rest + r.bytes, r.stale)
    ensures Received(arrivals + [r]) == Received(arrivals) + r.bytes
  {
    assert (arrivals + [r])[..|arrivals|] == arrivals;
  }

  // ---------------------------------------------------------------------------
  // The reference: one byte at a time, no buffer.
  // ---------------------------------------------------------------------------

  /** `pending` is the unfinished line (or, after completion, the surplus bytes).
      `Indeterminate` is reached by a Content-Length header without a value, whose
      number the scanner takes from memory outside the line. */
  datatype Machine = Indeterminate | At(p: Parser, pending: string)

  predicate Dangling(p: Parser, line: string)
  {
    p.phase == Headers &&
    match SplitHeader(line)
    case None => false
    case Some((name, value)) => IsContentLength(name) && value == ""
  }

  /** Transitions that need no further input. */
  function Settle(p: Parser): Parser
  {
    if p.done.None? && p.phase == Data && p.size == 0 then
      if p.chunked then p.(phase := ChunkTerm) else Finish(p, HE_NONE)
    else p
  }

  function Feed(cb: Callbacks, m: Machine, c: char): Machine
  {
    match m
    case Indeterminate => Indeterminate
    case At(p, pending) =>
      if p.done.Some? then At(p, pending + [c])
      else if InLine(p) then
        if c != '\n' then At(p, pending + [c])
        else
          var line := TrimRight(pending);
          if Dangling(p, line) then Indeterminate
          else At(Settle(LineStep(cb, p, line, "\n")), "")
      else if p.size == 0 then m
      else At(Settle(Deliver(p, [c])), "")
  }

  function FeedAll(cb: Callbacks, m: Machine, s: string): Machine
  {
    if s == "" then m else Feed(cb, FeedAll(cb, m, s[..|s| - 1]), s[|s| - 1])
  }

  function Start(p: Parser): Machine { At(Settle(p), "") }

  lemma {:induction false} FeedAllAppend(cb: Callbacks, m: Machine, a: string, b: string)
    ensures FeedAll(cb, m, a + b) == FeedAll(cb, FeedAll(cb, m, a), b)
  {
    hide Feed;
    if b == "" {
      assert a + b == a;
    } else {
      assert (a + b)[..|a + b| - 1] == a + b[..|b| - 1];
      FeedAllAppend(cb, m, a, b[..|b| - 1]);
    }
  }

  lemma FeedAllCons(cb: Callbacks, m: Machine, s: string)
    requires s != ""
    ensures FeedAll(cb, m, s) == FeedAll(cb, Feed(cb, m, s[0]), s[1..])
  {
    hide Feed;
    assert s == s[..1] + s[1..] && s[..1][..0] == "";
    FeedAllAppend(cb, m, s[..1], s[1..]);
    assert FeedAll(cb, m, s[..1]) == Feed(cb, FeedAll(cb, m, s[..1][..0]), s[0]);
  }

  lemma {:induction false} IndeterminateStays(cb: Callbacks, s: string)
    ensures FeedAll(cb, Indeterminate, s) == Indeterminate
  {
    hide LineStep, TrimRight, Deliver, Settle, Dangling;
    if s != "" { IndeterminateStays(cb, s[..|s| - 1]); }
  }

  /** A line under construction, or surplus after completion, just accumulates. */
  lemma {:induction false} FeedHeld(cb: Callbacks, p: Parser, pending: string, s: string)
    requires p.done.Some? || (InLine(p) && Lacks(s, '\n'))
    ensures FeedAll(cb, At(p, pending), s) == At(p, pending + s)
  {
    hide LineStep, TrimRight, Deliver, Settle, Dangling;
    if s == "" {
      assert pending + s == pending;
    } else {
      FeedHeld(cb, p, pending, s[..|s| - 1]);
      assert pending + s[..|s| - 1] + [s[|s| - 1]] == pending + s;
    }
  }

  /** Body bytes one by one amount to one block delivery. */
  lemma FeedAfterBlock(cb: Callbacks, p: Parser, s: string, c: char)
    requires p.done.None? && p.phase == Data
    requires p.size == SIZE_UNKNOWN || |s| < p.size
    ensures Feed(cb, At(Settle(Deliver(p, s)), ""), c) == At(Settle(Deliver(p, s + [c])), "")
  {
    hide LineStep, TrimRight, Dangling;
    assert p.body + s + [c] == p.body + (s + [c]);
  }

  lemma {:induction false} FeedBlock(cb: Callbacks, p: Parser, s: string)
    requires p.done.None? && p.phase == Data && p.size != 0
    requires p.size == SIZE_UNKNOWN || |s| <= p.size
    ensures FeedAll(cb, At(p, ""), s) == At(Settle(Deliver(p, s)), "")
  {
    hide Feed;
    if s == "" {
      assert p.body + s == p.body;
    } else {
      var t, c := s[..|s| - 1], s[|s| - 1];
      FeedBlock(cb, p, t);
      FeedAfterBlock(cb, p, t, c);
      assert t + [c] == s;
    }
  }

  lemma HeaderLocal(p: Parser, line: string, beyond: string)
    requires line != "" && !IsSpace(line[|line| - 1])
    requires beyond != "" && IsSpace(beyond[0])
    requires p.phase == Headers && !Dangling(p, line)
    ensures HeaderStep(p, line, beyond) == HeaderStep(p, line, "\n")
  {
    var split := SplitHeader(line);
    if split.Some? && IsContentLength(split.value.0) {
      NumberStaysInLine(split.value.1, beyond, 10);
      NumberStaysInLine(split.value.1, "\n", 10);
    }
  }

  /** Whatever memory follows a line, the line's effect is the same, unless it is a
      Content-Length header without a value. */
  lemma LineLocal(cb: Callbacks, p: Parser, line: string, beyond: string)
    requires line == "" || !IsSpace(line[|line| - 1])
    requires beyond != "" && IsSpace(beyond[0])
    requires !Dangling(p, line)
    ensures LineStep(cb, p, line, beyond) == LineStep(cb, p, line, "\n")
  {
    if line == "" {
    } else if p.phase == ChunkSize {
      NumberStaysInLine(line, beyond, 16);
      NumberStaysInLine(line, "\n", 16);
    } else if p.phase == Headers {
      HeaderLocal(p, line, beyond);
    }
  }

  /** `Process` and the reference agree on every buffer and every stale memory. */
  lemma {:induction false} ProcessIsFeed(cb: Callbacks, p: Parser, buf: string, stale: string)
    requires FeedAll(cb, Start(p), buf) != Indeterminate
    ensures var (q, rest) := Process(cb, p, buf, stale); FeedAll(cb, Start(p), buf) == At(q, rest)
    decreases |buf|, if p.phase.Data? then 1 else 0
  {
    hide Feed, LineStep, TrimRight, IndexOf;
    if p.done.Some? {
      FeedHeld(cb, p, "", buf);
      assert "" + buf == buf;
    } else if InLine(p) {
      ProcessLineIsFeed(cb, p, buf, stale);
    } else if p.size == 0 {
      if p.chunked {
        ProcessIsFeed(cb, p.(phase := ChunkTerm), buf, stale);
      } else {
        FeedHeld(cb, Finish(p, HE_NONE), "", buf);
        assert "" + buf == buf;
      }
    } else if buf != "" {
      var n := Offered(p, buf);
      FeedBlock(cb, p, buf[..n]);
      assert buf == buf[..n] + buf[n..];
      FeedAllAppend(cb, At(p, ""), buf[..n], buf[n..]);
      ProcessIsFeed(cb, Deliver(p, buf[..n]), buf[n..], stale);
    }
  }

  lemma {:induction false} ProcessLineIsFeed(cb: Callbacks, p: Parser, buf: string, stale: string)
    requires p.done.None? && InLine(p)
    requires FeedAll(cb, Start(p), buf) != Indeterminate
    ensures var (q, rest) := Process(cb, p, buf, stale); FeedAll(cb, Start(p), buf) == At(q, rest)
    decreases |buf|, 0, 0
  {
    hide Feed, LineStep, Deliver, Offered;
    var k := IndexOf(buf, '\n');
    if k == |buf| {
      assert buf[..k] == buf;
      FeedHeld(cb, p, "", buf);
      assert "" + buf == buf;
    } else {
      var line := TrimRight(buf[..k]);
      var beyond := buf[|line|..] + stale;
      FirstLine(cb, p, buf, k);
      FirstLineStep(cb, p, buf, k, beyond);
      ProcessIsFeed(cb, LineStep(cb, p, line, beyond), buf[k + 1..], stale);
    }
  }

  lemma FirstLineStep(cb: Callbacks, p: Parser, buf: string, k: nat, beyond: string)
    requires p.done.None? && InLine(p)
    requires k < |buf| && buf[k] == '\n'
    requires FeedAll(cb, Feed(cb, At(p, buf[..k]), '\n'), buf[k + 1..]) != Indeterminate
    requires buf[|TrimRight(buf[..k])|..] <= beyond
    ensures Feed(cb, At(p, buf[..k]), '\n') == Start(LineStep(cb, p, TrimRight(buf[..k]), beyond))
  {
    hide LineStep;
    var line := TrimRight(buf[..k]);
    IndeterminateStays(cb, buf[k + 1..]);
    assert beyond[0] == buf[|line|];
    LineLocal(cb, p, line, beyond);
  }

  lemma FirstLine(cb: Callbacks, p: Parser, buf: string, k: nat)
    requires p.done.None? && InLine(p)
    requires k < |buf| && buf[k] == '\n' && LacksBefore(buf, k, '\n')
    ensures FeedAll(cb, At(p, ""), buf) == FeedAll(cb, Feed(cb, At(p, buf[..k]), '\n'), buf[k + 1..])
  {
    hide Feed;
    assert buf == buf[..k] + buf[k..];
    FeedAllAppend(cb, At(p, ""), buf[..k], buf[k..]);
    FeedHeld(cb, p, "", buf[..k]);
    assert "" + buf[..k] == buf[..k];
    FeedAllCons(cb, At(p, buf[..k]), buf[k..]);
    assert buf[k..][1..] == buf[k + 1..];
  }

  /** States in which the reference waits for more input. */
  predicate Settled(m: Machine)
  {
    m.At? ==>
      && m.p == Settle(m.p)
      && (m.p.done.Some? || (if InLine(m.p) then Lacks(m.pending, '\n') else m.pending == ""))
  }

  lemma {:induction false} FeedAllSettled(cb: Callbacks, m: Machine, s: string)
    requires Settled(m)
    ensures Settled(FeedAll(cb, m, s))
  {
    hide LineStep, TrimRight, Dangling;
    if s != "" { FeedAllSettled(cb, m, s[..|s| - 1]); }
  }

  /** Restarting on the carried-over suffix recovers the state it was carried from. */
  lemma Resume(cb: Callbacks, p: Parser, rest: string)
    requires Settled(At(p, rest))
    ensures FeedAll(cb, Start(p), rest) == At(p, rest)
  {
    if p.done.Some? || InLine(p) {
      FeedHeld(cb, p, "", rest);
      assert "" + rest == rest;
    }
  }

  ghost function Reference(cb: Callbacks, s: string): Machine { FeedAll(cb, Start(Initial), s) }

  /** Fragmentation independence: however the stream is cut into reads, and whatever
      lies in the buffer behind them, the parser's fields, its reports, its verdict and
      the unprocessed bytes are those of the byte-at-a-time reference. */
  lemma {:induction false} SessionIsReference(cb: Callbacks, arrivals: seq<Read>)
    requires Reference(cb, Received(arrivals)) != Indeterminate
    ensures var (p, rest) := Session(cb, arrivals); Reference(cb, Received(arrivals)) == At(p, rest)
  {
    hide Process, Feed;
    if arrivals != [] {
      var before := arrivals[..|arrivals| - 1];
      var last := arrivals[|arrivals| - 1];
      var m := Reference(cb, Received(before));
      FeedAllAppend(cb, Start(Initial), Received(before), last.bytes);
      IndeterminateStays(cb, last.bytes);
      SessionIsReference(cb, before);
      FeedAllSettled(cb, Start(Initial), Received(before));
      Resume(cb, m.p, m.pending);
      FeedAllAppend(cb, Start(m.p), m.pending, last.bytes);
      ProcessIsFeed(cb, m.p, m.pending + last.bytes, last.stale);
    }
  }

  // ---------------------------------------------------------------------------
  // The condition is exact: a Content-Length header without a value makes the
  // outcome depend on the cut and on stale memory.
  // ---------------------------------------------------------------------------

  ghost function Bytewise(s: string, stale: string): seq<Read>
  {
    if s == "" then [] else Bytewise(s[..|s| - 1], stale) + [Read([s[|s| - 1]], stale)]
  }

  lemma {:induction false} BytewiseReceived(s: string, stale: string)
    ensures Received(Bytewise(s, stale)) == s
  {
    if s != "" {
      BytewiseReceived(s[..|s| - 1], stale);
      assert Bytewise(s, stale)[..|Bytewise(s, stale)| - 1] == Bytewise(s[..|s| - 1], stale);
    }
  }

  lemma BytewiseSession(cb: Callbacks, s: string, stale: string)
    requires s != ""
    ensures var (p, rest) := Session(cb, Bytewise(s[..|s| - 1], stale));
            Session(cb, Bytewise(s, stale)) == Process(cb, p, rest + [s[|s| - 1]], stale)
  {
    hide Process;
    var a := Bytewise(s, stale);
    assert a[..|a| - 1] == Bytewise(s[..|s| - 1], stale) && a[|a| - 1] == Read([s[|s| - 1]], stale);
  }

  lemma LineKeepsHeaders(cb: Callbacks, p: Parser, line: string, beyond: string)
    ensures p.headers <= LineStep(cb, p, line, beyond).headers
  {
    if p.phase == Headers && line != "" {
      assert p.headers <= HeaderStep(p, line, beyond).headers;
    } else if p.phase == ChunkSize {
      assert p.headers <= ChunkSizeStep(p, line, beyond).headers;
    }
  }

  lemma {:induction false} HeadersOnlyGrow(cb: Callbacks, p: Parser, buf: string, stale: string)
    ensures |p.headers| <= |Process(cb, p, buf, stale).0.headers|
    decreases |buf|, if p.phase.Data? then 1 else 0
  {
    hide LineStep, TrimRight, IndexOf;
    if p.done.Some? {
    } else if InLine(p) {
      var k := IndexOf(buf, '\n');
      if k < |buf| {
        var line := TrimRight(buf[..k]);
        var q := LineStep(cb, p, line, buf[|line|..] + stale);
        LineKeepsHeaders(cb, p, line, buf[|line|..] + stale);
        HeadersOnlyGrow(cb, q, buf[k + 1..], stale);
      }
    } else if p.size == 0 {
      if p.chunked { HeadersOnlyGrow(cb, p.(phase := ChunkTerm), buf, stale); }
    } else if buf != "" {
      var n := Offered(p, buf);
      HeadersOnlyGrow(cb, Deliver(p, buf[..n]), buf[n..], stale);
    }
  }

  lemma {:induction false} ScanBlank(ws: string, i: nat, c: char)
    requires i <= |ws| && forall j :: 0 <= j < |ws| ==> IsSpace(ws[j])
    requires !IsSpace(c)
    ensures SkipSpace(ws + [c], i) == |ws|
    decreases |ws| - i
  {
    if i < |ws| { ScanBlank(ws, i + 1, c); }
  }

  lemma ScanStale(ws: string)
    requires forall j :: 0 <= j < |ws| ==> IsSpace(ws[j])
    ensures StrToUl(ws + "x", 10).NoConversion?
    ensures StrToUl(ws + "5", 10).Number?
  {
    ScanBlank(ws, 0, 'x');
    ScanBlank(ws, 0, '5');
    assert DigitEnd(ws + "5", |ws|, 10) == |ws| + 1;
  }

  /** The valueless header itself: stale memory decides between an error and a header. */
  lemma DanglingLine(cb: Callbacks, p: Parser, line: string, ws: string)
    requires Dangling(p, line) && line != ""
    requires forall j :: 0 <= j < |ws| ==> IsSpace(ws[j])
    ensures LineStep(cb, p, line, ws + "x") == Finish(p, HE_PROTOCOL)
    ensures var q := LineStep(cb, p, line, ws + "5"); |q.headers| == |p.headers| + 1 && InLine(q)
  {
    ScanStale(ws);
    assert "" + (ws + "x") == ws + "x" && "" + (ws + "5") == ws + "5";
  }

  lemma DanglingStep(cb: Callbacks, p: Parser, pending: string)
    requires p.done.None? && InLine(p) && Lacks(pending, '\n')
    requires Dangling(p, TrimRight(pending))
    ensures Process(cb, p, pending + "\n", "x").0 == Finish(p, HE_PROTOCOL)
    ensures |Process(cb, p, pending + "\n", "5").0.headers| == |p.headers| + 1
  {
    hide LineStep, TrimRight, IndexOf, Offered, Deliver;
    var buf := pending + "\n";
    var line := TrimRight(pending);
    IndexOfIs(buf, '\n', |pending|);
    assert buf[..|pending|] == pending && buf[|pending| + 1..] == "";
    DanglingLine(cb, p, line, buf[|line|..]);
  }

  lemma {:induction false} StayApart(cb: Callbacks, s: string, n: nat)
    requires n <= |s|
    requires var (p, _) := Session(cb, Bytewise(s[..n], "x"));
             p.done.Some? && |p.headers| < |Session(cb, Bytewise(s[..n], "5")).0.headers|
    ensures Session(cb, Bytewise(s, "x")) != Session(cb, Bytewise(s, "5"))
    decreases |s| - n
  {
    hide LineStep, TrimRight, IndexOf, Offered, Deliver;
    if n == |s| {
      assert s[..n] == s;
    } else {
      var t := s[..n + 1];
      assert t[..|t| - 1] == s[..n];
      BytewiseSession(cb, t, "x");
      BytewiseSession(cb, t, "5");
      var (q, rest) := Session(cb, Bytewise(s[..n], "5"));
      HeadersOnlyGrow(cb, q, rest + [s[n]], "5");
      StayApart(cb, s, n + 1);
    }
  }

  lemma {:induction false} DanglingDiverges(cb: Callbacks, s: string, n: nat)
    requires n < |s|
    requires Reference(cb, s[..n]) != Indeterminate && Reference(cb, s[..n + 1]) == Indeterminate
    ensures Session(cb, Bytewise(s, "x")) != Session(cb, Bytewise(s, "5"))
  {
    hide LineStep, TrimRight, Process, Session;
    var t := s[..n + 1];
    assert t[..|t| - 1] == s[..n];
    var m := Reference(cb, s[..n]);
    BytewiseReceived(s[..n], "x");
    BytewiseReceived(s[..n], "5");
    SessionIsReference(cb, Bytewise(s[..n], "x"));
    SessionIsReference(cb, Bytewise(s[..n], "5"));
    FeedAllSettled(cb, Start(Initial), s[..n]);
    BytewiseSession(cb, t, "x");
    BytewiseSession(cb, t, "5");
    DanglingStep(cb, m.p, m.pending);
    StayApart(cb, s, n + 1);
  }

  lemma {:induction false} FirstIndeterminate(cb: Callbacks, s: string) returns (n: nat)
    requires Reference(cb, s) == Indeterminate
    ensures n < |s|
    ensures Reference(cb, s[..n]) != Indeterminate && Reference(cb, s[..n + 1]) == Indeterminate
  {
    hide Feed;
    n := |s| - 1;
    if Reference(cb, s[..n]) == Indeterminate {
      var k := FirstIndeterminate(cb, s[..n]);
      assert s[..n][..k] == s[..k] && s[..n][..k + 1] == s[..k + 1];
      n := k;
    } else {
      assert s[..n + 1] == s;
    }
  }

  /** The outcome of a stream is independent of its fragmentation (and of stale
      memory) if and only if no valueless Content-Length header is reached in it. */
  lemma IndependentIff(cb: Callbacks, s: string)
    ensures (forall a, b :: Received(a) == s && Received(b) == s ==> Session(cb, a) == Session(cb, b))
            <==> Reference(cb, s) != Indeterminate
  {
    hide Session, Received, FeedAll;
    if Reference(cb, s) == Indeterminate {
      var n := FirstIndeterminate(cb, s);
      DanglingDiverges(cb, s, n);
      BytewiseReceived(s, "x");
      BytewiseReceived(s, "5");
    } else {
      forall a, b | Received(a) == s && Received(b) == s
        ensures Session(cb, a) == Session(cb, b)
      {
        SessionIsReference(cb, a);
        SessionIsReference(cb, b);
      }
    }
  }

  /** Such streams exist: any accepted leader followed by a bare Content-Length line. */
  lemma DanglingStream(cb: Callbacks, lead: string, line: string, nl: string)
    requires Lacks(lead, '\n') && TrimRight(lead) == lead && cb.leader(lead) == HE_NONE
    requires Lacks(line, '\n') && nl == "\n"
    requires SplitHeader(TrimRight(line)) == Some(("Content-Length", ""))
    ensures Reference(cb, lead + nl + (line + nl)) == Indeterminate
  {
    hide FeedAll, TrimRight, SplitHeader, HeaderStep, ChunkSizeStep;
    var s := lead + nl + (line + nl);
    var p := Initial.(phase := Headers, leader := lead);
    assert s[..|lead|] == lead && s[|lead| + 1..] == line + nl;
    FirstLine(cb, Initial, s, |lead|);
    BareContentLength(cb, p, line, nl);
  }

  lemma BareContentLength(cb: Callbacks, p: Parser, line: string, nl: string)
    requires p.done.None? && p.phase == Headers
    requires Lacks(line, '\n') && nl == "\n"
    requires SplitHeader(TrimRight(line)) == Some(("Content-Length", ""))
    ensures FeedAll(cb, At(p, ""), line + nl) == Indeterminate
  {
    hide LineStep;
    var buf := line + nl;
    assert buf[..|line|] == line && buf[|line| + 1..] == "";
    FirstLine(cb, p, buf, |line|);
  }

  lemma SplitBareContentLength(line: string)
    requires line == "Content-Length:"
    ensures TrimRight(line) == line && SplitHeader(line) == Some(("Content-Length", ""))
  {
    IndexOfIs(line, ':', 14);
    IndexOfIs(line, '\0', 15);
    assert line[..14] == "Content-Length" && line[15..] == "";
  }

  lemma ScanFive(ws: string, more: string)
    requires (forall j :: 0 <= j < |ws| ==> IsSpace(ws[j])) && more != "" && !IsDigit(more[0], 10)
    ensures StrToUl(ws + "5" + more, 10).Number?
  {
    var s := ws + "5" + more;
    BlanksSkipped(ws, "5" + more, 0);
    assert ws + ("5" + more) == s;
    assert s[|ws|] == '5';
    assert DigitEnd(s, |ws|, 10) == DigitEnd(s, |ws| + 1, 10) == |ws| + 1;
  }

  /** Also with equal memory behind every read, two cuts of one stream part: read at once,
      the bare Content-Length line takes its number from the next line; read line by line
      it is an error. */
  lemma CutsDiverge(cb: Callbacks, lead: string, line: string, nl: string, stale: string)
    requires Lacks(lead, '\n') && TrimRight(lead) == lead && cb.leader(lead) == HE_NONE
    requires Lacks(line, '\n') && TrimRight(line) == line && nl == "\n" && stale == "x"
    requires SplitHeader(line) == Some(("Content-Length", ""))
    ensures var s := lead + nl + (line + nl);
      var whole, pieces := [Read(s + "5", stale)], [Read(s, stale), Read("5", stale)];
      Received(whole) == Received(pieces) && Session(cb, whole) != Session(cb, pieces)
  {
    hide Process, Session, LineStep, Received, TrimRight, SplitHeader;
    var s := lead + nl + (line + nl);
    TwoReads(cb, s, "5", stale);
    WholeRead(cb, lead, line, nl, stale);
    PiecesRead(cb, lead, line, nl, stale);
  }

  lemma WholeRead(cb: Callbacks, lead: string, line: string, nl: string, stale: string)
    requires Lacks(lead, '\n') && TrimRight(lead) == lead && cb.leader(lead) == HE_NONE
    requires Lacks(line, '\n') && TrimRight(line) == line && nl == "\n" && stale == "x"
    requires SplitHeader(line) == Some(("Content-Length", ""))
    ensures Process(cb, Initial, lead + nl + (line + nl) + "5", stale).0.done.None?
  {
    hide Process, Session, LineStep, TrimRight, SplitHeader;
    var p := Initial.(phase := Headers, leader := lead);
    assert lead + nl + (line + nl) + "5" == lead + nl + (line + nl + "5");
    HeadLine(cb, lead, line + nl + "5", nl, stale);
    BareLine(cb, p, line, nl, "5", stale);
    DanglingNext(cb, p, line, nl, stale);
    ProcessHolds(cb, LineStep(cb, p, line, nl + "5" + stale), "5", stale);
  }

  lemma PiecesRead(cb: Callbacks, lead: string, line: string, nl: string, stale: string)
    requires Lacks(lead, '\n') && TrimRight(lead) == lead && cb.leader(lead) == HE_NONE
    requires Lacks(line, '\n') && TrimRight(line) == line && nl == "\n" && stale == "x"
    requires SplitHeader(line) == Some(("Content-Length", ""))
    ensures var (p, rest) := Process(cb, Initial, lead + nl + (line + nl), stale);
      Process(cb, p, rest + "5", stale).0.done.Some?
  {
    hide Process, Session, LineStep, TrimRight, SplitHeader;
    var p := Initial.(phase := Headers, leader := lead);
    HeadLine(cb, lead, line + nl, nl, stale);
    assert line + nl + "" == line + nl;
    BareLine(cb, p, line, nl, "", stale);
    DanglingNext(cb, p, line, nl, stale);
    ProcessHolds(cb, Finish(p, HE_PROTOCOL), "", stale);
    ProcessHolds(cb, Finish(p, HE_PROTOCOL), "" + "5", stale);
  }

  lemma TwoReads(cb: Callbacks, s: string, t: string, stale: string)
    ensures Session(cb, [Read(s + t, stale)]) == Process(cb, Initial, s + t, stale)
    ensures var (p, rest) := Process(cb, Initial, s, stale);
      Session(cb, [Read(s, stale), Read(t, stale)]) == Process(cb, p, rest + t, stale)
    ensures Received([Read(s + t, stale)]) == Received([Read(s, stale), Read(t, stale)])
  {
    hide Process;
    SessionSnoc(cb, [], Read(s + t, stale));
    SessionSnoc(cb, [], Read(s, stale));
    SessionSnoc(cb, [Read(s, stale)], Read(t, stale));
    assert [] + [Read(s + t, stale)] == [Read(s + t, stale)];
    assert [] + [Read(s, stale)] == [Read(s, stale)];
    assert [Read(s, stale)] + [Read(t, stale)] == [Read(s, stale), Read(t, stale)];
    assert "" + s == s && "" + (s + t) == s + t;
  }

  lemma HeadLine(cb: Callbacks, lead: string, rest: string, nl: string, stale: string)
    requires Lacks(lead, '\n') && TrimRight(lead) == lead && cb.leader(lead) == HE_NONE && nl == "\n"
    ensures Process(cb, Initial, lead + nl + rest, stale)
         == Process(cb, Initial.(phase := Headers, leader := lead), rest, stale)
  {
    hide TrimRight, IndexOf, Process;
    var buf := lead + nl + rest;
    IndexOfIs(buf, '\n', |lead|);
    assert buf[..|lead|] == lead && buf[|lead| + 1..] == rest;
    ProcessOneLine(cb, Initial, buf, stale, |lead|);
  }

  lemma BareLine(cb: Callbacks, p: Parser, line: string, nl: string, t: string, stale: string)
    requires p.done.None? && p.phase == Headers && Lacks(line, '\n') && TrimRight(line) == line && nl == "\n"
    ensures Process(cb, p, line + nl + t, stale) == Process(cb, LineStep(cb, p, line, nl + t + stale), t, stale)
  {
    hide TrimRight, IndexOf, Process, LineStep;
    var buf := line + nl + t;
    IndexOfIs(buf, '\n', |line|);
    assert buf[..|line|] == line && buf[|line| + 1..] == t && buf[|line|..] + stale == nl + t + stale;
    ProcessOneLine(cb, p, buf, stale, |line|);
  }

  lemma DanglingNext(cb: Callbacks, p: Parser, line: string, nl: string, stale: string)
    requires p.done.None? && p.phase == Headers && nl == "\n" && stale == "x"
    requires SplitHeader(line) == Some(("Content-Length", ""))
    ensures LineStep(cb, p, line, nl + "" + stale) == Finish(p, HE_PROTOCOL)
    ensures var q := LineStep(cb, p, line, nl + "5" + stale); q.done.None? && InLine(q)
  {
    hide StrToUl, SplitHeader, LineStep;
    ScanStale(nl);
    ScanFive(nl, stale);
    assert nl + "" + stale == nl + "x";
    DanglingScan(cb, p, line, nl + "x");
    DanglingScan(cb, p, line, nl + "5" + stale);
  }

  lemma DanglingScan(cb: Callbacks, p: Parser, line: string, beyond: string)
    requires p.done.None? && p.phase == Headers && SplitHeader(line) == Some(("Content-Length", ""))
    ensures StrToUl(beyond, 10).NoConversion? ==> LineStep(cb, p, line, beyond) == Finish(p, HE_PROTOCOL)
    ensures StrToUl(beyond, 10).Number? ==>
      var q := LineStep(cb, p, line, beyond); q.done.None? && InLine(q) && |q.headers| == |p.headers| + 1
  {
    assert line != "";
    hide StrToUl, SplitHeader;
    assert "" + beyond == beyond;
  }

  lemma ProcessHolds(cb: Callbacks, p: Parser, t: string, stale: string)
    requires (p.done.Some? || InLine(p)) && Lacks(t, '\n')
    ensures Process(cb, p, t, stale) == (p, t)
  {
    IndexOfIs(t, '\n', |t|);
    hide LineStep, TrimRight;
  }
}
