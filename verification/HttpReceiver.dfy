/** The receiving half of `HttpBase` (base/httpbase.cc) as the object it is: parser
    fields and a 32 KB buffer updated in place, driven by `DoReceiveLoop`. */
module HttpReceiver {
  import opened Wrappers
  import opened Streams
  import opened HttpText
  import opened P = HttpParser
  import G = HttpGrammar

  const MAX_READ_COUNT: nat := 20
  const SOCKET_EACCES: int := 13
  const SEC_E_CERT_EXPIRED: int := -2146893016

  datatype ProcessResult = PR_CONTINUE | PR_COMPLETE

  /** `HandleStreamClose` while receiving. */
  function CloseError(p: Parser, code: int): HttpError
  {
    if code == 0 then
      if p.phase == Data && p.size == SIZE_UNKNOWN then HE_NONE else HE_DISCONNECTED
    else if code == SOCKET_EACCES then HE_AUTH
    else if code == SEC_E_CERT_EXPIRED then HE_CERTIFICATE_EXPIRED
    else HE_SOCKET_ERROR
  }

  class HttpReceiver {
    const cb: Callbacks
    const buffer: array<char>
    var len: nat
    var state: Phase
    var chunked: bool
    var dataSize: size_t
    var leader: string
    var headers: seq<Header>
    var body: string
    var done: Option<HttpError>
    ghost var arrivals: seq<P.Read>  // every read so far, with the memory behind it

    function View(): Parser
      reads this
    {
      Parser(state, chunked, dataSize, leader, headers, body, done)
    }

    /** The whole buffer, including the memory behind the buffered bytes. */
    function Mem(): string
      reads buffer
    {
      buffer[..]
    }

    /** The object is where the parsing function takes the reads so far. */
    ghost predicate Valid()
      reads this, buffer
    {
      && buffer.Length == BUFFER_SIZE
      && len <= BUFFER_SIZE
      && Session(cb, arrivals) == (View(), Mem()[..len])
    }

    constructor (cb: Callbacks)
      ensures Valid() && fresh(buffer) && this.cb == cb && arrivals == [] && done.None?
    {
      this.cb := cb;
      buffer := new char[BUFFER_SIZE](_ => '\0');
      len, state, chunked, dataSize := 0, Leader, false, SIZE_UNKNOWN;
      leader, headers, body, done, arrivals := "", [], "", None, [];
    }

    /** `strchrn(line, n, ':')` on the line at Mem()[start..start + n]. */
    method FindColon(start: nat, n: nat) returns (found: bool, colon: nat)
      requires start + n <= buffer.Length
      ensures var line := Mem()[start..start + n];
              if found then IndexOf(line, ':') == colon < n && colon <= IndexOf(line, '\0')
              else SplitHeader(line) == None
    {
      ghost var line := Mem()[start..start + n];
      colon := 0;
      while colon < n && buffer[start + colon] != ':' && buffer[start + colon] != '\0'
        invariant colon <= n && LacksBefore(line, colon, ':') && LacksBefore(line, colon, '\0')
      {
        colon := colon + 1;
      }
      HeaderNameEnd(line, colon);
      found := colon < n && buffer[start + colon] == ':';
    }

    /** Name and value of the header line at Mem()[start..start + n]. */
    method FindHeader(start: nat, n: nat) returns (found: bool, name: string, value: nat)
      requires start + n <= buffer.Length
      ensures found ==> start <= value <= start + n
      ensures SplitHeader(Mem()[start..start + n])
              == if found then Some((name, Mem()[value..start + n])) else None
    {
      hide IndexOf;
      name, value := "", start;
      ghost var line := Mem()[start..start + n];
      var colon;
      found, colon := FindColon(start, n);
      if found {
        var skip := colon + 1;
        while skip < n && IsSpace(buffer[start + skip])
          invariant skip <= n && SkipSpace(line, skip) == SkipSpace(line, colon + 1)
        {
          skip := skip + 1;
        }
        name, value := buffer[start..start + colon], start + skip;
        SliceOfSlice(Mem(), start, n, colon, skip);
      }
    }

    method ProcessHeaderLine(start: nat, n: nat) returns (result: ProcessResult, error: HttpError)
      requires 0 < n && start + n <= buffer.Length
      requires done.None? && state == Headers
      modifies this`chunked, this`dataSize, this`headers
      ensures P.HeaderStep(old(View()), Mem()[start..start + n], Mem()[start + n..])
              == if result == PR_COMPLETE then Finish(View(), error) else View()
    {
      hide SplitHeader, StrToUl, EqualIgnoringCase;
      var found, name, value := FindHeader(start, n);
      if !found {
        return PR_COMPLETE, HE_PROTOCOL;
      }
      var text, tail := buffer[value..start + n], buffer[value..];
      assert text == Mem()[value..start + n] && tail == text + Mem()[start + n..];
      if IsContentLength(name) {
        match StrToUl(tail, 10)
        case NoConversion => return PR_COMPLETE, HE_PROTOCOL;
        case Number(v, _) => dataSize := v;
      } else if IsTransferEncoding(name) {
        if EqualIgnoringCase(text, "chunked") {
          chunked := true;
        } else if EqualIgnoringCase(text, "identity") {
          chunked := false;
        } else {
          return PR_COMPLETE, HE_PROTOCOL;
        }
      }
      headers := headers + [(name, text)];
      return PR_CONTINUE, HE_NONE;
    }

    method ProcessChunkSize(start: nat, n: nat) returns (result: ProcessResult, error: HttpError)
      requires start + n <= buffer.Length
      requires done.None? && state == ChunkSize
      modifies this`state, this`dataSize
      ensures ChunkSizeStep(old(View()), Mem()[start..start + n], Mem()[start + n..])
              == if result == PR_COMPLETE then Finish(View(), error) else View()
    {
      result, error := PR_COMPLETE, HE_PROTOCOL;
      if n > 0 {
        var tail := buffer[start..];
        assert tail == Mem()[start..start + n] + Mem()[start + n..];
        var scanned := StrToUl(tail, 16);
        dataSize := if scanned.Number? then scanned.value else 0;
        if scanned.Number? && scanned.end == n {
          state := if dataSize == 0 then Trailers else Data;
          result, error := PR_CONTINUE, HE_NONE;
        }
      }
    }

    method ProcessLine(start: nat, n: nat) returns (result: ProcessResult, error: HttpError)
      requires start + n <= buffer.Length
      requires done.None? && InLine(View())
      modifies this`state, this`chunked, this`dataSize, this`leader, this`headers
      ensures LineStep(cb, old(View()), Mem()[start..start + n], Mem()[start + n..])
              == if result == PR_COMPLETE then Finish(View(), error) else View()
    {
      match state
      case Leader =>
        var line := buffer[start..start + n];
        assert line == Mem()[start..start + n];
        state := Headers;
        leader := line;
        error := cb.leader(line);
        result := if error == HE_NONE then PR_CONTINUE else PR_COMPLETE;
      case Headers =>
        if n > 0 {
          result, error := ProcessHeaderLine(start, n);
        } else {
          state := if chunked then ChunkSize else Data;
          var (size, e) := cb.headersDone(leader, headers, chunked, dataSize);
          dataSize, error := size, e;
          result := if error == HE_NONE then PR_CONTINUE else PR_COMPLETE;
        }
      case ChunkSize =>
        result, error := ProcessChunkSize(start, n);
      case ChunkTerm =>
        result, error := PR_COMPLETE, HE_PROTOCOL;
        if n == 0 {
          state := if chunked then ChunkSize else Data;
          result, error := PR_CONTINUE, HE_NONE;
        }
      case Trailers =>
        result, error := if n == 0 then PR_COMPLETE else PR_CONTINUE, HE_NONE;
    }

    method FindLineEnd(from: nat) returns (pos: nat)
      requires from <= len <= buffer.Length
      ensures from <= pos <= len && pos - from == IndexOf(Mem()[from..len], '\n')
    {
      ghost var rest := Mem()[from..len];
      pos := from;
      while pos < len && buffer[pos] != '\n'
        invariant from <= pos <= len && LacksBefore(rest, pos - from, '\n')
      {
        pos := pos + 1;
      }
      IndexOfIs(rest, '\n', pos - from);
    }

    method TrimmedLength(from: nat, to: nat) returns (n: nat)
      requires from <= to <= buffer.Length
      ensures from + n <= to && Mem()[from..from + n] == TrimRight(Mem()[from..to])
    {
      hide TrimRight;
      n := to - from;
      while n > 0 && IsSpace(buffer[from + n - 1])
        invariant from + n <= to
        invariant TrimRight(Mem()[from..to]) == TrimRight(Mem()[from..from + n])
      {
        TrimStep(Mem(), from, n);
        n := n - 1;
      }
      TrimDone(Mem()[from..from + n]);
    }

    /** One line of `Process`: either there is none, or it is consumed. */
    method ProcessNextLine(processed: nat) returns (result: Option<ProcessResult>, next: nat, error: HttpError)
      requires processed <= len <= buffer.Length
      requires done.None? && InLine(View())
      modifies this`state, this`chunked, this`dataSize, this`leader, this`headers
      ensures processed <= next <= len
      ensures result.None? ==> next == processed && View() == old(View())
      ensures result.None? <==> IndexOf(Mem()[processed..len], '\n') == len - processed
      ensures result.Some? ==>
                var q := if result == Some(PR_COMPLETE) then Finish(View(), error) else View();
                processed < next
                && P.Process(cb, old(View()), Mem()[processed..len], Mem()[len..])
                   == P.Process(cb, q, Mem()[next..len], Mem()[len..])
    {
      hide P.Process, LineStep, IndexOf, TrimRight;
      next, error := processed, HE_NONE;
      var pos := FindLineEnd(processed);
      if pos == len {
        return None, processed, HE_NONE;
      }
      var n := TrimmedLength(processed, pos);
      ProcessTakesLine(cb, View(), Mem(), processed, pos, n, len);
      var r;
      r, error := ProcessLine(processed, n);
      result, next := Some(r), pos + 1;
    }

    /** One block of body bytes: everything buffered, up to the announced size. */
    method ProcessNextBlock(processed: nat) returns (next: nat)
      requires processed < len <= buffer.Length
      requires done.None? && state == Data && dataSize != 0
      modifies this`dataSize, this`body
      ensures processed < next <= len
      ensures P.Process(cb, old(View()), Mem()[processed..len], Mem()[len..])
              == P.Process(cb, View(), Mem()[next..len], Mem()[len..])
    {
      var available := len - processed;
      if dataSize != SIZE_UNKNOWN && available > dataSize {
        available := dataSize;
      }
      next := processed + available;
      ProcessTakesBlock(cb, View(), Mem(), processed, next, len);
      body := body + buffer[processed..next];
      if dataSize != SIZE_UNKNOWN {
        dataSize := dataSize - available;
      }
    }

    /** `HttpParser::Process` on Mem()[..len]. */
    method Process() returns (result: ProcessResult, processed: nat, error: HttpError)
      requires len <= buffer.Length && done.None?
      modifies this`state, this`chunked, this`dataSize, this`leader, this`headers, this`body, this`done
      ensures processed <= len
      ensures P.Process(cb, old(View()), Mem()[..len], Mem()[len..]) == (View(), Mem()[processed..len])
      ensures done == if result == PR_COMPLETE then Some(error) else None
      ensures result == PR_CONTINUE && processed < len ==> InLine(View())
    {
      processed := 0;
      assert Mem()[0..len] == Mem()[..len];
      while true
        invariant processed <= len && done.None?
        invariant P.Process(cb, old(View()), Mem()[..len], Mem()[len..])
                  == P.Process(cb, View(), Mem()[processed..len], Mem()[len..])
        decreases len - processed, if state == Data then 1 else 0
      {
        if state != Data {
          var r, next, e := ProcessNextLine(processed);
          if r.None? {
            return PR_CONTINUE, processed, HE_NONE;
          }
          processed := next;
          if r == Some(PR_COMPLETE) {
            done := Some(e);
            return PR_COMPLETE, processed, e;
          }
        } else if dataSize == 0 {
          if chunked {
            state := ChunkTerm;
          } else {
            done := Some(HE_NONE);
            return PR_COMPLETE, processed, HE_NONE;
          }
        } else if processed == len {
          return PR_CONTINUE, processed, HE_NONE;
        } else {
          processed := ProcessNextBlock(processed);
        }
      }
    }

    /** The `memmove` that drops the processed bytes. */
    method DropFront(processed: nat)
      requires processed <= len <= buffer.Length
      modifies this`len, buffer
      ensures len == old(len) - processed && Mem()[..len] == old(Mem()[processed..len])
    {
      ghost var rest := Mem()[processed..len];
      len := len - processed;
      forall i | 0 <= i < len { buffer[i] := buffer[processed + i]; }
      assert Mem()[..len] == rest;
    }

    /** Process what is buffered, `got` of it new, and move the rest to the front. */
    method ProcessBuffered(ghost got: string) returns (result: ProcessResult, error: HttpError)
      requires len <= buffer.Length == BUFFER_SIZE && done.None?
      requires var (p, rest) := Session(cb, arrivals); p == View() && rest + got == Mem()[..len]
      modifies this, buffer
      ensures Valid()
      ensures Received(arrivals) == old(Received(arrivals)) + got
      ensures done == if result == PR_COMPLETE then Some(error) else None
      ensures result == PR_CONTINUE && 0 < len ==> InLine(View())
      ensures Stalled()
    {
      hide P.Process, Session, Received;
      ghost var before, bytes, memory := View(), Mem()[..len], Mem()[len..];
      ghost var read := P.Read(got, Mem()[len..]);
      SessionSnoc(cb, arrivals, read);
      arrivals := arrivals + [read];
      var processed;
      result, processed, error := Process();
      DropFront(processed);
      ProcessStalls(cb, before, bytes, memory, Mem()[len..]);
    }

    /** Buffer what the connection hands over; `got` is exactly what it gave up. `script` is
        what the connection was going to answer at some earlier moment. */
    method ReadMore(net: Source, ghost script: seq<Answer>) returns (r: StreamResult, ghost got: string)
      requires Valid() && len < BUFFER_SIZE && !net.ends && Rest(net.script, script)
      modifies this`len, buffer, net
      ensures Rest(net.script, script) && |net.script| <= |old(net.script)|
      ensures len <= BUFFER_SIZE && Mem()[..len] == old(Mem()[..len]) + got
      ensures got + net.remaining == old(net.remaining)
      ensures r.SR_SUCCESS? ==> |got| == r.count && |net.script| < |old(net.script)|
      ensures r == SR_BLOCK ==> net.script == [] || Last(script, net.script) == Some(Block)
      ensures r == SR_EOS ==> Last(script, net.script) == Some(Close(0))
      ensures r.SR_ERROR? ==> Last(script, net.script) == Some(Close(r.code))
      ensures !r.SR_SUCCESS? ==> got == "" && Valid() && (old(Stalled()) ==> Stalled())
    {
      hide Session, P.Process;
      RestTail(script, net.script);
      ghost var before, supply := Mem()[..len], net.remaining;
      r := net.Read(buffer, len, BUFFER_SIZE - len);
      got := "";
      if r.SR_SUCCESS? {
        got := supply[..r.count];
        assert Mem()[..len + r.count] == buffer[..len] + buffer[len..len + r.count];
        len := len + r.count;
      }
    }

    /** The buffered bytes, processed once more, change nothing. */
    ghost predicate Stalled()
      requires len <= buffer.Length
      reads this, buffer
    {
      P.Process(cb, View(), Mem()[..len], Mem()[len..]) == (View(), Mem()[..len])
    }

    /** `DoReceiveLoop`: whatever the connection answers, the object stays where the
        parsing function takes the bytes received; no byte is lost or read twice. It goes
        on while there is something to read, and each way it ends has its cause: the
        parser's verdict, a full buffer without a line end, the close; or, unfinished, a
        connection with nothing to read, or twenty reads in a row, with everything
        buffered processed. */
    method DoReceiveLoop(net: Source) returns (finished: bool, error: HttpError, ghost close: Option<int>)
      requires Valid() && done.None? && !net.ends
      modifies this, buffer, net
      ensures Valid() && Rest(net.script, old(net.script))
      ensures Received(arrivals) + net.remaining == old(Received(arrivals)) + old(net.remaining)
      ensures !finished ==>
                && done.None? && Stalled()
                && (|| net.script == [] || Last(old(net.script), net.script) == Some(Block)
                    || |old(net.script)| - |net.script| >= MAX_READ_COUNT)
      ensures finished ==>
                || done == Some(error)
                || (done.None? && close.None? && error == HE_OVERFLOW && len == BUFFER_SIZE && InLine(View()) && Stalled())
                || (done.None? && close.Some? && error == CloseError(View(), close.value)
                    && Last(old(net.script), net.script) == Some(Close(close.value)))
    {
      hide P.Process, Session, Received, Rest, Last, Stalled;
      RestAll(net.script);
      var loopCount := 0;
      var needsMore := false;
      while true
        invariant Valid() && done.None? && Rest(net.script, old(net.script))
        invariant Received(arrivals) + net.remaining == old(Received(arrivals)) + old(net.remaining)
        invariant loopCount <= MAX_READ_COUNT && needsMore == (loopCount > 0)
        invariant |net.script| <= |old(net.script)| && loopCount <= |old(net.script)| - |net.script| + 1
        invariant needsMore && 0 < len ==> InLine(View())
        invariant needsMore ==> Stalled()
        decreases MAX_READ_COUNT - loopCount
      {
        ghost var got := "";
        if len < BUFFER_SIZE {
          var r;
          r, got := ReadMore(net, old(net.script));
          match r
          case SR_SUCCESS(_) =>
          case SR_BLOCK =>
            if needsMore { return false, HE_NONE, None; }
          case SR_EOS =>
            return true, CloseError(View(), 0), Some(0);
          case SR_ERROR(code) =>
            return true, CloseError(View(), code), Some(code);
        } else if needsMore {
          return true, HE_OVERFLOW, None;
        }
        ghost var received := Received(arrivals);
        Assoc(received, got, net.remaining);
        var result, e := ProcessBuffered(got);
        if result == PR_COMPLETE {
          return true, e, None;
        }
        needsMore := true;
        loopCount := loopCount + 1;
        if loopCount > MAX_READ_COUNT {
          return false, HE_NONE, None;
        }
      }
    }
  }

  lemma Assoc(a: string, b: string, c: string)
    ensures a + (b + c) == a + b + c
  {
  }

  /** What `Process` leaves needs more input. */
  lemma {:induction false} ProcessStalls(cb: Callbacks, p: Parser, buf: string, stale: string, later: string)
    ensures var (q, rest) := P.Process(cb, p, buf, stale); P.Process(cb, q, rest, later) == (q, rest)
    decreases |buf|, if p.phase.Data? then 1 else 0
  {
    hide LineStep, TrimRight, IndexOf;
    if p.done.Some? {
    } else if InLine(p) {
      var k := IndexOf(buf, '\n');
      if k < |buf| {
        var line := TrimRight(buf[..k]);
        ProcessStalls(cb, LineStep(cb, p, line, buf[|line|..] + stale), buf[k + 1..], stale, later);
      }
    } else if p.size == 0 {
      if p.chunked {
        ProcessStalls(cb, p.(phase := ChunkTerm), buf, stale, later);
      }
    } else if buf != "" {
      var n := Offered(p, buf);
      ProcessStalls(cb, Deliver(p, buf[..n]), buf[n..], stale, later);
    }
  }

  /** Two receivers that have been sent the same bytes, each in its own fragments and
      with its own leftovers in the buffer, are in the same state and hold the same
      unprocessed bytes, provided no valueless Content-Length header was reached. */
  lemma SameBytesSameState(a: HttpReceiver, b: HttpReceiver)
    requires a.Valid() && b.Valid() && a.cb == b.cb
    requires Received(a.arrivals) == Received(b.arrivals)
    requires Reference(a.cb, Received(a.arrivals)) != Indeterminate
    ensures a.View() == b.View() && a.len == b.len && a.Mem()[..a.len] == b.Mem()[..b.len]
  {
    SessionIsReference(a.cb, a.arrivals);
    SessionIsReference(b.cb, b.arrivals);
  }

  /** An orderly close is the end of the message if and only if the bytes received are a
      text to which any data may be added; cut anywhere else, it is a disconnection. Other
      closes are told by their code alone. */
  lemma CloseMeans(cb: Callbacks, arrivals: seq<P.Read>, code: int)
    requires Reference(cb, Received(arrivals)) != Indeterminate && Session(cb, arrivals).0.done == None
    ensures var error := CloseError(Session(cb, arrivals).0, code);
      && (code == 0 ==> error == if G.EndsOpen(cb, Received(arrivals)) then HE_NONE else HE_DISCONNECTED)
      && (code == 13 ==> error == HE_AUTH)
      && (code == -2146893016 ==> error == HE_CERTIFICATE_EXPIRED)
      && (code != 0 && code != 13 && code != -2146893016 ==> error == HE_SOCKET_ERROR)
  {
    hide Session, Received, FeedAll, G.EndsOpen;
    SessionIsReference(cb, arrivals);
    G.EndsOpenIff(cb, Received(arrivals));
  }

  lemma TrimStep(s: string, from: nat, n: nat)
    requires 0 < n && from + n <= |s| && IsSpace(s[from + n - 1])
    ensures TrimRight(s[from..from + n]) == TrimRight(s[from..from + n - 1])
  {
    assert s[from..from + n][..n - 1] == s[from..from + n - 1];
  }

  lemma TrimDone(s: string)
    requires s == "" || !IsSpace(s[|s| - 1])
    ensures TrimRight(s) == s
  {
  }

  lemma SliceOfSlice(s: string, a: nat, n: nat, j: nat, k: nat)
    requires a + n <= |s| && j <= n && k <= n
    ensures s[a..a + n][..j] == s[a..a + j]
    ensures s[a..a + n][k..] == s[a + k..a + n]
  {
  }

  lemma HeaderNameEnd(line: string, n: nat)
    requires n <= |line| && LacksBefore(line, n, ':') && LacksBefore(line, n, '\0')
    ensures n < |line| && line[n] == ':' ==> IndexOf(line, ':') == n <= IndexOf(line, '\0')
    ensures n == |line| || line[n] == '\0' ==> SplitHeader(line) == None
  {
    if n < |line| && line[n] == '\0' {
      IndexOfIs(line, '\0', n);
    } else if n == |line| || line[n] == ':' {
      IndexOfIs(line, ':', n);
    }
  }

  lemma ProcessTakesLine(cb: Callbacks, p: Parser, mem: string, from: nat, pos: nat, n: nat, len: nat)
    requires from <= pos < len <= |mem| && from + n <= pos
    requires p.done.None? && InLine(p)
    requires pos - from == IndexOf(mem[from..len], '\n')
    requires mem[from..from + n] == TrimRight(mem[from..pos])
    ensures P.Process(cb, p, mem[from..len], mem[len..])
            == P.Process(cb, LineStep(cb, p, mem[from..from + n], mem[from + n..]), mem[pos + 1..len], mem[len..])
  {
    hide P.Process, LineStep, IndexOf, TrimRight;
    var rest := mem[from..len];
    assert rest[..pos - from] == mem[from..pos];
    assert rest[n..] + mem[len..] == mem[from + n..];
    assert rest[pos - from + 1..] == mem[pos + 1..len];
    ProcessOneLine(cb, p, rest, mem[len..], pos - from);
  }

  lemma CutInTwo(mem: string, from: nat, next: nat, len: nat)
    requires from <= next <= len <= |mem|
    ensures var rest := mem[from..len];
      rest[..next - from] == mem[from..next] && rest[next - from..] == mem[next..len]
  {
  }

  lemma ProcessTakesBlock(cb: Callbacks, p: Parser, mem: string, from: nat, next: nat, len: nat)
    requires from <= next <= len <= |mem| && from < len
    requires p.done.None? && p.phase == Data && p.size != 0
    requires next - from == Offered(p, mem[from..len])
    ensures P.Process(cb, p, mem[from..len], mem[len..])
            == P.Process(cb, Deliver(p, mem[from..next]), mem[next..len], mem[len..])
  {
    hide *;
    var rest := mem[from..len];
    ProcessOneBlock(cb, p, rest, mem[len..]);
    CutInTwo(mem, from, next, len);
  }
}
