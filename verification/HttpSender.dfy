/** The sending half of `HttpBase` (base/httpbase.cc): `send`, `flush_data` and
    `queue_headers` packing leader, headers and a chunk-framed document into a 32 KB
    buffer, against a document and a network that answer as they please. */
module HttpWire {
  import opened HttpText

  const CHUNK_DIGITS: nat := 8
  const CRLF: string := "\r\n"

  /** What `%.*s` prints of a string: the part before any NUL. */
  function Printed(s: string): string { s[..IndexOf(s, '\0')] }

  function HeaderLine(h: (string, string)): string { Printed(h.0) + ": " + Printed(h.1) + CRLF }

  /** Longer lines are dropped (httpbase.cc:727-732). */
  predicate Fits(h: (string, string)) { |HeaderLine(h)| < BUFFER_SIZE - 3 }

  function HeaderLines(hs: seq<(string, string)>): string
  {
    if hs == [] then ""
    else HeaderLines(hs[..|hs| - 1]) + if Fits(hs[|hs| - 1]) then HeaderLine(hs[|hs| - 1]) else ""
  }

  function HexDigit(n: nat): char
    requires n < 16
  {
    if n < 10 then (n + 48) as char else (n + 87) as char
  }

  /** `%.*x`: exactly `digits` lower-case hexadecimal digits. */
  function Hex(n: nat, digits: nat): (s: string)
    ensures |s| == digits
  {
    if digits == 0 then "" else Hex(n / 16, digits - 1) + [HexDigit(n % 16)]
  }

  function Frame(data: string): string { Hex(|data|, CHUNK_DIGITS) + CRLF + data + CRLF }

  function Frames(chunks: seq<string>): string
  {
    if chunks == [] then "" else Frames(chunks[..|chunks| - 1]) + Frame(chunks[|chunks| - 1])
  }

  const LAST_CHUNK: string := "0\r\n\r\n"

  function Concat(chunks: seq<string>): string
  {
    if chunks == [] then "" else Concat(chunks[..|chunks| - 1]) + chunks[|chunks| - 1]
  }

  predicate NonEmpty(chunks: seq<string>) { forall i :: 0 <= i < |chunks| ==> chunks[i] != "" }

  predicate Small(chunks: seq<string>) { forall i :: 0 <= i < |chunks| ==> |chunks[i]| <= BUFFER_SIZE }

  /** `sprintfn` and `strcpyn` into the empty buffer keep room for a NUL. */
  function Clipped(s: string): string { if |s| < BUFFER_SIZE then s else s[..BUFFER_SIZE - 1] }

  /** The message head after `k` of the headers: the blank line belongs to the end. */
  function Head(leader: string, headers: seq<(string, string)>, k: nat): string
    requires k <= |headers|
  {
    if headers == [] then Clipped(leader + CRLF + CRLF)
    else Clipped(leader + CRLF) + HeaderLines(headers[..k]) + if k == |headers| then CRLF else ""
  }

  /** The value that `hasHeader` finds for Transfer-Encoding, if any: the first one. */
  function FirstCoding(hs: seq<(string, string)>): (r: string)
    ensures
      || (r == "" && forall i :: 0 <= i < |hs| ==> !IsTransferEncoding(hs[i].0))
      || exists i :: 0 <= i < |hs| && IsTransferEncoding(hs[i].0) && r == hs[i].1
           && forall j :: 0 <= j < i ==> !IsTransferEncoding(hs[j].0)
  {
    if hs == [] then "" else if IsTransferEncoding(hs[0].0) then hs[0].1 else FirstCoding(hs[1..])
  }

  /** Whether `send` frames the document: the spelling must match to the letter. */
  predicate SendsChunked(hs: seq<(string, string)>) { FirstCoding(hs) == "chunked" }

  function Body(chunked: bool, chunks: seq<string>, ended: bool): string
  {
    if chunked then Frames(chunks) + if ended then LAST_CHUNK else "" else Concat(chunks)
  }
}

module HttpSender {
  import opened Wrappers
  import opened Streams
  import opened HttpText
  import opened HttpWire

  /** What became of one attempt to queue document data. */
  datatype Step = Queued | MustSend | Finished | Broken

  /** How `flush_data` ends. `Unanswered`: the network's script ran out in mid-loop,
      so the run is only observed up to that write. */
  datatype Outcome = Completed | StreamFailed | Closed | Waiting | Unanswered

  class HttpSender {
    const leader: string
    const headers: seq<(string, string)>
    const hasDocument: bool
    const chunkedMessage: bool
    const buffer: array<char>
    var len: nat
    var header: nat
    var chunkData: bool
    ghost const document: string
    ghost var chunks: seq<string>  // one entry per successful document read
    ghost var ended: bool          // the terminating chunk is queued

    function Mem(): string
      reads buffer
    {
      buffer[..]
    }

    /** Bytes on the network followed by the buffered ones. */
    ghost function Out(net: Sink): string
      requires len <= buffer.Length
      reads this`len, buffer, net`wire
    {
      net.wire + Mem()[..len]
    }

    ghost function Emitted(): string
      requires header <= |headers|
      reads this`header, this`chunks, this`ended
    {
      Head(leader, headers, header) + Body(chunkedMessage, chunks, ended)
    }

    /** Fields within their bounds; the terminator state matches the flags. */
    ghost predicate Shape()
      reads this
    {
      && buffer.Length == BUFFER_SIZE && len <= BUFFER_SIZE && header <= |headers|
      && chunkData == (chunkedMessage && !ended)
      && (header < |headers| ==> chunks == [] && !ended && len < BUFFER_SIZE)
      && (ended ==> chunkedMessage)
      && (!hasDocument ==> chunks == [] && !ended)
    }

    /** Send conservation: bytes on the network followed by the buffered ones are the
        message so far, and the document bytes read plus those left are the document. */
    ghost predicate Valid(net: Sink, doc: Source)
      reads this, buffer, net, doc
    {
      && Shape()
      && Out(net) == Emitted()
      && Concat(chunks) + doc.remaining == document
      && (ended ==> doc.remaining == "") && Small(chunks) && doc.ends
    }

    /** Append text, clipped so that a NUL fits behind it (`sprintfn`, `strcpyn`). */
    method Append(text: string)
      requires len < buffer.Length
      modifies this`len, buffer
      ensures len == old(len) + Least(|text|, buffer.Length - old(len) - 1)
      ensures Mem()[..len] == old(Mem()[..len]) + text[..len - old(len)]
    {
      var n := Least(|text|, buffer.Length - len - 1);
      ghost var before := Mem()[..len];
      forall i | len <= i < len + n { buffer[i] := text[i - len]; }
      assert Mem()[..len + n] == before + text[..n];
      buffer[len + n] := '\0';
      assert Mem()[..len + n] == before + text[..n];
      len := len + n;
    }

    /** `send`: the leader, and the blank line already if there are no headers. */
    constructor (leader: string, headers: seq<(string, string)>, hasDocument: bool, ghost document: string)
      ensures Shape() && fresh(buffer)
      ensures Mem()[..len] == Emitted() && chunks == [] && !ended && header == 0
      ensures this.leader == leader && this.headers == headers && this.hasDocument == hasDocument
      ensures this.chunkedMessage == SendsChunked(headers) && this.document == document
    {
      this.leader, this.headers, this.hasDocument := leader, headers, hasDocument;
      hide SendsChunked;
      var chunked := SendsChunked(headers);
      this.chunkedMessage, this.document := chunked, document;
      buffer := new char[BUFFER_SIZE](_ => '\0');
      header, chunkData, chunks, ended := 0, chunked, [], false;
      len := 0;
      new;
      hide HeaderLines;
      Append(leader);
      assert Mem()[..len] == Clipped(leader);
      ClippedAppend(leader, CRLF, len);
      Append(CRLF);
      assert Mem()[..len] == Clipped(leader + CRLF);
      if headers == [] {
        ClippedAppend(leader + CRLF, CRLF, len);
        Append(CRLF);
      } else {
        HeadStart(leader, headers);
      }
    }

    /** Print the next header behind the buffered bytes and keep it if it fits. */
    method TryHeader(net: Sink) returns (accepted: bool)
      requires len < buffer.Length == BUFFER_SIZE && header < |headers|
      modifies this`len, buffer
      ensures accepted == (old(len) + |HeaderLine(headers[header])| < BUFFER_SIZE - 3)
      ensures len == old(len) + if accepted then |HeaderLine(headers[header])| else 0
      ensures Out(net) == old(Out(net)) + if accepted then HeaderLine(headers[header]) else ""
    {
      hide HeaderLine;
      ghost var before := Mem()[..len];
      var start, text := len, HeaderLine(headers[header]);
      Append(text);
      accepted := len < BUFFER_SIZE - 3;
      if accepted {
        assert text[..len - start] == text;
        assert net.wire + (before + text) == net.wire + before + text;
      } else {
        assert Mem()[..start] == Mem()[..len][..start];
        len := start;
      }
    }

    method QueueBlankLine(net: Sink)
      requires len < buffer.Length - 2
      modifies this`len, buffer
      ensures len == old(len) + 2 && Out(net) == old(Out(net)) + CRLF
    {
      ghost var before := Mem()[..len];
      Append(CRLF);
      assert net.wire + (before + CRLF) == net.wire + before + CRLF;
    }

    /** `queue_headers`: true when the next header must wait for a network write. A
        line that does not fit even the empty buffer is skipped. */
    method QueueHeaders(net: Sink, doc: Source) returns (sendRequired: bool)
      requires Valid(net, doc) && header < |headers|
      modifies this`len, this`header, buffer
      ensures Valid(net, doc) && 0 < len < BUFFER_SIZE
      ensures sendRequired == (header < |headers|)
      ensures sendRequired == !QueuesAll(old(len), headers, old(header))
      ensures sendRequired ==> BUFFER_SIZE - 3 <= len + |HeaderLine(headers[header])|
      ensures Potential(doc.remaining) <= old(Potential(doc.remaining))
    {
      hide HeaderLine, HeaderLines, Out, Clipped;
      ghost var start := Clipped(leader + CRLF);
      BodyStart(chunkedMessage);
      while header < |headers|
        invariant Shape() && chunks == [] && !ended && len < BUFFER_SIZE
        invariant Out(net) == start + HeaderLines(headers[..header])
        invariant header == |headers| ==> len < BUFFER_SIZE - 3
        invariant QueuesAll(old(len), headers, old(header)) == QueuesAll(len, headers, header)
        invariant Potential(doc.remaining) + (if header == |headers| then 2 else 0)
                  <= old(Potential(doc.remaining))
      {
        HeaderLinesNext(start, headers, header);
        var accepted := TryHeader(net);
        if !accepted && len > 0 {
          return true;
        }
        header := header + 1;
      }
      QueueBlankLine(net);
      assert headers[..header] == headers;
      return false;
    }

    /** Frame the `n` bytes already read to len + 10: the length in front, line ends
        around. */
    method FrameInPlace(n: nat)
      requires len + n + 12 <= buffer.Length == BUFFER_SIZE
      modifies this`len, buffer
      ensures len == old(len) + n + 12
      ensures Mem()[..len] == old(Mem()[..len]) + Frame(old(Mem()[len + 10..len + 10 + n]))
    {
      hide Hex;
      ghost var mem := Mem();
      var size := Hex(n, CHUNK_DIGITS);
      Store(len, size);
      Store(len + 8, CRLF);
      Store(len + 10 + n, CRLF);
      FrameLayout(mem, size, len, n);
      len := len + n + 12;
    }

    /** `memcpy` into the buffer. */
    method Store(at: nat, text: string)
      requires at + |text| <= buffer.Length
      modifies buffer
      ensures Mem() == Stored(old(Mem()), at, text)
    {
      forall i | at <= i < at + |text| { buffer[i] := text[i - at]; }
    }

    /** Take in `n` document bytes that were read straight into the buffer. */
    method QueueData(net: Sink, n: nat, ghost data: string)
      requires Shape() && len + n + (if chunkData then 12 else 0) <= BUFFER_SIZE
      requires var offset := if chunkData then len + 10 else len; Mem()[offset..offset + n] == data
      modifies this`len, buffer
      ensures len == old(len) + n + if chunkData then 12 else 0
      ensures Out(net) == old(Out(net)) + if chunkData then Frame(data) else data
    {
      hide Frame;
      ghost var before := Mem()[..len];
      if chunkData {
        FrameInPlace(n);
        OutMore(net.wire, before, Frame(data));
      } else {
        assert Mem()[..len + n] == before + data;
        OutMore(net.wire, before, data);
        len := len + n;
      }
    }

    /** The document's `Read`, placing its bytes behind the buffered ones. */
    method ReadAt(net: Sink, doc: Source, offset: nat, room: nat) returns (r: StreamResult, ghost data: string)
      requires len <= offset && offset + room <= buffer.Length
      modifies buffer, doc
      ensures r == old(doc.Answered(room)) && doc.script == Tail(old(doc.script))
      ensures Out(net) == old(Out(net))
      ensures r.SR_SUCCESS? ==> r.count <= room && Mem()[offset..offset + r.count] == data
                                && |data| == r.count && old(doc.remaining) == data + doc.remaining
      ensures !r.SR_SUCCESS? ==> doc.remaining == old(doc.remaining)
    {
      ghost var before := Mem()[..len];
      r := doc.Read(buffer, offset, room);
      assert Mem()[..len] == buffer[..offset][..len] == before;
      data := if r.SR_SUCCESS? then buffer[offset..offset + r.count] else "";
    }

    /** No room for another byte of the document. */
    predicate Full()
      reads this
    {
      BUFFER_SIZE <= len + if chunkData then 12 else 0
    }

    /** One document read, straight into the buffer (httpbase.cc:622-683). */
    method QueueDocument(net: Sink, doc: Source) returns (step: Step)
      requires Valid(net, doc) && header == |headers| && hasDocument
      modifies this`len, this`chunkData, this`chunks, this`ended, buffer, doc
      ensures Valid(net, doc) && (doc.script == old(doc.script) || doc.script == Tail(old(doc.script)))
      ensures step == Finished ==> len == 0 && !chunkData && doc.remaining == ""
      ensures step == Broken ==> doc.script == Tail(old(doc.script)) && old(doc.script) != [] && old(doc.script)[0].Close?
      ensures step == MustSend ==>
                || Full() || doc.remaining == ""
                || (HasBlocked(old(doc.script), doc.remaining) && doc.script == Tail(old(doc.script)))
      ensures step == Queued ==> doc.script == Tail(old(doc.script)) && old(doc.script) != [] && old(doc.script)[0].Bytes?
      ensures step == Queued && len == 0 ==> old(doc.script)[0].atMost == 0
      ensures step == MustSend && len == 0 ==>
                HasBlocked(old(doc.script), doc.remaining) && doc.script == Tail(old(doc.script))
      ensures Progresses(old(doc.script)) && NonEmpty(old(chunks)) ==> NonEmpty(chunks)
      ensures Progresses(old(doc.script)) ==> Potential(doc.remaining) <= old(Potential(doc.remaining))
      ensures step == Queued && Progresses(old(doc.script)) ==>
                Potential(doc.remaining) < old(Potential(doc.remaining))
      ensures old(Ready(doc.script, doc.remaining)) ==> Ready(doc.script, doc.remaining)
      ensures step == MustSend && old(Ready(doc.script, doc.remaining)) ==> 0 < len
    {
      hide Head, Body, Frame, Concat, Progresses, LinesLeft, Out, NonEmpty, Small, Ready;
      if Full() {
        assert 0 < len;
        return MustSend;
      }
      var reserve := if chunkData then len + 12 else len;
      var offset := if chunkData then len + 10 else len;
      FirstAnswer(doc.script);
      ReadyAnswers(doc.script, doc.remaining);
      ghost var script, remaining := doc.script, doc.remaining;
      var r, data := ReadAt(net, doc, offset, BUFFER_SIZE - reserve);
      ReadyKept(script, remaining, doc.remaining);
      match r
      case SR_BLOCK => return MustSend;
      case SR_ERROR(_) => return Broken;
      case SR_EOS => step := EndDocument(net, doc);
      case SR_SUCCESS(n) =>
        BodyNext(Head(leader, headers, header), chunkedMessage, chunks, data, doc.remaining);
        ChunksNext(chunks, data);
        QueueData(net, n, data);
        chunks := chunks + [data];
        return Queued;
    }

    /** The document has ended: the last chunk, or nothing more to do. */
    method EndDocument(net: Sink, doc: Source) returns (step: Step)
      requires Valid(net, doc) && header == |headers| && hasDocument && !Full() && doc.remaining == ""
      modifies this`len, this`chunkData, this`ended, buffer
      ensures Valid(net, doc) && (step == MustSend || step == Finished)
      ensures if step == Finished then len == 0 && !chunkData else 0 < len
      ensures Potential(doc.remaining) <= old(Potential(doc.remaining))
    {
      hide Head, Body, Frame, Concat, LinesLeft, Out, Small;
      if chunkData {
        QueueLastChunk(net);
        BodyEnd(Head(leader, headers, header), chunks);
        chunkData, ended := false, true;
      } else if len == 0 {
        return Finished;
      }
      return MustSend;
    }

    method QueueLastChunk(net: Sink)
      requires len + 5 <= buffer.Length
      modifies this`len, buffer
      ensures len == old(len) + 5 && Out(net) == old(Out(net)) + LAST_CHUNK
    {
      ghost var before := Mem()[..len];
      forall i | len <= i < len + 5 { buffer[i] := LAST_CHUNK[i - len]; }
      assert Mem()[..len + 5] == before + LAST_CHUNK;
      OutMore(net.wire, before, LAST_CHUNK);
      len := len + 5;
    }

    /** The `memmove` after a partial write. */
    method DropFront(n: nat)
      requires n <= len <= buffer.Length
      modifies this`len, buffer
      ensures len == old(len) - n && Mem()[..len] == old(Mem()[n..len])
    {
      ghost var rest := Mem()[n..len];
      len := len - n;
      forall i | 0 <= i < len { buffer[i] := buffer[n + i]; }
      assert Mem()[..len] == rest;
    }

    /** Offer the buffer to the network and move what it did not take to the front. */
    method WriteOut(net: Sink) returns (r: StreamResult)
      requires len <= buffer.Length && net.script != []
      modifies this`len, buffer, net
      ensures net.script == Tail(old(net.script))
      ensures len <= old(len) && Out(net) == old(Out(net))
      ensures !r.SR_SUCCESS? ==> len == old(len) && Mem() == old(Mem()) && net.wire == old(net.wire)
      ensures !r.SR_SUCCESS? && Shape() ==> Livelocks() == old(Livelocks())
      ensures old(net.script)[0].Block? <==> r.SR_BLOCK?
      ensures old(net.script)[0].Bytes? <==> r.SR_SUCCESS?
      ensures 0 < old(len) && r.SR_SUCCESS? && 0 < old(net.script)[0].atMost ==> len < old(len)
    {
      ghost var mem, before, wire := Mem(), len, net.wire;
      r := net.Write(buffer, len);
      if r.SR_SUCCESS? {
        SplitAt(wire, mem, r.count, before);
        DropFront(r.count);
      }
    }

    /** Nothing more can be buffered before a network write: the buffer is full, the next
        header does not fit behind the others, or the document has no more for now.
        `script` is what the document was going to answer at some earlier moment. */
    ghost predicate Saturated(doc: Source, script: seq<Answer>)
      reads this, doc
    {
      || BUFFER_SIZE <= len
      || (header < |headers| && 0 < len && BUFFER_SIZE - 3 <= len + |HeaderLine(headers[header])|)
      || (header == |headers| && hasDocument && (Full() || doc.remaining == "" || Paused(doc, script)))
    }

    /** There is no document, something is buffered or will be, and all of it at once. */
    ghost predicate Livelocks()
      reads this
    {
      && !hasDocument && len < BUFFER_SIZE && header <= |headers|
      && if header == |headers| then 0 < len else QueuesAll(len, headers, header)
    }

    /** The buffering half of one `flush_data` iteration. */
    method FillBuffer(net: Sink, doc: Source, mustSend: bool, ghost script: seq<Answer>)
      returns (sendRequired: bool, outcome: Option<Outcome>)
      requires Valid(net, doc) && (mustSend ==> BUFFER_SIZE <= len) && Rest(doc.script, script)
      modifies this`len, this`header, this`chunkData, this`chunks, this`ended, buffer, doc
      ensures Valid(net, doc) && Rest(doc.script, script)
      ensures sendRequired ==> 0 < len || hasDocument
      ensures sendRequired ==> Saturated(doc, script)
      ensures len == 0 && outcome.None? ==> header == |headers|
      ensures len == 0 && outcome.None? && hasDocument ==>
                Paused(doc, script) || Last(script, doc.script) == Some(Bytes(0))
      ensures outcome.Some? ==> hasDocument && outcome.value in {Completed, StreamFailed}
      ensures outcome == Some(Completed) ==> len == 0 && !chunkData && header == |headers| && doc.remaining == ""
      ensures outcome == Some(StreamFailed) ==> Last(script, doc.script).Some? && Last(script, doc.script).value.Close?
      ensures !hasDocument && mustSend == (BUFFER_SIZE <= old(len)) ==>
                outcome.None? && if old(Livelocks()) then Livelocks() && 0 < len && !sendRequired else sendRequired || len == 0
      ensures Progresses(old(doc.script)) && NonEmpty(old(chunks)) ==> NonEmpty(chunks)
      ensures Progresses(old(doc.script)) || !hasDocument ==> Potential(doc.remaining) <= old(Potential(doc.remaining))
      ensures Progresses(old(doc.script)) && hasDocument && !sendRequired && outcome.None? ==>
                Potential(doc.remaining) < old(Potential(doc.remaining))
      ensures old(Ready(doc.script, doc.remaining)) ==>
                Ready(doc.script, doc.remaining) && outcome != Some(StreamFailed) && (hasDocument && outcome.None? ==> 0 < len)
    {
      hide Progresses, Emitted, Concat, Out, LinesLeft, NonEmpty, Small, Rest, Last, Ready, QueuesAll;
      sendRequired, outcome := mustSend, None;
      if !sendRequired && header < |headers| {
        sendRequired := QueueHeaders(net, doc);
      }
      if !sendRequired && hasDocument {
        RestTail(script, doc.script);
        ReadyAnswers(doc.script, doc.remaining);
        var step := QueueDocument(net, doc);
        match step
        case Queued =>
        case MustSend => sendRequired := true;
        case Finished => outcome := Some(Completed);
        case Broken => outcome := Some(StreamFailed);
      }
    }

    /** `flush_data`, from any state and against any answers.
        - Conservation: what is on the wire and in the buffer stays exactly the message
          so far, and completion means all of it is on the wire.
        - Every outcome has its cause: the connection closed, the document failed, the
          connection blocked when nothing more could be buffered, or there is nothing to
          send and the document has no more for now.
        - Termination: with answers that make progress (and, without a document, do not
          block) the loop ends within a number of writes computable beforehand.
        - Completion: a connection that accepts and a document that delivers complete.
        - Livelock: a connection that only blocks is polled forever if and only if there
          is no document and everything there is to send fits into the buffer. */
    method FlushData(net: Sink, doc: Source) returns (outcome: Outcome)
      requires Valid(net, doc)
      modifies this`len, this`header, this`chunkData, this`chunks, this`ended, buffer, net, doc
      ensures Valid(net, doc) && Rest(net.script, old(net.script)) && Rest(doc.script, old(doc.script))
      ensures outcome == Completed ==> len == 0 && net.wire == Emitted() && header == |headers|
                                       && (hasDocument ==> ended == chunkedMessage && doc.remaining == "")
      ensures outcome == StreamFailed ==>
                hasDocument && Last(old(doc.script), doc.script).Some? && Last(old(doc.script), doc.script).value.Close?
      ensures outcome == Closed ==> Last(old(net.script), net.script).Some? && Last(old(net.script), net.script).value.Close?
      ensures outcome == Unanswered ==> net.script == [] && 0 < len
      ensures outcome == Waiting ==>
                || (Last(old(net.script), net.script) == Some(Block) && 0 < len && Saturated(doc, old(doc.script)))
                || (len == 0 && hasDocument && header == |headers|
                    && (Paused(doc, old(doc.script)) || Last(old(doc.script), doc.script) == Some(Bytes(0))))
      ensures Progresses(old(doc.script)) && NonEmpty(old(chunks)) ==> NonEmpty(chunks)
      ensures outcome == Unanswered && Progresses(old(net.script))
              && (if hasDocument then Progresses(old(doc.script)) else Willing(old(net.script))) ==>
                |old(net.script)| <= old(Potential(doc.remaining))
      ensures Willing(old(net.script)) && (hasDocument ==> old(Ready(doc.script, doc.remaining)))
              && old(Potential(doc.remaining)) < |old(net.script)| ==>
                outcome == Completed
      ensures Blocks(old(net.script)) && Progresses(old(doc.script)) && old(Potential(doc.remaining)) < |old(net.script)| ==>
                (outcome == Unanswered <==> old(Livelocks()))
    {
      hide Progresses, Blocks, Willing, Emitted, Concat, LinesLeft, Out, NonEmpty, Small, Rest, Last, Ready, QueuesAll, Saturated, Paused, Livelocks;
      ghost var script, source, potential := net.script, doc.script, Potential(doc.remaining);
      ghost var bounded := Progresses(script) && if hasDocument then Progresses(source) else Willing(script);
      ghost var ready := Ready(doc.script, doc.remaining);
      ghost var stuck := Livelocks();
      LivelockMeans();
      RestAll(script);
      RestAll(source);
      AnswersProgress(script);
      AnswersProgress(source);
      ReadyProgresses(source, doc.remaining);
      var sendRequired := len >= BUFFER_SIZE;
      while true
        invariant Valid(net, doc) && Rest(net.script, script) && Rest(doc.script, source)
        invariant sendRequired ==> BUFFER_SIZE <= len
        invariant Progresses(source) && NonEmpty(old(chunks)) ==> NonEmpty(chunks)
        invariant bounded ==> |script| - |net.script| + Potential(doc.remaining) <= potential
        invariant ready ==> Ready(doc.script, doc.remaining)
        invariant Blocks(script) && !hasDocument ==> Livelocks() == stuck && sendRequired == (BUFFER_SIZE <= len)
        invariant Blocks(script) && !hasDocument && !stuck ==> net.script == script
        decreases |net.script|
      {
        RestKeeps(script, net.script);
        RestKeeps(source, doc.script);
        var result;
        sendRequired, result := FillBuffer(net, doc, sendRequired, source);
        LivelockMeans();
        if result.Some? || len == 0 || net.script == [] {
          WireWhenEmpty(net, doc);
          outcome := if result.Some? then result.value
                     else if len != 0 then Unanswered
                     else if hasDocument then Waiting else Completed;
          return;
        }
        RestTail(script, net.script);
        Answer0(net.script);
        var r := WriteOut(net);
        match r
        case SR_SUCCESS(_) => sendRequired := false;
        case SR_BLOCK => if sendRequired { return Waiting; }
        case _ => return Closed;
      }
    }

    lemma LivelockMeans()
      ensures Livelocks() ==> !hasDocument && len < BUFFER_SIZE
    {
    }

    lemma WireWhenEmpty(net: Sink, doc: Source)
      requires Valid(net, doc)
      ensures len == 0 ==> net.wire == Emitted()
    {
    }

    /** An upper bound on the network writes still possible while a document is sent. */
    ghost function Potential(remaining: string): nat
      requires header <= |headers|
      reads this
    {
      len + LinesLeft(headers, header) + (if header < |headers| then 2 else 0)
      + 14 * |remaining| + (if chunkData then 5 else 0)
    }
  }

  /** Whether `queue_headers` gets to the end of the headers without a network write. */
  predicate QueuesAll(len: nat, headers: seq<(string, string)>, k: nat)
    requires k <= |headers|
    decreases |headers| - k
  {
    k == |headers| ||
    var n := |HeaderLine(headers[k])|;
    if len + n < BUFFER_SIZE - 3 then QueuesAll(len + n, headers, k + 1)
    else len == 0 && QueuesAll(0, headers, k + 1)
  }

  /** The document's next answer, or its last one since `script`, is that it blocks. */
  ghost predicate Paused(doc: Source, script: seq<Answer>)
    reads doc
  {
    (doc.script == [] && doc.remaining != "") || Last(script, doc.script) == Some(Block)
  }

  /** Reading got this answer, with `remaining` still to come. */
  predicate HasBlocked(script: seq<Answer>, remaining: string)
  {
    if script == [] then remaining != "" else script[0].Block?
  }

  /** A document that delivers to its end, a byte at a time at least. */
  ghost predicate Ready(script: seq<Answer>, remaining: string) { Willing(script) && |remaining| <= |script| }

  lemma ReadyKept(script: seq<Answer>, remaining: string, later: string)
    requires |later| <= |remaining|
    ensures Ready(script, remaining) && (remaining != "" ==> |later| < |remaining|) ==> Ready(Tail(script), later)
  {
  }

  lemma ReadyAnswers(script: seq<Answer>, remaining: string)
    ensures Ready(script, remaining) && script == [] ==> remaining == ""
    ensures Ready(script, remaining) && script != [] ==> script[0].Bytes? && 0 < script[0].atMost
  {
  }

  lemma AnswersProgress(script: seq<Answer>)
    ensures Willing(script) || Blocks(script) ==> Progresses(script)
  {
  }

  lemma ReadyProgresses(script: seq<Answer>, remaining: string)
    ensures Ready(script, remaining) ==> Progresses(script)
  {
  }

  lemma Answer0(script: seq<Answer>)
    requires script != []
    ensures Progresses(script) && script[0].Bytes? ==> 0 < script[0].atMost
    ensures Willing(script) ==> script[0].Bytes?
    ensures Blocks(script) ==> script[0].Block?
  {
  }

  lemma FirstAnswer(script: seq<Answer>)
    ensures Progresses(script) && script != [] && script[0].Bytes? ==> 0 < script[0].atMost
  {
  }

  ghost function LinesLeft(headers: seq<(string, string)>, k: nat): nat
    requires k <= |headers|
    decreases |headers| - k
  {
    if k == |headers| then 0 else |HeaderLine(headers[k])| + LinesLeft(headers, k + 1)
  }

  lemma HeaderLinesNext(start: string, headers: seq<(string, string)>, k: nat)
    requires k < |headers|
    ensures start + HeaderLines(headers[..k + 1])
            == start + HeaderLines(headers[..k]) + if Fits(headers[k]) then HeaderLine(headers[k]) else ""
  {
    assert headers[..k + 1][..k] == headers[..k];
  }

  lemma ClippedAppend(a: string, b: string, len: nat)
    requires len == |Clipped(a)|
    ensures Clipped(a) + b[..Least(|b|, BUFFER_SIZE - len - 1)] == Clipped(a + b)
  {
  }

  lemma HeadStart(leader: string, headers: seq<(string, string)>)
    requires headers != []
    ensures Head(leader, headers, 0) == Clipped(leader + CRLF)
  {
    assert headers[..0] == [];
  }

  lemma BodyStart(chunked: bool)
    ensures Body(chunked, [], false) == ""
  {
  }

  lemma BodyNext(head: string, chunked: bool, chunks: seq<string>, data: string, rest: string)
    ensures head + Body(chunked, chunks + [data], false)
            == head + Body(chunked, chunks, false) + if chunked then Frame(data) else data
    ensures Concat(chunks + [data]) + rest == Concat(chunks) + (data + rest)
  {
    hide Frame;
    assert (chunks + [data])[..|chunks|] == chunks;
  }

  lemma ChunksNext(chunks: seq<string>, data: string)
    ensures Small(chunks) && |data| <= BUFFER_SIZE ==> Small(chunks + [data])
    ensures NonEmpty(chunks) && data != "" ==> NonEmpty(chunks + [data])
  {
  }

  lemma BodyEnd(head: string, chunks: seq<string>)
    ensures head + Body(true, chunks, true) == head + Body(true, chunks, false) + LAST_CHUNK
  {
  }

  lemma OutMore(wire: string, before: string, more: string)
    ensures wire + (before + more) == wire + before + more
  {
  }

  lemma SplitAt(wire: string, mem: string, n: nat, len: nat)
    requires n <= len <= |mem|
    ensures wire + mem[..len] == wire + mem[..n] + mem[n..len]
  {
  }

  ghost function Stored(mem: string, at: nat, text: string): string
    requires at + |text| <= |mem|
  {
    mem[..at] + text + mem[at + |text|..]
  }

  lemma FrameLayout(mem: string, size: string, len: nat, n: nat)
    requires |size| == CHUNK_DIGITS && len + n + 12 <= |mem|
    ensures Stored(Stored(Stored(mem, len, size), len + 8, CRLF), len + 10 + n, CRLF)[..len + n + 12]
            == mem[..len] + (size + CRLF + mem[len + 10..len + 10 + n] + CRLF)
  {
    var a := Stored(mem, len, size);
    assert a[..len + 8] == mem[..len] + size && a[len + 10..] == mem[len + 10..];
    var b := Stored(a, len + 8, CRLF);
    assert b[..len + 10] == mem[..len] + size + CRLF;
    assert b[len + 10..] == mem[len + 10..];
    assert b[..len + 10 + n] == mem[..len] + size + CRLF + mem[len + 10..len + 10 + n];
  }
}
