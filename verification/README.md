# Verified models of the talk_base layer

A Dafny model of the parts of libjingle's `talk_base` that carry real invariants, and
proofs about them: the HTTP message engine, the single-producer/single-consumer queue,
packet framing over TCP, Base64, CRC-32, the disk cache, the HTTP client's retry driver,
`linked_ptr`, header attributes with the Digest answer, the byte buffer, and IP prefix
arithmetic. `dafny verify dfyconfig.toml` checks everything.

How the model is built:

- Code that updates fields and buffers in place is a class over `array`s and fields, each
  method proved against a function on values; the laws are lemmas about those functions.
- The environment is adversarial. Streams, sockets, documents and schedulers answer from
  scripts that nothing constrains but their own contracts; file sizes, clocks, hash
  functions and the owner's verdicts are parameters.
- Machine widths are written out where they matter: 32-bit counters and `size_t` (the ARM
  target), the 16-bit packet length, 32-bit registers and address words, the wrapping
  version number.
- Where the code parts from its intent, the code is kept, an input or a reachable run shows
  the failure, and an if-and-only-if says exactly when the intent holds:
  a Content-Length header without a value makes parsing depend on fragmentation
  (`HttpParser.IndependentIff`, `CutsDiverge`); an empty document read ends a chunked body
  (`HttpRoundTrip.ChunkedRoundTripIff`); over-long leaders and headers are cut or missing
  (`HeadCompleteIff`, `LongHeaderLost`); a chunk size or length of 2^32 - 1 is taken for an
  unknown one, so that a connection closed in mid-chunk counts as complete
  (`HttpReceiver.CloseMeans`, `HttpRoundTrip.HugeChunkCloses`); sender and parser can differ on the coding
  (`CodingAgreesIff`, `CodingSplit`); a connection that only blocks is polled forever when
  there is no document and all fits the buffer (`HttpSender.HttpSender.FlushData`); the queue
  is first-in first-out forever only for capacities that divide 2^32
  (`LockFreeQueue.FifoForeverIff`, `NotFifo`); a third thread sees a size outside the promised
  range when the counters overtake its first read (`SizePushedFirstIff`,
  `SizePoppedFirstIff`, `SizeSeenByOutsider`); packets of 65536 bytes pass the guard and do
  not survive (`PacketFraming.StreamCarriedIff`, `LostPacket`); required padding trips over
  trailing noise (`Base64Laws.NoiseToleranceRequiredPaddingIff`, `TrailingBlank`); the disk
  cache's victim scan runs past the end, and locking can evict the entry being locked
  (`DiskCache.LockVerdict`, `OverfullUnlock`, `DanglingLock`); `Purge` leaves the total size
  stale (`PurgeGoodIff`, `StalePurge`); a read position is taken for valid again after 2^32
  resets (`ByteBuffer.PositionIff`, `StaleAccepted`); `CountIPMaskBits` counts what its
  documentation says only for masks without a hole in the first open word
  (`IpAddress.CountIff`, `HoleMiscounted`).

| file | what it holds |
|---|---|
| Wrappers, Streams | shared types; documents and connections that answer from scripts |
| HttpText, HttpParser | text helpers; the parser as functions, the byte-at-a-time reference, fragmentation independence |
| HttpGrammar | messages and beginnings of messages as texts: what each text means to the parser, and which streams are none |
| HttpReceiver | the receiving half of `HttpBase` on its 32 KB buffer |
| HttpSender | the wire format, and the sending half of `HttpBase` |
| HttpRoundTrip | parser and sender are inverse; end to end |
| HttpClient | retries, redirects and proxy authentication; termination measure |
| HttpAttributes, AttributeGrammar | attribute parser, quoting, the Digest answer; what every text means |
| LockFreeQueue | every interleaving of one producer and one consumer |
| PacketFraming | framing, drops and reassembly |
| Base64, Base64Laws, Base64Modes | encoder and decoder; what they promise together; every text in every mode |
| Crc32 | table against bit-serial definition; error detection |
| DiskCache | locks, accounting and eviction |
| LinkedPtr | rings of handles on the heap against plain shared ownership |
| ByteBuffer | the growable queue, typed values, saved positions |
| IpAddress | truncation, mask counting, mask building |

## Model

| member | source | states |
|---|---|---|
| `HttpText.NumberStaysInLine` | base/httpbase.cc:168-205 | the number scanners take no length, yet on a trimmed line never look past it, whatever memory follows |
| `HttpText.DigitsAre` | base/httpbase.cc:192-205 | the digits by character, capitals and small letters |
| `HttpText.ScanIgnoresCase` | base/httpbase.cc:192-205 | a number reads the same in capitals and small letters, on every text |
| `HttpText.DecimalScans` | base/httpbase.cc:168-174 | a decimal number behind white space and a sign reads as that number, negated modulo 2^32, cut off at 2^32 - 1, up to the first character that is no digit |
| `HttpParser.SplitHeader` | base/httpbase.cc:156-167 | name and value lie inside the line; a value of a trimmed line has no white space at either rim |
| `HttpParser.LineLocal` | base/httpbase.cc:144-229 | the effect of a line does not depend on the memory behind it, unless it is a Content-Length header without a value |
| `HttpParser.FeedBlock` | base/httpbase.cc:111-142 | delivering body bytes one by one amounts to one block delivery |
| `HttpParser.ProcessIsFeed` | base/httpbase.cc:79-142 | one Process call on any buffer, with any stale memory behind it, does what the byte-at-a-time reference does |
| `HttpParser.SessionIsReference` | base/httpbase.cc:561-584 | for every cut of a stream into reads, carrying the unprocessed suffix, leader, headers, body, completion, error and leftover are those of the reference |
| `HttpParser.IndependentIff` | base/httpbase.cc:79-229 | the outcome of a stream is the same for all fragmentations and stale memories if and only if no valueless Content-Length header is reached in it |
| `HttpParser.DanglingDiverges` | base/httpbase.cc:168-174 | reaching such a header makes two runs on the same bytes end in different states |
| `HttpParser.CutsDiverge` | base/httpbase.cc:168-174 | two cuts of the same bytes, with the same memory behind every read, end in different states: read at once the line takes its number from the next one |
| `HttpParser.DanglingStream` | base/httpbase.cc:168-174 | such streams exist: any accepted leader followed by a bare Content-Length line |
| `HttpParser.SplitBareContentLength` | base/httpbase.cc:156-174 | the line "Content-Length:" is a header with that name and no value |
| `HttpGrammar.TextMeans` | base/httpbase.cc:79-229 | every message of the grammar (leader, headers, body by length, by chunks with trailers, or open), and every beginning of one, puts the parser into the state its parts say: leader, headers, body, completion, held bytes |
| `HttpGrammar.MessageIff` | base/httpbase.cc:79-229 | a stream is such a text if and only if no error has been reported on it |
| `HttpGrammar.ErrorIff` | base/httpbase.cc:144-229 | an error is reported if and only if a line is refused with it: by the owner, or as a violation of the protocol |
| `HttpGrammar.SessionMeans` | base/httpbase.cc:561-584 | the text's state is reached however the text is cut into reads, whatever memory lies behind them |
| `HttpGrammar.OpenBody` | base/httpbase.cc:111-142 | without length and chunks all bytes behind the head are handed over as body, nothing is held back and the message is not complete |
| `HttpGrammar.FeedTrailers` | base/httpbase.cc:216-221 | trailer lines change nothing |
| `HttpGrammar.EndsOpenIff` | base/httpbase.cc:231-234 | the parser waits for data of unknown size if and only if the stream is a text to which any data may be added |
| `HttpReceiver.HttpReceiver.constructor` | base/httpbase.cc:65-77 | a fresh receiver is where the parsing function starts |
| `HttpReceiver.HttpReceiver.FindHeader` | base/httpbase.cc:156-167 | the in-place search splits the buffered line exactly as the parsing function does, including the NUL case |
| `HttpReceiver.HttpReceiver.ProcessHeaderLine` | base/httpbase.cc:155-186 | a header line updates the fields as the parsing function does, or reports its error |
| `HttpReceiver.HttpReceiver.ProcessChunkSize` | base/httpbase.cc:192-206 | a chunk size must fill its line; zero leads to the trailers |
| `HttpReceiver.HttpReceiver.ProcessLine` | base/httpbase.cc:144-229 | the same for every line state |
| `HttpReceiver.HttpReceiver.TrimmedLength` | base/httpbase.cc:99-104 | the trimming loop finds the line without trailing white space |
| `HttpReceiver.HttpReceiver.ProcessNextLine` | base/httpbase.cc:91-110 | one line is consumed as the parsing function consumes it, or there is none |
| `HttpReceiver.HttpReceiver.ProcessNextBlock` | base/httpbase.cc:117-138 | one block of body bytes, up to the announced size, is consumed |
| `HttpReceiver.HttpReceiver.Process` | base/httpbase.cc:79-142 | the loop terminates with the fields and the unprocessed suffix of the parsing function |
| `HttpReceiver.HttpReceiver.DropFront` | base/httpbase.cc:570-572 | the move keeps exactly the unprocessed bytes |
| `HttpReceiver.HttpReceiver.ReadMore` | base/httpbase.cc:527-552 | what the connection gives up is appended behind the buffered bytes, and the result is its answer |
| `HttpReceiver.HttpReceiver.DoReceiveLoop` | base/httpbase.cc:510-589 | whatever the connection answers, the object is where the parsing function takes the bytes received, none is lost or read twice; unfinished means nothing to read or twenty reads, with everything buffered processed; finished means the verdict, a full buffer without a line end, or the close that was answered |
| `HttpReceiver.ProcessStalls` | base/httpbase.cc:561-576 | what Process leaves needs more input: processing it again, with any memory behind it, changes nothing |
| `HttpReceiver.SameBytesSameState` | base/httpbase.cc:510-589 | two receivers that got the same bytes in different pieces are in the same state |
| `HttpReceiver.CloseMeans` | base/httpbase.cc:491-508 | an orderly close ends the message if and only if the bytes received are a text to which any data may be added, and is a disconnection if the stream is cut anywhere else; other closes are told by their code |
| `HttpSender.HttpSender.constructor` | base/httpbase.cc:414-449 | the buffer starts as the leader, with the blank line if there are no headers; the document is framed exactly if the first Transfer-Encoding header says "chunked" to the letter |
| `HttpSender.HttpSender.TryHeader` | base/httpbase.cc:723-736 | a header line is queued exactly when room for the blank line and a NUL remains |
| `HttpSender.HttpSender.QueueHeaders` | base/httpbase.cc:719-741 | wire and buffer stay the message so far; a wait is reported exactly when the lines left do not all fit, and then the next one does not |
| `HttpSender.HttpSender.FrameInPlace` | base/httpbase.cc:647-658 | length, line ends and data written around the bytes read make one chunk frame |
| `HttpSender.HttpSender.QueueLastChunk` | base/httpbase.cc:662-669 | there is always room for the last chunk, which is appended |
| `HttpSender.HttpSender.QueueDocument` | base/httpbase.cc:622-684 | one document read keeps conservation and the buffer bound, in every result of the read; each result has its cause in the document's answer or the room left |
| `HttpSender.HttpSender.EndDocument` | base/httpbase.cc:662-677 | the last chunk is queued once, or the message is complete when nothing is buffered |
| `HttpSender.HttpSender.WriteOut` | base/httpbase.cc:695-713 | a partial write moves bytes from buffer to wire and loses none |
| `HttpSender.HttpSender.FillBuffer` | base/httpbase.cc:617-684 | the buffering half of the loop keeps conservation and uses up the potential |
| `HttpSender.HttpSender.FlushData` | base/httpbase.cc:599-717 | from any state and against any answers: conservation; the cause of every outcome; completion means the whole message is on the wire, and an accepting connection with a delivering document completes; the number of writes is bounded beforehand; a connection that only blocks is polled forever if and only if there is no document and everything fits the buffer |
| `HttpRoundTrip.HexScans` | base/httpbase.cc:651-652 | the eight-digit chunk length reads back as the length, up to 2^32 - 1 |
| `HttpRoundTrip.FeedFrame` | base/httpbase.cc:192-221 | one non-empty frame is taken in whole and leaves the parser at the next size |
| `HttpRoundTrip.ChunkedRoundTripIff` | base/httpbase.cc:640-669 | the framed body parses back to the document with nothing left over if and only if no document read was empty |
| `HttpRoundTrip.HeaderSplitIff` | base/httpbase.cc:723-726 | among headers without line ends and NULs, exactly those without ':' in the name and white space at the rim of the value come back |
| `HttpRoundTrip.HeadCompleteIff` | base/httpbase.cc:722-740 | the head is complete and in order if and only if leader and every header line fit; otherwise it is cut or headers are missing |
| `HttpRoundTrip.ChunkedMessageRoundTrip` | base/httpbase.cc:414-741 | a chunked message comes back whole: leader, headers in order, document |
| `HttpRoundTrip.SizedMessageRoundTrip` | base/httpbase.cc:414-741 | so does a message with an announced length, however its document was read |
| `HttpRoundTrip.EndToEnd` | base/httpbase.cc:510-741 | once the sender has completed, every receiver of the bytes on the wire, in whatever pieces, has exactly the message, chunked or with an announced length |
| `HttpRoundTrip.EndToEndClosed` | base/httpbase.cc:491-741 | a message that announces neither length nor chunks: every receiver of the bytes on the wire has exactly the message, waits for more, and takes an orderly close for its end |
| `HttpRoundTrip.HugeChunkCloses` | base/httpbase.cc:192-206 | behind a chunk size of eight f's a message cut off anywhere counts as complete |
| `HttpRoundTrip.Exchange` | base/httpbase.cc:414-741 | the sender does complete against an accepting connection and a delivering document, and then every receiver has exactly the message |
| `HttpRoundTrip.CodingAgreesIff` | base/httpbase.cc:433-437 | sender and parser take the body the same way if and only if the first coding, to the letter, and the last one, ignoring case, agree on "chunked" |
| `HttpRoundTrip.CodingSplit` | base/httpbase.cc:175-186 | with the value "Chunked" they do not |
| `HttpRoundTrip.LongHeaderLost` | base/httpbase.cc:727-732 | a head with one over-long header goes out without it |
| `HttpClient.ChallengeContext` | base/httpclient.cc:782-815 | once there is an authentication context no challenge is answered again |
| `HttpClient.ChallengeMeans` | base/httpclient.cc:782-815 | the first challenge of a known scheme is answered, if there is a user name and no context yet; the answer is lost exactly if the document cannot be replayed |
| `HttpClient.StepMeasure` | base/httpclient.cc:727-825 | every reconnect strictly decreases (redirects left, no context yet, retries left) lexicographically; every other step keeps it and signals at most once |
| `HttpClient.LexMeansLess` | base/httpclient.cc:727-825 | the triple ranks into a number of reconnects left |
| `HttpClient.ConnectionBound` | base/httpclient.cc:354-432 | one start makes at most 6 * 2 * (retries + 1) connection attempts and signals exactly once, when it ends |
| `HttpClient.RunEnds` | base/httpclient.cc:727-825 | and it ends, within 36 * (retries + 1) completions that are not informational |
| `HttpClient.StepCareful` | base/httpclient.cc:727-815 | a document is sent again only after it was rewound; a redirect the owner did not force repeats a GET or HEAD or becomes a GET; the request changes in no other way |
| `HttpClient.RunCareful` | base/httpclient.cc:459-470 | over a whole run: never redirected when forbidden, by default only GET and HEAD are repeated elsewhere, and what is sent is the original request or a GET without document |
| `HttpClient.RunMeans` | base/httpclient.cc:727-825 | every completion of every run: the client connects again if and only if a retry, a followed redirect or an answered challenge is due and no replay is lost, and is then the client spelled out; it ends with HE_STREAM if and only if the replay is lost, else with the event's error on an error or a final response; otherwise the exchange goes on |
| `HttpClient.EndMeans` | base/httpclient.cc:727-825 | a run that has ended did so at one event, and its one signal is HE_STREAM for a replay in vain, else that event's error, none for a final response |
| `HttpClient.HttpClient.AnswerChallenge` | base/httpclient.cc:784-814 | the loop over the challenges, with the document's replay |
| `HttpClient.HttpClient.HandleResponse` | base/httpclient.cc:754-825 | redirect, challenge or completion, as the step function has it |
| `HttpClient.HttpClient.OnHttpComplete` | base/httpclient.cc:727-825 | the object moves as the step function does |
| `HttpAttributes.FindNameEnd` | base/httpcommon.cc:281-288 | the scan stops at the first end of a name, '=' signs in the tail included in it |
| `HttpAttributes.ReadQuoted` | base/httpcommon.cc:293-303 | the escape loop reads the reference's quoted value, with a missing closing quote or a final backslash too |
| `HttpAttributes.ReadBare` | base/httpcommon.cc:304-311 | the loop reads up to white space or a comma |
| `HttpAttributes.HttpParseAttributes` | base/httpcommon.cc:268-316 | the loops end on every input and return the reference's attributes |
| `HttpAttributes.Quote` | base/httpcommon.cc:715-725 | the loop quotes and escapes |
| `HttpAttributes.UnquoteEscape` | base/httpcommon.cc:293-303 | a quoted string reads back whatever it holds, and not one character further |
| `HttpAttributes.ListReads` | base/httpcommon.cc:268-316 | a list of printed items reads back in order, for all values |
| `HttpAttributes.ParseNames` | base/httpcommon.cc:226-288 | no text yields a name with white space or with '=' before its tail |
| `HttpAttributes.CanonicalReadsIff` | base/httpcommon.cc:268-316 | a list of attributes, printed with quotes, reads back if and only if its names are such names |
| `HttpAttributes.ParseStable` | base/httpcommon.cc:268-316 | parsing, printing and parsing again is parsing once, on every text |
| `HttpAttributes.QuotedPlainIff` | base/httpcommon.cc:857 | putting the response between bare quotes quotes it if and only if it holds neither quote nor backslash |
| `HttpAttributes.ComposeDigest` | base/httpcommon.cc:846-861 | the streamed header is the scheme and the list of its items |
| `HttpAttributes.DigestReads` | base/httpcommon.cc:846-861 | parsing inverts composing: the scheme, then exactly the composed pairs in order, with any quotes and backslashes in them |
| `HttpAttributes.HttpHasAttribute` | base/httpcommon.cc:318-331 | the loop finds the first attribute of the name |
| `HttpAttributes.AnswerDigest` | base/httpcommon.cc:791-862 | for every challenge the answer, read as attributes, echoes realm, nonce and opaque, names the user, and holds the response of section 3.2.2.1 of RFC 2617, spelled out with and without qop, which the server's comparison accepts |
| `HttpAttributes.ExampleOfTheStandard` | base/httpcommon.cc:813-836 | in the example of section 3.5 of RFC 2617 the text hashed is the one printed there |
| `AttributeGrammar.PrintMeans` | base/httpcommon.cc:268-316 | a text of names, bare, quoted and unclosed values, escapes, commas and gaps yields exactly the attributes its pieces say |
| `AttributeGrammar.Readable` | base/httpcommon.cc:268-316 | every text is such a text |
| `AttributeGrammar.ParseMeans` | base/httpcommon.cc:226-316 | on every text the parser returns a list if and only if it is the meaning of pieces the text consists of |
| `LockFreeQueue.TestsExact` | base/atomicops.h:145-151 | full, empty and size tests are exact under wrapping counters |
| `LockFreeQueue.WriteNeverMeetsRead` | base/atomicops.h:97-122 | the slot being written is never the slot being read |
| `LockFreeQueue.StepKeepsInv` | base/atomicops.h:92-134 | every atomic step of either thread keeps the invariant |
| `LockFreeQueue.RunKeepsInv` | base/atomicops.h:92-134 | so does every run, for fewer than 2^32 pushes or a capacity that divides 2^32 |
| `LockFreeQueue.StepRefinesFifo` | base/atomicops.h:92-134 | only the counter increments change the queue, appending the pushed value and removing the oldest; what is read is the oldest |
| `LockFreeQueue.SizeSeenByProducer` | base/atomicops.h:149-151 | a size read while the consumer goes on is the number held at the second read, within the capacity |
| `LockFreeQueue.SizeSeenByConsumer` | base/atomicops.h:149-151 | the same for the consumer |
| `LockFreeQueue.SizePushedFirstIff` | base/atomicops.h:149-151 | a third thread that reads the pushed count first sees a size in range, for every run in between, if and only if what was popped had been pushed before that read, or the lead wraps into the range |
| `LockFreeQueue.SizePoppedFirstIff` | base/atomicops.h:149-151 | one that reads the popped count first, if and only if no more was pushed since than the capacity, modulo 2^32 |
| `LockFreeQueue.SizeSeenByOutsider` | base/atomicops.h:149-151 | one element, or two, going through between a third thread's reads show a size above the capacity, in either order of reading |
| `LockFreeQueue.NotFifo` | base/atomicops.h:92-107 | a run of 2^32 pushes that overwrites a live slot, for any capacity that does not divide 2^32 |
| `LockFreeQueue.FifoForeverIff` | base/atomicops.h:92-134 | all runs are first in, first out if and only if the capacity divides 2^32 |
| `PacketFraming.UnframeAppend` | base/asynctcpsocket.cc:192-213 | reassembling in fragments is reassembling at once |
| `PacketFraming.FrameIs` | base/asynctcpsocket.cc:116-119 | the high byte of the length, modulo 2^16, comes first, then the packet |
| `PacketFraming.UnframeFrames` | base/asynctcpsocket.cc:106-130 | framed packets come back in order, nothing left over |
| `PacketFraming.CarriedIff` | base/asynctcpsocket.cc:106-119 | of the packets the guard admits, those of at most 65535 bytes survive and no other |
| `PacketFraming.StreamCarriedIff` | base/asynctcpsocket.cc:106-119 | a whole stream of admitted packets comes out as it went in, nothing left over, if and only if all have at most 65535 bytes |
| `PacketFraming.LostPacket` | base/asynctcpsocket.cc:107-119 | a packet of 65536 bytes comes out empty |
| `PacketFraming.Leftover` | base/asynctcpsocket.cc:192-213 | never more than 65536 bytes wait for the rest of a frame |
| `PacketFraming.TightLeftover` | base/asynctcpsocket.cc:263-271 | a stream that leaves exactly two bytes of buffer |
| `PacketFraming.AsyncTCPSocket.Flush` | base/asynctcpsocket.cc:215-230 | sends what the socket takes, returns its answer, and conserves accepted bytes and buffer |
| `PacketFraming.AsyncTCPSocket.CopyFrame` | base/asynctcpsocket.cc:116-119 | length and payload in the buffer are the frame |
| `PacketFraming.AsyncTCPSocket.Send` | base/asynctcpsocket.cc:106-130 | refused, silently dropped while a packet is stuck, dropped if and only if the socket takes nothing, else committed whole; accepted bytes and buffer stay whole frames |
| `PacketFraming.AsyncTCPSocket.OnWriteEvent` | base/asynctcpsocket.cc:275-281 | sends on what is buffered, as much as the socket takes, and keeps the frames whole |
| `PacketFraming.AsyncTCPSocket.ProcessInput` | base/asynctcpsocket.cc:192-213 | delivers exactly the complete frames in order and leaves the incomplete one |
| `PacketFraming.AsyncTCPSocket.OnReadEvent` | base/asynctcpsocket.cc:236-273 | takes in what the socket hands over; for any bytes two bytes of buffer stay free and the overflow reset is never taken |
| `PacketFraming.EndToEnd` | base/asynctcpsocket.cc:106-281 | the receiver delivers a prefix of the packets not dropped, and all of them once everything has arrived |
| `Base64.TablesInverse` | base/base64.cc:30-70 | the two tables are inverse |
| `Base64.TableIs` | base/base64.cc:30-45 | the alphabet of section 4 of RFC 4648 |
| `Base64.SextetsAreBits` | base/base64.cc:99-136 | sextets are the bits of the bytes regrouped |
| `Base64.EncodeQuantum` | base/base64.cc:104-134 | one round of the loop writes the next four characters and touches none before |
| `Base64.EncodeFromArray` | base/base64.cc:99-136 | the loop writes the encoding |
| `Base64.GetNextQuantum` | base/base64.cc:138-190 | the pad counting and rollback loop returns the reference's quantum |
| `Base64.AppendBytes` | base/base64.cc:227-240 | the shifts append the quantum's bytes and leave its unused bits |
| `Base64.DecodeFromArray` | base/base64.cc:203-257 | the loop returns the reference's bytes, verdict and position, for all flags |
| `Base64Laws.NoiseTolerance` | base/base64.cc:138-252 | with optional padding, noise anywhere in an encoding changes nothing, and all is consumed |
| `Base64Laws.NoiseToleranceRequiredPaddingIff` | base/base64.cc:224-252 | with required padding it fails exactly when noise follows an encoding that ends without pads |
| `Base64Laws.TrailingBlank` | base/base64.cc:244-246 | three encoded bytes and a blank decode to the bytes and are refused |
| `Base64Laws.StrictIffEncoding` | base/base64.cc:203-257 | strict decoding accepts exactly the encodings, and encoding what it returns gives the text back |
| `Base64Laws.StrictRoundTrip` | base/base64.cc:99-257 | an encoding decodes to its bytes and is consumed whole |
| `Base64Laws.NoiseIs` | base/base64.cc:47-70 | by character: what is passed over as white space, and as any noise |
| `Base64Modes.BytesAreBits` | base/base64.cc:227-240 | a quantum's bytes are its leading bits, stray bits or not |
| `Base64Modes.Reading` | base/base64.cc:138-190 | every text is, in every mode, a body of letters and noise, a tail of pads and noise, and a rest that cannot belong to them |
| `Base64Modes.DecodeMeans` | base/base64.cc:138-257 | for every text and every combination of flags: the bytes are those of the body's letters; reading stops behind the tail, or before its first pad if some are missing; the text is accepted if and only if the letters fill their quanta and nothing follows, or stray bits are zero (or allowed) and required pads complete, and it is used up where that is asked |
| `Crc32.TableStep` | base/crc32.cc:60-64 | eight bit steps are one table lookup |
| `Crc32.Entry` | base/crc32.cc:44-54 | the inner loop computes a table entry |
| `Crc32.Checksummer.EnsureTable` | base/crc32.cc:41-55 | the table is filled on the first call and left alone later |
| `Crc32.Checksummer.UpdateCrc32` | base/crc32.cc:57-66 | the result is the bit-serial checksum, on the first call and every later one |
| `Crc32.CrcAppend` | base/crc32.cc:57-66 | updating by one buffer and then another is updating by both |
| `Crc32.CrcAffine` | base/crc32.cc:57-66 | the checksum is affine over exclusive or |
| `Crc32.CollisionIff` | base/crc32.cc:57-66 | equally long buffers collide exactly when their difference leaves an empty register empty |
| `Crc32.BurstDetected` | base/crc32.cc:44-65 | buffers that differ within four consecutive bytes collide only if equal |
| `Crc32.PolynomialIs` | base/crc32.cc:36-38 | the exponents of the polynomial |
| `Crc32.CrcOfA` | base/crc32.cc:57-66 | the checksum of one letter, as a number |
| `DiskCache.ChooseMeans` | base/diskcache.cc:242-257 | which entry the victim scan picks, when it gives up, and exactly when it runs past the end |
| `DiskCache.EvictVerdict` | base/diskcache.cc:241-263 | success means within the limit, running past the end that only the last entry is deletable and the rest over the limit; both ways if the files can be deleted, and then it gives up if and only if, above the limit, nothing is deletable or the scan's choice is not |
| `DiskCache.EvictLeaves` | base/diskcache.cc:241-263 | only entries of the cache are left, all those in use or locked among them, and the booked size goes down by what went |
| `DiskCache.EvictOldest` | base/diskcache.cc:242-257 | whatever went was modified no later than any deletable entry that is left |
| `DiskCache.LockVerdict` | base/diskcache.cc:114-126 | locking is undefined if and only if the limit check runs past the end or evicts the entry being locked, refused if and only if the entry is locked or being read or the check gives up, and neither below the limit |
| `DiskCache.LockGood` | base/diskcache.cc:114-126 | a granted lock leaves the entry locked and the total within the limit |
| `DiskCache.StepGoodIff` | base/diskcache.cc:98-360 | every call keeps totals equal to the sums and entries in agreement with the open streams, if and only if it is not a purge of booked bytes |
| `DiskCache.PurgeGoodIff` | base/diskcache.cc:98-112 | a purge keeps the books right if and only if it is refused or no bytes are booked |
| `DiskCache.StepEntry` | base/diskcache.cc:114-360 | the whole entry after every call: locked by a granted lock, unlocked at once or after the last writer with its time set then and at no other moment, accessors and sizes booked, all other entries as before |
| `DiskCache.StepEnforces` | base/diskcache.cc:229-360 | every call that unlocks a resource, at once or by the last writer's close, and every admissible lock enforces the limit: afterwards the total is within it, or nothing is deletable, or the scan's victim is not; undefined if and only if the scan runs past the end |
| `DiskCache.StepGone` | base/diskcache.cc:98-264 | a resource goes only by a purge, by its deletion, or in a check above the limit when it is unlocked and unused by then |
| `DiskCache.StepAppears` | base/diskcache.cc:314-329 | a resource appears only by a lock, as a new entry |
| `DiskCache.DeleteMeans` | base/diskcache.cc:203-227 | a deletion removes its resource if and only if that is unlocked and unused |
| `DiskCache.StepVerdict` | base/diskcache.cc:98-227 | what every call that checks no limit returns, from the entry it names |
| `DiskCache.StepStreams` | base/diskcache.cc:128-186 | streams are opened by exactly the granted reads (unlocked) and writes (locked) and closed by their release |
| `DiskCache.WriteAndClose` | base/diskcache.cc:128-154 | writing a stream and closing it exchanges the old file's size for the new one's and leaves all else as before |
| `DiskCache.Run` | base/diskcache.cc:98-360 | every state that defined calls reach has right totals and streams |
| `DiskCache.NoMixedAccess` | base/diskcache.cc:114-186 | in every state reached no resource has a reader and a writer open together, and an open stream's entry is there and never deletable |
| `DiskCache.OverfullUnlock` | base/diskcache.cc:156-169 | unlocking the first resource, if it exceeds the limit, runs past the end: reached from the empty cache |
| `DiskCache.DanglingLock` | base/diskcache.cc:114-126 | locking the older of two resources, together over the limit, evicts it and writes to where it was: reached from the empty cache |
| `DiskCache.StalePurge` | base/diskcache.cc:98-112 | purging a cache that holds bytes is reached and spoils the totals |
| `DiskCache.DiskCache.ChooseVictim` | base/diskcache.cc:242-257 | the loops find the scan's choice, ties included |
| `DiskCache.DiskCache.DeleteResource` | base/diskcache.cc:203-227 | verdict and whole new state; an entry in use or locked is never removed |
| `DiskCache.DiskCache.CheckLimit` | base/diskcache.cc:229-264 | the loop ends with the verdict, entries and total of the eviction |
| `DiskCache.DiskCache.GetOrCreateEntry` | base/diskcache.cc:314-329 | finds the entry or inserts a fresh one |
| `DiskCache.DiskCache.LockResource` | base/diskcache.cc:114-126 | verdict and whole new state of the lock |
| `DiskCache.DiskCache.UnlockResource` | base/diskcache.cc:156-169 | verdict and whole new state: at once with a limit check, or after the last writer; undefined for an unknown id |
| `DiskCache.DiskCache.WriteResource` | base/diskcache.cc:128-154 | verdict and whole new state: sizes, streams and accessors booked |
| `DiskCache.DiskCache.ReadResource` | base/diskcache.cc:171-186 | verdict and whole new state |
| `DiskCache.DiskCache.ReleaseResource` | base/diskcache.cc:331-360 | verdict and whole new state; the entry is always found and no counter underflows |
| `DiskCache.DiskCache.Purge` | base/diskcache.cc:98-112 | verdict and whole new state, right if and only if no booked bytes are forgotten |
| `LinkedPtr.MadeGood` | base/linked_ptr.h:60-61 | a first handle is a ring of its own |
| `LinkedPtr.AcquiredGood` | base/linked_ptr.h:99-111 | joining makes one ring of the two and leaves every other ring linked, both ways |
| `LinkedPtr.ReleasedGood` | base/linked_ptr.h:127-136 | leaving bridges the ring or ends it |
| `LinkedPtr.ReleasedIsLeave` | base/linked_ptr.h:127-136 | an object is deleted exactly when nobody else holds it |
| `LinkedPtr.StepShares` | base/linked_ptr.h:60-73 | construct, copy, assign (also within one ring) and destroy do to owners and deletions what plain shared ownership does |
| `LinkedPtr.Run` | base/linked_ptr.h:60-73 | every legal run keeps the rings well formed and refines shared ownership |
| `LinkedPtr.DeletedIffAbandoned` | base/linked_ptr.h:60-136 | after every run an object has been deleted, once, if and only if its last handle has left |
| `LinkedPtr.LinkedPtr.constructor` | base/linked_ptr.h:60-61 | the handle linked to itself is the new ring |
| `LinkedPtr.LinkedPtr.Copy` | base/linked_ptr.h:64-65 | a fresh handle joins the ring |
| `LinkedPtr.LinkedPtr.Unique` | base/linked_ptr.h:92 | the link test tells whether the ring has one handle |
| `LinkedPtr.LinkedPtr.Acquire` | base/linked_ptr.h:99-111 | the pointer updates on the heap are the join |
| `LinkedPtr.LinkedPtr.Release` | base/linked_ptr.h:127-136 | the pointer updates on the heap are the leave, and the object is deleted when it must be |
| `LinkedPtr.LinkedPtr.Assign` | base/linked_ptr.h:66-73 | leave and join, and nothing for a self-assignment |
| `ByteBuffer.Written` | base/bytebuffer.cc:194-205 | a write appends to the contents, compacting or growing when it must |
| `ByteBuffer.PositionIff` | base/bytebuffer.cc:232-242 | a position saved before any run is accepted after it if and only if the resets in between are a multiple of 2^32 |
| `ByteBuffer.PositionReplays` | base/bytebuffer.cc:232-242 | without a reset it is in bounds and replays what was readable, followed by everything written since |
| `ByteBuffer.StaleAccepted` | base/bytebuffer.cc:236-248 | after exactly 2^32 resets a stale position is accepted and leads out of bounds |
| `ByteBuffer.FirstInFirstOut` | base/bytebuffer.cc:152-230 | over every run what was taken and what is left are what was there and what was written |
| `ByteBuffer.NumberOfBytes` | base/bytebuffer.cc:81-188 | a number written in w bytes, in either order, reads back modulo 256^w |
| `ByteBuffer.BytesOfNumber` | base/bytebuffer.cc:81-188 | and the bytes of a number read are those read |
| `ByteBuffer.SwapBytes` | base/byteorder.h:153-169 | a number swapped by the host-to-network functions lies in little-endian memory in network order |
| `ByteBuffer.SwapNumber` | base/byteorder.h:171-181 | swapping what the host reads gives the number in network order |
| `ByteBuffer.LowBytes` | base/bytebuffer.cc:171-178 | the three bytes picked from a word are the number's low ones |
| `ByteBuffer.MessageReads` | base/bytebuffer.cc:81-188 | a message of typed values reads back value by value, whatever follows it |
| `ByteBuffer.ByteBuffer.constructor` | base/bytebuffer.cc:61-75 | a buffer over given bytes |
| `ByteBuffer.ByteBuffer.Resize` | base/bytebuffer.cc:207-223 | in place or on new memory, keeps the unread bytes that fit |
| `ByteBuffer.ByteBuffer.WriteBytes` | base/bytebuffer.cc:194-205 | appends |
| `ByteBuffer.ByteBuffer.ReadBytes` | base/bytebuffer.cc:152-160 | takes the oldest bytes, or fails and changes nothing |
| `ByteBuffer.ByteBuffer.Clear` | base/bytebuffer.cc:244-248 | empties and outdates positions |
| `ByteBuffer.ByteBuffer.Consume` | base/bytebuffer.cc:225-230 | skips the oldest bytes, or fails and changes nothing |
| `ByteBuffer.ByteBuffer.GetReadPosition` | base/bytebuffer.cc:232-234 | the position with the number of resets modulo 2^32 |
| `ByteBuffer.ByteBuffer.SetReadPosition` | base/bytebuffer.cc:236-242 | decided by the version alone; right for positions less than 2^32 resets old |
| `ByteBuffer.ByteBuffer.WriteUInt` | base/bytebuffer.cc:162-188 | the swapped word's memory is the number in the buffer's order, which is appended, for every width |
| `ByteBuffer.ByteBuffer.ReadUInt` | base/bytebuffer.cc:81-138 | the oldest bytes read as a host word and swapped are the number in the buffer's order; or fails and changes nothing |
| `ByteBuffer.ByteBuffer.WriteUInt24` | base/bytebuffer.cc:171-178 | appends the three low bytes in order |
| `ByteBuffer.ByteBuffer.ReadUInt24` | base/bytebuffer.cc:99-114 | reads the number in three bytes |
| `IpAddress.ShiftedMask` | base/ipaddress.cc:293-309 | the shifted constant is the mask of the leading bits |
| `IpAddress.SameBitsIff` | base/ipaddress.cc:282-323 | words mask to the same if and only if the masked bits agree |
| `IpAddress.TruncatedBit` | base/ipaddress.cc:282-323 | every bit of a truncated address: kept before the length, zero from there on |
| `IpAddress.TruncateMin` | base/ipaddress.cc:282-323 | truncating twice is truncating to the shorter length, negative lengths included |
| `IpAddress.SameTruncationIff` | base/ipaddress.cc:282-323 | addresses truncate to the same if and only if they agree on the kept bits |
| `IpAddress.TruncateWords` | base/ipaddress.cc:305-320 | the word loop computes the truncation |
| `IpAddress.TruncateIP` | base/ipaddress.cc:282-323 | all branches compute the truncation |
| `IpAddress.CountIsLastBit` | base/ipaddress.cc:357-369 | the bit-twiddling count finds the last set bit of a word |
| `IpAddress.CountIPMaskBits` | base/ipaddress.cc:325-370 | the scan and the count compute the position behind the last set bit of the first open word |
| `IpAddress.CountIff` | base/ipaddress.h:143-146 | the result is the documented number of leading bits set if and only if the first word that is not all ones has its zeros at its end |
| `IpAddress.HoleMiscounted` | base/ipaddress.h:143-146 | 0xFF00FF00 is counted as 24 and does not have 24 leading bits set |
| `IpAddress.CountsBack` | base/ipaddress.cc:325-370 | every prefix mask is counted back as its length |
| `IpAddress.MakePrefixes` | base/ifaddrs-android.cc:99-129 | the byte loop and the remainder byte write the mask bytes, for every prefix length, negative and over-long ones included |
| `IpAddress.PrefixIsTruncation` | base/ifaddrs-android.cc:122-127 | the mask built byte by byte is the all-ones address truncated |
| `IpAddress.PrefixCountsBack` | base/ifaddrs-android.cc:99-129 | and is counted back as its length |
| `IpAddress.MappedTruncation` | base/ipaddress.cc:168-175 | mapping into IPv6 commutes with truncation, at 96 bits more |
| `IpAddress.MappedBits` | base/ipaddress.cc:168-175 | the mapped prefix bit by bit: eighty zeros, sixteen ones, then the address |

## Left out

- Socket, file, X11, DBus, process and thread wrappers: foreign calls only.
- `DocumentStream` pull mode, signal delivery and logging in base/httpbase.cc; the owner's data callback accepts everything offered.
- Parsing and formatting of the leader line: the leader is text, and the owner's verdict on it a parameter.
- `HttpBase` receiving into a response document that blocks or fails, and discarding the body of a HEAD response.
- `HttpClient`: a stream that is already open counts as one more completed connect.
- `HttpClient` cache validation and freshness, DNS lookup, and the Windows authentication schemes.
- The hash of the credentials (`A1`, with its C-string handling) and MD5 itself: parameters of `AnswerDigest`, of which it needs that hashes hold no quote and no backslash.
- `HttpComposeAttributes`: it relies on `escape`, which is not part of this model.
- `LockFreeQueue`: `ClearAndResizeUnsafe`, which excludes other calls; the memory barrier is taken to make each step atomic and ordered.
- `HttpSender.HttpSender.constructor`: takes the header list in the order of the map, and the first match for the one `hasHeader` finds.
- `FifoForeverIff`: states the failing direction for integer elements, which is enough to exhibit the failure.
- `SendRaw` and the listening branch of `OnReadEvent` in base/asynctcpsocket.cc.
- `DiskCache`: undefined behaviour (an unknown id, the scan past the end, the dangling entry) is reported as its own verdict and not followed; totals are unbounded, and where the key order puts a new entry is a parameter.
- File naming and directory scanning of the disk cache: string formatting.
- `linked_ptr` conversions between element types: compiled out in the source.
- `ByteBuffer.ByteBuffer.WriteBytes`: sizes do not overflow `size_t`; uninitialised memory reads as zero.
- Address strings, address ordering, and the classification of address ranges.
- `BandwidthSmoother`, JSON, firewall rules, command-line flags and the other small containers: easy members only.
