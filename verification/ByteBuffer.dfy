/** The growable byte queue of base/bytebuffer.cc: compaction and growth in place, typed
    values in either byte order, and read positions that a version number guards. The
    host is little endian; the version is a 32-bit counter that wraps around. */
module ByteBuffer {
  import opened Wrappers

  const VERSIONS: nat := 0x1_0000_0000

  // ---------------------------------------------------------------------------
  // The queue as a value
  // ---------------------------------------------------------------------------

  /** All bytes stored since the last reset, how many of them were read, the room there
      is, and the number of resets (`Resize` or `Clear`) so far. */
  datatype Queue = Queue(tape: seq<byte>, start: nat, size: nat, resets: nat) {
    predicate Valid() { start <= |tape| <= size }

    function Contents(): seq<byte>
      requires Valid()
    {
      tape[start..]
    }
  }

  /** A saved read position. The class keeps `resets` only modulo 2^32, as its version. */
  datatype Mark = Mark(start: nat, resets: nat)

  function Max(a: nat, b: nat): nat { if a < b then b else a }

  function Resized(q: Queue, size: nat): (r: Queue)
    requires q.Valid()
    ensures r.Valid() && r.size >= q.size && r.size >= size
    ensures r.Contents() <= q.Contents()
    ensures r.Contents() == q.Contents() || |r.Contents()| == size
  {
    var kept := if size < |q.Contents()| then q.Contents()[..size] else q.Contents();
    Queue(kept, 0, if size <= q.size then q.size else Max(size, 3 * q.size / 2), q.resets + 1)
  }

  function Reserved(q: Queue, n: nat): (r: Queue)
    requires q.Valid()
    ensures r.Valid() && |r.tape| + n <= r.size && r.Contents() == q.Contents()
  {
    if |q.Contents()| + n > q.size - q.start then Resized(q, |q.Contents()| + n) else q
  }

  function Written(q: Queue, data: seq<byte>): (r: Queue)
    requires q.Valid()
    ensures r.Valid() && r.Contents() == q.Contents() + data
  {
    var room := Reserved(q, |data|);
    room.(tape := room.tape + data)
  }

  function Consumed(q: Queue, n: nat): (r: Queue)
    requires q.Valid()
    ensures r.Valid() && r.Contents() == if n <= |q.Contents()| then q.Contents()[n..] else q.Contents()
  {
    if n > |q.Contents()| then q else q.(start := q.start + n)
  }

  function Cleared(q: Queue): Queue { Queue([], 0, q.size, q.resets + 1) }

  function Version(resets: nat): nat { resets % VERSIONS }

  predicate Accepts(q: Queue, m: Mark) { Version(m.resets) == Version(q.resets) }

  function Sought(q: Queue, m: Mark): Queue { if Accepts(q, m) then q.(start := m.start) else q }

  // ---------------------------------------------------------------------------
  // Whole runs between saving a position and restoring it
  // ---------------------------------------------------------------------------

  datatype Op =
    | Write(data: seq<byte>)
    | Consume(n: nat)
    | Resize(size: nat)
    | Clear
    | Seek(mark: Mark)

  /** Positions come from this queue, less than 2^32 resets ago. */
  predicate Allowed(q: Queue, op: Op)
  {
    op.Seek? ==>
      && op.mark.resets <= q.resets < op.mark.resets + VERSIONS
      && (op.mark.resets == q.resets ==> op.mark.start <= |q.tape|)
  }

  function Step(q: Queue, op: Op): (r: Queue)
    requires q.Valid() && Allowed(q, op)
    ensures r.Valid()
  {
    match op
    case Write(data) => Written(q, data)
    case Consume(n) => Consumed(q, n)
    case Resize(size) => Resized(q, size)
    case Clear => Cleared(q)
    case Seek(m) => Sought(q, m)
  }

  predicate Legal(q: Queue, ops: seq<Op>)
    requires q.Valid()
    decreases |ops|
  {
    ops == [] || (Allowed(q, ops[0]) && Legal(Step(q, ops[0]), ops[1..]))
  }

  function Run(q: Queue, ops: seq<Op>): (r: Queue)
    requires q.Valid() && Legal(q, ops)
    ensures r.Valid()
    decreases |ops|
  {
    if ops == [] then q else Run(Step(q, ops[0]), ops[1..])
  }

  function Payload(op: Op): seq<byte> { if op.Write? then op.data else [] }

  /** The writes of a run, one after the other. */
  function Data(ops: seq<Op>): seq<byte>
  {
    if ops == [] then [] else Payload(ops[0]) + Data(ops[1..])
  }

  function Saved(q: Queue): Mark { Mark(q.start, q.resets) }

  lemma StepTape(q: Queue, op: Op)
    requires q.Valid() && Allowed(q, op)
    ensures var r := Step(q, op); q.resets <= r.resets
    ensures var r := Step(q, op);
      r.resets == q.resets ==> r.tape == q.tape + Payload(op)
  {
  }

  /** Without a reset a run only adds to the tape. */
  lemma {:induction false} RunTape(q: Queue, ops: seq<Op>)
    requires q.Valid() && Legal(q, ops)
    ensures var r := Run(q, ops); q.resets <= r.resets && (r.resets == q.resets ==> r.tape == q.tape + Data(ops))
    decreases |ops|
  {
    if ops != [] {
      StepTape(q, ops[0]);
      RunTape(Step(q, ops[0]), ops[1..]);
    }
  }

  /** A position saved before a run is accepted after it if and only if the number of
      resets in between is a multiple of 2^32. */
  lemma PositionIff(q: Queue, ops: seq<Op>)
    requires q.Valid() && Legal(q, ops)
    ensures var r := Run(q, ops);
      && q.resets <= r.resets
      && (Accepts(r, Saved(q)) <==> (r.resets - q.resets) % VERSIONS == 0)
      && (r.resets - q.resets < VERSIONS ==> (Accepts(r, Saved(q)) <==> r.resets == q.resets))
  {
    RunTape(q, ops);
    SameVersionIff(q.resets, Run(q, ops).resets);
  }

  /** When there was no reset, the position is in bounds and replays what was readable
      then, followed by everything written since. */
  lemma PositionReplays(q: Queue, ops: seq<Op>)
    requires q.Valid() && Legal(q, ops) && Run(q, ops).resets == q.resets
    ensures var r := Sought(Run(q, ops), Saved(q));
      r.Valid() && r.Contents() == q.Contents() + Data(ops)
  {
    RunTape(q, ops);
    hide Run, Legal, Version, Data;
    assert (q.tape + Data(ops))[q.start..] == q.Contents() + Data(ops);
  }

  lemma SameVersionIff(a: nat, b: nat)
    requires a <= b
    ensures Version(a) == Version(b) <==> (b - a) % VERSIONS == 0
    ensures b - a < VERSIONS ==> (Version(a) == Version(b) <==> a == b)
  {
  }

  // ---------------------------------------------------------------------------
  // First in, first out
  // ---------------------------------------------------------------------------

  predicate Queueing(ops: seq<Op>) { forall i :: 0 <= i < |ops| ==> ops[i].Write? || ops[i].Consume? }

  lemma {:induction false} QueueingLegal(q: Queue, ops: seq<Op>)
    requires q.Valid() && Queueing(ops)
    ensures Legal(q, ops)
    decreases |ops|
  {
    if ops != [] {
      QueueingLegal(Step(q, ops[0]), ops[1..]);
    }
  }

  /** What a consuming step takes off the front. */
  function Head(q: Queue, op: Op): seq<byte>
    requires q.Valid()
  {
    if op.Consume? && op.n <= |q.Contents()| then q.Contents()[..op.n] else []
  }

  function Taken(q: Queue, ops: seq<Op>): seq<byte>
    requires q.Valid() && Legal(q, ops)
    decreases |ops|
  {
    if ops == [] then [] else Head(q, ops[0]) + Taken(Step(q, ops[0]), ops[1..])
  }

  lemma StepConserves(q: Queue, op: Op)
    requires q.Valid() && (op.Write? || op.Consume?)
    ensures Head(q, op) + Step(q, op).Contents() == q.Contents() + Payload(op)
  {
  }

  /** Nothing is lost, repeated or reordered, through every compaction and growth. */
  lemma {:induction false} FirstInFirstOut(q: Queue, ops: seq<Op>)
    requires q.Valid() && Queueing(ops)
    ensures Legal(q, ops) && Taken(q, ops) + Run(q, ops).Contents() == q.Contents() + Data(ops)
    decreases |ops|
  {
    QueueingLegal(q, ops);
    if ops != [] {
      var op, next := ops[0], Step(q, ops[0]);
      StepConserves(q, op);
      FirstInFirstOut(next, ops[1..]);
      Chain(Head(q, op), Taken(next, ops[1..]), Run(next, ops[1..]).Contents(),
            q.Contents(), next.Contents(), Payload(op), Data(ops[1..]));
      hide Head, Step, Payload, Queueing;
    }
  }

  lemma Chain(head: seq<byte>, taken: seq<byte>, rest: seq<byte>,
              before: seq<byte>, between: seq<byte>, payload: seq<byte>, data: seq<byte>)
    requires head + between == before + payload && taken + rest == between + data
    ensures head + taken + rest == before + (payload + data)
  {
    calc {
      head + taken + rest;
      head + (taken + rest);
      (head + between) + data;
      before + (payload + data);
    }
  }

  function Clears(n: nat): seq<Op> { seq(n, i => Clear) }

  lemma {:induction false} ClearsRun(q: Queue, n: nat)
    requires q.Valid()
    ensures Legal(q, Clears(n))
    ensures var r := Run(q, Clears(n));
      r.resets == q.resets + n && (n > 0 ==> r.tape == [])
    decreases n
  {
    if n > 0 {
      assert Clears(n)[1..] == Clears(n - 1);
      ClearsRun(Cleared(q), n - 1);
    }
  }

  /** After exactly 2^32 resets a stale position is taken for a valid one and leads out of
      bounds. */
  lemma StaleAccepted(q: Queue)
    requires q.Valid() && q.start > 0
    ensures Legal(q, Clears(VERSIONS))
    ensures var r := Run(q, Clears(VERSIONS)); Accepts(r, Saved(q)) && !Sought(r, Saved(q)).Valid()
  {
    ClearsRun(q, VERSIONS);
    PositionIff(q, Clears(VERSIONS));
  }

  // ---------------------------------------------------------------------------
  // Numbers
  // ---------------------------------------------------------------------------

  datatype ByteOrder = ORDER_NETWORK | ORDER_HOST

  function Power(w: nat): nat { if w == 0 then 1 else 256 * Power(w - 1) }

  /** The low `w` bytes of a number, most significant first in network order. */
  function Bytes(order: ByteOrder, w: nat, v: nat): (s: seq<byte>)
    ensures |s| == w
  {
    if w == 0 then []
    else if order == ORDER_NETWORK then Bytes(order, w - 1, v / 256) + [v % 256]
    else [v % 256] + Bytes(order, w - 1, v / 256)
  }

  function Number(order: ByteOrder, s: seq<byte>): nat
  {
    if s == [] then 0
    else if order == ORDER_NETWORK then 256 * Number(order, s[..|s| - 1]) + s[|s| - 1]
    else s[0] + 256 * Number(order, s[1..])
  }

  lemma DivMod(v: nat, n: nat)
    requires n > 0
    ensures v % (256 * n) == v % 256 + 256 * (v / 256 % n)
  {
    var a, b := v / 256, v % 256;
    var c, d := a / n, a % n;
    assert v == 256 * (c * n + d) + b;
    assert v == (256 * n) * c + (256 * d + b) by {
      assert 256 * (c * n) == (256 * n) * c;
    }
    assert 256 * d + b < 256 * n;
    UniqueRemainder(v, 256 * n, c, 256 * d + b);
  }

  lemma UniqueRemainder(v: nat, n: nat, q: nat, r: nat)
    requires n > 0 && v == n * q + r && r < n
    ensures v % n == r
  {
    var k, m := v / n, v % n;
    assert n * (q - k) == m - r by {
      assert n * (q - k) == n * q - n * k;
    }
    assert n * (k - q) == -(n * (q - k));
    if k < q {
      AtLeast(n, q - k);
    } else if k > q {
      AtLeast(n, k - q);
    }
  }

  lemma AtLeast(n: nat, d: nat)
    requires d > 0
    ensures n * d >= n
  {
  }

  lemma {:induction false} PowerPositive(w: nat)
    ensures Power(w) > 0
  {
    if w > 0 {
      PowerPositive(w - 1);
    }
  }

  /** A number written in w bytes reads back modulo 256^w. */
  lemma {:induction false} NumberOfBytes(order: ByteOrder, w: nat, v: nat)
    ensures Power(w) > 0 && Number(order, Bytes(order, w, v)) == v % Power(w)
  {
    PowerPositive(w);
    if w > 0 {
      PowerPositive(w - 1);
      NumberOfBytes(order, w - 1, v / 256);
      DivMod(v, Power(w - 1));
      var s, t := Bytes(order, w, v), Bytes(order, w - 1, v / 256);
      if order == ORDER_NETWORK {
        assert s[..w - 1] == t;
      } else {
        assert s[1..] == t;
      }
    }
  }

  /** And the bytes of a number that was read are those read. */
  lemma {:induction false} BytesOfNumber(order: ByteOrder, s: seq<byte>)
    ensures Bytes(order, |s|, Number(order, s)) == s
  {
    if s != [] {
      var x, t, b := Number(order, s), s[1..], s[0];
      if order == ORDER_NETWORK {
        t, b := s[..|s| - 1], s[|s| - 1];
        assert s == t + [b];
      } else {
        assert s == [b] + t;
      }
      BytesOfNumber(order, t);
      assert x == 256 * Number(order, t) + b;
      LowByte(Number(order, t), b);
    }
  }

  lemma LowByte(v: nat, b: byte)
    ensures (256 * v + b) % 256 == b && (256 * v + b) / 256 == v
  {
  }

  /** Three of the four bytes of a word, as the 24-bit accessors pick them. */
  lemma {:induction false} LowBytes(order: ByteOrder, w: nat, v: nat)
    ensures order == ORDER_NETWORK ==> Bytes(order, w + 1, v)[1..] == Bytes(order, w, v)
    ensures order == ORDER_HOST ==> Bytes(order, w + 1, v)[..w] == Bytes(order, w, v)
  {
    if w > 0 {
      LowBytes(order, w - 1, v / 256);
      var a, b := Bytes(order, w + 1, v), Bytes(order, w, v / 256);
      if order == ORDER_NETWORK {
        assert a[1..] == b[1..] + [v % 256];
      } else {
        assert a[..w] == [v % 256] + b[..w - 1];
      }
    }
  }

  lemma LeadingZero(order: ByteOrder, s: seq<byte>)
    ensures order == ORDER_NETWORK ==> Number(order, [0] + s) == Number(order, s)
    ensures order == ORDER_HOST ==> Number(order, s + [0]) == Number(order, s)
  {
    if order == ORDER_NETWORK {
      LeadingZeroNetwork(s);
    } else {
      TrailingZeroHost(s);
    }
  }

  lemma {:induction false} LeadingZeroNetwork(s: seq<byte>)
    ensures Number(ORDER_NETWORK, [0] + s) == Number(ORDER_NETWORK, s)
  {
    var t := [0] + s;
    if s == [] {
      assert t[..0] == [];
    } else {
      LeadingZeroNetwork(s[..|s| - 1]);
      assert t[..|s|] == [0] + s[..|s| - 1];
    }
  }

  lemma {:induction false} TrailingZeroHost(s: seq<byte>)
    ensures Number(ORDER_HOST, s + [0]) == Number(ORDER_HOST, s)
  {
    var t := s + [0];
    if s == [] {
      assert t[1..] == [];
    } else {
      TrailingZeroHost(s[1..]);
      assert t[1..] == s[1..] + [0];
    }
  }

  /** `HostToNetwork` and `NetworkToHost` on a little-endian host: the low w bytes of a
      number, in reverse. */
  function Swap(w: nat, v: nat): nat
  {
    if w == 0 then 0 else v % 256 * Power(w - 1) + Swap(w - 1, v / 256)
  }

  lemma {:induction false} SwapFits(w: nat, v: nat)
    ensures Swap(w, v) < Power(w)
  {
    if w > 0 {
      SwapFits(w - 1, v / 256);
      var p := Power(w - 1);
      assert v % 256 * p <= 255 * p by { Product(v % 256, p); }
    }
  }

  lemma Product(a: nat, p: nat)
    requires a <= 255
    ensures a * p <= 255 * p
  {
  }

  /** The host bytes of a number with a digit put in front. */
  lemma {:induction false} HostBytesGrow(w: nat, hi: byte, lo: nat)
    requires lo < Power(w)
    ensures Bytes(ORDER_HOST, w + 1, hi * Power(w) + lo) == Bytes(ORDER_HOST, w, lo) + [hi]
  {
    var x := hi * Power(w) + lo;
    if w == 0 {
      assert x == hi && Bytes(ORDER_HOST, 0, x / 256) == [];
    } else {
      var p := Power(w - 1);
      assert x == 256 * (hi * p + lo / 256) + lo % 256 by {
        assert hi * (256 * p) == 256 * (hi * p);
      }
      LowByte(hi * p + lo / 256, lo % 256);
      HostBytesGrow(w - 1, hi, lo / 256);
      assert Bytes(ORDER_HOST, w + 1, x) == [lo % 256] + Bytes(ORDER_HOST, w, hi * p + lo / 256);
    }
  }

  /** A swapped number in host memory is the number in network order. */
  lemma {:induction false} SwapBytes(w: nat, v: nat)
    ensures Bytes(ORDER_HOST, w, Swap(w, v)) == Bytes(ORDER_NETWORK, w, v)
  {
    if w > 0 {
      SwapBytes(w - 1, v / 256);
      SwapFits(w - 1, v / 256);
      HostBytesGrow(w - 1, v % 256, Swap(w - 1, v / 256));
    }
  }

  lemma {:induction false} NetworkFront(s: seq<byte>)
    requires s != []
    ensures Number(ORDER_NETWORK, s) == s[0] * Power(|s| - 1) + Number(ORDER_NETWORK, s[1..])
  {
    if |s| == 1 {
      assert s[..0] == [] && s[1..] == [];
    } else {
      var t := s[..|s| - 1];
      NetworkFront(t);
      assert s[1..][..|s| - 2] == t[1..] && t[0] == s[0] && s[1..][|s| - 2] == s[|s| - 1];
      assert 256 * (s[0] * Power(|s| - 2)) == s[0] * (256 * Power(|s| - 2));
    }
  }

  /** Swapping what host order makes of bytes gives what network order makes of them. */
  lemma {:induction false} SwapNumber(s: seq<byte>)
    ensures Swap(|s|, Number(ORDER_HOST, s)) == Number(ORDER_NETWORK, s)
  {
    if s != [] {
      SwapNumber(s[1..]);
      LowByte(Number(ORDER_HOST, s[1..]), s[0]);
      NetworkFront(s);
    }
  }

  /** The word's memory as the writers hand it on: swapped first for network order. */
  function Memory(order: ByteOrder, w: nat, v: nat): (s: seq<byte>)
  {
    Bytes(ORDER_HOST, w, if order == ORDER_NETWORK then Swap(w, v) else v)
  }

  /** And the number the readers make of it. */
  function FromMemory(order: ByteOrder, s: seq<byte>): nat
  {
    var v := Number(ORDER_HOST, s);
    if order == ORDER_NETWORK then Swap(|s|, v) else v
  }

  lemma MemoryIs(order: ByteOrder, w: nat, v: nat, s: seq<byte>)
    ensures Memory(order, w, v) == Bytes(order, w, v)
    ensures FromMemory(order, s) == Number(order, s)
  {
    SwapBytes(w, v);
    SwapNumber(s);
  }

  datatype Field = Field(width: nat, value: nat)

  function Encode(order: ByteOrder, fields: seq<Field>): seq<byte>
  {
    if fields == [] then [] else Bytes(order, fields[0].width, fields[0].value) + Encode(order, fields[1..])
  }

  /** Reading values of the given widths off the front: the values, and what is left. */
  function Decode(order: ByteOrder, widths: seq<nat>, s: seq<byte>): (seq<nat>, seq<byte>)
  {
    if widths == [] || |s| < widths[0] then ([], s)
    else
      var rest := Decode(order, widths[1..], s[widths[0]..]);
      ([Number(order, s[..widths[0]])] + rest.0, rest.1)
  }

  function Widths(fields: seq<Field>): seq<nat>
  {
    if fields == [] then [] else [fields[0].width] + Widths(fields[1..])
  }

  function Values(fields: seq<Field>): seq<nat>
  {
    if fields == [] then [] else [fields[0].value] + Values(fields[1..])
  }

  /** A message of typed values reads back value by value, whatever follows it. */
  lemma {:induction false} MessageReads(order: ByteOrder, fields: seq<Field>, rest: seq<byte>)
    requires forall i :: 0 <= i < |fields| ==> fields[i].value < Power(fields[i].width)
    ensures Decode(order, Widths(fields), Encode(order, fields) + rest)
         == (Values(fields), rest)
  {
    if fields == [] {
      assert Encode(order, fields) + rest == rest;
    } else {
      var w, v, more := fields[0].width, fields[0].value, fields[1..];
      MessageReads(order, more, rest);
      NumberOfBytes(order, w, v);
      SmallRemainder(v, Power(w));
      BytesLength(order, w, v);
      hide Bytes, Number, Power;
      var s, tail := Encode(order, fields) + rest, Encode(order, more) + rest;
      assert s == Bytes(order, w, v) + tail;
      assert s[..w] == Bytes(order, w, v) && s[w..] == tail;
      assert Widths(fields)[1..] == Widths(more);
    }
  }

  lemma BytesLength(order: ByteOrder, w: nat, v: nat)
    ensures |Bytes(order, w, v)| == w
  {
  }

  lemma SmallRemainder(v: nat, n: nat)
    requires v < n
    ensures v % n == v
  {
  }

  // ---------------------------------------------------------------------------
  // The buffer
  // ---------------------------------------------------------------------------

  lemma ResizedTape(tape: seq<byte>, start: nat, room: nat, resets: nat, size: nat, len: nat)
    requires start <= |tape| <= room && len == if size < |tape| - start then size else |tape| - start
    ensures Resized(Queue(tape, start, room, resets), size).tape == tape[start..start + len]
  {
  }

  datatype ReadPosition = ReadPosition(start: nat, version: nat)

  class ByteBuffer {
    var bytes: array<byte>
    var start: nat
    var end: nat
    var version: nat
    const order: ByteOrder
    ghost var resets: nat

    ghost predicate Valid()
      reads this
    {
      start <= end <= bytes.Length && version == Version(resets)
    }

    ghost function View(): (q: Queue)
      requires Valid()
      reads this, bytes
      ensures q.Valid()
    {
      Queue(bytes[..end], start, bytes.Length, resets)
    }

    constructor (data: seq<byte>, byteOrder: ByteOrder)
      ensures Valid() && fresh(bytes) && order == byteOrder
      ensures View() == Queue(data, 0, |data|, 0)
    {
      order, version, start, end, resets := byteOrder, 0, 0, |data|, 0;
      bytes := new byte[|data|](i requires 0 <= i < |data| => data[i]);
    }

    constructor Sized(byteOrder: ByteOrder)
      ensures Valid() && fresh(bytes) && order == byteOrder
      ensures View() == Queue([], 0, 4096, 0)
    {
      order, version, start, end, resets := byteOrder, 0, 0, 0, 0;
      bytes := new byte[4096];
    }

    function Length(): nat
      requires Valid()
      reads this
    {
      end - start
    }

    /** A new version, which outdates the saved positions. */
    method NextVersion()
      requires version == Version(resets)
      modifies this`version, this`resets
      ensures resets == old(resets) + 1 && version == Version(resets)
    {
      resets := resets + 1;
      version := (version + 1) % VERSIONS;
    }

    /** The unread bytes, or the first of them, at the front of `target`. */
    method CopyOut(target: array<byte>, len: nat)
      requires Valid() && len <= end - start && len <= target.Length
      modifies target
      ensures target[..len] == old(bytes[start..start + len])
    {
      forall i | 0 <= i < len { target[i] := bytes[start + i]; }
    }

    method Resize(size: nat)
      requires Valid()
      modifies this, bytes
      ensures Valid() && (bytes == old(bytes) || fresh(bytes))
      ensures View() == Resized(old(View()), size)
    {
      hide Version;
      var len := if size < end - start then size else end - start;
      ResizedTape(bytes[..end], start, bytes.Length, resets, size, len);
      assert bytes[..end][start..start + len] == bytes[start..start + len];
      if size <= bytes.Length {
        CopyOut(bytes, len);
      } else {
        var more := new byte[Max(size, 3 * bytes.Length / 2)];
        CopyOut(more, len);
        bytes := more;
      }
      start, end := 0, len;
      NextVersion();
    }

    /** `ReserveWriteBuffer` and the copy that fills what it hands out. */
    method WriteBytes(data: seq<byte>)
      requires Valid()
      modifies this, bytes
      ensures Valid() && (bytes == old(bytes) || fresh(bytes))
      ensures View() == Written(old(View()), data)
    {
      hide Version;
      if end - start + |data| > bytes.Length - start {
        Resize(end - start + |data|);
      }
      ghost var tape := bytes[..end];
      forall i | 0 <= i < |data| { bytes[end + i] := data[i]; }
      end := end + |data|;
      assert bytes[..end] == tape + data;
    }

    method ReadBytes(len: nat) returns (ok: bool, val: seq<byte>)
      requires Valid()
      modifies this`start
      ensures Valid() && View() == Consumed(old(View()), len)
      ensures ok == (len <= |old(View().Contents())|)
      ensures val == if ok then old(View().Contents())[..len] else []
    {
      ok, val := len <= Length(), [];
      if ok {
        val := bytes[start..start + len];
        assert val == View().Contents()[..len];
        start := start + len;
      }
    }

    method Consume(size: nat) returns (ok: bool)
      requires Valid()
      modifies this`start
      ensures Valid() && View() == Consumed(old(View()), size)
      ensures ok == (size <= |old(View().Contents())|)
    {
      ok := size <= Length();
      if ok {
        start := start + size;
      }
    }

    method Clear()
      requires Valid()
      modifies this, bytes
      ensures Valid() && bytes == old(bytes) && View() == Cleared(old(View()))
    {
      forall i | 0 <= i < bytes.Length { bytes[i] := 0; }
      start, end := 0, 0;
      NextVersion();
    }

    method GetReadPosition() returns (position: ReadPosition)
      requires Valid()
      ensures position == ReadPosition(Saved(View()).start, Version(Saved(View()).resets))
    {
      position := ReadPosition(start, version);
    }

    /** `mark` says when the position was saved. The state stays good if that is less
        than 2^32 resets ago; only the version decides. */
    method SetReadPosition(position: ReadPosition, ghost mark: Mark) returns (ok: bool)
      requires Valid() && position == ReadPosition(mark.start, Version(mark.resets))
      modifies this`start
      ensures ok == Accepts(old(View()), mark)
      ensures start == if ok then mark.start else old(start)
      ensures Allowed(old(View()), Seek(mark)) ==>
        Valid() && View() == Sought(old(View()), mark) && ok == (mark.resets == resets)
    {
      if mark.resets <= resets {
        SameVersionIff(mark.resets, resets);
      }
      ok := position.version == version;
      if ok {
        start := position.start;
      }
    }

    /** `WriteUInt8`, `WriteUInt16`, `WriteUInt32` and `WriteUInt64`. */
    method WriteUInt(width: nat, val: nat)
      requires Valid()
      modifies this, bytes
      ensures Valid() && (bytes == old(bytes) || fresh(bytes))
      ensures View() == Written(old(View()), Bytes(order, width, val))
    {
      MemoryIs(order, width, val, []);
      WriteBytes(Memory(order, width, val));
    }

    /** `ReadUInt8`, `ReadUInt16`, `ReadUInt32` and `ReadUInt64`. */
    method ReadUInt(width: nat) returns (ok: bool, val: nat)
      requires Valid()
      modifies this`start
      ensures Valid() && View() == Consumed(old(View()), width)
      ensures ok == (width <= |old(View().Contents())|)
      ensures ok ==> val == Number(order, old(View().Contents())[..width])
    {
      var v;
      ok, v := ReadBytes(width);
      MemoryIs(order, 0, 0, v);
      val := FromMemory(order, v);
    }

    /** Three bytes out of the four of a word. */
    method WriteUInt24(val: nat)
      requires Valid()
      modifies this, bytes
      ensures Valid() && (bytes == old(bytes) || fresh(bytes))
      ensures View() == Written(old(View()), Bytes(order, 3, val))
    {
      LowBytes(order, 3, val);
      MemoryIs(order, 4, val, []);
      var memory := Memory(order, 4, val);
      WriteBytes(if order == ORDER_NETWORK then memory[1..] else memory[..3]);
    }

    method ReadUInt24() returns (ok: bool, val: nat)
      requires Valid()
      modifies this`start
      ensures Valid() && View() == Consumed(old(View()), 3)
      ensures ok == (3 <= |old(View().Contents())|)
      ensures ok ==> val == Number(order, old(View().Contents())[..3])
    {
      var v;
      ok, v := ReadBytes(3);
      LeadingZero(order, v);
      var memory := if order == ORDER_NETWORK then [0] + v else v + [0];
      MemoryIs(order, 0, 0, memory);
      val := FromMemory(order, memory);
    }
  }
}
