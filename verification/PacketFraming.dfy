/** Packet framing over a TCP byte stream (base/asynctcpsocket.cc): a 16-bit length in
    front of every packet, partial and failing sends, silently dropped packets, and
    reassembly in place from arbitrary fragments. */
module PacketFraming {
  import opened Wrappers

  type Packet = seq<byte>

  const MAX_PACKET_SIZE: nat := 64 * 1024
  const PKT_LEN_SIZE: nat := 2
  const BUF_SIZE: nat := MAX_PACKET_SIZE + PKT_LEN_SIZE

  /** The length as the 16-bit field carries it, in network byte order. */
  function Frame(p: Packet): (f: seq<byte>)
    ensures |f| == PKT_LEN_SIZE + |p|
  {
    [|p| / 256 % 256, |p| % 256] + p
  }

  /** The high byte of the length comes first. */
  lemma FrameIs(p: Packet)
    ensures var f := Frame(p); f[0] as int * 256 + f[1] as int == |p| % 65536 && f[2..] == p
  {
    TwoBytes(|p|);
  }

  lemma TwoBytes(n: nat)
    ensures n / 256 % 256 * 256 + n % 256 == n % 65536
  {
    var high, a, b := n / 65536, n / 256 % 256, n % 256;
    assert n / 256 == high * 256 + a by { assert n / 256 / 256 == high; }
    assert n == high * 65536 + (a * 256 + b);
  }

  function Frames(ps: seq<Packet>): seq<byte>
  {
    if ps == [] then [] else Frames(ps[..|ps| - 1]) + Frame(ps[|ps| - 1])
  }

  /** Bytes of the first frame of a stream, if it is complete. */
  function FrameSize(s: seq<byte>): (n: nat)
    requires PKT_LEN_SIZE <= |s|
    ensures PKT_LEN_SIZE <= n <= PKT_LEN_SIZE + 0xFFFF
  {
    PKT_LEN_SIZE + (s[0] as int) * 256 + s[1] as int
  }

  predicate HasFrame(s: seq<byte>) { PKT_LEN_SIZE <= |s| && FrameSize(s) <= |s| }

  /** The packets a receiver gets out of a stream, and the incomplete frame behind them. */
  function Unframe(s: seq<byte>): (r: (seq<Packet>, seq<byte>))
    ensures !HasFrame(r.1)
    ensures |r.1| <= MAX_PACKET_SIZE
  {
    if !HasFrame(s) then ([], s)
    else
      var n := FrameSize(s);
      var (ps, rest) := Unframe(s[n..]);
      ([s[PKT_LEN_SIZE..n]] + ps, rest)
  }

  lemma UnframeFirst(s: seq<byte>)
    ensures HasFrame(s) ==> var n := FrameSize(s);
              Unframe(s) == ([s[PKT_LEN_SIZE..n]] + Unframe(s[n..]).0, Unframe(s[n..]).1)
    ensures !HasFrame(s) ==> Unframe(s) == ([], s)
  {
  }

  /** Never more than a length field and 65534 bytes wait for the rest of a frame. */
  lemma Leftover(s: seq<byte>)
    ensures |Unframe(s).1| <= MAX_PACKET_SIZE
  {
    var r := Unframe(s);
  }

  lemma FirstFrameStays(a: seq<byte>, b: seq<byte>)
    requires HasFrame(a)
    ensures HasFrame(a + b)
    ensures var n := FrameSize(a);
            FrameSize(a + b) == n && (a + b)[PKT_LEN_SIZE..n] == a[PKT_LEN_SIZE..n] && (a + b)[n..] == a[n..] + b
  {
  }

  /** Reassembly in fragments: what was left over and what arrives next, together. */
  lemma {:induction false} UnframeAppend(a: seq<byte>, b: seq<byte>)
    ensures var (ps, rest) := Unframe(a);
            Unframe(a + b) == (ps + Unframe(rest + b).0, Unframe(rest + b).1)
    decreases |a|
  {
    hide Unframe;
    UnframeFirst(a);
    if HasFrame(a) {
      var n := FrameSize(a);
      FirstFrameStays(a, b);
      UnframeFirst(a + b);
      UnframeAppend(a[n..], b);
      var p := [a[PKT_LEN_SIZE..n]];
      var (ps, rest) := Unframe(a[n..]);
      assert p + (ps + Unframe(rest + b).0) == p + ps + Unframe(rest + b).0;
    } else {
      assert [] + Unframe(a + b).0 == Unframe(a + b).0;
    }
  }

  lemma UnframeFrame(p: Packet)
    requires |p| <= 0xFFFF
    ensures Unframe(Frame(p)) == ([p], [])
  {
    var f := Frame(p);
    UnframeFirst(f);
    UnframeFirst([]);
    assert HasFrame(f) && FrameSize(f) == |f|;
    assert f[PKT_LEN_SIZE..|f|] == p && f[|f|..] == [] && [p] + [] == [p];
  }

  predicate Carriable(ps: seq<Packet>) { forall i :: 0 <= i < |ps| ==> |ps[i]| <= 0xFFFF }

  lemma {:induction false} UnframeFrames(ps: seq<Packet>)
    requires Carriable(ps)
    ensures Unframe(Frames(ps)) == (ps, [])
  {
    if ps != [] {
      var front, last := ps[..|ps| - 1], ps[|ps| - 1];
      UnframeFrames(front);
      UnframeAppend(Frames(front), Frame(last));
      assert [] + Frame(last) == Frame(last);
      UnframeFrame(last);
      assert front + [last] == ps;
    } else {
      assert !HasFrame([]);
    }
  }

  /** The guard of `Send` admits 65536 bytes, one more than the length field can say:
      a packet within the guard comes out as it went in if and only if it is shorter. */
  lemma CarriedIff(p: Packet)
    requires |p| <= MAX_PACKET_SIZE
    ensures Unframe(Frame(p)) == ([p], []) <==> |p| <= 0xFFFF
  {
    if |p| <= 0xFFFF {
      UnframeFrame(p);
    } else {
      var f := Frame(p);
      assert FrameSize(f) == PKT_LEN_SIZE;
      assert Unframe(f).0[0] == f[PKT_LEN_SIZE..PKT_LEN_SIZE] == [];
    }
  }

  lemma {:induction false} FramesAppend(a: seq<Packet>, b: seq<Packet>)
    ensures Frames(a + b) == Frames(a) + Frames(b)
  {
    hide Frame;
    if b == [] {
      assert a + b == a;
    } else {
      assert (a + b)[..|a + b| - 1] == a + b[..|b| - 1];
      FramesAppend(a, b[..|b| - 1]);
    }
  }

  lemma FirstTooLong(ps: seq<Packet>) returns (i: nat)
    requires !Carriable(ps)
    ensures i < |ps| && |ps[i]| > 0xFFFF && Carriable(ps[..i])
  {
    i := 0;
    while |ps[i]| <= 0xFFFF
      invariant i < |ps| && Carriable(ps[..i]) && !Carriable(ps)
      invariant exists j :: i <= j < |ps| && |ps[j]| > 0xFFFF
      decreases |ps| - i
    {
      i := i + 1;
    }
  }

  /** A whole stream of admitted packets comes out as it went in, nothing left over, if
      and only if none of them has 65536 bytes. */
  lemma StreamCarriedIff(ps: seq<Packet>)
    requires forall i :: 0 <= i < |ps| ==> |ps[i]| <= MAX_PACKET_SIZE
    ensures Unframe(Frames(ps)) == (ps, []) <==> Carriable(ps)
  {
    if Carriable(ps) {
      UnframeFrames(ps);
    } else {
      var i := FirstTooLong(ps);
      hide Unframe, Frames, Carriable, Frame;
      var a, p, b := ps[..i], ps[i], ps[i + 1..];
      assert ps == a + ([p] + b);
      FramesAppend(a, [p] + b);
      FramesAppend([p], b);
      OneFrame(p);
      UnframeFrames(a);
      var rest := Frame(p) + Frames(b);
      UnframeAppend(Frames(a), rest);
      assert [] + rest == rest;
      TooLongEmpties(p, Frames(b));
      assert Unframe(Frames(ps)).0[i] == [];
    }
  }

  lemma TooLongEmpties(p: Packet, more: seq<byte>)
    requires |p| == MAX_PACKET_SIZE
    ensures Unframe(Frame(p) + more).0 != [] && Unframe(Frame(p) + more).0[0] == []
  {
    hide Unframe;
    var s := Frame(p) + more;
    assert s[0] == 0 && s[1] == 0;
    UnframeFirst(s);
  }

  lemma OneFrame(p: Packet)
    ensures Frames([p]) == Frame(p)
  {
    assert [p][..0] == [];
  }

  /** The packet that is lost. */
  lemma LostPacket(p: Packet)
    requires p == seq(MAX_PACKET_SIZE, _ => 7)
    ensures Unframe(Frame(p)).0 != [p] && Unframe(Frame(p)).0[0] == []
  {
    CarriedIff(p);
    assert FrameSize(Frame(p)) == PKT_LEN_SIZE;
  }

  /** What gets out of the first part of a framed stream is the first part of the packets. */
  lemma UnframePrefix(ps: seq<Packet>, s: seq<byte>)
    requires Carriable(ps) && s <= Frames(ps)
    ensures Unframe(s).0 <= ps
  {
    var tail := Frames(ps)[|s|..];
    assert Frames(ps) == s + tail;
    UnframeAppend(s, tail);
    UnframeFrames(ps);
  }

  /** The bound of two free bytes is tight: this stream leaves exactly that. */
  lemma TightLeftover(s: seq<byte>)
    requires |s| == MAX_PACKET_SIZE && s[0] == 255 && s[1] == 255
    ensures Unframe(s) == ([], s) && BUF_SIZE - |s| == 2
  {
    assert FrameSize(s) == BUF_SIZE - 1;
  }

  /** The operating system's socket: every send takes some bytes, none, or fails; every
      receive hands over some bytes or fails. Answers come from a script. */
  class Socket {
    var accepted: seq<byte>
    var incoming: seq<byte>
    var script: seq<int>

    /** What the next call returns, if at most `limit` bytes can go. */
    function Answer(limit: nat): (n: int)
      reads this`script
      ensures n <= limit
    {
      if script == [] then -1 else if script[0] <= limit then script[0] else limit
    }

    method NextAnswer(limit: nat) returns (n: int)
      modifies this`script
      ensures n == old(Answer(limit))
    {
      n := Answer(limit);
      if script != [] {
        script := script[1..];
      }
    }

    method Send(buffer: array<byte>, len: nat) returns (res: int)
      requires len <= buffer.Length
      modifies this
      ensures res == old(Answer(len))
      ensures accepted == old(accepted) + if res <= 0 then [] else buffer[..res]
      ensures incoming == old(incoming)
    {
      res := NextAnswer(len);
      if res > 0 {
        accepted := accepted + buffer[..res];
      }
    }

    method Recv(buffer: array<byte>, offset: nat) returns (len: int)
      requires offset <= buffer.Length
      modifies this, buffer
      ensures len == old(Answer(Room(buffer.Length - offset, |incoming|)))
      ensures buffer[..offset] == old(buffer[..offset]) && accepted == old(accepted)
      ensures len < 0 ==> incoming == old(incoming) && buffer[..] == old(buffer[..])
      ensures 0 <= len ==> offset + len <= buffer.Length && len <= |old(incoming)|
                           && buffer[offset..offset + len] == old(incoming)[..len] && incoming == old(incoming)[len..]
    {
      len := NextAnswer(Room(buffer.Length - offset, |incoming|));
      if len >= 0 {
        forall i | 0 <= i < len { buffer[offset + i] := incoming[i]; }
        assert buffer[offset..offset + len] == incoming[..len];
        incoming := incoming[len..];
      }
    }
  }

  lemma Assoc(a: seq<Packet>, b: seq<Packet>, c: seq<Packet>)
    ensures a + (b + c) == a + b + c
  {
  }

  function Room(a: nat, b: nat): nat { if a < b then a else b }

  class AsyncTCPSocket {
    const socket: Socket
    const inbuf: array<byte>
    const outbuf: array<byte>
    var inpos: nat
    var outpos: nat
    var delivered: seq<Packet>      // what SignalReadPacket handed out
    ghost var sent: seq<Packet>     // packets that were not dropped
    ghost var received: seq<byte>   // every byte received

    /** Bytes the network took, then the buffered ones, are whole frames of the packets
        sent; the packets handed out and the buffered input are the stream unframed. */
    ghost predicate Valid()
      reads this, inbuf, outbuf, socket
    {
      && inbuf != outbuf && inbuf.Length == BUF_SIZE && outbuf.Length == BUF_SIZE
      && outpos <= BUF_SIZE && inpos <= MAX_PACKET_SIZE
      && socket.accepted + outbuf[..outpos] == Frames(sent)
      && Unframe(received) == (delivered, inbuf[..inpos])
    }

    constructor (socket: Socket)
      requires socket.accepted == []
      ensures Valid() && this.socket == socket && fresh(inbuf) && fresh(outbuf)
      ensures sent == [] && received == []
    {
      this.socket := socket;
      inbuf, outbuf := new byte[BUF_SIZE](_ => 0), new byte[BUF_SIZE](_ => 0);
      inpos, outpos, delivered, sent, received := 0, 0, [], [], [];
      new;
      assert !HasFrame([]) && inbuf[..0] == [];
    }

    method Flush() returns (res: int)
      requires outpos <= outbuf.Length
      modifies this`outpos, outbuf, socket
      ensures res == old(socket.Answer(outpos)) && outpos == old(outpos) - (if res <= 0 then 0 else res)
      ensures outpos <= outbuf.Length
      ensures res <= 0 ==> socket.accepted == old(socket.accepted)
                           && outpos == old(outpos) && outbuf[..] == old(outbuf[..])
      ensures socket.accepted + outbuf[..outpos] == old(socket.accepted + outbuf[..outpos])
    {
      ghost var accepted, before := socket.accepted, outbuf[..outpos];
      res := socket.Send(outbuf, outpos);
      if res <= 0 { return; }
      assert before == outbuf[..res] + outbuf[res..outpos];
      outpos := outpos - res;
      forall i | 0 <= i < outpos { outbuf[i] := outbuf[res + i]; }
      assert outbuf[..outpos] == before[res..];
      assert accepted + (before[..res] + before[res..]) == accepted + before[..res] + before[res..];
    }

    /** `Send`: refused if too big, dropped without notice while an earlier packet is
        stuck, dropped with the error if nothing at all could be sent; otherwise the
        whole frame is committed, even if only a part of it has left. */
    method Send(data: Packet) returns (res: int)
      requires Valid()
      modifies this`outpos, this`sent, outbuf, socket
      ensures Valid()
      ensures |data| > MAX_PACKET_SIZE ==> res == -1 && sent == old(sent) && outpos == old(outpos)
      ensures |data| <= MAX_PACKET_SIZE && old(outpos) != 0 ==>
                res == |data| && sent == old(sent) && outpos == old(outpos)
      ensures |data| <= MAX_PACKET_SIZE && old(outpos) == 0 ==>
                var n := old(socket.Answer(PKT_LEN_SIZE + |data|));
                if n <= 0 then res == n && sent == old(sent) && outpos == 0
                else res == |data| && sent == old(sent) + [data] && outpos == PKT_LEN_SIZE + |data| - n
      ensures sent == old(sent) ==> socket.accepted == old(socket.accepted)
    {
      if |data| > MAX_PACKET_SIZE { return -1; }
      if outpos != 0 { return |data|; }
      ghost var accepted := socket.accepted;
      assert accepted == accepted + outbuf[..0] == Frames(sent);
      CopyFrame(data);
      var n := Flush();
      if n <= 0 {
        outpos := 0;
        assert socket.accepted + outbuf[..0] == accepted;
        return n;
      }
      assert (sent + [data])[..|sent|] == sent;
      sent := sent + [data];
      return |data|;
    }

    method CopyFrame(data: Packet)
      requires |data| <= MAX_PACKET_SIZE && outbuf.Length == BUF_SIZE
      modifies this`outpos, outbuf
      ensures outpos == PKT_LEN_SIZE + |data| && outbuf[..outpos] == Frame(data)
    {
      outbuf[0], outbuf[1] := |data| / 256 % 256, |data| % 256;
      forall i | 0 <= i < |data| { outbuf[PKT_LEN_SIZE + i] := data[i]; }
      outpos := PKT_LEN_SIZE + |data|;
      assert outbuf[..outpos] == Frame(data);
    }

    method OnWriteEvent()
      requires Valid()
      modifies this`outpos, outbuf, socket
      ensures Valid()
      ensures var n := old(socket.Answer(outpos));
              outpos == if old(outpos) == 0 || n <= 0 then old(outpos) else old(outpos) - n
    {
      if outpos > 0 {
        var _ := Flush();
      }
    }

    /** Take the first frame off the input buffer. */
    method DropFrame(n: nat)
      requires n <= inpos <= inbuf.Length
      modifies this`inpos, inbuf
      ensures inpos == old(inpos) - n && inbuf[..inpos] == old(inbuf[n..inpos])
    {
      ghost var rest := inbuf[n..inpos];
      inpos := inpos - n;
      forall i | 0 <= i < inpos { inbuf[i] := inbuf[n + i]; }
      assert inbuf[..inpos] == rest;
    }

    /** `ProcessInput`: hands out exactly the complete frames, in order, and leaves the
        incomplete one at the front of the buffer. */
    method ProcessInput()
      requires inpos <= inbuf.Length
      modifies this`inpos, this`delivered, inbuf
      ensures inpos <= old(inpos)
      ensures var (ps, rest) := Unframe(old(inbuf[..inpos]));
              delivered == old(delivered) + ps && inbuf[..inpos] == rest
    {
      hide Unframe;
      ghost var input, before := inbuf[..inpos], delivered;
      ghost var done: seq<Packet> := [];
      assert before + [] == before && [] + Unframe(input).0 == Unframe(input).0;
      while true
        invariant inpos <= |input| && delivered == before + done
        invariant Unframe(input) == (done + Unframe(inbuf[..inpos]).0, Unframe(inbuf[..inpos]).1)
        decreases inpos
      {
        ghost var data := inbuf[..inpos];
        UnframeFirst(data);
        if inpos < PKT_LEN_SIZE {
          assert done + [] == done;
          return;
        }
        var n := PKT_LEN_SIZE + (inbuf[0] as int) * 256 + inbuf[1] as int;
        assert n == FrameSize(data);
        if inpos < n {
          assert done + [] == done;
          return;
        }
        var packet := inbuf[..inpos][PKT_LEN_SIZE..n];
        delivered := delivered + [packet];
        DropFrame(n);
        assert inbuf[..inpos] == data[n..];
        Assoc(done, [packet], Unframe(data[n..]).0);
        Assoc(before, done, [packet]);
        done := done + [packet];
      }
    }

    /** Append what the socket hands over to the buffered input. */
    method Fill() returns (len: int, ghost got: seq<byte>)
      requires inpos <= inbuf.Length && inbuf != outbuf
      modifies this`inpos, inbuf, socket
      ensures socket.accepted == old(socket.accepted)
      ensures inpos <= inbuf.Length && inbuf[..inpos] == old(inbuf[..inpos]) + got
      ensures len == old(socket.Answer(Room(inbuf.Length - inpos, |socket.incoming|)))
      ensures old(socket.incoming) == got + socket.incoming
      ensures |got| == if len < 0 then 0 else len
    {
      ghost var supply := socket.incoming;
      len := socket.Recv(inbuf, inpos);
      got := [];
      if len >= 0 {
        got := inbuf[inpos..inpos + len];
        assert supply == supply[..len] + supply[len..];
        assert inbuf[..inpos + len] == inbuf[..inpos] + got;
        inpos := inpos + len;
      }
    }

    /** The "input buffer overflow" branch. */
    method ResetIfFull() returns (reset: bool)
      modifies this`inpos
      ensures reset == (old(inpos) >= inbuf.Length) && inpos == if reset then 0 else old(inpos)
    {
      reset := inpos >= inbuf.Length;
      if reset {
        inpos := 0;
      }
    }

    /** `OnReadEvent` for a connected socket. Whatever bytes arrive, two bytes of input
        buffer stay free, so the overflow reset is never taken. */
    method OnReadEvent() returns (reset: bool)
      requires Valid()
      modifies this`inpos, this`delivered, this`received, inbuf, socket
      ensures Valid() && !reset && inpos + 2 <= inbuf.Length
      ensures socket.accepted == old(socket.accepted) && outbuf[..] == old(outbuf[..])
      ensures received + socket.incoming == old(received) + old(socket.incoming)
      ensures var n := old(socket.Answer(Room(inbuf.Length - inpos, |socket.incoming|)));
              received == old(received) + if n < 0 then [] else old(socket.incoming)[..n]
    {
      hide Unframe, Frames;
      reset := false;
      ghost var before, pending := received, inbuf[..inpos];
      var len, got := Fill();
      UnframeAppend(before, got);
      received := received + got;
      assert before + (got + socket.incoming) == before + got + socket.incoming;
      if len < 0 {
        assert received == before && pending + [] == pending;
        return;
      }
      Leftover(received);
      ProcessInput();
      reset := ResetIfFull();
    }
  }

  /** End to end. However the sends were cut, blocked or dropped and the receives cut,
      a receiver that has got a prefix of what the network accepted has handed out a
      prefix of the packets sent, in order; and once everything has arrived, exactly
      those, with nothing left in its buffer. Drops never desynchronise the stream. */
  lemma EndToEnd(a: AsyncTCPSocket, b: AsyncTCPSocket)
    requires a.Valid() && b.Valid() && Carriable(a.sent)
    requires b.received <= a.socket.accepted
    ensures b.delivered <= a.sent
    ensures b.received == a.socket.accepted && a.outpos == 0 ==> b.delivered == a.sent && b.inpos == 0
  {
    assert a.socket.accepted <= Frames(a.sent);
    UnframePrefix(a.sent, b.received);
    if b.received == a.socket.accepted && a.outpos == 0 {
      assert a.socket.accepted + a.outbuf[..0] == a.socket.accepted;
      UnframeFrames(a.sent);
    }
  }
}
