/** The streams at both ends of `HttpBase`: documents and connections that answer each
    `Read` and `Write` as an arbitrary script says. */
module Streams {
  import opened Wrappers

  datatype StreamResult = SR_SUCCESS(count: nat) | SR_BLOCK | SR_EOS | SR_ERROR(code: int)

  /** One answer: at most so many bytes, none for now, or the end of the connection, in
      order (code 0) or with an error. */
  datatype Answer = Bytes(atMost: nat) | Block | Close(code: int)

  function Least(a: nat, b: nat): nat { if a < b then a else b }

  predicate Blocks(script: seq<Answer>) { forall i :: 0 <= i < |script| ==> script[i].Block? }

  /** No success without a byte. */
  predicate Progresses(script: seq<Answer>) { forall i :: 0 <= i < |script| && script[i].Bytes? ==> 0 < script[i].atMost }

  /** Every answer is a success of at least one byte. */
  predicate Willing(script: seq<Answer>) { forall i :: 0 <= i < |script| ==> script[i].Bytes? && 0 < script[i].atMost }

  function Tail(script: seq<Answer>): seq<Answer> { if script == [] then [] else script[1..] }

  /** What is left of a script after some calls, and the last answer given. */
  ghost predicate Rest(later: seq<Answer>, script: seq<Answer>)
  {
    |later| <= |script| && later == script[|script| - |later|..]
  }

  function Last(script: seq<Answer>, later: seq<Answer>): Option<Answer>
  {
    if |later| < |script| then Some(script[|script| - |later| - 1]) else None
  }

  lemma RestTail(script: seq<Answer>, later: seq<Answer>)
    requires Rest(later, script)
    ensures Rest(Tail(later), script)
    ensures later != [] ==> Last(script, Tail(later)) == Some(later[0])
    ensures later == [] ==> Last(script, Tail(later)) == Last(script, later)
  {
  }

  lemma RestAll(script: seq<Answer>)
    ensures Rest(script, script) && Last(script, script) == None
  {
  }

  lemma RestKeeps(script: seq<Answer>, later: seq<Answer>)
    requires Rest(later, script)
    ensures Progresses(script) ==> Progresses(later)
    ensures Blocks(script) ==> Blocks(later)
    ensures Willing(script) ==> Willing(later)
  {
  }

  /** A stream to read from. A document `ends`: it reports its end once all of it was
      read. A connection ends when it is closed. */
  class Source {
    const ends: bool
    var remaining: string
    var script: seq<Answer>

    /** What the next `Read` returns. */
    function Answered(room: nat): StreamResult
      reads this
    {
      if script == [] then if ends && remaining == "" then SR_EOS else SR_BLOCK
      else
        match script[0]
        case Block => SR_BLOCK
        case Close(code) => if code == 0 && !ends then SR_EOS else SR_ERROR(code)
        case Bytes(atMost) =>
          if ends && remaining == "" then SR_EOS
          else SR_SUCCESS(Least(Least(atMost, room), |remaining|))
    }

    method Read(buffer: array<char>, offset: nat, room: nat) returns (r: StreamResult)
      requires offset + room <= buffer.Length
      modifies this`remaining, this`script, buffer
      ensures r == old(Answered(room)) && script == Tail(old(script))
      ensures buffer[..offset] == old(buffer[..offset])
      ensures r.SR_SUCCESS? ==>
                && r.count <= room && r.count <= |old(remaining)|
                && buffer[offset..offset + r.count] == old(remaining)[..r.count]
                && remaining == old(remaining)[r.count..]
      ensures !r.SR_SUCCESS? ==> remaining == old(remaining) && buffer[..] == old(buffer[..])
    {
      r := Answered(room);
      script := Tail(script);
      if r.SR_SUCCESS? {
        var n := r.count;
        forall i | 0 <= i < n { buffer[offset + i] := remaining[i]; }
        assert buffer[offset..offset + n] == remaining[..n];
        remaining := remaining[n..];
      }
    }
  }

  /** A stream to write to: `wire` is everything it has accepted. */
  class Sink {
    var wire: string
    var script: seq<Answer>

    method Write(buffer: array<char>, len: nat) returns (r: StreamResult)
      requires len <= buffer.Length && script != []
      modifies this
      ensures script == Tail(old(script))
      ensures r == match old(script)[0]
                   case Bytes(atMost) => SR_SUCCESS(Least(atMost, len))
                   case Block => SR_BLOCK
                   case Close(code) => SR_ERROR(code)
      ensures wire == old(wire) + if r.SR_SUCCESS? then buffer[..r.count] else []
    {
      var answer := script[0];
      script := script[1..];
      match answer
      case Block => return SR_BLOCK;
      case Close(code) => return SR_ERROR(code);
      case Bytes(atMost) =>
        var n := Least(atMost, len);
        wire := wire + buffer[..n];
        return SR_SUCCESS(n);
    }
  }
}
