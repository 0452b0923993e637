/** Base64 (base/base64.cc): the encoder, and the flag-driven decoder with its pad
    counting and rollback (sections 3.5 and 4 of RFC 4648). */
module Base64 {
  import opened Wrappers

  type sextet = v: int | 0 <= v < 64

  const PAD: char := '='

  // Decode table entries that are not sextets.
  const PD: nat := 0xFD
  const SP: nat := 0xFE
  const IL: nat := 0xFF

  function Base64Table(v: sextet): char
  {
    if v < 26 then (v as int + 65) as char
    else if v < 52 then (v as int + 71) as char
    else if v < 62 then (v as int - 4) as char
    else if v == 62 then '+' else '/'
  }

  function DecodeTable(c: char): (v: nat)
    ensures v < 64 || v == PD || v == SP || v == IL
  {
    if 'A' <= c <= 'Z' then c as int - 65
    else if 'a' <= c <= 'z' then c as int - 71
    else if '0' <= c <= '9' then c as int + 4
    else if c == '+' then 62
    else if c == '/' then 63
    else if c == PAD then PD
    else if c == ' ' || '\t' <= c <= '\r' then SP
    else IL
  }

  /** The alphabet of section 4 of RFC 4648. */
  lemma TableIs(v: sextet)
    ensures Base64Table(v) == if v < 26 then "ABCDEFGHIJKLMNOPQRSTUVWXYZ"[v]
                              else if v < 52 then "abcdefghijklmnopqrstuvwxyz"[v - 26]
                              else "0123456789+/"[v - 52]
  {
  }

  lemma TablesInverse(v: sextet, c: char)
    ensures DecodeTable(Base64Table(v)) == v
    ensures DecodeTable(c) < 64 ==> Base64Table(DecodeTable(c)) == c
  {
  }

  // ---------------------------------------------------------------------------
  // Encoding
  // ---------------------------------------------------------------------------

  function Chars(q: seq<sextet>): (s: string)
    ensures |s| == |q|
  {
    seq(|q|, i requires 0 <= i < |q| => Base64Table(q[i]))
  }

  /** Sextets of the next one to three bytes, the last one filled with zero bits. */
  function Sextets(b: seq<byte>): (q: seq<sextet>)
    requires 0 < |b|
    ensures |q| == if |b| < 3 then |b| + 1 else 4
  {
    var x := b[0] as int;
    if |b| == 1 then [x / 4, x % 4 * 16]
    else
      var y := b[1] as int;
      if |b| == 2 then [x / 4, x % 4 * 16 + y / 16, y % 16 * 4]
      else
        var z := b[2] as int;
        [x / 4, x % 4 * 16 + y / 16, y % 16 * 4 + z / 64, z % 64]
  }

  /** The sextets are the bits of the bytes, regrouped, most significant first. */
  lemma SextetsAreBits(b: seq<byte>)
    requires 0 < |b| <= 3
    ensures var q := Sextets(b) + seq(3 - |b|, _ => 0);
            var c := b + seq(3 - |b|, _ => 0);
            ((q[0] as int * 64 + q[1] as int) * 64 + q[2] as int) * 64 + q[3] as int
            == (c[0] as int * 256 + c[1] as int) * 256 + c[2] as int
  {
  }

  function Pads(n: nat): (s: string)
    ensures |s| == n && forall i :: 0 <= i < n ==> s[i] == PAD
  {
    seq(n, _ => PAD)
  }

  /** The four characters of the next quantum. */
  function Quantum(b: seq<byte>): (s: string)
    requires 0 < |b|
    ensures |s| == 4
  {
    Chars(Sextets(b)) + Pads(if |b| < 3 then 3 - |b| else 0)
  }

  function Taken(b: seq<byte>): (n: nat)
    ensures n <= |b| && (b != [] ==> 0 < n)
  {
    if |b| < 3 then |b| else 3
  }

  function Encode(b: seq<byte>): (s: string)
    ensures |s| == (|b| + 2) / 3 * 4
  {
    if b == [] then "" else Quantum(b) + Encode(b[Taken(b)..])
  }

  /** One round of the encoding loop: the characters for the bytes at `start`. */
  method EncodeQuantum(data: array<byte>, start: nat, result: array<char>, dest: nat) returns (i: nat)
    requires start < data.Length && dest + 4 <= result.Length
    modifies result
    ensures i == start + Taken(data[start..])
    ensures result[dest..dest + 4] == Quantum(data[start..])
    ensures result[..dest] == old(result[..dest])
  {
    hide Base64Table;
    ghost var b := data[start..];
    i := start;
    var c := data[i] as int / 4;
    result[dest] := Base64Table(c);
    c := data[i] as int % 4 * 16;
    i := i + 1;
    if i < data.Length { c := c + data[i] as int / 16; }
    result[dest + 1] := Base64Table(c);
    if i < data.Length {
      c := data[i] as int % 16 * 4;
      i := i + 1;
      if i < data.Length { c := c + data[i] as int / 64; }
      result[dest + 2] := Base64Table(c);
    } else {
      result[dest + 2] := PAD;
    }
    if i < data.Length {
      c := data[i] as int % 64;
      result[dest + 3] := Base64Table(c);
      i := i + 1;
    } else {
      result[dest + 3] := PAD;
    }
  }

  /** `EncodeFromArray`. */
  method EncodeFromArray(data: array<byte>) returns (result: array<char>)
    ensures fresh(result) && result[..] == Encode(data[..])
  {
    hide Quantum, Encode;
    var len := data.Length;
    result := new char[(len + 2) / 3 * 4](_ => PAD);
    var i, dest := 0, 0;
    assert data[0..] == data[..];
    while i < len
      invariant 0 <= i <= len && 0 <= dest <= result.Length
      invariant result.Length - dest == |Encode(data[i..])|
      invariant result[..dest] + Encode(data[i..]) == Encode(data[..])
    {
      ghost var done, rest := result[..dest], data[i..];
      EncodeStep(rest);
      i := EncodeQuantum(data, i, result, dest);
      assert rest[Taken(rest)..] == data[i..];
      assert result[..dest + 4] == done + Quantum(rest);
      assert done + (Quantum(rest) + Encode(data[i..])) == done + Quantum(rest) + Encode(data[i..]);
      dest := dest + 4;
    }
    EncodeStep(data[i..]);
    assert result[..dest] == result[..] && result[..] + "" == result[..];
  }

  lemma EncodeStep(b: seq<byte>)
    ensures b == [] ==> Encode(b) == ""
    ensures b != [] ==> Encode(b) == Quantum(b) + Encode(b[Taken(b)..])
  {
  }

  // ---------------------------------------------------------------------------
  // Decoding
  // ---------------------------------------------------------------------------

  datatype Parse = ParseStrict | ParseWhite | ParseAny
  datatype Pad = PadYes | PadAny | PadNo
  datatype Term = TermBuffer | TermChar | TermAny
  datatype Flags = Flags(parse: Parse, pad: Pad, term: Term)

  const STRICT: Flags := Flags(ParseStrict, PadYes, TermBuffer)

  /** Progress within one quantum: sextets so far, pads behind them and where those began. */
  datatype Scan = Scan(q: seq<sextet>, pads: nat, padStart: nat, pos: nat)

  predicate Sound(s: Scan) { |s.q| + s.pads <= 4 && s.padStart <= s.pos }

  /** One character of the scanning loop of `GetNextQuantum`; None leaves the loop. */
  function ScanChar(parse: Parse, noPads: bool, c: char, s: Scan): (r: Option<Scan>)
    requires Sound(s) && |s.q| < 4
    ensures r.Some? ==> Sound(r.value) && r.value.pos == s.pos + 1 && |s.q| <= |r.value.q|
  {
    var v := DecodeTable(c);
    var skipped := s.(pos := s.pos + 1);
    if v == IL || (noPads && v == PD) then
      if parse != ParseAny then None else Some(skipped)
    else if v == SP then
      if parse == ParseStrict then None else Some(skipped)
    else if v == PD then
      if |s.q| < 2 || |s.q| + s.pads >= 4 then
        if parse != ParseAny then None else Some(skipped)
      else
        Some(skipped.(pads := s.pads + 1, padStart := if s.pads == 0 then s.pos else s.padStart))
    else if s.pads > 0 && parse != ParseAny then None
    else Some(skipped.(q := s.q + [v], pads := 0))
  }

  function ScanFrom(parse: Parse, noPads: bool, data: string, s: Scan): (r: Scan)
    requires Sound(s) && s.pos <= |data|
    ensures Sound(r) && s.pos <= r.pos <= |data| && |s.q| <= |r.q|
    ensures |s.q| < |r.q| ==> s.pos < r.pos
    decreases |data| - s.pos
  {
    if |s.q| == 4 || s.pos == |data| then s
    else
      match ScanChar(parse, noPads, data[s.pos], s)
      case None => s
      case Some(next) => ScanFrom(parse, noPads, data, next)
  }

  /** What `GetNextQuantum` returns: the sextets, the new position, and `padded`. */
  datatype Next = Next(q: seq<sextet>, pos: nat, padded: bool)

  function Finish(s: Scan): Next
  {
    if |s.q| + s.pads == 4 then Next(s.q, s.pos, true)
    else Next(s.q, if s.pads > 0 then s.padStart else s.pos, false)
  }

  function NextQuantum(parse: Parse, noPads: bool, data: string, pos: nat): (n: Next)
    requires pos <= |data|
    ensures |n.q| <= 4 && n.pos <= |data|
    ensures |n.q| == 4 ==> pos < n.pos
  {
    Finish(ScanFrom(parse, noPads, data, Scan([], 0, 0, pos)))
  }

  function At(q: seq<sextet>, i: nat): int { if i < |q| then q[i] as int else 0 }

  /** Bytes of a quantum, and the bits of its last sextet that no byte uses. */
  function Bytes(q: seq<sextet>): (b: seq<byte>)
    requires |q| <= 4
    ensures |b| == if |q| < 2 then 0 else |q| - 1
  {
    var x := At(q, 0) * 4 + At(q, 1) / 16;
    var y := At(q, 1) % 16 * 16 + At(q, 2) / 4;
    var z := At(q, 2) % 4 * 64 + At(q, 3);
    if |q| < 2 then [] else if |q| == 2 then [x] else if |q| == 3 then [x, y] else [x, y, z]
  }

  function Unused(q: seq<sextet>): int
    requires |q| <= 4
  {
    if |q| < 2 then At(q, 0) * 4 + At(q, 1) / 16
    else if |q| == 2 then At(q, 1) % 16 * 16 + At(q, 2) / 4
    else if |q| == 3 then At(q, 2) % 4 * 64 + At(q, 3)
    else 0
  }

  datatype Decoded = Decoded(ok: bool, bytes: seq<byte>, used: nat)

  predicate EndsWell(f: Flags, n: Next)
    requires |n.q| <= 4
  {
    (f.term == TermAny || Unused(n.q) == 0) && (f.pad == PadYes ==> n.padded)
  }

  function DecodeFrom(f: Flags, data: string, pos: nat): (d: Decoded)
    requires pos <= |data|
    ensures d.used <= |data|
    decreases |data| - pos
  {
    if pos == |data| then Decoded(true, [], pos)
    else
      var n := NextQuantum(f.parse, f.pad == PadNo, data, pos);
      if |n.q| < 4 then Decoded(EndsWell(f, n), Bytes(n.q), n.pos)
      else
        var d := DecodeFrom(f, data, n.pos);
        d.(bytes := Bytes(n.q) + d.bytes)
  }

  function Decode(f: Flags, data: string): Decoded
  {
    var d := DecodeFrom(f, data, 0);
    d.(ok := d.ok && (f.term == TermBuffer ==> d.used == |data|))
  }

  lemma ScanStep(parse: Parse, noPads: bool, data: string, s: Scan)
    requires Sound(s) && s.pos <= |data|
    ensures ScanFrom(parse, noPads, data, s) ==
            if |s.q| == 4 || s.pos == |data| then s
            else
              var r := ScanChar(parse, noPads, data[s.pos], s);
              if r.None? then s else ScanFrom(parse, noPads, data, r.value)
  {
  }

  /** `GetNextQuantum`; the unfilled part of the buffer is zeroed. */
  method GetNextQuantum(parse: Parse, noPads: bool, data: string, start: nat, qbuf: array<nat>)
    returns (byteLen: nat, dpos: nat, padded: bool)
    requires start <= |data| && qbuf.Length == 4
    modifies qbuf
    ensures var n := NextQuantum(parse, noPads, data, start);
            byteLen == |n.q| <= 4 && dpos == n.pos && padded == n.padded
            && forall i :: 0 <= i < 4 ==> qbuf[i] == At(n.q, i)
  {
    hide DecodeTable, ScanFrom;
    byteLen, dpos := 0, start;
    var padLen, padStart := 0, 0;
    ghost var q: seq<sextet> := [];
    while byteLen < 4 && dpos < |data|
      invariant byteLen == |q| <= 4 && start <= dpos <= |data| && Sound(Scan(q, padLen, padStart, dpos))
      invariant forall i :: 0 <= i < byteLen ==> qbuf[i] == q[i] as int
      invariant ScanFrom(parse, noPads, data, Scan([], 0, 0, start))
                == ScanFrom(parse, noPads, data, Scan(q, padLen, padStart, dpos))
    {
      ghost var s := Scan(q, padLen, padStart, dpos);
      ScanStep(parse, noPads, data, s);
      qbuf[byteLen] := DecodeTable(data[dpos]);
      if qbuf[byteLen] == IL || (noPads && qbuf[byteLen] == PD) {
        if parse != ParseAny { break; }
      } else if qbuf[byteLen] == SP {
        if parse == ParseStrict { break; }
      } else if qbuf[byteLen] == PD {
        if byteLen < 2 || byteLen + padLen >= 4 {
          if parse != ParseAny { break; }
        } else {
          padLen := padLen + 1;
          if padLen == 1 { padStart := dpos; }
        }
      } else {
        if padLen > 0 {
          if parse != ParseAny { break; }
          padLen := 0;
        }
        q := q + [DecodeTable(data[dpos])];
        byteLen := byteLen + 1;
      }
      dpos := dpos + 1;
      assert ScanChar(parse, noPads, data[s.pos], s) == Some(Scan(q, padLen, padStart, dpos));
    }
    ScanStep(parse, noPads, data, Scan(q, padLen, padStart, dpos));
    for i := byteLen to 4
      invariant forall j :: 0 <= j < byteLen ==> qbuf[j] == q[j] as int
      invariant forall j :: byteLen <= j < i ==> qbuf[j] == 0
    {
      qbuf[i] := 0;
    }
    padded := byteLen + padLen == 4;
    if !padded && padLen > 0 {
      dpos := padStart;
    }
  }

  /** The shifting half of the decoding loop: append the quantum's bytes, and keep the
      bits that are left in `c`. */
  method AppendBytes(qbuf: array<nat>, qlen: nat, before: seq<byte>, ghost q: seq<sextet>)
    returns (result: seq<byte>, c: nat)
    requires qbuf.Length == 4 && qlen == |q| <= 4
    requires forall i :: 0 <= i < 4 ==> qbuf[i] == At(q, i)
    ensures result == before + Bytes(q) && c == Unused(q)
  {
    result := before;
    c := qbuf[0] * 4 + qbuf[1] / 16;
    if qlen >= 2 {
      result := result + [c];
      c := qbuf[1] % 16 * 16 + qbuf[2] / 4;
      if qlen >= 3 {
        result := result + [c];
        c := qbuf[2] % 4 * 64 + qbuf[3];
        if qlen >= 4 {
          result := result + [c];
          c := 0;
        }
      }
    }
  }

  /** `DecodeFromArrayTemplate`. */
  method DecodeFromArray(data: string, f: Flags) returns (success: bool, result: seq<byte>, dataUsed: nat)
    ensures Decode(f, data) == Decoded(success, result, dataUsed)
  {
    hide NextQuantum, DecodeFrom, Bytes, Unused;
    result, success := [], true;
    var dpos := 0;
    var qbuf := new nat[4](_ => 0);
    assert [] + DecodeFrom(f, data, 0).bytes == DecodeFrom(f, data, 0).bytes;
    while dpos < |data|
      invariant dpos <= |data| && success
      invariant DecodeFrom(f, data, 0)
                == DecodeFrom(f, data, dpos).(bytes := result + DecodeFrom(f, data, dpos).bytes)
      decreases |data| - dpos
    {
      DecodeStep(f, data, dpos);
      ghost var before, n := result, NextQuantum(f.parse, f.pad == PadNo, data, dpos);
      var qlen, next, padded := GetNextQuantum(f.parse, f.pad == PadNo, data, dpos, qbuf);
      var c;
      result, c := AppendBytes(qbuf, qlen, result, n.q);
      dpos := next;
      if qlen < 4 {
        if f.term != TermAny && c != 0 { success := false; }
        if f.pad == PadYes && !padded { success := false; }
        if f.term == TermBuffer && dpos != |data| { success := false; }
        return success, result, dpos;
      }
      assert before + (Bytes(n.q) + DecodeFrom(f, data, dpos).bytes) == result + DecodeFrom(f, data, dpos).bytes;
    }
    DecodeStep(f, data, dpos);
    assert result + [] == result;
    dataUsed := dpos;
  }

  lemma DecodeStep(f: Flags, data: string, pos: nat)
    requires pos <= |data|
    ensures pos == |data| ==> DecodeFrom(f, data, pos) == Decoded(true, [], pos)
    ensures pos < |data| ==>
              var n := NextQuantum(f.parse, f.pad == PadNo, data, pos);
              |n.q| <= 4 && n.pos <= |data| && (|n.q| == 4 ==> pos < n.pos)
              && DecodeFrom(f, data, pos) ==
                 if |n.q| < 4 then Decoded(EndsWell(f, n), Bytes(n.q), n.pos)
                 else var d := DecodeFrom(f, data, n.pos); d.(bytes := Bytes(n.q) + d.bytes)
  {
  }
}
