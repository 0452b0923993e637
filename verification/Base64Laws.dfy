/** What the Base64 encoder and decoder of base/base64.cc promise together. */
module Base64Laws {
  import opened Wrappers
  import opened Base64

  // ---------------------------------------------------------------------------
  // One quantum
  // ---------------------------------------------------------------------------

  lemma BytesOfSextets(b: seq<byte>)
    requires 0 < |b| <= 3
    ensures Bytes(Sextets(b)) == b && Unused(Sextets(b)) == 0
  {
  }

  lemma Digits(h: nat, l: nat)
    ensures l < 4 ==> (h * 4 + l) / 4 == h && (h * 4 + l) % 4 == l
    ensures l < 16 ==> (h * 16 + l) / 16 == h && (h * 16 + l) % 16 == l
    ensures l < 64 ==> (h * 64 + l) / 64 == h && (h * 64 + l) % 64 == l
  {
  }

  /** Sextets without stray bits are recovered from their bytes (section 3.5 of RFC 4648). */
  lemma SextetsOfBytes(q: seq<sextet>)
    requires 2 <= |q| <= 4 && Unused(q) == 0
    ensures Sextets(Bytes(q)) == q
  {
    Digits(At(q, 0), At(q, 1) / 16);
    Digits(At(q, 1) % 16, At(q, 2) / 4);
    Digits(At(q, 2) % 4, At(q, 3));
    var b := Bytes(q);
    assert b[0] as int / 4 == At(q, 0) && b[0] as int % 4 == At(q, 1) / 16;
    assert |q| > 2 ==> b[1] as int / 16 == At(q, 1) % 16 && b[1] as int % 16 == At(q, 2) / 4;
    assert |q| > 3 ==> b[2] as int / 64 == At(q, 2) % 4 && b[2] as int % 64 == At(q, 3);
  }

  lemma ConsInjective(a: char, s: string, b: char, t: string)
    requires [a] + s == [b] + t
    ensures a == b && s == t
  {
    assert ([a] + s)[0] == a && ([b] + t)[0] == b;
    assert ([a] + s)[1..] == s && ([b] + t)[1..] == t;
  }

  lemma SextetsLocal(b: seq<byte>)
    requires 3 <= |b|
    ensures Sextets(b) == Sextets(b[..3])
  {
  }

  lemma CharsCons(q: seq<sextet>)
    requires q != []
    ensures Chars(q) == [Base64Table(q[0])] + Chars(q[1..])
  {
  }

  // ---------------------------------------------------------------------------
  // Noise
  // ---------------------------------------------------------------------------

  /** Characters the decoder passes over in a parse mode. */
  predicate Ignorable(parse: Parse, c: char)
  {
    match parse
    case ParseStrict => false
    case ParseWhite => DecodeTable(c) == SP
    case ParseAny => DecodeTable(c) == SP || DecodeTable(c) == IL
  }

  /** By character: white space is blank, tab, line feed, vertical tab, form feed and
      carriage return; the rest of the noise is whatever is neither letter, digit, '+' nor
      '/' nor '='. */
  lemma NoiseIs(c: char)
    ensures !Ignorable(ParseStrict, c)
    ensures Ignorable(ParseWhite, c) <==> c == ' ' || c == '\t' || c == '\n' || c as int == 11 || c as int == 12 || c == '\r'
    ensures Ignorable(ParseAny, c) <==>
      !('A' <= c <= 'Z' || 'a' <= c <= 'z' || '0' <= c <= '9' || c == '+' || c == '/' || c == '=')
  {
  }

  function Strip(parse: Parse, s: string): string
  {
    if s == "" then ""
    else if Ignorable(parse, s[0]) then Strip(parse, s[1..])
    else [s[0]] + Strip(parse, s[1..])
  }

  predicate NoiseBetween(parse: Parse, data: string, i: nat, j: nat)
    requires i <= j <= |data|
  {
    forall k :: i <= k < j ==> Ignorable(parse, data[k])
  }

  lemma {:induction false} StrictStripsNothing(s: string)
    ensures Strip(ParseStrict, s) == s
  {
    if s != "" { StrictStripsNothing(s[1..]); }
  }

  /** The next character that counts. */
  lemma {:induction false} Significant(parse: Parse, data: string, pos: nat) returns (k: nat)
    requires pos <= |data| && Strip(parse, data[pos..]) != ""
    ensures pos <= k < |data| && NoiseBetween(parse, data, pos, k) && !Ignorable(parse, data[k])
    ensures Strip(parse, data[pos..]) == [data[k]] + Strip(parse, data[k + 1..])
    decreases |data| - pos
  {
    hide Ignorable;
    assert pos < |data|;
    assert data[pos..][1..] == data[pos + 1..];
    if Ignorable(parse, data[pos]) {
      k := Significant(parse, data, pos + 1);
    } else {
      k := pos;
    }
  }

  lemma {:induction false} OnlyNoise(parse: Parse, data: string, pos: nat)
    requires pos <= |data| && Strip(parse, data[pos..]) == ""
    ensures NoiseBetween(parse, data, pos, |data|)
    decreases |data| - pos
  {
    hide Ignorable;
    if pos < |data| {
      assert data[pos..][1..] == data[pos + 1..];
      OnlyNoise(parse, data, pos + 1);
    }
  }

  lemma {:induction false} SkipNoise(parse: Parse, data: string, s: Scan, k: nat)
    requires Sound(s) && |s.q| < 4 && s.pos <= k <= |data| && NoiseBetween(parse, data, s.pos, k)
    ensures ScanFrom(parse, false, data, s) == ScanFrom(parse, false, data, s.(pos := k))
    decreases k - s.pos
  {
    hide ScanFrom;
    if s.pos < k {
      ScanStep(parse, false, data, s);
      assert Ignorable(parse, data[s.pos]);
      SkipNoise(parse, data, s.(pos := s.pos + 1), k);
    }
  }

  /** Scanning takes in the next sextets, whatever noise surrounds them. */
  lemma {:induction false} TakeSextets(parse: Parse, data: string, s: Scan, q: seq<sextet>, e: string)
    returns (p: nat)
    requires Sound(s) && |s.q| + |q| <= 4 && s.pads == 0 && s.pos <= |data|
    requires Strip(parse, data[s.pos..]) == Chars(q) + e
    ensures s.pos <= p <= |data| && Strip(parse, data[p..]) == e
    ensures ScanFrom(parse, false, data, s) == ScanFrom(parse, false, data, Scan(s.q + q, 0, s.padStart, p))
    ensures if q == [] then p == s.pos else s.pos < p && !Ignorable(parse, data[p - 1])
    decreases |q|
  {
    hide ScanFrom, DecodeTable, Strip, Ignorable;
    if q == [] {
      assert Chars(q) + e == e && s.q + q == s.q;
      p := s.pos;
    } else {
      var k := Significant(parse, data, s.pos);
      CharsCons(q);
      assert Chars(q) + e == [Base64Table(q[0])] + (Chars(q[1..]) + e);
      ConsInjective(data[k], Strip(parse, data[k + 1..]), Base64Table(q[0]), Chars(q[1..]) + e);
      SkipNoise(parse, data, s, k);
      ScanStep(parse, false, data, s.(pos := k));
      TablesInverse(q[0], PAD);
      var t := Scan(s.q + [q[0]], 0, s.padStart, k + 1);
      p := TakeSextets(parse, data, t, q[1..], e);
      assert s.q + [q[0]] + q[1..] == s.q + q;
    }
  }

  /** ... then the pads, then noise to the end. */
  lemma {:induction false} TakePads(parse: Parse, data: string, s: Scan, n: nat)
    requires Sound(s) && 2 <= |s.q| < 4 && |s.q| + s.pads + n == 4 && s.pos <= |data|
    requires Strip(parse, data[s.pos..]) == Pads(n)
    ensures var r := ScanFrom(parse, false, data, s);
            r.q == s.q && r.pads == s.pads + n && r.pos == |data|
    decreases n
  {
    hide ScanFrom, Strip, Ignorable;
    if n == 0 {
      TakeRest(parse, data, s);
    } else {
      var k := Significant(parse, data, s.pos);
      assert Pads(n) == [PAD] + Pads(n - 1);
      ConsInjective(data[k], Strip(parse, data[k + 1..]), PAD, Pads(n - 1));
      SkipNoise(parse, data, s, k);
      ScanStep(parse, false, data, s.(pos := k));
      TakePads(parse, data, Scan(s.q, s.pads + 1, if s.pads == 0 then k else s.padStart, k + 1), n - 1);
    }
  }

  lemma TakeRest(parse: Parse, data: string, s: Scan)
    requires Sound(s) && |s.q| < 4 && s.pos <= |data| && Strip(parse, data[s.pos..]) == ""
    ensures ScanFrom(parse, false, data, s) == s.(pos := |data|)
  {
    hide ScanFrom, Ignorable;
    OnlyNoise(parse, data, s.pos);
    SkipNoise(parse, data, s, |data|);
    ScanStep(parse, false, data, s.(pos := |data|));
  }

  predicate NoisyEnd(parse: Parse, data: string, pos: nat)
  {
    pos < |data| && Ignorable(parse, data[|data| - 1])
  }

  lemma FullQuantum(parse: Parse, data: string, pos: nat, q: seq<sextet>, e: string) returns (p: nat)
    requires pos <= |data| && |q| == 4 && Strip(parse, data[pos..]) == Chars(q) + e
    ensures pos < p <= |data| && Strip(parse, data[p..]) == e && !Ignorable(parse, data[p - 1])
    ensures NextQuantum(parse, false, data, pos) == Next(q, p, true)
  {
    hide ScanFrom, Ignorable, Strip;
    p := TakeSextets(parse, data, Scan([], 0, 0, pos), q, e);
    assert [] + q == q;
    ScanStep(parse, false, data, Scan(q, 0, 0, p));
  }

  lemma PaddedQuantum(parse: Parse, data: string, pos: nat, q: seq<sextet>)
    requires pos <= |data| && 2 <= |q| < 4 && Strip(parse, data[pos..]) == Chars(q) + Pads(4 - |q|)
    ensures pos < |data| && NextQuantum(parse, false, data, pos) == Next(q, |data|, true)
  {
    hide ScanFrom, Ignorable, Strip;
    var p := TakeSextets(parse, data, Scan([], 0, 0, pos), q, Pads(4 - |q|));
    assert [] + q == q;
    TakePads(parse, data, Scan(q, 0, 0, p), 4 - |q|);
  }

  /** Decoding a noisy encoding, padding optional or required: the bytes come back and
      everything is consumed; only required padding takes offence, at noise behind an
      encoding that ends without pads. */
  lemma {:induction false} DecodeNoisyFrom(f: Flags, data: string, pos: nat, b: seq<byte>)
    requires f.pad != PadNo && pos <= |data| && Strip(f.parse, data[pos..]) == Encode(b)
    ensures DecodeFrom(f, data, pos)
            == Decoded(!(f.pad == PadYes && |b| % 3 == 0 && NoisyEnd(f.parse, data, pos)), b, |data|)
    decreases |b|
  {
    hide DecodeFrom, NextQuantum, Strip, Ignorable, Bytes, Unused, Sextets;
    DecodeStep(f, data, pos);
    EncodeStep(b);
    if b == [] {
      EmptyRest(f, data, pos);
    } else if |b| < 3 {
      BytesOfSextets(b);
      PaddedQuantum(f.parse, data, pos, Sextets(b));
    } else {
      var q := Sextets(b);
      assert Pads(0) == "" && Quantum(b) == Chars(q) + "" == Chars(q);
      var p := FullQuantum(f.parse, data, pos, q, Encode(b[3..]));
      DecodeNoisyFrom(f, data, p, b[3..]);
      SextetsLocal(b);
      BytesOfSextets(b[..3]);
      assert b[..3] + b[3..] == b;
    }
  }

  lemma EmptyRest(f: Flags, data: string, pos: nat)
    requires f.pad != PadNo && pos <= |data| && Strip(f.parse, data[pos..]) == ""
    ensures DecodeFrom(f, data, pos) == Decoded(!(f.pad == PadYes && NoisyEnd(f.parse, data, pos)), [], |data|)
  {
    hide ScanFrom, Ignorable, Strip;
    if pos < |data| {
      OnlyNoise(f.parse, data, pos);
      assert Ignorable(f.parse, data[|data| - 1]);
      TakeRest(f.parse, data, Scan([], 0, 0, pos));
    }
  }

  /** Noise tolerance: with optional padding, white space (DO_PARSE_WHITE) or anything
      outside the alphabet but '=' (DO_PARSE_ANY) strewn over an encoding changes nothing. */
  lemma NoiseTolerance(f: Flags, data: string, b: seq<byte>)
    requires f.pad == PadAny && Strip(f.parse, data) == Encode(b)
    ensures Decode(f, data) == Decoded(true, b, |data|)
  {
    hide DecodeFrom, Strip;
    assert data[0..] == data;
    DecodeNoisyFrom(f, data, 0, b);
  }

  /** With required padding it does, exactly when noise follows an unpadded encoding. */
  lemma NoiseToleranceRequiredPaddingIff(f: Flags, data: string, b: seq<byte>)
    requires f.pad == PadYes && Strip(f.parse, data) == Encode(b)
    ensures Decode(f, data).ok <==> !(|b| % 3 == 0 && NoisyEnd(f.parse, data, 0))
    ensures Decode(f, data).bytes == b && Decode(f, data).used == |data|
  {
    hide DecodeFrom, Strip;
    assert data[0..] == data;
    DecodeNoisyFrom(f, data, 0, b);
  }

  /** Such an input: the encoding of three bytes and a blank. */
  lemma TrailingBlank(f: Flags, data: string, b: seq<byte>)
    requires f.pad == PadYes && f.parse == ParseWhite && data == "TWFu " && b == [77, 97, 110]
    ensures !Decode(f, data).ok && Decode(f, data).bytes == b
  {
    assert Encode(b) == "TWFu" by {
      EncodeStep(b);
      EncodeStep([]);
      assert b[3..] == [];
    }
    assert Strip(ParseWhite, data[4..]) == "" by {
      assert data[4..][1..] == "";
    }
    assert data[3..][1..] == data[4..] && data[2..][1..] == data[3..] && data[1..][1..] == data[2..];
    assert Strip(ParseWhite, data[3..]) == "u";
    assert Strip(ParseWhite, data[2..]) == "Fu";
    assert Strip(ParseWhite, data[1..]) == "WFu";
    NoiseToleranceRequiredPaddingIff(f, data, b);
  }

  // ---------------------------------------------------------------------------
  // Strict decoding accepts exactly the encodings
  // ---------------------------------------------------------------------------

  lemma CharsSnoc(q: seq<sextet>, v: sextet)
    ensures Chars(q + [v]) == Chars(q) + [Base64Table(v)]
  {
  }

  /** What a strict scan has read is what it has collected. */
  lemma {:induction false} StrictScan(data: string, start: nat, s: Scan)
    requires Sound(s) && start <= s.pos <= |data|
    requires data[start..s.pos] == Chars(s.q) + Pads(s.pads) && (s.pads > 0 ==> |s.q| >= 2)
    ensures var r := ScanFrom(ParseStrict, false, data, s);
            s.pos <= r.pos <= |data| && data[start..r.pos] == Chars(r.q) + Pads(r.pads)
            && (r.pads > 0 ==> |r.q| >= 2)
    decreases |data| - s.pos
  {
    hide ScanFrom, DecodeTable;
    ScanStep(ParseStrict, false, data, s);
    if |s.q| < 4 && s.pos < |data| {
      var c := data[s.pos];
      var r := ScanChar(ParseStrict, false, c, s);
      if r.Some? {
        StrictChar(c, s, r.value);
        assert data[start..s.pos + 1] == data[start..s.pos] + [c];
        StrictScan(data, start, r.value);
      }
    }
  }

  lemma StrictChar(c: char, s: Scan, r: Scan)
    requires Sound(s) && |s.q| < 4 && ScanChar(ParseStrict, false, c, s) == Some(r)
    ensures Chars(r.q) + Pads(r.pads) == Chars(s.q) + Pads(s.pads) + [c]
    ensures r.pads > 0 ==> |r.q| >= 2
  {
    var v := DecodeTable(c);
    TablesInverse(0, c);
    if v == PD {
      assert c == PAD;
      assert Pads(s.pads + 1) == Pads(s.pads) + [PAD];
      assert Chars(s.q) + (Pads(s.pads) + [PAD]) == Chars(s.q) + Pads(s.pads) + [PAD];
    } else {
      CharsSnoc(s.q, v);
      assert Pads(0) == "" && Chars(s.q) + "" == Chars(s.q);
    }
  }

  lemma StrictQuantum(data: string, pos: nat)
    requires pos <= |data|
    ensures var n := NextQuantum(ParseStrict, false, data, pos);
            n.padded ==> 2 <= |n.q| <= 4 && pos <= n.pos <= |data| && data[pos..n.pos] == Chars(n.q) + Pads(4 - |n.q|)
  {
    hide ScanFrom;
    assert data[pos..pos] == Chars([]) + Pads(0);
    StrictScan(data, pos, Scan([], 0, 0, pos));
    ScanBounds(data, pos);
  }

  lemma ScanBounds(data: string, pos: nat)
    requires pos <= |data|
    ensures var r := ScanFrom(ParseStrict, false, data, Scan([], 0, 0, pos));
            Sound(r) && pos <= r.pos <= |data|
  {
    var r := ScanFrom(ParseStrict, false, data, Scan([], 0, 0, pos));
  }

  lemma {:induction false} StrictImageFrom(data: string, pos: nat)
    requires pos <= |data|
    requires DecodeFrom(STRICT, data, pos).ok && DecodeFrom(STRICT, data, pos).used == |data|
    ensures data[pos..] == Encode(DecodeFrom(STRICT, data, pos).bytes)
    decreases |data| - pos
  {
    hide DecodeFrom, NextQuantum, Bytes, Unused, Sextets, Encode, Chars, Pads;
    DecodeStep(STRICT, data, pos);
    var b := DecodeFrom(STRICT, data, pos).bytes;
    if pos == |data| {
      EncodeStep([]);
    } else {
      var n := NextQuantum(ParseStrict, false, data, pos);
      StrictQuantum(data, pos);
      FullIsPadded(data, pos);
      UnusedFull(n.q);
      SextetsOfBytes(n.q);
      var rest := if |n.q| < 4 then [] else DecodeFrom(STRICT, data, n.pos).bytes;
      if |n.q| == 4 { StrictImageFrom(data, n.pos); }
      EncodeBytes(n.q, rest);
      assert data[pos..] == data[pos..n.pos] + data[n.pos..];
      assert Bytes(n.q) + [] == Bytes(n.q);
      EncodeStep([]);
    }
  }

  lemma FullIsPadded(data: string, pos: nat)
    requires pos <= |data|
    ensures var n := NextQuantum(ParseStrict, false, data, pos); |n.q| == 4 ==> n.padded
  {
    hide ScanFrom;
    ScanBounds(data, pos);
  }

  lemma UnusedFull(q: seq<sextet>)
    ensures |q| == 4 ==> Unused(q) == 0
  {
  }

  /** The encoding of a quantum's bytes, followed by more if the quantum is full. */
  lemma EncodeBytes(q: seq<sextet>, rest: seq<byte>)
    requires 2 <= |q| <= 4 && (|q| < 4 ==> rest == []) && Sextets(Bytes(q)) == q
    ensures Encode(Bytes(q) + rest) == Chars(q) + Pads(4 - |q|) + Encode(rest)
  {
    hide Encode, Chars, Pads, Sextets;
    var c := Bytes(q);
    var b := c + rest;
    EncodeStep(b);
    if |q| == 4 {
      SextetsLocal(b);
      assert b[..3] == c && b[Taken(b)..] == rest;
    } else {
      assert b == c && b[Taken(b)..] == rest;
    }
  }

  /** DO_STRICT accepts a string if and only if it is the encoding of some bytes, and
      then yields exactly those and consumes everything. */
  lemma StrictIffEncoding(s: string)
    ensures Decode(STRICT, s).ok <==> exists b :: s == Encode(b)
    ensures Decode(STRICT, s).ok ==> Encode(Decode(STRICT, s).bytes) == s && Decode(STRICT, s).used == |s|
  {
    hide DecodeFrom, Encode;
    if Decode(STRICT, s).ok {
      StrictImageFrom(s, 0);
      assert s[0..] == s;
    }
    forall b | s == Encode(b)
      ensures Decode(STRICT, s).ok
    {
      StrictRoundTrip(b);
    }
  }

  lemma StrictRoundTrip(b: seq<byte>)
    ensures Decode(STRICT, Encode(b)) == Decoded(true, b, |Encode(b)|)
  {
    hide DecodeFrom, Encode, Strip;
    var s := Encode(b);
    StrictStripsNothing(s);
    NoiseToleranceRequiredPaddingIff(STRICT, s, b);
  }
}
