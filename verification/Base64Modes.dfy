/** What the decoder of base/base64.cc makes of any text in any of its modes. A text is read
    as a body of letters with noise between them, a tail of pads and noise, and a rest that
    is left alone. */
module Base64Modes {
  import opened Wrappers
  import opened Base64
  import opened Base64Laws

  predicate Letter(c: char) { DecodeTable(c) < 64 }

  /** Passed over between two letters. */
  predicate Passed(f: Flags, c: char) { Ignorable(f.parse, c) || (f.parse == ParseAny && c == PAD) }

  function LettersIn(data: string, i: nat, j: nat): (q: seq<sextet>)
    requires i <= j <= |data|
    ensures |q| <= j - i
    decreases j - i
  {
    if i == j then []
    else if Letter(data[i]) then [DecodeTable(data[i])] + LettersIn(data, i + 1, j)
    else LettersIn(data, i + 1, j)
  }

  function PadsIn(data: string, i: nat, j: nat): (n: nat)
    requires i <= j <= |data|
    ensures n <= j - i
    decreases j - i
  {
    if i == j then 0 else (if data[i] == PAD then 1 else 0) + PadsIn(data, i + 1, j)
  }

  /** The bytes of all the letters; bits that fill no byte are dropped. */
  function Regroup(q: seq<sextet>): seq<byte>
  {
    if |q| < 4 then Bytes(q) else Bytes(q[..4]) + Regroup(q[4..])
  }

  /** A quantum's bytes are its leading bits, most significant first. */
  lemma BytesAreBits(q: seq<sextet>)
    requires |q| <= 4
    ensures |q| < 2 ==> Bytes(q) == []
    ensures |q| == 2 ==> Bytes(q) == [(q[0] as int * 64 + q[1] as int) / 16]
    ensures |q| == 3 ==>
      (Bytes(q)[0] as int * 256 + Bytes(q)[1] as int == ((q[0] as int * 64 + q[1] as int) * 64 + q[2] as int) / 4)
    ensures |q| == 4 ==>
      ((Bytes(q)[0] as int * 256 + Bytes(q)[1] as int) * 256 + Bytes(q)[2] as int
       == ((q[0] as int * 64 + q[1] as int) * 64 + q[2] as int) * 64 + q[3] as int)
  {
  }

  /** Pads that complete the last quantum: none if it has no or one letter, or pads are
      not wanted. */
  function Room(f: Flags, letters: nat): (n: nat)
    ensures n <= 2
  {
    if letters % 4 < 2 || f.pad == PadNo then 0 else 4 - letters % 4
  }

  /** Bits of the last letter that fill no byte are all zero. */
  predicate Clean(q: seq<sextet>)
  {
    match |q| % 4
    case 0 => true
    case 1 => q[|q| - 1] == 0
    case 2 => q[|q| - 1] % 16 == 0
    case _ => q[|q| - 1] % 4 == 0
  }

  predicate Body(f: Flags, data: string, i: nat, m: nat)
    requires i <= m <= |data|
  {
    && (forall k :: i <= k < m ==> Letter(data[k]) || Passed(f, data[k]))
    && (i < m ==> Letter(data[m - 1]))
  }

  predicate Tail(f: Flags, data: string, m: nat, e: nat, room: nat)
    requires m <= e <= |data|
  {
    forall k :: m <= k < e ==> Passed(f, data[k]) || (data[k] == PAD && room > 0)
  }

  /** The tail cannot be longer, with `n` pads in it. */
  predicate Ends(f: Flags, data: string, e: nat, n: nat, room: nat)
    requires e <= |data|
  {
    && (f.parse != ParseAny ==> n <= room)
    && (e < |data| ==>
          && f.parse != ParseAny && !Ignorable(f.parse, data[e])
          && (Letter(data[e]) ==> n > 0) && (data[e] == PAD ==> n == room))
  }

  /** Body up to `m`, tail up to `e`, reading from `pos`. */
  predicate Fits(f: Flags, data: string, pos: nat, m: nat, e: nat)
  {
    && pos <= m <= e <= |data| && Body(f, data, pos, m)
    && var room := Room(f, |LettersIn(data, pos, m)|);
       Tail(f, data, m, e, room) && Ends(f, data, e, PadsIn(data, m, e), room)
  }

  /** Where reading stops: behind the tail, or before its first pad if some are missing. */
  predicate Stops(data: string, m: nat, e: nat, room: nat, used: nat)
    requires m <= e <= |data|
  {
    if 0 < PadsIn(data, m, e) < room
    then m <= used < e && data[used] == PAD && forall k :: m <= k < used ==> data[k] != PAD
    else used == e
  }

  /** Apart from the demand that the text be used up. */
  predicate Accepts(f: Flags, data: string, q: seq<sextet>, m: nat, e: nat)
    requires m <= e <= |data|
  {
    || (m == |data| && |q| % 4 == 0)
    || (&& (f.term == TermAny || Clean(q))
        && (f.pad == PadYes ==> |q| % 4 >= 2 && PadsIn(data, m, e) >= Room(f, |q|)))
  }

  // ---------------------------------------------------------------------------
  // Every text has one such reading
  // ---------------------------------------------------------------------------

  lemma Reading(f: Flags, data: string) returns (m: nat, e: nat)
    ensures Fits(f, data, 0, m, e)
  {
    m, e := GrowBody(f, data, 0, 0);
  }

  lemma {:induction false} GrowBody(f: Flags, data: string, m0: nat, i: nat) returns (m: nat, e: nat)
    requires m0 <= i <= |data| && Body(f, data, 0, m0)
    requires forall k :: m0 <= k < i ==> Passed(f, data[k])
    ensures Fits(f, data, 0, m, e)
    decreases |data| - i
  {
    hide DecodeTable, Ignorable;
    if i < |data| && Letter(data[i]) {
      m, e := GrowBody(f, data, i + 1, i + 1);
    } else if i < |data| && Passed(f, data[i]) {
      m, e := GrowBody(f, data, m0, i + 1);
    } else {
      m := m0;
      if f.parse == ParseAny {
        if i < |data| { Classes(data[i]); }
        e := i;
      } else {
        NoPads(f, data, m, i);
        e := GrowTail(f, data, m, i);
      }
    }
  }

  lemma Classes(c: char)
    ensures Letter(c) || c == PAD || Ignorable(ParseAny, c)
    ensures Letter(c) ==> c != PAD && !Ignorable(ParseAny, c) && !Ignorable(ParseWhite, c)
    ensures !Ignorable(ParseAny, PAD) && !Ignorable(ParseWhite, PAD) && !Ignorable(ParseStrict, c)
  {
  }

  lemma {:induction false} NoPads(f: Flags, data: string, i: nat, j: nat)
    requires i <= j <= |data| && f.parse != ParseAny && forall k :: i <= k < j ==> Passed(f, data[k])
    ensures PadsIn(data, i, j) == 0
    decreases j - i
  {
    hide DecodeTable, Ignorable;
    if i < j {
      Classes(data[i]);
      NoPads(f, data, i + 1, j);
    }
  }

  lemma {:induction false} PadsSnoc(data: string, i: nat, j: nat)
    requires i <= j < |data|
    ensures PadsIn(data, i, j + 1) == PadsIn(data, i, j) + if data[j] == PAD then 1 else 0
    decreases j - i
  {
    if i < j { PadsSnoc(data, i + 1, j); }
  }

  lemma {:induction false} GrowTail(f: Flags, data: string, m: nat, i: nat) returns (e: nat)
    requires m <= i <= |data| && Body(f, data, 0, m) && f.parse != ParseAny
    requires var room := Room(f, |LettersIn(data, 0, m)|);
      && Tail(f, data, m, i, room) && PadsIn(data, m, i) <= room
      && (PadsIn(data, m, i) > 0 || (i < |data| ==> !Letter(data[i]) && !Passed(f, data[i])))
    ensures Fits(f, data, 0, m, e)
    decreases |data| - i
  {
    hide DecodeTable, Ignorable, LettersIn, PadsIn;
    var room := Room(f, |LettersIn(data, 0, m)|);
    if i < |data| {
      Classes(data[i]);
      PadsSnoc(data, m, i);
    }
    if i < |data| && (Ignorable(f.parse, data[i]) || (data[i] == PAD && PadsIn(data, m, i) < room)) {
      e := GrowTail(f, data, m, i + 1);
    } else {
      e := i;
    }
  }

  // ---------------------------------------------------------------------------
  // Scanning
  // ---------------------------------------------------------------------------

  lemma {:induction false} LastLetter(data: string, i: nat, j: nat)
    requires i < j <= |data| && Letter(data[j - 1])
    ensures LettersIn(data, i, j) != []
    decreases j - i
  {
    if i + 1 < j { LastLetter(data, i + 1, j); }
  }

  lemma FirstLetter(data: string, i: nat, j: nat, q: seq<sextet>)
    requires i <= j <= |data|
    ensures q + LettersIn(data, i, j)
         == if i == j then q else q + (if Letter(data[i]) then [DecodeTable(data[i])] else []) + LettersIn(data, i + 1, j)
    ensures i < j ==>
      |LettersIn(data, i, j)| == |LettersIn(data, i + 1, j)| + if Letter(data[i]) then 1 else 0
  {
    hide DecodeTable;
  }

  /** The scan collects the letters of a body. */
  lemma {:induction false} Collect(f: Flags, data: string, s: Scan, j: nat) returns (start: nat)
    requires Sound(s) && s.pos <= j <= |data| && Body(f, data, s.pos, j)
    requires |s.q| + |LettersIn(data, s.pos, j)| <= 4
    requires s.pads > 0 ==> f.parse == ParseAny && s.pos < j
    ensures start <= j
    ensures ScanFrom(f.parse, f.pad == PadNo, data, s)
         == ScanFrom(f.parse, f.pad == PadNo, data, Scan(s.q + LettersIn(data, s.pos, j), 0, start, j))
    decreases j - s.pos
  {
    hide ScanFrom, ScanChar, DecodeTable, Ignorable, LettersIn;
    FirstLetter(data, s.pos, j, s.q);
    if s.pos == j {
      start := s.padStart;
    } else {
      LastLetter(data, s.pos, j);
      ScanStep(f.parse, f.pad == PadNo, data, s);
      var next := BodyChar(f, data[s.pos], s);
      start := Collect(f, data, next, j);
    }
  }

  lemma BodyChar(f: Flags, c: char, s: Scan) returns (next: Scan)
    requires Sound(s) && |s.q| < 4 && (Letter(c) || Passed(f, c)) && (s.pads > 0 ==> f.parse == ParseAny)
    ensures ScanChar(f.parse, f.pad == PadNo, c, s) == Some(next) && Sound(next) && next.pos == s.pos + 1
    ensures next.q == s.q + if Letter(c) then [DecodeTable(c)] else []
    ensures if Letter(c) then next.pads == 0 else next.pads > 0 ==> f.parse == ParseAny
  {
    next := ScanChar(f.parse, f.pad == PadNo, c, s).value;
  }

  /** ... and counts the pads of a tail, up to those it has room for. */
  lemma {:induction false} CountPads(f: Flags, data: string, s: Scan, e: nat)
    requires Sound(s) && |s.q| < 4 && s.pos <= e <= |data|
    requires var room := Room(f, |s.q|);
      && s.pads <= room && Tail(f, data, s.pos, e, room)
      && Ends(f, data, e, s.pads + PadsIn(data, s.pos, e), room)
    ensures var room, n, r := Room(f, |s.q|), s.pads + PadsIn(data, s.pos, e), ScanFrom(f.parse, f.pad == PadNo, data, s);
      && r.q == s.q && r.pos == e && r.pads == (if n < room then n else room)
      && (s.pads > 0 ==> r.padStart == s.padStart)
      && (s.pads == 0 && r.pads > 0 ==>
            s.pos <= r.padStart < e && data[r.padStart] == PAD && forall k :: s.pos <= k < r.padStart ==> data[k] != PAD)
    decreases e - s.pos
  {
    hide ScanFrom, DecodeTable, Ignorable;
    ScanStep(f.parse, f.pad == PadNo, data, s);
    if s.pos < e {
      TailChar(f, data[s.pos], s);
      var next := ScanChar(f.parse, f.pad == PadNo, data[s.pos], s).value;
      CountPads(f, data, next, e);
    } else if e < |data| {
      StopChar(f, data[e], s);
    }
  }

  lemma TailChar(f: Flags, c: char, s: Scan)
    requires Sound(s) && |s.q| < 4 && s.pads <= Room(f, |s.q|)
    requires Passed(f, c) || (c == PAD && s.pads < Room(f, |s.q|))
    ensures var counted := c == PAD && s.pads < Room(f, |s.q|);
      ScanChar(f.parse, f.pad == PadNo, c, s)
      == Some(Scan(s.q, if counted then s.pads + 1 else s.pads, if counted && s.pads == 0 then s.pos else s.padStart, s.pos + 1))
  {
  }

  lemma StopChar(f: Flags, c: char, s: Scan)
    requires Sound(s) && |s.q| < 4 && f.parse != ParseAny && !Ignorable(f.parse, c)
    requires (Letter(c) ==> s.pads > 0) && (c == PAD ==> s.pads == Room(f, |s.q|))
    ensures ScanChar(f.parse, f.pad == PadNo, c, s) == None
  {
  }

  // ---------------------------------------------------------------------------
  // Decoding
  // ---------------------------------------------------------------------------

  /** Letters enough for a quantum: where its last one stands. */
  lemma {:induction false} Cut(data: string, i: nat, m: nat, n: nat) returns (k: nat)
    requires i <= m <= |data| && 0 < n <= |LettersIn(data, i, m)|
    ensures i < k <= m && Letter(data[k - 1]) && |LettersIn(data, i, k)| == n
    ensures LettersIn(data, i, m) == LettersIn(data, i, k) + LettersIn(data, k, m)
    decreases m - i
  {
    hide DecodeTable;
    if Letter(data[i]) && n == 1 {
      k := i + 1;
    } else {
      k := Cut(data, i + 1, m, if Letter(data[i]) then n - 1 else n);
    }
  }

  predicate Means(f: Flags, data: string, q: seq<sextet>, m: nat, e: nat, d: Decoded)
    requires m <= e <= |data|
  {
    && d.bytes == Regroup(q)
    && Stops(data, m, e, Room(f, |q|), d.used)
    && (d.ok <==> Accepts(f, data, q, m, e))
  }

  lemma {:induction false} DecodeFits(f: Flags, data: string, pos: nat, m: nat, e: nat)
    requires Fits(f, data, pos, m, e)
    ensures Means(f, data, LettersIn(data, pos, m), m, e, DecodeFrom(f, data, pos))
    decreases m - pos
  {
    hide DecodeFrom, NextQuantum, LettersIn, PadsIn, Bytes, Unused, DecodeTable, Ignorable;
    var q := LettersIn(data, pos, m);
    DecodeStep(f, data, pos);
    if |q| >= 4 {
      var k := Cut(data, pos, m, 4);
      var head, rest := LettersIn(data, pos, k), LettersIn(data, k, m);
      Filled(f, data, pos, k);
      DecodeFits(f, data, k, m, e);
      Apart(f, data, head, rest, m, e);
    } else if pos < |data| {
      if pos < m { LastLetter(data, pos, m); }
      Unfilled(f, data, pos, m, e);
      Spare(q);
    } else {
      Nothing(data, pos);
    }
  }

  lemma Nothing(data: string, pos: nat)
    requires pos == |data|
    ensures LettersIn(data, pos, pos) == [] && PadsIn(data, pos, pos) == 0 && Regroup([]) == []
  {
  }

  lemma Spare(q: seq<sextet>)
    requires |q| < 4
    ensures Unused(q) == 0 <==> Clean(q)
    ensures Regroup(q) == Bytes(q)
  {
  }

  lemma Apart(f: Flags, data: string, head: seq<sextet>, rest: seq<sextet>, m: nat, e: nat)
    requires |head| == 4 && m <= e <= |data|
    ensures Regroup(head + rest) == Bytes(head) + Regroup(rest)
    ensures Room(f, |head + rest|) == Room(f, |rest|)
    ensures Accepts(f, data, head + rest, m, e) <==> Accepts(f, data, rest, m, e)
  {
    hide PadsIn, Bytes;
    var q := head + rest;
    assert q[..4] == head && q[4..] == rest;
    assert |q| % 4 == |rest| % 4;
  }

  lemma Filled(f: Flags, data: string, pos: nat, k: nat)
    requires pos < k <= |data| && Body(f, data, pos, k) && |LettersIn(data, pos, k)| == 4
    ensures NextQuantum(f.parse, f.pad == PadNo, data, pos) == Next(LettersIn(data, pos, k), k, true)
  {
    hide ScanFrom, DecodeTable, Ignorable, LettersIn;
    var q := LettersIn(data, pos, k);
    var start := Collect(f, data, Scan([], 0, 0, pos), k);
    assert [] + q == q;
    ScanStep(f.parse, f.pad == PadNo, data, Scan(q, 0, start, k));
  }

  lemma Unfilled(f: Flags, data: string, pos: nat, m: nat, e: nat)
    requires Fits(f, data, pos, m, e) && |LettersIn(data, pos, m)| < 4
    ensures var q, n := LettersIn(data, pos, m), NextQuantum(f.parse, f.pad == PadNo, data, pos);
      && n.q == q && Stops(data, m, e, Room(f, |q|), n.pos)
      && (n.padded <==> |q| >= 2 && f.pad != PadNo && PadsIn(data, m, e) >= Room(f, |q|))
  {
    hide ScanFrom, DecodeTable, Ignorable, LettersIn, PadsIn;
    var q := LettersIn(data, pos, m);
    var start := Collect(f, data, Scan([], 0, 0, pos), m);
    assert [] + q == q;
    CountPads(f, data, Scan(q, 0, start, m), e);
  }

  /** All modes: the bytes are those of the body's letters; reading stops behind the tail,
      or before its first pad if some are missing; and the text is accepted if and only if
      its letters fill their quanta and nothing follows, or spare bits are zero (or may be
      anything) and required pads are complete - and it is used up, where that is asked. */
  lemma DecodeMeans(f: Flags, data: string, m: nat, e: nat)
    requires Fits(f, data, 0, m, e)
    ensures var q, d := LettersIn(data, 0, m), Decode(f, data);
      && d.bytes == Regroup(q)
      && Stops(data, m, e, Room(f, |q|), d.used)
      && (d.ok <==> Accepts(f, data, q, m, e) && (f.term == TermBuffer ==> d.used == |data|))
  {
    hide DecodeFrom, LettersIn, PadsIn, Regroup, DecodeTable, Ignorable;
    DecodeFits(f, data, 0, m, e);
  }
}
