/** CRC-32 (base/crc32.cc): the lazily filled table against the bit-serial definition
    (section 8 of RFC 1952), and what the checksum detects. */
module Crc32 {

  const POLYNOMIAL: bv32 := 0xEDB88320
  const ONES: bv32 := 0xFFFF_FFFF

  // ---------------------------------------------------------------------------
  // The definition: one message bit at a time, least significant first
  // ---------------------------------------------------------------------------

  function FeedBit(c: bv32, bit: bool): bv32
  {
    if (c & 1 == 1) != bit then POLYNOMIAL ^ (c >> 1) else c >> 1
  }

  function FeedBits(c: bv32, bits: bv32, n: nat): bv32
    decreases n
  {
    if n == 0 then c else FeedBits(FeedBit(c, bits & 1 == 1), bits >> 1, n - 1)
  }

  function FeedByte(c: bv32, b: bv8): bv32 { FeedBits(c, b as bv32, 8) }

  function Register(c: bv32, buf: seq<bv8>): bv32
  {
    if buf == [] then c else FeedByte(Register(c, buf[..|buf| - 1]), buf[|buf| - 1])
  }

  /** The checksum of `buf`, continuing from an earlier checksum. */
  function Crc(start: bv32, buf: seq<bv8>): bv32
  {
    Xor(Register(Xor(start, ONES), buf), ONES)
  }

  // ---------------------------------------------------------------------------
  // Shifting the register
  // ---------------------------------------------------------------------------

  // Named, so that proofs can treat them as black boxes.
  function Xor(a: bv32, b: bv32): bv32 { a ^ b }
  function Low(x: bv32): bv32 { x & 0xFF }
  function High(x: bv32): bv32 { x & 0xFFFF_FF00 }
  function Drop8(x: bv32): bv32 { x >> 8 }
  function Half(x: bv32): bv32 { x >> 1 }
  predicate Even(x: bv32) { x & 1 == 0 }
  function Widen(b: bv8): bv32 { b as bv32 }

  function Shift(c: bv32): bv32 { if c & 1 == 1 then POLYNOMIAL ^ (c >> 1) else c >> 1 }

  function Shifts(c: bv32, n: nat): bv32
    decreases n
  {
    if n == 0 then c else Shifts(Shift(c), n - 1)
  }

  lemma LowBit(x: bv32, y: bv32)
    ensures ((x ^ y) & 1 == 1) <==> ((x & 1 == 1) != (y & 1 == 1))
  {
  }

  lemma HalfXor(x: bv32, y: bv32)
    ensures (x ^ y) >> 1 == (x >> 1) ^ (y >> 1)
  {
  }

  lemma XorLaws(p: bv32, a: bv32, b: bv32)
    ensures p ^ (a ^ b) == (p ^ a) ^ b && p ^ (a ^ b) == a ^ (p ^ b) && (p ^ a) ^ (p ^ b) == a ^ b
  {
  }

  lemma ShiftLinearBits(x: bv32, y: bv32)
    ensures Shift(x ^ y) == Shift(x) ^ Shift(y)
  {
    LowBit(x, y);
    HalfXor(x, y);
    XorLaws(POLYNOMIAL, x >> 1, y >> 1);
  }

  lemma ShiftLinear(x: bv32, y: bv32)
    ensures Shift(Xor(x, y)) == Xor(Shift(x), Shift(y))
  {
    hide Shift;
    ShiftLinearBits(x, y);
  }

  lemma {:induction false} ShiftsLinear(x: bv32, y: bv32, n: nat)
    ensures Shifts(Xor(x, y), n) == Xor(Shifts(x, n), Shifts(y, n))
    decreases n
  {
    hide Shift, Xor;
    if n > 0 {
      ShiftLinear(x, y);
      ShiftsLinear(Shift(x), Shift(y), n - 1);
    }
  }

  lemma ShiftInjective(x: bv32, y: bv32)
    requires Shift(x) == Shift(y)
    ensures x == y
  {
  }

  lemma {:induction false} ShiftsInjective(x: bv32, y: bv32, n: nat)
    requires Shifts(x, n) == Shifts(y, n)
    ensures x == y
    decreases n
  {
    hide Shift;
    if n > 0 {
      ShiftsInjective(Shift(x), Shift(y), n - 1);
      ShiftInjective(x, y);
    }
  }

  /** Feeding a bit is adding it to the low end and shifting. */
  lemma FeedBitIsShift(c: bv32, bits: bv32)
    ensures Shift(Xor(c, bits)) == Xor(FeedBit(c, bits & 1 == 1), bits >> 1)
  {
    hide Shift, FeedBit;
    FeedBitIsShiftBits(c, bits);
  }

  lemma FeedBitIsShiftBits(c: bv32, bits: bv32)
    ensures Shift(c ^ bits) == FeedBit(c, bits & 1 == 1) ^ (bits >> 1)
  {
    LowBit(c, bits);
    HalfXor(c, bits);
    XorLaws(POLYNOMIAL, c >> 1, bits >> 1);
  }

  predicate FitsIn(bits: bv32, n: nat)
    decreases n
  {
    if n == 0 then bits == 0 else FitsIn(bits >> 1, n - 1)
  }

  lemma XorZero(c: bv32)
    ensures Xor(c, 0) == c && Xor(0, c) == c && Xor(c, c) == 0
  {
  }

  lemma {:induction false} FeedBitsAreShifts(c: bv32, bits: bv32, n: nat)
    requires FitsIn(bits, n)
    ensures FeedBits(c, bits, n) == Shifts(Xor(c, bits), n)
    decreases n
  {
    hide Shift, FeedBit, Xor;
    if n == 0 {
      XorZero(c);
    } else {
      FeedBitIsShift(c, bits);
      FeedBitsAreShifts(FeedBit(c, bits & 1 == 1), bits >> 1, n - 1);
    }
  }

  lemma FitsStep(bits: bv32, n: nat)
    ensures FitsIn(bits >> 1, n) ==> FitsIn(bits, n + 1)
    ensures FitsIn(0, 0)
  {
  }

  lemma ByteFits(b: bv8)
    ensures FitsIn(Widen(b), 8)
  {
    hide FitsIn;
    var x := Widen(b);
    FitsStep(x >> 7, 0);
    FitsStep(x >> 6, 1);
    FitsStep(x >> 5, 2);
    FitsStep(x >> 4, 3);
    FitsStep(x >> 3, 4);
    FitsStep(x >> 2, 5);
    FitsStep(x >> 1, 6);
    FitsStep(x, 7);
  }

  lemma FeedByteIsShifts(c: bv32, b: bv8)
    ensures FeedByte(c, b) == Shifts(Xor(c, Widen(b)), 8)
  {
    hide FitsIn, FeedBits, Shifts, Xor;
    ByteFits(b);
    FeedBitsAreShifts(c, Widen(b), 8);
  }

  lemma ShiftsEven(x: bv32, n: nat)
    requires Even(x)
    ensures Shifts(x, n + 1) == Shifts(Half(x), n)
  {
  }

  lemma HalvesOfHigh(x: bv32)
    ensures var y := High(x);
            Even(y) && Even(Half(y)) && Even(Half(Half(y))) && Even(Half(Half(Half(y))))
    ensures var z := Half(Half(Half(Half(High(x)))));
            Even(z) && Even(Half(z)) && Even(Half(Half(z))) && Even(Half(Half(Half(z))))
            && Half(Half(Half(Half(z)))) == Drop8(x)
  {
  }

  /** Eight shifts of a register whose low byte is clear just move it. */
  lemma ShiftsOfHigh(x: bv32)
    ensures Shifts(High(x), 8) == Drop8(x)
  {
    hide Shifts, Even, Half, High, Drop8;
    HalvesOfHigh(x);
    var y := High(x);
    var y4 := Half(Half(Half(Half(y))));
    ShiftsEven(y, 7);
    ShiftsEven(Half(y), 6);
    ShiftsEven(Half(Half(y)), 5);
    ShiftsEven(Half(Half(Half(y))), 4);
    ShiftsEven(y4, 3);
    ShiftsEven(Half(y4), 2);
    ShiftsEven(Half(Half(y4)), 1);
    ShiftsEven(Half(Half(Half(y4))), 0);
    ShiftsNone(Drop8(x));
  }

  lemma ShiftsNone(x: bv32)
    ensures Shifts(x, 0) == x
  {
  }

  lemma SplitLow(c: bv32, b: bv8)
    ensures var x := Xor(c, Widen(b)); x == Xor(Low(x), High(x)) && Drop8(x) == Drop8(c)
  {
  }

  /** The table step: only the low byte needs looking up. */
  lemma TableStep(c: bv32, b: bv8)
    ensures FeedByte(c, b) == Xor(Shifts(Low(Xor(c, Widen(b))), 8), Drop8(c))
  {
    hide FeedByte, Shifts, Xor, Low, High, Drop8, Widen;
    FeedByteIsShifts(c, b);
    var x := Xor(c, Widen(b));
    SplitLow(c, b);
    ShiftsLinear(Low(x), High(x), 8);
    ShiftsOfHigh(x);
  }

  // ---------------------------------------------------------------------------
  // The code
  // ---------------------------------------------------------------------------

  lemma ShiftsZeroIff(x: bv32)
    ensures Shifts(x, 8) == 0 <==> x == 0
  {
    hide Shifts;
    ShiftsOfHigh(0);
    if Shifts(x, 8) == 0 {
      ShiftsInjective(x, 0, 8);
    }
  }

  /** The process-wide table: all zero until the first call fills it. */
  class Checksummer {
    const table: array<bv32>

    ghost predicate Filled()
      reads table
    {
      table.Length == 256 && forall i :: 0 <= i < 256 ==> table[i] == Shifts(i as bv32, 8)
    }

    ghost predicate Valid()
      reads table
    {
      table.Length == 256 && (Filled() || forall i :: 0 <= i < 256 ==> table[i] == 0)
    }

    constructor ()
      ensures Valid() && fresh(table)
    {
      table := new bv32[256](_ => 0);
    }

    /** `EnsureCrc32TableInited`: the non-zero last entry marks a filled table. */
    method EnsureTable()
      requires Valid()
      modifies table
      ensures Valid() && Filled()
    {
      hide Shifts;
      ShiftsZeroIff(255);
      if table[255] != 0 {
        return;
      }
      assert !Filled() by { assert 255 as bv32 == 255; }
      for i := 0 to 256
        invariant forall k :: 0 <= k < i ==> table[k] == Shifts(k as bv32, 8)
      {
        table[i] := Entry(i);
      }
    }

    /** `UpdateCrc32`: the bit-serial checksum, on the first call and on every later one. */
    method UpdateCrc32(start: bv32, buf: seq<bv8>) returns (r: bv32)
      requires Valid()
      modifies table
      ensures Valid() && Filled()
      ensures r == Crc(start, buf)
    {
      hide Shifts, FeedByte, Xor, Drop8;
      EnsureTable();
      var c := Xor(start, ONES);
      for i := 0 to |buf|
        invariant Filled() && c == Register(Xor(start, ONES), buf[..i])
      {
        TableStep(c, buf[i]);
        var index := Low(Xor(c, Widen(buf[i])));
        assert index < 256 && (index as int) as bv32 == index;
        assert buf[..i + 1][..i] == buf[..i];
        c := Xor(table[index as int], Drop8(c));
      }
      assert buf[..|buf|] == buf;
      r := Xor(c, ONES);
    }
  }

  /** The inner loop: one table entry. */
  method Entry(i: nat) returns (c: bv32)
    requires i < 256
    ensures c == Shifts(i as bv32, 8)
  {
    hide Shift;
    c := i as bv32;
    for j := 0 to 8
      invariant Shifts(c, 8 - j) == Shifts(i as bv32, 8)
    {
      c := Shift(c);
    }
  }

  // ---------------------------------------------------------------------------
  // What the checksum means
  // ---------------------------------------------------------------------------

  lemma {:induction false} RegisterAppend(c: bv32, a: seq<bv8>, b: seq<bv8>)
    ensures Register(Register(c, a), b) == Register(c, a + b)
  {
    hide FeedByte;
    if b == [] {
      assert a + b == a;
    } else {
      assert (a + b)[..|a + b| - 1] == a + b[..|b| - 1];
      RegisterAppend(c, a, b[..|b| - 1]);
    }
  }

  lemma XorTwice(x: bv32, y: bv32)
    ensures Xor(Xor(x, y), y) == x
  {
  }

  /** Updating by one buffer and then another is updating by both. */
  lemma CrcAppend(start: bv32, a: seq<bv8>, b: seq<bv8>)
    ensures Crc(Crc(start, a), b) == Crc(start, a + b)
  {
    hide Xor, Register;
    XorTwice(Register(Xor(start, ONES), a), ONES);
    RegisterAppend(Xor(start, ONES), a, b);
  }

  function XorBuffers(a: seq<bv8>, b: seq<bv8>): (d: seq<bv8>)
    requires |a| == |b|
    ensures |d| == |a|
  {
    seq(|a|, i requires 0 <= i < |a| => a[i] ^ b[i])
  }

  lemma XorShuffle(c: bv32, a: bv8, d: bv32, b: bv8)
    ensures Xor(Xor(c, Widen(a)), Xor(d, Widen(b))) == Xor(Xor(c, d), Widen(a ^ b))
  {
    hide Widen, Xor;
    WidenXor(a, b);
    XorSwap(c, Widen(a), d, Widen(b));
  }

  lemma WidenXor(a: bv8, b: bv8)
    ensures Widen(a ^ b) == Xor(Widen(a), Widen(b))
  {
  }

  lemma XorSwap(c: bv32, p: bv32, d: bv32, q: bv32)
    ensures Xor(Xor(c, p), Xor(d, q)) == Xor(Xor(c, d), Xor(p, q))
  {
    hide Xor;
    XorAssoc(c, p, Xor(d, q));
    XorAssoc(p, d, q);
    XorComm(p, d);
    XorAssoc(d, p, q);
    XorAssoc(c, d, Xor(p, q));
  }

  lemma XorAssoc(a: bv32, b: bv32, c: bv32)
    ensures Xor(Xor(a, b), c) == Xor(a, Xor(b, c))
  {
  }

  lemma XorComm(a: bv32, b: bv32)
    ensures Xor(a, b) == Xor(b, a)
  {
  }

  lemma FeedByteLinear(c: bv32, a: bv8, d: bv32, b: bv8)
    ensures FeedByte(Xor(c, d), a ^ b) == Xor(FeedByte(c, a), FeedByte(d, b))
  {
    hide FeedByte, Shifts, Xor, Widen;
    FeedByteIsShifts(c, a);
    FeedByteIsShifts(d, b);
    FeedByteIsShifts(Xor(c, d), a ^ b);
    ShiftsLinear(Xor(c, Widen(a)), Xor(d, Widen(b)), 8);
    XorShuffle(c, a, d, b);
  }

  lemma {:induction false} RegisterLinear(c: bv32, a: seq<bv8>, d: bv32, b: seq<bv8>)
    requires |a| == |b|
    ensures Register(Xor(c, d), XorBuffers(a, b)) == Xor(Register(c, a), Register(d, b))
  {
    hide FeedByte, Xor;
    if a != [] {
      var n := |a| - 1;
      RegisterLinear(c, a[..n], d, b[..n]);
      assert XorBuffers(a, b)[..n] == XorBuffers(a[..n], b[..n]);
      FeedByteLinear(Register(c, a[..n]), a[n], Register(d, b[..n]), b[n]);
    }
  }

  lemma XorOnesThrice(x: bv32, y: bv32, z: bv32)
    ensures Xor(Xor(Xor(x, ONES), Xor(y, ONES)), Xor(z, ONES)) == Xor(Xor(Xor(x, y), z), ONES)
  {
  }

  /** The checksum is affine: three equally long buffers and their sum. */
  lemma CrcAffine(r: bv32, s: bv32, t: bv32, a: seq<bv8>, b: seq<bv8>, c: seq<bv8>)
    requires |a| == |b| == |c|
    ensures Xor(Xor(Crc(r, a), Crc(s, b)), Crc(t, c))
            == Crc(Xor(Xor(r, s), t), XorBuffers(XorBuffers(a, b), c))
  {
    hide Xor, Register;
    var x, y, z := Xor(r, ONES), Xor(s, ONES), Xor(t, ONES);
    RegisterLinear(x, a, y, b);
    RegisterLinear(Xor(x, y), XorBuffers(a, b), z, c);
    XorOnesThrice(r, s, t);
    XorOnesThrice(Register(x, a), Register(y, b), Register(z, c));
  }

  lemma XorZeroIff(x: bv32, y: bv32)
    ensures Xor(x, y) == 0 <==> x == y
  {
    hide Xor;
    XorTwice(x, y);
    XorZero(y);
  }

  /** Two equally long buffers collide exactly when their difference leaves the empty
      register empty. */
  lemma CollisionIff(start: bv32, a: seq<bv8>, b: seq<bv8>)
    requires |a| == |b|
    ensures Crc(start, a) == Crc(start, b) <==> Register(0, XorBuffers(a, b)) == 0
  {
    hide Xor, Register;
    var c := Xor(start, ONES);
    RegisterLinear(c, a, c, b);
    XorZero(c);
    XorZeroIff(Register(c, a), Register(c, b));
    XorTwice(Register(c, a), ONES);
    XorTwice(Register(c, b), ONES);
  }

  predicate AllZero(s: seq<bv8>) { forall i :: 0 <= i < |s| ==> s[i] == 0 }

  /** Each byte step is a bijection on the register, so trailing zeros forget nothing. */
  lemma {:induction false} ZerosKeep(c: bv32, s: seq<bv8>)
    requires AllZero(s)
    ensures Register(c, s) == 0 <==> c == 0
  {
    hide FeedByte, Shifts, Xor;
    if s != [] {
      var r := Register(c, s[..|s| - 1]);
      ZerosKeep(c, s[..|s| - 1]);
      FeedByteIsShifts(r, 0);
      XorZero(r);
      ShiftsZeroIff(r);
    }
  }

  /** Registers with room for n more bytes at the bottom of 32 bits. */
  predicate Room(r: bv32, n: nat)
  {
    if n == 0 then true
    else if n == 1 then r < 0x100_0000
    else if n == 2 then r < 0x1_0000
    else if n == 3 then r < 0x100
    else r == 0
  }

  lemma HighOfRaised(r: bv32)
    requires r < 0x100_0000
    ensures High(r << 8) == r << 8 && Drop8(r << 8) == r
  {
  }

  lemma Unshift(y: bv32, r: bv32)
    requires r < 0x100_0000 && Shifts(y, 8) == r
    ensures y == r << 8
  {
    hide Shifts, High, Drop8;
    HighOfRaised(r);
    ShiftsOfHigh(r << 8);
    ShiftsInjective(y, r << 8, 8);
  }

  lemma RaisedRoom(r: bv32, b: bv8, x: bv32, n: nat)
    requires 0 < n <= 4 && Room(r, n) && Xor(x, Widen(b)) == r << 8
    ensures r < 0x100_0000 && Room(x, n - 1)
    ensures x == 0 ==> b == 0 && r == 0
  {
  }

  lemma RoomBound(r: bv32, n: nat)
    requires 0 < n && Room(r, n)
    ensures r < 0x100_0000
  {
  }

  /** Up to four bytes cannot cancel out: only zeros leave the register this small. */
  lemma {:induction false} ShortBurst(w: seq<bv8>)
    requires |w| <= 4 && Room(Register(0, w), |w|)
    ensures AllZero(w) && Register(0, w) == 0
  {
    hide FeedByte, Shifts, Xor, Widen, Room;
    if w != [] {
      var n := |w|;
      var front, b := w[..n - 1], w[n - 1];
      var x, r := Register(0, front), Register(0, w);
      FeedByteIsShifts(x, b);
      RoomBound(r, n);
      Unshift(Xor(x, Widen(b)), r);
      RaisedRoom(r, b, x, n);
      ShortBurst(front);
      assert w == front + [b];
    }
  }

  /** Burst detection: two equally long buffers that differ at most within four
      consecutive bytes have the same checksum only if they are equal. In particular a
      change to a single byte is always noticed. */
  lemma BurstDetected(start: bv32, a: seq<bv8>, b: seq<bv8>, i: nat, j: nat)
    requires |a| == |b| && i <= j <= |a| && j <= i + 4
    requires a[..i] == b[..i] && a[j..] == b[j..]
    ensures Crc(start, a) == Crc(start, b) <==> a == b
  {
    hide Register, Crc, Room;
    var d := XorBuffers(a, b);
    CollisionIff(start, a, b);
    BurstLayout(a, b, i, j);
    var head, burst, tail := d[..i], d[i..j], d[j..];
    assert d == head + burst + tail;
    RegisterAppend(0, head + burst, tail);
    RegisterAppend(0, head, burst);
    ZerosKeep(0, head);
    ZerosKeep(Register(0, burst), tail);
    if a == b {
      ZerosKeep(0, burst);
    }
    if Register(0, burst) == 0 {
      ZeroRoom(|burst|);
      ShortBurst(burst);
      SameWhereZero(a, b, i, j);
    }
  }

  lemma ZeroRoom(n: nat)
    ensures Room(0, n)
  {
  }

  lemma BurstLayout(a: seq<bv8>, b: seq<bv8>, i: nat, j: nat)
    requires |a| == |b| && i <= j <= |a| && a[..i] == b[..i] && a[j..] == b[j..]
    ensures AllZero(XorBuffers(a, b)[..i]) && AllZero(XorBuffers(a, b)[j..])
    ensures a == b ==> AllZero(XorBuffers(a, b)[i..j])
  {
    forall k | 0 <= k < i
      ensures a[k] == b[k]
    {
      assert a[..i][k] == b[..i][k];
    }
    forall k | j <= k < |a|
      ensures a[k] == b[k]
    {
      assert a[j..][k - j] == b[j..][k - j];
    }
  }

  lemma SameWhereZero(a: seq<bv8>, b: seq<bv8>, i: nat, j: nat)
    requires |a| == |b| && i <= j <= |a| && a[..i] == b[..i] && a[j..] == b[j..]
    requires AllZero(XorBuffers(a, b)[i..j])
    ensures a == b
  {
    forall k | i <= k < j
      ensures a[k] == b[k]
    {
      assert XorBuffers(a, b)[i..j][k - i] == a[k] ^ b[k];
    }
    assert a[i..j] == b[i..j];
    assert a == a[..i] + a[i..j] + a[j..] && b == b[..i] + b[i..j] + b[j..];
  }

  // ---------------------------------------------------------------------------
  // Fixed points of the standard
  // ---------------------------------------------------------------------------

  /** x^32 + x^26 + x^23 + x^22 + x^16 + x^12 + x^11 + x^10 + x^8 + x^7 + x^5 + x^4 + x^2 + x + 1,
      the term of degree k in the k-th bit from the top. */
  lemma PolynomialIs(term: bv32)
    requires term == 0x8000_0000
    ensures POLYNOMIAL == (term >> 0)
                  | (term >> 1)
                  | (term >> 2)
                  | (term >> 4)
                  | (term >> 5)
                  | (term >> 7)
                  | (term >> 8)
                  | (term >> 10)
                  | (term >> 11)
                  | (term >> 12)
                  | (term >> 16)
                  | (term >> 22)
                  | (term >> 23)
                  | (term >> 26)
  {
  }

  lemma FeedNext(c: bv32, bits: bv32, n: nat, bit: bool, next: bv32, rest: bv32)
    requires n > 0 && (bits & 1 == 1) == bit && bits >> 1 == rest && FeedBit(c, bit) == next
    ensures FeedBits(c, bits, n) == FeedBits(next, rest, n - 1)
  {
  }

  /** The checksum of the letter a. */
  lemma CrcOfA(buf: seq<bv8>)
    requires buf == [0x61]
    ensures Crc(0, buf) == 0xE8B7BE43
  {
    FeedNext(0xFFFFFFFF, 0x61, 8, true, 0x7FFFFFFF, 0x30);
    FeedNext(0x7FFFFFFF, 0x30, 7, false, 0xD2477CDF, 0x18);
    FeedNext(0xD2477CDF, 0x18, 6, false, 0x849B3D4F, 0x0C);
    FeedNext(0x849B3D4F, 0x0C, 5, false, 0xAFF51D87, 0x06);
    FeedNext(0xAFF51D87, 0x06, 4, false, 0xBA420DE3, 0x03);
    FeedNext(0xBA420DE3, 0x03, 3, true, 0x5D2106F1, 0x01);
    FeedNext(0x5D2106F1, 0x01, 2, true, 0x2E908378, 0x00);
    FeedNext(0x2E908378, 0x00, 1, false, 0x174841BC, 0x00);
    assert (0x61 as bv8) as bv32 == 0x61;
    assert buf[..0] == [] && Register(ONES, buf) == FeedByte(ONES, 0x61);
  }
}
