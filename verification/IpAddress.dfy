/** IP prefix arithmetic: `TruncateIP` and `CountIPMaskBits` (base/ipaddress.cc) and the
    byte-wise netmask builder `make_prefixes` (base/ifaddrs-android.cc). Addresses are
    words in host order, the first one most significant; bit 0 is the leading bit. */
module IpAddress {

  // ---------------------------------------------------------------------------
  // Words and their bits
  // ---------------------------------------------------------------------------

  const ONES: bv32 := 0xFFFF_FFFF

  // Machine operations by name.
  function And(a: bv32, b: bv32): bv32 { a & b }
  function Up(w: bv32): bv32 { w << 1 }
  predicate Top(w: bv32) { w & 0x8000_0000 != 0 }
  predicate Even(w: bv32) { w & 1 == 0 }
  function Half(m: bv32): bv32 { m >> 1 }
  function Grow(m: bv32): bv32 { 0x8000_0000 | (m >> 1) }

  function Bit(w: bv32, i: nat): bool
    decreases i
  {
    if i == 0 then Top(w) else Bit(Up(w), i - 1)
  }

  /** The n leading bits. */
  function Mask(n: nat): bv32
  {
    if n == 0 then 0 else Grow(Mask(n - 1))
  }

  /** A left shift by k that leaves 32 bits. */
  function ShiftLeft(w: bv32, k: nat): bv32
  {
    if k == 0 then w else Up(ShiftLeft(w, k - 1))
  }

  // Facts about single steps.

  lemma GrowMeets(a: bv32, b: bv32)
    requires And(a, b) == a
    ensures And(Grow(a), Grow(b)) == Grow(a)
  {
  }

  lemma GrowUp(a: bv32)
    requires Even(a)
    ensures Up(Grow(a)) == a
  {
  }

  lemma EvenMeet(a: bv32)
    requires And(a, 0xFFFF_FFFE) == a
    ensures Even(a)
  {
  }

  lemma TopOfGrow(a: bv32)
    ensures Top(Grow(a))
  {
  }

  lemma AndUp(a: bv32, b: bv32)
    ensures Up(And(a, b)) == And(Up(a), Up(b))
  {
    AndUpBits(a, b);
  }

  lemma AndUpBits(a: bv32, b: bv32)
    ensures (a & b) << 1 == (a << 1) & (b << 1)
  {
  }

  lemma AndTop(a: bv32, b: bv32)
    ensures Top(And(a, b)) <==> Top(a) && Top(b)
  {
    AndTopBits(a, b);
  }

  lemma AndTopBits(a: bv32, b: bv32)
    ensures ((a & b) & 0x8000_0000 != 0) == ((a & 0x8000_0000 != 0) && (b & 0x8000_0000 != 0))
  {
  }

  lemma ZeroSteps(a: bv32)
    ensures Up(0) == 0 && !Top(0) && And(0, a) == 0 && And(a, 0) == 0 && And(a, ONES) == a
  {
  }

  /** The masked word, bit by bit. */
  lemma AndGrow(a: bv32, m: bv32)
    requires Even(m)
    ensures And(a, Grow(m)) == if Top(a) then Grow(And(Up(a), m)) else Half(And(Up(a), m))
  {
    if Top(a) {
      AndGrowBits(a, m);
    } else {
      AndHalfBits(a, m);
    }
  }

  lemma AndGrowBits(a: bv32, m: bv32)
    requires m & 1 == 0 && a & 0x8000_0000 != 0
    ensures a & (0x8000_0000 | (m >> 1)) == 0x8000_0000 | (((a << 1) & m) >> 1)
  {
  }

  lemma AndHalfBits(a: bv32, m: bv32)
    requires m & 1 == 0 && a & 0x8000_0000 == 0
    ensures a & (0x8000_0000 | (m >> 1)) == ((a << 1) & m) >> 1
  {
  }

  lemma GrowInjective(a: bv32, b: bv32)
    requires Even(a) && Even(b) && Grow(a) == Grow(b)
    ensures a == b
  {
    GrowUp(a);
    GrowUp(b);
  }

  lemma HalfInjective(a: bv32, b: bv32)
    requires Even(a) && Even(b) && Half(a) == Half(b)
    ensures a == b
  {
    HalfUp(a);
    HalfUp(b);
  }

  lemma HalfUp(a: bv32)
    requires Even(a)
    ensures Up(Half(a)) == a
  {
  }

  lemma GrowIsNoHalf(a: bv32, b: bv32)
    ensures Grow(a) != Half(b)
  {
    TopOfGrow(a);
    TopOfHalf(b);
  }

  lemma TopOfHalf(b: bv32)
    ensures !Top(Half(b))
  {
  }

  lemma EvenAnd(a: bv32, m: bv32)
    requires Even(m)
    ensures Even(And(a, m))
  {
    EvenAndBits(a, m);
  }

  lemma EvenAndBits(a: bv32, m: bv32)
    requires m & 1 == 0
    ensures (a & m) & 1 == 0
  {
  }

  // ---------------------------------------------------------------------------
  // Masks
  // ---------------------------------------------------------------------------

  function Grow7(a: bv32): bv32 { 0xFE00_0000 | (a >> 7) }
  function Grow8(a: bv32): bv32 { 0xFF00_0000 | (a >> 8) }

  lemma EightMore(n: nat)
    ensures Mask(n + 8) == Grow8(Mask(n)) && Mask(n + 7) == Grow7(Mask(n))
  {
    hide Grow, Grow7, Grow8;
    GrowEight(Mask(n));
    assert Mask(n + 1) == Grow(Mask(n));
    assert Mask(n + 2) == Grow(Mask(n + 1));
    assert Mask(n + 3) == Grow(Mask(n + 2));
    assert Mask(n + 4) == Grow(Mask(n + 3));
    assert Mask(n + 5) == Grow(Mask(n + 4));
    assert Mask(n + 6) == Grow(Mask(n + 5));
    assert Mask(n + 7) == Grow(Mask(n + 6));
  }

  lemma GrowEight(a: bv32)
    ensures var h := Grow(Grow(Grow(Grow(Grow(Grow(Grow(a)))))));
      h == Grow7(a) && Grow(h) == Grow8(a)
  {
  }

  lemma FullMasks()
    ensures Mask(8) == 0xFF00_0000 && Mask(16) == 0xFFFF_0000 && Mask(24) == 0xFFFF_FF00
    ensures Mask(32) == ONES && Mask(31) == 0xFFFF_FFFE
  {
    assert Mask(0) == 0;
    EightMore(0);
    EightMore(8);
    EightMore(16);
    EightMore(24);
  }

  lemma {:induction false} MaskMeet(m: nat, n: nat)
    requires m <= n
    ensures And(Mask(m), Mask(n)) == Mask(m)
  {
    hide And, Grow;
    if m > 0 {
      MaskMeet(m - 1, n - 1);
      GrowMeets(Mask(m - 1), Mask(n - 1));
    } else {
      ZeroSteps(Mask(n));
    }
  }

  lemma MaskEven(n: nat)
    requires n < 32
    ensures Even(Mask(n))
  {
    hide And, Even;
    FullMasks();
    MaskMeet(n, 31);
    EvenMeet(Mask(n));
  }

  lemma MaskUp(n: nat)
    requires 0 < n <= 32
    ensures Up(Mask(n)) == Mask(n - 1)
  {
    hide Up, Grow, Even;
    MaskEven(n - 1);
    GrowUp(Mask(n - 1));
  }

  /** The mask as the source shifts it. */
  lemma {:induction false} ShiftedMask(n: nat)
    requires n <= 32
    ensures ShiftLeft(ONES, 32 - n) == Mask(n)
    decreases 32 - n
  {
    if n == 32 {
      FullMasks();
    } else {
      hide Up, Grow;
      ShiftedMask(n + 1);
      MaskUp(n + 1);
    }
  }

  lemma {:induction false} BitOfMask(n: nat, i: nat)
    requires n <= 32
    ensures Bit(Mask(n), i) <==> i < n
    decreases i
  {
    hide Up, Grow, Top;
    if n == 0 {
      BitOfZero(i);
    } else if i > 0 {
      MaskUp(n);
      BitOfMask(n - 1, i - 1);
    } else {
      TopOfGrow(Mask(n - 1));
    }
  }

  lemma {:induction false} BitOfZero(i: nat)
    ensures !Bit(0, i)
  {
    ZeroSteps(0);
    if i > 0 {
      BitOfZero(i - 1);
    }
  }

  lemma {:induction false} BitOfAnd(a: bv32, b: bv32, i: nat)
    ensures Bit(And(a, b), i) <==> Bit(a, i) && Bit(b, i)
    decreases i
  {
    hide And, Up, Top;
    AndUp(a, b);
    AndTop(a, b);
    if i > 0 {
      BitOfAnd(Up(a), Up(b), i - 1);
    }
  }

  ghost predicate SameBits(a: bv32, b: bv32, n: nat) { forall i: nat :: i < n ==> Bit(a, i) == Bit(b, i) }

  lemma SameSplits(a: bv32, b: bv32, n: nat)
    requires n > 0
    ensures SameBits(a, b, n) <==> Bit(a, 0) == Bit(b, 0) && SameBits(Up(a), Up(b), n - 1)
  {
    hide Up, Top;
    if SameBits(a, b, n) {
      forall i: nat | i < n - 1
        ensures Bit(Up(a), i) == Bit(Up(b), i)
      {
        assert Bit(a, i + 1) == Bit(b, i + 1);
      }
    }
    if Bit(a, 0) == Bit(b, 0) && SameBits(Up(a), Up(b), n - 1) {
      forall i: nat | i < n
        ensures Bit(a, i) == Bit(b, i)
      {
        assert i > 0 ==> Bit(Up(a), i - 1) == Bit(Up(b), i - 1);
      }
    }
  }

  /** Masking leaves the same if and only if the masked bits are the same. */
  lemma {:induction false} SameBitsIff(a: bv32, b: bv32, n: nat)
    requires n <= 32
    ensures And(a, Mask(n)) == And(b, Mask(n)) <==> SameBits(a, b, n)
    decreases n
  {
    hide And, Up, Top, Grow, Half, Even, SameBits;
    if n == 0 {
      ZeroSteps(a);
      ZeroSteps(b);
      assert SameBits(a, b, 0) by { NoBits(a, b); }
    } else {
      var m := Mask(n - 1);
      SameBitsIff(Up(a), Up(b), n - 1);
      SameSplits(a, b, n);
      MaskEven(n - 1);
      AndGrow(a, m);
      AndGrow(b, m);
      EvenAnd(Up(a), m);
      EvenAnd(Up(b), m);
      var x, y := And(Up(a), m), And(Up(b), m);
      GrowIsNoHalf(x, y);
      GrowIsNoHalf(y, x);
      if Grow(x) == Grow(y) {
        GrowInjective(x, y);
      }
      if Half(x) == Half(y) {
        HalfInjective(x, y);
      }
    }
  }

  lemma NoBits(a: bv32, b: bv32)
    ensures SameBits(a, b, 0)
  {
  }

  // ---------------------------------------------------------------------------
  // Addresses
  // ---------------------------------------------------------------------------

  datatype IPAddress =
    | Unspec
    | V4(ip4: bv32)
    | V6(w0: bv32, w1: bv32, w2: bv32, w3: bv32)

  type Words = seq<bv32>

  function WordsOf(ip: IPAddress): Words
  {
    match ip
    case Unspec => []
    case V4(w) => [w]
    case V6(a, b, c, d) => [a, b, c, d]
  }

  function FromWords(ws: Words): IPAddress
  {
    if |ws| == 1 then V4(ws[0])
    else if |ws| == 4 then V6(ws[0], ws[1], ws[2], ws[3])
    else Unspec
  }

  function Size(ip: IPAddress): nat { 32 * |WordsOf(ip)| }

  predicate AddressBit(ws: Words, i: nat)
    requires i < 32 * |ws|
  {
    Bit(ws[i / 32], i % 32)
  }

  /** How many of the first n bits are in word k. */
  function Within(n: nat, k: nat): (r: nat)
    ensures r <= 32
  {
    if n < 32 * k then 0 else if n < 32 * k + 32 then n - 32 * k else 32
  }

  function Truncated(ws: Words, n: nat): (r: Words)
    ensures |r| == |ws|
  {
    seq(|ws|, k requires 0 <= k < |ws| => And(ws[k], Mask(Within(n, k))))
  }

  /** The reference: the first n bits and zeros behind them. */
  function Truncate(ip: IPAddress, n: int): IPAddress
  {
    if n < 0 then Unspec else FromWords(Truncated(WordsOf(ip), n))
  }

  lemma WordsRoundTrip(ip: IPAddress)
    ensures FromWords(WordsOf(ip)) == ip
  {
  }

  /** What truncation does to every bit. */
  lemma TruncatedBit(ws: Words, n: nat, i: nat)
    requires i < 32 * |ws|
    ensures AddressBit(Truncated(ws, n), i) <==> i < n && AddressBit(ws, i)
  {
    hide And, Mask, Bit;
    var k, j := i / 32, i % 32;
    BitOfAnd(ws[k], Mask(Within(n, k)), j);
    BitOfMask(Within(n, k), j);
    assert j < Within(n, k) <==> i < n;
  }

  lemma AndAssoc(w: bv32, a: bv32, b: bv32)
    ensures And(And(w, a), b) == And(w, And(a, b)) && And(a, b) == And(b, a)
  {
  }

  lemma WordTwice(w: bv32, m: nat, n: nat)
    ensures And(And(w, Mask(m)), Mask(n)) == And(w, Mask(if m < n then m else n))
  {
    hide And, Grow;
    AndAssoc(w, Mask(m), Mask(n));
    if m <= n {
      MaskMeet(m, n);
    } else {
      MaskMeet(n, m);
    }
  }

  lemma TruncatedTwice(ws: Words, m: nat, n: nat)
    ensures Truncated(Truncated(ws, m), n) == Truncated(ws, if m < n then m else n)
  {
    hide And, Mask;
    forall k | 0 <= k < |ws|
      ensures Truncated(Truncated(ws, m), n)[k] == Truncated(ws, if m < n then m else n)[k]
    {
      WordTwice(ws[k], Within(m, k), Within(n, k));
    }
  }

  /** Truncating twice is truncating to the shorter length. */
  lemma TruncateMin(ip: IPAddress, m: int, n: int)
    ensures Truncate(Truncate(ip, m), n) == Truncate(ip, if m < n then m else n)
  {
    hide Truncated;
    if m >= 0 && n >= 0 {
      TruncatedTwice(WordsOf(ip), m, n);
      WordsOfTruncated(ip, m);
    } else if n >= 0 {
      WordsOfTruncated(Unspec, n);
    }
  }

  lemma WordsOfTruncated(ip: IPAddress, n: nat)
    ensures WordsOf(FromWords(Truncated(WordsOf(ip), n))) == Truncated(WordsOf(ip), n)
    ensures ip == Unspec ==> FromWords(Truncated(WordsOf(ip), n)) == Unspec
  {
    hide And, Mask;
  }

  ghost predicate SameAddressBits(a: Words, b: Words, n: nat)
    requires |a| == |b| && n <= 32 * |a|
  {
    forall i: nat :: i < n ==> AddressBit(a, i) == AddressBit(b, i)
  }

  /** Two addresses of a family truncate to the same if and only if they agree on the
      bits that are kept. */
  lemma SameTruncationIff(a: Words, b: Words, n: nat)
    requires |a| == |b| && n <= 32 * |a|
    ensures Truncated(a, n) == Truncated(b, n) <==> SameAddressBits(a, b, n)
  {
    hide And, Mask, Bit, SameBits;
    forall k | 0 <= k < |a|
      ensures Truncated(a, n)[k] == Truncated(b, n)[k] <==> SameBits(a[k], b[k], Within(n, k))
    {
      SameBitsIff(a[k], b[k], Within(n, k));
    }
    if SameAddressBits(a, b, n) {
      forall k | 0 <= k < |a|
        ensures SameBits(a[k], b[k], Within(n, k))
      {
        WordAgrees(a, b, n, k);
      }
      assert Truncated(a, n) == Truncated(b, n);
    } else {
      var i: nat :| i < n && AddressBit(a, i) != AddressBit(b, i);
      TruncatedBit(a, n, i);
      TruncatedBit(b, n, i);
    }
  }

  lemma WordAgrees(a: Words, b: Words, n: nat, k: nat)
    requires |a| == |b| && n <= 32 * |a| && SameAddressBits(a, b, n) && k < |a|
    ensures SameBits(a[k], b[k], Within(n, k))
  {
    hide Bit;
    forall j: nat | j < Within(n, k)
      ensures Bit(a[k], j) == Bit(b[k], j)
    {
      var i := 32 * k + j;
      assert i / 32 == k && i % 32 == j;
      assert AddressBit(a, i) == AddressBit(b, i);
    }
  }

  lemma MaskAll(w: bv32)
    ensures And(w, Mask(32)) == w && And(w, Mask(0)) == 0
  {
    FullMasks();
    ZeroSteps(w);
    hide And, Grow;
  }

  /** The word loop of the IPv6 branch. */
  method TruncateWords(words: Words, length: nat) returns (r: Words)
    requires |words| == 4 && 0 < length < 128
    ensures r == Truncated(words, length)
  {
    hide And, Mask, ShiftLeft;
    var position := length / 32;
    var inner := 32 - (length - position * 32);
    var mask := ShiftLeft(ONES, inner);
    ShiftedMask(length - position * 32);
    r := words;
    for i := 0 to 4
      invariant |r| == 4
      invariant forall k :: 0 <= k < i ==> r[k] == And(words[k], Mask(Within(length, k)))
      invariant forall k :: i <= k < 4 ==> r[k] == words[k]
    {
      MaskAll(words[i]);
      if i == position {
        r := r[i := And(r[i], mask)];
      } else if i > position {
        r := r[i := 0];
      }
    }
  }

  method TruncateIP(ip: IPAddress, length: int) returns (r: IPAddress)
    ensures r == Truncate(ip, length)
  {
    hide And, Mask, ShiftLeft, Truncated;
    if length < 0 {
      return Unspec;
    }
    TruncateEnds(ip, length);
    match ip {
      case V4(w) =>
        if length > 31 {
          return ip;
        }
        if length == 0 {
          return V4(0);
        }
        ShiftedMask(length);
        var mask := ShiftLeft(ONES, 32 - length);
        TruncatedOne(w, length);
        return V4(And(w, mask));
      case V6(a, b, c, d) =>
        if length > 127 {
          return ip;
        }
        if length == 0 {
          return V6(0, 0, 0, 0);
        }
        var words := TruncateWords([a, b, c, d], length);
        return FromWords(words);
      case Unspec =>
        return Unspec;
    }
  }

  lemma TruncatedOne(w: bv32, n: nat)
    requires n <= 32
    ensures Truncated([w], n) == [And(w, Mask(n))]
  {
    hide And, Mask;
  }

  /** Nothing kept, and everything kept. */
  lemma TruncateEnds(ip: IPAddress, n: nat)
    ensures n >= Size(ip) ==> Truncate(ip, n) == ip
    ensures n == 0 && ip.V4? ==> Truncate(ip, n) == V4(0)
    ensures n == 0 && ip.V6? ==> Truncate(ip, n) == V6(0, 0, 0, 0)
  {
    hide And, Mask;
    var ws := WordsOf(ip);
    forall k | 0 <= k < |ws|
      ensures n >= Size(ip) ==> Truncated(ws, n)[k] == ws[k]
      ensures n == 0 ==> Truncated(ws, n)[k] == 0
    {
      MaskAll(ws[k]);
    }
    WordsRoundTrip(ip);
    assert n >= Size(ip) ==> Truncated(ws, n) == ws;
  }

  // ---------------------------------------------------------------------------
  // Counting mask bits
  // ---------------------------------------------------------------------------

  function LowestBit(w: bv32): bv32 { w & (0 - w) }

  function Meets(w: bv32, pattern: bv32, amount: nat): nat { if w & pattern != 0 then amount else 0 }

  /** The trailing zeros of a word of which one bit is set, as the source counts them. */
  function TrailingZeros(w: bv32): int
  {
    32 - Meets(w, 0xFFFF_FFFF, 1) - Meets(w, 0x0000_FFFF, 16) - Meets(w, 0x00FF_00FF, 8)
    - Meets(w, 0x0F0F_0F0F, 4) - Meets(w, 0x3333_3333, 2) - Meets(w, 0x5555_5555, 1)
  }

  function WordCount(w: bv32): int { if w == 0 then 0 else 32 - TrailingZeros(LowestBit(w)) }

  predicate OneBit(w: bv32) { w != 0 && w & (w - 1) == 0 }

  lemma OneBitLowest(w: bv32)
    requires w != 0
    ensures OneBit(LowestBit(w))
  {
  }

  lemma LowestUp(w: bv32)
    requires Up(w) != 0
    ensures LowestBit(Up(w)) == Up(LowestBit(w))
  {
  }

  lemma ZerosUp(b: bv32)
    requires OneBit(b) && Up(b) != 0
    ensures TrailingZeros(Up(b)) == TrailingZeros(b) + 1
  {
  }

  lemma TopAlone(w: bv32)
    requires w != 0 && Up(w) == 0
    ensures w == 0x8000_0000
  {
  }

  lemma CountTop()
    ensures WordCount(0x8000_0000) == 1 && Top(0x8000_0000) && Up(0x8000_0000) == 0
  {
  }

  lemma CountUp(w: bv32)
    requires Up(w) != 0
    ensures w != 0 && WordCount(w) == WordCount(Up(w)) + 1
  {
    hide LowestBit, TrailingZeros, OneBit;
    assert w != 0 by { ZeroSteps(w); }
    OneBitLowest(w);
    OneBitLowest(Up(w));
    LowestUp(w);
    assert Up(LowestBit(w)) != 0 by { NotZero(Up(LowestBit(w))); }
    ZerosUp(LowestBit(w));
  }

  lemma NotZero(b: bv32)
    requires OneBit(b)
    ensures b != 0
  {
  }

  lemma NarrowUp(w: bv32, n: nat)
    requires 0 < n <= 32 && And(w, Mask(n)) == w
    ensures And(Up(w), Mask(n - 1)) == Up(w)
  {
    hide And, Up, Grow;
    AndUp(w, Mask(n));
    MaskUp(n);
  }

  /** The count of a word is where its last set bit is. */
  lemma {:induction false} CountIsLastBit(w: bv32, n: nat)
    requires w != 0 && n <= 32 && And(w, Mask(n)) == w
    ensures 0 < WordCount(w) <= n && Bit(w, WordCount(w) - 1)
    ensures forall i: nat :: WordCount(w) <= i ==> !Bit(w, i)
    decreases n
  {
    hide And, Up, Top, Grow, WordCount;
    if n == 0 {
      ZeroSteps(w);
    } else if Up(w) == 0 {
      TopAlone(w);
      CountTop();
      forall i: nat | 1 <= i
        ensures !Bit(w, i)
      {
        BitOfZero(i - 1);
      }
    } else {
      NarrowUp(w, n);
      CountUp(w);
      CountIsLastBit(Up(w), n - 1);
      forall i: nat | WordCount(w) <= i
        ensures !Bit(w, i)
      {
        assert !Bit(Up(w), i - 1);
      }
    }
  }

  /** Whether the zeros of a word are all at its end. */
  predicate Contiguous(w: bv32) { !w & (!w + 1) == 0 }

  lemma ContiguousUp(w: bv32)
    requires Up(w) != 0
    ensures Contiguous(w) <==> Top(w) && Contiguous(Up(w))
  {
  }

  lemma ContiguousEnds()
    ensures Contiguous(0) && Contiguous(0x8000_0000) && WordCount(0) == 0
  {
  }

  lemma GrowOfUp(w: bv32)
    ensures Grow(Up(w)) == w <==> Top(w)
  {
  }

  lemma {:induction false} ContiguousIff(w: bv32, n: nat)
    requires n <= 32 && And(w, Mask(n)) == w
    ensures 0 <= WordCount(w) <= n
    ensures Contiguous(w) <==> w == Mask(WordCount(w))
    decreases n
  {
    hide And, Up, Top, Grow, WordCount, Contiguous, Even;
    ContiguousEnds();
    if w == 0 {
    } else if Up(w) == 0 {
      TopAlone(w);
      CountTop();
      CountIsLastBit(w, n);
      assert Mask(1) == 0x8000_0000 by { FirstMask(); }
    } else if n == 0 {
      ZeroSteps(w);
    } else {
      NarrowUp(w, n);
      CountUp(w);
      ContiguousUp(w);
      ContiguousIff(Up(w), n - 1);
      var c := WordCount(w);
      GrowOfUp(w);
      MaskEven(c - 1);
      GrowUp(Mask(c - 1));
      if w == Mask(c) {
        assert Up(w) == Mask(c - 1);
        TopOfGrow(Mask(c - 1));
      }
    }
  }

  lemma FirstMask()
    ensures Mask(1) == 0x8000_0000
  {
    assert Mask(0) == 0;
  }

  // Whole addresses.

  function FirstGap(ws: Words): (p: nat)
    ensures p <= |ws| && (p < |ws| ==> ws[p] != ONES) && forall k :: 0 <= k < p ==> ws[k] == ONES
  {
    if ws == [] || ws[0] != ONES then 0 else 1 + FirstGap(ws[1..])
  }

  function Count(ws: Words): int
  {
    var p := FirstGap(ws);
    if p < |ws| then 32 * p + WordCount(ws[p]) else 32 * p
  }

  method CountIPMaskBits(mask: IPAddress) returns (r: int)
    ensures r == Count(WordsOf(mask))
  {
    hide WordCount, LowestBit, TrailingZeros;
    var word: bv32, bits := 0, 0;
    match mask {
      case V4(w) =>
        word := w;
        CountOnes(w);
      case V6(a, b, c, d) =>
        var words, i := [a, b, c, d], 0;
        while i < 4
          invariant 0 <= i <= 4 && forall k :: 0 <= k < i ==> words[k] == ONES
        {
          if words[i] != ONES {
            break;
          }
          i := i + 1;
        }
        GapIs(words, i);
        if i < 4 {
          word := words[i];
        }
        bits := i * 32;
      case Unspec =>
        return 0;
    }
    CountOfWord(word);
    if word == 0 {
      return bits;
    }
    return bits + (32 - TrailingZeros(LowestBit(word)));
  }

  lemma CountOfWord(w: bv32)
    ensures WordCount(w) == if w == 0 then 0 else 32 - TrailingZeros(LowestBit(w))
  {
    hide LowestBit, TrailingZeros;
  }

  lemma CountOnes(w: bv32)
    ensures Count([w]) == WordCount(w)
  {
    if w == ONES {
      assert WordCount(ONES) == 32;
      assert FirstGap([w]) == 1;
    }
    hide WordCount;
  }

  lemma GapIs(ws: Words, p: nat)
    requires p <= |ws| && (p < |ws| ==> ws[p] != ONES) && forall k :: 0 <= k < p ==> ws[k] == ONES
    ensures FirstGap(ws) == p
  {
  }

  /** The number of contiguous bits set from the leading one on, as the documentation of
      `CountIPMaskBits` has it. */
  ghost predicate IsLeading(ws: Words, n: int)
  {
    && 0 <= n <= 32 * |ws|
    && (forall i: nat :: i < n ==> AddressBit(ws, i))
    && (n < 32 * |ws| ==> !AddressBit(ws, n))
  }

  lemma OnesBit(i: nat)
    requires i < 32
    ensures Bit(ONES, i)
  {
    FullMasks();
    BitOfMask(32, i);
  }

  ghost predicate AllSet(w: bv32, n: int) { forall i: nat :: i < n ==> Bit(w, i) }

  lemma AllSetIsMask(w: bv32, c: nat)
    requires c <= 32 && forall i: nat :: c <= i ==> !Bit(w, i)
    ensures AllSet(w, c) <==> w == Mask(c)
  {
    hide And, Grow, Bit;
    forall i: nat
      ensures Bit(Mask(c), i) <==> i < c
    {
      BitOfMask(c, i);
    }
    SameBitsIff(w, Mask(c), 32);
    MaskAll(w);
    MaskAll(Mask(c));
    assert SameBits(w, Mask(c), 32) ==> w == Mask(c);
    if AllSet(w, c) {
      assert SameBits(w, Mask(c), 32);
    }
  }

  lemma WordLeadingIff(w: bv32)
    ensures 0 <= WordCount(w) <= 32
    ensures forall i: nat :: WordCount(w) <= i ==> !Bit(w, i)
    ensures AllSet(w, WordCount(w)) <==> Contiguous(w)
    ensures w != ONES && AllSet(w, WordCount(w)) ==> WordCount(w) < 32
  {
    hide And, Up, Top, Grow, WordCount, Contiguous, Bit, AllSet, Mask;
    MaskAll(w);
    ContiguousIff(w, 32);
    var c := WordCount(w);
    if w != 0 {
      CountIsLastBit(w, 32);
    } else {
      ContiguousEnds();
      forall i: nat
        ensures !Bit(w, i)
      {
        BitOfZero(i);
      }
    }
    AllSetIsMask(w, c);
    FullMasks();
  }

  /** The code counts the leading bits that are set if and only if the first word that is
      not all ones has its zeros at the end. */
  lemma CountIff(ws: Words)
    ensures var p := FirstGap(ws); IsLeading(ws, Count(ws)) <==> p == |ws| || Contiguous(ws[p])
  {
    hide WordCount, Contiguous, IsLeading;
    var p := FirstGap(ws);
    if p < |ws| {
      GapCount(ws, p);
    } else {
      FullLeading(ws);
    }
  }

  lemma GapCount(ws: Words, p: nat)
    requires p < |ws| && ws[p] != ONES && forall k :: 0 <= k < p ==> ws[k] == ONES
    ensures IsLeading(ws, 32 * p + WordCount(ws[p])) <==> Contiguous(ws[p])
  {
    hide WordCount, Contiguous, AddressBit, AllSet, Bit, IsLeading;
    var w := ws[p];
    WordLeadingIff(w);
    GapBits(ws, p);
    GapLeadingIff(ws, p, WordCount(w));
  }

  lemma FullLeading(ws: Words)
    requires forall k :: 0 <= k < |ws| ==> ws[k] == ONES
    ensures IsLeading(ws, 32 * |ws|)
  {
    hide AddressBit;
    GapBits(ws, |ws|);
  }

  lemma GapBits(ws: Words, p: nat)
    requires p <= |ws| && forall k :: 0 <= k < p ==> ws[k] == ONES
    ensures forall i: nat :: i < 32 * p ==> AddressBit(ws, i)
  {
    hide Bit;
    forall i: nat | i < 32 * p
      ensures AddressBit(ws, i)
    {
      OnesBit(i % 32);
    }
  }

  lemma GapLeadingIff(ws: Words, p: nat, c: nat)
    requires p < |ws| && c <= 32 && (AllSet(ws[p], c) ==> c < 32)
    requires forall i: nat :: i < 32 * p ==> AddressBit(ws, i)
    requires forall i: nat :: c <= i ==> !Bit(ws[p], i)
    ensures IsLeading(ws, 32 * p + c) <==> AllSet(ws[p], c)
  {
    hide Bit;
    var n := 32 * p + c;
    if IsLeading(ws, n) {
      forall i: nat | i < c
        ensures Bit(ws[p], i)
      {
        var k := 32 * p + i;
        assert k / 32 == p && k % 32 == i;
        assert AddressBit(ws, k);
      }
    }
    if AllSet(ws[p], c) {
      forall i: nat | i < n
        ensures AddressBit(ws, i)
      {
        if i >= 32 * p {
          assert i / 32 == p && i % 32 == i - 32 * p;
        }
      }
      assert n / 32 == p && n % 32 == c;
      assert !AddressBit(ws, n);
    }
  }

  /** A mask with a hole is counted to its last bit, beyond the leading ones. */
  lemma HoleMiscounted()
    ensures Count([0xFF00_FF00]) == 24
    ensures !IsLeading([0xFF00_FF00], 24)
  {
    var w: bv32 := 0xFF00_FF00;
    HoleFacts(w);
    CountOnes(w);
    hide WordCount, Contiguous, IsLeading;
    GapIs([w], 0);
    CountIff([w]);
  }

  lemma HoleFacts(w: bv32)
    requires w == 0xFF00_FF00
    ensures WordCount(w) == 24 && !Contiguous(w) && w != ONES
  {
  }

  /** k words of ones. */
  function AllOnes(k: nat): Words { seq(k, i => ONES) }

  lemma CountOfMask(n: nat)
    requires n <= 32
    ensures WordCount(Mask(n)) == n
  {
    hide Bit, WordCount, And;
    var w := Mask(n);
    MaskAll(w);
    if w != 0 {
      CountIsLastBit(w, 32);
      BitOfMask(n, WordCount(w) - 1);
      BitOfMask(n, WordCount(w));
    } else {
      ContiguousEnds();
      BitOfZero(0);
      BitOfMask(n, 0);
    }
  }

  /** Every prefix mask is counted back. */
  lemma CountsBack(k: nat, n: nat)
    requires n <= 32 * k
    ensures Count(Truncated(AllOnes(k), n)) == n
  {
    hide And, Mask, WordCount;
    var ws := Truncated(AllOnes(k), n);
    var p := n / 32;
    forall i | 0 <= i < k
      ensures ws[i] == Mask(Within(n, i))
    {
      ZeroAnd(Mask(Within(n, i)));
    }
    FullMasks();
    if p < k {
      CountOfMask(n - 32 * p);
      PartialMask(n - 32 * p);
    }
    GapIs(ws, p);
  }

  lemma ZeroAnd(m: bv32)
    ensures And(ONES, m) == m
  {
  }

  lemma PartialMask(n: nat)
    requires n < 32
    ensures Mask(n) != ONES
  {
    MaskEven(n);
    hide Mask;
  }

  // ---------------------------------------------------------------------------
  // The byte-wise mask
  // ---------------------------------------------------------------------------

  function ByteGrow(b: bv8): bv8 { 0x80 | (b >> 1) }

  /** The n leading bits of a byte. */
  function ByteMask(n: nat): bv8 { if n == 0 then 0 else ByteGrow(ByteMask(n - 1)) }

  function ByteShift(b: bv8, k: nat): bv8 { if k == 0 then b else ByteShift(b, k - 1) << 1 }

  function InByte(n: nat, j: nat): (r: nat)
    ensures r <= 8
  {
    if n < 8 * j then 0 else if n < 8 * j + 8 then n - 8 * j else 8
  }

  function PrefixBytes(size: nat, n: nat): (r: seq<bv8>)
    ensures |r| == size
  {
    seq(size, j requires 0 <= j < size => ByteMask(InByte(n, j)))
  }

  lemma ByteMasks()
    ensures ByteMask(0) == 0 && ByteMask(1) == 0x80 && ByteMask(2) == 0xC0 && ByteMask(3) == 0xE0
    ensures ByteMask(4) == 0xF0 && ByteMask(5) == 0xF8 && ByteMask(6) == 0xFC && ByteMask(7) == 0xFE
    ensures ByteMask(8) == 0xFF
  {
    assert ByteMask(0) == 0;
    assert ByteMask(1) == ByteGrow(ByteMask(0));
    assert ByteMask(2) == ByteGrow(ByteMask(1));
    assert ByteMask(3) == ByteGrow(ByteMask(2));
    assert ByteMask(4) == ByteGrow(ByteMask(3));
    assert ByteMask(5) == ByteGrow(ByteMask(4));
    assert ByteMask(6) == ByteGrow(ByteMask(5));
    assert ByteMask(7) == ByteGrow(ByteMask(6));
    assert ByteMask(8) == ByteGrow(ByteMask(7));
  }

  lemma {:induction false} ByteShifted(n: nat)
    requires n <= 8
    ensures ByteShift(0xFF, 8 - n) == ByteMask(n)
    decreases 8 - n
  {
    ByteMasks();
    if n < 8 {
      ByteShifted(n + 1);
    }
  }

  lemma {:induction false} ShiftedOut(k: nat)
    requires 8 <= k
    ensures ByteShift(0xFF, k) == 0
  {
    if k == 8 {
      ByteShifted(0);
    } else {
      ShiftedOut(k - 1);
    }
  }

  datatype Family = AF_INET | AF_INET6 | AF_OTHER

  /** C division and remainder: towards zero. */
  function Quotient(n: int, d: nat): int
    requires d > 0
  {
    if n >= 0 then n / d else -((-n) / d)
  }

  function Remainder(n: int, d: nat): int
    requires d > 0
  {
    if n >= 0 then n % d else -((-n) % d)
  }

  /** The prefix length that counts: not below zero, not beyond the address. */
  function Prefix(prefixlen: int, size: nat): nat
  {
    if prefixlen < 0 then 0 else if prefixlen > 8 * size then 8 * size else prefixlen
  }

  /** `make_prefixes`. `memory` is the zeroed address field and the byte behind it, which
      a full-length prefix clears. */
  method MakePrefixes(family: Family, prefixlen: int) returns (r: int, memory: array<bv8>)
    ensures family == AF_OTHER ==> r == -1
    ensures family != AF_OTHER ==>
      var size := if family == AF_INET then 4 else 16;
      r == 0 && memory.Length == size + 1 && memory[..size] == PrefixBytes(size, Prefix(prefixlen, size))
  {
    hide ByteMask, ByteShift;
    if family == AF_OTHER {
      memory := new bv8[0];
      return -1, memory;
    }
    var size := if family == AF_INET then 4 else 16;
    memory := new bv8[size + 1](_ => 0);
    var n := if prefixlen > 8 * size then 8 * size else prefixlen;
    var ones: bv8 := 0xFF;
    ByteMasks();
    var i := 0;
    while i < Quotient(n, 8)
      invariant 0 <= i <= size && (i == 0 || i <= Quotient(n, 8))
      invariant forall j :: 0 <= j < i ==> memory[j] == 0xFF
      invariant forall j :: i <= j < memory.Length ==> memory[j] == 0
    {
      memory[i] := 0xFF;
      i := i + 1;
    }
    var shift := 8 - Remainder(n, 8);
    if n < 0 {
      ShiftedOut(shift);
    } else {
      ByteShifted(n % 8);
    }
    memory[i] := ByteShift(ones, shift);
    assert memory[..size] == PrefixBytes(size, Prefix(prefixlen, size));
    r := 0;
  }

  function Join(a: bv8, b: bv8, c: bv8, d: bv8): bv32
  {
    ((a as bv32) << 24) | ((b as bv32) << 16) | ((c as bv32) << 8) | (d as bv32)
  }

  /** The words of bytes in network order. */
  function BytesToWords(bytes: seq<bv8>): Words
    requires |bytes| % 4 == 0
  {
    if |bytes| == 0 then []
    else [Join(bytes[0], bytes[1], bytes[2], bytes[3])] + BytesToWords(bytes[4..])
  }

  lemma JoinGrows(b: bv8)
    requires b & 1 == 0
    ensures Join(ByteGrow(b), 0, 0, 0) == Grow(Join(b, 0, 0, 0))
    ensures Join(0xFF, ByteGrow(b), 0, 0) == Grow(Join(0xFF, b, 0, 0))
    ensures Join(0xFF, 0xFF, ByteGrow(b), 0) == Grow(Join(0xFF, 0xFF, b, 0))
    ensures Join(0xFF, 0xFF, 0xFF, ByteGrow(b)) == Grow(Join(0xFF, 0xFF, 0xFF, b))
  {
  }

  lemma ByteEven(n: nat)
    requires n < 8
    ensures ByteMask(n) & 1 == 0
  {
    ByteMasks();
    hide ByteMask;
  }

  lemma JoinNothing()
    ensures Join(0, 0, 0, 0) == 0
  {
  }

  lemma {:induction false} JoinMask(n: nat)
    requires n <= 32
    ensures Join(ByteMask(InByte(n, 0)), ByteMask(InByte(n, 1)), ByteMask(InByte(n, 2)), ByteMask(InByte(n, 3))) == Mask(n)
  {
    hide Join, Grow, ByteGrow;
    ByteMasks();
    JoinNothing();
    if n > 0 {
      JoinMask(n - 1);
      var r := (n - 1) % 8;
      ByteEven(r);
      JoinGrows(ByteMask(r));
      assert ByteMask(r + 1) == ByteGrow(ByteMask(r));
      assert forall j :: 0 <= j < 4 ==> InByte(n, j) == if j == (n - 1) / 8 then r + 1 else InByte(n - 1, j);
    }
  }

  lemma {:induction false} WordOfBytes(bytes: seq<bv8>, k: nat)
    requires |bytes| % 4 == 0 && 4 * k < |bytes|
    ensures |BytesToWords(bytes)| == |bytes| / 4
    ensures BytesToWords(bytes)[k] == Join(bytes[4 * k], bytes[4 * k + 1], bytes[4 * k + 2], bytes[4 * k + 3])
    decreases |bytes|
  {
    hide Join;
    if |bytes| > 4 {
      WordOfBytes(bytes[4..], if k == 0 then 0 else k - 1);
    }
  }

  /** The mask built byte by byte is the all-ones address truncated. */
  lemma PrefixIsTruncation(k: nat, n: nat)
    requires n <= 32 * k
    ensures BytesToWords(PrefixBytes(4 * k, n)) == Truncated(AllOnes(k), n)
  {
    hide And, Mask, ByteMask, Join;
    var bytes, ws := PrefixBytes(4 * k, n), Truncated(AllOnes(k), n);
    forall i | 0 <= i < k
      ensures |BytesToWords(bytes)| == k && BytesToWords(bytes)[i] == ws[i]
    {
      assert |bytes| == 4 * k;
      WordOfBytes(bytes, i);
      var m := Within(n, i);
      ZeroAnd(Mask(m));
      JoinMask(m);
      assert InByte(n, 4 * i) == InByte(m, 0) && InByte(n, 4 * i + 1) == InByte(m, 1);
      assert InByte(n, 4 * i + 2) == InByte(m, 2) && InByte(n, 4 * i + 3) == InByte(m, 3);
    }
    if k == 0 {
      assert BytesToWords(bytes) == [];
    } else {
      WordOfBytes(bytes, 0);
      assert |BytesToWords(bytes)| == |ws|;
    }
  }

  /** And it is counted back. */
  lemma PrefixCountsBack(k: nat, n: nat)
    requires n <= 32 * k
    ensures Count(BytesToWords(PrefixBytes(4 * k, n))) == n
  {
    PrefixIsTruncation(k, n);
    CountsBack(k, n);
  }

  // ---------------------------------------------------------------------------
  // Mapped addresses
  // ---------------------------------------------------------------------------

  function AsIPv6Address(ip: IPAddress): IPAddress { if ip.V4? then V6(0, 0, 0xFFFF, ip.ip4) else ip }

  /** Mapping commutes with truncation, at 96 bits more. */
  lemma MappedTruncation(w: bv32, n: nat)
    ensures AsIPv6Address(Truncate(V4(w), n)) == Truncate(AsIPv6Address(V4(w)), 96 + n)
  {
    hide And, Mask;
    MaskAll(0);
    MaskAll(0xFFFF);
    assert Within(96 + n, 3) == Within(n, 0);
  }

  lemma {:induction false} BitShifted(w: bv32, k: nat, i: nat)
    ensures Bit(w, k + i) == Bit(Raised(w, k), i)
    decreases k
  {
    hide Up, Top;
    if k > 0 {
      BitShifted(Up(w), k - 1, i);
    }
  }

  /** The word k bits on. */
  function Raised(w: bv32, k: nat): bv32
    decreases k
  {
    if k == 0 then w else Raised(Up(w), k - 1)
  }

  lemma LowHalf()
    ensures Raised(0xFFFF, 16) == 0xFFFF_0000 && And(0xFFFF, 0xFFFF_0000) == 0
  {
    assert Raised(0xFFFF, 16) == Raised(0xF_FFF0, 12) by {
      assert Raised(0xFFFF, 16) == Raised(0x1_FFFE, 15) == Raised(0x3_FFFC, 14) == Raised(0x7_FFF8, 13);
    }
    assert Raised(0xF_FFF0, 12) == Raised(0xFF_FF00, 8) by {
      assert Raised(0xF_FFF0, 12) == Raised(0x1F_FFE0, 11) == Raised(0x3F_FFC0, 10) == Raised(0x7F_FF80, 9);
    }
    assert Raised(0xFF_FF00, 8) == Raised(0xFFF_F000, 4) by {
      assert Raised(0xFF_FF00, 8) == Raised(0x1FF_FE00, 7) == Raised(0x3FF_FC00, 6) == Raised(0x7FF_F800, 5);
    }
    assert Raised(0xFFF_F000, 4) == Raised(0x1FFF_E000, 3) == Raised(0x3FFF_C000, 2) == Raised(0x7FFF_8000, 1) == Raised(0xFFFF_0000, 0);
  }

  /** The mapped prefix, bit by bit: eighty zeros, sixteen ones, then the address. */
  lemma MappedBits(w: bv32, i: nat)
    requires i < 128
    ensures AddressBit(WordsOf(AsIPv6Address(V4(w))), i)
         <==> if i < 80 then false else if i < 96 then true else Bit(w, i - 96)
  {
    FullMasks();
    LowHalf();
    hide Up, Top, And, Grow;
    var ws, j := WordsOf(AsIPv6Address(V4(w))), i % 32;
    assert ws[0] == 0 && ws[1] == 0 && ws[2] == 0xFFFF && ws[3] == w;
    if i < 64 {
      BitOfZero(j);
    } else if i < 80 {
      SameBitsIff(0xFFFF, 0, 16);
      ZeroSteps(0xFFFF_0000);
      BitOfZero(j);
      assert Bit(0xFFFF, j) == Bit(0, j);
    } else if i < 96 {
      BitShifted(0xFFFF, 16, j - 16);
      BitOfMask(16, j - 16);
    }
  }
}
