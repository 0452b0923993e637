/** Character-level helpers shared by the HTTP parser and sender: the C library
    classifiers and number scanners that base/httpbase.cc relies on. A byte is a
    `char`; `size_t` and `unsigned long` are 32 bits wide, as on the ARM target. */
module HttpText {

  type size_t = n: int | 0 <= n <= 0xFFFF_FFFF

  const SIZE_UNKNOWN: size_t := 0xFFFF_FFFF

  /** The buffer of `HttpBase`. */
  const BUFFER_SIZE: nat := 32 * 1024

  datatype HttpError =
    | HE_NONE | HE_PROTOCOL | HE_DISCONNECTED | HE_OVERFLOW | HE_CONNECT_FAILED | HE_SOCKET_ERROR
    | HE_SHUTDOWN | HE_OPERATION_CANCELLED | HE_AUTH | HE_CERTIFICATE_EXPIRED | HE_STREAM | HE_CACHE

  predicate IsSpace(c: char) {
    c == ' ' || '\t' <= c <= '\r'
  }

  /** The line without its trailing white space (the loop at httpbase.cc:102). */
  function TrimRight(s: string): (r: string)
    ensures r <= s
    ensures r != "" ==> !IsSpace(r[|r| - 1])
    ensures forall i :: |r| <= i < |s| ==> IsSpace(s[i])
  {
    if s != "" && IsSpace(s[|s| - 1]) then TrimRight(s[..|s| - 1]) else s
  }

  /** Index of the first `c`, or the length when there is none. */
  function IndexOf(s: string, c: char): (k: nat)
    ensures k <= |s| && LacksBefore(s, k, c)
    ensures k < |s| ==> s[k] == c
  {
    if s == "" || s[0] == c then 0 else 1 + IndexOf(s[1..], c)
  }

  predicate LacksBefore(s: string, n: nat, c: char)
    requires n <= |s|
  {
    forall i :: 0 <= i < n ==> s[i] != c
  }

  predicate Lacks(s: string, c: char) { LacksBefore(s, |s|, c) }

  /** The first occurrence is where it is found and nowhere before. */
  lemma IndexOfIs(s: string, c: char, n: nat)
    requires n <= |s| && LacksBefore(s, n, c) && (n < |s| ==> s[n] == c)
    ensures IndexOf(s, c) == n
  {
    if n < |s| {
      assert s[n] == c;
    }
  }

  /** First index at or after `i` that does not hold white space. */
  function SkipSpace(s: string, i: nat): (k: nat)
    requires i <= |s|
    ensures i <= k <= |s|
    ensures forall j :: i <= j < k ==> IsSpace(s[j])
    ensures k < |s| ==> !IsSpace(s[k])
    decreases |s| - i
  {
    if i < |s| && IsSpace(s[i]) then SkipSpace(s, i + 1) else i
  }

  function Lower(c: char): char {
    if 'A' <= c <= 'Z' then (c as int + 32) as char else c
  }

  /** `_strnicmp` over equal lengths. */
  predicate EqualIgnoringCase(a: string, b: string) {
    |a| == |b| && forall i :: 0 <= i < |a| ==> Lower(a[i]) == Lower(b[i])
  }

  predicate IsContentLength(name: string) { EqualIgnoringCase(name, "Content-Length") }

  predicate IsTransferEncoding(name: string) { EqualIgnoringCase(name, "Transfer-Encoding") }

  function DigitValue(c: char): (v: int)
    ensures -1 <= v < 16
  {
    if '0' <= c <= '9' then c as int - '0' as int
    else if 'a' <= c <= 'f' then c as int - 'a' as int + 10
    else if 'A' <= c <= 'F' then c as int - 'A' as int + 10
    else -1
  }

  predicate IsDigit(c: char, base: nat) {
    0 <= DigitValue(c) < base
  }

  /** First index at or after `i` that does not hold a digit. */
  function DigitEnd(s: string, i: nat, base: nat): (k: nat)
    requires i <= |s|
    ensures i <= k <= |s|
    ensures forall j :: i <= j < k ==> IsDigit(s[j], base)
    ensures k < |s| ==> !IsDigit(s[k], base)
    decreases |s| - i
  {
    if i < |s| && IsDigit(s[i], base) then DigitEnd(s, i + 1, base) else i
  }

  function DigitsValue(s: string, base: nat): (v: nat)
    requires forall c :: c in s ==> IsDigit(c, base)
  {
    if s == "" then 0
    else
      assert IsDigit(s[|s| - 1], base);
      DigitsValue(s[..|s| - 1], base) * base + DigitValue(s[|s| - 1])
  }

  /** What `strtoul` reports: no conversion, or a value and where it stopped. */
  datatype Scanned = NoConversion | Number(value: size_t, end: nat)

  function SignEnd(s: string, i: nat): (j: nat)
    requires i <= |s|
    ensures i <= j <= |s|
  {
    if i < |s| && (s[i] == '-' || s[i] == '+') then i + 1 else i
  }

  function PrefixEnd(s: string, j: nat, base: nat): (k: nat)
    requires j <= |s|
    ensures j <= k <= |s|
  {
    if base == 16 && j + 2 < |s| && s[j] == '0' && (s[j + 1] == 'x' || s[j + 1] == 'X') && IsDigit(s[j + 2], 16)
    then j + 2 else j
  }

  /** `strtoul(s, &end, base)`, and also `sscanf(s, "%u")` with base 10: skip white
      space, an optional sign, an optional "0x", then digits; saturating. */
  function StrToUl(s: string, base: nat): (r: Scanned)
    ensures r.Number? ==> 0 < r.end <= |s|
  {
    var i := SkipSpace(s, 0);
    var j := SignEnd(s, i);
    var k := PrefixEnd(s, j, base);
    var e := DigitEnd(s, k, base);
    if e == k then NoConversion
    else
      var v := DigitsValue(s[k..e], base);
      var w := if v > 0xFFFF_FFFF then 0xFFFF_FFFF
               else if s[i] == '-' && v != 0 then 0x1_0000_0000 - v else v;
      Number(w, e)
  }

  lemma {:induction false} SkipSpaceLocal(line: string, beyond: string, i: nat)
    requires i < |line| && !IsSpace(line[|line| - 1])
    ensures SkipSpace(line + beyond, i) == SkipSpace(line, i) < |line|
    decreases |line| - i
  {
    if IsSpace(line[i]) {
      SkipSpaceLocal(line, beyond, i + 1);
    }
  }

  lemma {:induction false} DigitEndLocal(line: string, beyond: string, i: nat, base: nat)
    requires i <= |line| && beyond != "" && IsSpace(beyond[0])
    ensures DigitEnd(line + beyond, i, base) == DigitEnd(line, i, base)
    decreases |line| - i
  {
    if i < |line| && IsDigit(line[i], base) {
      DigitEndLocal(line, beyond, i + 1, base);
    }
  }

  /** A number scanned from a trimmed, non-empty line never looks past the line:
      the scanners have no length argument, yet cannot leave the line they start in. */
  lemma NumberStaysInLine(line: string, beyond: string, base: nat)
    requires line != "" && !IsSpace(line[|line| - 1])
    requires beyond != "" && IsSpace(beyond[0])
    ensures StrToUl(line + beyond, base) == StrToUl(line, base)
  {
    hide DigitsValue, SkipSpace, DigitEnd;
    var s := line + beyond;
    SkipSpaceLocal(line, beyond, 0);
    var i := SkipSpace(line, 0);
    var j := SignEnd(line, i);
    assert SignEnd(s, i) == j;
    var k := PrefixEnd(line, j, base);
    assert PrefixEnd(s, j, base) == k;
    DigitEndLocal(line, beyond, k, base);
    var e := DigitEnd(line, k, base);
    assert s[k..e] == line[k..e];
  }

  // ---------------------------------------------------------------------------
  // What the scanners read
  // ---------------------------------------------------------------------------

  /** The digits, by character. */
  lemma DigitsAre(c: char, v: nat)
    requires v < 16
    ensures DigitValue(c) == v <==> c == "0123456789abcdef"[v] || c == "0123456789ABCDEF"[v]
  {
  }

  function LowerAll(s: string): (r: string)
    ensures |r| == |s| && forall i :: 0 <= i < |s| ==> r[i] == Lower(s[i])
  {
    seq(|s|, i requires 0 <= i < |s| => Lower(s[i]))
  }

  lemma LowerChar(c: char)
    ensures IsSpace(Lower(c)) == IsSpace(c) && DigitValue(Lower(c)) == DigitValue(c)
    ensures (Lower(c) == '-' <==> c == '-') && (Lower(c) == '+' <==> c == '+') && (Lower(c) == '0' <==> c == '0')
    ensures Lower(c) == 'x' || Lower(c) == 'X' <==> c == 'x' || c == 'X'
  {
  }

  lemma {:induction false} SkipSpaceCase(s: string, i: nat)
    requires i <= |s|
    ensures SkipSpace(LowerAll(s), i) == SkipSpace(s, i)
    decreases |s| - i
  {
    if i < |s| {
      LowerChar(s[i]);
      SkipSpaceCase(s, i + 1);
    }
  }

  lemma {:induction false} DigitEndCase(s: string, i: nat, base: nat)
    requires i <= |s|
    ensures DigitEnd(LowerAll(s), i, base) == DigitEnd(s, i, base)
    decreases |s| - i
  {
    if i < |s| {
      LowerChar(s[i]);
      DigitEndCase(s, i + 1, base);
    }
  }

  lemma {:induction false} DigitsValueCase(s: string, base: nat)
    requires forall c :: c in s ==> IsDigit(c, base)
    ensures forall c :: c in LowerAll(s) ==> IsDigit(c, base)
    ensures DigitsValue(LowerAll(s), base) == DigitsValue(s, base)
  {
    forall c | c in LowerAll(s)
      ensures IsDigit(c, base)
    {
      var i :| 0 <= i < |s| && LowerAll(s)[i] == c;
      LowerChar(s[i]);
      assert s[i] in s;
    }
    if s != "" {
      var front := s[..|s| - 1];
      LowerChar(s[|s| - 1]);
      DigitsValueCase(front, base);
      assert LowerAll(s)[..|s| - 1] == LowerAll(front);
    }
  }

  /** A number reads the same in capitals and small letters, on every text. */
  lemma ScanIgnoresCase(s: string, base: nat)
    ensures StrToUl(LowerAll(s), base) == StrToUl(s, base)
  {
    hide SkipSpace, DigitEnd, DigitsValue, DigitValue, Lower;
    var t := LowerAll(s);
    SkipSpaceCase(s, 0);
    var i := SkipSpace(s, 0);
    if i < |s| { LowerChar(s[i]); }
    var j := SignEnd(s, i);
    PrefixCase(s, j, base);
    var k := PrefixEnd(s, j, base);
    DigitEndCase(s, k, base);
    var e := DigitEnd(s, k, base);
    if e > k {
      assert t[k..e] == LowerAll(s[k..e]);
      assert forall c :: c in s[k..e] ==> IsDigit(c, base);
      DigitsValueCase(s[k..e], base);
    }
  }

  lemma PrefixCase(s: string, j: nat, base: nat)
    requires j <= |s|
    ensures PrefixEnd(LowerAll(s), j, base) == PrefixEnd(s, j, base)
  {
    if j + 2 < |s| {
      LowerChar(s[j]);
      LowerChar(s[j + 1]);
      LowerChar(s[j + 2]);
    }
  }

  /** Decimal notation. */
  function Decimal(n: nat): (s: string)
    ensures s != ""
  {
    var digit := "0123456789"[n % 10];
    if n < 10 then [digit] else Decimal(n / 10) + [digit]
  }

  lemma {:induction false} DecimalDigits(n: nat)
    ensures forall c :: c in Decimal(n) ==> IsDigit(c, 10)
    ensures DigitsValue(Decimal(n), 10) == n
  {
    var d := "0123456789"[n % 10];
    assert DigitValue(d) == n % 10;
    if n >= 10 {
      DecimalDigits(n / 10);
      assert Decimal(n)[..|Decimal(n)| - 1] == Decimal(n / 10);
    } else {
      assert Decimal(n)[..0] == "";
    }
  }

  lemma {:induction false} BlanksSkipped(ws: string, more: string, i: nat)
    requires i <= |ws| && (forall j :: 0 <= j < |ws| ==> IsSpace(ws[j])) && more != "" && !IsSpace(more[0])
    ensures SkipSpace(ws + more, i) == |ws|
    decreases |ws| - i
  {
    if i < |ws| { BlanksSkipped(ws, more, i + 1); }
  }

  lemma {:induction false} DigitsEndAt(before: string, ds: string, rest: string, i: nat, base: nat)
    requires |before| <= i <= |before| + |ds| && (forall c :: c in ds ==> IsDigit(c, base))
    requires rest != "" ==> !IsDigit(rest[0], base)
    ensures DigitEnd(before + ds + rest, i, base) == |before| + |ds|
    decreases |before| + |ds| - i
  {
    var s := before + ds + rest;
    if i < |before| + |ds| {
      assert s[i] == ds[i - |before|] && ds[i - |before|] in ds;
      DigitsEndAt(before, ds, rest, i + 1, base);
    } else if rest != "" {
      assert s[i] == rest[0];
    }
  }

  lemma Layout(ws: string, sign: string, ds: string, rest: string)
    requires ds != ""
    ensures var s, j := ws + sign + ds + rest, |ws| + |sign|;
      && s == ws + s[|ws|..] && s[|ws|..j] == sign && s[j..j + |ds|] == ds && s[j] == ds[0]
  {
  }

  lemma NotBlank(c: char)
    ensures IsDigit(c, 10) || c == '-' || c == '+' ==> !IsSpace(c)
  {
  }

  lemma ScanParts(s: string, i: nat, j: nat, e: nat, n: nat)
    requires SkipSpace(s, 0) == i && i < |s| && SignEnd(s, i) == j && j < e <= |s| && DigitEnd(s, j, 10) == e
    requires (forall c :: c in s[j..e] ==> IsDigit(c, 10)) && DigitsValue(s[j..e], 10) == n
    ensures StrToUl(s, 10)
         == Number(if n > 0xFFFF_FFFF then 0xFFFF_FFFF else if s[i] == '-' && n != 0 then 0x1_0000_0000 - n else n, e)
  {
    hide DigitsValue, SkipSpace, DigitEnd;
  }

  lemma SignAt(s: string, ws: string, sign: string, d: char)
    requires |ws| + |sign| < |s| && s[|ws|..|ws| + |sign|] == sign && s[|ws| + |sign|] == d && IsDigit(d, 10)
    requires sign == "" || sign == "+" || sign == "-"
    ensures SignEnd(s, |ws|) == |ws| + |sign| && (s[|ws|] == '-' <==> sign == "-")
    ensures IsDigit(s[|ws|], 10) || s[|ws|] == '-' || s[|ws|] == '+'
  {
    assert sign != "" ==> s[|ws|] == s[|ws|..|ws| + |sign|][0];
  }

  /** A decimal number is read behind any white space and a sign, up to the first
      character that is no digit: negated modulo 2^32, and cut off at 2^32 - 1. */
  lemma DecimalScans(ws: string, sign: string, n: nat, rest: string)
    requires forall j :: 0 <= j < |ws| ==> IsSpace(ws[j])
    requires sign == "" || sign == "+" || sign == "-"
    requires rest != "" ==> !IsDigit(rest[0], 10)
    ensures StrToUl(ws + sign + Decimal(n) + rest, 10)
         == Number(if n > 0xFFFF_FFFF then 0xFFFF_FFFF else if sign == "-" && n != 0 then 0x1_0000_0000 - n else n,
                   |ws| + |sign| + |Decimal(n)|)
  {
    var ds := Decimal(n);
    DecimalDigits(n);
    assert ds[0] in ds && IsDigit(ds[0], 10);
    hide Decimal, DigitsValue, SkipSpace, DigitEnd, StrToUl, DigitValue;
    var before, s := ws + sign, ws + sign + ds + rest;
    Layout(ws, sign, ds, rest);
    SignAt(s, ws, sign, ds[0]);
    NotBlank(s[|ws|]);
    BlanksSkipped(ws, s[|ws|..], 0);
    DigitsEndAt(before, ds, rest, |before|, 10);
    ScanParts(s, |ws|, |before|, |before| + |ds|, n);
  }
}
