/**
Byte strings and the part of Rust's text handling that the merge operators and
the option parser use: `str::from_utf8`, `str::trim`, `str::parse` for integers
and `i64::to_string`.
*/
module Text {
  import opened Wrappers

  type byte = i: int | 0 <= i < 0x100
  type Bytes = seq<byte>

  // ---------- UTF-8 (RFC 3629, section 4) ----------

  predicate IsContinuation(b: byte) {
    0x80 <= b < 0xC0
  }

  /** A continuation byte adds its six payload bits. */
  function Join(high: int, b: byte): int
    requires IsContinuation(b)
  {
    high * 0x40 + b - 0x80
  }

  predicate IsScalar(n: int) {
    0 <= n < 0xD800 || 0xE000 <= n < 0x11_0000
  }

  /** The first scalar value of `b` and the number of bytes that encode it. */
  function FirstScalar(b: Bytes): (r: Option<(int, nat)>)
    requires b != []
    ensures r.Some? ==> IsScalar(r.value.0) && 1 <= r.value.1 <= |b|
    ensures r.Some? && r.value.0 < 0x80 ==> r.value == (b[0], 1)
  {
    var b0: int := b[0];
    if b0 < 0x80 then
      Some((b0, 1))
    else if 0xC2 <= b0 < 0xE0 && |b| >= 2 && IsContinuation(b[1]) then
      Some((Join(b0 - 0xC0, b[1]), 2))
    else if 0xE0 <= b0 < 0xF0 && |b| >= 3 && IsContinuation(b[1]) && IsContinuation(b[2])
            && (b0 == 0xE0 ==> 0xA0 <= b[1]) && (b0 == 0xED ==> b[1] < 0xA0) then
      Some((Join(Join(b0 - 0xE0, b[1]), b[2]), 3))
    else if 0xF0 <= b0 < 0xF5 && |b| >= 4
            && IsContinuation(b[1]) && IsContinuation(b[2]) && IsContinuation(b[3])
            && (b0 == 0xF0 ==> 0x90 <= b[1]) && (b0 == 0xF4 ==> b[1] < 0x90) then
      Some((Join(Join(Join(b0 - 0xF0, b[1]), b[2]), b[3]), 4))
    else
      None
  }

  function FromUtf8(b: Bytes): Option<string> {
    if b == [] then Some("")
    else
      match FirstScalar(b)
      case None => None
      case Some((scalar, size)) =>
        match FromUtf8(b[size..])
        case None => None
        case Some(rest) => Some([scalar as char] + rest)
  }

  function Continuation(n: int): byte {
    0x80 + n % 0x40
  }

  /** What is left of a scalar value once its last continuation byte is taken off. */
  function High(n: int): int {
    n / 0x40
  }

  /** The shortest encoding of a scalar value. */
  function ScalarBytes(c: char): Bytes {
    var n := c as int;
    if n < 0x80 then [n]
    else if n < 0x800 then [0xC0 + High(n), Continuation(n)]
    else if n < 0x1_0000 then [0xE0 + High(High(n)), Continuation(High(n)), Continuation(n)]
    else [0xF0 + High(High(High(n))), Continuation(High(High(n))), Continuation(High(n)), Continuation(n)]
  }

  lemma JoinContinuation(n: int)
    ensures IsContinuation(Continuation(n)) && Join(High(n), Continuation(n)) == n
  {
  }

  lemma SplitJoined(high: int, b: byte)
    requires IsContinuation(b)
    ensures High(Join(high, b)) == high && Continuation(Join(high, b)) == b
  {
  }

  function ToUtf8(s: string): Bytes {
    if s == "" then [] else ScalarBytes(s[0]) + ToUtf8(s[1..])
  }

  lemma OneByte(c: char)
    requires c as int < 0x80
    ensures ScalarBytes(c) == [c as int]
  {
  }

  /** The shortest encoding avoids the bytes that decoding refuses. */
  lemma TwoBytes(c: char)
    requires 0x80 <= c as int < 0x800
    ensures var n := c as int;
            2 <= High(n) < 0x20 && ScalarBytes(c) == [0xC0 + High(n), Continuation(n)]
  {
  }

  lemma ThreeBytes(c: char)
    requires 0x800 <= c as int < 0x1_0000
    ensures var n := c as int;
            var x, lead := Continuation(High(n)), High(High(n));
            && 0 <= lead < 0x10 && (lead == 0 ==> 0xA0 <= x) && (lead == 0xD ==> x < 0xA0)
            && ScalarBytes(c) == [0xE0 + lead, x, Continuation(n)]
  {
  }

  lemma FourBytes(c: char)
    requires 0x1_0000 <= c as int
    ensures var n := c as int;
            var x, lead := Continuation(High(High(n))), High(High(High(n)));
            && 0 <= lead < 5 && (lead == 0 ==> 0x90 <= x) && (lead == 4 ==> x < 0x90)
            && ScalarBytes(c) == [0xF0 + lead, x, Continuation(High(n)), Continuation(n)]
  {
  }

  lemma ScalarRoundTrip(c: char, rest: Bytes)
    ensures FirstScalar(ScalarBytes(c) + rest) == Some((c as int, |ScalarBytes(c)|))
  {
    hide *;
    var n := c as int;
    var a := High(n);
    JoinContinuation(n);
    JoinContinuation(a);
    JoinContinuation(High(a));
    if n < 0x80 {
      OneByte(c);
      FirstOfOne(n, rest);
    } else if n < 0x800 {
      TwoBytes(c);
      FirstOfTwo(a, Continuation(n), rest);
    } else if n < 0x1_0000 {
      ThreeBytes(c);
      FirstOfThree(High(a), Continuation(a), Continuation(n), rest);
    } else {
      FourBytes(c);
      FirstOfFour(High(High(a)), Continuation(High(a)), Continuation(a), Continuation(n), rest);
    }
  }

  lemma FirstOfOne(b: byte, rest: Bytes)
    requires b < 0x80
    ensures FirstScalar([b] + rest) == Some((b, 1))
  {
  }

  lemma FirstOfTwo(high: int, x: byte, rest: Bytes)
    requires 2 <= high < 0x20 && IsContinuation(x)
    ensures FirstScalar([0xC0 + high, x] + rest) == Some((Join(high, x), 2))
  {
  }

  lemma FirstOfThree(high: int, x: byte, y: byte, rest: Bytes)
    requires 0 <= high < 0x10 && IsContinuation(x) && IsContinuation(y)
    requires (high == 0 ==> 0xA0 <= x) && (high == 0xD ==> x < 0xA0)
    ensures FirstScalar([0xE0 + high, x, y] + rest) == Some((Join(Join(high, x), y), 3))
  {
  }

  lemma FirstOfFour(high: int, x: byte, y: byte, z: byte, rest: Bytes)
    requires 0 <= high < 5 && IsContinuation(x) && IsContinuation(y) && IsContinuation(z)
    requires (high == 0 ==> 0x90 <= x) && (high == 4 ==> x < 0x90)
    ensures FirstScalar([0xF0 + high, x, y, z] + rest) == Some((Join(Join(Join(high, x), y), z), 4))
  {
  }

  lemma BytesOfOne(b: byte)
    requires b < 0x80
    ensures ScalarBytes(b as char) == [b]
  {
  }

  lemma BytesOfTwo(high: int, x: byte)
    requires 2 <= high < 0x20 && IsContinuation(x)
    ensures IsScalar(Join(high, x)) && ScalarBytes(Join(high, x) as char) == [0xC0 + high, x]
  {
    SplitJoined(high, x);
    hide Continuation, High;
  }

  lemma BytesOfThree(high: int, x: byte, y: byte)
    requires 0 <= high < 0x10 && IsContinuation(x) && IsContinuation(y)
    requires (high == 0 ==> 0xA0 <= x) && (high == 0xD ==> x < 0xA0)
    ensures var n := Join(Join(high, x), y); IsScalar(n) && ScalarBytes(n as char) == [0xE0 + high, x, y]
  {
    SplitJoined(high, x);
    SplitJoined(Join(high, x), y);
    hide Continuation, High;
  }

  lemma BytesOfFour(high: int, x: byte, y: byte, z: byte)
    requires 0 <= high < 5 && IsContinuation(x) && IsContinuation(y) && IsContinuation(z)
    requires (high == 0 ==> 0x90 <= x) && (high == 4 ==> x < 0x90)
    ensures var n := Join(Join(Join(high, x), y), z);
            IsScalar(n) && ScalarBytes(n as char) == [0xF0 + high, x, y, z]
  {
    SplitJoined(high, x);
    SplitJoined(Join(high, x), y);
    SplitJoined(Join(Join(high, x), y), z);
    hide Continuation, High;
  }

  /** Decoding accepts nothing but the shortest encoding. */
  lemma FirstScalarIsShortest(b: Bytes)
    requires b != [] && FirstScalar(b).Some?
    ensures var (scalar, size) := FirstScalar(b).value; b[..size] == ScalarBytes(scalar as char)
  {
    hide ScalarBytes, IsScalar;
    var b0: int, size := b[0], FirstScalar(b).value.1;
    if size == 1 {
      BytesOfOne(b[0]);
    } else if size == 2 {
      BytesOfTwo(b0 - 0xC0, b[1]);
      assert b[..2] == [b[0], b[1]];
    } else if size == 3 {
      BytesOfThree(b0 - 0xE0, b[1], b[2]);
      assert b[..3] == [b[0], b[1], b[2]];
    } else {
      BytesOfFour(b0 - 0xF0, b[1], b[2], b[3]);
      assert b[..4] == [b[0], b[1], b[2], b[3]];
    }
  }

  lemma {:induction false} Utf8RoundTrip(s: string)
    ensures FromUtf8(ToUtf8(s)) == Some(s)
  {
    hide FirstScalar, ScalarBytes;
    if s != "" {
      var head, tail := ScalarBytes(s[0]), ToUtf8(s[1..]);
      ScalarRoundTrip(s[0], tail);
      Utf8RoundTrip(s[1..]);
      assert (head + tail)[|head|..] == tail;
      assert s == [s[0]] + s[1..];
    }
  }

  /** Every byte string that decodes is the encoding of what it decodes to. */
  lemma {:induction false} DecodedIsEncoded(b: Bytes)
    ensures FromUtf8(b).Some? ==> ToUtf8(FromUtf8(b).value) == b
  {
    hide FirstScalar, ScalarBytes;
    if b != [] && FromUtf8(b).Some? {
      var (scalar, size) := FirstScalar(b).value;
      FirstScalarIsShortest(b);
      DecodedIsEncoded(b[size..]);
      assert b == b[..size] + b[size..];
    }
  }

  /** Characters of one to four bytes (RFC 3629, section 7). */
  lemma EncodedExamples()
    ensures ScalarBytes(0x41 as char) == [0x41]
    ensures ScalarBytes(0x391 as char) == [0xCE, 0x91]
    ensures ScalarBytes(0x2262 as char) == [0xE2, 0x89, 0xA2]
    ensures ScalarBytes(0x233B4 as char) == [0xF0, 0xA3, 0x8E, 0xB4]
  {
  }

  ghost predicate IsAscii(s: string) {
    forall i :: 0 <= i < |s| ==> s[i] < 128 as char
  }

  function AsciiBytes(s: string): Bytes
    requires IsAscii(s)
  {
    seq(|s|, i requires 0 <= i < |s| => s[i] as int)
  }

  lemma {:induction false} AsciiRoundTrip(s: string)
    requires IsAscii(s)
    ensures FromUtf8(AsciiBytes(s)) == Some(s)
  {
    if s != "" {
      assert AsciiBytes(s)[1..] == AsciiBytes(s[1..]);
      AsciiRoundTrip(s[1..]);
      assert s == [s[0]] + s[1..];
    }
  }

  /** Only its own byte decodes to an ASCII character. */
  lemma {:induction false} AsciiCharComesFromByte(b: Bytes, s: string, c: char)
    requires FromUtf8(b) == Some(s) && c in s && c < 128 as char
    ensures c as int in b
  {
    var (scalar, size) := FirstScalar(b).value;
    if s[0] != c {
      AsciiCharComesFromByte(b[size..], s[1..], c);
    }
  }

  // ---------- str::trim ----------

  /** The Unicode White_Space property. */
  predicate IsWhitespace(c: char) {
    var n := c as int;
    9 <= n <= 13 || n == 0x20 || n == 0x85 || n == 0xA0 || n == 0x1680 || 0x2000 <= n <= 0x200A
    || n == 0x2028 || n == 0x2029 || n == 0x202F || n == 0x205F || n == 0x3000
  }

  function TrimStart(s: string): string {
    if s != "" && IsWhitespace(s[0]) then TrimStart(s[1..]) else s
  }

  function TrimEnd(s: string): string {
    if s != "" && IsWhitespace(s[|s| - 1]) then TrimEnd(s[..|s| - 1]) else s
  }

  function Trim(s: string): string {
    TrimEnd(TrimStart(s))
  }

  predicate AllWhitespace(s: string) {
    forall i :: 0 <= i < |s| ==> IsWhitespace(s[i])
  }

  /** Text that neither starts nor ends with whitespace. */
  predicate IsTrimmed(s: string) {
    s != "" ==> !IsWhitespace(s[0]) && !IsWhitespace(s[|s| - 1])
  }

  /** Trimming removes all the whitespace at both ends, and nothing else. */
  lemma TrimPadded(before: string, core: string, after: string)
    requires AllWhitespace(before) && AllWhitespace(after) && IsTrimmed(core)
    ensures Trim(before + core + after) == core
  {
    if core == "" {
      TrimStartOfPadding(before + core + after);
    } else {
      TrimStartSkips(before, core + after);
      assert before + core + after == before + (core + after);
      TrimEndSkips(core, after);
    }
  }

  lemma {:induction false} TrimStartOfPadding(s: string)
    requires AllWhitespace(s)
    ensures TrimStart(s) == ""
  {
    if s != "" {
      TrimStartOfPadding(s[1..]);
    }
  }

  lemma {:induction false} TrimStartSkips(before: string, s: string)
    requires AllWhitespace(before) && s != "" && !IsWhitespace(s[0])
    ensures TrimStart(before + s) == s
  {
    if before == "" {
      assert before + s == s;
    } else {
      assert (before + s)[1..] == before[1..] + s;
      TrimStartSkips(before[1..], s);
    }
  }

  lemma {:induction false} TrimEndSkips(s: string, after: string)
    requires AllWhitespace(after) && s != "" && !IsWhitespace(s[|s| - 1])
    ensures TrimEnd(s + after) == s
  {
    if after == "" {
      assert s + after == s;
    } else {
      assert (s + after)[..|s + after| - 1] == s + after[..|after| - 1];
      TrimEndSkips(s, after[..|after| - 1]);
    }
  }

  lemma TrimKeepsCharacters(s: string, c: char)
    requires c in Trim(s)
    ensures c in s
  {
    TrimEndKeepsCharacters(TrimStart(s), c);
    TrimStartKeepsCharacters(s, c);
  }

  lemma TrimStartKeepsCharacters(s: string, c: char)
    requires c in TrimStart(s)
    ensures c in s
  {
  }

  lemma TrimEndKeepsCharacters(s: string, c: char)
    requires c in TrimEnd(s)
    ensures c in s
  {
  }

  // ---------- integer parsing and printing ----------

  predicate IsDigit(c: char) {
    '0' <= c <= '9'
  }

  predicate AllDigits(s: string) {
    forall i :: 0 <= i < |s| ==> IsDigit(s[i])
  }

  function DigitsValue(s: string): nat
    requires AllDigits(s)
  {
    if s == "" then 0 else DigitsValue(s[..|s| - 1]) * 10 + (s[|s| - 1] as int - '0' as int)
  }

  /** `from_str_radix(10)` of a signed type with the given bounds: one optional sign, then digits. */
  function ParseSigned(s: string, min: int, max: int): (r: Option<int>)
    ensures r.Some? ==> min <= r.value <= max
  {
    if s == "" then None
    else
      var digits := if s[0] == '+' || s[0] == '-' then s[1..] else s;
      if digits == "" || !AllDigits(digits) then None
      else
        var magnitude: int := DigitsValue(digits);
        var v := if s[0] == '-' then -magnitude else magnitude;
        if min <= v <= max then Some(v) else None
  }

  /** `from_str_radix(10)` of an unsigned type: an optional plus sign, then digits. */
  function ParseUnsigned(s: string, max: int): (r: Option<nat>)
    ensures r.Some? ==> r.value <= max
  {
    if s == "" then None
    else
      var digits := if s[0] == '+' then s[1..] else s;
      if digits == "" || !AllDigits(digits) then None
      else if DigitsValue(digits) <= max then Some(DigitsValue(digits)) else None
  }

  function DecimalNat(n: nat): (s: string)
    ensures s != "" && AllDigits(s)
  {
    var last := [(n % 10 + '0' as int) as char];
    if n < 10 then last else DecimalNat(n / 10) + last
  }

  function Decimal(n: int): string {
    if n < 0 then "-" + DecimalNat(-n) else DecimalNat(n)
  }

  lemma {:induction false} DecimalNatRoundTrip(n: nat)
    ensures DigitsValue(DecimalNat(n)) == n
  {
    if n >= 10 {
      DecimalNatRoundTrip(n / 10);
      assert DecimalNat(n)[..|DecimalNat(n)| - 1] == DecimalNat(n / 10);
    } else {
      assert DecimalNat(n)[..0] == "";
    }
  }

  lemma DecimalRoundTrip(n: int, min: int, max: int)
    requires min <= n <= max
    ensures ParseSigned(Decimal(n), min, max) == Some(n)
  {
    hide DigitsValue, DecimalNat;
    if n < 0 {
      DecimalNatRoundTrip(-n);
      assert Decimal(n)[1..] == DecimalNat(-n);
    } else {
      DecimalNatRoundTrip(n);
    }
  }

  function ZeroDigits(k: nat): string {
    seq(k, _ => '0')
  }

  lemma AppendDigit(high: nat, last: char)
    requires IsDigit(last)
    ensures DecimalNat(high * 10 + (last as int - '0' as int))
            == if high == 0 then [last] else DecimalNat(high) + [last]
  {
  }

  /** Digits are the decimal numeral of their value behind some leading zeros. */
  lemma {:induction false} DigitsAreDecimal(s: string) returns (zeros: nat)
    requires s != "" && AllDigits(s)
    ensures s == ZeroDigits(zeros) + DecimalNat(DigitsValue(s))
  {
    var front, last := s[..|s| - 1], s[|s| - 1];
    assert s == front + [last];
    assert DigitsValue(s) == DigitsValue(front) * 10 + (last as int - '0' as int);
    assert front == "" ==> DigitsValue(front) == 0;
    AppendDigit(DigitsValue(front), last);
    AppendDigit(0, '0');
    hide DigitsValue, DecimalNat;
    if front == "" {
      zeros := 0;
    } else {
      zeros := DigitsAreDecimal(front);
      if DigitsValue(front) == 0 {
        assert front == ZeroDigits(zeros + 1);
        zeros := zeros + 1;
      }
    }
  }

  lemma {:induction false} LeadingZerosAddNothing(zeros: nat, digits: string)
    requires AllDigits(digits)
    ensures DigitsValue(ZeroDigits(zeros) + digits) == DigitsValue(digits)
    decreases zeros + |digits|
  {
    var s := ZeroDigits(zeros) + digits;
    if digits != "" {
      assert s[..|s| - 1] == ZeroDigits(zeros) + digits[..|digits| - 1];
      LeadingZerosAddNothing(zeros, digits[..|digits| - 1]);
    } else if zeros > 0 {
      assert s[..|s| - 1] == ZeroDigits(zeros - 1) + "";
      LeadingZerosAddNothing(zeros - 1, "");
    }
  }

  /** The decimal numeral of `n`, behind any number of zeros. */
  ghost predicate IsNumeral(s: string, n: nat) {
    exists zeros: nat :: s == ZeroDigits(zeros) + DecimalNat(n)
  }

  lemma NumeralIff(s: string, n: nat)
    ensures IsNumeral(s, n) <==> s != "" && AllDigits(s) && DigitsValue(s) == n
  {
    hide DigitsValue, DecimalNat;
    if zeros: nat :| s == ZeroDigits(zeros) + DecimalNat(n) {
      LeadingZerosAddNothing(zeros, DecimalNat(n));
      DecimalNatRoundTrip(n);
    }
    if s != "" && AllDigits(s) && DigitsValue(s) == n {
      var zeros := DigitsAreDecimal(s);
      assert s == ZeroDigits(zeros) + DecimalNat(n);
    }
  }

  /** Text for an integer: a numeral behind at most one sign. */
  ghost predicate Spells(s: string, n: int) {
    || (n >= 0 && IsNumeral(s, n))
    || (n >= 0 && s != "" && s[0] == '+' && IsNumeral(s[1..], n))
    || (n <= 0 && s != "" && s[0] == '-' && IsNumeral(s[1..], -n))
  }

  /** The parsers accept exactly the spellings of integers in range. */
  lemma ParsesIffSpelled(s: string, n: int, min: int, max: int)
    ensures ParseSigned(s, min, max) == Some(n) <==> min <= n <= max && Spells(s, n)
    ensures n >= 0 ==>
              (ParseUnsigned(s, max) == Some(n) <==> n <= max && Spells(s, n) && (s != "" ==> s[0] != '-'))
  {
    hide IsNumeral, DigitsValue;
    var magnitude := if n < 0 then -n else n;
    NumeralIff(s, magnitude);
    if s != "" {
      NumeralIff(s[1..], magnitude);
      assert s[0] in "+-" ==> !AllDigits(s);
    }
  }

  lemma DecimalIsInjective(m: int, n: int)
    requires Decimal(m) == Decimal(n)
    ensures m == n
  {
    var min, max := if m < n then m else n, if m < n then n else m;
    DecimalRoundTrip(m, min, max);
    DecimalRoundTrip(n, min, max);
  }

  lemma DecimalIsAscii(n: int)
    ensures IsAscii(Decimal(n)) && Decimal(n) != ""
  {
  }
}
