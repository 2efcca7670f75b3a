// Time-based one-time codes: dynamic truncation (section 5.3 of RFC 4226), the
// six-digit rendering, and the one-step acceptance window (section 5.2 of RFC 6238).
module Totp {
  const DIGITS: nat := 6
  const CODE_SPACE: nat := 1_000_000
  const PERIOD: nat := 30

  // An HMAC-SHA1 output. HMAC itself is a parameter of everything below.
  type Digest = d: seq<bv8> | |d| == 20 witness seq(20, _ => 0)
  type Hmac = (seq<bv8>, nat) -> Digest

  // ---------------------------------------------------------------------------
  // Dynamic truncation
  // ---------------------------------------------------------------------------

  function Offset(d: Digest): (o: nat)
    ensures o + 3 < |d|
  {
    LowNibble(d[19]);
    (d[19] & 0x0f) as nat
  }

  function Truncate(d: Digest): bv32 {
    var o := Offset(d);
    ((d[o] & 0x7f) as bv32 << 24) | (d[o + 1] as bv32 << 16) | (d[o + 2] as bv32 << 8) | d[o + 3] as bv32
  }

  lemma LowNibble(b: bv8)
    ensures (b & 0x0f) as int == b as int % 16
  {
    assert b & 0x0f == b % 16;
  }

  // Truncation reads four consecutive octets as one big-endian number and drops its top bit.
  lemma TruncateIsBigEndian(d: Digest)
    ensures var o := Offset(d);
      Truncate(d) as int
      == (d[o] as int % 128) * 0x100_0000 + d[o + 1] as int * 0x1_0000 + d[o + 2] as int * 0x100 + d[o + 3] as int
  {
    var o := Offset(d);
    FourOctets(d[o], d[o + 1], d[o + 2], d[o + 3]);
  }

  lemma FourOctets(a: bv8, b: bv8, c: bv8, d: bv8)
    ensures (((a & 0x7f) as bv32 << 24) | (b as bv32 << 16) | (c as bv32 << 8) | d as bv32) as int
         == (a as int % 128) * 0x100_0000 + b as int * 0x1_0000 + c as int * 0x100 + d as int
  {
  }

  function Hotp(hmac: Hmac, secret: seq<bv8>, counter: nat): (code: nat)
    ensures code < CODE_SPACE
  {
    Truncate(hmac(secret, counter)) as nat % CODE_SPACE
  }

  // ---------------------------------------------------------------------------
  // The six-digit rendering
  // ---------------------------------------------------------------------------

  predicate IsDigit(c: char) { '0' <= c <= '9' }

  predicate SixDigits(s: string) {
    |s| == DIGITS && forall i :: 0 <= i < |s| ==> IsDigit(s[i])
  }

  function DigitChar(v: nat): (c: char)
    requires v < 10
    ensures IsDigit(c)
  {
    '0' + v as char
  }

  // Decimal digits of n without leading zeros ("0" for zero).
  function Decimal(n: nat): (s: string) {
    if n < 10 then [DigitChar(n)] else Decimal(n / 10) + [DigitChar(n % 10)]
  }

  function Zeros(k: nat): string { seq(k, _ => '0') }

  // Width-six zero padding; wider numbers are never cut.
  function Padded(n: nat): string {
    var s := Decimal(n);
    if |s| < DIGITS then Zeros(DIGITS - |s|) + s else s
  }

  // The number a digit string denotes.
  function Value(s: string): nat
    requires forall i :: 0 <= i < |s| ==> IsDigit(s[i])
  {
    if s == [] then 0 else
      assert IsDigit(s[|s| - 1]);
      10 * Value(s[..|s| - 1]) + (s[|s| - 1] as int - '0' as int)
  }

  function Pow10(k: nat): (p: nat)
    ensures p >= 1
  {
    if k == 0 then 1 else 10 * Pow10(k - 1)
  }

  lemma {:induction false} DecimalDenotes(n: nat, width: nat)
    requires 1 <= width && n < Pow10(width)
    ensures var s := Decimal(n);
      1 <= |s| <= width && (forall i :: 0 <= i < |s| ==> IsDigit(s[i])) && Value(s) == n
  {
    if n >= 10 {
      DecimalDenotes(n / 10, width - 1);
      assert Decimal(n)[..|Decimal(n)| - 1] == Decimal(n / 10);
    } else {
      assert Value([]) == 0;
      assert Decimal(n)[..0] == [];
    }
  }

  lemma {:induction false} LeadingZeros(k: nat, s: string)
    requires forall i :: 0 <= i < |s| ==> IsDigit(s[i])
    ensures Value(Zeros(k) + s) == Value(s)
  {
    if s == [] {
      assert Zeros(k) + s == Zeros(k);
      if k > 0 {
        assert Zeros(k)[..k - 1] == Zeros(k - 1);
        LeadingZeros(k - 1, []);
        assert Zeros(k - 1) + [] == Zeros(k - 1);
      }
    } else {
      var whole := Zeros(k) + s;
      assert whole[..|whole| - 1] == Zeros(k) + s[..|s| - 1];
      LeadingZeros(k, s[..|s| - 1]);
    }
  }

  lemma {:induction false} ValueBound(s: string)
    requires forall i :: 0 <= i < |s| ==> IsDigit(s[i])
    ensures Value(s) < Pow10(|s|)
  {
    if s != [] { ValueBound(s[..|s| - 1]); }
  }

  lemma {:induction false} EqualWidthsEqualValues(s: string, t: string)
    requires |s| == |t|
    requires forall i :: 0 <= i < |s| ==> IsDigit(s[i]) && IsDigit(t[i])
    requires Value(s) == Value(t)
    ensures s == t
  {
    if s != [] {
      var n := |s| - 1;
      EqualWidthsEqualValues(s[..n], t[..n]);
      assert s == s[..n] + [s[n]] && t == t[..n] + [t[n]];
    }
  }

  // Padding is a bijection from the code space onto the six-digit strings, and Value is its inverse.
  lemma PaddingIsABijection(n: nat, s: string)
    requires n < CODE_SPACE && SixDigits(s)
    ensures SixDigits(Padded(n)) && Value(Padded(n)) == n
    ensures Value(s) < CODE_SPACE && Padded(Value(s)) == s
  {
    MillionIs();
    PaddedDenotes(n);
    ValueBound(s);
    PaddedDenotes(Value(s));
    EqualWidthsEqualValues(s, Padded(Value(s)));
  }

  lemma PaddedDenotes(n: nat)
    requires n < Pow10(6)
    ensures SixDigits(Padded(n)) && Value(Padded(n)) == n
  {
    DecimalDenotes(n, 6);
    FilledUp(Decimal(n));
  }

  lemma FilledUp(s: string)
    requires |s| <= 6 && forall i :: 0 <= i < |s| ==> IsDigit(s[i])
    ensures var t := if |s| < 6 then Zeros(6 - |s|) + s else s;
      SixDigits(t) && Value(t) == Value(s)
  {
    LeadingZeros(6 - |s|, s);
  }

  // The number truncation reads: four octets from where the last one's low half points, big-endian, less
  // the first one's top bit.
  function NumberIn(d: Digest): nat {
    var o := d[19] as int % 16;
    (d[o] as int % 128) * 0x100_0000 + d[o + 1] as int * 0x1_0000 + d[o + 2] as int * 0x100 + d[o + 3] as int
  }

  // The code is what is left of that number after taking millions away.
  lemma HotpIsRest(hmac: Hmac, secret: seq<bv8>, counter: nat) returns (q: nat)
    ensures NumberIn(hmac(secret, counter)) == q * 1_000_000 + Hotp(hmac, secret, counter)
    ensures Hotp(hmac, secret, counter) < 1_000_000
  {
    var d := hmac(secret, counter);
    LowNibble(d[19]);
    TruncateIsBigEndian(d);
    q := NumberIn(d) / 1_000_000;
  }

  lemma {:induction false} ValueSplit(a: string, b: string)
    requires forall i :: 0 <= i < |a| ==> IsDigit(a[i])
    requires forall i :: 0 <= i < |b| ==> IsDigit(b[i])
    ensures forall i :: 0 <= i < |a + b| ==> IsDigit((a + b)[i])
    ensures Value(a + b) == Value(a) * Pow10(|b|) + Value(b)
    decreases |b|
  {
    if b == [] {
      assert a + b == a;
    } else {
      var whole, n := a + b, |b| - 1;
      assert whole[..|whole| - 1] == a + b[..n] && whole[|whole| - 1] == b[n];
      ValueSplit(a, b[..n]);
      Shifted(Value(a), Pow10(n), Value(b[..n]));
    }
  }

  lemma Shifted(a: nat, p: nat, b: nat)
    ensures 10 * (a * p + b) == a * (10 * p) + 10 * b
  {
  }

  // Of two numbers that differ by millions the last six digits agree.
  lemma LastSix(n: nat, q: nat, code: nat, s: string)
    requires n == q * 1_000_000 + code && code < 1_000_000 && |s| >= 6
    requires (forall i :: 0 <= i < |s| ==> IsDigit(s[i])) && Value(s) == n
    ensures s[|s| - 6..] == Padded(code)
  {
    var front, last := s[..|s| - 6], s[|s| - 6..];
    assert s == front + last;
    SixSplit(front, last);
    PaddingIsABijection(code, last);
    SameRest(Value(front), q, Value(last), code);
  }

  lemma SixSplit(front: string, last: string)
    requires (forall i :: 0 <= i < |front| ==> IsDigit(front[i])) && SixDigits(last)
    ensures forall i :: 0 <= i < |front + last| ==> IsDigit((front + last)[i])
    ensures Value(front + last) == Value(front) * 1_000_000 + Value(last)
  {
    ValueSplit(front, last);
    MillionIs();
  }

  lemma MillionIs()
    ensures Pow10(6) == 1_000_000
  {
    assert Pow10(1) == 10 && Pow10(2) == 100 && Pow10(3) == 1000 && Pow10(4) == 10_000 && Pow10(5) == 100_000;
  }

  lemma SameRest(a: nat, b: nat, x: nat, y: nat)
    requires a * 1_000_000 + x == b * 1_000_000 + y && x < 1_000_000 && y < 1_000_000
    ensures x == y
  {
  }

  // A code is the last six decimal digits of the number truncation reads, however many leading zeros that
  // is written with.
  lemma CodeIsLastDigits(hmac: Hmac, secret: seq<bv8>, counter: nat, s: string)
    requires |s| >= 6 && (forall i :: 0 <= i < |s| ==> IsDigit(s[i])) && Value(s) == NumberIn(hmac(secret, counter))
    ensures CodeAt(hmac, secret, counter) == s[|s| - 6..]
  {
    var q := HotpIsRest(hmac, secret, counter);
    LastSix(Value(s), q, Hotp(hmac, secret, counter), s);
  }

  // ---------------------------------------------------------------------------
  // Comparison and acceptance
  // ---------------------------------------------------------------------------

  // Accumulates the differing bits of every pair before it answers.
  method ConstantEq(a: seq<bv8>, b: seq<bv8>) returns (equal: bool)
    ensures equal <==> a == b
  {
    if |a| != |b| { return false; }
    var diff: bv8 := 0;
    for i := 0 to |a|
      invariant diff == 0 <==> a[..i] == b[..i]
    {
      OrXor(diff, a[i], b[i]);
      assert a[..i + 1] == a[..i] + [a[i]] && b[..i + 1] == b[..i] + [b[i]];
      diff := diff | (a[i] ^ b[i]);
    }
    assert a[..|a|] == a && b[..|b|] == b;
    return diff == 0;
  }

  lemma OrXor(d: bv8, x: bv8, y: bv8)
    ensures d | (x ^ y) == 0 <==> d == 0 && x == y
  {
  }

  function Ascii(s: string): (b: seq<bv8>)
    requires SixDigits(s)
    ensures |b| == |s|
  {
    seq(|s|, i requires 0 <= i < |s| => s[i] as bv8)
  }

  lemma AsciiInjective(s: string, t: string)
    requires SixDigits(s) && SixDigits(t) && Ascii(s) == Ascii(t)
    ensures s == t
  {
    forall i | 0 <= i < |s| ensures s[i] == t[i] {
      assert Ascii(s)[i] == Ascii(t)[i];
    }
  }

  // Rust's notion of white space in str::trim.
  predicate IsWhite(c: char) {
    '\t' <= c <= '\r' || c == ' ' || c == '\U{85}' || c == '\U{A0}' || c == '\U{1680}' || '\U{2000}' <= c <= '\U{200A}'
    || c == '\U{2028}' || c == '\U{2029}' || c == '\U{202F}' || c == '\U{205F}' || c == '\U{3000}'
  }

  function TrimStart(s: string): string {
    if s != [] && IsWhite(s[0]) then TrimStart(s[1..]) else s
  }

  function TrimEnd(s: string): string {
    if s != [] && IsWhite(s[|s| - 1]) then TrimEnd(s[..|s| - 1]) else s
  }

  function Trim(s: string): string { TrimEnd(TrimStart(s)) }

  predicate AllWhite(s: string) { forall i :: 0 <= i < |s| ==> IsWhite(s[i]) }

  predicate Bare(s: string) { s == [] || (!IsWhite(s[0]) && !IsWhite(s[|s| - 1])) }

  lemma {:induction false} TrimStartIs(s: string) returns (a: string)
    ensures s == a + TrimStart(s) && AllWhite(a) && (TrimStart(s) == [] || !IsWhite(TrimStart(s)[0]))
  {
    if s != [] && IsWhite(s[0]) {
      a := TrimStartIs(s[1..]);
      a := [s[0]] + a;
    } else {
      a := [];
    }
  }

  lemma {:induction false} TrimEndIs(s: string) returns (b: string)
    ensures s == TrimEnd(s) + b && AllWhite(b) && (TrimEnd(s) == [] || !IsWhite(TrimEnd(s)[|TrimEnd(s)| - 1]))
  {
    if s != [] && IsWhite(s[|s| - 1]) {
      var front := s[..|s| - 1];
      b := TrimEndIs(front);
      assert s == front + [s[|s| - 1]];
      b := b + [s[|s| - 1]];
    } else {
      b := [];
    }
  }

  // Trimming takes white space off both ends and nothing else.
  lemma TrimIs(s: string) returns (a: string, b: string)
    ensures s == a + Trim(s) + b && AllWhite(a) && AllWhite(b) && Bare(Trim(s))
  {
    a := TrimStartIs(s);
    b := TrimEndIs(TrimStart(s));
    assert TrimStart(s) == Trim(s) + b;
    if Trim(s) != [] { assert TrimStart(s)[0] == Trim(s)[0]; }
    assert s == a + (Trim(s) + b);
  }

  lemma BareIsTrimmed(s: string)
    requires Bare(s)
    ensures Trim(s) == s
  {
  }

  lemma TrimmedOnce(s: string)
    ensures Trim(Trim(s)) == Trim(s)
  {
    var a, b := TrimIs(s);
    BareIsTrimmed(Trim(s));
  }

  // The code an authenticator shows in step `counter`.
  function CodeAt(hmac: Hmac, secret: seq<bv8>, counter: nat): (s: string)
    ensures SixDigits(s)
  {
    var n := Hotp(hmac, secret, counter);
    PaddingIsABijection(n, "000000");
    Padded(n)
  }

  // The step `d` away from `step`, never below zero.
  function Nearby(step: nat, d: int): nat { if step + d < 0 then 0 else step + d }

  // What acceptance means: the trimmed code is the code of the previous, current or next step.
  predicate Accepts(hmac: Hmac, secret: seq<bv8>, code: string, unix: nat) {
    var step := unix / PERIOD;
    var typed := Trim(code);
    exists d :: -1 <= d <= 1 && typed == CodeAt(hmac, secret, Nearby(step, d))
  }

  method VerifyTotpAt(hmac: Hmac, secret: seq<bv8>, code: string, unix: nat) returns (ok: bool)
    ensures ok <==> Accepts(hmac, secret, code, unix)
  {
    var typed := Trim(code);
    if !SixDigits(typed) { return false; }
    var step := unix / PERIOD;
    for d := -1 to 2
      invariant forall e :: -1 <= e < d ==> typed != CodeAt(hmac, secret, Nearby(step, e))
    {
      var candidate := CodeAt(hmac, secret, Nearby(step, d));
      var same := ConstantEq(Ascii(candidate), Ascii(typed));
      if same {
        AsciiInjective(candidate, typed);
        return true;
      }
    }
    return false;
  }

  lemma DigitsAreNotTrimmed(s: string)
    requires SixDigits(s)
    ensures Trim(s) == s
  {
    assert IsDigit(s[0]) && IsDigit(s[5]);
    BareIsTrimmed(s);
  }

  lemma StepsWithinAPeriod(a: nat, b: nat)
    requires -30 <= b - a <= 30
    ensures -1 <= a / 30 - b / 30 <= 1
  {
  }

  // A code shown at `issued` is accepted at every moment at most one period away.
  lemma AcceptedWithinAPeriod(hmac: Hmac, secret: seq<bv8>, issued: nat, now: nat)
    requires -(PERIOD as int) <= now - issued <= PERIOD
    ensures Accepts(hmac, secret, CodeAt(hmac, secret, issued / PERIOD), now)
  {
    DigitsAreNotTrimmed(CodeAt(hmac, secret, issued / PERIOD));
    StepsWithinAPeriod(issued, now);
    var d := issued / PERIOD - now / PERIOD;
    assert Nearby(now / PERIOD, d) == issued / PERIOD;
  }
}
