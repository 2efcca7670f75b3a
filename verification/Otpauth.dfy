// The otpauth provisioning URI and its percent-encoding (sections 2.1 and 2.3 of RFC 3986).
module Otpauth {
  import opened Prelude
  import Totp

  const ISSUER: seq<byte> := [77, 121, 79, 119, 110, 77, 101, 115, 104] // "MyOwnMesh"

  predicate Unreserved(c: char) {
    'A' <= c <= 'Z' || 'a' <= c <= 'z' || '0' <= c <= '9' || c == '-' || c == '.' || c == '_' || c == '~'
  }

  predicate IsHex(c: char) { '0' <= c <= '9' || 'A' <= c <= 'F' }

  function HexDigit(v: nat): (c: char)
    requires v < 16
    ensures IsHex(c) && HexValue(c) == v
  {
    if v < 10 then '0' + v as char else 'A' + (v - 10) as char
  }

  function HexValue(c: char): (v: nat)
    requires IsHex(c)
    ensures v < 16
  {
    if c <= '9' then c as int - '0' as int else c as int - 'A' as int + 10
  }

  function PctByte(b: byte): (s: string) {
    if Unreserved(b as char) then [b as char] else ['%', HexDigit(b / 16), HexDigit(b % 16)]
  }

  function Pct(s: seq<byte>): (out: string) {
    if s == [] then [] else Pct(s[..|s| - 1]) + PctByte(s[|s| - 1])
  }

  // Letters, digits and the four marks '-', '.', '_' and '~' stand for themselves; nothing else does.
  lemma UnreservedStay(b: byte)
    ensures PctByte(b) == [b as char] <==>
      65 <= b <= 90 || 97 <= b <= 122 || 48 <= b <= 57 || b == 45 || b == 46 || b == 95 || b == 126
  {
  }

  // The source appends to one output string, byte by byte.
  method PercentEncode(s: seq<byte>) returns (out: string)
    ensures out == Pct(s)
    ensures Encoded(out) && Decode(out) == Some(s)
  {
    out := [];
    for i := 0 to |s|
      invariant out == Pct(s[..i])
    {
      assert s[..i + 1][..i] == s[..i];
      if Unreserved(s[i] as char) {
        out := out + [s[i] as char];
      } else {
        out := out + ['%', HexDigit(s[i] / 16), HexDigit(s[i] % 16)];
      }
    }
    assert s[..|s|] == s;
    PctRoundTrip(s);
  }

  // A string of unreserved characters and %HH groups only.
  predicate Encoded(s: string) {
    s == []
    || (Unreserved(s[0]) && Encoded(s[1..]))
    || (|s| >= 3 && s[0] == '%' && IsHex(s[1]) && IsHex(s[2]) && Encoded(s[3..]))
  }

  // Percent-decoding, left to right.
  function Decode(s: string): Option<seq<byte>> {
    if s == [] then Some([])
    else if Unreserved(s[0]) then
      var rest :- Decode(s[1..]);
      Some([s[0] as int] + rest)
    else if |s| >= 3 && s[0] == '%' && IsHex(s[1]) && IsHex(s[2]) then
      var rest :- Decode(s[3..]);
      Some([16 * HexValue(s[1]) + HexValue(s[2])] + rest)
    else None
  }

  lemma Associate(a: string, b: string, c: string)
    ensures (a + b) + c == a + (b + c)
  {
  }

  lemma {:induction false} PctFront(b: byte, s: seq<byte>)
    ensures Pct([b] + s) == PctByte(b) + Pct(s)
  {
    var whole := [b] + s;
    if s == [] {
      assert whole[..0] == [];
    } else {
      var init, last := s[..|s| - 1], PctByte(s[|s| - 1]);
      assert whole[..|whole| - 1] == [b] + init;
      PctFront(b, init);
      Associate(PctByte(b), Pct(init), last);
    }
  }

  lemma DecodeFront(b: byte, tail: string, t: seq<byte>)
    requires Encoded(tail) && Decode(tail) == Some(t)
    ensures Encoded(PctByte(b) + tail) && Decode(PctByte(b) + tail) == Some([b] + t)
  {
    var head := PctByte(b);
    var whole := head + tail;
    assert whole[|head|..] == tail;
    if !Unreserved(b as char) {
      assert whole[1] == HexDigit(b / 16) && whole[2] == HexDigit(b % 16);
      assert 16 * (b / 16) + b % 16 == b;
    }
  }

  // Decoding undoes encoding, for every byte string.
  lemma {:induction false} PctRoundTrip(s: seq<byte>)
    ensures Encoded(Pct(s)) && Decode(Pct(s)) == Some(s)
  {
    if s != [] {
      PctRoundTrip(s[1..]);
      assert s == [s[0]] + s[1..];
      PctFront(s[0], s[1..]);
      DecodeFront(s[0], Pct(s[1..]), s[1..]);
    }
  }

  // ---------------------------------------------------------------------------
  // The URI
  // ---------------------------------------------------------------------------

  // A query parameter and those after it.
  function With(key: string, value: string, rest: string): string { key + ("=" + (value + ("&" + rest))) }

  function Parameters(secret: string, issuer: string): string {
    With("secret", secret,
         With("issuer", issuer, With("algorithm", "SHA1", With("digits", "6", "period" + ("=" + "30")))))
  }

  function Uri(secret: string, account: seq<byte>): string {
    "otpauth://" + ("totp" + ("/" + ((Pct(ISSUER) + (":" + Pct(account))) + ("?" + Parameters(secret, Pct(ISSUER))))))
  }

  predicate Base32(s: string) {
    forall i :: 0 <= i < |s| ==> 'A' <= s[i] <= 'Z' || '2' <= s[i] <= '7'
  }

  function IndexOf(s: string, c: char): (i: nat)
    ensures i <= |s| && (forall j :: 0 <= j < i ==> s[j] != c)
    ensures i < |s| ==> s[i] == c
  {
    if s == [] || s[0] == c then 0 else 1 + IndexOf(s[1..], c)
  }

  // What an authenticator learns from a URI.
  datatype Provisioning = Provisioning(
    kind: string, labelIssuer: seq<byte>, account: seq<byte>, secret: string, issuer: seq<byte>, algorithm: string,
    digits: nat, period: nat)

  // Up to the separator, and after it.
  function Split(s: string, c: char): Option<(string, string)> {
    var i := IndexOf(s, c);
    if i < |s| then Some((s[..i], s[i + 1..])) else None
  }

  // The value of the parameter that must come next, and what follows it.
  function Parameter(s: string, key: string): Option<(string, string)> {
    if key + "=" <= s then
      var rest := s[|key| + 1..];
      var i := IndexOf(rest, '&');
      Some((rest[..i], if i < |rest| then rest[i + 1..] else []))
    else None
  }

  function ReadNumber(s: string): Option<nat> {
    if s != [] && forall i :: 0 <= i < |s| ==> Totp.IsDigit(s[i]) then Some(Totp.Value(s)) else None
  }

  // A reader of the URI: scheme, kind and label, then the parameters in order.
  function ReadUri(uri: string): Option<Provisioning> {
    if "otpauth://" <= uri then
      var (kind, afterKind) :- Split(uri[10..], '/');
      var (title, parameters) :- Split(afterKind, '?');
      var (labelIssuer, account) :- Split(title, ':');
      ReadParameters(kind, labelIssuer, account, parameters)
    else None
  }

  function ReadParameters(kind: string, labelIssuer: string, account: string, parameters: string)
    : Option<Provisioning>
  {
    var (secret, p1) :- Parameter(parameters, "secret");
    var (issuer, p2) :- Parameter(p1, "issuer");
    var (algorithm, p3) :- Parameter(p2, "algorithm");
    var (digits, p4) :- Parameter(p3, "digits");
    var (period, p5) :- Parameter(p4, "period");
    var who :- Decode(labelIssuer);
    var name :- Decode(account);
    var whose :- Decode(issuer);
    var d :- ReadNumber(digits);
    var p :- ReadNumber(period);
    if p5 == [] then Some(Provisioning(kind, who, name, secret, whose, algorithm, d, p)) else None
  }

  lemma {:induction false} EncodedAvoids(s: string, c: char)
    requires Encoded(s) && !Unreserved(c) && c != '%'
    ensures c !in s
  {
    if s != [] {
      if Unreserved(s[0]) {
        EncodedAvoids(s[1..], c);
        assert s == [s[0]] + s[1..];
      } else {
        EncodedAvoids(s[3..], c);
        assert s == [s[0], s[1], s[2]] + s[3..];
      }
    }
  }

  lemma IndexAfter(a: string, c: char, b: string)
    requires c !in a
    ensures IndexOf(a + [c] + b, c) == |a|
  {
    var s := a + [c] + b;
    assert forall j :: 0 <= j < |a| ==> s[j] == a[j];
    assert s[|a|] == c;
  }

  lemma SplitsAt(a: string, c: char, b: string)
    requires c !in a
    ensures Split(a + ([c] + b), c) == Some((a, b))
  {
    assert a + ([c] + b) == a + [c] + b;
    IndexAfter(a, c, b);
  }

  lemma NotThere(s: string, c: char)
    requires c !in s
    ensures IndexOf(s, c) == |s|
  {
  }

  lemma ParameterReads(key: string, value: string, rest: string)
    requires '&' !in value
    ensures Parameter(With(key, value, rest), key) == Some((value, rest))
  {
    var s := With(key, value, rest);
    assert s == (key + "=") + (value + ("&" + rest));
    assert s[|key| + 1..] == value + ("&" + rest);
    assert value + ("&" + rest) == value + ['&'] + rest;
    IndexAfter(value, '&', rest);
  }

  lemma LastParameterReads(key: string, value: string)
    requires '&' !in value
    ensures Parameter(key + ("=" + value), key) == Some((value, []))
  {
    var s := key + ("=" + value);
    assert s == (key + "=") + value;
    assert s[|key| + 1..] == value;
    NotThere(value, '&');
    assert value[..|value|] == value;
  }

  lemma NumbersRead()
    ensures ReadNumber("6") == Some(Totp.DIGITS) && ReadNumber("30") == Some(Totp.PERIOD)
  {
    assert "6"[..0] == [] && "30"[..1] == "3" && "3"[..0] == [];
    assert Totp.Value([]) == 0 && Totp.Value("3") == 3 && Totp.Value("6") == 6;
  }

  lemma ParametersRead(kind: string, who: string, name: string, secret: string, whose: string)
    requires '&' !in secret && '&' !in whose
    requires Decode(who).Some? && Decode(name).Some? && Decode(whose).Some?
    ensures ReadParameters(kind, who, name, Parameters(secret, whose))
         == Some(Provisioning(kind, Decode(who).value, Decode(name).value, secret, Decode(whose).value, "SHA1",
                              Totp.DIGITS, Totp.PERIOD))
  {
    var p4 := "period" + ("=" + "30");
    var p3 := With("digits", "6", p4);
    var p2 := With("algorithm", "SHA1", p3);
    var p1 := With("issuer", whose, p2);
    ParameterReads("secret", secret, p1);
    ParameterReads("issuer", whose, p2);
    ParameterReads("algorithm", "SHA1", p3);
    ParameterReads("digits", "6", p4);
    LastParameterReads("period", "30");
    NumbersRead();
  }

  // Everything an authenticator needs can be read back from the URI, for every account and base32 secret:
  // the kind, the issuer twice, the account and secret, the algorithm, and the digits and period that codes
  // are checked with.
  lemma UriRoundTrip(secret: string, account: seq<byte>)
    requires Base32(secret)
    ensures ReadUri(Uri(secret, account))
         == Some(Provisioning("totp", ISSUER, account, secret, ISSUER, "SHA1", Totp.DIGITS, Totp.PERIOD))
  {
    var who, name := Pct(ISSUER), Pct(account);
    PctRoundTrip(account);
    PctRoundTrip(ISSUER);
    EncodedAvoids(who, '&');
    EncodedAvoids(who, '?');
    EncodedAvoids(who, ':');
    EncodedAvoids(name, '?');
    var parameters, title := Parameters(secret, who), who + (":" + name);
    var path := "totp" + ("/" + (title + ("?" + parameters)));
    assert ("otpauth://" + path)[10..] == path;
    SplitsAt("totp", '/', title + ("?" + parameters));
    SplitsAt(title, '?', parameters);
    SplitsAt(who, ':', name);
    ParametersRead("totp", who, name, secret, who);
  }
}
