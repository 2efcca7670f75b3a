// Reading the masked text again: the lexer finds exactly the tokens that were not masked, where they were.
module RustRelex {
  import opened Prelude
  import opened RustLexer
  import opened RustItems
  import opened RustMasker
  import opened MarkerSearch
  import RustNesting

  // ---------------------------------------------------------------------------
  // A veiled text
  // ---------------------------------------------------------------------------

  // What begins to be covered begins like a comment or an attribute.
  predicate CleanStart(t: string, cov: int -> bool, p: nat) {
    p + 1 < |t| && !cov(p) && cov(p + 1) ==> t[p + 1] == '/' || t[p + 1] == '#'
  }

  // A covered backslash at the edge stands before neither a quote nor a backslash.
  predicate CleanEnd(t: string, cov: int -> bool, p: nat) {
    p + 1 < |t| && cov(p) && !cov(p + 1) && t[p] == '\\' ==> t[p + 1] != '"' && t[p + 1] != '\\'
  }

  // m is t with everything covered blanked, newlines aside.
  predicate VeiledAt(t: string, m: string, cov: int -> bool, p: nat)
    requires p < |t| == |m|
  {
    m[p] == if cov(p) && t[p] != '\n' then ' ' else t[p]
  }

  ghost predicate Veils(t: string, m: string, cov: int -> bool) {
    && |m| == |t|
    && (forall p: nat :: p < |t| ==> VeiledAt(t, m, cov, p))
    && (forall p: nat :: CleanStart(t, cov, p) && CleanEnd(t, cov, p))
  }

  predicate IsBlank(c: char) { c == ' ' || c == '\n' }

  // A character that is not blank has not been changed, and is not covered.
  lemma Seen(t: string, m: string, cov: int -> bool, p: nat)
    requires Veils(t, m, cov) && p < |t| && !IsBlank(m[p])
    ensures m[p] == t[p] && !cov(p)
  {
    assert VeiledAt(t, m, cov, p);
  }

  lemma Kept(t: string, m: string, cov: int -> bool, p: nat)
    requires Veils(t, m, cov) && p < |t|
    ensures !cov(p) ==> m[p] == t[p]
    ensures cov(p) ==> IsBlank(m[p])
    ensures m[p] == t[p] || IsBlank(m[p])
  {
    assert VeiledAt(t, m, cov, p);
  }

  // The unit at [i, end) is not covered.
  predicate Bare(t: string, m: string, i: nat, end: nat) {
    i <= end <= |t| == |m| && forall p :: i <= p < end ==> m[p] == t[p]
  }

  lemma BareSlice(t: string, m: string, i: nat, end: nat, a: nat, b: nat)
    requires Bare(t, m, i, end) && i <= a <= b <= end
    ensures m[a..b] == t[a..b]
  {
  }

  // Text without blanks that stands in the veiled text stands in the original.
  lemma StartsSeen(t: string, m: string, cov: int -> bool, i: nat, s: string)
    requires Veils(t, m, cov) && Starts(m, i, s) && forall k :: 0 <= k < |s| ==> !IsBlank(s[k])
    ensures Starts(t, i, s)
  {
    forall p | i <= p < i + |s| ensures t[p] == s[p - i] {
      assert m[p] == m[i..i + |s|][p - i];
      Seen(t, m, cov, p);
    }
    assert t[i..i + |s|] == s;
  }

  lemma {:induction false} RunEndIs(m: string, i: nat, p: char -> bool, j: nat)
    requires i <= j <= |m| && (forall k :: i <= k < j ==> p(m[k])) && (j < |m| ==> !p(m[j]))
    ensures RunEnd(m, i, p) == j
    decreases j - i
  {
    if i < j { RunEndIs(m, i + 1, p, j); }
  }

  // ---------------------------------------------------------------------------
  // Raw strings
  // ---------------------------------------------------------------------------

  lemma HashesSeen(t: string, m: string, cov: int -> bool, i: nat)
    requires Veils(t, m, cov) && i <= |t| && HashesAndQuote(m, i).Some?
    ensures HashesAndQuote(t, i) == HashesAndQuote(m, i)
  {
    var j := HashesAndQuote(m, i).value - 1;
    forall k | i <= k <= j ensures t[k] == m[k] { Seen(t, m, cov, k); }
    RunEndIs(t, i, c => c == '#', j);
  }

  lemma RawOpenerSeen(t: string, m: string, cov: int -> bool, i: nat)
    requires Veils(t, m, cov) && i < |t| && RawOpener(m, i).Some?
    ensures RawOpener(t, i) == RawOpener(m, i)
  {
    Seen(t, m, cov, i);
    if Starts(m, i, "br") { StartsSeen(t, m, cov, i, "br"); }
    if Starts(m, i, "cr") { StartsSeen(t, m, cov, i, "cr"); }
    if Starts(t, i, "br") || Starts(t, i, "cr") { assert t[i..i + 2][0] == t[i]; }
    if Starts(m, i, "br") || Starts(m, i, "cr") {
      HashesSeen(t, m, cov, i + 2);
    } else {
      HashesSeen(t, m, cov, i + 1);
    }
  }

  lemma RawOpenerBare(t: string, m: string, i: nat, end: nat)
    requires i < |t| && RawOpener(t, i).Some? && Bare(t, m, i, end) && RawOpener(t, i).value.0 <= end
    ensures RawOpener(m, i) == RawOpener(t, i)
  {
    var (open, hashes) := RawOpener(t, i).value;
    if Starts(t, i, "br") || Starts(t, i, "cr") {
      BareSlice(t, m, i, end, i, i + 2);
    } else {
      assert m[i] == 'r';
      FirstOf(m, i, "br");
      FirstOf(m, i, "cr");
    }
    RunEndIs(m, hashes, c => c == '#', open - 1);
  }

  lemma {:induction false} FindBare(t: string, m: string, pattern: string, i: nat, end: nat)
    requires Find(t, pattern, i).Some? && Bare(t, m, i, end) && Find(t, pattern, i).value + |pattern| <= end
    ensures Find(m, pattern, i) == Find(t, pattern, i)
    decreases |t| - i
  {
    BareSlice(t, m, i, end, i, i + |pattern|);
    if !Starts(t, i, pattern) { FindBare(t, m, pattern, i + 1, end); }
  }

  // ---------------------------------------------------------------------------
  // Strings
  // ---------------------------------------------------------------------------

  lemma {:induction false} BodyBare(t: string, m: string, i: nat, end: nat)
    requires StringBody(t, i) == Some(end) && Bare(t, m, i, end)
    ensures StringBody(m, i) == Some(end)
    decreases |t| - i
  {
    if t[i] == '\\' {
      BodyBare(t, m, i + 2, end);
    } else if t[i] != '"' {
      BodyBare(t, m, i + 1, end);
    }
  }

  // A string that is not closed in the original is not closed in the veiled text: veiling takes quotes
  // away, and never the backslash before one.
  lemma {:induction false} BodyStaysOpen(t: string, m: string, cov: int -> bool, i: nat)
    requires Veils(t, m, cov) && StringBody(t, i).None?
    ensures StringBody(m, i).None?
    decreases |t| - i
  {
    if i < |t| {
      Kept(t, m, cov, i);
      if t[i] != '\\' {
        BodyStaysOpen(t, m, cov, i + 1);
      } else if i + 1 < |t| {
        BodyStaysOpen(t, m, cov, i + 2);
        if cov(i) { AfterCoveredBackslash(t, m, cov, i); }
      }
    }
  }

  lemma AfterCoveredBackslash(t: string, m: string, cov: int -> bool, i: nat)
    requires Veils(t, m, cov) && i + 1 < |t| && t[i] == '\\' && cov(i)
    ensures m[i] == ' ' && m[i + 1] != '"' && m[i + 1] != '\\'
  {
    assert VeiledAt(t, m, cov, i) && VeiledAt(t, m, cov, i + 1) && CleanEnd(t, cov, i);
  }

  lemma StringSeen(t: string, m: string, cov: int -> bool, i: nat)
    requires Veils(t, m, cov) && i < |t| && !cov(i) && StringAt(t, i).None?
    ensures StringAt(m, i).None?
  {
    Kept(t, m, cov, i);
    var quote := if t[i] == 'b' || t[i] == 'c' then i + 1 else i;
    if Is(m, quote, '"') {
      Seen(t, m, cov, quote);
      BodyStaysOpen(t, m, cov, quote + 1);
    }
  }

  // ---------------------------------------------------------------------------
  // Characters
  // ---------------------------------------------------------------------------

  lemma CharBodyBare(t: string, m: string, i: nat, end: nat)
    requires CharBody(t, i) == Some(end) && Bare(t, m, i, end)
    ensures CharBody(m, i) == Some(end)
  {
    if t[i + 1] == '\\' {
      if i + 4 <= end { BareSlice(t, m, i, end, i + 2, i + 4); }
      if Starts(t, i + 2, "u{") {
        assert t[i + 2..i + 4][1] == t[i + 3];
        var brace := RunEnd(t, i + 4, HexOrUnderscore);
        if brace > i + 4 && Starts(t, brace, "}'") {
          assert t[brace..brace + 2][0] == t[brace];
          BareSlice(t, m, i, end, brace, brace + 2);
          RunEndIs(m, i + 4, HexOrUnderscore, brace);
        }
      }
    }
  }

  lemma CharBodySeen(t: string, m: string, cov: int -> bool, i: nat)
    requires Veils(t, m, cov) && i < |t| && !cov(i) && CharBody(m, i).Some?
    ensures CharBody(t, i).Some?
  {
    Kept(t, m, cov, i + 1);
    if m[i + 1] == '\\' {
      EscapeSeen(t, m, cov, i);
    } else {
      Seen(t, m, cov, i + 2);
      assert CleanStart(t, cov, i);
    }
  }

  lemma EscapeSeen(t: string, m: string, cov: int -> bool, i: nat)
    requires Veils(t, m, cov) && CharBody(m, i).Some? && m[i + 1] == '\\'
    ensures CharBody(t, i).Some?
  {
    Seen(t, m, cov, i + 1);
    var end := CharBody(m, i).value;
    if Is(m, i + 3, '\'') {
      Seen(t, m, cov, i + 3);
    } else if Starts(m, i + 2, "u{") && RunEnd(m, i + 4, HexOrUnderscore) + 2 == end {
      UnicodeSeen(t, m, cov, i);
    } else {
      forall k | i + 2 <= k < i + 6 ensures t[k] == m[k] { Seen(t, m, cov, k); }
    }
  }

  lemma UnicodeSeen(t: string, m: string, cov: int -> bool, i: nat)
    requires Veils(t, m, cov) && i + 2 < |t| && t[i + 1] == '\\' && Starts(m, i + 2, "u{")
    requires var brace := RunEnd(m, i + 4, HexOrUnderscore); brace > i + 4 && Starts(m, brace, "}'")
    ensures CharBody(t, i).Some?
  {
    var brace := RunEnd(m, i + 4, HexOrUnderscore);
    StartsSeen(t, m, cov, i + 2, "u{");
    StartsSeen(t, m, cov, brace, "}'");
    forall k | i + 4 <= k < brace ensures HexOrUnderscore(t[k]) { Seen(t, m, cov, k); }
    assert t[brace..brace + 2][0] == t[brace];
    RunEndIs(t, i + 4, HexOrUnderscore, brace);
  }

  lemma CharSeen(t: string, m: string, cov: int -> bool, i: nat)
    requires Veils(t, m, cov) && i < |t| && !cov(i) && CharAt(t, i).None?
    ensures CharAt(m, i).None?
  {
    Kept(t, m, cov, i);
    var quote := if t[i] == 'b' then i + 1 else i;
    if Is(m, quote, '\'') {
      Seen(t, m, cov, quote);
      if CharBody(m, quote).Some? { CharBodySeen(t, m, cov, quote); }
    }
  }

  // ---------------------------------------------------------------------------
  // One token
  // ---------------------------------------------------------------------------

  predicate Uncovered(cov: int -> bool, u: Unit) { forall p :: u.start <= p < u.end ==> !cov(p) }

  lemma UncoveredIsBare(t: string, m: string, cov: int -> bool, u: Unit)
    requires Veils(t, m, cov) && u.start < u.end <= |t| && Uncovered(cov, u)
    ensures Bare(t, m, u.start, u.end) && !cov(u.start)
  {
    forall p | u.start <= p < u.end ensures m[p] == t[p] { Kept(t, m, cov, p); }
  }

  // Where no comment starts in the original none does in the veiled text.
  lemma NoCommentSeen(t: string, m: string, cov: int -> bool, i: nat)
    requires Veils(t, m, cov) && !Starts(t, i, "//") && !Starts(t, i, "/*")
    ensures !Starts(m, i, "//") && !Starts(m, i, "/*")
  {
    if Starts(m, i, "//") { StartsSeen(t, m, cov, i, "//"); }
    if Starts(m, i, "/*") { StartsSeen(t, m, cov, i, "/*"); }
  }

  // The literals, read one way and the other.
  predicate NoComment(t: string, i: nat) { !Starts(t, i, "//") && !Starts(t, i, "/*") }

  // A raw string from i to end.
  predicate RawEnds(t: string, i: nat, end: nat)
    requires i < |t|
  {
    RawOpener(t, i).Some? && RawClosed(t, RawOpener(t, i).value.0, RawOpener(t, i).value.1, end)
  }

  predicate RawClosed(t: string, open: nat, hashes: nat, end: nat)
    requires hashes < open <= |t|
  {
    ClosesAt(t, ['"'] + t[hashes..open - 1], open, end)
  }

  predicate ClosesAt(t: string, terminator: string, open: nat, end: nat) {
    Find(t, terminator, open).Some? && end == Find(t, terminator, open).value + |terminator|
  }

  lemma ClosesBare(t: string, m: string, i: nat, end: nat, terminator: string, open: nat)
    requires i <= open && Bare(t, m, i, end) && ClosesAt(t, terminator, open, end)
    ensures ClosesAt(m, terminator, open, end)
  {
    FindBare(t, m, terminator, open, end);
  }

  lemma RawUnit(t: string, u: Unit)
    requires u.start < |t|
    ensures ReadAtom(t, u.start) == Atom(u) && u.kind == RawString
       <==> NoComment(t, u.start) && RawEnds(t, u.start, u.end) && u.kind == RawString
  {
  }

  lemma RawClosedBare(t: string, m: string, i: nat, open: nat, hashes: nat, end: nat)
    requires i <= hashes < open <= |t| && Bare(t, m, i, end) && RawClosed(t, open, hashes, end)
    ensures open <= end && RawClosed(m, open, hashes, end)
  {
    ClosesBare(t, m, i, end, ['"'] + t[hashes..open - 1], open);
    BareSlice(t, m, i, end, hashes, open - 1);
  }

  lemma RawBare(t: string, m: string, i: nat, end: nat)
    requires i < end && Bare(t, m, i, end) && RawEnds(t, i, end)
    ensures RawEnds(m, i, end)
  {
    RawClosedBare(t, m, i, RawOpener(t, i).value.0, RawOpener(t, i).value.1, end);
    RawOpenerBare(t, m, i, end);
  }

  lemma StringUnit(t: string, u: Unit)
    requires u.start < |t|
    ensures ReadAtom(t, u.start) == Atom(u) && u.kind == StringLit <==>
      && NoComment(t, u.start) && RawOpener(t, u.start).None? && u.kind == StringLit
      && StringAt(t, u.start).Some? && StringAt(t, u.start).value.0 == u.end
  {
  }

  lemma CharUnit(t: string, u: Unit)
    requires u.start < |t|
    ensures ReadAtom(t, u.start) == Atom(u) && u.kind == CharLit <==>
      && NoComment(t, u.start) && RawOpener(t, u.start).None? && StringAt(t, u.start).None? && u.kind == CharLit
      && CharAt(t, u.start).Some? && CharAt(t, u.start).value.0 == u.end
  {
  }

  lemma StringBare(t: string, m: string, i: nat, end: nat)
    requires i < end && Bare(t, m, i, end) && StringAt(t, i).Some? && StringAt(t, i).value.0 == end
    ensures StringAt(m, i) == StringAt(t, i)
  {
    BodyBare(t, m, StringAt(t, i).value.1, end);
  }

  lemma CharBare(t: string, m: string, i: nat, end: nat)
    requires i < end && Bare(t, m, i, end) && CharAt(t, i).Some? && CharAt(t, i).value.0 == end
    ensures CharAt(m, i) == CharAt(t, i)
  {
    CharBodyBare(t, m, CharAt(t, i).value.1 - 1, end);
  }

  lemma RawStays(t: string, m: string, cov: int -> bool, u: Unit)
    requires Veils(t, m, cov) && IsAtom(t, u) && u.kind == RawString && Uncovered(cov, u)
    ensures ReadAtom(m, u.start) == Atom(u)
  {
    UncoveredIsBare(t, m, cov, u);
    RawUnit(t, u);
    NoCommentSeen(t, m, cov, u.start);
    RawBare(t, m, u.start, u.end);
    RawUnit(m, u);
  }

  lemma StringStays(t: string, m: string, cov: int -> bool, u: Unit)
    requires Veils(t, m, cov) && IsAtom(t, u) && u.kind == StringLit && Uncovered(cov, u)
    ensures ReadAtom(m, u.start) == Atom(u)
  {
    UncoveredIsBare(t, m, cov, u);
    StringUnit(t, u);
    NoCommentSeen(t, m, cov, u.start);
    if RawOpener(m, u.start).Some? { RawOpenerSeen(t, m, cov, u.start); }
    StringBare(t, m, u.start, u.end);
    StringUnit(m, u);
  }

  lemma CharStays(t: string, m: string, cov: int -> bool, u: Unit)
    requires Veils(t, m, cov) && IsAtom(t, u) && u.kind == CharLit && Uncovered(cov, u)
    ensures ReadAtom(m, u.start) == Atom(u)
  {
    UncoveredIsBare(t, m, cov, u);
    CharUnit(t, u);
    NoCommentSeen(t, m, cov, u.start);
    if RawOpener(m, u.start).Some? { RawOpenerSeen(t, m, cov, u.start); }
    StringSeen(t, m, cov, u.start);
    CharBare(t, m, u.start, u.end);
    CharUnit(m, u);
  }

  lemma PlainStays(t: string, m: string, cov: int -> bool, u: Unit)
    requires Veils(t, m, cov) && IsAtom(t, u) && (u.kind == Word || u.kind == Symbol) && Uncovered(cov, u)
    ensures ReadAtom(m, u.start) == Atom(u)
  {
    UncoveredIsBare(t, m, cov, u);
    NoCommentSeen(t, m, cov, u.start);
    if RawOpener(m, u.start).Some? { RawOpenerSeen(t, m, cov, u.start); }
    StringSeen(t, m, cov, u.start);
    CharSeen(t, m, cov, u.start);
    if u.kind == Word {
      if u.end < |t| { Kept(t, m, cov, u.end); }
      RunEndIs(m, u.start + 1, WordPart, u.end);
    }
  }

  lemma TokenStays(t: string, m: string, cov: int -> bool, u: Unit)
    requires Veils(t, m, cov) && IsAtom(t, u) && IsToken(u.kind) && Uncovered(cov, u)
    ensures ReadAtom(m, u.start) == Atom(u)
  {
    match u.kind
    case RawString => RawStays(t, m, cov, u);
    case StringLit => StringStays(t, m, cov, u);
    case CharLit => CharStays(t, m, cov, u);
    case _ => PlainStays(t, m, cov, u);
  }

  // ---------------------------------------------------------------------------
  // The whole text
  // ---------------------------------------------------------------------------

  lemma {:induction false} TokensFront(u: Unit, rest: seq<Unit>)
    ensures Tokens([u] + rest) == if IsToken(u.kind) then [u] + Tokens(rest) else Tokens(rest)
    decreases |rest|
  {
    var all := [u] + rest;
    if rest == [] {
      assert all[..0] == [];
    } else {
      var n := |rest| - 1;
      assert all[..|all| - 1] == [u] + rest[..n];
      TokensFront(u, rest[..n]);
    }
  }

  // What stands from i on reads as these tokens.
  predicate Reads(m: string, i: nat, tokens: seq<Unit>) {
    i <= |m| && LexFrom(m, i).Units? && Tokens(LexFrom(m, i).units) == tokens
  }

  // Space in front changes nothing.
  lemma SpaceBefore(m: string, i: nat, tokens: seq<Unit>)
    requires i < |m| && IsSpace(m[i]) && Reads(m, i + 1, tokens)
    ensures Reads(m, i, tokens)
  {
    var end := RunEnd(m, i + 1, IsSpace);
    ReadsSpace(m, i);
    if i + 1 < |m| && IsSpace(m[i + 1]) {
      ReadsSpace(m, i + 1);
      assert RunEnd(m, i + 2, IsSpace) == end;
      TokensFront(Unit(Space, i + 1, end), LexFrom(m, end).units);
    }
    if LexFrom(m, end).Units? { TokensFront(Unit(Space, i, end), LexFrom(m, end).units); }
  }

  lemma ReadsSpace(m: string, i: nat)
    requires i < |m| && IsSpace(m[i])
    ensures ReadAtom(m, i) == Atom(Unit(Space, i, RunEnd(m, i + 1, IsSpace)))
  {
    FirstOf(m, i, "//");
    FirstOf(m, i, "/*");
    assert RawOpener(m, i).None? && StringAt(m, i).None? && CharAt(m, i).None?;
  }

  lemma FirstOf(m: string, i: nat, s: string)
    requires s != "" && i < |m|
    ensures Starts(m, i, s) ==> m[i] == s[0]
  {
    if Starts(m, i, s) { assert m[i..i + |s|][0] == m[i]; }
  }

  lemma {:induction false} SpacesBefore(m: string, i: nat, end: nat, tokens: seq<Unit>)
    requires i <= end <= |m| && (forall p :: i <= p < end ==> IsSpace(m[p])) && Reads(m, end, tokens)
    ensures Reads(m, i, tokens)
    decreases end - i
  {
    if i < end {
      SpacesBefore(m, i + 1, end, tokens);
      SpaceBefore(m, i, tokens);
    }
  }

  lemma TokenBefore(m: string, u: Unit, tokens: seq<Unit>)
    requires u.start < u.end <= |m| && ReadAtom(m, u.start) == Atom(u) && IsToken(u.kind) && Reads(m, u.end, tokens)
    ensures Reads(m, u.start, [u] + tokens)
  {
    TokensFront(u, LexFrom(m, u.end).units);
  }

  // Units are covered whole or not at all, and comments are covered.
  predicate Whole(cov: int -> bool, u: Unit) {
    (forall p :: u.start <= p < u.end ==> (cov(p) <==> cov(u.start))) && (IsComment(u.kind) ==> cov(u.start))
  }

  // The tokens whose start is not covered.
  function Remaining(cov: int -> bool, tokens: seq<Unit>): seq<Unit> {
    if tokens == [] then []
    else if cov(tokens[0].start) then Remaining(cov, tokens[1..])
    else [tokens[0]] + Remaining(cov, tokens[1..])
  }

  // Lexing the veiled text from a unit on finds the tokens that remain of those the original has there.
  lemma {:induction false} RelexFrom(t: string, m: string, cov: int -> bool, i: nat)
    requires Veils(t, m, cov) && i <= |t| && LexFrom(t, i).Units?
    requires forall u :: u in LexFrom(t, i).units ==> Whole(cov, u)
    ensures Reads(m, i, Remaining(cov, Tokens(LexFrom(t, i).units)))
    decreases |t| - i
  {
    if i < |t| {
      var u := ReadAtom(t, i).unit;
      var rest := LexFrom(t, u.end).units;
      assert LexFrom(t, i).units == [u] + rest;
      assert u in LexFrom(t, i).units;
      RelexFrom(t, m, cov, u.end);
      TokensFront(u, rest);
      assert ([u] + Tokens(rest))[1..] == Tokens(rest);
      RelexUnit(t, m, cov, u, Remaining(cov, Tokens(rest)));
    }
  }

  lemma RelexUnit(t: string, m: string, cov: int -> bool, u: Unit, tokens: seq<Unit>)
    requires Veils(t, m, cov) && IsAtom(t, u) && u.start < u.end <= |t| && Whole(cov, u) && Reads(m, u.end, tokens)
    ensures Reads(m, u.start, if IsToken(u.kind) && !cov(u.start) then [u] + tokens else tokens)
  {
    if IsToken(u.kind) && !cov(u.start) {
      TokenStays(t, m, cov, u);
      TokenBefore(m, u, tokens);
    } else {
      forall p | u.start <= p < u.end ensures IsSpace(m[p]) {
        Kept(t, m, cov, p);
        if !cov(p) { SpaceUnit(t, u, p); }
      }
      SpacesBefore(m, u.start, u.end, tokens);
    }
  }

  lemma SpaceUnit(t: string, u: Unit, p: nat)
    requires IsAtom(t, u) && u.kind == Space && u.start <= p < u.end
    ensures p < |t| && IsSpace(t[p])
  {
  }

  // ---------------------------------------------------------------------------
  // The guard's mask
  // ---------------------------------------------------------------------------

  function Cover(ranges: seq<Range>): int -> bool { p => Covered(ranges, p) }

  lemma MaskVeils(t: string, ranges: seq<Range>)
    requires Edged(t, ranges)
    ensures Veils(t, Masked(t, ranges), Cover(ranges))
  {
    forall p: nat ensures CleanStart(t, Cover(ranges), p) && CleanEnd(t, Cover(ranges), p) {
      if p + 1 < |t| && !Covered(ranges, p) && Covered(ranges, p + 1) {
        var k :| 0 <= k < |ranges| && ranges[k].lo <= p + 1 < ranges[k].hi;
        assert Edges(t, ranges[k]) && ranges[k].lo == p + 1;
      }
      if p + 1 < |t| && Covered(ranges, p) && !Covered(ranges, p + 1) {
        var k :| 0 <= k < |ranges| && ranges[k].lo <= p < ranges[k].hi;
        assert Edges(t, ranges[k]) && ranges[k].hi == p + 1;
      }
    }
  }

  // No end of the range lies inside the unit.
  predicate CutsClear(r: Range, u: Unit) { !(u.start < r.lo < u.end) && !(u.start < r.hi < u.end) }

  lemma ClearIsWhole(ranges: seq<Range>, u: Unit)
    requires forall k :: 0 <= k < |ranges| ==> CutsClear(ranges[k], u)
    requires IsComment(u.kind) ==> Range(u.start, u.end) in ranges && u.start < u.end
    ensures Whole(Cover(ranges), u)
  {
    forall p | u.start <= p < u.end ensures Covered(ranges, p) <==> Covered(ranges, u.start) {
      if k :| 0 <= k < |ranges| && ranges[k].lo <= p < ranges[k].hi { assert CutsClear(ranges[k], u); }
      if k :| 0 <= k < |ranges| && ranges[k].lo <= u.start < ranges[k].hi { assert CutsClear(ranges[k], u); }
    }
    if IsComment(u.kind) {
      var k :| 0 <= k < |ranges| && ranges[k] == Range(u.start, u.end);
      assert ranges[k].lo <= u.start < ranges[k].hi;
    }
  }

  lemma UnitsCutClear(units: seq<Unit>, n: nat, u: Unit, x: Unit)
    requires Ordered(units, n) && u in units && x in units
    ensures u == x || u.end <= x.start || x.end <= u.start
  {
    var i :| 0 <= i < |units| && units[i] == u;
    var j :| 0 <= j < |units| && units[j] == x;
    if i < j { assert units[i].end <= units[j].start; }
    if j < i { assert units[j].end <= units[i].start; }
  }

  lemma {:induction false} CommentListed(units: seq<Unit>, u: Unit)
    requires u in units && IsComment(u.kind)
    ensures Range(u.start, u.end) in Comments(units)
  {
    var front, last := units[..|units| - 1], units[|units| - 1];
    assert units == front + [last];
    if u != last { CommentListed(front, u); }
  }

  lemma ItemCutsClear(units: seq<Unit>, n: nat, it: Item, u: Unit)
    requires Ordered(units, n) && u in units
    ensures CutsClear(ItemRange(Tokens(units), it), u)
  {
    var tokens := Tokens(units);
    if Fits(it, |tokens|) {
      TokensAreUnits(units, tokens[it.first]);
      UnitsCutClear(units, n, u, tokens[it.first]);
      var last := if it.boundary then tokens[it.stop] else tokens[it.stop - 1];
      TokensAreUnits(units, last);
      UnitsCutClear(units, n, u, last);
    }
  }

  lemma MaskIsWhole(t: string, units: seq<Unit>, items: seq<Item>, u: Unit)
    requires Ordered(units, |t|) && u in units
    ensures Whole(Cover(Comments(units) + ItemRanges(Tokens(units), items)), u)
  {
    var comments, rest := Comments(units), ItemRanges(Tokens(units), items);
    var ranges := comments + rest;
    forall k | 0 <= k < |ranges| ensures CutsClear(ranges[k], u) {
      if k < |comments| {
        var x := CommentsAreUnits(units, k);
        UnitsCutClear(units, |t|, u, x);
      } else {
        assert ranges[k] == ItemRange(Tokens(units), items[k - |comments|]);
        ItemCutsClear(units, |t|, items[k - |comments|], u);
      }
    }
    var i :| 0 <= i < |units| && units[i] == u;
    if IsComment(u.kind) { CommentListed(units, u); }
    ClearIsWhole(ranges, u);
  }

  // ---------------------------------------------------------------------------
  // What remains is what survives
  // ---------------------------------------------------------------------------

  lemma {:induction false} RemainingConcat(cov: int -> bool, a: seq<Unit>, b: seq<Unit>)
    ensures Remaining(cov, a + b) == Remaining(cov, a) + Remaining(cov, b)
    decreases |a|
  {
    if a == [] {
      assert a + b == b;
    } else {
      assert (a + b)[1..] == a[1..] + b;
      RemainingConcat(cov, a[1..], b);
    }
  }

  lemma {:induction false} RemainingAll(cov: int -> bool, a: seq<Unit>, covered: bool)
    requires forall u :: u in a ==> cov(u.start) == covered
    ensures Remaining(cov, a) == if covered then [] else a
    decreases |a|
  {
    if a != [] {
      assert a[0] in a;
      RemainingAll(cov, a[1..], covered);
      assert a == [a[0]] + a[1..];
    }
  }

  // The items say which of the tokens are covered.
  predicate Tells(cov: int -> bool, tokens: seq<Unit>, items: seq<Item>, from: nat) {
    forall k :: from <= k < |tokens| ==> (cov(tokens[k].start) <==> InSome(items, k))
  }

  lemma {:induction false} NotBefore(items: seq<Item>, i: nat, n: nat, k: nat)
    requires RustNesting.InOrder(items, i, n) && k < i
    ensures !InSome(items, k)
    decreases |items|
  {
    if items != [] {
      NotBefore(items[1..], items[0].stop, n, k);
      SomeOf(items, k);
    }
  }

  lemma SomeOf(items: seq<Item>, k: nat)
    requires items != []
    ensures InSome(items, k) <==> items[0].first <= k < items[0].stop || InSome(items[1..], k)
  {
    if j :| 0 <= j < |items| && items[j].first <= k < items[j].stop {
      if j > 0 { assert items[1..][j - 1] == items[j]; }
    }
    if j :| 0 <= j < |items[1..]| && items[1..][j].first <= k < items[1..][j].stop {
      assert items[j + 1] == items[1..][j];
    }
  }

  // Before, in and after the first item.
  lemma TellsApart(cov: int -> bool, tokens: seq<Unit>, items: seq<Item>, from: nat)
    requires items != [] && RustNesting.InOrder(items, from, |tokens|) && Tells(cov, tokens, items, from)
    ensures forall k :: from <= k < items[0].first ==> !cov(tokens[k].start)
    ensures forall k :: items[0].first <= k < items[0].stop ==> cov(tokens[k].start)
    ensures Tells(cov, tokens, items[1..], items[0].stop)
  {
    var first, stop := items[0].first, items[0].stop;
    forall k | from <= k < |tokens|
      ensures cov(tokens[k].start) <==> first <= k < stop || InSome(items[1..], k)
      ensures k < stop ==> !InSome(items[1..], k)
    {
      SomeOf(items, k);
      if k < stop { NotBefore(items[1..], stop, |tokens|, k); }
    }
  }

  lemma RemainingParts(cov: int -> bool, tokens: seq<Unit>, from: nat, first: nat, stop: nat)
    requires from <= first <= stop <= |tokens|
    requires forall k :: from <= k < first ==> !cov(tokens[k].start)
    requires forall k :: first <= k < stop ==> cov(tokens[k].start)
    ensures Remaining(cov, tokens[from..]) == tokens[from..first] + Remaining(cov, tokens[stop..])
  {
    RemainingThree(cov, tokens[from..first], tokens[first..stop], tokens[stop..]);
    assert tokens[from..] == tokens[from..first] + (tokens[first..stop] + tokens[stop..]);
  }

  lemma RemainingThree(cov: int -> bool, a: seq<Unit>, b: seq<Unit>, c: seq<Unit>)
    requires forall k :: 0 <= k < |a| ==> !cov(a[k].start)
    requires forall k :: 0 <= k < |b| ==> cov(b[k].start)
    ensures Remaining(cov, a + (b + c)) == a + Remaining(cov, c)
  {
    RemainingAll(cov, a, false);
    RemainingAll(cov, b, true);
    RemainingConcat(cov, a, b + c);
    RemainingConcat(cov, b, c);
    assert [] + Remaining(cov, c) == Remaining(cov, c);
  }

  lemma {:induction false} RemainingSurvive(cov: int -> bool, tokens: seq<Unit>, items: seq<Item>, from: nat)
    requires from <= |tokens| && RustNesting.InOrder(items, from, |tokens|) && Tells(cov, tokens, items, from)
    ensures Remaining(cov, tokens[from..]) == RustNesting.Survivors(tokens, items, from)
    decreases |items|
  {
    if items == [] {
      RemainingAll(cov, tokens[from..], false);
    } else {
      TellsApart(cov, tokens, items, from);
      RemainingSurvive(cov, tokens, items[1..], items[0].stop);
      RemainingParts(cov, tokens, from, items[0].first, items[0].stop);
    }
  }

  // A token starts in an item's range exactly when it is one of the item's tokens.
  lemma InItsRange(tokens: seq<Unit>, n: nat, it: Item, k: nat)
    requires Ordered(tokens, n) && Fits(it, |tokens|) && k < |tokens|
    ensures ItemRange(tokens, it).lo <= tokens[k].start < ItemRange(tokens, it).hi <==> it.first <= k < it.stop
  {
    if k < it.first { assert tokens[k].end <= tokens[it.first].start; }
    if it.first < k { assert tokens[it.first].end <= tokens[k].start; }
    if it.boundary {
      if k < it.stop { assert tokens[k].end <= tokens[it.stop].start; }
      if it.stop < k { assert tokens[it.stop].end <= tokens[k].start; }
    } else {
      if k < it.stop - 1 { assert tokens[k].end <= tokens[it.stop - 1].start; }
      if it.stop <= k { assert tokens[it.stop - 1].end <= tokens[k].start; }
    }
  }

  lemma {:induction false} InOrderFits(items: seq<Item>, i: nat, n: nat, j: nat)
    requires RustNesting.InOrder(items, i, n) && j < |items|
    ensures items[j].first < items[j].stop <= n
    decreases |items|
  {
    if j > 0 { InOrderFits(items[1..], items[0].stop, n, j - 1); }
  }

  // No token starts in a comment.
  lemma OutsideComments(units: seq<Unit>, n: nat, u: Unit, j: nat)
    requires Ordered(units, n) && u in units && IsToken(u.kind) && j < |Comments(units)|
    ensures var r := Comments(units)[j]; !(r.lo <= u.start < r.hi)
  {
    var x := CommentsAreUnits(units, j);
    UnitsCutClear(units, n, u, x);
    var i :| 0 <= i < |units| && units[i] == u;
  }

  lemma MaskTells(units: seq<Unit>, n: nat, items: seq<Item>, k: nat)
    requires Ordered(units, n) && Ordered(Tokens(units), n) && k < |Tokens(units)|
    requires forall j :: 0 <= j < |items| ==> Fits(items[j], |Tokens(units)|)
    ensures var ranges := Comments(units) + ItemRanges(Tokens(units), items);
            Covered(ranges, Tokens(units)[k].start) <==> InSome(items, k)
  {
    var tokens, comments := Tokens(units), Comments(units);
    var ranges := comments + ItemRanges(tokens, items);
    TokensAreUnits(units, tokens[k]);
    forall j | 0 <= j < |comments| ensures !(ranges[j].lo <= tokens[k].start < ranges[j].hi) {
      OutsideComments(units, n, tokens[k], j);
    }
    forall j | 0 <= j < |items|
      ensures var r := ranges[|comments| + j];
              r.lo <= tokens[k].start < r.hi <==> items[j].first <= k < items[j].stop
    {
      assert ranges[|comments| + j] == ItemRange(tokens, items[j]);
      InItsRange(tokens, n, items[j], k);
    }
    if i :| 0 <= i < |ranges| && ranges[i].lo <= tokens[k].start < ranges[i].hi {
      var j := i - |comments|;
      assert ranges[|comments| + j] == ranges[i];
      assert items[j].first <= k < items[j].stop;
    }
  }

  lemma {:induction false} ClassesSurvive(t: string, tokens: seq<Unit>, items: seq<Item>, from: nat)
    requires from <= |tokens| && RustNesting.InOrder(items, from, |tokens|)
    ensures Classes(t, RustNesting.Survivors(tokens, items, from))
         == RustNesting.Survivors(Classes(t, tokens), items, from)
    decreases |items|
  {
    if items == [] {
      assert Classes(t, tokens[from..]) == Classes(t, tokens)[from..];
    } else {
      ClassesSurvive(t, tokens, items[1..], items[0].stop);
      var before, rest := tokens[from..items[0].first], RustNesting.Survivors(tokens, items[1..], items[0].stop);
      assert Classes(t, before + rest) == Classes(t, before) + Classes(t, rest);
      assert Classes(t, before) == Classes(t, tokens)[from..items[0].first];
    }
  }

  lemma {:induction false} RemainingUncovered(cov: int -> bool, tokens: seq<Unit>, u: Unit)
    requires u in Remaining(cov, tokens)
    ensures u in tokens && !cov(u.start)
  {
    if u != tokens[0] || cov(u.start) { RemainingUncovered(cov, tokens[1..], u); }
  }

  // ---------------------------------------------------------------------------
  // The theorem
  // ---------------------------------------------------------------------------

  // Reading the production text again yields exactly the tokens that survive the mask, each where it was
  // and with the text it had: masking joins no two tokens, splits none, opens no string and no comment.
  lemma RelexesToSurvivors(t: string)
    requires MaskOf(t).Mask?
    ensures var m := Masked(t, MaskOf(t).ranges);
            var tokens := Tokens(Lex(t).units);
            var items := ItemsFrom(Classes(t, tokens), 0);
            && items.Items? && RustNesting.InOrder(items.items, 0, |tokens|)
            && Lex(m).Units? && Tokens(Lex(m).units) == RustNesting.Survivors(tokens, items.items, 0)
            && (forall u :: u in Tokens(Lex(m).units) ==> TextOf(m, u) == TextOf(t, u))
            && Classes(m, Tokens(Lex(m).units)) == RustNesting.Survivors(Classes(t, tokens), items.items, 0)
  {
    var units := Lex(t).units;
    var tokens := Tokens(units);
    var v := Classes(t, tokens);
    var items := ItemsFrom(v, 0).items;
    var ranges := MaskOf(t).ranges;
    var cov := Cover(ranges);
    var m := Masked(t, ranges);
    UnitsAreOrdered(t);
    TokensAreOrdered(t);
    forall k | 0 <= k < |ranges| ensures Edges(t, ranges[k]) { MaskEdges(t, k); }
    MaskVeils(t, ranges);
    forall u | u in units ensures Whole(cov, u) { MaskIsWhole(t, units, items, u); }
    RelexFrom(t, m, cov, 0);
    RustNesting.ItemsInOrder(v, 0);
    ItemsAreShaped(v, 0);
    forall j | 0 <= j < |items| ensures Fits(items[j], |tokens|) { assert Shaped(v, items[j]); }
    forall k | 0 <= k < |tokens| ensures cov(tokens[k].start) <==> InSome(items, k) { MaskTells(units, |t|, items, k); }
    RemainingSurvive(cov, tokens, items, 0);
    assert tokens[0..] == tokens;
    forall u | u in Remaining(cov, tokens) ensures TextOf(m, u) == TextOf(t, u) {
      RemainingText(t, m, cov, units, u);
    }
    SameClasses(t, m, Remaining(cov, tokens));
    ClassesSurvive(t, tokens, items, 0);
  }

  lemma RemainingText(t: string, m: string, cov: int -> bool, units: seq<Unit>, u: Unit)
    requires Veils(t, m, cov) && Ordered(units, |t|) && (forall x :: x in units ==> Whole(cov, x))
    requires u in Remaining(cov, Tokens(units))
    ensures TextOf(m, u) == TextOf(t, u)
  {
    RemainingUncovered(cov, Tokens(units), u);
    TokensAreUnits(units, u);
    var i :| 0 <= i < |units| && units[i] == u;
    assert Whole(cov, u);
    UncoveredIsBare(t, m, cov, u);
    BareSlice(t, m, u.start, u.end, u.start, u.end);
  }

  lemma SameClasses(t: string, m: string, tokens: seq<Unit>)
    requires forall u :: u in tokens ==> TextOf(m, u) == TextOf(t, u)
    ensures Classes(m, tokens) == Classes(t, tokens)
  {
  }

  // The production text of a nested source is itself a nested source.
  lemma NestedProductionText(t: string)
    requires NestedSource(t) && MaskOf(t).Mask?
    ensures NestedSource(Masked(t, MaskOf(t).ranges))
  {
    RelexesToSurvivors(t);
    NestedSourceStaysNested(t);
  }
}
