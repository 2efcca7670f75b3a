// The atoms of the lexer, described apart from the functions that read them: the first alternative of the
// pattern that stands at a place, and where it ends.
module RustAtoms {
  import opened Prelude
  import opened RustLexer

  // ---------------------------------------------------------------------------
  // Block comments
  // ---------------------------------------------------------------------------

  // Openers less closers, reading from i, if reading comes to rest at e.
  function Balance(t: string, i: nat, e: nat): Option<int>
    decreases |t| - i
  {
    if i == e then Some(0)
    else if i >= |t| || i > e then None
    else if Starts(t, i, "/*") then var rest :- Balance(t, i + 2, e); Some(rest + 1)
    else if Starts(t, i, "*/") then var rest :- Balance(t, i + 2, e); Some(rest - 1)
    else Balance(t, i + 1, e)
  }

  // The first place at which `depth` closers more than openers have been read.
  predicate ClosedAt(t: string, i: nat, depth: nat, e: nat) {
    && i <= e <= |t| && Balance(t, i, e) == Some(0 - depth)
    && forall f :: i <= f < e && Balance(t, i, f).Some? ==> Balance(t, i, f).value > 0 - depth
  }

  lemma StepsBy(t: string, i: nat, depth: nat, e: nat, width: nat, change: int)
    requires i < |t| && 1 <= width <= 2 && depth > 0 && depth + change >= 0
    requires Starts(t, i, "/*") ==> width == 2 && change == 1
    requires !Starts(t, i, "/*") && Starts(t, i, "*/") ==> width == 2 && change == -1
    requires !Starts(t, i, "/*") && !Starts(t, i, "*/") ==> width == 1 && change == 0
    ensures ClosedAt(t, i, depth, e) <==> e > i && ClosedAt(t, i + width, depth + change, e)
  {
    assert forall f: nat :: i < f < i + width ==> Balance(t, i, f).None?;
    assert forall f: nat :: f >= i + width ==>
      var rest := Balance(t, i + width, f);
      Balance(t, i, f) == if rest.Some? then Some(rest.value + change) else None;
    if ClosedAt(t, i + width, depth + change, e) {
      forall f | i <= f < e && Balance(t, i, f).Some? ensures Balance(t, i, f).value > 0 - depth {
        if f > i { assert f >= i + width; }
      }
    }
    if ClosedAt(t, i, depth, e) {
      var next := i + width;
      forall f | next <= f < e && Balance(t, next, f).Some? ensures Balance(t, next, f).value > 0 - (depth + change) {
        assert Balance(t, i, f).Some?;
      }
    }
  }

  // A block comment read with `depth` open ends exactly there.
  lemma {:induction false} BlockEndIs(t: string, i: nat, depth: nat, e: nat)
    requires i <= |t|
    ensures BlockEnd(t, i, depth) == Some(e) <==> ClosedAt(t, i, depth, e)
    decreases |t| - i
  {
    if depth > 0 && i < |t| {
      var opens := Starts(t, i, "/*");
      var closes := !opens && Starts(t, i, "*/");
      var width, change := if opens || closes then 2 else 1, if opens then 1 else if closes then -1 else 0;
      StepsBy(t, i, depth, e, width, change);
      BlockEndIs(t, i + width, depth + change, e);
    } else if depth == 0 {
      assert Balance(t, i, i) == Some(0);
    }
  }

  // ---------------------------------------------------------------------------
  // Strings
  // ---------------------------------------------------------------------------

  // Backslashes directly before k, back to i.
  function Slashes(t: string, i: nat, k: nat): nat
    requires i <= k <= |t|
  {
    if i < k && t[k - 1] == '\\' then 1 + Slashes(t, i, k - 1) else 0
  }

  // A quote after an even number of backslashes.
  predicate QuoteAt(t: string, i: nat, k: nat) { i <= k < |t| && t[k] == '"' && Slashes(t, i, k) % 2 == 0 }

  lemma {:induction false} SlashesFrom(t: string, i: nat, j: nat, k: nat)
    requires i <= j <= k <= |t|
    ensures Slashes(t, i, k) == if Slashes(t, j, k) == k - j then k - j + Slashes(t, i, j) else Slashes(t, j, k)
    ensures Slashes(t, j, k) <= k - j
    decreases k
  {
    if j < k && t[k - 1] == '\\' { SlashesFrom(t, i, j, k - 1); }
  }

  // Past a plain character, or a backslash and what it escapes, nothing changes.
  lemma QuotesPast(t: string, i: nat, k: nat)
    requires i < |t| && t[i] != '"'
    ensures var next := if t[i] == '\\' then i + 2 else i + 1;
      QuoteAt(t, i, k) <==> next <= k && QuoteAt(t, next, k)
  {
    var next := if t[i] == '\\' then i + 2 else i + 1;
    if next <= k < |t| {
      SlashesFrom(t, i, next, k);
      assert Slashes(t, i, i) == 0;
      if t[i] != '\\' {
        assert Slashes(t, i, i + 1) == 0;
      } else if t[i + 1] == '\\' {
        assert Slashes(t, i, i + 1) == 1 && Slashes(t, i, i + 2) == 2;
      } else {
        assert Slashes(t, i, i + 2) == 0;
      }
    } else if k == i + 1 && k < |t| {
      assert Slashes(t, i, i) == 0 && Slashes(t, i, i + 1) == 1;
    }
  }

  // A string ends with the first quote after an even number of backslashes.
  lemma {:induction false} StringBodyIs(t: string, i: nat)
    ensures match StringBody(t, i)
      case Some(end) => QuoteAt(t, i, end - 1) && forall k: nat :: k < end - 1 ==> !QuoteAt(t, i, k)
      case None => forall k: nat :: !QuoteAt(t, i, k)
    decreases |t| - i
  {
    if i < |t| {
      if t[i] == '"' {
        assert Slashes(t, i, i) == 0;
      } else {
        StringBodyIs(t, if t[i] == '\\' then i + 2 else i + 1);
        forall k: nat ensures var next := if t[i] == '\\' then i + 2 else i + 1;
          QuoteAt(t, i, k) <==> next <= k && QuoteAt(t, next, k)
        {
          QuotesPast(t, i, k);
        }
      }
    }
  }

  // ---------------------------------------------------------------------------
  // Raw strings and characters
  // ---------------------------------------------------------------------------

  lemma {:induction false} FindIs(t: string, pattern: string, i: nat)
    ensures match Find(t, pattern, i)
      case Some(p) => i <= p && Starts(t, p, pattern) && forall q :: i <= q < p ==> !Starts(t, q, pattern)
      case None => forall q :: i <= q ==> !Starts(t, q, pattern)
    decreases |t| - i
  {
    if i + |pattern| <= |t| && !Starts(t, i, pattern) { FindIs(t, pattern, i + 1); }
  }

  // An opener r, br or cr, then the hashes from h on, at most 255 of them, and a quote before `open`.
  predicate RawStart(t: string, i: nat, h: nat, open: nat) {
    && ((Starts(t, i, "r") && h == i + 1) || ((Starts(t, i, "br") || Starts(t, i, "cr")) && h == i + 2))
    && h < open <= |t| && open - 1 - h <= 255 && t[open - 1] == '"' && forall k :: h <= k < open - 1 ==> t[k] == '#'
  }

  lemma RawOpenerIs(t: string, i: nat, h: nat, open: nat)
    requires i < |t|
    ensures RawOpener(t, i) == Some((open, h)) <==> RawStart(t, i, h, open)
  {
    FirstLetter(t, i);
    if RawStart(t, i, h, open) { RunIs(t, h, open - 1); }
  }

  lemma FirstLetter(t: string, i: nat)
    requires i < |t|
    ensures Starts(t, i, "r") <==> t[i] == 'r'
    ensures Starts(t, i, "br") ==> t[i] == 'b'
    ensures Starts(t, i, "cr") ==> t[i] == 'c'
  {
    assert t[i..i + 1] == [t[i]];
    if i + 2 <= |t| { assert t[i..i + 2] == [t[i], t[i + 1]]; }
  }

  lemma {:induction false} RunIs(t: string, i: nat, j: nat)
    requires i <= j < |t| && t[j] != '#' && forall k :: i <= k < j ==> t[k] == '#'
    ensures RunEnd(t, i, c => c == '#') == j
    decreases j - i
  {
    if i < j { RunIs(t, i + 1, j); }
  }

  // The character literals whose quote stands at q: one character, or a backslash with one character, with
  // two hexadecimal digits after an x, or with hexadecimal digits in braces after a u.
  predicate CharForm(t: string, q: nat, end: nat) {
    end <= |t| && q + 2 < end && t[end - 1] == '\'' &&
    if t[q + 1] == '\\' then
      || end == q + 4
      || (end == q + 6 && t[q + 2] == 'x' && Hex(t[q + 3]) && Hex(t[q + 4]))
      || (&& end > q + 6 && t[q + 2] == 'u' && t[q + 3] == '{' && t[end - 2] == '}'
          && forall k :: q + 4 <= k < end - 2 ==> HexOrUnderscore(t[k]))
    else end == q + 3 && t[q + 1] != '\''
  }

  lemma CharBodyIs(t: string, q: nat, end: nat)
    ensures CharBody(t, q) == Some(end) <==> CharForm(t, q, end)
  {
    if q + 3 < |t| { assert t[q + 2..q + 4] == [t[q + 2], t[q + 3]]; }
    if Starts(t, q + 2, "u{") {
      var brace := RunEnd(t, q + 4, HexOrUnderscore);
      if brace + 2 <= |t| { assert t[brace..brace + 2] == [t[brace], t[brace + 1]]; }
      if CharForm(t, q, end) && end > q + 6 { HexRunIs(t, q + 4, end - 2); }
    }
  }

  lemma {:induction false} HexRunIs(t: string, i: nat, j: nat)
    requires i <= j < |t| && !HexOrUnderscore(t[j]) && forall k :: i <= k < j ==> HexOrUnderscore(t[k])
    ensures RunEnd(t, i, HexOrUnderscore) == j
    decreases j - i
  {
    if i < j { HexRunIs(t, i + 1, j); }
  }

  // ---------------------------------------------------------------------------
  // The pattern
  // ---------------------------------------------------------------------------

  // Where the body starts of a literal at i that may have one of the prefixes before its quote.
  function BodyOf(t: string, i: nat, prefixes: set<char>): nat
    requires i < |t|
  {
    if t[i] in prefixes then i + 2 else i + 1
  }

  // The first quote after an even number of backslashes.
  predicate StringTo(t: string, body: nat, end: nat) {
    end > 0 && QuoteAt(t, body, end - 1) && forall k: nat :: k < end - 1 ==> !QuoteAt(t, body, k)
  }

  // An alternative of the pattern stands at i, in the order of the pattern.
  ghost predicate Stands(t: string, i: nat, kind: Kind) {
    match kind
    case LineComment => Starts(t, i, "//")
    case BlockComment => Starts(t, i, "/*")
    case RawString => exists h: nat, open: nat :: RawStart(t, i, h, open)
    case StringLit =>
      i < |t| && var body := BodyOf(t, i, {'b', 'c'}); Is(t, body - 1, '"') && exists k: nat :: QuoteAt(t, body, k)
    case CharLit =>
      i < |t| && var q := BodyOf(t, i, {'b'}) - 1; Is(t, q, '\'') && exists end: nat :: CharForm(t, q, end)
    case Space => i < |t| && IsSpace(t[i])
    case Word => i < |t| && WordStart(t[i])
    case Symbol => i < |t|
  }

  function Place(kind: Kind): nat {
    match kind
    case LineComment => 0
    case BlockComment => 1
    case RawString => 2
    case StringLit => 3
    case CharLit => 4
    case Space => 5
    case Word => 6
    case Symbol => 7
  }

  ghost predicate First(t: string, i: nat, kind: Kind) {
    Stands(t, i, kind) && forall other: Kind :: Place(other) < Place(kind) ==> !Stands(t, i, other)
  }

  // As far as it goes.
  ghost predicate Reaches(t: string, i: nat, kind: Kind, end: nat) {
    match kind
    case LineComment => end <= |t| && (forall k :: i <= k < end ==> t[k] != '\n') && (end < |t| ==> t[end] == '\n')
    case BlockComment => ClosedAt(t, i + 2, 1, end)
    case RawString => RawTo(t, i, end)
    case StringLit => i < |t| && StringTo(t, BodyOf(t, i, {'b', 'c'}), end)
    case CharLit => i < |t| && CharForm(t, BodyOf(t, i, {'b'}) - 1, end)
    case Space => Run(t, i, end, IsSpace)
    case Word => Run(t, i, end, WordPart)
    case Symbol => end == i + 1
  }

  ghost predicate RawTo(t: string, i: nat, end: nat) {
    exists h: nat, open: nat :: RawStart(t, i, h, open) && TerminatesAt(t, ['"'] + t[h..open - 1], open, end)
  }

  predicate Run(t: string, i: nat, end: nat, p: char -> bool) {
    i < end <= |t| && (forall k :: i <= k < end ==> p(t[k])) && (end < |t| ==> !p(t[end]))
  }

  // The first place after the opener at which the terminator stands.
  predicate TerminatesAt(t: string, terminator: string, open: nat, end: nat) {
    && |terminator| <= end && open <= end - |terminator| && Starts(t, end - |terminator|, terminator)
    && forall q :: open <= q < end - |terminator| ==> !Starts(t, q, terminator)
  }

  lemma RawStands(t: string, i: nat)
    requires i < |t|
    ensures Stands(t, i, RawString) <==> RawOpener(t, i).Some?
  {
    if RawOpener(t, i).Some? { RawOpenerIs(t, i, RawOpener(t, i).value.1, RawOpener(t, i).value.0); }
    if h: nat, open: nat :| RawStart(t, i, h, open) { RawOpenerIs(t, i, h, open); }
  }

  lemma StringStands(t: string, i: nat)
    requires i < |t|
    ensures Stands(t, i, StringLit) <==> StringAt(t, i).Some?
    ensures StringAt(t, i).Some? ==> Reaches(t, i, StringLit, StringAt(t, i).value.0)
  {
    StringBodyIs(t, BodyOf(t, i, {'b', 'c'}));
  }

  lemma CharStands(t: string, i: nat)
    requires i < |t|
    ensures Stands(t, i, CharLit) <==> CharAt(t, i).Some?
    ensures CharAt(t, i).Some? ==> Reaches(t, i, CharLit, CharAt(t, i).value.0)
  {
    var q := BodyOf(t, i, {'b'}) - 1;
    assert CharAt(t, i) == if Is(t, q, '\'') && CharBody(t, q).Some? then Some((CharBody(t, q).value, q + 1)) else None;
    if CharBody(t, q).Some? { CharBodyIs(t, q, CharBody(t, q).value); }
    if end: nat :| CharForm(t, q, end) { CharBodyIs(t, q, end); }
  }

  // What the reader of atoms decides by.
  lemma KindIs(t: string, i: nat)
    requires i < |t|
    ensures var a := ReadAtom(t, i);
      First(t, i, match a case Atom(u) => u.kind case OpenComment => BlockComment case OpenRawString => RawString)
  {
    RawStands(t, i);
    StringStands(t, i);
    CharStands(t, i);
  }

  lemma RawToIs(t: string, i: nat, open: nat, h: nat, end: nat)
    requires i < |t| && RawOpener(t, i) == Some((open, h))
    ensures RawTo(t, i, end) <==> TerminatesAt(t, ['"'] + t[h..open - 1], open, end)
  {
    RawOpenerIs(t, i, h, open);
    if RawTo(t, i, end) {
      var h': nat, open': nat :| RawStart(t, i, h', open') && TerminatesAt(t, ['"'] + t[h'..open' - 1], open', end);
      RawOpenerIs(t, i, h', open');
    }
  }

  lemma TerminatesIs(t: string, terminator: string, open: nat, end: nat)
    ensures TerminatesAt(t, terminator, open, end)
       <==> Find(t, terminator, open).Some? && end == Find(t, terminator, open).value + |terminator|
  {
    FindIs(t, terminator, open);
  }

  lemma RawReaches(t: string, i: nat, open: nat, h: nat, terminator: string)
    requires i < |t| && RawOpener(t, i) == Some((open, h)) && terminator == ['"'] + t[h..open - 1]
    ensures match Find(t, terminator, open)
      case Some(p) => RawTo(t, i, p + |terminator|)
      case None => forall end: nat :: !RawTo(t, i, end)
  {
    forall end: nat
      ensures RawTo(t, i, end) <==>
              Find(t, terminator, open).Some? && end == Find(t, terminator, open).value + |terminator|
    {
      RawToIs(t, i, open, h, end);
      TerminatesIs(t, terminator, open, end);
    }
  }

  lemma BlockReaches(t: string, i: nat)
    requires i + 2 <= |t|
    ensures match BlockEnd(t, i + 2, 1)
      case Some(end) => Reaches(t, i, BlockComment, end)
      case None => forall end: nat :: !Reaches(t, i, BlockComment, end)
  {
    var body := i + 2;
    forall end: nat ensures BlockEnd(t, body, 1) == Some(end) <==> Reaches(t, i, BlockComment, end) {
      BlockEndIs(t, body, 1, end);
    }
  }

  lemma LineReaches(t: string, i: nat)
    requires Starts(t, i, "//")
    ensures Reaches(t, i, LineComment, LineEnd(t, i + 2))
  {
    assert t[i..i + 2][0] == t[i] && t[i..i + 2][1] == t[i + 1];
  }

  lemma PlainReaches(t: string, i: nat)
    requires i < |t|
    ensures IsSpace(t[i]) ==> Reaches(t, i, Space, RunEnd(t, i + 1, IsSpace))
    ensures WordStart(t[i]) ==> Reaches(t, i, Word, RunEnd(t, i + 1, WordPart))
  {
  }

  // Where an atom ends.
  ghost predicate RightEnd(t: string, i: nat, a: Atom) {
    match a
    case Atom(u) => u.start == i && Reaches(t, i, u.kind, u.end)
    case OpenComment => forall end: nat :: !Reaches(t, i, BlockComment, end)
    case OpenRawString => forall end: nat :: !Reaches(t, i, RawString, end)
  }

  lemma CommentEnd(t: string, i: nat)
    requires i < |t| && (Starts(t, i, "//") || Starts(t, i, "/*"))
    ensures RightEnd(t, i, ReadAtom(t, i))
  {
    if Starts(t, i, "//") { LineReaches(t, i); } else { BlockReaches(t, i); }
  }

  lemma RawEnd(t: string, i: nat)
    requires i < |t| && !Starts(t, i, "//") && !Starts(t, i, "/*") && RawOpener(t, i).Some?
    ensures RightEnd(t, i, ReadAtom(t, i))
  {
    var (open, h) := RawOpener(t, i).value;
    var terminator := ['"'] + t[h..open - 1];
    RawReaches(t, i, open, h, terminator);
    RawRead(t, i, open, h, terminator);
  }

  lemma RawRead(t: string, i: nat, open: nat, h: nat, terminator: string)
    requires i < |t| && !Starts(t, i, "//") && !Starts(t, i, "/*") && RawOpener(t, i) == Some((open, h))
    requires terminator == ['"'] + t[h..open - 1]
    ensures ReadAtom(t, i) == match Find(t, terminator, open)
      case Some(p) => Atom(Unit(RawString, i, p + |terminator|))
      case None => OpenRawString
  {
  }

  lemma OtherEnd(t: string, i: nat)
    requires i < |t| && !Starts(t, i, "//") && !Starts(t, i, "/*") && RawOpener(t, i).None?
    ensures RightEnd(t, i, ReadAtom(t, i))
  {
    if StringAt(t, i).Some? {
      StringStands(t, i);
    } else if CharAt(t, i).Some? {
      CharStands(t, i);
    } else {
      PlainReaches(t, i);
    }
  }

  // Every atom is the first alternative of the pattern that stands at its place, as far as that reaches; a
  // text is refused for a block comment or a raw string that reaches no end.
  lemma AtomIs(t: string, i: nat)
    requires i < |t|
    ensures RightEnd(t, i, ReadAtom(t, i))
    ensures match ReadAtom(t, i)
      case Atom(u) => First(t, i, u.kind)
      case OpenComment => First(t, i, BlockComment)
      case OpenRawString => First(t, i, RawString)
  {
    KindIs(t, i);
    if Starts(t, i, "//") || Starts(t, i, "/*") {
      CommentEnd(t, i);
    } else if RawOpener(t, i).Some? {
      RawEnd(t, i);
    } else {
      OtherEnd(t, i);
    }
  }
}
