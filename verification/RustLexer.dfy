// The lexer of the source guard: comments, strings, raw strings and character literals are atomic, so
// nothing inside them is read as syntax.
module RustLexer {
  import opened Prelude

  datatype Kind = LineComment | BlockComment | RawString | StringLit | CharLit | Space | Word | Symbol

  // text[start..end], read as one atom.
  datatype Unit = Unit(kind: Kind, start: nat, end: nat)

  predicate IsComment(k: Kind) { k.LineComment? || k.BlockComment? }
  predicate IsLiteral(k: Kind) { k.RawString? || k.StringLit? || k.CharLit? }
  predicate IsToken(k: Kind) { !IsComment(k) && !k.Space? }

  // ---------------------------------------------------------------------------
  // Character classes
  // ---------------------------------------------------------------------------

  // Python's str.isspace, which is also what \s matches.
  predicate IsSpace(c: char) {
    '\t' <= c <= '\r' || '\U{1C}' <= c <= ' ' || c == '\U{85}' || c == '\U{A0}' || c == '\U{1680}'
    || '\U{2000}' <= c <= '\U{200A}' || c == '\U{2028}' || c == '\U{2029}' || c == '\U{202F}'
    || c == '\U{205F}' || c == '\U{3000}'
  }

  predicate WordStart(c: char) { 'A' <= c <= 'Z' || 'a' <= c <= 'z' || c == '_' }
  predicate WordPart(c: char) { WordStart(c) || '0' <= c <= '9' }
  predicate HexOrUnderscore(c: char) { '0' <= c <= '9' || 'a' <= c <= 'f' || 'A' <= c <= 'F' || c == '_' }
  predicate Hex(c: char) { HexOrUnderscore(c) && c != '_' }

  predicate Starts(t: string, i: nat, s: string) {
    i + |s| <= |t| && t[i..i + |s|] == s
  }

  // The character at i, if there is one, is c.
  predicate Is(t: string, i: nat, c: char) { i < |t| && t[i] == c }

  // ---------------------------------------------------------------------------
  // The alternatives of the atom pattern, each with its end
  // ---------------------------------------------------------------------------

  function RunEnd(t: string, i: nat, p: char -> bool): (j: nat)
    requires i <= |t|
    ensures i <= j <= |t| && forall k :: i <= k < j ==> p(t[k])
    ensures j < |t| ==> !p(t[j])
    decreases |t| - i
  {
    if i < |t| && p(t[i]) then RunEnd(t, i + 1, p) else i
  }

  function LineEnd(t: string, i: nat): (j: nat)
    requires i <= |t|
    ensures i <= j <= |t| && (j < |t| ==> t[j] == '\n')
  {
    RunEnd(t, i, c => c != '\n')
  }

  // Up to 255 hashes and a quote: the position after the quote.
  function HashesAndQuote(t: string, i: nat): (r: Option<nat>)
    requires i <= |t|
    ensures r.Some? ==> i < r.value <= |t| && t[r.value - 1] == '"' && forall k :: i <= k < r.value - 1 ==> t[k] == '#'
  {
    var j := RunEnd(t, i, c => c == '#');
    if j - i <= 255 && Is(t, j, '"') then Some(j + 1) else None
  }

  // The raw-string opener: the position after its quote, and where its hashes start.
  function RawOpener(t: string, i: nat): (r: Option<(nat, nat)>)
    requires i < |t|
    ensures r.Some? ==> i < r.value.1 < r.value.0 <= |t| && t[r.value.0 - 1] == '"'
    ensures r.Some? ==> t[i] == 'b' || t[i] == 'c' || t[i] == 'r'
  {
    var hashes := if Starts(t, i, "br") || Starts(t, i, "cr") then i + 2 else if t[i] == 'r' then i + 1 else 0;
    if hashes == 0 then None else
      var open :- HashesAndQuote(t, hashes);
      Some((open, hashes))
  }

  function Find(t: string, pattern: string, i: nat): (r: Option<nat>)
    ensures r.Some? ==> i <= r.value && Starts(t, r.value, pattern)
    decreases |t| - i
  {
    if i + |pattern| > |t| then None
    else if Starts(t, i, pattern) then Some(i)
    else Find(t, pattern, i + 1)
  }

  // The end of a string body that starts at i, if it has one.
  function StringBody(t: string, i: nat): (r: Option<nat>)
    ensures r.Some? ==> i < r.value <= |t| && t[r.value - 1] == '"'
    decreases |t| - i
  {
    if i >= |t| then None
    else if t[i] == '"' then Some(i + 1)
    else if t[i] == '\\' then (if i + 1 < |t| then StringBody(t, i + 2) else None)
    else StringBody(t, i + 1)
  }

  // A string literal at i, with its optional prefix: its end and the position after its opening quote.
  function StringAt(t: string, i: nat): (r: Option<(nat, nat)>)
    requires i < |t|
    ensures r.Some? ==> i < r.value.1 < r.value.0 <= |t| && t[r.value.1 - 1] == '"'
    ensures r.Some? ==> t[i] == 'b' || t[i] == 'c' || t[i] == '"'
  {
    var quote := if t[i] == 'b' || t[i] == 'c' then i + 1 else i;
    if Is(t, quote, '"') then
      var end :- StringBody(t, quote + 1);
      Some((end, quote + 1))
    else None
  }

  // A character literal whose opening quote is at i.
  function CharBody(t: string, i: nat): (r: Option<nat>)
    ensures r.Some? ==> i + 2 < r.value <= |t|
  {
    if i + 2 >= |t| then None
    else if t[i + 1] == '\\' then
      var brace := if Starts(t, i + 2, "u{") then RunEnd(t, i + 4, HexOrUnderscore) else 0;
      if brace > i + 4 && Starts(t, brace, "}'") then Some(brace + 2)
      else if i + 5 < |t| && t[i + 2] == 'x' && Hex(t[i + 3]) && Hex(t[i + 4]) && t[i + 5] == '\'' then Some(i + 6)
      else if Is(t, i + 3, '\'') then Some(i + 4)
      else None
    else if t[i + 1] != '\'' && t[i + 2] == '\'' then Some(i + 3)
    else None
  }

  function CharAt(t: string, i: nat): (r: Option<(nat, nat)>)
    requires i < |t|
    ensures r.Some? ==> i < r.value.1 < r.value.0 <= |t| && t[r.value.1 - 1] == '\'' && (t[i] == 'b' || t[i] == '\'')
  {
    var quote := if t[i] == 'b' then i + 1 else i;
    if Is(t, quote, '\'') then
      var end :- CharBody(t, quote);
      Some((end, quote + 1))
    else None
  }

  // The end of a block comment read at i with `depth` comments open.
  function BlockEnd(t: string, i: nat, depth: nat): (r: Option<nat>)
    ensures r.Some? && depth > 0 ==> i + 2 <= r.value <= |t| && t[r.value - 1] == '/'
    ensures depth == 0 ==> r == Some(i)
    decreases |t| - i
  {
    if depth == 0 then Some(i)
    else if i >= |t| then None
    else if Starts(t, i, "/*") then BlockEnd(t, i + 2, depth + 1)
    else if Starts(t, i, "*/") then
      assert t[i..i + 2][1] == t[i + 1];
      BlockEnd(t, i + 2, depth - 1)
    else BlockEnd(t, i + 1, depth)
  }

  // ---------------------------------------------------------------------------
  // One atom
  // ---------------------------------------------------------------------------

  datatype Atom = Atom(unit: Unit) | OpenComment | OpenRawString

  function ReadAtom(t: string, i: nat): (a: Atom)
    requires i < |t|
    ensures a.Atom? ==> a.unit.start == i < a.unit.end <= |t|
    ensures a.Atom? && IsComment(a.unit.kind) ==> a.unit.end >= i + 2 && t[i] == '/'
    ensures a.Atom? && a.unit.kind == LineComment && a.unit.end < |t| ==> t[a.unit.end] == '\n'
    ensures a.Atom? && a.unit.kind == BlockComment ==> t[a.unit.end - 1] == '/'
  {
    if Starts(t, i, "//") then
      var end := LineEnd(t, i + 2);
      Atom(Unit(LineComment, i, end))
    else if Starts(t, i, "/*") then
      (match BlockEnd(t, i + 2, 1)
       case Some(end) => Atom(Unit(BlockComment, i, end))
       case None => OpenComment)
    else if RawOpener(t, i).Some? then
      var (open, hashes) := RawOpener(t, i).value;
      var terminator := ['"'] + t[hashes..open - 1];
      (match Find(t, terminator, open)
       case Some(closing) => Atom(Unit(RawString, i, closing + |terminator|))
       case None => OpenRawString)
    else if StringAt(t, i).Some? then Atom(Unit(StringLit, i, StringAt(t, i).value.0))
    else if CharAt(t, i).Some? then Atom(Unit(CharLit, i, CharAt(t, i).value.0))
    else if IsSpace(t[i]) then Atom(Unit(Space, i, RunEnd(t, i + 1, IsSpace)))
    else if WordStart(t[i]) then Atom(Unit(Word, i, RunEnd(t, i + 1, WordPart)))
    else Atom(Unit(Symbol, i, i + 1))
  }

  // ---------------------------------------------------------------------------
  // The whole text
  // ---------------------------------------------------------------------------

  datatype Lexed = Units(units: seq<Unit>) | BadComment(at: nat) | BadRawString(at: nat)

  // The atoms from i to the end of the text.
  function LexFrom(t: string, i: nat): Lexed
    requires i <= |t|
    decreases |t| - i
  {
    if i == |t| then Units([])
    else
      match ReadAtom(t, i)
      case OpenComment => BadComment(i)
      case OpenRawString => BadRawString(i)
      case Atom(u) =>
        match LexFrom(t, u.end)
        case Units(rest) => Units([u] + rest)
        case failed => failed
  }

  function Lex(t: string): Lexed { LexFrom(t, 0) }

  // The unit is what the lexer reads where it starts.
  predicate IsAtom(t: string, u: Unit) { u.start < |t| && ReadAtom(t, u.start) == Atom(u) }

  // Back to back, nonempty, from one position to another.
  predicate Tiles(units: seq<Unit>, from: nat, to: nat) {
    if units == [] then from == to
    else units[0].start == from && from < units[0].end && Tiles(units[1..], units[0].end, to)
  }

  // The lexer terminates on every text and, where it does not refuse, tiles all of it; every unit is
  // the atom that stands at its start.
  lemma {:induction false} LexTiles(t: string, i: nat)
    requires i <= |t| && LexFrom(t, i).Units?
    ensures Tiles(LexFrom(t, i).units, i, |t|)
    ensures forall k :: 0 <= k < |LexFrom(t, i).units| ==>
              IsAtom(t, LexFrom(t, i).units[k])
    decreases |t| - i
  {
    if i < |t| {
      var u := ReadAtom(t, i).unit;
      LexTiles(t, u.end);
      var rest := LexFrom(t, u.end).units;
      assert LexFrom(t, i).units == [u] + rest;
      assert ([u] + rest)[1..] == rest;
      forall k | 0 <= k < |LexFrom(t, i).units| ensures IsAtom(t, LexFrom(t, i).units[k]) {
        if k > 0 { assert LexFrom(t, i).units[k] == rest[k - 1]; }
      }
    }
  }

  // Tiling, read by index: units are in order and do not overlap.
  lemma {:induction false} TilesInOrder(units: seq<Unit>, from: nat, to: nat, i: nat, j: nat)
    requires Tiles(units, from, to) && i < j < |units|
    ensures from <= units[i].start < units[i].end <= units[j].start < units[j].end <= to
  {
    if i == 0 {
      if j > 1 {
        TilesInOrder(units[1..], units[0].end, to, 0, j - 1);
      } else {
        TilesBounds(units[1..], units[0].end, to, 0);
      }
    } else {
      TilesInOrder(units[1..], units[0].end, to, i - 1, j - 1);
    }
  }

  lemma {:induction false} TilesBounds(units: seq<Unit>, from: nat, to: nat, i: nat)
    requires Tiles(units, from, to) && i < |units|
    ensures from <= units[i].start < units[i].end <= to
  {
    if i > 0 {
      TilesBounds(units[1..], units[0].end, to, i - 1);
    } else {
      TilesReach(units[1..], units[0].end, to);
    }
  }

  lemma {:induction false} TilesReach(units: seq<Unit>, from: nat, to: nat)
    requires Tiles(units, from, to)
    ensures from <= to
  {
    if units != [] { TilesReach(units[1..], units[0].end, to); }
  }
}
