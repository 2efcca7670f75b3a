// The source guard's mask: comments and unconditionally test-only items become blanks, everything else
// stays where and what it was.
module RustMasker {
  import opened Prelude
  import opened RustLexer
  import opened RustItems
  import RustNesting

  datatype Range = Range(lo: nat, hi: nat)

  function TextOf(t: string, u: Unit): string {
    if u.start <= u.end <= |t| then t[u.start..u.end] else ""
  }

  function Tokens(units: seq<Unit>): seq<Unit> {
    if units == [] then []
    else Tokens(units[..|units| - 1]) + if IsToken(units[|units| - 1].kind) then [units[|units| - 1]] else []
  }

  function Comments(units: seq<Unit>): seq<Range> {
    if units == [] then []
    else
      var u := units[|units| - 1];
      Comments(units[..|units| - 1]) + if IsComment(u.kind) then [Range(u.start, u.end)] else []
  }

  function Classes(t: string, tokens: seq<Unit>): (v: seq<Class>)
    ensures |v| == |tokens|
  {
    seq(|tokens|, i requires 0 <= i < |tokens| => Classify(TextOf(t, tokens[i])))
  }

  // An item that lies inside a list of n tokens.
  predicate Fits(it: Item, n: nat) { it.first < it.stop <= n && (it.boundary ==> it.stop < n) }

  function ItemRange(tokens: seq<Unit>, it: Item): Range {
    if Fits(it, |tokens|) then
      Range(tokens[it.first].start, if it.boundary then tokens[it.stop].start else tokens[it.stop - 1].end)
    else Range(0, 0)
  }

  function ItemRanges(tokens: seq<Unit>, items: seq<Item>): seq<Range> {
    seq(|items|, k requires 0 <= k < |items| => ItemRange(tokens, items[k]))
  }

  datatype Failure = OpenCommentAt(offset: nat) | OpenRawStringAt(offset: nat) | BadItemAt(reason: Reason, offset: nat)

  datatype Masking = Mask(ranges: seq<Range>) | Refused(failure: Failure)

  function MaskFrom(comments: seq<Range>, tokens: seq<Unit>, r: Items): Masking {
    match r
    case Rejected(reason, at) => Refused(BadItemAt(reason, if at < |tokens| then tokens[at].start else 0))
    case Items(items) => Mask(comments + ItemRanges(tokens, items))
  }

  // What is masked in a text, or why it is refused.
  function MaskOf(t: string): Masking {
    match Lex(t)
    case BadComment(at) => Refused(OpenCommentAt(at))
    case BadRawString(at) => Refused(OpenRawStringAt(at))
    case Units(units) => MaskFrom(Comments(units), Tokens(units), ItemsFrom(Classes(t, Tokens(units)), 0))
  }

  predicate Covered(ranges: seq<Range>, p: int) {
    exists k :: 0 <= k < |ranges| && ranges[k].lo <= p < ranges[k].hi
  }

  // Covered characters other than newlines are blanked; nothing moves.
  function Masked(t: string, ranges: seq<Range>): (s: string)
    ensures |s| == |t|
  {
    seq(|t|, p requires 0 <= p < |t| => if Covered(ranges, p) && t[p] != '\n' then ' ' else t[p])
  }

  // ---------------------------------------------------------------------------
  // The pass as the source runs it: a cursor, a growing token list, and one text blanked in place
  // ---------------------------------------------------------------------------

  method Blank(masked: array<char>, start: nat, end: nat, ghost t: string, ghost ranges: seq<Range>)
    requires masked[..] == Masked(t, ranges)
    requires start <= end <= masked.Length
    modifies masked
    ensures masked[..] == Masked(t, ranges + [Range(start, end)])
  {
    ghost var was := masked[..];
    for index := start to end
      invariant forall p :: 0 <= p < masked.Length ==>
                  masked[p] == if start <= p < index && was[p] != '\n' then ' ' else was[p]
    {
      if masked[index] != '\n' { masked[index] := ' '; }
    }
    forall p | 0 <= p < |t| ensures masked[..][p] == Masked(t, ranges + [Range(start, end)])[p] {
      CoveredByOneMore(ranges, Range(start, end), p);
      assert was[p] == Masked(t, ranges)[p];
    }
  }

  lemma CoveredByOneMore(ranges: seq<Range>, r: Range, p: int)
    ensures Covered(ranges + [r], p) <==> Covered(ranges, p) || r.lo <= p < r.hi
  {
    var more := ranges + [r];
    assert more[|ranges|] == r;
    if Covered(ranges, p) {
      var k :| 0 <= k < |ranges| && ranges[k].lo <= p < ranges[k].hi;
      assert more[k] == ranges[k];
    }
    if Covered(more, p) {
      var k :| 0 <= k < |more| && more[k].lo <= p < more[k].hi;
      if k < |ranges| { assert more[k] == ranges[k]; }
    }
  }

  // The nested loop that walks over a block comment.
  method SkipBlockComment(t: string, start: nat) returns (end: nat, closed: bool)
    requires start <= |t|
    ensures closed <==> BlockEnd(t, start, 1).Some?
    ensures closed ==> BlockEnd(t, start, 1) == Some(end)
  {
    end := start;
    var depth := 1;
    while depth > 0 && end < |t|
      invariant start <= end <= |t| && BlockEnd(t, start, 1) == BlockEnd(t, end, depth)
      decreases |t| - end
    {
      if Starts(t, end, "/*") {
        depth, end := depth + 1, end + 2;
      } else if Starts(t, end, "*/") {
        depth, end := depth - 1, end + 2;
      } else {
        end := end + 1;
      }
    }
    closed := depth == 0;
  }

  // One atom: the pattern decides which kind stands here, and a block comment is then walked to its end.
  method NextAtom(t: string, cursor: nat) returns (atom: Atom)
    requires cursor < |t|
    ensures atom == ReadAtom(t, cursor)
  {
    if Starts(t, cursor, "/*") {
      var end, closed := SkipBlockComment(t, cursor + 2);
      return if closed then Atom(Unit(BlockComment, cursor, end)) else OpenComment;
    }
    return ReadAtom(t, cursor);
  }

  function Prepend(done: seq<Unit>, rest: Lexed): Lexed {
    if rest.Units? then Units(done + rest.units) else rest
  }

  lemma LexStep(t: string, cursor: nat, done: seq<Unit>, u: Unit)
    requires cursor < |t| && ReadAtom(t, cursor) == Atom(u)
    ensures cursor == u.start < u.end <= |t|
    ensures Prepend(done, LexFrom(t, cursor)) == Prepend(done + [u], LexFrom(t, u.end))
  {
    var rest := LexFrom(t, u.end);
    if rest.Units? { assert done + ([u] + rest.units) == (done + [u]) + rest.units; }
  }

  lemma OneMoreUnit(done: seq<Unit>, u: Unit)
    ensures Tokens(done + [u]) == if IsToken(u.kind) then Tokens(done) + [u] else Tokens(done)
    ensures Comments(done + [u])
         == if IsComment(u.kind) then Comments(done) + [Range(u.start, u.end)] else Comments(done)
  {
    assert (done + [u])[..|done|] == done;
  }

  // First pass: atoms become tokens, comments are blanked at once.
  method LexAndBlank(t: string, masked: array<char>)
    returns (tokens: seq<Unit>, failure: Option<Failure>, ghost units: seq<Unit>)
    requires masked[..] == t
    modifies masked
    ensures match Lex(t)
      case BadComment(at) => failure == Some(OpenCommentAt(at))
      case BadRawString(at) => failure == Some(OpenRawStringAt(at))
      case Units(all) =>
        failure.None? && units == all && tokens == Tokens(all) && masked[..] == Masked(t, Comments(all))
  {
    tokens, failure, units := [], None, [];
    var cursor := 0;
    assert Masked(t, []) == t;
    while cursor < |t|
      invariant cursor <= |t| && masked.Length == |t|
      invariant Lex(t) == Prepend(units, LexFrom(t, cursor))
      invariant tokens == Tokens(units) && masked[..] == Masked(t, Comments(units))
      decreases |t| - cursor
    {
      var atom := NextAtom(t, cursor);
      if atom.OpenComment? {
        failure := Some(OpenCommentAt(cursor));
        return;
      }
      if atom.OpenRawString? {
        failure := Some(OpenRawStringAt(cursor));
        return;
      }
      var unit := atom.unit;
      LexStep(t, cursor, units, unit);
      OneMoreUnit(units, unit);
      if IsComment(unit.kind) {
        Blank(masked, unit.start, unit.end, t, Comments(units));
      } else if unit.kind != Space {
        tokens := tokens + [unit];
      }
      units := units + [unit];
      cursor := unit.end;
    }
    assert units + [] == units;
  }

  function PrependItems(done: seq<Item>, rest: Items): Items {
    if rest.Items? then Items(done + rest.items) else rest
  }

  lemma ConsIsPrepend(done: seq<Item>, it: Item, rest: Items)
    ensures PrependItems(done, Cons(it, rest)) == PrependItems(done + [it], rest)
  {
    if rest.Items? { assert done + ([it] + rest.items) == (done + [it]) + rest.items; }
  }

  lemma OneMoreItem(tokens: seq<Unit>, comments: seq<Range>, items: seq<Item>, it: Item)
    ensures comments + ItemRanges(tokens, items + [it])
         == (comments + ItemRanges(tokens, items)) + [ItemRange(tokens, it)]
  {
  }

  lemma ItemInText(tokens: seq<Unit>, n: nat, it: Item)
    requires Ordered(tokens, n) && Fits(it, |tokens|)
    ensures ItemRange(tokens, it).lo < ItemRange(tokens, it).hi <= n
  {
    if it.boundary {
      assert tokens[it.first].end <= tokens[it.stop].start;
    } else if it.first < it.stop - 1 {
      assert tokens[it.first].end <= tokens[it.stop - 1].start;
    }
  }

  // One after the other inside a text of length n.
  predicate Ordered(units: seq<Unit>, n: nat) {
    && (forall i :: 0 <= i < |units| ==> units[i].start < units[i].end <= n)
    && (forall i, j :: 0 <= i < j < |units| ==> units[i].end <= units[j].start)
  }

  // Second pass: find each test-only item and blank it.
  method BlankItems(t: string, tokens: seq<Unit>, masked: array<char>, ghost comments: seq<Range>)
    returns (failure: Option<Failure>)
    requires Ordered(tokens, |t|) && masked[..] == Masked(t, comments)
    modifies masked
    ensures match ItemsFrom(Classes(t, tokens), 0)
      case Rejected(reason, at) => failure == Some(BadItemAt(reason, if at < |tokens| then tokens[at].start else 0))
      case Items(items) => failure.None? && masked[..] == Masked(t, comments + ItemRanges(tokens, items))
  {
    failure := None;
    var v := Classes(t, tokens);
    ghost var items: seq<Item> := [];
    var index := 0;
    assert comments + ItemRanges(tokens, []) == comments;
    while index < |tokens|
      invariant index <= |tokens| && ItemsFrom(v, 0) == PrependItems(items, ItemsFrom(v, index))
      invariant masked.Length == |t| && masked[..] == Masked(t, comments + ItemRanges(tokens, items))
      decreases |tokens| - index
    {
      var found := FindItem(v, index);
      match found
      case Skip(next) => index := next;
      case Bad(reason, at) =>
        failure := Some(BadItemAt(reason, tokens[at].start));
        return;
      case Hit(it) =>
        ConsIsPrepend(items, it, ItemsFrom(v, it.stop));
        OneMoreItem(tokens, comments, items, it);
        ItemInText(tokens, |t|, it);
        var range := ItemRange(tokens, it);
        Blank(masked, range.lo, range.hi, t, comments + ItemRanges(tokens, items));
        items := items + [it];
        index := it.stop;
    }
    assert items + [] == items;
  }

  datatype Production = Text(text: string) | Failed(failure: Failure)

  method ProductionRustText(t: string) returns (r: Production)
    ensures match MaskOf(t)
      case Mask(ranges) => r == Text(Masked(t, ranges))
      case Refused(failure) => r == Failed(failure)
  {
    var masked := new char[|t|](i requires 0 <= i < |t| => t[i]);
    assert masked[..] == t;
    var tokens, failure, units := LexAndBlank(t, masked);
    if failure.Some? { return Failed(failure.value); }
    TokensAreOrdered(t);
    failure := BlankItems(t, tokens, masked, Comments(units));
    if failure.Some? { return Failed(failure.value); }
    return Text(masked[..]);
  }

  // ---------------------------------------------------------------------------
  // Tokens and comments as parts of the text
  // ---------------------------------------------------------------------------

  lemma {:induction false} TokensAreUnits(units: seq<Unit>, u: Unit)
    requires u in Tokens(units)
    ensures u in units && IsToken(u.kind)
  {
    var front, last := units[..|units| - 1], units[|units| - 1];
    if u in Tokens(front) {
      TokensAreUnits(front, u);
    }
    assert units == front + [last];
  }

  lemma {:induction false} TokensFrom(units: seq<Unit>, n: nat)
    requires Ordered(units, n)
    ensures Ordered(Tokens(units), n)
  {
    if units != [] {
      var front, last := units[..|units| - 1], units[|units| - 1];
      TokensFrom(front, n);
      forall u | u in Tokens(front) ensures u.end <= last.start {
        TokensAreUnits(front, u);
        var k :| 0 <= k < |front| && front[k] == u;
        assert units[k] == u;
      }
      assert last.start < last.end <= n;
      OrderedAppend(Tokens(front), last, n);
    }
  }

  lemma OrderedAppend(units: seq<Unit>, u: Unit, n: nat)
    requires Ordered(units, n) && u.start < u.end <= n && forall v :: v in units ==> v.end <= u.start
    ensures Ordered(units + [u], n)
  {
  }

  lemma UnitsAreOrdered(t: string)
    requires Lex(t).Units?
    ensures Ordered(Lex(t).units, |t|)
  {
    LexTiles(t, 0);
    var units := Lex(t).units;
    forall i | 0 <= i < |units| ensures units[i].start < units[i].end <= |t| { TilesBounds(units, 0, |t|, i); }
    forall i, j | 0 <= i < j < |units| ensures units[i].end <= units[j].start { TilesInOrder(units, 0, |t|, i, j); }
  }

  lemma TokensAreOrdered(t: string)
    requires Lex(t).Units?
    ensures Ordered(Tokens(Lex(t).units), |t|)
  {
    UnitsAreOrdered(t);
    TokensFrom(Lex(t).units, |t|);
  }

  // ---------------------------------------------------------------------------
  // Nested sources
  // ---------------------------------------------------------------------------

  // The delimiters of the text's tokens are properly nested.
  predicate NestedSource(t: string) {
    Lex(t).Units? && RustNesting.Nested(Classes(t, Tokens(Lex(t).units)))
  }

  // A nested source is never refused for an unbalanced item, and what its mask leaves is nested.
  lemma NestedSourceStaysNested(t: string)
    requires NestedSource(t)
    ensures MaskOf(t).Refused? ==> MaskOf(t).failure.BadItemAt? && MaskOf(t).failure.reason != UnbalancedItem
    ensures MaskOf(t).Mask? ==>
      var v := Classes(t, Tokens(Lex(t).units));
      && ItemsFrom(v, 0).Items? && RustNesting.InOrder(ItemsFrom(v, 0).items, 0, |v|)
      && RustNesting.Nested(RustNesting.Survivors(v, ItemsFrom(v, 0).items, 0))
  {
    var v := Classes(t, Tokens(Lex(t).units));
    RustNesting.MaskedItemsAreNested(v, 0);
    if ItemsFrom(v, 0).Items? { RustNesting.SurvivorsAreNested(v); }
  }
}
