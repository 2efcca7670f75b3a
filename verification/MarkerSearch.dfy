// The search for removed markers, and what masking means for it.
module MarkerSearch {
  import opened RustLexer
  import opened RustItems
  import opened RustMasker

  // Python's \w: any set of characters that, among the ASCII ones, holds letters, digits and '_'.
  ghost predicate WordClass(word: char -> bool) {
    forall c: char :: c as int < 128 ==> (word(c) <==> WordPart(c))
  }

  predicate IsIdentifier(m: string) {
    m != [] && WordStart(m[0]) && forall i :: 0 <= i < |m| ==> WordPart(m[i])
  }

  // m stands at p as a complete token.
  predicate WholeToken(word: char -> bool, text: string, m: string, p: nat) {
    && Starts(text, p, m)
    && (p == 0 || !word(text[p - 1]))
    && (p + |m| == |text| || !word(text[p + |m|]))
  }

  // How a marker is looked for: identifiers as complete tokens, anything else as plain text.
  predicate OccursAt(word: char -> bool, text: string, m: string, p: nat) {
    if IsIdentifier(m) then WholeToken(word, text, m, p) else Starts(text, p, m)
  }

  predicate Present(word: char -> bool, text: string, m: string) {
    exists p :: 0 <= p <= |text| && OccursAt(word, text, m, p)
  }

  function PresentOf(word: char -> bool, text: string, markers: seq<string>): seq<string> {
    if markers == [] then []
    else PresentOf(word, text, markers[..|markers| - 1])
         + if Present(word, text, markers[|markers| - 1]) then [markers[|markers| - 1]] else []
  }

  // The markers found are the markers present, in the order they were listed.
  method FindMarkers(word: char -> bool, text: string, markers: seq<string>) returns (found: seq<string>)
    ensures found == PresentOf(word, text, markers)
    ensures forall m :: m in found <==> m in markers && Present(word, text, m)
  {
    found := [];
    for i := 0 to |markers|
      invariant found == PresentOf(word, text, markers[..i])
      invariant forall m :: m in found <==> m in markers[..i] && Present(word, text, m)
    {
      assert markers[..i + 1] == markers[..i] + [markers[i]];
      assert markers[..i + 1][..i] == markers[..i];
      if Present(word, text, markers[i]) {
        found := found + [markers[i]];
      }
    }
    assert markers[..|markers|] == markers;
  }

  // ---------------------------------------------------------------------------
  // The edges of what is masked
  // ---------------------------------------------------------------------------

  predicate ClosingChar(c: char) { c == ')' || c == ']' || c == '}' }

  // A masked range starts with a '/' or '#', and ends with punctuation, before a newline, before a
  // closing delimiter, or with the text.
  predicate Edges(t: string, r: Range) {
    && r.lo < r.hi <= |t|
    && (t[r.lo] == '/' || t[r.lo] == '#')
    && (|| r.hi == |t| || t[r.hi] == '\n' || ClosingChar(t[r.hi])
        || t[r.hi - 1] == '/' || t[r.hi - 1] == ';' || t[r.hi - 1] == ',' || ClosingChar(t[r.hi - 1]))
  }

  lemma CommentUnitEdges(t: string, u: Unit)
    requires IsAtom(t, u) && IsComment(u.kind)
    ensures Edges(t, Range(u.start, u.end))
  {
  }

  lemma {:induction false} CommentsAreUnits(units: seq<Unit>, k: nat) returns (u: Unit)
    requires k < |Comments(units)|
    ensures u in units && IsComment(u.kind) && Comments(units)[k] == Range(u.start, u.end)
  {
    var front, last := units[..|units| - 1], units[|units| - 1];
    assert units == front + [last];
    if k < |Comments(front)| {
      u := CommentsAreUnits(front, k);
    } else {
      u := last;
    }
  }

  lemma AllCommentEdges(t: string, k: nat)
    requires Lex(t).Units? && k < |Comments(Lex(t).units)|
    ensures Edges(t, Comments(Lex(t).units)[k])
  {
    LexTiles(t, 0);
    var u := CommentsAreUnits(Lex(t).units, k);
    CommentUnitEdges(t, u);
  }

  // What is known of every item that is masked.
  predicate Shaped(v: seq<Class>, it: Item) {
    && Fits(it, |v|) && v[it.first] == Hash
    && (it.boundary ==> Closer(v[it.stop]))
    && (!it.boundary ==> Closer(v[it.stop - 1]) || v[it.stop - 1] == Semi || v[it.stop - 1] == Comma)
  }

  lemma {:induction false} ItemsAreShaped(v: seq<Class>, i: nat)
    requires i <= |v| && ItemsFrom(v, i).Items?
    ensures forall k :: 0 <= k < |ItemsFrom(v, i).items| ==> Shaped(v, ItemsFrom(v, i).items[k])
    decreases |v| - i
  {
    if i < |v| {
      match ItemAt(v, i)
      case Skip(next) => ItemsAreShaped(v, next);
      case Hit(item) => ItemsAreShaped(v, item.stop);
    }
  }

  // What the class of a token says about its text.
  predicate Spells(t: string, u: Unit, c: Class) {
    && u.start < u.end <= |t|
    && (c == Hash ==> t[u.start] == '#')
    && (Closer(c) ==> ClosingChar(t[u.start]) && ClosingChar(t[u.end - 1]))
    && (c == Semi ==> t[u.end - 1] == ';')
    && (c == Comma ==> t[u.end - 1] == ',')
  }

  lemma ClassSpells(t: string, u: Unit)
    requires u.start < u.end <= |t|
    ensures Spells(t, u, Classify(TextOf(t, u)))
  {
    var s := TextOf(t, u);
    assert s[0] == t[u.start] && s[|s| - 1] == t[u.end - 1];
  }

  lemma ItemEdges(t: string, tokens: seq<Unit>, v: seq<Class>, it: Item)
    requires Ordered(tokens, |t|) && |v| == |tokens| && Shaped(v, it)
    requires forall i :: 0 <= i < |tokens| ==> Spells(t, tokens[i], v[i])
    ensures Edges(t, ItemRange(tokens, it))
  {
    ItemInText(tokens, |t|, it);
    assert Spells(t, tokens[it.first], v[it.first]);
    if it.boundary {
      assert Spells(t, tokens[it.stop], v[it.stop]);
    } else {
      assert Spells(t, tokens[it.stop - 1], v[it.stop - 1]);
    }
  }

  lemma AllItemEdges(t: string, tokens: seq<Unit>, k: nat)
    requires Ordered(tokens, |t|) && ItemsFrom(Classes(t, tokens), 0).Items?
    requires k < |ItemsFrom(Classes(t, tokens), 0).items|
    ensures Edges(t, ItemRange(tokens, ItemsFrom(Classes(t, tokens), 0).items[k]))
  {
    var v := Classes(t, tokens);
    ItemsAreShaped(v, 0);
    forall i | 0 <= i < |tokens| ensures Spells(t, tokens[i], v[i]) { ClassSpells(t, tokens[i]); }
    ItemEdges(t, tokens, v, ItemsFrom(v, 0).items[k]);
  }

  lemma RangesHaveEdges(t: string, comments: seq<Range>, tokens: seq<Unit>, items: seq<Item>, k: nat)
    requires forall i :: 0 <= i < |comments| ==> Edges(t, comments[i])
    requires forall i :: 0 <= i < |items| ==> Edges(t, ItemRange(tokens, items[i]))
    requires k < |comments| + |items|
    ensures Edges(t, MaskFrom(comments, tokens, Items(items)).ranges[k])
  {
    if k >= |comments| { assert Edges(t, ItemRange(tokens, items[k - |comments|])); }
  }

  lemma MaskEdges(t: string, k: nat)
    requires MaskOf(t).Mask? && k < |MaskOf(t).ranges|
    ensures Edges(t, MaskOf(t).ranges[k])
  {
    var comments, tokens := Comments(Lex(t).units), Tokens(Lex(t).units);
    var items := ItemsFrom(Classes(t, tokens), 0).items;
    forall i | 0 <= i < |comments| ensures Edges(t, comments[i]) { AllCommentEdges(t, i); }
    TokensAreOrdered(t);
    forall i | 0 <= i < |items| ensures Edges(t, ItemRange(tokens, items[i])) { AllItemEdges(t, tokens, i); }
    RangesHaveEdges(t, comments, tokens, items, k);
  }

  // ---------------------------------------------------------------------------
  // Searching the masked text
  // ---------------------------------------------------------------------------

  predicate Clear(ranges: seq<Range>, a: nat, b: nat) {
    forall q :: a <= q < b ==> !Covered(ranges, q)
  }

  // Masking keeps the length and every newline, and every character is kept or becomes a blank; it is
  // kept wherever nothing covers it.
  lemma MaskKeepsShape(t: string, ranges: seq<Range>, p: nat)
    requires p < |t|
    ensures |Masked(t, ranges)| == |t|
    ensures Masked(t, ranges)[p] == '\n' <==> t[p] == '\n'
    ensures Masked(t, ranges)[p] == t[p] || (Covered(ranges, p) && Masked(t, ranges)[p] == ' ')
  {
  }

  predicate Edged(t: string, ranges: seq<Range>) {
    forall k :: 0 <= k < |ranges| ==> Edges(t, ranges[k])
  }

  // No word character stands at the edge of a masked range.
  lemma NoWordBefore(word: char -> bool, t: string, ranges: seq<Range>, p: nat)
    requires WordClass(word) && Edged(t, ranges) && 0 < p < |t| && WordPart(t[p])
    requires Covered(ranges, p - 1) && !Covered(ranges, p)
    ensures !word(t[p - 1])
  {
    var k :| 0 <= k < |ranges| && ranges[k].lo <= p - 1 < ranges[k].hi;
    assert Edges(t, ranges[k]) && ranges[k].hi == p;
  }

  lemma NoWordAfter(word: char -> bool, t: string, ranges: seq<Range>, p: nat)
    requires WordClass(word) && Edged(t, ranges) && 0 < p < |t|
    requires !Covered(ranges, p - 1) && Covered(ranges, p)
    ensures !word(t[p])
  {
    var k :| 0 <= k < |ranges| && ranges[k].lo <= p < ranges[k].hi;
    assert Edges(t, ranges[k]) && ranges[k].lo == p;
  }

  lemma SameTextWhereClear(t: string, ranges: seq<Range>, m: string, p: nat)
    requires ' ' !in m && '\n' !in m
    ensures Starts(Masked(t, ranges), p, m) <==> Starts(t, p, m) && Clear(ranges, p, p + |m|)
  {
    var masked := Masked(t, ranges);
    if Starts(masked, p, m) {
      forall q | p <= q < p + |m| ensures !Covered(ranges, q) && t[q] == m[q - p] {
        assert masked[q] == masked[p..p + |m|][q - p] == m[q - p];
        assert m[q - p] in m;
      }
      assert t[p..p + |m|] == m;
    }
    if Starts(t, p, m) && Clear(ranges, p, p + |m|) {
      forall q | p <= q < p + |m| ensures masked[q] == m[q - p] {
        assert t[q] == t[p..p + |m|][q - p];
      }
      assert masked[p..p + |m|] == m;
    }
  }

  // The characters next to an unmasked stretch of word characters are word characters in the masked
  // text exactly when they are in the original.
  lemma SameNeighbours(word: char -> bool, t: string, ranges: seq<Range>, p: nat, end: nat)
    requires WordClass(word) && Edged(t, ranges) && p < end <= |t| && WordPart(t[p])
    requires !Covered(ranges, p) && !Covered(ranges, end - 1)
    ensures p > 0 ==> word(Masked(t, ranges)[p - 1]) == word(t[p - 1])
    ensures end < |t| ==> word(Masked(t, ranges)[end]) == word(t[end])
  {
    assert !word(' ') && !word('\n');
    if p > 0 && Covered(ranges, p - 1) { NoWordBefore(word, t, ranges, p); }
    if end < |t| && Covered(ranges, end) { NoWordAfter(word, t, ranges, end); }
  }

  // A marker is found at a place of the masked text exactly when it stands there in the original and
  // none of it is masked.
  lemma FoundExactlyOutside(word: char -> bool, t: string, ranges: seq<Range>, m: string, p: nat)
    requires WordClass(word) && Edged(t, ranges) && m != [] && ' ' !in m && '\n' !in m
    ensures OccursAt(word, Masked(t, ranges), m, p) <==> OccursAt(word, t, m, p) && Clear(ranges, p, p + |m|)
  {
    SameTextWhereClear(t, ranges, m, p);
    if IsIdentifier(m) && Starts(t, p, m) && Clear(ranges, p, p + |m|) {
      assert t[p] == t[p..p + |m|][0] == m[0];
      assert WordPart(m[0]);
      SameNeighbours(word, t, ranges, p, p + |m|);
    }
  }

  // Searching the production text reports a marker exactly when some occurrence in the original lies
  // outside everything that is masked: masking invents none and loses none.
  lemma MarkersOutsideTheMask(word: char -> bool, t: string, m: string)
    requires WordClass(word) && MaskOf(t).Mask? && m != [] && ' ' !in m && '\n' !in m
    ensures var ranges := MaskOf(t).ranges;
      Present(word, Masked(t, ranges), m)
      <==> exists p :: 0 <= p <= |t| && OccursAt(word, t, m, p) && Clear(ranges, p, p + |m|)
  {
    var ranges := MaskOf(t).ranges;
    forall k | 0 <= k < |ranges| ensures Edges(t, ranges[k]) { MaskEdges(t, k); }
    forall p: nat {
      FoundExactlyOutside(word, t, ranges, m, p);
    }
  }
}
