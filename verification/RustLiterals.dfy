// What stands inside a literal cannot change what is masked.
module RustLiterals {
  import opened RustLexer
  import opened RustItems
  import opened RustMasker

  // The position after a literal's opening quote.
  function OpeningEnd(t: string, u: Unit): nat {
    if u.start >= |t| then 0
    else if u.kind.RawString? && RawOpener(t, u.start).Some? then RawOpener(t, u.start).value.0
    else if u.kind.StringLit? && StringAt(t, u.start).Some? then StringAt(t, u.start).value.1
    else if u.kind.CharLit? && CharAt(t, u.start).Some? then CharAt(t, u.start).value.1
    else 0
  }

  // Two texts agree on a stretch.
  predicate Agree(t: string, w: string, from: nat, end: nat) {
    from <= end <= |t| && end <= |w| && t[from..end] == w[from..end]
  }

  // The texts agree on a unit, up to what a literal holds after its opening quote.
  predicate SameUnit(t: string, w: string, u: Unit) {
    if IsLiteral(u.kind) then Agree(t, w, u.start, OpeningEnd(t, u)) else Agree(t, w, u.start, u.end)
  }

  // Both texts lex into units at the same places, and agree on each.
  predicate SameButLiterals(t: string, w: string) {
    && Lex(t).Units? && Lex(w).Units?
    && |t| == |w| && |Lex(t).units| == |Lex(w).units|
    && forall i :: 0 <= i < |Lex(t).units| ==>
         && Lex(t).units[i].start == Lex(w).units[i].start
         && Lex(t).units[i].end == Lex(w).units[i].end
         && SameUnit(t, w, Lex(t).units[i])
  }

  // ---------------------------------------------------------------------------
  // One unit
  // ---------------------------------------------------------------------------

  predicate SlashStart(t: string, i: nat) { Starts(t, i, "//") || Starts(t, i, "/*") }

  // A unit is a comment exactly when it is two characters long or more and starts like one, and
  // space exactly when it starts with space.
  lemma KindByStart(t: string, u: Unit)
    requires IsAtom(t, u)
    ensures IsComment(u.kind) <==> u.end >= u.start + 2 && SlashStart(t, u.start)
    ensures u.kind == Space <==> IsSpace(t[u.start])
  {
    if SlashStart(t, u.start) {
      assert t[u.start..u.start + 2][0] == t[u.start] == '/';
    }
  }

  // A literal opens with a quote, is never a comment or space, and never spells anything the second
  // pass looks for.
  lemma LiteralOpens(t: string, u: Unit)
    requires IsAtom(t, u) && IsLiteral(u.kind)
    ensures var o := OpeningEnd(t, u);
      && u.start < o <= u.end && (t[o - 1] == '"' || t[o - 1] == '\'')
      && t[u.start] in {'b', 'c', 'r', '"', '\''}
  {
  }

  lemma QuoteIsOther(s: string, i: nat)
    requires i < |s| && (s[i] == '"' || s[i] == '\'')
    ensures Classify(s) == Other
  {
    if |s| == 1 { assert s == [s[0]]; }
    if |s| == 3 { assert s == [s[0], s[1], s[2]]; }
    if |s| == 4 { assert s == [s[0], s[1], s[2], s[3]]; }
  }

  // The same place, role and class in both texts.
  predicate Alike(t: string, w: string, u: Unit, x: Unit) {
    && u.start == x.start && u.end == x.end
    && IsComment(u.kind) == IsComment(x.kind) && IsToken(u.kind) == IsToken(x.kind)
    && (IsToken(u.kind) ==> Classify(TextOf(t, u)) == Classify(TextOf(w, x)))
  }

  lemma PlainUnitAlike(t: string, w: string, u: Unit, x: Unit)
    requires IsAtom(t, u) && IsAtom(w, x) && u.start == x.start && u.end == x.end
    requires !IsLiteral(u.kind) && Agree(t, w, u.start, u.end)
    ensures Alike(t, w, u, x)
  {
    KindByStart(t, u);
    KindByStart(w, x);
    assert t[u.start] == t[u.start..u.end][0] == w[u.start];
    if u.end >= u.start + 2 {
      assert t[u.start..u.start + 2] == t[u.start..u.end][..2] == w[u.start..u.end][..2] == w[u.start..u.start + 2];
    }
  }

  lemma LiteralStaysToken(w: string, x: Unit)
    requires IsAtom(w, x) && w[x.start] in {'b', 'c', 'r', '"', '\''}
    ensures IsToken(x.kind)
  {
    KindByStart(w, x);
  }

  lemma AgreeAt(t: string, w: string, from: nat, end: nat, q: nat)
    requires Agree(t, w, from, end) && from <= q < end
    ensures t[q] == w[q]
  {
    assert t[from..end][q - from] == w[from..end][q - from];
  }

  lemma QuotedIsOther(t: string, u: Unit, q: nat)
    requires u.start <= q < u.end <= |t| && (t[q] == '"' || t[q] == '\'')
    ensures Classify(TextOf(t, u)) == Other
  {
    assert TextOf(t, u)[q - u.start] == t[q];
    QuoteIsOther(TextOf(t, u), q - u.start);
  }

  lemma LiteralAlike(t: string, w: string, u: Unit, x: Unit)
    requires IsAtom(t, u) && IsAtom(w, x) && u.start == x.start && u.end == x.end
    requires IsLiteral(u.kind) && Agree(t, w, u.start, OpeningEnd(t, u))
    ensures Alike(t, w, u, x)
  {
    LiteralOpens(t, u);
    OpenedAlike(t, w, u, x, OpeningEnd(t, u));
  }

  lemma OpenedAlike(t: string, w: string, u: Unit, x: Unit, o: nat)
    requires IsToken(u.kind) && IsAtom(w, x) && u.start == x.start && u.end == x.end <= |t|
    requires u.start < o <= u.end && Agree(t, w, u.start, o)
    requires (t[o - 1] == '"' || t[o - 1] == '\'') && t[u.start] in {'b', 'c', 'r', '"', '\''}
    ensures Alike(t, w, u, x)
  {
    AgreeAt(t, w, u.start, o, u.start);
    AgreeAt(t, w, u.start, o, o - 1);
    LiteralStaysToken(w, x);
    QuotedAlike(t, w, u, x, o - 1);
  }

  lemma QuotedAlike(t: string, w: string, u: Unit, x: Unit, q: nat)
    requires u.start == x.start && u.end == x.end && u.start <= q < u.end <= |t| && u.end <= |w|
    requires IsToken(u.kind) && IsToken(x.kind) && t[q] == w[q] && (t[q] == '"' || t[q] == '\'')
    ensures Alike(t, w, u, x)
  {
    QuotedIsOther(t, u, q);
    QuotedIsOther(w, x, q);
  }

  // ---------------------------------------------------------------------------
  // All units
  // ---------------------------------------------------------------------------

  predicate SamePlaces(a: seq<Unit>, b: seq<Unit>) {
    |a| == |b| && forall i :: 0 <= i < |a| ==> a[i].start == b[i].start && a[i].end == b[i].end
  }

  lemma {:induction false} AlikeLists(t: string, w: string, us: seq<Unit>, ws: seq<Unit>)
    requires |us| == |ws| && forall i :: 0 <= i < |us| ==> Alike(t, w, us[i], ws[i])
    ensures Comments(us) == Comments(ws) && SamePlaces(Tokens(us), Tokens(ws))
    ensures Classes(t, Tokens(us)) == Classes(w, Tokens(ws))
  {
    if us != [] {
      var n := |us| - 1;
      AlikeLists(t, w, us[..n], ws[..n]);
      assert Alike(t, w, us[n], ws[n]);
      assert us == us[..n] + [us[n]] && ws == ws[..n] + [ws[n]];
      OneMoreUnit(us[..n], us[n]);
      OneMoreUnit(ws[..n], ws[n]);
      if IsToken(us[n].kind) {
        AppendAlike(t, w, Tokens(us[..n]), Tokens(ws[..n]), us[n], ws[n]);
      }
    }
  }

  lemma AppendAlike(t: string, w: string, a: seq<Unit>, b: seq<Unit>, u: Unit, x: Unit)
    requires SamePlaces(a, b) && Classes(t, a) == Classes(w, b) && Alike(t, w, u, x) && IsToken(u.kind)
    ensures SamePlaces(a + [u], b + [x]) && Classes(t, a + [u]) == Classes(w, b + [x])
  {
    AppendClass(t, a, u);
    AppendClass(w, b, x);
  }

  lemma AppendClass(t: string, tokens: seq<Unit>, u: Unit)
    ensures Classes(t, tokens + [u]) == Classes(t, tokens) + [Classify(TextOf(t, u))]
  {
  }

  lemma SameMasking(comments: seq<Range>, a: seq<Unit>, b: seq<Unit>, r: Items)
    requires SamePlaces(a, b)
    ensures MaskFrom(comments, a, r) == MaskFrom(comments, b, r)
  {
    if r.Items? { assert ItemRanges(a, r.items) == ItemRanges(b, r.items); }
  }

  lemma UnitAlike(t: string, w: string, i: nat)
    requires SameButLiterals(t, w) && i < |Lex(t).units|
    ensures Alike(t, w, Lex(t).units[i], Lex(w).units[i])
  {
    var u, x := Lex(t).units[i], Lex(w).units[i];
    LexTiles(t, 0);
    LexTiles(w, 0);
    if IsLiteral(u.kind) {
      LiteralAlike(t, w, u, x);
    } else {
      PlainUnitAlike(t, w, u, x);
    }
  }

  // Rewriting the inside of literals, with every unit staying where it is, changes neither what is
  // masked nor whether the source is refused: quoted attributes and braces hide nothing.
  lemma LiteralsDoNotMatter(t: string, w: string)
    requires SameButLiterals(t, w)
    ensures MaskOf(t) == MaskOf(w)
  {
    var us, ws := Lex(t).units, Lex(w).units;
    forall i | 0 <= i < |us| ensures Alike(t, w, us[i], ws[i]) {
      UnitAlike(t, w, i);
    }
    AlikeLists(t, w, us, ws);
    SameMasking(Comments(us), Tokens(us), Tokens(ws), ItemsFrom(Classes(t, Tokens(us)), 0));
  }
}
