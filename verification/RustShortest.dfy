// What exactly is masked: which attributes, and how far. Stated on the tokens and on the delimiters open
// between them, apart from the scans that find it.
module RustShortest {
  import opened Prelude
  import opened RustItems
  import opened RustNesting

  // ---------------------------------------------------------------------------
  // The delimiter around an attribute
  // ---------------------------------------------------------------------------

  // Token p is the innermost delimiter still open before token k: what stands between is nested.
  predicate OpenBefore(v: seq<Class>, k: nat, pending: seq<Class>, p: nat) {
    p < k <= |v| && Opener(v[p]) && Nest(v[p + 1..k], []) == Some(pending)
  }

  lemma NestNext(v: seq<Class>, from: nat, k: nat)
    requires from <= k < |v|
    ensures Nest(v[from..k + 1], [])
         == if Nest(v[from..k], []).Some? then Push(Nest(v[from..k], []).value, v[k]) else None
  {
    assert v[from..k + 1][..k - from] == v[from..k];
  }

  // One token back: who is open before it, and what that says of the token after.
  lemma OneBack(v: seq<Class>, k: nat, pending: seq<Class>, p: nat)
    requires 0 < k <= |v| && p < k - 1
    ensures var c := v[k - 1];
      OpenBefore(v, k, pending, p) <==>
        if Closer(c) then OpenBefore(v, k - 1, pending + [Pair(c)], p)
        else if Opener(c) then
          pending != [] && pending[|pending| - 1] == c && OpenBefore(v, k - 1, pending[..|pending| - 1], p)
        else OpenBefore(v, k - 1, pending, p)
  {
    NestNext(v, p + 1, k - 1);
    var c := v[k - 1];
    if Nest(v[p + 1..k - 1], []).Some? {
      var before := Nest(v[p + 1..k - 1], []).value;
      if Closer(c) && before != [] { assert before == before[..|before| - 1] + [before[|before| - 1]]; }
      if Opener(c) && pending != [] { assert pending == pending[..|pending| - 1] + [pending[|pending| - 1]]; }
    }
  }

  ghost predicate Encloses(v: seq<Class>, k: nat, pending: seq<Class>, o: Class) {
    exists p: nat :: OpenBefore(v, k, pending, p) && v[p] == o
  }

  lemma EnclosesBack(v: seq<Class>, k: nat, pending: seq<Class>, o: Class)
    requires 0 < k <= |v|
    ensures var c := v[k - 1];
      Encloses(v, k, pending, o) <==>
        if Closer(c) then Encloses(v, k - 1, pending + [Pair(c)], o)
        else if Opener(c) && pending == [] then c == o
        else if Opener(c) then pending[|pending| - 1] == c && Encloses(v, k - 1, pending[..|pending| - 1], o)
        else Encloses(v, k - 1, pending, o)
  {
    var c := v[k - 1];
    assert v[k..k] == [];
    assert OpenBefore(v, k, pending, k - 1) <==> Opener(c) && pending == [];
    var earlier := if Closer(c) then pending + [Pair(c)]
                   else if Opener(c) && pending != [] then pending[..|pending| - 1] else pending;
    if p: nat :| OpenBefore(v, k, pending, p) && v[p] == o {
      if p < k - 1 {
        OneBack(v, k, pending, p);
        assert OpenBefore(v, k - 1, earlier, p);
      }
    }
    if p: nat :| OpenBefore(v, k - 1, earlier, p) && v[p] == o {
      OneBack(v, k, pending, p);
    }
  }

  // The backward scan finds an opener exactly when it is the innermost one open there, in any source.
  lemma {:induction false} EnclosingIs(v: seq<Class>, k: nat, pending: seq<Class>, o: Class)
    requires k <= |v|
    ensures EnclosingOpener(v, k, pending) == Some(o) <==> Encloses(v, k, pending, o)
  {
    if k > 0 {
      var c := v[k - 1];
      EnclosesBack(v, k, pending, o);
      if Closer(c) {
        EnclosingIs(v, k - 1, pending + [Pair(c)], o);
      } else if Opener(c) && pending != [] {
        EnclosingIs(v, k - 1, pending[..|pending| - 1], o);
      } else if !Opener(c) {
        EnclosingIs(v, k - 1, pending, o);
      }
    }
  }

  // ---------------------------------------------------------------------------
  // The end of an item
  // ---------------------------------------------------------------------------

  // What has been opened since token a and is still open before token k.
  function Level(v: seq<Class>, a: nat, k: nat): Option<seq<Class>>
    requires a <= k <= |v|
  {
    Nest(v[a..k], [])
  }

  predicate Flat(v: seq<Class>, a: nat, k: nat) { a <= k <= |v| && Level(v, a, k) == Some([]) }

  // A semicolon or comma with nothing open.
  predicate SeparatorAt(v: seq<Class>, a: nat, k: nat) {
    k < |v| && Flat(v, a, k) && (v[k] == Semi || v[k] == Comma)
  }

  predicate BraceBefore(v: seq<Class>, a: nat, k: nat) {
    exists b :: a <= b < k && b < |v| && v[b] == LBrace && Flat(v, a, b)
  }

  // The closer after which nothing is open, a brace having been opened with nothing open: the body's end.
  predicate BodyEndAt(v: seq<Class>, a: nat, k: nat) {
    k < |v| && Closer(v[k]) && Flat(v, a, k + 1) && BraceBefore(v, a, k)
  }

  // The closer of the delimiter around the attribute at i.
  ghost predicate EnclosingAt(v: seq<Class>, i: nat, a: nat, k: nat) {
    k < |v| && Closer(v[k]) && Flat(v, a, k) && Encloses(v, i, [], Pair(v[k]))
  }

  // The item goes on past token k.
  predicate GoesPast(v: seq<Class>, a: nat, k: nat) {
    a <= k < |v| && Level(v, a, k + 1).Some? && !SeparatorAt(v, a, k) && !BodyEndAt(v, a, k)
  }

  predicate GoesOnTo(v: seq<Class>, a: nat, k: nat) {
    forall j :: a <= j < k ==> GoesPast(v, a, j)
  }

  // The item that follows an attribute at i ended before token a: it ends at its first separator or body
  // end with nothing open, or before the closer around it if that comes first; it is unbalanced where
  // another closer closes nothing of it; and unterminated where none of these comes.
  ghost predicate IsEnd(v: seq<Class>, i: nat, a: nat, r: ItemEnd) {
    match r
    case EndsWith(k) => GoesOnTo(v, a, k) && (SeparatorAt(v, a, k) || BodyEndAt(v, a, k))
    case EndsBefore(k) => GoesOnTo(v, a, k) && EnclosingAt(v, i, a, k)
    case Unbalanced(k) =>
      a <= k < |v| && GoesOnTo(v, a, k) && Closer(v[k]) && Level(v, a, k + 1).None? && !EnclosingAt(v, i, a, k)
    case Unterminated => GoesOnTo(v, a, |v|)
  }

  // What the scan knows at token e.
  predicate Scanned(v: seq<Class>, a: nat, e: nat, stack: seq<Class>, sawBody: bool) {
    && a <= e <= |v| && Level(v, a, e) == Some(stack) && GoesOnTo(v, a, e)
    && (sawBody <==> BraceBefore(v, a, e)) && (sawBody ==> stack != [])
  }

  lemma BraceNext(v: seq<Class>, a: nat, e: nat)
    requires a <= e < |v|
    ensures BraceBefore(v, a, e + 1) <==> BraceBefore(v, a, e) || (v[e] == LBrace && Flat(v, a, e))
  {
    if BraceBefore(v, a, e) {
      var b :| a <= b < e && b < |v| && v[b] == LBrace && Flat(v, a, b);
      assert a <= b < e + 1;
    }
  }

  // The scan goes on where the item does.
  lemma ScansOn(v: seq<Class>, a: nat, e: nat, stack: seq<Class>, sawBody: bool)
    requires Scanned(v, a, e, stack, sawBody) && e < |v| && Push(stack, v[e]).Some?
    requires !(Closer(v[e]) && sawBody && |stack| == 1) && !((v[e] == Semi || v[e] == Comma) && stack == [])
    ensures Scanned(v, a, e + 1, Push(stack, v[e]).value, sawBody || (v[e] == LBrace && stack == []))
  {
    NestNext(v, a, e);
    BraceNext(v, a, e);
    assert GoesPast(v, a, e);
  }

  // And ends where the item does.
  lemma ScanStops(v: seq<Class>, i: nat, a: nat, e: nat, stack: seq<Class>, sawBody: bool)
    requires i <= a && Scanned(v, a, e, stack, sawBody) && e < |v|
    requires || Push(stack, v[e]).None?
             || (Closer(v[e]) && sawBody && |stack| == 1) || ((v[e] == Semi || v[e] == Comma) && stack == [])
    ensures IsEnd(v, i, a, ItemScan(v, i, e, stack, sawBody))
  {
    NestNext(v, a, e);
    if Closer(v[e]) {
      EnclosingIs(v, i, [], Pair(v[e]));
      CloserStops(v, i, a, e, stack, sawBody);
    } else {
      assert ItemScan(v, i, e, stack, sawBody) == EndsWith(e);
    }
  }

  lemma CloserStops(v: seq<Class>, i: nat, a: nat, e: nat, stack: seq<Class>, sawBody: bool)
    requires i <= a && Scanned(v, a, e, stack, sawBody) && e < |v| && Closer(v[e])
    requires Push(stack, v[e]).None? || (sawBody && |stack| == 1)
    requires Level(v, a, e + 1) == Push(stack, v[e])
    requires EnclosingOpener(v, i, []) == Some(Pair(v[e])) <==> Encloses(v, i, [], Pair(v[e]))
    ensures IsEnd(v, i, a, ItemScan(v, i, e, stack, sawBody))
  {
    var r := ItemScan(v, i, e, stack, sawBody);
    if Push(stack, v[e]).Some? {
      assert r == EndsWith(e) && BodyEndAt(v, a, e);
    } else if stack == [] && Encloses(v, i, [], Pair(v[e])) {
      assert r == EndsBefore(e);
    } else {
      assert r == Unbalanced(e);
    }
  }

  lemma {:induction false} ScanIsEnd(v: seq<Class>, i: nat, a: nat, e: nat, stack: seq<Class>, sawBody: bool)
    requires i <= a && Scanned(v, a, e, stack, sawBody)
    ensures IsEnd(v, i, a, ItemScan(v, i, e, stack, sawBody))
    decreases |v| - e
  {
    if e < |v| {
      var c := v[e];
      if || Push(stack, c).None?
         || (Closer(c) && sawBody && |stack| == 1) || ((c == Semi || c == Comma) && stack == []) {
        ScanStops(v, i, a, e, stack, sawBody);
      } else {
        ScansOn(v, a, e, stack, sawBody);
        ScanIsEnd(v, i, a, e + 1, Push(stack, c).value, sawBody || (c == LBrace && stack == []));
      }
    }
  }

  // The scan for an item's end finds its end, in any source.
  lemma ItemScanIs(v: seq<Class>, i: nat, a: nat)
    requires i <= a <= |v|
    ensures IsEnd(v, i, a, ItemScan(v, i, a, [], false))
  {
    assert v[a..a] == [];
    ScanIsEnd(v, i, a, a, [], false);
  }

  function StopOf(v: seq<Class>, r: ItemEnd): nat {
    match r
    case EndsWith(k) => k
    case EndsBefore(k) => k
    case Unbalanced(k) => k
    case Unterminated => |v|
  }

  // There is only one.
  lemma EndIsUnique(v: seq<Class>, i: nat, a: nat, r: ItemEnd, s: ItemEnd)
    requires a <= |v| && IsEnd(v, i, a, r) && IsEnd(v, i, a, s)
    ensures r == s
  {
    EndStops(v, i, a, r);
    EndStops(v, i, a, s);
    StopsByThen(v, a, StopOf(v, r), StopOf(v, s));
    StopsByThen(v, a, StopOf(v, s), StopOf(v, r));
  }

  lemma StopsByThen(v: seq<Class>, a: nat, k: nat, m: nat)
    requires a <= k && (k < |v| ==> !GoesPast(v, a, k)) && GoesOnTo(v, a, m) && m <= |v|
    ensures m <= k
  {
  }

  lemma EndStops(v: seq<Class>, i: nat, a: nat, r: ItemEnd)
    requires a <= |v| && IsEnd(v, i, a, r)
    ensures var k := StopOf(v, r); a <= k <= |v| && GoesOnTo(v, a, k) && (k < |v| ==> !GoesPast(v, a, k))
    ensures r.EndsWith? ==> r.last < |v| && Level(v, a, r.last + 1).Some?
    ensures r.EndsBefore? || r.Unbalanced? ==> StopOf(v, r) < |v| && Level(v, a, StopOf(v, r) + 1).None?
  {
    var k := StopOf(v, r);
    if k < |v| { NestNext(v, a, k); }
  }

  // ---------------------------------------------------------------------------
  // Attributes
  // ---------------------------------------------------------------------------

  // The parenthesis at x closes the one before token j: between them parentheses balance.
  predicate ParenAt(v: seq<Class>, j: nat, x: nat) {
    j <= x < |v| && v[x] == RParen && Depth(v[j..x]) == 0 && forall y :: j <= y <= x ==> Depth(v[j..y]) >= 0
  }

  lemma DepthOn(v: seq<Class>, j: nat, k: nat)
    requires j <= k < |v|
    ensures Depth(v[j..k + 1]) == Depth(v[j..k]) + Delta(v[k])
  {
    assert v[j..k + 1][..k - j] == v[j..k];
  }

  predicate NotClosed(v: seq<Class>, j: nat, k: nat) {
    j <= k <= |v| && forall y :: j <= y <= k ==> Depth(v[j..y]) >= 0
  }

  lemma {:induction false} CountIs(v: seq<Class>, j: nat, k: nat)
    requires NotClosed(v, j, k)
    ensures var r := CloseParen(v, k, 1 + Depth(v[j..k]));
      if r.1 == 0 then r.0 > j && ParenAt(v, j, r.0 - 1) else NotClosed(v, j, |v|)
    decreases |v| - k
  {
    if k < |v| {
      DepthOn(v, j, k);
      if Depth(v[j..k + 1]) >= 0 { CountIs(v, j, k + 1); }
    }
  }

  // The parenthesis count stops where the parenthesis closes, in any source, and runs out where none does.
  lemma CloseParenIs(v: seq<Class>, j: nat)
    requires j <= |v|
    ensures var r := CloseParen(v, j, 1);
      if r.1 == 0 then r.0 > j && ParenAt(v, j, r.0 - 1) else forall x :: !ParenAt(v, j, x)
  {
    assert v[j..j] == [];
    CountIs(v, j, j);
    if NotClosed(v, j, |v|) {
      forall x ensures !ParenAt(v, j, x) { if ParenAt(v, j, x) { DepthOn(v, j, x); } }
    }
  }

  lemma OneParen(v: seq<Class>, j: nat, x: nat, y: nat)
    requires ParenAt(v, j, x) && ParenAt(v, j, y)
    ensures x == y
  {
    DepthOn(v, j, x);
    DepthOn(v, j, y);
  }

  // A whole cfg attribute from token i up to token a.
  predicate Attribute(v: seq<Class>, i: nat, a: nat) {
    CfgAt(v, i) && i + 6 <= a <= |v| && ParenAt(v, i + 4, a - 2) && v[a - 1] == RBracket
  }

  // One whose condition is `test`, or `all` with `test` as a whole top-level argument.
  predicate TestAttribute(v: seq<Class>, i: nat, a: nat) {
    Attribute(v, i, a) && TestOnly(v[i + 4..a - 2])
  }

  // An item of an attribute from i up to a, as far as it goes.
  ghost predicate IsItem(v: seq<Class>, a: nat, it: Item) {
    && TestAttribute(v, it.first, a) && it.stop > 0
    && IsEnd(v, it.first, a, if it.boundary then EndsBefore(it.stop) else EndsWith(it.stop - 1))
  }

  ghost predicate EndsBadly(v: seq<Class>, i: nat, a: nat, end: ItemEnd) {
    TestAttribute(v, i, a) && IsEnd(v, i, a, end)
  }

  // What stands at a token, without the scans.
  ghost predicate IsFound(v: seq<Class>, i: nat, f: Found) {
    match f
    case Skip(next) => if CfgAt(v, i) then Attribute(v, i, next) && !TestAttribute(v, i, next) else next == i + 1
    case Hit(it) => it.first == i && exists a: nat :: IsItem(v, a, it)
    case Bad(UnbalancedCfg, at) => at == i && CfgAt(v, i) && forall a: nat :: !Attribute(v, i, a)
    case Bad(UnbalancedItem, at) => exists a: nat :: EndsBadly(v, i, a, Unbalanced(at))
    case Bad(UnterminatedItem, at) => at == i && exists a: nat :: EndsBadly(v, i, a, Unterminated)
  }

  lemma FoundPast(v: seq<Class>, i: nat, a: nat)
    requires TestAttribute(v, i, a)
    ensures IsFound(v, i, FoundBy(i, ItemScan(v, i, a, [], false)))
  {
    ItemScanIs(v, i, a);
    var end := ItemScan(v, i, a, [], false);
    match end
    case EndsWith(last) => assert IsItem(v, a, Item(i, last + 1, false));
    case EndsBefore(closer) => assert IsItem(v, a, Item(i, closer, true));
    case Unbalanced(at) => assert EndsBadly(v, i, a, end);
    case Unterminated => assert EndsBadly(v, i, a, end);
  }

  lemma NoAttribute(v: seq<Class>, i: nat, r: (nat, nat))
    requires CfgAt(v, i) && r == CloseParen(v, i + 4, 1) && !(r.1 == 0 && r.0 < |v| && v[r.0] == RBracket)
    ensures forall a: nat :: !Attribute(v, i, a)
  {
    CloseParenIs(v, i + 4);
    forall a: nat ensures !Attribute(v, i, a) {
      if Attribute(v, i, a) && r.1 == 0 { OneParen(v, i + 4, a - 2, r.0 - 1); }
    }
  }

  lemma AttributeCount(v: seq<Class>, i: nat, a: nat)
    requires Attribute(v, i, a)
    ensures CloseParen(v, i + 4, 1) == (a - 1, 0)
  {
    CloseParenIs(v, i + 4);
    OneParen(v, i + 4, a - 2, CloseParen(v, i + 4, 1).0 - 1);
  }

  lemma AttributeFound(v: seq<Class>, i: nat, a: nat)
    requires Attribute(v, i, a)
    ensures ItemAt(v, i) == if TestAttribute(v, i, a) then FoundBy(i, ItemScan(v, i, a, [], false)) else Skip(a)
  {
    AttributeCount(v, i, a);
    var testOnly := IsTest(v, i + 4, (a - 1, 0));
    assert testOnly <==> TestAttribute(v, i, a);
    assert ItemAt(v, i) == ItemPast(v, i, (a - 1, 0), testOnly);
  }

  lemma WholeAttribute(v: seq<Class>, i: nat, r: (nat, nat))
    requires CfgAt(v, i) && r == CloseParen(v, i + 4, 1) && r.1 == 0 && r.0 < |v| && v[r.0] == RBracket
    ensures Attribute(v, i, r.0 + 1)
  {
    CloseParenIs(v, i + 4);
  }

  // Each turn of the second pass does what stands there.
  lemma FoundIs(v: seq<Class>, i: nat)
    requires i < |v|
    ensures IsFound(v, i, ItemAt(v, i))
  {
    if CfgAt(v, i) {
      var r := CloseParen(v, i + 4, 1);
      if r.1 == 0 && r.0 < |v| && v[r.0] == RBracket {
        var a := r.0 + 1;
        WholeAttribute(v, i, r);
        AttributeFound(v, i, a);
        if TestAttribute(v, i, a) { FoundPast(v, i, a); }
      } else {
        NoAttribute(v, i, r);
        assert ItemAt(v, i) == Bad(UnbalancedCfg, i);
      }
    }
  }

  // ---------------------------------------------------------------------------
  // All of the source
  // ---------------------------------------------------------------------------

  // Token k stands inside an attribute that is not test-only.
  ghost predicate InOtherAttribute(v: seq<Class>, k: nat) {
    exists j: nat, b: nat :: j < k < b && Attribute(v, j, b) && !TestAttribute(v, j, b)
  }

  lemma OneAttribute(v: seq<Class>, i: nat, a: nat, b: nat)
    requires Attribute(v, i, a) && Attribute(v, i, b)
    ensures a == b
  {
    OneParen(v, i + 4, a - 2, b - 2);
  }

  // Every item that is masked is the shortest item of a test-only attribute.
  lemma {:induction false} MaskedAreItems(v: seq<Class>, i: nat, it: Item)
    requires i <= |v| && ItemsFrom(v, i).Items? && it in ItemsFrom(v, i).items
    ensures exists a: nat :: IsItem(v, a, it)
    decreases |v| - i
  {
    FoundIs(v, i);
    match ItemAt(v, i)
    case Skip(next) => MaskedAreItems(v, next, it);
    case Hit(item) => if it != item { MaskedAreItems(v, item.stop, it); }
  }

  lemma SkippedOver(v: seq<Class>, i: nat, next: nat, k: nat, a: nat)
    requires i <= k < next && IsFound(v, i, Skip(next)) && TestAttribute(v, k, a)
    ensures InOtherAttribute(v, k)
  {
    if k == i { OneAttribute(v, i, a, next); }
    assert i < k < next && Attribute(v, i, next) && !TestAttribute(v, i, next);
  }

  lemma InMore(it: Item, rest: seq<Item>, k: nat)
    requires it.first <= k < it.stop || InSome(rest, k)
    ensures InSome([it] + rest, k)
  {
    var items := [it] + rest;
    assert items[0] == it;
    if InSome(rest, k) {
      var j :| 0 <= j < |rest| && rest[j].first <= k < rest[j].stop;
      assert items[j + 1] == rest[j];
    }
  }

  // Every test-only attribute is masked, unless it stands inside an attribute that is not.
  lemma {:induction false} TestsAreMasked(v: seq<Class>, i: nat, k: nat, a: nat)
    requires i <= k && TestAttribute(v, k, a) && ItemsFrom(v, i).Items?
    ensures InSome(ItemsFrom(v, i).items, k) || InOtherAttribute(v, k)
    decreases |v| - i
  {
    match ItemAt(v, i)
    case Skip(next) =>
      if k < next {
        FoundIs(v, i);
        SkippedOver(v, i, next, k, a);
      } else {
        TestsAreMasked(v, next, k, a);
      }
    case Hit(item) =>
      if k >= item.stop { TestsAreMasked(v, item.stop, k, a); }
      if k < item.stop || InSome(ItemsFrom(v, item.stop).items, k) { InMore(item, ItemsFrom(v, item.stop).items, k); }
  }

  // A refusal says what stands where.
  lemma {:induction false} RefusedFor(v: seq<Class>, i: nat) returns (k: nat)
    requires i <= |v| && ItemsFrom(v, i).Rejected?
    ensures i <= k < |v| && IsFound(v, k, Bad(ItemsFrom(v, i).reason, ItemsFrom(v, i).at))
    decreases |v| - i
  {
    FoundIs(v, i);
    match ItemAt(v, i)
    case Skip(next) => k := RefusedFor(v, next);
    case Hit(item) => k := RefusedFor(v, item.stop);
    case Bad(_, _) => k := i;
  }

  // ---------------------------------------------------------------------------
  // Nested sources, by the delimiters open in the whole source
  // ---------------------------------------------------------------------------

  // Exactly the delimiters open that were open before token i.
  predicate Top(v: seq<Class>, i: nat, k: nat) { i <= |v| && k <= |v| && Open(v, k) == Open(v, i) }

  predicate SeparatorTop(v: seq<Class>, i: nat, k: nat) { k < |v| && Top(v, i, k) && (v[k] == Semi || v[k] == Comma) }

  predicate BodyEndTop(v: seq<Class>, i: nat, a: nat, k: nat) {
    && k < |v| && Closer(v[k]) && Top(v, i, k + 1)
    && exists b :: a <= b < k && v[b] == LBrace && Top(v, i, b)
  }

  predicate CloserTop(v: seq<Class>, i: nat, k: nat) { k < |v| && Closer(v[k]) && Top(v, i, k) }

  // None of the three ends.
  predicate PastTop(v: seq<Class>, i: nat, a: nat, k: nat) {
    !SeparatorTop(v, i, k) && !BodyEndTop(v, i, a, k) && !CloserTop(v, i, k)
  }

  lemma LevelInOpen(v: seq<Class>, i: nat, a: nat, k: nat)
    requires i <= a <= k <= |v| && Open(v, i).Some? && Top(v, i, a) && Level(v, a, k).Some?
    ensures Open(v, k) == Some(Open(v, i).value + Level(v, a, k).value)
    ensures Flat(v, a, k) <==> Top(v, i, k)
  {
    var outside := Open(v, i).value;
    assert v[..k] == v[..a] + v[a..k];
    NestConcat(v[..a], v[a..k], []);
    NestedIsNeutral(v[a..k], outside);
    assert |outside + Level(v, a, k).value| == |outside| + |Level(v, a, k).value|;
    assert outside + [] == outside;
  }

  lemma LevelUpTo(v: seq<Class>, a: nat, k: nat, j: nat)
    requires a <= j <= k <= |v| && GoesOnTo(v, a, k)
    ensures Level(v, a, j).Some?
  {
    assert v[a..a] == [];
    if j > a { assert GoesPast(v, a, j - 1); }
  }

  // As long as the item goes on, its own level and the whole source's agree on what is an end.
  lemma EndsAgree(v: seq<Class>, i: nat, a: nat, k: nat)
    requires Nested(v) && i <= a <= k < |v| && Top(v, i, a) && GoesOnTo(v, a, k)
    ensures SeparatorAt(v, a, k) <==> SeparatorTop(v, i, k)
    ensures Closer(v[k]) && Level(v, a, k + 1).None? <==> CloserTop(v, i, k)
    ensures BodyEndAt(v, a, k) <==> BodyEndTop(v, i, a, k)
  {
    PrefixReads(v, i);
    PrefixReads(v, k + 1);
    LevelUpTo(v, a, k, k);
    LevelInOpen(v, i, a, k);
    NestNext(v, a, k);
    OpenNext(v, k);
    if Closer(v[k]) { CloserLevel(v, i, a, k); }
    if Level(v, a, k + 1).Some? { LevelInOpen(v, i, a, k + 1); }
    forall b | a <= b < k ensures Flat(v, a, b) <==> Top(v, i, b) {
      LevelUpTo(v, a, k, b);
      LevelInOpen(v, i, a, b);
    }
  }

  lemma CloserLevel(v: seq<Class>, i: nat, a: nat, k: nat)
    requires i <= a <= k < |v| && Open(v, i).Some? && Level(v, a, k).Some? && Closer(v[k]) && Open(v, k + 1).Some?
    requires Open(v, k) == Some(Open(v, i).value + Level(v, a, k).value)
    ensures Level(v, a, k + 1).None? <==> Level(v, a, k) == Some([])
    ensures Level(v, a, k) == Some([]) ==> Open(v, k + 1) != Open(v, i)
  {
    NestNext(v, a, k);
    OpenNext(v, k);
    var outside, inner := Open(v, i).value, Level(v, a, k).value;
    if inner != [] { PushAbove(outside, inner, v[k]); }
  }

  lemma AttributeTop(v: seq<Class>, i: nat, a: nat)
    requires Nested(v) && Attribute(v, i, a)
    ensures Top(v, i, a)
  {
    AttributeNests(v, i);
    CloseParenIs(v, i + 4);
    OneParen(v, i + 4, a - 2, CloseParen(v, i + 4, 1).0 - 1);
  }

  lemma {:induction false} GoesOnWhilePast(v: seq<Class>, i: nat, a: nat, m: nat)
    requires Nested(v) && i <= a <= m <= |v| && Top(v, i, a)
    ensures GoesOnTo(v, a, m) <==> forall k :: a <= k < m ==> PastTop(v, i, a, k)
    decreases m
  {
    if a < m {
      GoesOnWhilePast(v, i, a, m - 1);
      if GoesOnTo(v, a, m - 1) {
        EndsAgree(v, i, a, m - 1);
        LevelUpTo(v, a, m - 1, m - 1);
        NestNext(v, a, m - 1);
        assert GoesPast(v, a, m - 1) <==> PastTop(v, i, a, m - 1);
      } else {
        assert !(forall k :: a <= k < m - 1 ==> PastTop(v, i, a, k));
      }
    }
  }

  function LastOf(it: Item): int { if it.boundary then it.stop else it.stop - 1 }

  // The end of a masked item, by the delimiters open in the whole source.
  lemma EndInOpen(v: seq<Class>, i: nat, a: nat, r: ItemEnd)
    requires Nested(v) && i <= a && Top(v, i, a) && IsEnd(v, i, a, r) && (r.EndsWith? || r.EndsBefore?)
    ensures var last := StopOf(v, r);
      && a <= last < |v| && (forall k :: a <= k < last ==> PastTop(v, i, a, k))
      && (r.EndsBefore? <==> CloserTop(v, i, last))
      && (r.EndsWith? ==> SeparatorTop(v, i, last) || BodyEndTop(v, i, a, last))
  {
    var last := StopOf(v, r);
    EndStops(v, i, a, r);
    GoesOnWhilePast(v, i, a, last);
    EndsAgree(v, i, a, last);
  }

  lemma ClosesAround(v: seq<Class>, i: nat, k: nat)
    requires Nested(v) && i <= |v| && CloserTop(v, i, k)
    ensures Open(v, i).Some? && Open(v, i).value != [] && Open(v, i).value[|Open(v, i).value| - 1] == Pair(v[k])
  {
    PrefixReads(v, i);
    PrefixReads(v, k + 1);
    OpenNext(v, k);
  }

  // In a nested source a masked item is the shortest there is: no separator, body end or closer stands
  // before its end with exactly the delimiters open that were open before the attribute, and its end is one
  // of them; it stops before a closer exactly when that is the closer of the delimiter around the attribute.
  lemma MaskedItemIsShortest(v: seq<Class>, a: nat, it: Item)
    requires Nested(v) && IsItem(v, a, it)
    ensures var i, last := it.first, LastOf(it);
      && a <= last < |v| && (forall k :: a <= k < last ==> PastTop(v, i, a, k))
      && (it.boundary <==> CloserTop(v, i, last))
      && (!it.boundary ==> SeparatorTop(v, i, last) || BodyEndTop(v, i, a, last))
      && (it.boundary ==> Open(v, i).Some? && Open(v, i).value != []
                          && Open(v, i).value[|Open(v, i).value| - 1] == Pair(v[last]))
  {
    var i := it.first;
    AttributeTop(v, i, a);
    EndInOpen(v, i, a, if it.boundary then EndsBefore(it.stop) else EndsWith(it.stop - 1));
    if it.boundary { ClosesAround(v, i, it.stop); }
  }

  lemma UnterminatedInOpen(v: seq<Class>, i: nat, a: nat)
    requires Nested(v) && i <= a <= |v| && Top(v, i, a)
    ensures ItemScan(v, i, a, [], false) == Unterminated <==> forall k :: a <= k < |v| ==> PastTop(v, i, a, k)
  {
    GoesOnWhilePast(v, i, a, |v|);
    ItemScanIs(v, i, a);
    if GoesOnTo(v, a, |v|) { EndIsUnique(v, i, a, ItemScan(v, i, a, [], false), Unterminated); }
  }

  // And an item is refused as unterminated exactly when there is no such end.
  lemma UnterminatedExactly(v: seq<Class>, i: nat, a: nat)
    requires Nested(v) && TestAttribute(v, i, a)
    ensures ItemAt(v, i) == Bad(UnterminatedItem, i) <==> forall k :: a <= k < |v| ==> PastTop(v, i, a, k)
  {
    AttributeTop(v, i, a);
    AttributeFound(v, i, a);
    UnterminatedInOpen(v, i, a);
  }

  // ---------------------------------------------------------------------------
  // Conditions
  // ---------------------------------------------------------------------------

  // The arguments before and after a `test` that is an argument of its own.
  predicate Surrounds(a: seq<Class>, b: seq<Class>) {
    && Depth(a) == 0 && (a == [] || a[|a| - 1] == Comma) && (b == [] || b[0] == Comma)
  }

  ghost predicate AllWithTest(cond: seq<Class>) {
    exists a, b :: Surrounds(a, b) && cond == [All, LParen] + (a + ([Test] + b)) + [RParen]
  }

  // A condition guards tests only exactly when it is `test`, or `all` around a list of arguments one of
  // which is `test`: before it and after it a comma or nothing, and as many parentheses closed as opened.
  lemma TestOnlyIs(cond: seq<Class>)
    ensures TestOnly(cond) <==> cond == [Test] || AllWithTest(cond)
  {
    if AllArguments(cond).Some? {
      var args := AllArguments(cond).value;
      if k :| 0 <= k < |args| && WholeArgument(args, k) { TestAmong(cond, args, k); }
    }
    if a, b :| Surrounds(a, b) && cond == [All, LParen] + (a + ([Test] + b)) + [RParen] { TestBetween(a, b); }
  }

  lemma TestAmong(cond: seq<Class>, args: seq<Class>, k: nat)
    requires AllArguments(cond) == Some(args) && k < |args| && WholeArgument(args, k)
    ensures AllWithTest(cond)
  {
    assert cond == [All, LParen] + args + [RParen];
    assert args == args[..k] + ([Test] + args[k + 1..]);
    assert Surrounds(args[..k], args[k + 1..]);
  }

  lemma TestBetween(a: seq<Class>, b: seq<Class>)
    requires Surrounds(a, b)
    ensures TestOnly([All, LParen] + (a + ([Test] + b)) + [RParen])
  {
    var args := a + ([Test] + b);
    var cond := [All, LParen] + args + [RParen];
    assert cond[2..|cond| - 1] == args && args[..|a|] == a;
    assert WholeArgument(args, |a|);
  }
}
