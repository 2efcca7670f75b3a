// What masking does to nesting: in a source whose delimiters are properly nested, every masked item is
// itself properly nested, so nothing that encloses it is lost.
module RustNesting {
  import opened Prelude
  import opened RustItems

  // The open delimiters after reading v, or None where a closer does not match.
  function Nest(v: seq<Class>, stack: seq<Class>): Option<seq<Class>>
    decreases |v|
  {
    if v == [] then Some(stack)
    else
      var before :- Nest(v[..|v| - 1], stack);
      Push(before, v[|v| - 1])
  }

  function Push(stack: seq<Class>, c: Class): Option<seq<Class>> {
    if Opener(c) then Some(stack + [c])
    else if Closer(c) then
      if stack != [] && stack[|stack| - 1] == Pair(c) then Some(stack[..|stack| - 1]) else None
    else Some(stack)
  }

  predicate Nested(v: seq<Class>) { Nest(v, []) == Some([]) }

  // ---------------------------------------------------------------------------
  // Reading in parts
  // ---------------------------------------------------------------------------

  lemma {:induction false} NestConcat(a: seq<Class>, b: seq<Class>, stack: seq<Class>)
    ensures Nest(a + b, stack) == if Nest(a, stack).Some? then Nest(b, Nest(a, stack).value) else None
    decreases |b|
  {
    if b == [] {
      assert a + b == a;
    } else {
      assert (a + b)[..|a + b| - 1] == a + b[..|b| - 1];
      NestConcat(a, b[..|b| - 1], stack);
    }
  }

  // Adding a base below a stack changes nothing as long as the base is not popped.
  lemma PushAbove(base: seq<Class>, inner: seq<Class>, c: Class)
    requires inner != [] || !Closer(c)
    ensures Push(base + inner, c) == if Push(inner, c).Some? then Some(base + Push(inner, c).value) else None
  {
    if Closer(c) {
      assert (base + inner)[..|base + inner| - 1] == base + inner[..|inner| - 1];
    } else if Opener(c) {
      assert (base + inner) + [c] == base + (inner + [c]);
    }
  }

  // The delimiters open before token e.
  function Open(v: seq<Class>, e: nat): Option<seq<Class>>
    requires e <= |v|
  {
    Nest(v[..e], [])
  }

  lemma OpenNext(v: seq<Class>, e: nat)
    requires e < |v|
    ensures Open(v, e + 1) == if Open(v, e).Some? then Push(Open(v, e).value, v[e]) else None
  {
    assert v[..e + 1][..e] == v[..e];
  }

  // Every prefix of a nested list reads.
  lemma PrefixReads(v: seq<Class>, e: nat)
    requires Nested(v) && e <= |v|
    ensures Open(v, e).Some?
  {
    assert v == v[..e] + v[e..];
    NestConcat(v[..e], v[e..], []);
  }

  // Token e is reached with everything in `base` still open.
  predicate Reads(v: seq<Class>, base: seq<Class>, e: nat) {
    e <= |v| && Open(v, e).Some? && base <= Open(v, e).value
  }

  // With `base` still open after a token, that token did not close any of it.
  lemma SegmentOpens(v: seq<Class>, base: seq<Class>, inner: seq<Class>, till: nat)
    requires 0 < till && Reads(v, base, till) && Open(v, till - 1) == Some(base + inner)
    ensures inner != [] || !Closer(v[till - 1])
  {
    OpenNext(v, till - 1);
    if inner == [] { assert base + inner == base; }
  }

  // A segment read from `base` without ever closing any of it is readable on its own.
  lemma {:induction false} SegmentNests(v: seq<Class>, base: seq<Class>, from: nat, till: nat)
    requires from <= till <= |v| && Open(v, from) == Some(base)
    requires forall e :: from <= e <= till ==> Reads(v, base, e)
    ensures Nest(v[from..till], []).Some? && Open(v, till) == Some(base + Nest(v[from..till], []).value)
    decreases till
  {
    if from == till {
      assert |v[from..till]| == 0;
      assert base + [] == base;
    } else {
      SegmentNests(v, base, from, till - 1);
      assert Reads(v, base, till);
      var inner, c := Nest(v[from..till - 1], []).value, v[till - 1];
      assert v[from..till][..till - 1 - from] == v[from..till - 1];
      OpenNext(v, till - 1);
      SegmentOpens(v, base, inner, till);
      PushAbove(base, inner, c);
    }
  }

  // ---------------------------------------------------------------------------
  // The backward scan finds the innermost open delimiter
  // ---------------------------------------------------------------------------

  lemma {:induction false} EnclosingIsInnermost(v: seq<Class>, k: nat, open: seq<Class>, pending: seq<Class>)
    requires k <= |v| && Open(v, k) == Some(open + pending)
    ensures EnclosingOpener(v, k, pending) == if open == [] then None else Some(open[|open| - 1])
  {
    if k > 0 {
      OpenNext(v, k - 1);
      var before, c := Open(v, k - 1).value, v[k - 1];
      if Closer(c) {
        assert before == (open + pending) + [Pair(c)] == open + (pending + [Pair(c)]);
        EnclosingIsInnermost(v, k - 1, open, pending + [Pair(c)]);
      } else if Opener(c) {
        if pending == [] {
          assert (open + pending)[|open| - 1] == c;
        } else {
          assert (open + pending)[|open + pending| - 1] == pending[|pending| - 1] == c;
          assert before == (open + pending)[..|open + pending| - 1] == open + pending[..|pending| - 1];
          EnclosingIsInnermost(v, k - 1, open, pending[..|pending| - 1]);
        }
      } else {
        EnclosingIsInnermost(v, k - 1, open, pending);
      }
    }
  }

  // ---------------------------------------------------------------------------
  // The attribute is nested
  // ---------------------------------------------------------------------------

  // Open parentheses of a stack.
  function Parens(stack: seq<Class>): nat {
    if stack == [] then 0 else Parens(stack[..|stack| - 1]) + if stack[|stack| - 1] == LParen then 1 else 0
  }

  lemma ParensPush(stack: seq<Class>, c: Class)
    requires Push(stack, c).Some?
    ensures Parens(Push(stack, c).value) == Parens(stack) + Delta(c)
  {
    if Opener(c) { assert (stack + [c])[..|stack|] == stack; }
  }

  // r is where the parenthesis on top of `base` closes, with all of `base` open on the way there.
  predicate ClosesAt(v: seq<Class>, base: seq<Class>, j: nat, r: (nat, nat))
    requires base != []
  {
    && r.1 == 0 && j < r.0 <= |v|
    && Open(v, r.0 - 1) == Some(base) && Open(v, r.0) == Some(base[..|base| - 1])
    && forall e :: j <= e < r.0 ==> Reads(v, base, e)
  }

  lemma ClosesHere(v: seq<Class>, base: seq<Class>, j: nat)
    requires j < |v| && base != [] && base[|base| - 1] == LParen && Open(v, j) == Some(base)
    requires Closer(v[j]) && Open(v, j + 1).Some?
    ensures v[j] == RParen && ClosesAt(v, base, j, (j + 1, 0))
  {
    OpenNext(v, j);
    assert Reads(v, base, j);
  }

  lemma ClosesLater(v: seq<Class>, base: seq<Class>, j: nat, r: (nat, nat))
    requires base != [] && Reads(v, base, j) && ClosesAt(v, base, j + 1, r)
    ensures ClosesAt(v, base, j, r)
  {
  }

  // The count that runs ahead of the closing parenthesis is one more than the parentheses open above
  // the attribute's own, so it stops at the parenthesis that matches.
  lemma {:induction false} CloseParenMatches(v: seq<Class>, base: seq<Class>, j: nat, above: seq<Class>)
    requires Nested(v) && j <= |v| && base != [] && base[|base| - 1] == LParen
    requires Open(v, j) == Some(base + above)
    ensures ClosesAt(v, base, j, CloseParen(v, j, 1 + Parens(above)))
    decreases |v| - j
  {
    assert v[..|v|] == v;
    PrefixReads(v, j + 1);
    if above == [] && Closer(v[j]) {
      assert base + above == base;
      ClosesHere(v, base, j);
      assert CloseParen(v, j, 1) == CloseParen(v, j + 1, 0);
    } else {
      OpenNext(v, j);
      PushAbove(base, above, v[j]);
      ParensPush(above, v[j]);
      CloseParenMatches(v, base, j + 1, Push(above, v[j]).value);
      ClosesLater(v, base, j, CloseParen(v, j, 1 + Parens(above)));
    }
  }

  // Everything open before token `from` stays open until token `till`, and nothing else is open there.
  predicate Neutral(v: seq<Class>, from: nat, till: nat) {
    && from <= till <= |v| && Open(v, from).Some? && Open(v, till) == Open(v, from)
    && forall e :: from <= e <= till ==> Reads(v, Open(v, from).value, e)
  }

  lemma NeutralIsNested(v: seq<Class>, from: nat, till: nat)
    requires Neutral(v, from, till)
    ensures Nested(v[from..till])
  {
    var base := Open(v, from).value;
    SegmentNests(v, base, from, till);
    assert |base + Nest(v[from..till], []).value| == |base| + |Nest(v[from..till], []).value|;
  }

  lemma AttributeOpens(v: seq<Class>, i: nat)
    requires CfgAt(v, i) && Open(v, i).Some?
    ensures Open(v, i + 1) == Open(v, i)
    ensures Open(v, i + 2) == Open(v, i + 3) == Some(Open(v, i).value + [LBracket])
    ensures Open(v, i + 4) == Some((Open(v, i).value + [LBracket]) + [LParen])
  {
    OpenNext(v, i);
    OpenNext(v, i + 1);
    OpenNext(v, i + 2);
    OpenNext(v, i + 3);
  }

  lemma AttributeCloses(v: seq<Class>, i: nat, base: seq<Class>, r: (nat, nat))
    requires CfgAt(v, i) && Open(v, i).Some? && base == (Open(v, i).value + [LBracket]) + [LParen]
    requires ClosesAt(v, base, i + 4, r) && r.0 < |v| && v[r.0] == RBracket
    ensures Neutral(v, i, r.0 + 1)
  {
    AttributeOpens(v, i);
    var outside, closing := Open(v, i).value, r.0;
    assert base[..|base| - 1] == outside + [LBracket];
    OpenNext(v, closing);
    assert (outside + [LBracket])[..|outside|] == outside;
    forall e | i <= e <= closing + 1 ensures Reads(v, outside, e) {
      if i + 4 <= e < closing { assert Reads(v, base, e); }
    }
  }

  lemma AttributeNests(v: seq<Class>, i: nat)
    requires Nested(v) && CfgAt(v, i)
    ensures var (closing, depth) := CloseParen(v, i + 4, 1);
      && depth == 0 && i + 4 < closing
      && (closing < |v| && v[closing] == RBracket ==> Neutral(v, i, closing + 1))
  {
    PrefixReads(v, i);
    AttributeOpens(v, i);
    var base := (Open(v, i).value + [LBracket]) + [LParen];
    assert base + [] == base;
    CloseParenMatches(v, base, i + 4, []);
    var r := CloseParen(v, i + 4, 1);
    if r.0 < |v| && v[r.0] == RBracket { AttributeCloses(v, i, base, r); }
  }

  // ---------------------------------------------------------------------------
  // The item is nested
  // ---------------------------------------------------------------------------

  predicate EndsNeutrally(v: seq<Class>, index: nat, end: ItemEnd) {
    match end
    case EndsWith(last) => Neutral(v, index, last + 1)
    case EndsBefore(closer) => Neutral(v, index, closer)
    case Unbalanced(_) => false
    case Unterminated => true
  }

  // In a nested source the scan never reports an unbalanced item, and stops with exactly the
  // delimiters open that were open before the attribute.
  lemma {:induction false} ItemNests(v: seq<Class>, index: nat, e: nat, stack: seq<Class>, sawBody: bool)
    requires Nested(v) && index <= e <= |v| && (sawBody ==> stack != [])
    requires Open(v, index).Some? && Open(v, e) == Some(Open(v, index).value + stack)
    requires forall k :: index <= k <= e ==> Reads(v, Open(v, index).value, k)
    ensures EndsNeutrally(v, index, ItemScan(v, index, e, stack, sawBody))
    decreases |v| - e
  {
    var outside := Open(v, index).value;
    if e < |v| {
      OpenNext(v, e);
      PrefixReads(v, e + 1);
      if stack == [] && Closer(v[e]) {
        assert outside + [] == outside;
        EnclosingIsInnermost(v, index, outside, []);
      } else {
        PushAbove(outside, stack, v[e]);
        assert Reads(v, outside, e + 1);
        ItemStep(v, index, e, stack, sawBody);
      }
    }
  }

  lemma {:induction false} ItemStep(v: seq<Class>, index: nat, e: nat, stack: seq<Class>, sawBody: bool)
    requires Nested(v) && index <= e < |v| && (sawBody ==> stack != []) && (stack != [] || !Closer(v[e]))
    requires Open(v, index).Some? && Push(stack, v[e]).Some?
    requires Open(v, e + 1) == Some(Open(v, index).value + Push(stack, v[e]).value)
    requires forall k :: index <= k <= e + 1 ==> Reads(v, Open(v, index).value, k)
    ensures EndsNeutrally(v, index, ItemScan(v, index, e, stack, sawBody))
    decreases |v| - e, 0
  {
    var c, stack' := v[e], Push(stack, v[e]).value;
    var outside := Open(v, index).value;
    if (Closer(c) && sawBody && |stack| == 1) || ((c == Semi || c == Comma) && stack == []) {
      assert outside + stack' == outside;
    } else {
      ItemNests(v, index, e + 1, stack', sawBody || (c == LBrace && stack == []));
    }
  }

  // ---------------------------------------------------------------------------
  // All items
  // ---------------------------------------------------------------------------

  // Items in order, inside the token list, from position i on.
  predicate InOrder(items: seq<Item>, i: nat, n: nat) {
    items == [] || (i <= items[0].first < items[0].stop <= n && InOrder(items[1..], items[0].stop, n))
  }

  lemma {:induction false} ItemsInOrder(v: seq<Class>, i: nat)
    requires i <= |v| && ItemsFrom(v, i).Items?
    ensures InOrder(ItemsFrom(v, i).items, i, |v|)
    decreases |v| - i
  {
    if i < |v| {
      match ItemAt(v, i)
      case Skip(next) =>
        ItemsInOrder(v, next);
        Earlier(ItemsFrom(v, next).items, next, i, |v|);
      case Hit(item) =>
        ItemsInOrder(v, item.stop);
        assert ItemsFrom(v, i).items[1..] == ItemsFrom(v, item.stop).items;
    }
  }

  lemma Earlier(items: seq<Item>, i: nat, j: nat, n: nat)
    requires InOrder(items, i, n) && j <= i
    ensures InOrder(items, j, n)
  {
  }

  predicate NestedItem(v: seq<Class>, it: Item) {
    it.first <= it.stop <= |v| && Nested(v[it.first..it.stop])
  }

  // No item was reported as unbalanced, and all items are nested.
  predicate AllNested(v: seq<Class>, r: Items) {
    match r
    case Rejected(reason, _) => reason != UnbalancedItem
    case Items(items) => forall k :: 0 <= k < |items| ==> NestedItem(v, items[k])
  }

  lemma ConsNested(v: seq<Class>, it: Item, rest: Items)
    requires NestedItem(v, it) && AllNested(v, rest)
    ensures AllNested(v, Cons(it, rest))
  {
  }

  // In a nested source no item is reported as unbalanced, and every masked item is nested: a masked
  // closer is always masked together with its own opener, never the closer of something outside.
  lemma {:induction false} MaskedItemsAreNested(v: seq<Class>, i: nat)
    requires Nested(v) && i <= |v|
    ensures AllNested(v, ItemsFrom(v, i))
    decreases |v| - i
  {
    if i < |v| {
      MaskedItemIsNested(v, i);
      match ItemAt(v, i)
      case Skip(next) => MaskedItemsAreNested(v, next);
      case Hit(item) =>
        MaskedItemsAreNested(v, item.stop);
        ConsNested(v, item, ItemsFrom(v, item.stop));
      case Bad(_, _) =>
    }
  }

  lemma NeutralEnds(v: seq<Class>, i: nat, end: ItemEnd)
    requires EndsNeutrally(v, i, end)
    ensures end.EndsWith? ==> NestedItem(v, Item(i, end.last + 1, false))
    ensures end.EndsBefore? ==> NestedItem(v, Item(i, end.closer, true))
  {
    if end.EndsWith? { NeutralIsNested(v, i, end.last + 1); }
    if end.EndsBefore? { NeutralIsNested(v, i, end.closer); }
  }

  lemma ItemAfterAttribute(v: seq<Class>, i: nat, index: nat)
    requires Nested(v) && Neutral(v, i, index)
    ensures EndsNeutrally(v, i, ItemScan(v, i, index, [], false))
  {
    assert Open(v, i).value + [] == Open(v, i).value;
    ItemNests(v, i, index, [], false);
  }

  lemma ItemPastIsNested(v: seq<Class>, i: nat, r: (nat, nat), testOnly: bool)
    requires Nested(v) && CfgAt(v, i) && i + 4 <= r.0 <= |v|
    requires r.0 < |v| && v[r.0] == RBracket ==> Neutral(v, i, r.0 + 1)
    ensures SoundItem(v, ItemPast(v, i, r, testOnly))
  {
    if r.0 < |v| && v[r.0] == RBracket {
      ItemAfterAttribute(v, i, r.0 + 1);
      NeutralEnds(v, i, ItemScan(v, i, r.0 + 1, [], false));
    }
  }

  predicate SoundItem(v: seq<Class>, f: Found) {
    (f.Hit? ==> NestedItem(v, f.item)) && (f.Bad? ==> f.reason != UnbalancedItem)
  }

  lemma MaskedItemIsNested(v: seq<Class>, i: nat)
    requires Nested(v) && i < |v|
    ensures SoundItem(v, ItemAt(v, i))
  {
    if CfgAt(v, i) {
      AttributeNests(v, i);
      var r := CloseParen(v, i + 4, 1);
      ItemPastIsNested(v, i, r, IsTest(v, i + 4, r));
    }
  }

  // The tokens that are not masked.
  function Survivors<T>(v: seq<T>, items: seq<Item>, from: nat): seq<T>
    requires from <= |v| && InOrder(items, from, |v|)
  {
    if items == [] then v[from..]
    else v[from..items[0].first] + Survivors(v, items[1..], items[0].stop)
  }

  lemma {:induction false} NestedIsNeutral(v: seq<Class>, base: seq<Class>)
    requires Nest(v, []).Some?
    ensures Nest(v, base) == Some(base + Nest(v, []).value)
    decreases |v|
  {
    if v == [] {
      assert base + [] == base;
    } else {
      var n := |v| - 1;
      NestedIsNeutral(v[..n], base);
      PushAbove(base, Nest(v[..n], []).value, v[n]);
    }
  }

  lemma {:induction false} SurvivorsRead(v: seq<Class>, items: seq<Item>, from: nat, stack: seq<Class>)
    requires from <= |v| && InOrder(items, from, |v|)
    requires forall k :: 0 <= k < |items| ==> NestedItem(v, items[k])
    ensures Nest(Survivors(v, items, from), stack) == Nest(v[from..], stack)
    decreases |items|
  {
    if items != [] {
      var Item(first, stop, _) := items[0];
      var before, item, rest := v[from..first], v[first..stop], Survivors(v, items[1..], stop);
      assert v[from..] == before + (item + v[stop..]);
      NestConcat(before, item + v[stop..], stack);
      NestConcat(before, rest, stack);
      if Nest(before, stack).Some? {
        var mid := Nest(before, stack).value;
        assert NestedItem(v, items[0]);
        NestedIsNeutral(item, mid);
        assert mid + [] == mid;
        NestConcat(item, v[stop..], mid);
        SurvivorsRead(v, items[1..], stop, mid);
      }
    }
  }

  // What survives masking in a nested source is nested.
  lemma SurvivorsAreNested(v: seq<Class>)
    requires Nested(v) && ItemsFrom(v, 0).Items?
    ensures InOrder(ItemsFrom(v, 0).items, 0, |v|) && Nested(Survivors(v, ItemsFrom(v, 0).items, 0))
  {
    ItemsInOrder(v, 0);
    MaskedItemsAreNested(v, 0);
    SurvivorsRead(v, ItemsFrom(v, 0).items, 0, []);
    assert v[0..] == v;
  }
}
