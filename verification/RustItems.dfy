// The second pass of the source guard: which items an unconditional cfg(test) attribute removes, read
// off the sequence of tokens.
module RustItems {
  import opened Prelude

  // A token, as far as the pass can tell tokens apart: it only compares them with these spellings.
  datatype Class =
    | Hash | LParen | RParen | LBracket | RBracket | LBrace | RBrace | Comma | Semi
    | Cfg | Test | All | Other

  function Classify(v: string): Class {
    if v == "#" then Hash
    else if v == "(" then LParen
    else if v == ")" then RParen
    else if v == "[" then LBracket
    else if v == "]" then RBracket
    else if v == "{" then LBrace
    else if v == "}" then RBrace
    else if v == "," then Comma
    else if v == ";" then Semi
    else if v == "cfg" then Cfg
    else if v == "test" then Test
    else if v == "all" then All
    else Other
  }

  // Every class but Other is one spelling.
  lemma ClassifyIs(v: string)
    ensures Classify(v) == Hash <==> v == "#"
    ensures Classify(v) == LParen <==> v == "("
    ensures Classify(v) == RParen <==> v == ")"
    ensures Classify(v) == LBracket <==> v == "["
    ensures Classify(v) == RBracket <==> v == "]"
    ensures Classify(v) == LBrace <==> v == "{"
    ensures Classify(v) == RBrace <==> v == "}"
    ensures Classify(v) == Comma <==> v == ","
    ensures Classify(v) == Semi <==> v == ";"
    ensures Classify(v) == Cfg <==> v == "cfg"
    ensures Classify(v) == Test <==> v == "test"
    ensures Classify(v) == All <==> v == "all"
  {
  }

  predicate Opener(c: Class) { c.LParen? || c.LBracket? || c.LBrace? }
  predicate Closer(c: Class) { c.RParen? || c.RBracket? || c.RBrace? }

  function Pair(c: Class): (o: Class)
    requires Closer(c)
    ensures Opener(o)
  {
    if c.RParen? then LParen else if c.RBracket? then LBracket else LBrace
  }

  // ---------------------------------------------------------------------------
  // The attribute
  // ---------------------------------------------------------------------------

  function Delta(c: Class): int { if c.LParen? then 1 else if c.RParen? then -1 else 0 }

  predicate CfgAt(v: seq<Class>, i: nat) {
    i + 4 <= |v| && v[i] == Hash && v[i + 1] == LBracket && v[i + 2] == Cfg && v[i + 3] == LParen
  }

  // Where the parenthesis count returns to zero, and the count that was left at the end.
  function CloseParen(v: seq<Class>, j: nat, depth: nat): (r: (nat, nat))
    requires j <= |v|
    ensures j <= r.0 <= |v| && (r.1 > 0 ==> r.0 == |v|)
    ensures depth > 0 && r.1 == 0 ==> j < r.0 && v[r.0 - 1] == RParen
    decreases |v| - j
  {
    if j == |v| || depth == 0 then (j, depth)
    else CloseParen(v, j + 1, depth + Delta(v[j]))
  }

  // The parenthesis count of a token list.
  function Depth(v: seq<Class>): int {
    if v == [] then 0 else Depth(v[..|v| - 1]) + Delta(v[|v| - 1])
  }

  // `test` stands at the top level as a whole argument: a comma or an end on either side.
  predicate WholeArgument(args: seq<Class>, k: nat) {
    && k < |args| && args[k] == Test && Depth(args[..k]) == 0
    && (k == 0 || args[k - 1] == Comma)
    && (k + 1 == |args| || args[k + 1] == Comma)
  }

  function AllArguments(cond: seq<Class>): Option<seq<Class>> {
    if |cond| >= 3 && cond[0] == All && cond[1] == LParen && cond[|cond| - 1] == RParen
    then Some(cond[2..|cond| - 1]) else None
  }

  // cfg(test), or a direct `test` conjunct of cfg(all(...)).
  predicate TestOnly(cond: seq<Class>) {
    || cond == [Test]
    || (AllArguments(cond).Some? &&
        var args := AllArguments(cond).value;
        exists k :: 0 <= k < |args| && WholeArgument(args, k))
  }

  predicate TopComma(list: seq<Class>, k: nat) {
    k < |list| && list[k] == Comma && Depth(list[..k]) == 0
  }

  // An argument starts here.
  predicate Boundary(list: seq<Class>, begin: nat) {
    begin == 0 || (begin <= |list| && TopComma(list, begin - 1))
  }

  lemma DepthNext(list: seq<Class>, i: nat)
    requires i < |list|
    ensures Depth(list[..i + 1]) == Depth(list[..i]) + Delta(list[i])
  {
    assert list[..i + 1][..i] == list[..i];
  }

  // The source splits the arguments at top-level commas, collecting one argument at a time.
  method HasTestArgument(args: seq<Class>) returns (seen: bool)
    ensures seen <==> exists k :: 0 <= k < |args| && WholeArgument(args, k)
  {
    var list := args + [Comma];
    var argument: seq<Class>, nesting := [], 0;
    seen := false;
    ghost var begin: nat := 0;
    for i := 0 to |list|
      invariant begin <= i && argument == list[begin..i] && nesting == Depth(list[..i])
      invariant Boundary(list, begin)
      invariant forall k :: begin <= k < i ==> !TopComma(list, k)
      invariant seen <==> exists k :: 0 <= k < begin && WholeArgument(args, k)
    {
      DepthNext(list, i);
      if list[i] == Comma && nesting == 0 {
        OneArgument(args, list, begin, i);
        seen := seen || argument == [Test];
        argument := [];
        begin := i + 1;
      } else {
        SliceNext(list, begin, i);
        argument := argument + [list[i]];
        nesting := nesting + Delta(list[i]);
      }
    }
    forall k | begin <= k && WholeArgument(args, k) ensures false {
      ArgumentIsTop(args, list, begin, |list|, k);
    }
  }

  lemma SliceNext(list: seq<Class>, begin: nat, i: nat)
    requires begin <= i < |list|
    ensures list[begin..i] + [list[i]] == list[begin..i + 1]
  {
  }

  method IsTestOnly(cond: seq<Class>) returns (testOnly: bool)
    ensures testOnly <==> TestOnly(cond)
  {
    testOnly := cond == [Test];
    if |cond| >= 3 && cond[0] == All && cond[1] == LParen && cond[|cond| - 1] == RParen {
      var seen := HasTestArgument(cond[2..|cond| - 1]);
      testOnly := testOnly || seen;
    }
  }

  // A whole argument begins at a boundary and ends at a top-level comma.
  lemma ArgumentIsTop(args: seq<Class>, list: seq<Class>, begin: nat, i: nat, k: nat)
    requires list == args + [Comma] && begin <= k < i <= |list| && Boundary(list, begin)
    requires forall m :: begin <= m < k ==> !TopComma(list, m)
    requires WholeArgument(args, k)
    ensures k == begin && TopComma(list, k + 1)
  {
    assert list[..k] == args[..k];
    if k > 0 {
      assert list[..k][..k - 1] == list[..k - 1];
      assert TopComma(list, k - 1);
    }
    assert list[..k + 1][..k] == list[..k];
  }

  lemma OneArgument(args: seq<Class>, list: seq<Class>, begin: nat, i: nat)
    requires list == args + [Comma] && begin <= i < |list| && Boundary(list, begin) && TopComma(list, i)
    requires forall m :: begin <= m < i ==> !TopComma(list, m)
    ensures list[begin..i] == [Test] <==> exists k :: begin <= k < i + 1 && WholeArgument(args, k)
  {
    if list[begin..i] == [Test] {
      assert list[begin..i][0] == list[begin];
      assert list[..begin] == args[..begin];
      if begin > 0 { assert list[..begin][..begin - 1] == list[..begin - 1]; }
      assert WholeArgument(args, begin);
    }
    forall k | begin <= k < i + 1 && WholeArgument(args, k) ensures list[begin..i] == [Test] {
      ArgumentIsTop(args, list, begin, i + 1, k);
    }
  }

  // ---------------------------------------------------------------------------
  // The item after the attribute
  // ---------------------------------------------------------------------------

  // The innermost opener still open before token k, looking backwards past matched pairs; `pending`
  // holds the openers that closers seen so far are waiting for.
  function EnclosingOpener(v: seq<Class>, k: nat, pending: seq<Class>): Option<Class>
    requires k <= |v|
  {
    if k == 0 then None
    else if Closer(v[k - 1]) then EnclosingOpener(v, k - 1, pending + [Pair(v[k - 1])])
    else if Opener(v[k - 1]) then
      if pending == [] then Some(v[k - 1])
      else if pending[|pending| - 1] != v[k - 1] then None
      else EnclosingOpener(v, k - 1, pending[..|pending| - 1])
    else EnclosingOpener(v, k - 1, pending)
  }

  // Where an item ends: after its last token, or in front of the closer that encloses it.
  datatype ItemEnd = EndsWith(last: nat) | EndsBefore(closer: nat) | Unbalanced(at: nat) | Unterminated

  function ItemScan(v: seq<Class>, index: nat, e: nat, stack: seq<Class>, sawBody: bool): (r: ItemEnd)
    requires index <= e <= |v|
    ensures r.EndsWith? ==> e <= r.last < |v| && (Closer(v[r.last]) || v[r.last] == Semi || v[r.last] == Comma)
    ensures r.EndsBefore? ==> e <= r.closer < |v| && Closer(v[r.closer])
    ensures r.Unbalanced? ==> e <= r.at < |v|
    decreases |v| - e
  {
    if e == |v| then Unterminated
    else if Opener(v[e]) then ItemScan(v, index, e + 1, stack + [v[e]], sawBody || (v[e] == LBrace && stack == []))
    else if Closer(v[e]) then
      if stack == [] && !sawBody && EnclosingOpener(v, index, []) == Some(Pair(v[e])) then EndsBefore(e)
      else if stack == [] || stack[|stack| - 1] != Pair(v[e]) then Unbalanced(e)
      else if sawBody && |stack| == 1 then EndsWith(e)
      else ItemScan(v, index, e + 1, stack[..|stack| - 1], sawBody)
    else if (v[e] == Semi || v[e] == Comma) && stack == [] then EndsWith(e)
    else ItemScan(v, index, e + 1, stack, sawBody)
  }

  // ---------------------------------------------------------------------------
  // All items
  // ---------------------------------------------------------------------------

  // Tokens first .. stop, cut off before token `stop` where an enclosing closer stands there.
  datatype Item = Item(first: nat, stop: nat, boundary: bool)

  // Token k belongs to one of the items.
  predicate InSome(items: seq<Item>, k: nat) { exists j :: 0 <= j < |items| && items[j].first <= k < items[j].stop }

  datatype Reason = UnbalancedCfg | UnbalancedItem | UnterminatedItem

  datatype Items = Items(items: seq<Item>) | Rejected(reason: Reason, at: nat)

  function Cons(i: Item, rest: Items): Items {
    if rest.Items? then Items([i] + rest.items) else rest
  }

  // What stands at token i: nothing to mask, an item to mask, or something to refuse.
  datatype Found = Skip(next: nat) | Hit(item: Item) | Bad(reason: Reason, at: nat)

  // The condition between the attribute's parentheses guards tests only.
  predicate IsTest(v: seq<Class>, j: nat, r: (nat, nat)) {
    r.1 == 0 && j < r.0 <= |v| && TestOnly(v[j..r.0 - 1])
  }

  function FoundBy(i: nat, end: ItemEnd): Found {
    match end
    case EndsWith(last) => Hit(Item(i, last + 1, false))
    case EndsBefore(closer) => Hit(Item(i, closer, true))
    case Unbalanced(at) => Bad(UnbalancedItem, at)
    case Unterminated => Bad(UnterminatedItem, i)
  }

  // What stands at an attribute whose parenthesis count ran to r.
  function ItemPast(v: seq<Class>, i: nat, r: (nat, nat), testOnly: bool): (f: Found)
    requires CfgAt(v, i) && i + 4 <= r.0 <= |v|
    ensures f.Skip? ==> i < f.next <= |v|
    ensures f.Hit? ==> f.item.first == i && i < f.item.stop <= |v|
    ensures f.Hit? && f.item.boundary ==> f.item.stop < |v| && Closer(v[f.item.stop])
    ensures f.Hit? && !f.item.boundary ==>
              var last := v[f.item.stop - 1]; Closer(last) || last == Semi || last == Comma
    ensures f.Bad? ==> f.at < |v|
  {
    if r.1 > 0 || r.0 == |v| || v[r.0] != RBracket then Bad(UnbalancedCfg, i)
    else if !testOnly then Skip(r.0 + 1)
    else FoundBy(i, ItemScan(v, i, r.0 + 1, [], false))
  }

  function ItemAt(v: seq<Class>, i: nat): (r: Found)
    requires i < |v|
    ensures r.Skip? ==> i < r.next <= |v|
    ensures r.Hit? ==> r.item.first == i && i < r.item.stop <= |v| && CfgAt(v, i)
    ensures r.Hit? && r.item.boundary ==> r.item.stop < |v| && Closer(v[r.item.stop])
    ensures r.Hit? && !r.item.boundary ==>
              var last := v[r.item.stop - 1]; Closer(last) || last == Semi || last == Comma
    ensures r.Bad? ==> r.at < |v|
  {
    if !CfgAt(v, i) then Skip(i + 1)
    else
      var r := CloseParen(v, i + 4, 1);
      ItemPast(v, i, r, IsTest(v, i + 4, r))
  }

  function ItemsFrom(v: seq<Class>, i: nat): Items
    requires i <= |v|
    decreases |v| - i
  {
    if i == |v| then Items([])
    else
      match ItemAt(v, i)
      case Skip(next) => ItemsFrom(v, next)
      case Hit(item) => Cons(item, ItemsFrom(v, item.stop))
      case Bad(reason, at) => Rejected(reason, at)
  }

  // ---------------------------------------------------------------------------
  // The pass as the source runs it
  // ---------------------------------------------------------------------------

  method FindEnclosing(v: seq<Class>, index: nat) returns (opener: Option<Class>)
    requires index <= |v|
    ensures opener == EnclosingOpener(v, index, [])
  {
    var preceding: seq<Class> := [];
    var k := index;
    while k > 0
      invariant 0 <= k <= index && EnclosingOpener(v, index, []) == EnclosingOpener(v, k, preceding)
    {
      k := k - 1;
      var prior := v[k];
      if Closer(prior) {
        preceding := preceding + [Pair(prior)];
      } else if Opener(prior) {
        if preceding == [] { return Some(prior); }
        var expected := preceding[|preceding| - 1];
        preceding := preceding[..|preceding| - 1];
        if expected != prior { return None; }
      }
    }
    return None;
  }

  method FindItemEnd(v: seq<Class>, index: nat, start: nat) returns (r: ItemEnd)
    requires index <= start <= |v|
    ensures r == ItemScan(v, index, start, [], false)
  {
    var e := start;
    var stack: seq<Class>, sawBody := [], false;
    while e < |v|
      invariant start <= e <= |v| && ItemScan(v, index, start, [], false) == ItemScan(v, index, e, stack, sawBody)
    {
      var token := v[e];
      if Opener(token) {
        if token == LBrace && stack == [] { sawBody := true; }
        stack := stack + [token];
      } else if Closer(token) {
        if stack == [] && !sawBody {
          var opener := FindEnclosing(v, index);
          if opener == Some(Pair(token)) { return EndsBefore(e); }
        }
        if stack == [] || stack[|stack| - 1] != Pair(token) { return Unbalanced(e); }
        stack := stack[..|stack| - 1];
        if sawBody && stack == [] { return EndsWith(e); }
      } else if (token == Semi || token == Comma) && stack == [] {
        return EndsWith(e);
      }
      e := e + 1;
    }
    return Unterminated;
  }

  method FindCloseParen(v: seq<Class>, start: nat) returns (closing: nat, depth: nat)
    requires start <= |v|
    ensures (closing, depth) == CloseParen(v, start, 1)
  {
    closing, depth := start, 1;
    while closing < |v| && depth > 0
      invariant start <= closing <= |v| && CloseParen(v, start, 1) == CloseParen(v, closing, depth)
    {
      depth := depth + Delta(v[closing]);
      closing := closing + 1;
    }
  }

  method FindItem(v: seq<Class>, index: nat) returns (found: Found)
    requires index < |v|
    ensures found == ItemAt(v, index)
  {
    if !CfgAt(v, index) { return Skip(index + 1); }
    var closing, depth := FindCloseParen(v, index + 4);
    if depth > 0 || closing == |v| || v[closing] != RBracket { return Bad(UnbalancedCfg, index); }
    var testOnly := IsTestOnly(v[index + 4..closing - 1]);
    if !testOnly { return Skip(closing + 1); }
    var end := FindItemEnd(v, index, closing + 1);
    return FoundBy(index, end);
  }
}
