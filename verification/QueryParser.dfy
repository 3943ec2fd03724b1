/**
  The parser as the macro runs it: a stream consumed in place, items pushed in loops.
  Each method is proved to compute the corresponding grammar function.
 */
module QueryParser {
  import opened Common
  import opened FilterLower
  import opened QueryGrammar

  /** A method's result and the stream it leaves are what the grammar says. */
  ghost predicate Agrees<T>(p: Parsed<T>, r: Option<T>, rest: seq<Token>) {
    match p
    case Yes(value, after) => r == Some(value) && rest == after
    case No => r == None
  }

  /** Items already read, then the rest of the list. */
  ghost function Prepend<T>(done: seq<T>, p: Parsed<seq<T>>): Parsed<seq<T>> {
    if p.No? then No else Yes(done + p.value, p.rest)
  }

  lemma PrependStep<T>(done: seq<T>, x: T, p: Parsed<seq<T>>)
    ensures Prepend(done, Prepend([x], p)) == Prepend(done + [x], p)
  {
    if p.Yes? {
      assert done + ([x] + p.value) == done + [x] + p.value;
    }
  }

  class ParseStream {
    var rest: seq<Token>

    constructor (tokens: seq<Token>)
      ensures rest == tokens
    {
      rest := tokens;
    }

    method Advance()
      requires rest != []
      modifies this
      ensures rest == old(rest)[1..]
    {
      rest := rest[1..];
    }

    method FieldPath() returns (r: Option<FieldPath>)
      modifies this
      ensures Agrees(ParseFieldPath(old(rest)), r, rest)
    {
      if rest != [] && rest[0].TStr? {
        r := Some(PathLit(rest[0].text));
        Advance();
        return;
      }
      if !PeekIdent(rest) {
        return None;
      }
      var segments := Dotted();
      r := Some(PathIdents(segments));
    }

    /** The loop shared by paths and plain select fields. */
    method Dotted() returns (segments: seq<Ident>)
      requires PeekIdent(rest)
      modifies this
      ensures var more := ParseDots(old(rest)[1..]); segments == [old(rest)[0].id] + more.value && rest == more.rest
    {
      ghost var start := rest[1..];
      segments := [rest[0].id];
      ghost var first := segments;
      Advance();
      while Peek(rest, TDot)
        invariant segments != []
        invariant Prepend(first, ParseDots(start)) == Prepend(segments, ParseDots(rest))
        decreases |rest|
      {
        if !PeekIdent(rest[1..]) {
          break;
        }
        var next := rest[1].id;
        assert rest[1..][0] == rest[1];
        PrependStep(segments, next, ParseDots(rest[2..]));
        segments := segments + [next];
        rest := rest[2..];
      }
      assert ParseDots(rest) == Yes([], rest);
      assert segments + [] == segments;
    }

    method OptionalAs() returns (r: Option<Option<Ident>>)
      modifies this
      ensures Agrees(ParseOptionalAs(old(rest)), r, rest)
    {
      if Peek(rest, TAs) {
        Advance();
        if !PeekIdent(rest) {
          return None;
        }
        r := Some(Some(rest[0].id));
        Advance();
      } else {
        r := Some(None);
      }
    }

    method RequiredAs() returns (r: Option<Ident>)
      modifies this
      ensures Agrees(ParseRequiredAs(old(rest)), r, rest)
    {
      if !Peek(rest, TAs) {
        return None;
      }
      Advance();
      if !PeekIdent(rest) {
        return None;
      }
      r := Some(rest[0].id);
      Advance();
    }

    /** Segments inside parentheses: a dot must be followed by a name, and nothing may be left. */
    method DottedWhole() returns (r: Option<seq<Ident>>)
      modifies this
      ensures Agrees(ParseDottedAll(old(rest)), r, [])
    {
      if !PeekIdent(rest) {
        return None;
      }
      ghost var start := rest[1..];
      var segments := [rest[0].id];
      ghost var first := segments;
      Advance();
      while Peek(rest, TDot)
        invariant Prepend(first, ParseDots(start)) == Prepend(segments, ParseDots(rest))
        decreases |rest|
      {
        if !PeekIdent(rest[1..]) {
          return None;
        }
        var next := rest[1].id;
        assert rest[1..][0] == rest[1];
        PrependStep(segments, next, ParseDots(rest[2..]));
        segments := segments + [next];
        rest := rest[2..];
      }
      assert segments + [] == segments;
      r := if rest == [] then Some(segments) else None;
    }

    method SelectItem(pe: ExprParser) returns (r: Option<SelectItem>)
      modifies this
      ensures Agrees(ParseSelectItem(pe, old(rest)), r, rest)
    {
      if Peek(rest, TStar) {
        Advance();
        return Some(All);
      }
      if !PeekIdent(rest) {
        return None;
      }
      if PeekParen(rest[1..]) {
        var name, inner := rest[0].id.name, rest[1].inner;
        rest := rest[2..];
        r := SelectCall(pe, name, inner);
        return;
      }
      var segments := Dotted();
      var alias := OptionalAs();
      r := if alias.None? then None else Some(SelectField(segments, alias.value));
    }

    /** The forms with parentheses; `inner` is the content of the parentheses. */
    method SelectCall(pe: ExprParser, name: string, inner: seq<Token>) returns (r: Option<SelectItem>)
      modifies this
      ensures Agrees(ParseSelectCall(pe, name, inner, old(rest)), r, rest)
    {
      if name == "count" && Peek(inner, TStar) {
        if inner[1..] != [] {
          return None;
        }
        var alias := OptionalAs();
        return if alias.None? then None else Some(CountAll(alias.value));
      }
      if IsBuiltinAgg(name) {
        var content := new ParseStream(inner);
        var segments := content.DottedWhole();
        if segments.None? {
          return None;
        }
        var alias := RequiredAs();
        return if alias.None? then None else Some(BuiltinAgg(name, segments.value, alias.value));
      }
      if name != "agg_fn" && name != "func" {
        return None;
      }
      if !(|inner| >= 2 && inner[0].TStr? && inner[1] == TComma) {
        return None;
      }
      if name == "agg_fn" {
        var content := new ParseStream(inner[2..]);
        var segments := content.DottedWhole();
        if segments.None? {
          return None;
        }
        var alias := RequiredAs();
        return if alias.None? then None else Some(AggFn(inner[0].text, segments.value, alias.value));
      }
      var args := ParseExpr(pe, inner[2..]);
      if args.No? || args.rest != [] {
        return None;
      }
      var alias := RequiredAs();
      r := if alias.None? then None else Some(Func(inner[0].text, args.value, alias.value));
    }

    method OrderItem() returns (r: Option<OrderItem>)
      modifies this
      ensures Agrees(ParseOrderItem(old(rest)), r, rest)
    {
      var field := FieldPath();
      if field.None? {
        return None;
      }
      if PeekKw(rest, "desc") {
        Advance();
        return Some(QueryGrammar.OrderItem(field.value, Desc));
      }
      if PeekKw(rest, "asc") {
        Advance();
        return Some(QueryGrammar.OrderItem(field.value, Asc));
      }
      r := None;
    }

    method GroupByFields() returns (r: Option<seq<FieldPath>>)
      modifies this
      ensures Consumes(ParseFieldPath)
      ensures Agrees(ParseList(ParseFieldPath, StopGroup, old(rest)), r, rest)
    {
      hide ParseFieldPath, StopGroup;
      ItemsConsume(_ => None);
      ghost var whole := ParseList(ParseFieldPath, StopGroup, rest);
      var items: seq<FieldPath> := [];
      PrependNothing(whole);
      while true
        invariant whole == Prepend(items, ParseList(ParseFieldPath, StopGroup, rest))
        decreases |rest|
      {
        var item := FieldPath();
        if item.None? {
          return None;
        }
        PrependStep(items, item.value, Yes([], rest));
        ghost var done := items;
        items := items + [item.value];
        if !Peek(rest, TComma) {
          break;
        }
        Advance();
        if StopGroup(rest) {
          break;
        }
        PrependStep(done, item.value, ParseList(ParseFieldPath, StopGroup, rest));
      }
      r := Some(items);
    }

    method SelectItems(pe: ExprParser) returns (r: Option<seq<SelectItem>>)
      modifies this
      ensures Consumes(SelectItemParser(pe))
      ensures Agrees(ParseList(SelectItemParser(pe), StopSelect, old(rest)), r, rest)
    {
      hide ParseSelectItem, StopSelect;
      ItemsConsume(pe);
      ghost var whole := ParseList(SelectItemParser(pe), StopSelect, rest);
      var items: seq<SelectItem> := [];
      PrependNothing(whole);
      while true
        invariant whole == Prepend(items, ParseList(SelectItemParser(pe), StopSelect, rest))
        decreases |rest|
      {
        var item := SelectItem(pe);
        if item.None? {
          return None;
        }
        PrependStep(items, item.value, Yes([], rest));
        ghost var done := items;
        items := items + [item.value];
        if !Peek(rest, TComma) {
          break;
        }
        Advance();
        if StopSelect(rest) {
          break;
        }
        PrependStep(done, item.value, ParseList(SelectItemParser(pe), StopSelect, rest));
      }
      r := Some(items);
    }

    method OrderByItems() returns (r: Option<seq<OrderItem>>)
      modifies this
      ensures Consumes(ParseOrderItem)
      ensures Agrees(ParseList(ParseOrderItem, StopOrder, old(rest)), r, rest)
    {
      hide ParseOrderItem, StopOrder;
      ItemsConsume(_ => None);
      ghost var whole := ParseList(ParseOrderItem, StopOrder, rest);
      var items: seq<OrderItem> := [];
      PrependNothing(whole);
      while true
        invariant whole == Prepend(items, ParseList(ParseOrderItem, StopOrder, rest))
        decreases |rest|
      {
        var item := OrderItem();
        if item.None? {
          return None;
        }
        PrependStep(items, item.value, Yes([], rest));
        ghost var done := items;
        items := items + [item.value];
        if !Peek(rest, TComma) {
          break;
        }
        Advance();
        if StopOrder(rest) {
          break;
        }
        PrependStep(done, item.value, ParseList(ParseOrderItem, StopOrder, rest));
      }
      r := Some(items);
    }

    /** A clause body after its keyword. */
    method FilterExpr(pe: ExprParser) returns (r: Option<Expr>)
      modifies this
      ensures Agrees(ParseFilterExpr(pe, old(rest)), r, rest)
    {
      if rest == [] || PeekClause(rest) {
        return None;
      }
      var got := ParseExpr(pe, rest);
      if got.No? {
        return None;
      }
      rest := got.rest;
      r := Some(got.value);
    }

    method ExprClause(pe: ExprParser, opener: Token) returns (r: Option<Option<Expr>>)
      modifies this
      ensures Agrees(ParseExprClause(pe, opener, old(rest)), r, rest)
    {
      if !Peek(rest, opener) {
        return Some(None);
      }
      Advance();
      var e := FilterExpr(pe);
      r := if e.None? then None else Some(e);
    }

    method Table() returns (r: Option<TableArg>)
      modifies this
      ensures Agrees(ParseTableArg(old(rest)), r, rest)
    {
      if rest != [] && rest[0].TStr? {
        r := Some(SimpleLit(rest[0].text));
        Advance();
        return;
      }
      if !PeekIdent(rest) {
        return None;
      }
      var first := rest[0].id;
      Advance();
      if Peek(rest, TDot) && PeekIdent(rest[1..]) {
        r := Some(Repo(first.name, rest[1].id.name));
        rest := rest[2..];
      } else {
        r := Some(SimpleIdent(first));
      }
    }

    method Number(opener: Token) returns (r: Option<Option<nat>>)
      modifies this
      ensures Agrees(ParseNumber(opener, old(rest)), r, rest)
    {
      if !Peek(rest, opener) {
        return Some(None);
      }
      Advance();
      if rest == [] || !rest[0].TInt? {
        return None;
      }
      r := Some(Some(rest[0].number));
      Advance();
    }

    method GroupByClause() returns (r: Option<seq<FieldPath>>)
      modifies this
      ensures Consumes(ParseFieldPath)
      ensures Agrees(ParseListClause(ParseFieldPath, StopGroup, GROUP_BY, old(rest)), r, rest)
    {
      hide ParseFieldPath, StopGroup;
      ItemsConsume(_ => None);
      r := Some([]);
      if Peek(rest, GROUP_BY) {
        Advance();
        r := GroupByFields();
      }
    }

    method OrderByClause() returns (r: Option<seq<OrderItem>>)
      modifies this
      ensures Consumes(ParseOrderItem)
      ensures Agrees(ParseListClause(ParseOrderItem, StopOrder, ORDER_BY, old(rest)), r, rest)
    {
      hide ParseOrderItem, StopOrder;
      ItemsConsume(_ => None);
      r := Some([]);
      if Peek(rest, ORDER_BY) {
        Advance();
        r := OrderByItems();
      }
    }

    method SelectClause(pe: ExprParser) returns (r: Option<(seq<SelectItem>, bool)>)
      modifies this
      ensures Agrees(ParseSelect(pe, old(rest)), r, rest)
    {
      hide SelectItemParser, StopSelect;
      if !Peek(rest, SELECT) {
        return Some(([], false));
      }
      Advance();
      var distinct := Peek(rest, DISTINCT);
      if distinct {
        Advance();
      }
      var items := SelectItems(pe);
      r := if items.None? then None else Some((items.value, distinct));
    }

    /** The whole read form. */
    method ReadQuery(pe: ExprParser) returns (r: Option<Query>)
      modifies this
      ensures r == ParseQuery(pe, old(rest))
    {
      hide ParseTableArg, ParseExprClause, ParseListClause, ParseSelect, ParseNumber, ParseFieldPath, ParseOrderItem,
           StopGroup, StopOrder, DistinctKeys, Consumes;
      if !Peek(rest, FROM) {
        return None;
      }
      Advance();
      var table := Table();
      if table.None? {
        return None;
      }
      var where_ := ExprClause(pe, TWhere);
      if where_.None? {
        return None;
      }
      var groupBy := GroupByClause();
      if groupBy.None? {
        return None;
      }
      var having := ExprClause(pe, HAVING);
      if having.None? {
        return None;
      }
      var select := SelectClause(pe);
      if select.None? {
        return None;
      }
      var orderBy := OrderByClause();
      if orderBy.None? {
        return None;
      }
      var limit := Number(LIMIT);
      if limit.None? {
        return None;
      }
      var offset := Number(OFFSET);
      if offset.None? || rest != [] {
        return None;
      }
      var distinctKeys := CheckDuplicateSelectKeys(select.value.0);
      if !distinctKeys {
        return None;
      }
      r := Some(Query(table.value, where_.value, groupBy.value, having.value, select.value.0, select.value.1,
                      orderBy.value, limit.value, offset.value));
    }
  }

  /** The linear search over keys seen so far. */
  method CheckDuplicateSelectKeys(items: seq<SelectItem>) returns (ok: bool)
    ensures ok <==> DistinctKeys(items)
  {
    hide SelectKey;
    var seen: seq<string> := [];
    for i := 0 to |items|
      invariant forall a, b :: 0 <= a < b < i && SelectKey(items[a]).Some? ==> SelectKey(items[a]) != SelectKey(items[b])
      invariant forall j :: 0 <= j < i && SelectKey(items[j]).Some? ==> SelectKey(items[j]).value in seen
      invariant forall k :: 0 <= k < |seen| ==> exists j :: 0 <= j < i && SelectKey(items[j]) == Some(seen[k])
    {
      var key := SelectKey(items[i]);
      if key.Some? {
        if key.value in seen {
          ghost var k :| 0 <= k < |seen| && seen[k] == key.value;
          return false;
        }
        seen := seen + [key.value];
      }
    }
    ok := true;
  }

  lemma PrependNothing<T>(p: Parsed<seq<T>>)
    ensures Prepend([], p) == p
  {
    if p.Yes? {
      assert [] + p.value == p.value;
    }
  }
}
