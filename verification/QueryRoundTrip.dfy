/**
  The parser against the spelling. The main results: the parser accepts exactly the
  legal spellings, each read back as its own tree, and every tree whose names avoid
  the look-ahead keywords has a legal spelling.
 */
module QueryRoundTrip {
  import opened Common
  import opened FilterLower
  import opened QueryGrammar
  import opened QuerySpelling

  // ---- comma-separated lists, for any kind of item ----

  type Show<!T> = (T, ItemLayout) -> seq<Token>
  type Fits<!T> = (T, ItemLayout, seq<Token>) -> bool

  function Trail(trail: bool): seq<Token> {
    if trail then [TComma] else []
  }

  function ShowList<T>(show: Show<T>, items: seq<T>, lays: seq<ItemLayout>, trail: bool): seq<Token>
    requires |items| == |lays|
  {
    if items == [] then []
    else if |items| == 1 then show(items[0], lays[0]) + Trail(trail)
    else show(items[0], lays[0]) + ([TComma] + ShowList(show, items[1..], lays[1..], trail))
  }

  /** No item runs into what follows it, and the list does not stop early. */
  predicate FitsList<T>(show: Show<T>, fits: Fits<T>, stop: seq<Token> -> bool,
                        items: seq<T>, lays: seq<ItemLayout>, trail: bool, rest: seq<Token>)
    requires |items| == |lays|
  {
    && items != []
    && if |items| == 1 then
         && fits(items[0], lays[0], Trail(trail) + rest)
         && (if trail then stop(rest) else !Peek(rest, TComma))
       else
         var more := ShowList(show, items[1..], lays[1..], trail) + rest;
         && fits(items[0], lays[0], [TComma] + more)
         && !stop(more)
         && FitsList(show, fits, stop, items[1..], lays[1..], trail, rest)
  }

  ghost predicate Writes<T(!new)>(item: seq<Token> -> Parsed<T>, show: Show<T>, fits: Fits<T>) {
    forall x, lay, rest :: fits(x, lay, rest) ==> item(show(x, lay) + rest) == Yes(x, rest)
  }

  ghost predicate SpelledBy<T(!new)>(show: Show<T>, fits: Fits<T>, lay: ItemLayout, ts: seq<Token>, x: T, rest: seq<Token>) {
    ts == show(x, lay) + rest && fits(x, lay, rest)
  }

  ghost predicate Reads<T(!new)>(item: seq<Token> -> Parsed<T>, show: Show<T>, fits: Fits<T>) {
    forall ts {:trigger item(ts)} :: item(ts).Yes? ==>
      exists lay :: SpelledBy(show, fits, lay, ts, item(ts).value, item(ts).rest)
  }

  /** One turn of the list loop. */
  lemma ListStep<T(!new)>(item: seq<Token> -> Parsed<T>, stop: seq<Token> -> bool, ts: seq<Token>, x: T, after: seq<Token>)
    requires Consumes(item) && item(ts) == Yes(x, after)
    ensures !Peek(after, TComma) ==> ParseList(item, stop, ts) == Yes([x], after)
    ensures Peek(after, TComma) && stop(after[1..]) ==> ParseList(item, stop, ts) == Yes([x], after[1..])
    ensures Peek(after, TComma) && !stop(after[1..]) && ParseList(item, stop, after[1..]).Yes? ==>
              var more := ParseList(item, stop, after[1..]);
              ParseList(item, stop, ts) == Yes([x] + more.value, more.rest)
  {
  }

  lemma {:induction false} ListForward<T(!new)>(
    item: seq<Token> -> Parsed<T>, stop: seq<Token> -> bool, show: Show<T>, fits: Fits<T>,
    items: seq<T>, lays: seq<ItemLayout>, trail: bool, rest: seq<Token>)
    requires Consumes(item) && Writes(item, show, fits)
    requires |items| == |lays| && FitsList(show, fits, stop, items, lays, trail, rest)
    ensures ParseList(item, stop, ShowList(show, items, lays, trail) + rest) == Yes(items, rest)
    decreases |items|
  {
    hide ParseList, Consumes;
    var first := show(items[0], lays[0]);
    if |items| == 1 {
      var after := Trail(trail) + rest;
      Associate(first, Trail(trail), rest);
      assert items == [items[0]];
      ListStep(item, stop, first + after, items[0], after);
      if trail {
        assert after[0] == TComma && after[1..] == rest;
      } else {
        assert after == rest;
      }
    } else {
      var tail := ShowList(show, items[1..], lays[1..], trail);
      ListForward(item, stop, show, fits, items[1..], lays[1..], trail, rest);
      var after := [TComma] + (tail + rest);
      Associate([TComma], tail, rest);
      Associate(first, [TComma] + tail, rest);
      assert after[0] == TComma && after[1..] == tail + rest;
      ListStep(item, stop, first + after, items[0], after);
      assert [items[0]] + items[1..] == items;
    }
  }

  lemma {:induction false} ListBackward<T(!new)>(
    item: seq<Token> -> Parsed<T>, stop: seq<Token> -> bool, show: Show<T>, fits: Fits<T>, ts: seq<Token>)
    returns (lays: seq<ItemLayout>, trail: bool)
    requires Consumes(item) && Reads(item, show, fits)
    requires ParseList(item, stop, ts).Yes?
    ensures var r := ParseList(item, stop, ts);
            && |r.value| == |lays|
            && ts == ShowList(show, r.value, lays, trail) + r.rest
            && FitsList(show, fits, stop, r.value, lays, trail, r.rest)
    decreases |ts|
  {
    var r := ParseList(item, stop, ts);
    var first := item(ts);
    var lay :| SpelledBy(show, fits, lay, ts, first.value, first.rest);
    var head := show(first.value, lay);
    lays, trail := [lay], false;
    if Peek(first.rest, TComma) {
      var after := first.rest[1..];
      assert first.rest == [TComma] + after;
      if stop(after) {
        trail := true;
        Associate(head, [TComma], after);
      } else {
        var moreLays;
        moreLays, trail := ListBackward(item, stop, show, fits, after);
        lays := [lay] + moreLays;
        var more := ParseList(item, stop, after);
        ConsList(show, fits, stop, first.value, lay, more.value, moreLays, trail, more.rest);
      }
    } else {
      assert Trail(false) + first.rest == first.rest;
      assert head + Trail(false) == head;
    }
  }

  lemma ConsList<T>(show: Show<T>, fits: Fits<T>, stop: seq<Token> -> bool,
                    x: T, lay: ItemLayout, items: seq<T>, lays: seq<ItemLayout>, trail: bool, rest: seq<Token>)
    requires |items| == |lays| && FitsList(show, fits, stop, items, lays, trail, rest)
    requires var more := ShowList(show, items, lays, trail) + rest; fits(x, lay, [TComma] + more) && !stop(more)
    ensures FitsList(show, fits, stop, [x] + items, [lay] + lays, trail, rest)
    ensures ShowList(show, [x] + items, [lay] + lays, trail) + rest
         == show(x, lay) + ([TComma] + (ShowList(show, items, lays, trail) + rest))
  {
    assert ([x] + items)[1..] == items && ([lay] + lays)[1..] == lays;
    Associate([TComma], ShowList(show, items, lays, trail), rest);
    Associate(show(x, lay), [TComma] + ShowList(show, items, lays, trail), rest);
  }

  // ---- the three kinds of list ----

  const SHOW_PATH: Show<FieldPath> := (f, lay) => ShowPath(f)
  const PATH_FITS: Fits<FieldPath> := (f, lay, rest) => PathFits(f, rest)
  const SHOW_ORDER: Show<OrderItem> := (x, lay) => ShowOrder(x)
  const ORDER_FITS: Fits<OrderItem> := (x, lay, rest) => OrderFits(x)
  const SHOW_ITEM: Show<SelectItem> := (x, lay) => ShowItem(x, lay)

  ghost function ItemFit(pe: ExprParser): Fits<SelectItem> {
    (x, lay, rest) => ItemFits(pe, x, lay, rest)
  }

  lemma PathList()
    ensures Consumes(ParseFieldPath)
    ensures Writes(ParseFieldPath, SHOW_PATH, PATH_FITS) && Reads(ParseFieldPath, SHOW_PATH, PATH_FITS)
  {
    forall f: FieldPath, lay: ItemLayout, rest: seq<Token> | PATH_FITS(f, lay, rest)
      ensures ParseFieldPath(SHOW_PATH(f, lay) + rest) == Yes(f, rest)
    {
      PathForward(f, rest);
    }
    forall ts: seq<Token> | ParseFieldPath(ts).Yes?
      ensures exists lay :: SpelledBy(SHOW_PATH, PATH_FITS, lay, ts, ParseFieldPath(ts).value, ParseFieldPath(ts).rest)
    {
      PathBackward(ts);
      assert SpelledBy(SHOW_PATH, PATH_FITS, ItemLayout(false, []), ts, ParseFieldPath(ts).value, ParseFieldPath(ts).rest);
    }
  }

  lemma OrderList()
    ensures Consumes(ParseOrderItem)
    ensures Writes(ParseOrderItem, SHOW_ORDER, ORDER_FITS) && Reads(ParseOrderItem, SHOW_ORDER, ORDER_FITS)
  {
    hide ParseOrderItem, ShowOrder, OrderFits;
    forall x: OrderItem, lay: ItemLayout, rest: seq<Token> | ORDER_FITS(x, lay, rest)
      ensures ParseOrderItem(SHOW_ORDER(x, lay) + rest) == Yes(x, rest)
    {
      OrderForward(x, rest);
    }
    forall ts: seq<Token> | ParseOrderItem(ts).Yes?
      ensures exists lay :: SpelledBy(SHOW_ORDER, ORDER_FITS, lay, ts, ParseOrderItem(ts).value, ParseOrderItem(ts).rest)
    {
      OrderBackward(ts);
      assert SpelledBy(SHOW_ORDER, ORDER_FITS, ItemLayout(false, []), ts, ParseOrderItem(ts).value, ParseOrderItem(ts).rest);
    }
  }

  lemma ItemList(pe: ExprParser)
    ensures Consumes(SelectItemParser(pe))
    ensures Writes(SelectItemParser(pe), SHOW_ITEM, ItemFit(pe)) && Reads(SelectItemParser(pe), SHOW_ITEM, ItemFit(pe))
  {
    hide ParseSelectItem, ShowItem, ItemFits;
    var item := SelectItemParser(pe);
    forall x: SelectItem, lay: ItemLayout, rest: seq<Token> | ItemFit(pe)(x, lay, rest)
      ensures item(SHOW_ITEM(x, lay) + rest) == Yes(x, rest)
    {
      ItemForward(pe, x, lay, rest);
    }
    forall ts: seq<Token> | item(ts).Yes?
      ensures exists lay :: SpelledBy(SHOW_ITEM, ItemFit(pe), lay, ts, item(ts).value, item(ts).rest)
    {
      var lay := ItemBackward(pe, ts);
      assert SpelledBy(SHOW_ITEM, ItemFit(pe), lay, ts, item(ts).value, item(ts).rest);
    }
  }

  // ---- clauses: how each is spelled, and what may follow it ----

  function ShowExprClause(opener: Token, e: Option<Expr>, toks: seq<Token>): seq<Token> {
    if e.Some? then [opener] + toks else []
  }

  /** The expression parser takes exactly `toks`; an absent clause is not followed by its own keyword. */
  ghost predicate ExprClauseFits(pe: ExprParser, opener: Token, e: Option<Expr>, toks: seq<Token>, rest: seq<Token>) {
    if e.Some? then
      && toks + rest != [] && !PeekClause(toks + rest)
      && pe(toks + rest) == Some((e.value, |toks|))
    else !Peek(rest, opener)
  }

  lemma ExprClauseForward(pe: ExprParser, opener: Token, e: Option<Expr>, toks: seq<Token>, rest: seq<Token>)
    requires ExprClauseFits(pe, opener, e, toks, rest)
    ensures ParseExprClause(pe, opener, ShowExprClause(opener, e, toks) + rest) == Yes(e, rest)
  {
    if e.Some? {
      Associate([opener], toks, rest);
      assert ([opener] + (toks + rest))[1..] == toks + rest;
      assert (toks + rest)[|toks|..] == rest;
    } else {
      assert [] + rest == rest;
    }
  }

  lemma ExprClauseBackward(pe: ExprParser, opener: Token, ts: seq<Token>) returns (toks: seq<Token>)
    requires ParseExprClause(pe, opener, ts).Yes?
    ensures var r := ParseExprClause(pe, opener, ts);
            ts == ShowExprClause(opener, r.value, toks) + r.rest && ExprClauseFits(pe, opener, r.value, toks, r.rest)
  {
    toks := [];
    if Peek(ts, opener) {
      var body := ts[1..];
      var n := pe(body).value.1;
      toks := body[..n];
      assert body == toks + body[n..];
      assert ts == [opener] + body;
      Associate([opener], toks, body[n..]);
    } else {
      assert [] + ts == ts;
    }
  }

  function ShowListClause<T>(show: Show<T>, opener: Token, items: seq<T>, lays: seq<ItemLayout>, trail: bool): seq<Token>
    requires |items| == |lays|
  {
    if items == [] then [] else [opener] + ShowList(show, items, lays, trail)
  }

  predicate ListClauseFits<T>(show: Show<T>, fits: Fits<T>, stop: seq<Token> -> bool, opener: Token,
                              items: seq<T>, lays: seq<ItemLayout>, trail: bool, rest: seq<Token>)
  {
    && |items| == |lays|
    && if items == [] then !Peek(rest, opener) else FitsList(show, fits, stop, items, lays, trail, rest)
  }

  lemma ListClauseForward<T(!new)>(
    item: seq<Token> -> Parsed<T>, stop: seq<Token> -> bool, show: Show<T>, fits: Fits<T>, opener: Token,
    items: seq<T>, lays: seq<ItemLayout>, trail: bool, rest: seq<Token>)
    requires Consumes(item) && Writes(item, show, fits)
    requires ListClauseFits(show, fits, stop, opener, items, lays, trail, rest)
    ensures ParseListClause(item, stop, opener, ShowListClause(show, opener, items, lays, trail) + rest) == Yes(items, rest)
  {
    hide ParseList, FitsList, Consumes, Writes;
    if items == [] {
      assert [] + rest == rest;
    } else {
      var body := ShowList(show, items, lays, trail);
      ListForward(item, stop, show, fits, items, lays, trail, rest);
      Associate([opener], body, rest);
      assert ([opener] + (body + rest))[1..] == body + rest;
    }
  }

  lemma ListClauseBackward<T(!new)>(
    item: seq<Token> -> Parsed<T>, stop: seq<Token> -> bool, show: Show<T>, fits: Fits<T>, opener: Token, ts: seq<Token>)
    returns (lays: seq<ItemLayout>, trail: bool)
    requires Consumes(item) && Reads(item, show, fits)
    requires ParseListClause(item, stop, opener, ts).Yes?
    ensures var r := ParseListClause(item, stop, opener, ts);
            && |r.value| == |lays|
            && ts == ShowListClause(show, opener, r.value, lays, trail) + r.rest
            && ListClauseFits(show, fits, stop, opener, r.value, lays, trail, r.rest)
  {
    lays, trail := [], false;
    if Peek(ts, opener) {
      hide Consumes, Reads, FitsList;
      lays, trail := ListBackward(item, stop, show, fits, ts[1..]);
      var r := ParseList(item, stop, ts[1..]);
      assert ts == [opener] + ts[1..];
      Associate([opener], ShowList(show, r.value, lays, trail), r.rest);
    } else {
      assert [] + ts == ts;
    }
  }

  function ShowSelect(items: seq<SelectItem>, distinct: bool, lays: seq<ItemLayout>, trail: bool): seq<Token>
    requires |items| == |lays|
  {
    if items == [] then []
    else [SELECT] + ((if distinct then [DISTINCT] else []) + ShowList(SHOW_ITEM, items, lays, trail))
  }

  ghost predicate SelectFits(pe: ExprParser, items: seq<SelectItem>, distinct: bool, lays: seq<ItemLayout>, trail: bool, rest: seq<Token>) {
    && |items| == |lays|
    && if items == [] then !distinct && !Peek(rest, SELECT)
       else
         && FitsList(SHOW_ITEM, ItemFit(pe), StopSelect, items, lays, trail, rest)
         && (!distinct ==> !Peek(ShowList(SHOW_ITEM, items, lays, trail) + rest, DISTINCT))
  }

  /** The clause after its keyword, with or without the mark. */
  lemma SelectBody(pe: ExprParser, distinct: bool, body: seq<Token>, items: seq<SelectItem>, rest: seq<Token>)
    requires Consumes(SelectItemParser(pe)) && ParseList(SelectItemParser(pe), StopSelect, body) == Yes(items, rest)
    requires !distinct ==> !Peek(body, DISTINCT)
    ensures ParseSelect(pe, [SELECT] + ((if distinct then [DISTINCT] else []) + body)) == Yes((items, distinct), rest)
  {
    hide ParseList, SelectItemParser, Consumes;
    var mark := if distinct then [DISTINCT] else [];
    var ts := [SELECT] + (mark + body);
    assert ts[1..] == mark + body;
    if distinct {
      assert ts[1..][0] == DISTINCT && ts[2..] == body;
    } else {
      assert mark + body == body;
    }
  }

  lemma SelectForward(pe: ExprParser, items: seq<SelectItem>, distinct: bool, lays: seq<ItemLayout>, trail: bool, rest: seq<Token>)
    requires SelectFits(pe, items, distinct, lays, trail, rest)
    ensures ParseSelect(pe, ShowSelect(items, distinct, lays, trail) + rest) == Yes((items, distinct), rest)
  {
    hide ParseList, FitsList, Consumes, Writes, Reads, SelectItemParser;
    if items == [] {
      assert [] + rest == rest;
    } else {
      hide ParseSelect;
      ItemList(pe);
      var body := ShowList(SHOW_ITEM, items, lays, trail);
      var mark := if distinct then [DISTINCT] else [];
      ListForward(SelectItemParser(pe), StopSelect, SHOW_ITEM, ItemFit(pe), items, lays, trail, rest);
      SelectBody(pe, distinct, body + rest, items, rest);
      Associate(mark, body, rest);
      Associate([SELECT], mark + body, rest);
    }
  }

  lemma SelectBackward(pe: ExprParser, ts: seq<Token>) returns (lays: seq<ItemLayout>, trail: bool)
    requires ParseSelect(pe, ts).Yes?
    ensures var r := ParseSelect(pe, ts);
            && |r.value.0| == |lays|
            && ts == ShowSelect(r.value.0, r.value.1, lays, trail) + r.rest
            && SelectFits(pe, r.value.0, r.value.1, lays, trail, r.rest)
  {
    hide FitsList, Consumes, Writes, Reads, SelectItemParser;
    lays, trail := [], false;
    ItemList(pe);
    if Peek(ts, SELECT) {
      var distinct := Peek(ts[1..], DISTINCT);
      var body := if distinct then ts[2..] else ts[1..];
      lays, trail := ListBackward(SelectItemParser(pe), StopSelect, SHOW_ITEM, ItemFit(pe), body);
      var r := ParseList(SelectItemParser(pe), StopSelect, body);
      var shown := ShowList(SHOW_ITEM, r.value, lays, trail);
      var mark := if distinct then [DISTINCT] else [];
      assert ts[1..] == mark + body;
      assert ts == [SELECT] + ts[1..];
      Associate(mark, shown, r.rest);
      Associate([SELECT], mark + shown, r.rest);
    } else {
      assert [] + ts == ts;
    }
  }

  function ShowNumber(opener: Token, n: Option<nat>): seq<Token> {
    if n.Some? then [opener, TInt(n.value)] else []
  }

  predicate NumberFits(opener: Token, n: Option<nat>, rest: seq<Token>) {
    n.None? ==> !Peek(rest, opener)
  }

  lemma NumberForward(opener: Token, n: Option<nat>, rest: seq<Token>)
    requires NumberFits(opener, n, rest)
    ensures ParseNumber(opener, ShowNumber(opener, n) + rest) == Yes(n, rest)
  {
    if n.Some? {
      assert (ShowNumber(opener, n) + rest)[2..] == rest;
    } else {
      assert [] + rest == rest;
    }
  }

  lemma NumberBackward(opener: Token, ts: seq<Token>)
    requires ParseNumber(opener, ts).Yes?
    ensures var r := ParseNumber(opener, ts); ts == ShowNumber(opener, r.value) + r.rest && NumberFits(opener, r.value, r.rest)
  {
    if Peek(ts, opener) {
      assert ts == [ts[0], ts[1]] + ts[2..];
    } else {
      assert [] + ts == ts;
    }
  }
}
