/**
  The whole read form of `q!`: which token streams the parser accepts, and as what.
 */
module QueryTheorem {
  import opened Common
  import opened FilterLower
  import opened QueryGrammar
  import opened QuerySpelling
  import opened QueryRoundTrip

  predicate Sized(q: Query, lay: Layout) {
    |q.groupBy| == |lay.groupItems| && |q.select| == |lay.selectItems| && |q.orderBy| == |lay.orderItems|
  }

  // The documented clause order, as suffixes of the stream.

  function FromOffset(q: Query): seq<Token> {
    ShowNumber(OFFSET, q.offset) + []
  }

  function FromLimit(q: Query): seq<Token> {
    ShowNumber(LIMIT, q.limit) + FromOffset(q)
  }

  function FromOrder(q: Query, lay: Layout): seq<Token>
    requires Sized(q, lay)
  {
    ShowListClause(SHOW_ORDER, ORDER_BY, q.orderBy, lay.orderItems, lay.orderTrail) + FromLimit(q)
  }

  function FromSelect(q: Query, lay: Layout): seq<Token>
    requires Sized(q, lay)
  {
    ShowSelect(q.select, q.distinct, lay.selectItems, lay.selectTrail) + FromOrder(q, lay)
  }

  function FromHaving(q: Query, lay: Layout): seq<Token>
    requires Sized(q, lay)
  {
    ShowExprClause(HAVING, q.having, lay.havingToks) + FromSelect(q, lay)
  }

  function FromGroup(q: Query, lay: Layout): seq<Token>
    requires Sized(q, lay)
  {
    ShowListClause(SHOW_PATH, GROUP_BY, q.groupBy, lay.groupItems, lay.groupTrail) + FromHaving(q, lay)
  }

  function FromWhere(q: Query, lay: Layout): seq<Token>
    requires Sized(q, lay)
  {
    ShowExprClause(TWhere, q.where_, lay.whereToks) + FromGroup(q, lay)
  }

  function Spell(q: Query, lay: Layout): seq<Token>
    requires Sized(q, lay)
  {
    [FROM] + (ShowTable(q.table, lay.repoRaw, lay.tableRaw) + FromWhere(q, lay))
  }

  /** Every piece fits what follows it, and no two select items share an output key. */
  ghost predicate Legal(pe: ExprParser, q: Query, lay: Layout) {
    && Sized(q, lay)
    && DistinctKeys(q.select)
    && TableFits(q.table, FromWhere(q, lay))
    && ExprClauseFits(pe, TWhere, q.where_, lay.whereToks, FromGroup(q, lay))
    && ListClauseFits(SHOW_PATH, PATH_FITS, StopGroup, GROUP_BY, q.groupBy, lay.groupItems, lay.groupTrail, FromHaving(q, lay))
    && ExprClauseFits(pe, HAVING, q.having, lay.havingToks, FromSelect(q, lay))
    && SelectFits(pe, q.select, q.distinct, lay.selectItems, lay.selectTrail, FromOrder(q, lay))
    && ListClauseFits(SHOW_ORDER, ORDER_FITS, StopOrder, ORDER_BY, q.orderBy, lay.orderItems, lay.orderTrail, FromLimit(q))
    && NumberFits(LIMIT, q.limit, FromOffset(q))
  }

  ghost predicate IsSpelling(pe: ExprParser, ts: seq<Token>, q: Query, lay: Layout) {
    Legal(pe, q, lay) && ts == Spell(q, lay)
  }

  lemma ParsesBack(pe: ExprParser, q: Query, lay: Layout)
    requires Legal(pe, q, lay)
    ensures ParseQuery(pe, Spell(q, lay)) == Some(q)
  {
    hide ParseTableArg, ParseExprClause, ParseListClause, ParseSelect, ParseNumber, DistinctKeys, Consumes,
         ShowTable, ShowExprClause, ShowListClause, ShowSelect, ShowNumber, ExprClauseFits, SelectFits,
         ListClauseFits, NumberFits, TableFits, Writes, Reads;
    PathList();
    OrderList();
    var after := ShowTable(q.table, lay.repoRaw, lay.tableRaw) + FromWhere(q, lay);
    assert Spell(q, lay)[1..] == after;
    TableForward(q.table, lay.repoRaw, lay.tableRaw, FromWhere(q, lay));
    ExprClauseForward(pe, TWhere, q.where_, lay.whereToks, FromGroup(q, lay));
    ListClauseForward(ParseFieldPath, StopGroup, SHOW_PATH, PATH_FITS, GROUP_BY, q.groupBy, lay.groupItems, lay.groupTrail, FromHaving(q, lay));
    ExprClauseForward(pe, HAVING, q.having, lay.havingToks, FromSelect(q, lay));
    SelectForward(pe, q.select, q.distinct, lay.selectItems, lay.selectTrail, FromOrder(q, lay));
    ListClauseForward(ParseOrderItem, StopOrder, SHOW_ORDER, ORDER_FITS, ORDER_BY, q.orderBy, lay.orderItems, lay.orderTrail, FromLimit(q));
    NumberForward(LIMIT, q.limit, FromOffset(q));
    assert NumberFits(OFFSET, q.offset, []) by { LastClause(q.offset); }
    NumberForward(OFFSET, q.offset, []);
  }

  lemma LastClause(n: Option<nat>)
    ensures NumberFits(OFFSET, n, [])
  {
  }

  lemma AcceptedIsSpelled(pe: ExprParser, ts: seq<Token>) returns (lay: Layout)
    requires ParseQuery(pe, ts).Some?
    ensures IsSpelling(pe, ts, ParseQuery(pe, ts).value, lay)
  {
    hide ParseTableArg, ParseExprClause, ParseListClause, ParseSelect, ParseNumber, DistinctKeys, Consumes,
         ShowTable, ShowExprClause, ShowListClause, ShowSelect, ShowNumber, ExprClauseFits, SelectFits,
         ListClauseFits, NumberFits, TableFits, Writes, Reads;
    PathList();
    OrderList();
    var repoRaw, tableRaw := TableBackward(ts[1..]);
    var table := ParseTableArg(ts[1..]);
    var whereToks := ExprClauseBackward(pe, TWhere, table.rest);
    var where_ := ParseExprClause(pe, TWhere, table.rest);
    var groupItems, groupTrail := ListClauseBackward(ParseFieldPath, StopGroup, SHOW_PATH, PATH_FITS, GROUP_BY, where_.rest);
    var groupBy := ParseListClause(ParseFieldPath, StopGroup, GROUP_BY, where_.rest);
    var havingToks := ExprClauseBackward(pe, HAVING, groupBy.rest);
    var having := ParseExprClause(pe, HAVING, groupBy.rest);
    var selectItems, selectTrail := SelectBackward(pe, having.rest);
    var select := ParseSelect(pe, having.rest);
    var orderItems, orderTrail := ListClauseBackward(ParseOrderItem, StopOrder, SHOW_ORDER, ORDER_FITS, ORDER_BY, select.rest);
    var orderBy := ParseListClause(ParseOrderItem, StopOrder, ORDER_BY, select.rest);
    NumberBackward(LIMIT, orderBy.rest);
    var limit := ParseNumber(LIMIT, orderBy.rest);
    NumberBackward(OFFSET, limit.rest);
    lay := Layout(repoRaw, tableRaw, whereToks, groupItems, groupTrail, havingToks,
                  selectItems, selectTrail, orderItems, orderTrail);
    assert ts == [FROM] + ts[1..];
  }

  /** The parser accepts exactly the legal spellings, in the documented clause order and with
      nothing left over, and reads each as its own tree. */
  lemma ParserIsExact(pe: ExprParser, ts: seq<Token>, q: Query)
    ensures ParseQuery(pe, ts) == Some(q) <==> exists lay :: IsSpelling(pe, ts, q, lay)
  {
    if ParseQuery(pe, ts) == Some(q) {
      var lay := AcceptedIsSpelled(pe, ts);
      assert IsSpelling(pe, ts, q, lay);
    }
    if lay :| IsSpelling(pe, ts, q, lay) {
      ParsesBack(pe, q, lay);
    }
  }

  /** No stream spells two trees. */
  lemma Unambiguous(pe: ExprParser, a: Query, layA: Layout, b: Query, layB: Layout)
    ensures Legal(pe, a, layA) && Legal(pe, b, layB) && Spell(a, layA) == Spell(b, layB) ==> a == b
  {
    hide ParseQuery, Spell;
    if Legal(pe, a, layA) && Legal(pe, b, layB) {
      ParsesBack(pe, a, layA);
      ParsesBack(pe, b, layB);
    }
  }

  // ---- trees whose names avoid the look-ahead points ----

  /** The first word of a path is the unraw identifier `word`. */
  predicate OpensWith(f: FieldPath, word: Token) {
    f.PathIdents? && f.ids != [] && TIdent(f.ids[0]) == word
  }

  predicate FieldOpensWith(x: SelectItem, word: Token) {
    x.SelectField? && x.segments != [] && TIdent(x.segments[0]) == word
  }

  predicate GroupNamesAvoid(items: seq<FieldPath>) {
    && (forall i :: 0 <= i < |items| && items[i].PathIdents? ==> items[i].ids != [])
    && (forall i :: 1 <= i < |items| ==>
          && !OpensWith(items[i], HAVING) && !OpensWith(items[i], SELECT) && !OpensWith(items[i], ORDER_BY)
          && !OpensWith(items[i], LIMIT) && !OpensWith(items[i], OFFSET))
  }

  predicate OrderNamesAvoid(items: seq<OrderItem>) {
    && (forall i :: 0 <= i < |items| ==> OrderFits(items[i]))
    && (forall i :: 1 <= i < |items| ==> !OpensWith(items[i].field, LIMIT) && !OpensWith(items[i].field, OFFSET))
  }

  /** A field or call with its parts; the argument of `func` parses as a whole. */
  ghost predicate WellFormedItem(pe: ExprParser, x: SelectItem, lay: ItemLayout) {
    match x
    case All => true
    case SelectField(segments, _) => segments != []
    case CountAll(_) => true
    case BuiltinAgg(func, segments, _) => segments != [] && IsBuiltinAgg(func)
    case AggFn(_, segments, _) => segments != []
    case Func(_, args, _) => pe(lay.toks) == Some((args, |lay.toks|))
  }

  ghost predicate SelectNamesAvoid(pe: ExprParser, items: seq<SelectItem>, lays: seq<ItemLayout>, distinct: bool)
    requires |items| == |lays|
  {
    && (forall i :: 0 <= i < |items| ==> WellFormedItem(pe, items[i], lays[i]))
    && (forall i :: 1 <= i < |items| ==>
          !FieldOpensWith(items[i], ORDER_BY) && !FieldOpensWith(items[i], LIMIT) && !FieldOpensWith(items[i], OFFSET))
    && (distinct ==> items != [])
    && (!distinct && items != [] ==> !FieldOpensWith(items[0], DISTINCT))
  }

  /** A clause body: read whole wherever a clause keyword or the end follows it. */
  ghost predicate CleanBody(pe: ExprParser, e: Option<Expr>, toks: seq<Token>) {
    e.Some? ==>
      && toks != [] && !PeekClause(toks)
      && forall rest {:trigger pe(toks + rest)} :: rest == [] || PeekClause(rest) ==> pe(toks + rest) == Some((e.value, |toks|))
  }

  ghost predicate NamesAvoidKeywords(pe: ExprParser, q: Query, lay: Layout) {
    && Sized(q, lay)
    && DistinctKeys(q.select)
    && CleanBody(pe, q.where_, lay.whereToks)
    && GroupNamesAvoid(q.groupBy)
    && CleanBody(pe, q.having, lay.havingToks)
    && SelectNamesAvoid(pe, q.select, lay.selectItems, q.distinct)
    && OrderNamesAvoid(q.orderBy)
  }

  // What each suffix can start with.

  lemma Opening(a: seq<Token>, rest: seq<Token>)
    ensures a == [] ==> a + rest == rest
    ensures a != [] ==> a + rest != [] && (a + rest)[0] == a[0]
  {
  }

  lemma TailHeads(q: Query, lay: Layout)
    requires Sized(q, lay)
    ensures FromOffset(q) == [] || Peek(FromOffset(q), OFFSET)
    ensures StopOrder(FromLimit(q))
    ensures StopSelect(FromOrder(q, lay))
  {
    hide ShowList;
    Opening(ShowNumber(LIMIT, q.limit), FromOffset(q));
    Opening(ShowListClause(SHOW_ORDER, ORDER_BY, q.orderBy, lay.orderItems, lay.orderTrail), FromLimit(q));
  }

  lemma SelectHead(q: Query, lay: Layout)
    requires Sized(q, lay)
    ensures StopSelect(FromSelect(q, lay)) || Peek(FromSelect(q, lay), SELECT)
    ensures StopGroup(FromHaving(q, lay))
  {
    hide ShowList, FromOrder;
    TailHeads(q, lay);
    Opening(ShowSelect(q.select, q.distinct, lay.selectItems, lay.selectTrail), FromOrder(q, lay));
    Opening(ShowExprClause(HAVING, q.having, lay.havingToks), FromSelect(q, lay));
  }

  lemma FrontHeads(q: Query, lay: Layout)
    requires Sized(q, lay)
    ensures FromGroup(q, lay) == [] || PeekClause(FromGroup(q, lay))
    ensures FromWhere(q, lay) == [] || PeekClause(FromWhere(q, lay)) || Peek(FromWhere(q, lay), TWhere)
  {
    hide ShowList, FromHaving;
    SelectHead(q, lay);
    Opening(ShowListClause(SHOW_PATH, GROUP_BY, q.groupBy, lay.groupItems, lay.groupTrail), FromHaving(q, lay));
    Opening(ShowExprClause(TWhere, q.where_, lay.whereToks), FromGroup(q, lay));
  }

  lemma {:induction false} ListLegal<T>(show: Show<T>, fits: Fits<T>, stop: seq<Token> -> bool,
                                        items: seq<T>, lays: seq<ItemLayout>, trail: bool, rest: seq<Token>)
    requires |items| == |lays| && items != []
    requires forall i, after :: 0 <= i < |items| && (Peek(after, TComma) || after == rest) ==> fits(items[i], lays[i], after)
    requires forall i, tail :: 1 <= i < |items| ==> !stop(show(items[i], lays[i]) + tail)
    requires stop(rest) && !Peek(rest, TComma)
    ensures FitsList(show, fits, stop, items, lays, trail, rest)
    decreases |items|
  {
    if |items| == 1 {
      assert !trail ==> Trail(trail) + rest == rest;
      assert trail ==> Peek(Trail(trail) + rest, TComma);
    } else {
      var tail := ShowList(show, items[1..], lays[1..], trail);
      assert Peek([TComma] + (tail + rest), TComma);
      assert items[1..][0] == items[1] && lays[1..][0] == lays[1];
      var end :| tail + rest == show(items[1], lays[1]) + end by {
        ListOpens(show, items[1..], lays[1..], trail, rest);
      }
      forall i, more | 1 <= i < |items[1..]| ensures !stop(show(items[1..][i], lays[1..][i]) + more) {
        assert items[1..][i] == items[i + 1] && lays[1..][i] == lays[i + 1];
      }
      ListLegal(show, fits, stop, items[1..], lays[1..], trail, rest);
    }
  }

  /** A shown list starts with its first item. */
  lemma ListOpens<T>(show: Show<T>, items: seq<T>, lays: seq<ItemLayout>, trail: bool, rest: seq<Token>)
    requires |items| == |lays| && items != []
    ensures exists end :: ShowList(show, items, lays, trail) + rest == show(items[0], lays[0]) + end
  {
    var first := show(items[0], lays[0]);
    if |items| == 1 {
      Associate(first, Trail(trail), rest);
    } else {
      Associate(first, [TComma] + ShowList(show, items[1..], lays[1..], trail), rest);
    }
  }

  lemma GroupLegal(items: seq<FieldPath>, lays: seq<ItemLayout>, trail: bool, rest: seq<Token>)
    requires |items| == |lays| && items != [] && GroupNamesAvoid(items) && StopGroup(rest)
    ensures FitsList(SHOW_PATH, PATH_FITS, StopGroup, items, lays, trail, rest)
  {
    forall i, tail: seq<Token> | 1 <= i < |items| ensures !StopGroup(SHOW_PATH(items[i], lays[i]) + tail) {
      PathOpens(items[i], tail);
    }
    ListLegal(SHOW_PATH, PATH_FITS, StopGroup, items, lays, trail, rest);
  }

  lemma PathOpens(f: FieldPath, tail: seq<Token>)
    requires f.PathIdents? ==> f.ids != []
    ensures var ts := ShowPath(f) + tail; ts != [] && (ts[0].TStr? || (f.PathIdents? && ts[0] == TIdent(f.ids[0])))
  {
  }

  lemma OrderLegal(items: seq<OrderItem>, lays: seq<ItemLayout>, trail: bool, rest: seq<Token>)
    requires |items| == |lays| && items != [] && OrderNamesAvoid(items) && StopOrder(rest)
    ensures FitsList(SHOW_ORDER, ORDER_FITS, StopOrder, items, lays, trail, rest)
  {
    forall i, tail: seq<Token> | 1 <= i < |items| ensures !StopOrder(SHOW_ORDER(items[i], lays[i]) + tail) {
      PathOpens(items[i].field, []);
      assert OrderFits(items[i]);
    }
    ListLegal(SHOW_ORDER, ORDER_FITS, StopOrder, items, lays, trail, rest);
  }

  lemma ItemOpens(pe: ExprParser, x: SelectItem, lay: ItemLayout, tail: seq<Token>)
    requires WellFormedItem(pe, x, lay)
    ensures var ts := ShowItem(x, lay) + tail;
            ts != [] && (if x.SelectField? then x.segments != [] && ts[0] == TIdent(x.segments[0])
                         else !StopSelect(ts) && ts[0] != DISTINCT)
  {
    if !x.All? && !x.SelectField? {
      ShowCall(x, lay, tail);
    }
  }

  lemma ItemFollowed(pe: ExprParser, x: SelectItem, lay: ItemLayout, after: seq<Token>)
    requires WellFormedItem(pe, x, lay) && (Peek(after, TComma) || StopSelect(after))
    ensures ItemFits(pe, x, lay, after)
  {
  }

  lemma SelectLegal(pe: ExprParser, items: seq<SelectItem>, distinct: bool, lays: seq<ItemLayout>, trail: bool, rest: seq<Token>)
    requires |items| == |lays| && SelectNamesAvoid(pe, items, lays, distinct) && StopSelect(rest)
    ensures SelectFits(pe, items, distinct, lays, trail, rest)
  {
    hide ShowItem, ItemFits, WellFormedItem;
    if items != [] {
      var fits := ItemFit(pe);
      forall i, after: seq<Token> | 0 <= i < |items| && (Peek(after, TComma) || after == rest)
        ensures fits(items[i], lays[i], after)
      {
        ItemFollowed(pe, items[i], lays[i], after);
      }
      forall i, tail: seq<Token> | 1 <= i < |items| ensures !StopSelect(SHOW_ITEM(items[i], lays[i]) + tail) {
        assert WellFormedItem(pe, items[i], lays[i]);
        ItemOpens(pe, items[i], lays[i], tail);
      }
      ListLegal(SHOW_ITEM, fits, StopSelect, items, lays, trail, rest);
      ListOpens(SHOW_ITEM, items, lays, trail, rest);
      var end :| ShowList(SHOW_ITEM, items, lays, trail) + rest == SHOW_ITEM(items[0], lays[0]) + end;
      ItemOpens(pe, items[0], lays[0], end);
    }
  }

  lemma BodyLegal(pe: ExprParser, opener: Token, e: Option<Expr>, toks: seq<Token>, rest: seq<Token>)
    requires CleanBody(pe, e, toks) && (rest == [] || PeekClause(rest)) && !Peek(rest, opener)
    ensures ExprClauseFits(pe, opener, e, toks, rest)
  {
  }

  /** Every tree whose names avoid the look-ahead keywords, spelled in clause order with or
      without trailing commas, parses to itself. */
  lemma RoundTrip(pe: ExprParser, q: Query, lay: Layout)
    requires NamesAvoidKeywords(pe, q, lay)
    ensures ParseQuery(pe, Spell(q, lay)) == Some(q)
  {
    hide ParseQuery, Spell, FromOffset, FromLimit, FromOrder, FromSelect, FromHaving, FromGroup, FromWhere,
         FitsList, CleanBody, GroupNamesAvoid, OrderNamesAvoid, SelectNamesAvoid, SelectFits, ExprClauseFits, DistinctKeys;
    TailHeads(q, lay);
    SelectHead(q, lay);
    FrontHeads(q, lay);
    BodyLegal(pe, TWhere, q.where_, lay.whereToks, FromGroup(q, lay));
    if q.groupBy != [] {
      GroupLegal(q.groupBy, lay.groupItems, lay.groupTrail, FromHaving(q, lay));
    }
    BodyLegal(pe, HAVING, q.having, lay.havingToks, FromSelect(q, lay));
    SelectLegal(pe, q.select, q.distinct, lay.selectItems, lay.selectTrail, FromOrder(q, lay));
    if q.orderBy != [] {
      OrderLegal(q.orderBy, lay.orderItems, lay.orderTrail, FromLimit(q));
    }
    ParsesBack(pe, q, lay);
  }

  // ---- and no other tree is ever returned ----

  /** Each item of a fitting list fits what follows it; items after a comma do not look like a stop. */
  lemma {:induction false} FitsAt<T>(show: Show<T>, fits: Fits<T>, stop: seq<Token> -> bool,
                                     items: seq<T>, lays: seq<ItemLayout>, trail: bool, rest: seq<Token>, i: nat)
    returns (after: seq<Token>)
    requires |items| == |lays| && FitsList(show, fits, stop, items, lays, trail, rest) && i < |items|
    ensures fits(items[i], lays[i], after)
    ensures ShowList(show, items[i..], lays[i..], trail) + rest == show(items[i], lays[i]) + after
    ensures i >= 1 ==> !stop(show(items[i], lays[i]) + after)
    decreases |items|
  {
    if i == 0 {
      var first := show(items[0], lays[0]);
      assert items[0..] == items && lays[0..] == lays;
      if |items| == 1 {
        after := Trail(trail) + rest;
        Associate(first, Trail(trail), rest);
      } else {
        var tail := ShowList(show, items[1..], lays[1..], trail);
        after := [TComma] + (tail + rest);
        Associate([TComma], tail, rest);
        Associate(first, [TComma] + tail, rest);
      }
    } else {
      after := FitsAt(show, fits, stop, items[1..], lays[1..], trail, rest, i - 1);
      assert items[1..][i - 1..] == items[i..] && lays[1..][i - 1..] == lays[i..];
    }
  }

  lemma GroupMustAvoid(items: seq<FieldPath>, lays: seq<ItemLayout>, trail: bool, rest: seq<Token>)
    requires |items| == |lays| && FitsList(SHOW_PATH, PATH_FITS, StopGroup, items, lays, trail, rest)
    ensures GroupNamesAvoid(items)
  {
    forall i | 0 <= i < |items|
      ensures items[i].PathIdents? ==> items[i].ids != []
      ensures i >= 1 ==> && !OpensWith(items[i], HAVING) && !OpensWith(items[i], SELECT) && !OpensWith(items[i], ORDER_BY)
                         && !OpensWith(items[i], LIMIT) && !OpensWith(items[i], OFFSET)
    {
      var after := FitsAt(SHOW_PATH, PATH_FITS, StopGroup, items, lays, trail, rest, i);
      PathOpens(items[i], after);
    }
  }

  lemma OrderMustAvoid(items: seq<OrderItem>, lays: seq<ItemLayout>, trail: bool, rest: seq<Token>)
    requires |items| == |lays| && FitsList(SHOW_ORDER, ORDER_FITS, StopOrder, items, lays, trail, rest)
    ensures OrderNamesAvoid(items)
  {
    forall i | 0 <= i < |items|
      ensures OrderFits(items[i])
      ensures i >= 1 ==> !OpensWith(items[i].field, LIMIT) && !OpensWith(items[i].field, OFFSET)
    {
      var after := FitsAt(SHOW_ORDER, ORDER_FITS, StopOrder, items, lays, trail, rest, i);
      PathOpens(items[i].field, []);
    }
  }

  lemma SelectMustAvoid(pe: ExprParser, items: seq<SelectItem>, distinct: bool, lays: seq<ItemLayout>, trail: bool, rest: seq<Token>)
    requires SelectFits(pe, items, distinct, lays, trail, rest)
    ensures SelectNamesAvoid(pe, items, lays, distinct)
  {
    hide ShowItem;
    forall i | 0 <= i < |items|
      ensures WellFormedItem(pe, items[i], lays[i])
      ensures i >= 1 ==> !FieldOpensWith(items[i], ORDER_BY) && !FieldOpensWith(items[i], LIMIT) && !FieldOpensWith(items[i], OFFSET)
      ensures i == 0 && !distinct ==> !FieldOpensWith(items[i], DISTINCT)
    {
      var after := FitsAt(SHOW_ITEM, ItemFit(pe), StopSelect, items, lays, trail, rest, i);
      assert items[0..] == items && lays[0..] == lays;
      ItemOpens(pe, items[i], lays[i], after);
    }
  }

  /** The converse of RoundTrip: a tree that any stream parses to avoids the look-ahead keywords. */
  lemma AcceptedNamesAvoid(pe: ExprParser, ts: seq<Token>) returns (lay: Layout)
    requires ParseQuery(pe, ts).Some?
    ensures var q := ParseQuery(pe, ts).value;
            && Sized(q, lay) && DistinctKeys(q.select) && GroupNamesAvoid(q.groupBy) && OrderNamesAvoid(q.orderBy)
            && SelectNamesAvoid(pe, q.select, lay.selectItems, q.distinct)
  {
    lay := AcceptedIsSpelled(pe, ts);
    var q := ParseQuery(pe, ts).value;
    hide ParseQuery, Spell, FromOffset, FromLimit, FromOrder, FromSelect, FromHaving, FromGroup, FromWhere,
         FitsList, GroupNamesAvoid, OrderNamesAvoid, SelectNamesAvoid, DistinctKeys, ExprClauseFits, TableFits;
    if q.groupBy != [] {
      GroupMustAvoid(q.groupBy, lay.groupItems, lay.groupTrail, FromHaving(q, lay));
    } else {
      NothingToAvoid();
    }
    if q.orderBy != [] {
      OrderMustAvoid(q.orderBy, lay.orderItems, lay.orderTrail, FromLimit(q));
    } else {
      NothingToAvoid();
    }
    SelectMustAvoid(pe, q.select, q.distinct, lay.selectItems, lay.selectTrail, FromOrder(q, lay));
  }

  lemma NothingToAvoid()
    ensures GroupNamesAvoid([]) && OrderNamesAvoid([])
  {
  }
}
