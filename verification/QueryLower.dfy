/**
  From a parsed read query to builder calls, and the read query those calls build. The
  main result: the built query says exactly what the tree says, clause by clause.
 */
module QueryLower {
  import opened Common
  import opened FilterLower
  import opened QueryGrammar

  // ---- emitted code ----

  datatype ItemCode =
    | AllCode
    | FieldCode(path: PathCode)
    | FieldAsCode(path: PathCode, alias: string)
    | CountAllCode(alias: string)
    | AggCode(func: string, path: PathCode, alias: string)
    | AggFnCode(name: string, path: PathCode, alias: string)
    | FuncCode(alias: string, name: string, args: Expr)

  datatype Start = From(table: string) | WithRepo(repo: string, table: string)

  datatype BuilderCall =
    | CallWhere(filter: Code)
    | CallGroupByMany(fields: seq<seq<string>>)
    | CallHaving(filter: Code)
    | CallSelect(items: seq<ItemCode>)
    | CallDistinct
    | CallOrderAsc(path: PathCode)
    | CallOrderDesc(path: PathCode)
    | CallLimit(n: nat)
    | CallOffset(n: nat)

  datatype Chain = Chain(start: Start, calls: seq<BuilderCall>)

  // ---- lowering ----

  function LowerStart(table: TableArg): Start {
    match table
    case SimpleIdent(id) => From(id.name)
    case SimpleLit(text) => From(text)
    case Repo(repo, name) => WithRepo(repo, name)
  }

  function LowerSelectItem(item: SelectItem): ItemCode {
    match item
    case All => AllCode
    case SelectField(segments, alias) =>
      if alias.Some? then FieldAsCode(SegmentsToPath(segments), alias.value.name) else FieldCode(SegmentsToPath(segments))
    case CountAll(alias) => CountAllCode(if alias.Some? then alias.value.name else "count")
    case BuiltinAgg(func, segments, as_) => AggCode(func, SegmentsToPath(segments), as_.name)
    case AggFn(name, segments, as_) => AggFnCode(name, SegmentsToPath(segments), as_.name)
    case Func(name, args, as_) => FuncCode(as_.name, name, args)
  }

  function PathTokens(f: FieldPath): PathCode {
    match f
    case PathLit(text) => Single(text)
    case PathIdents(ids) => SegmentsToPath(ids)
  }

  function GroupField(f: FieldPath): seq<string> {
    match f
    case PathLit(text) => [text]
    case PathIdents(ids) => Unraw(ids)
  }

  function GroupFields(fields: seq<FieldPath>): seq<seq<string>> {
    seq(|fields|, i requires 0 <= i < |fields| => GroupField(fields[i]))
  }

  function LowerOrder(item: OrderItem): BuilderCall {
    if item.direction.Asc? then CallOrderAsc(PathTokens(item.field)) else CallOrderDesc(PathTokens(item.field))
  }

  /** The chain up to `having`; an unsupported filter is an error. */
  method FilterTokens(q: Query) returns (r: Lowered<seq<BuilderCall>>)
    ensures r == if FiltersLower(q) then Ok(WhereCalls(q) + GroupCalls(q) + HavingCalls(q)) else Error
  {
    hide Lower, GroupFields;
    var calls: seq<BuilderCall> := [];
    if q.where_.Some? {
      var filter := Lower(q.where_.value);
      if filter.Error? {
        return Error;
      }
      calls := [CallWhere(filter.value)];
    }
    if q.groupBy != [] {
      calls := calls + [CallGroupByMany(GroupFields(q.groupBy))];
    }
    if q.having.Some? {
      var filter := Lower(q.having.value);
      if filter.Error? {
        return Error;
      }
      calls := calls + [CallHaving(filter.value)];
    }
    assert calls == WhereCalls(q) + GroupCalls(q) + HavingCalls(q);
    r := Ok(calls);
  }

  /** The chain is extended clause by clause. */
  method ToTokens(q: Query) returns (r: Lowered<Chain>)
    ensures r == LowerQuery(q)
  {
    hide LowerSelectItem, OrderCalls, WhereCalls, GroupCalls, HavingCalls, FiltersLower;
    var front := FilterTokens(q);
    if front.Error? {
      return Error;
    }
    var calls := front.value;
    if q.select != [] {
      calls := calls + [CallSelect(seq(|q.select|, i requires 0 <= i < |q.select| => LowerSelectItem(q.select[i])))];
    }
    assert calls == front.value + SelectCalls(q);
    hide SelectCalls;
    if q.distinct {
      calls := calls + [CallDistinct];
    }
    assert calls == front.value + SelectCalls(q) + DistinctCalls(q);
    hide DistinctCalls;
    var orderBy := OrderTokens(q.orderBy);
    calls := calls + orderBy;
    if q.limit.Some? {
      calls := calls + [CallLimit(q.limit.value)];
    }
    if q.offset.Some? {
      calls := calls + [CallOffset(q.offset.value)];
    }
    assert calls == AllCalls(q);
    r := Ok(Chain(LowerStart(q.table), calls));
  }

  method OrderTokens(items: seq<OrderItem>) returns (orderBy: seq<BuilderCall>)
    ensures orderBy == OrderCalls(items)
  {
    orderBy := [];
    for i := 0 to |items|
      invariant orderBy + OrderCalls(items[i..]) == OrderCalls(items)
    {
      assert items[i..][1..] == items[i + 1..];
      orderBy := orderBy + [LowerOrder(items[i])];
    }
  }

  function OrderCalls(items: seq<OrderItem>): seq<BuilderCall> {
    if items == [] then [] else [LowerOrder(items[0])] + OrderCalls(items[1..])
  }

  function LimitCalls(q: Query): seq<BuilderCall> {
    if q.limit.Some? then [CallLimit(q.limit.value)] else []
  }

  function OffsetCalls(q: Query): seq<BuilderCall> {
    if q.offset.Some? then [CallOffset(q.offset.value)] else []
  }

  predicate FiltersLower(q: Query) {
    (q.where_.Some? ==> Lower(q.where_.value).Ok?) && (q.having.Some? ==> Lower(q.having.value).Ok?)
  }

  function WhereCalls(q: Query): seq<BuilderCall>
    requires FiltersLower(q)
  {
    if q.where_.Some? then [CallWhere(Lower(q.where_.value).value)] else []
  }

  function GroupCalls(q: Query): seq<BuilderCall> {
    if q.groupBy == [] then []
    else [CallGroupByMany(GroupFields(q.groupBy))]
  }

  function HavingCalls(q: Query): seq<BuilderCall>
    requires FiltersLower(q)
  {
    if q.having.Some? then [CallHaving(Lower(q.having.value).value)] else []
  }

  function SelectCalls(q: Query): seq<BuilderCall> {
    if q.select == [] then []
    else [CallSelect(seq(|q.select|, i requires 0 <= i < |q.select| => LowerSelectItem(q.select[i])))]
  }

  function DistinctCalls(q: Query): seq<BuilderCall> {
    if q.distinct then [CallDistinct] else []
  }

  function AllCalls(q: Query): seq<BuilderCall>
    requires FiltersLower(q)
  {
    WhereCalls(q) + GroupCalls(q) + HavingCalls(q) + SelectCalls(q) + DistinctCalls(q)
    + OrderCalls(q.orderBy) + LimitCalls(q) + OffsetCalls(q)
  }

  function LowerQuery(q: Query): Lowered<Chain> {
    if FiltersLower(q) then Ok(Chain(LowerStart(q.table), AllCalls(q))) else Error
  }

  // ---- the builder ----

  datatype OutItem =
    | OutAll
    | OutField(path: seq<string>, alias: Option<string>)
    | OutCountAll(alias: Option<string>)
    | OutAggregate(func: string, field: seq<string>, alias: Option<string>)
    | OutAggregateFn(name: string, field: seq<string>, alias: Option<string>)
    | OutFunction(name: string, args: Expr, alias: Option<string>)

  datatype OutOrder = OutOrder(field: seq<string>, direction: Direction)

  datatype Pagination = NoPages | LimitOffset(limit: Option<nat>, offset: nat)

  datatype Builder = Builder(
    repo: string, table: string,
    items: seq<OutItem>, distinct: bool,
    where_: Option<Filter>,
    groups: seq<seq<string>>, having: Option<Filter>,
    orders: seq<OutOrder>,
    pages: Pagination)

  const DEFAULT_REPO := "main"

  function Begin(start: Start): Builder {
    match start
    case From(table) => Builder(DEFAULT_REPO, table, [OutAll], false, None, [], None, [], NoPages)
    case WithRepo(repo, table) => Builder(repo, table, [OutAll], false, None, [], None, [], NoPages)
  }

  function RunItem(code: ItemCode): OutItem {
    match code
    case AllCode => OutAll
    case FieldCode(path) => OutField(PathOf(path), None)
    case FieldAsCode(path, alias) => OutField(PathOf(path), Some(alias))
    case CountAllCode(alias) => OutCountAll(Some(alias))
    case AggCode(func, path, alias) => OutAggregate(func, PathOf(path), Some(alias))
    case AggFnCode(name, path, alias) => OutAggregateFn(name, PathOf(path), Some(alias))
    case FuncCode(alias, name, args) => OutFunction(name, args, Some(alias))
  }

  /** Conditions accumulate by conjunction. */
  function AndFilter(old_: Option<Filter>, more: Filter): Filter {
    if old_.None? then more
    else if old_.value.FAnd? then FAnd(old_.value.filters + [more])
    else FAnd([old_.value, more])
  }

  function Apply(b: Builder, call: BuilderCall): Option<Builder> {
    match call
    case CallWhere(code) =>
      var f := Build(code);
      if f.None? then None else Some(b.(where_ := Some(AndFilter(b.where_, f.value))))
    case CallGroupByMany(fields) => Some(b.(groups := b.groups + fields))
    case CallHaving(code) =>
      var f := Build(code);
      if f.None? then None else Some(b.(having := f))
    case CallSelect(items) => Some(b.(items := seq(|items|, i requires 0 <= i < |items| => RunItem(items[i]))))
    case CallDistinct => Some(b.(distinct := true))
    case CallOrderAsc(path) => Some(b.(orders := b.orders + [OutOrder(PathOf(path), Asc)]))
    case CallOrderDesc(path) => Some(b.(orders := b.orders + [OutOrder(PathOf(path), Desc)]))
    case CallLimit(n) =>
      Some(b.(pages := LimitOffset(Some(n), if b.pages.LimitOffset? then b.pages.offset else 0)))
    case CallOffset(n) =>
      Some(b.(pages := LimitOffset(if b.pages.LimitOffset? then b.pages.limit else None, n)))
  }

  function Run(b: Builder, calls: seq<BuilderCall>): Option<Builder>
    decreases |calls|
  {
    if calls == [] then Some(b)
    else
      var next := Apply(b, calls[0]);
      if next.None? then None else Run(next.value, calls[1..])
  }

  /** The wire query: clauses without content are absent. */
  datatype ReadQuery = ReadQuery(
    repo: string, table: string,
    items: seq<OutItem>, distinct: bool,
    where_: Option<Filter>,
    groupBy: Option<(seq<seq<string>>, Option<Filter>)>,
    orderBy: Option<seq<OutOrder>>,
    pages: Pagination)

  function Finish(b: Builder): ReadQuery {
    ReadQuery(b.repo, b.table, b.items, b.distinct, b.where_,
              if b.groups != [] || b.having.Some? then Some((b.groups, b.having)) else None,
              if b.orders == [] then None else Some(b.orders),
              b.pages)
  }

  function Execute(chain: Chain): Option<ReadQuery> {
    var b := Run(Begin(chain.start), chain.calls);
    if b.None? then None else Some(Finish(b.value))
  }

  // ---- what the tree says ----

  function SaidTable(table: TableArg): (string, string) {
    match table
    case SimpleIdent(id) => (DEFAULT_REPO, id.name)
    case SimpleLit(text) => (DEFAULT_REPO, text)
    case Repo(repo, name) => (repo, name)
  }

  function SaidPath(f: FieldPath): seq<string> {
    match f
    case PathLit(text) => [text]
    case PathIdents(ids) => Unraw(ids)
  }

  /** A select item is built with the path its segments spell and under its own output key. */
  predicate SaysItem(item: SelectItem, out: OutItem) {
    match item
    case All => out == OutAll
    case SelectField(segments, alias) =>
      && out.OutField? && out.path == Unraw(segments)
      && (if alias.None? then out.alias.None? else out.alias == SelectKey(item))
    case CountAll(_) => out == OutCountAll(SelectKey(item))
    case BuiltinAgg(func, segments, _) => out == OutAggregate(func, Unraw(segments), SelectKey(item))
    case AggFn(name, segments, _) => out == OutAggregateFn(name, Unraw(segments), SelectKey(item))
    case Func(name, args, _) => out == OutFunction(name, args, SelectKey(item))
  }

  /** The filter is present with its clause, and judges every record as the expression means it. */
  ghost predicate SaysFilter(e: Option<Expr>, f: Option<Filter>) {
    && (e.None? <==> f.None?)
    && (e.Some? ==> forall record, judge {:trigger Meaning(e.value, record, judge)} ::
          Meaning(e.value, record, judge) == Some(EvalFilter(f.value, record, judge)))
  }

  ghost predicate Says(q: Query, rq: ReadQuery) {
    && (rq.repo, rq.table) == SaidTable(q.table)
    && rq.distinct == q.distinct
    && (if q.select == [] then rq.items == [OutAll]
        else |rq.items| == |q.select| && forall i :: 0 <= i < |q.select| ==> SaysItem(q.select[i], rq.items[i]))
    && SaysFilter(q.where_, rq.where_)
    && (if q.groupBy == [] && q.having.None? then rq.groupBy.None?
        else
          && rq.groupBy.Some? && SaysFilter(q.having, rq.groupBy.value.1)
          && |rq.groupBy.value.0| == |q.groupBy|
          && forall i :: 0 <= i < |q.groupBy| ==> rq.groupBy.value.0[i] == SaidPath(q.groupBy[i]))
    && (if q.orderBy == [] then rq.orderBy.None?
        else
          && rq.orderBy.Some? && |rq.orderBy.value| == |q.orderBy|
          && forall i :: 0 <= i < |q.orderBy| ==>
               rq.orderBy.value[i] == OutOrder(SaidPath(q.orderBy[i].field), q.orderBy[i].direction))
    && rq.pages == (if q.limit.None? && q.offset.None? then NoPages
                    else LimitOffset(q.limit, if q.offset.Some? then q.offset.value else 0))
  }

  // ---- the proof ----

  lemma PathSpelled(ids: seq<Ident>)
    ensures PathOf(SegmentsToPath(ids)) == Unraw(ids)
  {
  }

  lemma ItemSpelled(item: SelectItem)
    ensures SaysItem(item, RunItem(LowerSelectItem(item)))
  {
    hide PathOf, SegmentsToPath, Unraw, JoinDots;
    match item
    case SelectField(segments, _) => PathSpelled(segments);
    case BuiltinAgg(_, segments, _) => PathSpelled(segments);
    case AggFn(_, segments, _) => PathSpelled(segments);
    case _ =>
  }

  lemma OrderPathSpelled(f: FieldPath)
    ensures PathOf(PathTokens(f)) == SaidPath(f) == GroupField(f)
  {
    if f.PathIdents? {
      PathSpelled(f.ids);
    }
  }

  lemma {:induction false} RunAppend(b: Builder, a: seq<BuilderCall>, c: seq<BuilderCall>)
    requires Run(b, a).Some?
    ensures Run(b, a + c) == Run(Run(b, a).value, c)
    decreases |a|
  {
    hide Apply;
    if a == [] {
      assert a + c == c;
    } else {
      assert (a + c)[0] == a[0] && (a + c)[1..] == a[1..] + c;
      RunAppend(Apply(b, a[0]).value, a[1..], c);
    }
  }

  lemma RunOne(b: Builder, call: BuilderCall)
    ensures Run(b, [call]) == Apply(b, call)
  {
    assert [call][1..] == [];
  }

  lemma FilterSpelled(e: Expr)
    requires Lower(e).Ok?
    ensures Build(Lower(e).value).Some? && SaysFilter(Some(e), Build(Lower(e).value))
  {
    hide Lower, Build, Meaning, EvalFilter;
    LoweringPreservesMeaning(e, Scalar(0), Judge((_, _, _) => false, (_, _, _) => false));
    var f := Build(Lower(e).value);
    forall record, judge ensures Meaning(e, record, judge) == Some(EvalFilter(f.value, record, judge)) {
      LoweringPreservesMeaning(e, record, judge);
    }
  }

  /** The expected orders. */
  function SaidOrders(items: seq<OrderItem>): seq<OutOrder> {
    seq(|items|, i requires 0 <= i < |items| => OutOrder(SaidPath(items[i].field), items[i].direction))
  }

  lemma {:induction false} OrdersRun(b: Builder, items: seq<OrderItem>)
    ensures Run(b, OrderCalls(items)) == Some(b.(orders := b.orders + SaidOrders(items)))
    decreases |items|
  {
    hide PathOf, PathTokens, SaidPath;
    if items == [] {
      assert b.orders + SaidOrders(items) == b.orders;
    } else {
      OrderPathSpelled(items[0].field);
      var first := OutOrder(SaidPath(items[0].field), items[0].direction);
      var b' := b.(orders := b.orders + [first]);
      assert Apply(b, LowerOrder(items[0])) == Some(b');
      var calls := OrderCalls(items);
      assert calls[0] == LowerOrder(items[0]) && calls[1..] == OrderCalls(items[1..]);
      OrdersRun(b', items[1..]);
      assert SaidOrders(items) == [first] + SaidOrders(items[1..]);
      assert b'.orders + SaidOrders(items[1..]) == b.orders + SaidOrders(items);
    }
  }

  lemma WhereRun(b: Builder, q: Query) returns (f: Option<Filter>)
    requires FiltersLower(q) && b.where_.None?
    ensures SaysFilter(q.where_, f) && Run(b, WhereCalls(q)) == Some(b.(where_ := f))
  {
    hide Lower, Build;
    f := None;
    if q.where_.Some? {
      FilterSpelled(q.where_.value);
      f := Build(Lower(q.where_.value).value);
      RunOne(b, CallWhere(Lower(q.where_.value).value));
    }
  }

  lemma HavingRun(b: Builder, q: Query) returns (f: Option<Filter>)
    requires FiltersLower(q) && b.having.None?
    ensures SaysFilter(q.having, f) && Run(b, HavingCalls(q)) == Some(b.(having := f))
  {
    hide Lower, Build;
    f := None;
    if q.having.Some? {
      FilterSpelled(q.having.value);
      f := Build(Lower(q.having.value).value);
      RunOne(b, CallHaving(Lower(q.having.value).value));
    }
  }

  lemma GroupRun(b: Builder, q: Query)
    requires b.groups == []
    ensures Run(b, GroupCalls(q)) == Some(b.(groups := GroupFields(q.groupBy)))
  {
    hide GroupField;
    if q.groupBy != [] {
      RunOne(b, CallGroupByMany(GroupFields(q.groupBy)));
      assert [] + GroupFields(q.groupBy) == GroupFields(q.groupBy);
    } else {
      assert GroupFields(q.groupBy) == [];
    }
  }

  ghost predicate SaysItems(items: seq<SelectItem>, outs: seq<OutItem>) {
    if items == [] then outs == [OutAll]
    else |outs| == |items| && forall i :: 0 <= i < |items| ==> SaysItem(items[i], outs[i])
  }

  lemma SelectRun(b: Builder, q: Query) returns (outs: seq<OutItem>)
    requires b.items == [OutAll]
    ensures SaysItems(q.select, outs) && Run(b, SelectCalls(q)) == Some(b.(items := outs))
  {
    hide SaysItem, LowerSelectItem, RunItem;
    outs := [OutAll];
    if q.select != [] {
      var codes := seq(|q.select|, i requires 0 <= i < |q.select| => LowerSelectItem(q.select[i]));
      outs := seq(|codes|, i requires 0 <= i < |codes| => RunItem(codes[i]));
      forall i | 0 <= i < |q.select| ensures SaysItem(q.select[i], outs[i]) {
        ItemSpelled(q.select[i]);
      }
      RunOne(b, CallSelect(codes));
      assert SelectCalls(q) == [CallSelect(codes)];
    }
  }

  lemma DistinctRun(b: Builder, q: Query)
    requires !b.distinct
    ensures Run(b, DistinctCalls(q)) == Some(b.(distinct := q.distinct))
  {
    RunOne(b, CallDistinct);
  }

  function SaidPages(q: Query): Pagination {
    if q.limit.None? && q.offset.None? then NoPages
    else LimitOffset(q.limit, if q.offset.Some? then q.offset.value else 0)
  }

  lemma PagesRun(b: Builder, q: Query)
    requires b.pages == NoPages
    ensures Run(b, LimitCalls(q)).Some?
    ensures Run(Run(b, LimitCalls(q)).value, OffsetCalls(q)) == Some(b.(pages := SaidPages(q)))
  {
    if q.limit.Some? {
      RunOne(b, CallLimit(q.limit.value));
    }
    if q.offset.Some? {
      RunOne(Run(b, LimitCalls(q)).value, CallOffset(q.offset.value));
    }
  }

  /** Running the calls of an accepted tree fills every part of the builder as the tree says. */
  lemma ChainRuns(q: Query) returns (b: Builder)
    requires FiltersLower(q)
    ensures Run(Begin(LowerStart(q.table)), AllCalls(q)) == Some(b)
    ensures (b.repo, b.table) == SaidTable(q.table) && b.distinct == q.distinct && SaysItems(q.select, b.items)
    ensures SaysFilter(q.where_, b.where_) && SaysFilter(q.having, b.having)
    ensures b.groups == GroupFields(q.groupBy) && b.orders == SaidOrders(q.orderBy) && b.pages == SaidPages(q)
  {
    hide Run, FiltersLower, WhereCalls, GroupCalls, HavingCalls, SelectCalls, DistinctCalls, OrderCalls, LimitCalls, OffsetCalls,
         SaysFilter, SaysItems, GroupFields, SaidOrders;
    var b0 := Begin(LowerStart(q.table));
    var f := WhereRun(b0, q);
    var b1 := b0.(where_ := f);
    GroupRun(b1, q);
    var b2 := b1.(groups := GroupFields(q.groupBy));
    var h := HavingRun(b2, q);
    var b3 := b2.(having := h);
    var outs := SelectRun(b3, q);
    var b4 := b3.(items := outs);
    DistinctRun(b4, q);
    var b5 := b4.(distinct := q.distinct);
    OrdersRun(b5, q.orderBy);
    assert [] + SaidOrders(q.orderBy) == SaidOrders(q.orderBy);
    var b6 := b5.(orders := SaidOrders(q.orderBy));
    PagesRun(b6, q);
    b := b6.(pages := SaidPages(q));
    RunAppend(b0, WhereCalls(q), GroupCalls(q));
    RunAppend(b0, WhereCalls(q) + GroupCalls(q), HavingCalls(q));
    RunAppend(b0, WhereCalls(q) + GroupCalls(q) + HavingCalls(q), SelectCalls(q));
    RunAppend(b0, WhereCalls(q) + GroupCalls(q) + HavingCalls(q) + SelectCalls(q), DistinctCalls(q));
    var front := WhereCalls(q) + GroupCalls(q) + HavingCalls(q) + SelectCalls(q) + DistinctCalls(q);
    RunAppend(b0, front, OrderCalls(q.orderBy));
    RunAppend(b0, front + OrderCalls(q.orderBy), LimitCalls(q));
    RunAppend(b0, front + OrderCalls(q.orderBy) + LimitCalls(q), OffsetCalls(q));
  }

  /** The macro accepts a tree exactly when its filters are filter expressions, and then the emitted
      calls run and build a read query that says what the tree says. */
  lemma CompiledQuerySaysItsTree(q: Query)
    ensures LowerQuery(q).Ok? <==> FiltersLower(q)
    ensures LowerQuery(q).Ok? ==> Execute(LowerQuery(q).value).Some? && Says(q, Execute(LowerQuery(q).value).value)
  {
    if FiltersLower(q) {
      hide Run, FiltersLower, AllCalls, SaysFilter, SaysItem, GroupField, SaidPath;
      var b := ChainRuns(q);
      forall i | 0 <= i < |q.groupBy| ensures b.groups[i] == SaidPath(q.groupBy[i]) {
        OrderPathSpelled(q.groupBy[i]);
      }
    }
  }
}
