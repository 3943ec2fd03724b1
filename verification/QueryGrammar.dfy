/**
  The read form of the `q!` macro: tokens, syntax tree, and the look-ahead parser
  as functions from a token stream to a result and the remaining stream. Parsing
  of embedded Rust expressions is a parameter.
 */
module QueryGrammar {
  import opened Common
  import opened FilterLower

  datatype Token =
    | TIdent(id: Ident)          // any identifier that is not a reserved word, raw or not
    | TStr(text: string)
    | TInt(number: nat)
    | TComma | TDot | TStar | TWhere | TAs
    | TParen(inner: seq<Token>)
    | TOther(code: nat)

  /** Parses a prefix of the stream and says how many tokens it took. */
  type ExprParser = seq<Token> -> Option<(Expr, nat)>

  datatype Parsed<T> = Yes(value: T, rest: seq<Token>) | No

  datatype TableArg =
    | SimpleIdent(id: Ident)
    | SimpleLit(text: string)
    | Repo(repo: string, table: string)

  datatype FieldPath = PathLit(text: string) | PathIdents(ids: seq<Ident>)

  datatype Direction = Asc | Desc

  datatype OrderItem = OrderItem(field: FieldPath, direction: Direction)

  datatype SelectItem =
    | All
    | SelectField(segments: seq<Ident>, alias: Option<Ident>)
    | CountAll(alias: Option<Ident>)
    | BuiltinAgg(func: string, segments: seq<Ident>, as_: Ident)
    | AggFn(name: string, segments: seq<Ident>, as_: Ident)
    | Func(name: string, args: Expr, as_: Ident)

  datatype Query = Query(
    table: TableArg,
    where_: Option<Expr>,
    groupBy: seq<FieldPath>,
    having: Option<Expr>,
    select: seq<SelectItem>,
    distinct: bool,
    orderBy: seq<OrderItem>,
    limit: Option<nat>,
    offset: Option<nat>)

  // ---- look-ahead ----

  predicate PeekKw(ts: seq<Token>, kw: string) {
    ts != [] && ts[0] == TIdent(Ident(false, kw))
  }

  predicate Peek(ts: seq<Token>, t: Token) {
    ts != [] && ts[0] == t
  }

  predicate PeekIdent(ts: seq<Token>) {
    ts != [] && ts[0].TIdent?
  }

  predicate PeekParen(ts: seq<Token>) {
    ts != [] && ts[0].TParen?
  }

  /** A dot followed by an identifier: the path goes on. */
  predicate PeekDotIdent(ts: seq<Token>) {
    Peek(ts, TDot) && PeekIdent(ts[1..])
  }

  predicate PeekClause(ts: seq<Token>) {
    || PeekKw(ts, "select") || PeekKw(ts, "group_by") || PeekKw(ts, "having")
    || PeekKw(ts, "order_by") || PeekKw(ts, "limit") || PeekKw(ts, "offset")
  }

  /** What ends a `group_by`, `select` or `order_by` list after a comma. */
  predicate StopGroup(ts: seq<Token>) {
    || ts == [] || PeekKw(ts, "having") || PeekKw(ts, "select") || PeekKw(ts, "order_by")
    || PeekKw(ts, "limit") || PeekKw(ts, "offset")
  }

  predicate StopSelect(ts: seq<Token>) {
    ts == [] || PeekKw(ts, "order_by") || PeekKw(ts, "limit") || PeekKw(ts, "offset")
  }

  predicate StopOrder(ts: seq<Token>) {
    ts == [] || PeekKw(ts, "limit") || PeekKw(ts, "offset")
  }

  // ---- pieces ----

  /** `.ident` repeated; stops before a dot that is not followed by an identifier. */
  function ParseDots(ts: seq<Token>): (r: Parsed<seq<Ident>>)
    ensures r.Yes? && |r.rest| <= |ts|
  {
    if PeekDotIdent(ts) then
      var more := ParseDots(ts[2..]);
      Yes([ts[1].id] + more.value, more.rest)
    else Yes([], ts)
  }

  function ParseFieldPath(ts: seq<Token>): (r: Parsed<FieldPath>)
    ensures r.Yes? ==> |r.rest| < |ts|
  {
    if ts != [] && ts[0].TStr? then Yes(PathLit(ts[0].text), ts[1..])
    else if PeekIdent(ts) then
      var more := ParseDots(ts[1..]);
      Yes(PathIdents([ts[0].id] + more.value), more.rest)
    else No
  }

  /** Repository and table names lose their `r#` prefix. */
  function ParseTableArg(ts: seq<Token>): Parsed<TableArg> {
    if ts != [] && ts[0].TStr? then Yes(SimpleLit(ts[0].text), ts[1..])
    else if !PeekIdent(ts) then No
    else if PeekDotIdent(ts[1..]) then Yes(Repo(ts[0].id.name, ts[2].id.name), ts[3..])
    else Yes(SimpleIdent(ts[0].id), ts[1..])
  }

  function ParseExpr(pe: ExprParser, ts: seq<Token>): (r: Parsed<Expr>)
    ensures r.Yes? ==> |r.rest| <= |ts|
  {
    var got := pe(ts);
    if got.None? || got.value.1 > |ts| then No else Yes(got.value.0, ts[got.value.1..])
  }

  function ParseFilterExpr(pe: ExprParser, ts: seq<Token>): Parsed<Expr> {
    if ts == [] || PeekClause(ts) then No else ParseExpr(pe, ts)
  }

  function ParseOptionalAs(ts: seq<Token>): (r: Parsed<Option<Ident>>)
    ensures r.Yes? ==> |r.rest| <= |ts|
  {
    if Peek(ts, TAs) then (if PeekIdent(ts[1..]) then Yes(Some(ts[1].id), ts[2..]) else No)
    else Yes(None, ts)
  }

  function ParseRequiredAs(ts: seq<Token>): (r: Parsed<Ident>)
    ensures r.Yes? ==> |r.rest| <= |ts|
  {
    if Peek(ts, TAs) && PeekIdent(ts[1..]) then Yes(ts[1].id, ts[2..]) else No
  }

  /** Dotted identifiers filling a whole parenthesised stream. */
  function ParseDottedAll(ts: seq<Token>): Parsed<seq<Ident>> {
    if !PeekIdent(ts) then No
    else
      var more := ParseDots(ts[1..]);
      if more.rest == [] then Yes([ts[0].id] + more.value, []) else No
  }

  predicate IsBuiltinAgg(name: string) {
    name == "count" || name == "sum" || name == "avg" || name == "min" || name == "max"
  }

  /** A select item of the form `name(inner)`, with `rest` the stream behind the parenthesis. */
  function ParseSelectCall(pe: ExprParser, name: string, inner: seq<Token>, rest: seq<Token>): (r: Parsed<SelectItem>)
    ensures r.Yes? ==> |r.rest| <= |rest|
  {
    if name == "count" && Peek(inner, TStar) then
      if inner[1..] != [] then No
      else
        var alias := ParseOptionalAs(rest);
        if alias.No? then No else Yes(CountAll(alias.value), alias.rest)
    else if IsBuiltinAgg(name) then
      var segments := ParseDottedAll(inner);
      if segments.No? then No
      else
        var alias := ParseRequiredAs(rest);
        if alias.No? then No else Yes(BuiltinAgg(name, segments.value, alias.value), alias.rest)
    else if name == "agg_fn" then
      if !(|inner| >= 2 && inner[0].TStr? && inner[1] == TComma) then No
      else
        var segments := ParseDottedAll(inner[2..]);
        if segments.No? then No
        else
          var alias := ParseRequiredAs(rest);
          if alias.No? then No else Yes(AggFn(inner[0].text, segments.value, alias.value), alias.rest)
    else if name == "func" then
      if !(|inner| >= 2 && inner[0].TStr? && inner[1] == TComma) then No
      else
        var args := ParseExpr(pe, inner[2..]);
        if args.No? || args.rest != [] then No
        else
          var alias := ParseRequiredAs(rest);
          if alias.No? then No else Yes(Func(inner[0].text, args.value, alias.value), alias.rest)
    else No
  }

  function ParseSelectItem(pe: ExprParser, ts: seq<Token>): (r: Parsed<SelectItem>)
    ensures r.Yes? ==> |r.rest| < |ts|
  {
    if Peek(ts, TStar) then Yes(All, ts[1..])
    else if !PeekIdent(ts) then No
    else if PeekParen(ts[1..]) then ParseSelectCall(pe, ts[0].id.name, ts[1].inner, ts[2..])
    else
      var more := ParseDots(ts[1..]);
      var alias := ParseOptionalAs(more.rest);
      if alias.No? then No else Yes(SelectField([ts[0].id] + more.value, alias.value), alias.rest)
  }

  function ParseOrderItem(ts: seq<Token>): (r: Parsed<OrderItem>)
    ensures r.Yes? ==> |r.rest| < |ts|
  {
    var field := ParseFieldPath(ts);
    if field.No? then No
    else if PeekKw(field.rest, "desc") then Yes(OrderItem(field.value, Desc), field.rest[1..])
    else if PeekKw(field.rest, "asc") then Yes(OrderItem(field.value, Asc), field.rest[1..])
    else No
  }

  // ---- comma-separated lists with an optional trailing comma ----

  ghost predicate Consumes<T(!new)>(item: seq<Token> -> Parsed<T>) {
    forall ts {:trigger item(ts)} :: item(ts).Yes? ==> |item(ts).rest| < |ts|
  }

  ghost function ParseList<T(!new)>(item: seq<Token> -> Parsed<T>, stop: seq<Token> -> bool, ts: seq<Token>): (r: Parsed<seq<T>>)
    requires Consumes(item)
    ensures r.Yes? ==> |r.rest| < |ts| && r.value != []
    decreases |ts|
  {
    var first := item(ts);
    if first.No? then No
    else if Peek(first.rest, TComma) then
      var after := first.rest[1..];
      if stop(after) then Yes([first.value], after)
      else
        var more := ParseList(item, stop, after);
        if more.No? then No else Yes([first.value] + more.value, more.rest)
    else Yes([first.value], first.rest)
  }

  // ---- clauses and the whole query ----

  function ParseExprClause(pe: ExprParser, opener: Token, ts: seq<Token>): Parsed<Option<Expr>> {
    if Peek(ts, opener) then
      var e := ParseFilterExpr(pe, ts[1..]);
      if e.No? then No else Yes(Some(e.value), e.rest)
    else Yes(None, ts)
  }

  const HAVING := TIdent(Ident(false, "having"))
  const GROUP_BY := TIdent(Ident(false, "group_by"))
  const SELECT := TIdent(Ident(false, "select"))
  const DISTINCT := TIdent(Ident(false, "distinct"))
  const ORDER_BY := TIdent(Ident(false, "order_by"))
  const LIMIT := TIdent(Ident(false, "limit"))
  const OFFSET := TIdent(Ident(false, "offset"))
  const FROM := TIdent(Ident(false, "from"))

  ghost function ParseListClause<T(!new)>(item: seq<Token> -> Parsed<T>, stop: seq<Token> -> bool, opener: Token, ts: seq<Token>): Parsed<seq<T>>
    requires Consumes(item)
  {
    if Peek(ts, opener) then ParseList(item, stop, ts[1..]) else Yes([], ts)
  }

  function SelectItemParser(pe: ExprParser): seq<Token> -> Parsed<SelectItem> {
    ts => ParseSelectItem(pe, ts)
  }

  lemma ItemsConsume(pe: ExprParser)
    ensures Consumes(ParseFieldPath) && Consumes(SelectItemParser(pe)) && Consumes(ParseOrderItem)
  {
  }

  /** Items and the `distinct` mark. */
  ghost function ParseSelect(pe: ExprParser, ts: seq<Token>): Parsed<(seq<SelectItem>, bool)> {
    ItemsConsume(pe);
    if !Peek(ts, SELECT) then Yes(([], false), ts)
    else
      var distinct := Peek(ts[1..], DISTINCT);
      var items := ParseList(SelectItemParser(pe), StopSelect, if distinct then ts[2..] else ts[1..]);
      if items.No? then No else Yes((items.value, distinct), items.rest)
  }

  function ParseNumber(opener: Token, ts: seq<Token>): Parsed<Option<nat>> {
    if Peek(ts, opener) then (if |ts| >= 2 && ts[1].TInt? then Yes(Some(ts[1].number), ts[2..]) else No)
    else Yes(None, ts)
  }

  function JoinDots(ids: seq<Ident>): string {
    if ids == [] then "" else if |ids| == 1 then ids[0].name else ids[0].name + "." + JoinDots(ids[1..])
  }

  /** The output key a select item produces. */
  function SelectKey(item: SelectItem): Option<string> {
    match item
    case All => None
    case SelectField(segments, alias) => Some(if alias.Some? then alias.value.name else JoinDots(segments))
    case CountAll(alias) => Some(if alias.Some? then alias.value.name else "count")
    case BuiltinAgg(_, _, as_) => Some(as_.name)
    case AggFn(_, _, as_) => Some(as_.name)
    case Func(_, _, as_) => Some(as_.name)
  }

  /** No two select items share an output key. */
  predicate DistinctKeys(items: seq<SelectItem>) {
    forall i, j :: 0 <= i < j < |items| && SelectKey(items[i]).Some? ==> SelectKey(items[i]) != SelectKey(items[j])
  }

  ghost function ParseQuery(pe: ExprParser, ts: seq<Token>): Option<Query> {
    ItemsConsume(pe);
    if !Peek(ts, FROM) then None else
    var table := ParseTableArg(ts[1..]);
    if table.No? then None else
    var where_ := ParseExprClause(pe, TWhere, table.rest);
    if where_.No? then None else
    var groupBy := ParseListClause(ParseFieldPath, StopGroup, GROUP_BY, where_.rest);
    if groupBy.No? then None else
    var having := ParseExprClause(pe, HAVING, groupBy.rest);
    if having.No? then None else
    var select := ParseSelect(pe, having.rest);
    if select.No? then None else
    var orderBy := ParseListClause(ParseOrderItem, StopOrder, ORDER_BY, select.rest);
    if orderBy.No? then None else
    var limit := ParseNumber(LIMIT, orderBy.rest);
    if limit.No? then None else
    var offset := ParseNumber(OFFSET, limit.rest);
    if offset.No? || offset.rest != [] || !DistinctKeys(select.value.0) then None
    else Some(Query(table.value, where_.value, groupBy.value, having.value, select.value.0, select.value.1,
                    orderBy.value, limit.value, offset.value))
  }
}
