/**
  The language of the `q!` read form, written independently of the parser: how the
  pieces of a syntax tree are spelled and what may follow each of them. Every piece is
  shown to parse back, and only from its own spellings.
 */
module QuerySpelling {
  import opened Common
  import opened FilterLower
  import opened QueryGrammar

  /** Choices a spelling makes that the tree does not record. */
  datatype ItemLayout = ItemLayout(raw: bool, toks: seq<Token>)

  datatype Layout = Layout(
    repoRaw: bool,
    tableRaw: bool,
    whereToks: seq<Token>,
    groupItems: seq<ItemLayout>,
    groupTrail: bool,
    havingToks: seq<Token>,
    selectItems: seq<ItemLayout>,
    selectTrail: bool,
    orderItems: seq<ItemLayout>,
    orderTrail: bool)

  // ---- spelling the pieces ----

  function ShowDots(ids: seq<Ident>): seq<Token> {
    if ids == [] then [] else [TDot, TIdent(ids[0])] + ShowDots(ids[1..])
  }

  function ShowDotted(ids: seq<Ident>): seq<Token>
    requires ids != []
  {
    [TIdent(ids[0])] + ShowDots(ids[1..])
  }

  function ShowPath(f: FieldPath): seq<Token> {
    match f
    case PathLit(text) => [TStr(text)]
    case PathIdents(ids) => if ids == [] then [] else ShowDotted(ids)
  }

  /** An identifier path must not be followed by a dot and an identifier. */
  predicate PathFits(f: FieldPath, rest: seq<Token>) {
    f.PathLit? || (f.ids != [] && !PeekDotIdent(rest))
  }

  function ShowTable(t: TableArg, repoRaw: bool, tableRaw: bool): seq<Token> {
    match t
    case SimpleIdent(id) => [TIdent(id)]
    case SimpleLit(text) => [TStr(text)]
    case Repo(repo, table) => [TIdent(Ident(repoRaw, repo)), TDot, TIdent(Ident(tableRaw, table))]
  }

  predicate TableFits(t: TableArg, rest: seq<Token>) {
    t.SimpleIdent? ==> !PeekDotIdent(rest)
  }

  function ShowAs(alias: Option<Ident>): seq<Token> {
    if alias.Some? then [TAs, TIdent(alias.value)] else []
  }

  function ShowItem(item: SelectItem, lay: ItemLayout): seq<Token> {
    match item
    case All => [TStar]
    case SelectField(segments, alias) => (if segments == [] then [] else ShowDotted(segments)) + ShowAs(alias)
    case CountAll(alias) => [TIdent(Ident(lay.raw, "count")), TParen([TStar])] + ShowAs(alias)
    case BuiltinAgg(func, segments, as_) =>
      [TIdent(Ident(lay.raw, func)), TParen(if segments == [] then [] else ShowDotted(segments))] + ShowAs(Some(as_))
    case AggFn(name, segments, as_) =>
      [TIdent(Ident(lay.raw, "agg_fn")),
       TParen([TStr(name), TComma] + if segments == [] then [] else ShowDotted(segments))] + ShowAs(Some(as_))
    case Func(name, args, as_) =>
      [TIdent(Ident(lay.raw, "func")), TParen([TStr(name), TComma] + lay.toks)] + ShowAs(Some(as_))
  }

  predicate AliasFits(alias: Option<Ident>, rest: seq<Token>) {
    alias.None? ==> !Peek(rest, TAs)
  }

  ghost predicate ItemFits(pe: ExprParser, item: SelectItem, lay: ItemLayout, rest: seq<Token>) {
    match item
    case All => true
    case SelectField(segments, alias) =>
      && segments != [] && AliasFits(alias, rest)
      && (alias.None? ==> !PeekDotIdent(rest) && (|segments| == 1 ==> !PeekParen(rest)))
    case CountAll(alias) => AliasFits(alias, rest)
    case BuiltinAgg(func, segments, _) => segments != [] && IsBuiltinAgg(func)
    case AggFn(_, segments, _) => segments != []
    case Func(_, args, _) => pe(lay.toks) == Some((args, |lay.toks|))
  }

  function ShowOrder(item: OrderItem): seq<Token> {
    ShowPath(item.field) + [TIdent(Ident(false, if item.direction.Asc? then "asc" else "desc"))]
  }

  predicate OrderFits(item: OrderItem) {
    item.field.PathIdents? ==> item.field.ids != []
  }

  // ---- each piece parses back, and only from its own spellings ----

  lemma DotsStep(id: Ident, more: seq<Token>)
    ensures ParseDots([TDot, TIdent(id)] + more) == Yes([id] + ParseDots(more).value, ParseDots(more).rest)
  {
    var ts := [TDot, TIdent(id)] + more;
    assert ts[0] == TDot && ts[1] == TIdent(id) && ts[2..] == more;
    assert ts[1..][0] == ts[1];
  }

  lemma {:induction false} DotsForward(ids: seq<Ident>, rest: seq<Token>)
    requires !PeekDotIdent(rest)
    ensures ParseDots(ShowDots(ids) + rest) == Yes(ids, rest)
  {
    if ids == [] {
      assert ShowDots(ids) + rest == rest;
    } else {
      hide ParseDots, PeekDotIdent;
      DotsForward(ids[1..], rest);
      var link := [TDot, TIdent(ids[0])];
      Associate(link, ShowDots(ids[1..]), rest);
      DotsStep(ids[0], ShowDots(ids[1..]) + rest);
      assert ids == [ids[0]] + ids[1..];
    }
  }

  lemma {:induction false} DotsBackward(ts: seq<Token>)
    ensures ts == ShowDots(ParseDots(ts).value) + ParseDots(ts).rest
    ensures !PeekDotIdent(ParseDots(ts).rest)
    decreases |ts|
  {
    if PeekDotIdent(ts) {
      DotsBackward(ts[2..]);
      var more := ParseDots(ts[2..]);
      assert ts[1..][0] == ts[1];
      assert ([ts[1].id] + more.value)[1..] == more.value;
      assert ts == [TDot, TIdent(ts[1].id)] + ts[2..];
    } else {
      assert ShowDots([]) + ts == ts;
    }
  }

  lemma DottedForward(ids: seq<Ident>, rest: seq<Token>)
    requires ids != [] && !PeekDotIdent(rest)
    ensures var ts := ShowDotted(ids) + rest;
            && PeekIdent(ts) && ts[0] == TIdent(ids[0])
            && ParseDots(ts[1..]) == Yes(ids[1..], rest)
            && [ids[0]] + ids[1..] == ids
            && (|ids| > 1 ==> ts[1..] != [] && ts[1] == TDot)
            && (|ids| == 1 ==> ts[1..] == rest)
  {
    var ts := ShowDotted(ids) + rest;
    assert ts[1..] == ShowDots(ids[1..]) + rest;
    DotsForward(ids[1..], rest);
    if |ids| == 1 {
      assert ids[1..] == [];
    } else {
      assert ShowDots(ids[1..])[0] == TDot;
    }
  }

  lemma DottedBackward(ts: seq<Token>)
    requires PeekIdent(ts)
    ensures var more := ParseDots(ts[1..]);
            var ids := [ts[0].id] + more.value;
            ts == ShowDotted(ids) + more.rest && !PeekDotIdent(more.rest)
  {
    hide ParseDots, ShowDots, PeekDotIdent;
    var more := ParseDots(ts[1..]);
    DotsBackward(ts[1..]);
    var ids := [ts[0].id] + more.value;
    assert ids[1..] == more.value;
    assert ts == [ts[0]] + ts[1..];
    Associate([ts[0]], ShowDots(more.value), more.rest);
  }

  lemma PathForward(f: FieldPath, rest: seq<Token>)
    requires PathFits(f, rest)
    ensures ParseFieldPath(ShowPath(f) + rest) == Yes(f, rest)
  {
    var ts := ShowPath(f) + rest;
    match f
    case PathLit(text) => assert ts[1..] == rest;
    case PathIdents(ids) => DottedForward(ids, rest);
  }

  lemma PathBackward(ts: seq<Token>)
    requires ParseFieldPath(ts).Yes?
    ensures var r := ParseFieldPath(ts); ts == ShowPath(r.value) + r.rest && PathFits(r.value, r.rest)
  {
    if ts[0].TStr? {
      assert ts == [ts[0]] + ts[1..];
    } else {
      DottedBackward(ts);
    }
  }

  lemma TableForward(t: TableArg, repoRaw: bool, tableRaw: bool, rest: seq<Token>)
    requires TableFits(t, rest)
    ensures ParseTableArg(ShowTable(t, repoRaw, tableRaw) + rest) == Yes(t, rest)
  {
    var ts := ShowTable(t, repoRaw, tableRaw) + rest;
    match t
    case SimpleIdent(id) => assert ts[1..] == rest;
    case SimpleLit(text) => assert ts[1..] == rest;
    case Repo(repo, table) =>
      assert ts[1..] == [TDot, TIdent(Ident(tableRaw, table))] + rest;
      assert ts[1..][1..][0] == TIdent(Ident(tableRaw, table));
      assert ts[3..] == rest;
  }

  lemma TableBackward(ts: seq<Token>) returns (repoRaw: bool, tableRaw: bool)
    requires ParseTableArg(ts).Yes?
    ensures var r := ParseTableArg(ts); ts == ShowTable(r.value, repoRaw, tableRaw) + r.rest && TableFits(r.value, r.rest)
  {
    repoRaw, tableRaw := false, false;
    if ts[0].TStr? {
      assert ts == [ts[0]] + ts[1..];
    } else if PeekDotIdent(ts[1..]) {
      assert ts[1..][1..][0] == ts[2];
      repoRaw, tableRaw := ts[0].id.raw, ts[2].id.raw;
      assert ts == [ts[0], ts[1], ts[2]] + ts[3..];
    } else {
      assert ts == [ts[0]] + ts[1..];
    }
  }

  lemma AsForward(alias: Option<Ident>, rest: seq<Token>)
    requires AliasFits(alias, rest)
    ensures ParseOptionalAs(ShowAs(alias) + rest) == Yes(alias, rest)
    ensures alias.Some? ==> ParseRequiredAs(ShowAs(alias) + rest) == Yes(alias.value, rest)
  {
    var ts := ShowAs(alias) + rest;
    if alias.Some? {
      assert ts[1..][0] == TIdent(alias.value);
      assert ts[2..] == rest;
    } else {
      assert ts == rest;
    }
  }

  lemma AsBackward(ts: seq<Token>)
    ensures var r := ParseOptionalAs(ts); r.Yes? ==> ts == ShowAs(r.value) + r.rest && AliasFits(r.value, r.rest)
    ensures var r := ParseRequiredAs(ts); r.Yes? ==> ts == ShowAs(Some(r.value)) + r.rest
  {
    if Peek(ts, TAs) && PeekIdent(ts[1..]) {
      assert ts[1..][0] == ts[1];
      assert ts == [ts[0], ts[1]] + ts[2..];
    } else {
      assert ShowAs(None) + ts == ts;
    }
  }

  lemma DottedAllForward(ids: seq<Ident>)
    requires ids != []
    ensures ParseDottedAll(ShowDotted(ids)) == Yes(ids, [])
  {
    DottedForward(ids, []);
    assert ShowDotted(ids) + [] == ShowDotted(ids);
  }

  lemma DottedAllBackward(ts: seq<Token>)
    requires ParseDottedAll(ts).Yes?
    ensures var ids := ParseDottedAll(ts).value; ids != [] && ts == ShowDotted(ids)
  {
    DottedBackward(ts);
  }

  function CallToken(item: SelectItem, lay: ItemLayout): seq<Token>
    requires !item.All? && !item.SelectField?
  {
    match item
    case CountAll(_) => [TStar]
    case BuiltinAgg(_, segments, _) => if segments == [] then [] else ShowDotted(segments)
    case AggFn(name, segments, _) => [TStr(name), TComma] + if segments == [] then [] else ShowDotted(segments)
    case Func(name, _, _) => [TStr(name), TComma] + lay.toks
  }

  function CallName(item: SelectItem): string
    requires !item.All? && !item.SelectField?
  {
    match item
    case CountAll(_) => "count"
    case BuiltinAgg(func, _, _) => func
    case AggFn(_, _, _) => "agg_fn"
    case Func(_, _, _) => "func"
  }

  function CallAlias(item: SelectItem): Option<Ident>
    requires !item.All? && !item.SelectField?
  {
    match item
    case CountAll(alias) => alias
    case BuiltinAgg(_, _, as_) => Some(as_)
    case AggFn(_, _, as_) => Some(as_)
    case Func(_, _, as_) => Some(as_)
  }

  lemma ShowCall(item: SelectItem, lay: ItemLayout, rest: seq<Token>)
    requires !item.All? && !item.SelectField?
    ensures var ts := ShowItem(item, lay) + rest;
            && |ts| >= 2
            && ts[0] == TIdent(Ident(lay.raw, CallName(item)))
            && ts[1] == TParen(CallToken(item, lay))
            && ts[2..] == ShowAs(CallAlias(item)) + rest
  {
    var head := [TIdent(Ident(lay.raw, CallName(item))), TParen(CallToken(item, lay))];
    assert ShowItem(item, lay) == head + ShowAs(CallAlias(item));
    assert ShowItem(item, lay) + rest == head + (ShowAs(CallAlias(item)) + rest);
  }

  lemma CallForward(pe: ExprParser, item: SelectItem, lay: ItemLayout, rest: seq<Token>)
    requires !item.All? && !item.SelectField? && ItemFits(pe, item, lay, rest)
    ensures ParseSelectCall(pe, CallName(item), CallToken(item, lay), ShowAs(CallAlias(item)) + rest) == Yes(item, rest)
  {
    AsForward(CallAlias(item), rest);
    var inner := CallToken(item, lay);
    match item
    case CountAll(_) => assert inner[1..] == [];
    case BuiltinAgg(_, segments, _) => DottedAllForward(segments);
    case AggFn(_, segments, _) =>
      DottedAllForward(segments);
      assert inner[2..] == ShowDotted(segments);
    case Func(_, _, _) =>
      assert inner[2..] == lay.toks;
      assert lay.toks[|lay.toks|..] == [];
  }

  /** A plain field, from the parses of its parts. */
  lemma PlainField(pe: ExprParser, ts: seq<Token>, alias: Option<Ident>, rest: seq<Token>)
    requires PeekIdent(ts) && !PeekParen(ts[1..])
    requires ParseOptionalAs(ParseDots(ts[1..]).rest) == Yes(alias, rest)
    ensures ParseSelectItem(pe, ts) == Yes(SelectField([ts[0].id] + ParseDots(ts[1..]).value, alias), rest)
  {
    hide ParseDots, ParseOptionalAs, ParseSelectCall;
  }

  /** What follows a path: its alias, or something that does not continue it. */
  lemma AfterPath(alias: Option<Ident>, single: bool, rest: seq<Token>)
    requires alias.None? ==> !PeekDotIdent(rest) && (single ==> !PeekParen(rest))
    ensures var after := ShowAs(alias) + rest; !PeekDotIdent(after) && (single ==> !PeekParen(after))
  {
    var after := ShowAs(alias) + rest;
    if alias.Some? {
      assert after[0] == TAs;
    } else {
      assert after == rest;
    }
  }

  lemma FieldForward(pe: ExprParser, item: SelectItem, lay: ItemLayout, rest: seq<Token>)
    requires item.SelectField? && ItemFits(pe, item, lay, rest)
    ensures ParseSelectItem(pe, ShowItem(item, lay) + rest) == Yes(item, rest)
  {
    hide ParseSelectItem, ParseDots, ShowDotted, ShowAs, ParseOptionalAs, PeekDotIdent;
    var after := ShowAs(item.alias) + rest;
    AfterPath(item.alias, |item.segments| == 1, rest);
    AsForward(item.alias, rest);
    DottedForward(item.segments, after);
    Associate(ShowDotted(item.segments), ShowAs(item.alias), rest);
    var ts := ShowDotted(item.segments) + after;
    assert !PeekParen(ts[1..]) by {
      if |item.segments| > 1 {
        assert ts[1..][0] == ts[1] == TDot;
      }
    }
    PlainField(pe, ts, item.alias, rest);
  }

  lemma ItemForward(pe: ExprParser, item: SelectItem, lay: ItemLayout, rest: seq<Token>)
    requires ItemFits(pe, item, lay, rest)
    ensures ParseSelectItem(pe, ShowItem(item, lay) + rest) == Yes(item, rest)
  {
    if item.All? {
      assert (ShowItem(item, lay) + rest)[1..] == rest;
    } else if item.SelectField? {
      FieldForward(pe, item, lay, rest);
    } else {
      ShowCall(item, lay, rest);
      CallForward(pe, item, lay, rest);
    }
  }

  lemma CallBackward(pe: ExprParser, name: string, inner: seq<Token>, rest: seq<Token>) returns (toks: seq<Token>)
    requires ParseSelectCall(pe, name, inner, rest).Yes?
    ensures var r := ParseSelectCall(pe, name, inner, rest);
            && !r.value.All? && !r.value.SelectField?
            && CallName(r.value) == name
            && rest == ShowAs(CallAlias(r.value)) + r.rest
            && (forall raw: bool {:trigger ItemLayout(raw, toks)} ::
                  CallToken(r.value, ItemLayout(raw, toks)) == inner && ItemFits(pe, r.value, ItemLayout(raw, toks), r.rest))
  {
    AsBackward(rest);
    toks := [];
    if name == "count" && Peek(inner, TStar) {
      assert inner == [inner[0]] + inner[1..];
    } else if IsBuiltinAgg(name) {
      DottedAllBackward(inner);
    } else if name == "agg_fn" {
      DottedAllBackward(inner[2..]);
      assert inner == [inner[0], inner[1]] + inner[2..];
    } else {
      toks := inner[2..];
      assert inner == [inner[0], inner[1]] + inner[2..];
    }
  }

  lemma FieldParts(pe: ExprParser, ts: seq<Token>)
    requires ParseSelectItem(pe, ts).Yes? && ParseSelectItem(pe, ts).value.SelectField?
    ensures PeekIdent(ts) && !PeekParen(ts[1..])
    ensures var r := ParseSelectItem(pe, ts);
            var more := ParseDots(ts[1..]);
            && ParseOptionalAs(more.rest) == Yes(r.value.alias, r.rest)
            && r.value.segments == [ts[0].id] + more.value
  {
    hide ParseDots, ParseOptionalAs;
    if PeekIdent(ts) && PeekParen(ts[1..]) {
      hide ParseSelectCall;
      var _ := CallBackward(pe, ts[0].id.name, ts[1].inner, ts[2..]);
      assert false;
    }
  }

  lemma FieldBackward(pe: ExprParser, ts: seq<Token>, lay: ItemLayout)
    requires ParseSelectItem(pe, ts).Yes? && ParseSelectItem(pe, ts).value.SelectField?
    ensures var r := ParseSelectItem(pe, ts); ts == ShowItem(r.value, lay) + r.rest && ItemFits(pe, r.value, lay, r.rest)
  {
    hide ParseSelectItem, ParseDots, ShowDotted, ShowAs, ParseOptionalAs, PeekDotIdent;
    var r := ParseSelectItem(pe, ts);
    FieldParts(pe, ts);
    var more := ParseDots(ts[1..]);
    DottedBackward(ts);
    AsBackward(more.rest);
    Associate(ShowDotted(r.value.segments), ShowAs(r.value.alias), r.rest);
    if r.value.alias.None? {
      NoAlias(more.rest, r.rest);
      if more.value == [] {
        DottedForward(r.value.segments, more.rest);
      }
    }
  }

  lemma NoAlias(ts: seq<Token>, rest: seq<Token>)
    requires ParseOptionalAs(ts) == Yes(None, rest)
    ensures ts == rest
  {
  }

  lemma ItemBackward(pe: ExprParser, ts: seq<Token>) returns (lay: ItemLayout)
    requires ParseSelectItem(pe, ts).Yes?
    ensures var r := ParseSelectItem(pe, ts); ts == ShowItem(r.value, lay) + r.rest && ItemFits(pe, r.value, lay, r.rest)
  {
    var r := ParseSelectItem(pe, ts);
    lay := ItemLayout(false, []);
    if r.value.All? {
      if Peek(ts, TStar) {
        assert ts == [ts[0]] + ts[1..];
      } else {
        var _ := CallBackward(pe, ts[0].id.name, ts[1].inner, ts[2..]);
        assert false;
      }
    } else if r.value.SelectField? {
      FieldBackward(pe, ts, lay);
    } else {
      var toks := CallBackward(pe, ts[0].id.name, ts[1].inner, ts[2..]);
      lay := ItemLayout(ts[0].id.raw, toks);
      ShowCall(r.value, lay, r.rest);
      var again := ShowItem(r.value, lay) + r.rest;
      assert ts == [ts[0], ts[1]] + ts[2..];
      assert again == [again[0], again[1]] + again[2..];
    }
  }

  lemma OrderForward(item: OrderItem, rest: seq<Token>)
    requires OrderFits(item)
    ensures ParseOrderItem(ShowOrder(item) + rest) == Yes(item, rest)
  {
    var word := [TIdent(Ident(false, if item.direction.Asc? then "asc" else "desc"))];
    assert ShowOrder(item) + rest == ShowPath(item.field) + (word + rest);
    PathForward(item.field, word + rest);
    assert (word + rest)[1..] == rest;
  }

  lemma OrderBackward(ts: seq<Token>)
    requires ParseOrderItem(ts).Yes?
    ensures var r := ParseOrderItem(ts); ts == ShowOrder(r.value) + r.rest && OrderFits(r.value)
  {
    hide ParseFieldPath, ShowPath;
    PathBackward(ts);
    var r := ParseOrderItem(ts);
    var field := ParseFieldPath(ts);
    var word := [TIdent(Ident(false, if r.value.direction.Asc? then "asc" else "desc"))];
    assert field.rest == word + r.rest;
    Associate(ShowPath(field.value), word, r.rest);
  }
}
