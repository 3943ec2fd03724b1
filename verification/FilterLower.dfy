/**
  Lowering of `filter!` expressions to builder calls, and the filter those calls
  build. The meaning of an expression is given directly on its syntax tree; the
  main result is that the built filter means the same on every record.
 */
module FilterLower {
  import opened Common

  // ---- source expressions ----

  datatype Ident = Ident(raw: bool, name: string)

  datatype BinOp = And | Or | Eq | Ne | Gt | Ge | Lt | Le | OtherBinOp

  datatype UnOp = Not | OtherUnOp

  datatype Member = Named(id: Ident) | Unnamed(index: nat)

  /** The part of the Rust expression grammar the lowering looks at. */
  datatype Expr =
    | Paren(inner: Expr)
    | Group(inner: Expr)
    | Binary(op: BinOp, left: Expr, right: Expr)
    | Unary(unop: UnOp, operand: Expr)
    | Call(func: Expr, args: seq<Expr>)
    | Path(segments: seq<Ident>)
    | Field(base: Expr, member: Member)
    | Other(code: nat)

  // ---- emitted builder calls ----

  /** A field path argument: one string literal, or an array of them. */
  datatype PathCode = Single(name: string) | Array(names: seq<string>)

  datatype Arg = PathArg(path: PathCode) | Verbatim(expr: Expr)

  /** The builder's comparison constructors. */
  datatype Comparison = CmpEq | CmpNe | CmpGt | CmpGte | CmpLt | CmpLte

  /** The predicates callable at filter position. */
  datatype Predicate =
    | Like | ILike | Regex
    | IsNull | IsNotNull | Exists | NotExists
    | Contains | ContainsAny | ContainsAll
    | In | NotIn | Between | Fts | VectorSimilarity
    | Computed | ComputedWithArgs

  /** A leaf constructor of the builder. */
  datatype Leaf = CompareWith(cmp: Comparison) | Test(predicate_: Predicate)

  datatype Code =
    | CallAnd(operands: seq<Code>)
    | CallOr(operands: seq<Code>)
    | CallNot(operand: Code)
    | CallLeaf(leaf: Leaf, args: seq<Arg>)

  datatype Lowered<T> = Ok(value: T) | Error

  /** `collect_field_segments`: the segments of a dotted path, outermost base first. */
  function FieldSegments(e: Expr): Lowered<seq<Ident>> {
    match e
    case Path(segments) => if |segments| == 1 then Ok(segments) else Error
    case Field(base, member) =>
      var prefix := FieldSegments(base);
      if prefix.Error? || member.Unnamed? then Error else Ok(prefix.value + [member.id])
    case _ => Error
  }

  /** Raw identifiers lose their `r#` prefix. */
  function Unraw(ids: seq<Ident>): (r: seq<string>)
    ensures |r| == |ids|
  {
    seq(|ids|, i requires 0 <= i < |ids| => ids[i].name)
  }

  function SegmentsToPath(ids: seq<Ident>): PathCode {
    if |ids| == 1 then Single(ids[0].name) else Array(Unraw(ids))
  }

  function FieldPathCode(e: Expr): Lowered<PathCode> {
    var segments := FieldSegments(e);
    if segments.Error? then Error else Ok(SegmentsToPath(segments.value))
  }

  function PredicateNamed(name: string): Option<Predicate> {
    if name == "like" then Some(Like)
    else if name == "ilike" then Some(ILike)
    else if name == "regex" then Some(Regex)
    else if name == "is_null" then Some(IsNull)
    else if name == "is_not_null" then Some(IsNotNull)
    else if name == "exists" then Some(Exists)
    else if name == "not_exists" then Some(NotExists)
    else if name == "contains" then Some(Contains)
    else if name == "contains_any" then Some(ContainsAny)
    else if name == "contains_all" then Some(ContainsAll)
    else if name == "in_" then Some(In)
    else if name == "not_in" then Some(NotIn)
    else if name == "between" then Some(Between)
    else if name == "fts" then Some(Fts)
    else if name == "vector_similarity" then Some(VectorSimilarity)
    else if name == "computed" then Some(Computed)
    else if name == "computed_with_args" then Some(ComputedWithArgs)
    else None
  }

  /** The predicate a callee names: a single unraw identifier from the table. */
  function Callee(func: Expr): Option<Predicate> {
    if func.Path? && |func.segments| == 1 && !func.segments[0].raw
    then PredicateNamed(func.segments[0].name) else None
  }

  /** Number of arguments, and which of them is the field. */
  function Shape(p: Predicate): (r: (nat, nat))
    ensures r.1 < r.0
  {
    match p
    case IsNull | IsNotNull | Exists | NotExists => (1, 0)
    case Between | Fts | VectorSimilarity => (3, 0)
    case Computed => (4, 1)
    case ComputedWithArgs => (5, 1)
    case _ => (2, 0)
  }

  function ComparisonFor(op: BinOp): Option<Comparison> {
    match op
    case Eq => Some(CmpEq)
    case Ne => Some(CmpNe)
    case Gt => Some(CmpGt)
    case Ge => Some(CmpGte)
    case Lt => Some(CmpLt)
    case Le => Some(CmpLte)
    case _ => None
  }

  function LowerComparison(op: BinOp, left: Expr, right: Expr): Lowered<Code> {
    var cmp := ComparisonFor(op);
    if cmp.None? then Error
    else
      var field := FieldPathCode(left);
      if field.Error? then Error
      else Ok(CallLeaf(CompareWith(cmp.value), [PathArg(field.value), Verbatim(right)]))
  }

  /** The emitted argument list: the field argument becomes a path, the rest is verbatim. */
  function LowerArgs(args: seq<Expr>, position: nat, path: PathCode): (r: seq<Arg>)
    ensures |r| == |args|
  {
    seq(|args|, i requires 0 <= i < |args| => if i == position then PathArg(path) else Verbatim(args[i]))
  }

  function LowerPredicateCall(func: Expr, args: seq<Expr>): Lowered<Code> {
    var p := Callee(func);
    if p.None? || |args| != Shape(p.value).0 then Error
    else
      var position := Shape(p.value).1;
      var field := FieldPathCode(args[position]);
      if field.Error? then Error else Ok(CallLeaf(Test(p.value), LowerArgs(args, position, field.value)))
  }

  function Lower(e: Expr): Lowered<Code> {
    match e
    case Paren(inner) => Lower(inner)
    case Group(inner) => Lower(inner)
    case Binary(op, left, right) =>
      if op.And? || op.Or? then
        var l := Lower(left);
        if l.Error? then Error else
        var r := Lower(right);
        if r.Error? then Error
        else Ok(if op.And? then CallAnd([l.value, r.value]) else CallOr([l.value, r.value]))
      else LowerComparison(op, left, right)
    case Unary(op, operand) =>
      if op.Not? then
        var inner := Lower(operand);
        if inner.Error? then Error else Ok(CallNot(inner.value))
      else Error
    case Call(func, args) => LowerPredicateCall(func, args)
    case _ => Error
  }

  // ---- the filter the calls build ----

  datatype Filter =
    | FAnd(filters: seq<Filter>)
    | FOr(filters: seq<Filter>)
    | FNot(filter: Filter)
    | FCompare(cmp: BinOp, field: seq<string>, value: Expr)
    | FPredicate(predicate_: Predicate, field: seq<string>, values: seq<Expr>)

  /** `IntoFieldPath`: a string is a one-segment path. */
  function PathOf(path: PathCode): seq<string> {
    match path
    case Single(name) => [name]
    case Array(names) => names
  }

  function VerbatimArgs(args: seq<Arg>): seq<Expr> {
    if args == [] then []
    else if args[0].Verbatim? then [args[0].expr] + VerbatimArgs(args[1..])
    else VerbatimArgs(args[1..])
  }

  /** The relation each comparison constructor stands for. */
  function Relation(cmp: Comparison): BinOp {
    match cmp
    case CmpEq => Eq
    case CmpNe => Ne
    case CmpGt => Gt
    case CmpGte => Ge
    case CmpLt => Lt
    case CmpLte => Le
  }

  /** Running one leaf constructor of the builder. */
  function BuildLeaf(leaf: Leaf, args: seq<Arg>): Option<Filter> {
    match leaf
    case CompareWith(cmp) =>
      if |args| == 2 && args[0].PathArg? && args[1].Verbatim?
      then Some(FCompare(Relation(cmp), PathOf(args[0].path), args[1].expr)) else None
    case Test(p) =>
      var (arity, position) := Shape(p);
      if |args| == arity && args[position].PathArg?
      then Some(FPredicate(p, PathOf(args[position].path), VerbatimArgs(args))) else None
  }

  /** Running the emitted calls. */
  function Build(code: Code): Option<Filter>
    decreases code, 0
  {
    match code
    case CallAnd(operands) =>
      var fs := BuildAll(operands);
      if fs.None? then None else Some(FAnd(fs.value))
    case CallOr(operands) =>
      var fs := BuildAll(operands);
      if fs.None? then None else Some(FOr(fs.value))
    case CallNot(operand) =>
      var f := Build(operand);
      if f.None? then None else Some(FNot(f.value))
    case CallLeaf(leaf, args) => BuildLeaf(leaf, args)
  }

  function BuildAll(codes: seq<Code>): Option<seq<Filter>>
    decreases codes, 1
  {
    if codes == [] then Some([])
    else
      var first, rest := Build(codes[0]), BuildAll(codes[1..]);
      if first.None? || rest.None? then None else Some([first.value] + rest.value)
  }

  // ---- meaning ----

  datatype Value = Scalar(code: nat) | Map(fields: map<string, Value>)

  /** How comparisons and predicates judge a resolved field; left uninterpreted. */
  datatype Judge = Judge(
    compare: (BinOp, Option<Value>, Expr) -> bool,
    holds: (Predicate, Option<Value>, seq<Expr>) -> bool)

  function Lookup(v: Option<Value>, name: string): Option<Value> {
    if v.Some? && v.value.Map? && name in v.value.fields then Some(v.value.fields[name]) else None
  }

  /** Following a path from the record, first segment first. */
  function Resolve(v: Option<Value>, path: seq<string>): Option<Value>
    decreases |path|
  {
    if path == [] then v else Resolve(Lookup(v, path[0]), path[1..])
  }

  function EvalFilter(f: Filter, record: Value, judge: Judge): bool
    decreases f, 0
  {
    match f
    case FAnd(filters) => EvalAll(filters, record, judge)
    case FOr(filters) => EvalAny(filters, record, judge)
    case FNot(filter) => !EvalFilter(filter, record, judge)
    case FCompare(cmp, field, value) => judge.compare(cmp, Resolve(Some(record), field), value)
    case FPredicate(p, field, values) => judge.holds(p, Resolve(Some(record), field), values)
  }

  function EvalAll(fs: seq<Filter>, record: Value, judge: Judge): bool
    decreases fs, 1
  {
    fs == [] || (EvalFilter(fs[0], record, judge) && EvalAll(fs[1..], record, judge))
  }

  function EvalAny(fs: seq<Filter>, record: Value, judge: Judge): bool
    decreases fs, 1
  {
    fs != [] && (EvalFilter(fs[0], record, judge) || EvalAny(fs[1..], record, judge))
  }

  /** The field an expression denotes, read off its nesting; `None` outside the field-path grammar. */
  function FieldMeaning(e: Expr, record: Value): Option<Option<Value>> {
    match e
    case Path(segments) => if |segments| == 1 then Some(Lookup(Some(record), segments[0].name)) else None
    case Field(base, member) =>
      var b := FieldMeaning(base, record);
      if b.None? || member.Unnamed? then None else Some(Lookup(b.value, member.id.name))
    case _ => None
  }

  /** The arguments of a predicate call other than its field. */
  function OtherArgs(args: seq<Expr>, position: nat): seq<Expr> {
    if position < |args| then args[..position] + args[position + 1..] else args
  }

  /** The truth value of a filter expression on a record; `None` when it is not a filter expression. */
  function Meaning(e: Expr, record: Value, judge: Judge): Option<bool> {
    match e
    case Paren(inner) => Meaning(inner, record, judge)
    case Group(inner) => Meaning(inner, record, judge)
    case Binary(op, left, right) =>
      if op.And? || op.Or? then
        var l, r := Meaning(left, record, judge), Meaning(right, record, judge);
        if l.None? || r.None? then None
        else Some(if op.And? then l.value && r.value else l.value || r.value)
      else
        var field := FieldMeaning(left, record);
        if op.OtherBinOp? || field.None? then None else Some(judge.compare(op, field.value, right))
    case Unary(op, operand) =>
      var m := Meaning(operand, record, judge);
      if op.Not? && m.Some? then Some(!m.value) else None
    case Call(func, args) =>
      var p := Callee(func);
      if p.None? || |args| != Shape(p.value).0 then None
      else
        var position := Shape(p.value).1;
        var field := FieldMeaning(args[position], record);
        if field.None? then None else Some(judge.holds(p.value, field.value, OtherArgs(args, position)))
    case _ => None
  }

  // ---- proofs ----

  lemma {:induction false} ResolveAppend(v: Option<Value>, path: seq<string>, name: string)
    ensures Resolve(v, path + [name]) == Lookup(Resolve(v, path), name)
    decreases |path|
  {
    if path == [] {
      assert Resolve(v, [name]) == Resolve(Lookup(v, name), [name][1..]);
    } else {
      ResolveAppend(Lookup(v, path[0]), path[1..], name);
      assert (path + [name])[1..] == path[1..] + [name];
    }
  }

  /** Following the collected segments in order reaches the field the nesting denotes. */
  lemma {:induction false} SegmentsResolve(e: Expr, record: Value)
    ensures FieldSegments(e).Error? <==> FieldMeaning(e, record).None?
    ensures FieldSegments(e).Ok? ==>
              && FieldSegments(e).value != []
              && FieldMeaning(e, record) == Some(Resolve(Some(record), Unraw(FieldSegments(e).value)))
  {
    match e
    case Path(segments) =>
      if |segments| == 1 {
        assert Unraw(segments) == [] + [segments[0].name];
        ResolveAppend(Some(record), [], segments[0].name);
      }
    case Field(base, member) =>
      SegmentsResolve(base, record);
      if FieldSegments(base).Ok? && member.Named? {
        var prefix := FieldSegments(base).value;
        assert Unraw(prefix + [member.id]) == Unraw(prefix) + [member.id.name];
        ResolveAppend(Some(record), Unraw(prefix), member.id.name);
      }
    case _ =>
  }

  /** The emitted path argument denotes the same field. */
  lemma PathCodeResolves(e: Expr, record: Value)
    ensures FieldPathCode(e).Error? <==> FieldMeaning(e, record).None?
    ensures FieldPathCode(e).Ok? ==> FieldMeaning(e, record) == Some(Resolve(Some(record), PathOf(FieldPathCode(e).value)))
  {
    SegmentsResolve(e, record);
    if FieldSegments(e).Ok? {
      var ids := FieldSegments(e).value;
      assert PathOf(SegmentsToPath(ids)) == Unraw(ids);
    }
  }

  lemma {:induction false} VerbatimOfExprs(args: seq<Expr>, position: nat, path: PathCode)
    ensures VerbatimArgs(LowerArgs(args, position, path)) == OtherArgs(args, position)
  {
    if args != [] {
      var code, tail := LowerArgs(args, position, path), args[1..];
      if position == 0 {
        assert code[1..] == LowerArgs(tail, |tail|, path);
        AllVerbatim(tail, path);
        assert OtherArgs(args, 0) == tail;
      } else {
        assert code[1..] == LowerArgs(tail, position - 1, path);
        VerbatimOfExprs(tail, position - 1, path);
        assert OtherArgs(args, position) == [args[0]] + OtherArgs(tail, position - 1);
      }
    }
  }

  lemma {:induction false} AllVerbatim(args: seq<Expr>, path: PathCode)
    ensures VerbatimArgs(LowerArgs(args, |args|, path)) == args
  {
    if args != [] {
      AllVerbatim(args[1..], path);
      assert LowerArgs(args, |args|, path)[1..] == LowerArgs(args[1..], |args[1..]|, path);
    }
  }

  lemma ComparisonPreserved(op: BinOp, left: Expr, right: Expr, record: Value, judge: Judge)
    requires !op.And? && !op.Or?
    ensures Preserved(Binary(op, left, right), record, judge)
  {
    PathCodeResolves(left, record);
  }

  lemma CallPreserved(func: Expr, args: seq<Expr>, record: Value, judge: Judge)
    ensures Preserved(Call(func, args), record, judge)
  {
    hide Callee, Shape;
    var p := Callee(func);
    if p.Some? && |args| == Shape(p.value).0 {
      var position := Shape(p.value).1;
      PathCodeResolves(args[position], record);
      if FieldPathCode(args[position]).Ok? {
        VerbatimOfExprs(args, position, FieldPathCode(args[position]).value);
      }
    }
  }

  /** Accepted exactly when meaningful, and then the built filter agrees with the meaning. */
  ghost predicate Preserved(e: Expr, record: Value, judge: Judge) {
    && (Lower(e).Error? <==> Meaning(e, record, judge).None?)
    && (Lower(e).Ok? ==>
          && Build(Lower(e).value).Some?
          && Meaning(e, record, judge) == Some(EvalFilter(Build(Lower(e).value).value, record, judge)))
  }

  lemma EvalPair(f: Filter, g: Filter, record: Value, judge: Judge)
    ensures EvalFilter(FAnd([f, g]), record, judge) == (EvalFilter(f, record, judge) && EvalFilter(g, record, judge))
    ensures EvalFilter(FOr([f, g]), record, judge) == (EvalFilter(f, record, judge) || EvalFilter(g, record, judge))
  {
    assert [f, g][1..] == [g];
    assert [g][1..] == [];
    assert EvalAll([g], record, judge) == EvalFilter(g, record, judge);
    assert EvalAny([g], record, judge) == EvalFilter(g, record, judge);
    assert EvalAll([f, g], record, judge) == (EvalFilter(f, record, judge) && EvalAll([g], record, judge));
    assert EvalAny([f, g], record, judge) == (EvalFilter(f, record, judge) || EvalAny([g], record, judge));
  }

  lemma BuildPair(a: Code, b: Code)
    requires Build(a).Some? && Build(b).Some?
    ensures BuildAll([a, b]) == Some([Build(a).value, Build(b).value])
  {
    assert [a, b][1..] == [b];
    assert [b][1..] == [];
    assert [Build(b).value] + [] == [Build(b).value];
    assert BuildAll([b]) == Some([Build(b).value]);
    assert [Build(a).value] + [Build(b).value] == [Build(a).value, Build(b).value];
  }

  /**
    For every expression and record: the macro accepts the expression exactly when
    it is a filter expression, the emitted calls build a filter, and that filter
    evaluates to what the expression means.
   */
  lemma {:induction false} LoweringPreservesMeaning(e: Expr, record: Value, judge: Judge)
    ensures Preserved(e, record, judge)
  {
    match e
    case Paren(inner) => LoweringPreservesMeaning(inner, record, judge);
    case Group(inner) => LoweringPreservesMeaning(inner, record, judge);
    case Binary(op, left, right) =>
      if op.And? || op.Or? {
        LoweringPreservesMeaning(left, record, judge);
        LoweringPreservesMeaning(right, record, judge);
        if Lower(left).Ok? && Lower(right).Ok? {
          var a, b := Lower(left).value, Lower(right).value;
          BuildPair(a, b);
          EvalPair(Build(a).value, Build(b).value, record, judge);
        }
      } else {
        ComparisonPreserved(op, left, right, record, judge);
      }
    case Unary(op, operand) => LoweringPreservesMeaning(operand, record, judge);
    case Call(func, args) => CallPreserved(func, args, record, judge);
    case _ =>
  }

  /** `collect_field_segments` as written: segments are pushed onto `out` behind the recursive call. */
  method CollectFieldSegments(e: Expr, out: seq<Ident>) returns (ok: bool, out': seq<Ident>)
    ensures ok <==> FieldSegments(e).Ok?
    ensures ok ==> out' == out + FieldSegments(e).value
    decreases e
  {
    match e
    case Path(segments) =>
      if |segments| == 1 {
        return true, out + [segments[0]];
      }
      return false, out;
    case Field(base, member) =>
      ok, out' := CollectFieldSegments(base, out);
      if ok {
        match member
        case Named(id) => out' := out' + [id];
        case Unnamed(_) => ok := false;
      }
    case _ =>
      return false, out;
  }
}
