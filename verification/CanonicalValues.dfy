/**
  Typed field values of the admin operations: how each type is encoded, its normal form,
  and the decoder that recovers the normal form from the front of any byte string.
 */
module CanonicalValues {
  import opened Common
  import opened CanonicalFields

  datatype Kind = Database | Store | Table | Function | FunctionFolder | FunctionNamespace

  datatype Mode = ReadOnly | ReadWrite

  datatype Channels = Rest | Ws | Both

  /** Text is a sequence of code points. `Digest` stands only in normal forms. */
  datatype Val =
    | Absent
    | Null
    | Num(n: int)
    | Text(s: seq<nat>)
    | Texts(items: seq<seq<nat>>)
    | Res(kind: Kind, values: seq<seq<nat>>)
    | GroupName(s: seq<nat>)
    | GroupId(n: int)
    | OlderThan(n: int)
    | AgeSecs(n: int)
    | ApiMode(mode: Mode)
    | ApiChannels(channels: Channels)
    | Digest(bytes: seq<Byte>)

  /** `lenient` fields may be missing from the dictionary. */
  datatype Ty =
    | U16 | U64 | Flag
    | Str | Strs
    | Optional(inner: Ty, lenient: bool)
    | Resource | Group | Scope
    | Hashed | Security
    | TokenMode | TokenChannels

  /** A 32-byte digest of a byte string, about which nothing else is known. */
  type Hash = h: seq<Byte> -> seq<Byte> | forall b :: |h(b)| == 32
    ghost witness b => seq(32, _ => 0)

  const INVOKER: seq<nat> := [105, 110, 118, 111, 107, 101, 114]

  // ---- encoding; None is a raised error ----

  predicate Encodable(s: seq<nat>) {
    forall i :: 0 <= i < |s| ==> Scalar(s[i])
  }

  function Prefix(head: seq<Byte>, tail: Option<seq<Byte>>): Option<seq<Byte>> {
    if tail.None? then None else Some(head + tail.value)
  }

  function Join(a: Option<seq<Byte>>, b: Option<seq<Byte>>): Option<seq<Byte>> {
    if a.None? then None else Prefix(a.value, b)
  }

  function EncodeText(s: seq<nat>): Option<seq<Byte>> {
    if !Encodable(s) then None
    else Join(Pack(|Utf8All(s)|, 4), Some(Utf8All(s)))
  }

  function EncodeEach(items: seq<seq<nat>>): Option<seq<Byte>> {
    if items == [] then Some([]) else Join(EncodeText(items[0]), EncodeEach(items[1..]))
  }

  function EncodeTexts(items: seq<seq<nat>>): Option<seq<Byte>> {
    Join(Pack(|items|, 4), EncodeEach(items))
  }

  function KindTag(kind: Kind): Byte {
    match kind
    case Database => 0
    case Store => 1
    case Table => 2
    case Function => 3
    case FunctionFolder => 4
    case FunctionNamespace => 5
  }

  function EncodeResource(kind: Kind, values: seq<seq<nat>>): Option<seq<Byte>> {
    Prefix([KindTag(kind)],
           if kind.FunctionFolder? then EncodeTexts(values)
           else if kind.FunctionNamespace? then Some([])
           else EncodeEach(values))
  }

  function ModeTag(mode: Mode): Byte {
    if mode.ReadOnly? then 0 else 1
  }

  function ChannelsTag(channels: Channels): Byte {
    match channels
    case Rest => 0
    case Ws => 1
    case Both => 2
  }

  function Encode(h: Hash, ty: Ty, v: Val): Option<seq<Byte>>
    decreases ty
  {
    match ty
    case U16 => if v.Num? then Pack(v.n, 2) else None
    case U64 => if v.Num? then Pack(v.n, 8) else None
    case Flag => if v.Num? then Pack(v.n, 1) else None
    case Str => if v.Text? then EncodeText(v.s) else None
    case Strs => if v.Texts? then EncodeTexts(v.items) else None
    case Optional(inner, lenient) =>
      if v.Null? || (v.Absent? && lenient) then Some([0]) else Prefix([1], Encode(h, inner, v))
    case Resource => if v.Res? then EncodeResource(v.kind, v.values) else None
    case Group =>
      if v.GroupName? then Prefix([0], EncodeText(v.s))
      else if v.GroupId? then Prefix([1], Pack(v.n, 8)) else None
    case Scope =>
      if v.OlderThan? then Prefix([0], Pack(v.n, 8))
      else if v.AgeSecs? then Prefix([1], Pack(v.n, 8)) else None
    case Hashed => if v.Text? && Encodable(v.s) then Some(h(Utf8All(v.s))) else None
    case Security => if v.Absent? then EncodeText(INVOKER) else if v.Text? then EncodeText(v.s) else None
    case TokenMode => if v.ApiMode? then Some([ModeTag(v.mode)]) else None
    case TokenChannels => if v.ApiChannels? then Some([ChannelsTag(v.channels)]) else None
  }

  /** What the bytes determine: the default filled in, ignored parts dropped, text behind a digest replaced by it. */
  function Normal(h: Hash, ty: Ty, v: Val): Val
    decreases ty
  {
    match ty
    case Optional(inner, lenient) => if v.Null? || (v.Absent? && lenient) then Null else Normal(h, inner, v)
    case Resource => if v.Res? && v.kind.FunctionNamespace? then Res(v.kind, []) else v
    case Hashed => if v.Text? && Encodable(v.s) then Digest(h(Utf8All(v.s))) else v
    case Security => if v.Absent? then Text(INVOKER) else v
    case _ => v
  }

  /** The number of name components each kind of resource has. */
  function Arity(kind: Kind): Option<nat> {
    match kind
    case Database => Some(1)
    case Store => Some(2)
    case Table => Some(3)
    case Function => Some(1)
    case _ => None
  }

  predicate FixedArity(v: Val) {
    v.Res? && Arity(v.kind).Some? ==> |v.values| == Arity(v.kind).value
  }

  // ---- decoding ----

  function ReadText(bytes: seq<Byte>): (r: Read<seq<nat>>)
    ensures r.Got? ==> |r.rest| <= |bytes|
  {
    var size := ReadNumber(4, bytes);
    if size.Bad? || |size.rest| < size.value then Bad
    else
      var s := ReadScalars(size.rest[..size.value]);
      if s.None? then Bad else Got(s.value, size.rest[size.value..])
  }

  function ReadEach(count: nat, bytes: seq<Byte>): Read<seq<seq<nat>>> {
    if count == 0 then Got([], bytes)
    else
      var first := ReadText(bytes);
      if first.Bad? then Bad
      else
        var more := ReadEach(count - 1, first.rest);
        if more.Bad? then Bad else Got([first.value] + more.value, more.rest)
  }

  function ReadTexts(bytes: seq<Byte>): Read<seq<seq<nat>>> {
    var count := ReadNumber(4, bytes);
    if count.Bad? then Bad else ReadEach(count.value, count.rest)
  }

  function KindOf(tag: Byte): Option<Kind> {
    match tag
    case 0 => Some(Database)
    case 1 => Some(Store)
    case 2 => Some(Table)
    case 3 => Some(Function)
    case 4 => Some(FunctionFolder)
    case 5 => Some(FunctionNamespace)
    case _ => None
  }

  function ReadResource(bytes: seq<Byte>): Read<Val> {
    if bytes == [] || KindOf(bytes[0]).None? then Bad
    else
      var kind := KindOf(bytes[0]).value;
      if kind.FunctionNamespace? then Got(Res(kind, []), bytes[1..])
      else
        var values := if kind.FunctionFolder? then ReadTexts(bytes[1..])
                      else ReadEach(if Arity(kind).Some? then Arity(kind).value else 0, bytes[1..]);
        if values.Bad? then Bad else Got(Res(kind, values.value), values.rest)
  }

  function Mapped<T>(r: Read<T>, f: T -> Val): Read<Val> {
    if r.Bad? then Bad else Got(f(r.value), r.rest)
  }

  /** The decoder: it sees only the type and the bytes. */
  function Decode(ty: Ty, bytes: seq<Byte>): Read<Val>
    decreases ty
  {
    match ty
    case U16 => Mapped(ReadNumber(2, bytes), (n: nat) => Num(n))
    case U64 => Mapped(ReadNumber(8, bytes), (n: nat) => Num(n))
    case Flag => Mapped(ReadNumber(1, bytes), (n: nat) => Num(n))
    case Str => Mapped(ReadText(bytes), (s: seq<nat>) => Text(s))
    case Strs => Mapped(ReadTexts(bytes), (items: seq<seq<nat>>) => Texts(items))
    case Optional(inner, _) =>
      if bytes == [] then Bad
      else if bytes[0] == 0 then Got(Null, bytes[1..])
      else if bytes[0] == 1 then Decode(inner, bytes[1..])
      else Bad
    case Resource => ReadResource(bytes)
    case Group =>
      if bytes == [] then Bad
      else if bytes[0] == 0 then Mapped(ReadText(bytes[1..]), (s: seq<nat>) => GroupName(s))
      else if bytes[0] == 1 then Mapped(ReadNumber(8, bytes[1..]), (n: nat) => GroupId(n))
      else Bad
    case Scope =>
      if bytes == [] then Bad
      else if bytes[0] == 0 then Mapped(ReadNumber(8, bytes[1..]), (n: nat) => OlderThan(n))
      else if bytes[0] == 1 then Mapped(ReadNumber(8, bytes[1..]), (n: nat) => AgeSecs(n))
      else Bad
    case Hashed => if |bytes| < 32 then Bad else Got(Digest(bytes[..32]), bytes[32..])
    case Security => Mapped(ReadText(bytes), (s: seq<nat>) => Text(s))
    case TokenMode =>
      if bytes == [] || bytes[0] > 1 then Bad
      else Got(ApiMode(if bytes[0] == 0 then ReadOnly else ReadWrite), bytes[1..])
    case TokenChannels =>
      if bytes == [] || bytes[0] > 2 then Bad
      else Got(ApiChannels(if bytes[0] == 0 then Rest else if bytes[0] == 1 then Ws else Both), bytes[1..])
  }

  // ---- every encoder is prefix-decodable ----

  lemma TextReadBack(s: seq<nat>, rest: seq<Byte>)
    requires EncodeText(s).Some?
    ensures ReadText(EncodeText(s).value + rest) == Got(s, rest)
  {
    hide Pack, ReadNumber, ReadScalars, Utf8All;
    var body := Utf8All(s);
    var size := Pack(|body|, 4).value;
    Associate(size, body, rest);
    NumberReadBack(|body|, 4, body + rest);
    SplitAt(body, rest);
    ScalarsReadBack(s);
  }

  lemma {:induction false} EachReadBack(items: seq<seq<nat>>, rest: seq<Byte>)
    requires EncodeEach(items).Some?
    ensures ReadEach(|items|, EncodeEach(items).value + rest) == Got(items, rest)
  {
    hide EncodeText, ReadText;
    if items == [] {
      assert [] + rest == rest;
    } else {
      var head := EncodeText(items[0]).value;
      var tail := EncodeEach(items[1..]).value;
      Associate(head, tail, rest);
      TextReadBack(items[0], tail + rest);
      EachReadBack(items[1..], rest);
      assert [items[0]] + items[1..] == items;
    }
  }

  lemma TextsReadBack(items: seq<seq<nat>>, rest: seq<Byte>)
    requires EncodeTexts(items).Some?
    ensures ReadTexts(EncodeTexts(items).value + rest) == Got(items, rest)
  {
    hide Pack, ReadNumber, EncodeEach, ReadEach;
    var count := Pack(|items|, 4).value;
    var body := EncodeEach(items).value;
    Associate(count, body, rest);
    NumberReadBack(|items|, 4, body + rest);
    EachReadBack(items, rest);
  }

  lemma TagFirst(tag: Byte, body: seq<Byte>, rest: seq<Byte>)
    ensures var all := ([tag] + body) + rest; all != [] && all[0] == tag && all[1..] == body + rest
  {
  }

  lemma ResourceReadBack(kind: Kind, values: seq<seq<nat>>, rest: seq<Byte>)
    requires EncodeResource(kind, values).Some?
    requires Arity(kind).Some? ==> |values| == Arity(kind).value
    ensures ReadResource(EncodeResource(kind, values).value + rest)
         == Got(Res(kind, if kind.FunctionNamespace? then [] else values), rest)
  {
    hide EncodeEach, EncodeTexts, ReadEach, ReadTexts;
    var body := if kind.FunctionFolder? then EncodeTexts(values).value
                else if kind.FunctionNamespace? then [] else EncodeEach(values).value;
    TagFirst(KindTag(kind), body, rest);
    if kind.FunctionFolder? {
      TextsReadBack(values, rest);
    } else if kind.FunctionNamespace? {
      assert [] + rest == rest;
    } else {
      EachReadBack(values, rest);
    }
  }

  lemma GroupReadBack(h: Hash, v: Val, rest: seq<Byte>)
    ensures Encode(h, Group, v).Some? ==> Decode(Group, Encode(h, Group, v).value + rest) == Got(v, rest)
  {
    hide Pack, ReadNumber, EncodeText, ReadText;
    if Encode(h, Group, v).None? {
      return;
    }
    if v.GroupName? {
      TagFirst(0, EncodeText(v.s).value, rest);
      TextReadBack(v.s, rest);
    } else {
      TagFirst(1, Pack(v.n, 8).value, rest);
      NumberReadBack(v.n, 8, rest);
    }
  }

  lemma ScopeReadBack(h: Hash, v: Val, rest: seq<Byte>)
    ensures Encode(h, Scope, v).Some? ==> Decode(Scope, Encode(h, Scope, v).value + rest) == Got(v, rest)
  {
    hide Pack, ReadNumber;
    if Encode(h, Scope, v).None? {
      return;
    }
    TagFirst(if v.OlderThan? then 0 else 1, Pack(v.n, 8).value, rest);
    NumberReadBack(v.n, 8, rest);
  }

  /** Whatever follows, the decoder recovers the normal form and stops exactly behind the field. */
  lemma {:induction false} PrefixDecodable(h: Hash, ty: Ty, v: Val, rest: seq<Byte>)
    ensures Encode(h, ty, v).Some? && FixedArity(v) ==>
              Decode(ty, Encode(h, ty, v).value + rest) == Got(Normal(h, ty, v), rest)
    decreases ty
  {
    hide Pack, ReadNumber, EncodeText, ReadText, EncodeTexts, ReadTexts, EncodeResource, ReadResource;
    if Encode(h, ty, v).None? || !FixedArity(v) {
      return;
    }
    match ty
    case U16 => NumberReadBack(v.n, 2, rest);
    case U64 => NumberReadBack(v.n, 8, rest);
    case Flag => NumberReadBack(v.n, 1, rest);
    case Str => TextReadBack(v.s, rest);
    case Strs => TextsReadBack(v.items, rest);
    case Optional(inner, lenient) =>
      if v.Null? || (v.Absent? && lenient) {
        TagFirst(0, [], rest);
      } else {
        TagFirst(1, Encode(h, inner, v).value, rest);
        PrefixDecodable(h, inner, v, rest);
      }
    case Resource => ResourceReadBack(v.kind, v.values, rest);
    case Group => GroupReadBack(h, v, rest);
    case Scope => ScopeReadBack(h, v, rest);
    case Hashed => SplitAt(h(Utf8All(v.s)), rest);
    case Security => TextReadBack(if v.Absent? then INVOKER else v.s, rest);
    case TokenMode => TagFirst(ModeTag(v.mode), [], rest);
    case TokenChannels => TagFirst(ChannelsTag(v.channels), [], rest);
  }
}
