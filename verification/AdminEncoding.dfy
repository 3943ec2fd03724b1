/**
  Canonical bytes of the admin operations: a fixed prefix, a two-byte operation tag and
  the fields of the operation's schema. The main result: equal bytes mean the same
  operation with the same fields, up to normal form.
 */
module AdminEncoding {
  import opened Common
  import opened CanonicalFields
  import opened CanonicalValues

  datatype Op =
    | DropDb | DropRepo | DropTable | DropIndex | DropUser
    | StartMigration | CommitMigration | RollbackMigration | GrantRole | RevokeRole
    | Chmod | Chown | Chgrp | CreateUser | SetRetention | PurgeHistory
    | CreateGroup | DropGroup | RenameGroup | AddGroupMember | RemoveGroupMember
    | CreateFunction | SetSuperuser | SetReplicator | CreateScramUser
    | DropFunction | DropValidator | CreateValidator
    | DropReplicationProfile | DropPublication | DropSubscription
    | CreateApiToken | ListApiTokens | RevokeApiToken | RevokeUserTokens

  function Tag(op: Op): nat {
    match op
    case DropDb => 0x01 case DropRepo => 0x02 case DropTable => 0x03 case DropIndex => 0x04 case DropUser => 0x05
    case StartMigration => 0x06 case CommitMigration => 0x07 case RollbackMigration => 0x08
    case GrantRole => 0x09 case RevokeRole => 0x0A
    case Chmod => 0x0B case Chown => 0x0C case Chgrp => 0x0D
    case CreateUser => 0x0E case SetRetention => 0x0F case PurgeHistory => 0x10
    case CreateGroup => 0x11 case DropGroup => 0x12 case RenameGroup => 0x13
    case AddGroupMember => 0x14 case RemoveGroupMember => 0x15
    case CreateFunction => 0x16 case SetSuperuser => 0x17 case SetReplicator => 0x18 case CreateScramUser => 0x19
    case DropFunction => 0x1A case DropValidator => 0x1B case CreateValidator => 0x1C
    case DropReplicationProfile => 0x1D case DropPublication => 0x1E case DropSubscription => 0x1F
    case CreateApiToken => 0x20 case ListApiTokens => 0x21 case RevokeApiToken => 0x22 case RevokeUserTokens => 0x23
  }

  /** The operation of a tag. */
  function OpOf(tag: nat): Option<Op> {
    match tag
    case 0x01 => Some(DropDb) case 0x02 => Some(DropRepo) case 0x03 => Some(DropTable)
    case 0x04 => Some(DropIndex) case 0x05 => Some(DropUser) case 0x06 => Some(StartMigration)
    case 0x07 => Some(CommitMigration) case 0x08 => Some(RollbackMigration) case 0x09 => Some(GrantRole)
    case 0x0A => Some(RevokeRole) case 0x0B => Some(Chmod) case 0x0C => Some(Chown)
    case 0x0D => Some(Chgrp) case 0x0E => Some(CreateUser) case 0x0F => Some(SetRetention)
    case 0x10 => Some(PurgeHistory) case 0x11 => Some(CreateGroup) case 0x12 => Some(DropGroup)
    case 0x13 => Some(RenameGroup) case 0x14 => Some(AddGroupMember) case 0x15 => Some(RemoveGroupMember)
    case 0x16 => Some(CreateFunction) case 0x17 => Some(SetSuperuser) case 0x18 => Some(SetReplicator)
    case 0x19 => Some(CreateScramUser) case 0x1A => Some(DropFunction) case 0x1B => Some(DropValidator)
    case 0x1C => Some(CreateValidator) case 0x1D => Some(DropReplicationProfile) case 0x1E => Some(DropPublication)
    case 0x1F => Some(DropSubscription) case 0x20 => Some(CreateApiToken) case 0x21 => Some(ListApiTokens)
    case 0x22 => Some(RevokeApiToken) case 0x23 => Some(RevokeUserTokens)
    case _ => None
  }

  datatype Field = Field(key: string, ty: Ty)

  function S(key: string): Field { Field(key, Str) }
  function B(key: string): Field { Field(key, Flag) }
  /** The key must be there, its value may be null. */
  function O(key: string, ty: Ty): Field { Field(key, Optional(ty, false)) }
  /** The key itself may be missing. */
  function G(key: string, ty: Ty): Field { Field(key, Optional(ty, true)) }

  function Schema(op: Op): seq<Field> {
    match op
    case DropDb => [S("name"), B("cascade"), B("if_exists")]
    case DropRepo => [S("db"), S("name"), B("cascade"), B("if_exists")]
    case DropTable => [S("db"), S("repo"), S("name"), B("cascade"), B("if_exists")]
    case DropIndex => [S("db"), S("repo"), S("table"), S("name"), B("if_exists")]
    case DropUser => [S("name"), B("if_exists")]
    case StartMigration => [S("db"), S("repo"), S("name"), S("dst_repo"), S("dst_engine"), O("dst_path", Str)]
    case CommitMigration => [S("db"), S("name")]
    case RollbackMigration => [S("db"), S("name")]
    case GrantRole => [S("role"), S("user")]
    case RevokeRole => [S("role"), S("user")]
    case Chmod => [Field("resource", Resource), Field("mode", U16)]
    case Chown => [Field("resource", Resource), Field("owner", U64)]
    case Chgrp => [Field("resource", Resource), O("group_id", U64)]
    case CreateUser => [S("name"), Field("roles", Strs), O("database", Str)]
    case SetRetention => [S("db"), S("repo"), S("name"), O("max_age_secs", U64), O("max_count", U64), O("min_count", U64)]
    case PurgeHistory => [S("db"), S("repo"), S("name"), Field("scope", Scope)]
    case CreateGroup => [S("name")]
    case DropGroup => [Field("group", Group), B("if_exists")]
    case RenameGroup => [Field("group", Group), S("to")]
    case AddGroupMember => [Field("group", Group), Field("user", U64)]
    case RemoveGroupMember => [Field("group", Group), Field("user", U64)]
    case CreateFunction =>
      [S("name"), B("replace"), Field("security", Security), O("visibility", Str),
       Field("secret_grants", Strs), Field("net_grants", Strs), O("source", Hashed), O("wasm", Hashed)]
    case SetSuperuser => [S("user"), B("on")]
    case SetReplicator => [S("user"), B("on")]
    case CreateScramUser => [S("name"), Field("roles", Strs)]
    case DropFunction => [S("name"), B("if_exists")]
    case DropValidator => [S("name"), B("if_exists")]
    case CreateValidator => [S("name"), B("replace"), O("source", Hashed), O("wasm", Hashed)]
    case DropReplicationProfile => [S("name")]
    case DropPublication => [S("name")]
    case DropSubscription => [S("name")]
    case CreateApiToken =>
      [S("label"), G("ttl_secs", U64), G("mode", TokenMode), G("channels", TokenChannels), G("databases", Strs), G("for_user", Str)]
    case ListApiTokens => [G("for_user", Str)]
    case RevokeApiToken => [S("id")]
    case RevokeUserTokens => [G("user", Str)]
  }

  /** "shamir-db hmac canonical v2" and a zero byte. */
  const PREFIX: seq<Byte> :=
    [115, 104, 97, 109, 105, 114, 45, 100, 98, 32, 104, 109, 97, 99, 32,
     99, 97, 110, 111, 110, 105, 99, 97, 108, 32, 118, 50, 0]

  type Fields = map<string, Val>

  function Lookup(f: Fields, key: string): Val {
    if key in f then f[key] else Absent
  }

  function EncodeFields(h: Hash, schema: seq<Field>, f: Fields): Option<seq<Byte>> {
    if schema == [] then Some([])
    else Join(Encode(h, schema[0].ty, Lookup(f, schema[0].key)), EncodeFields(h, schema[1..], f))
  }

  function Canonical(h: Hash, op: Op, f: Fields): Option<seq<Byte>> {
    Join(Join(Some(PREFIX), Pack(Tag(op), 2)), EncodeFields(h, Schema(op), f))
  }

  /** The two dictionaries agree, up to normal form, on every field of the schema. */
  ghost predicate SameFields(h: Hash, schema: seq<Field>, a: Fields, b: Fields) {
    forall i :: 0 <= i < |schema| ==>
      Normal(h, schema[i].ty, Lookup(a, schema[i].key)) == Normal(h, schema[i].ty, Lookup(b, schema[i].key))
  }

  // ---- operations ----

  lemma TagReadBack(op: Op)
    ensures OpOf(Tag(op)) == Some(op) && Tag(op) < 0x100
  {
  }

  lemma TagsDiffer(a: Op, b: Op)
    ensures Tag(a) == Tag(b) ==> a == b
  {
    hide Tag, OpOf;
    TagReadBack(a);
    TagReadBack(b);
  }

  lemma HeadDetermines(a: Op, restA: seq<Byte>, b: Op, restB: seq<Byte>)
    requires Pack(Tag(a), 2).Some? && Pack(Tag(b), 2).Some?
    requires (PREFIX + Pack(Tag(a), 2).value) + restA == (PREFIX + Pack(Tag(b), 2).value) + restB
    ensures a == b && restA == restB
  {
    hide Pack, Tag, ReadNumber;
    var p, q := Pack(Tag(a), 2).value, Pack(Tag(b), 2).value;
    Associate(PREFIX, p, restA);
    Associate(PREFIX, q, restB);
    SplitAt(PREFIX, p + restA);
    SplitAt(PREFIX, q + restB);
    NumberReadBack(Tag(a), 2, restA);
    NumberReadBack(Tag(b), 2, restB);
    TagsDiffer(a, b);
  }

  /** Different operations never share canonical bytes. */
  lemma OperationsSeparate(h: Hash, a: Op, fa: Fields, b: Op, fb: Fields)
    ensures Canonical(h, a, fa).Some? && a != b ==> Canonical(h, a, fa) != Canonical(h, b, fb)
  {
    hide Pack, Tag, EncodeFields, Schema;
    if Canonical(h, a, fa).Some? && Canonical(h, a, fa) == Canonical(h, b, fb) {
      HeadDetermines(a, EncodeFields(h, Schema(a), fa).value, b, EncodeFields(h, Schema(b), fb).value);
    }
  }

  // ---- fields ----

  /** A resource, or an optional one. */
  predicate HoldsResource(ty: Ty) {
    ty.Resource? || (ty.Optional? && HoldsResource(ty.inner))
  }

  /** The resources among the fields of the schema have the component count of their kind. */
  predicate AritiesFixed(schema: seq<Field>, f: Fields) {
    forall i :: 0 <= i < |schema| && HoldsResource(schema[i].ty) ==> FixedArity(Lookup(f, schema[i].key))
  }

  /** Nothing but a resource field accepts a resource. */
  lemma {:induction false} OnlyResourcesTakeResources(h: Hash, ty: Ty, v: Val)
    ensures Encode(h, ty, v).Some? && !HoldsResource(ty) ==> FixedArity(v)
    decreases ty
  {
    hide Pack, EncodeText, EncodeTexts, EncodeResource;
    if ty.Optional? {
      OnlyResourcesTakeResources(h, ty.inner, v);
    }
  }

  /** Two dictionaries that encode, and whose bytes with something behind them are the same. */
  ghost predicate SameBytes(h: Hash, schema: seq<Field>, a: Fields, restA: seq<Byte>, b: Fields, restB: seq<Byte>) {
    && EncodeFields(h, schema, a).Some? && EncodeFields(h, schema, b).Some?
    && EncodeFields(h, schema, a).value + restA == EncodeFields(h, schema, b).value + restB
  }

  /** With fixed component counts the bytes determine every field of a schema, whatever follows. */
  lemma {:induction false} FieldsDecodable(h: Hash, schema: seq<Field>, a: Fields, restA: seq<Byte>, b: Fields, restB: seq<Byte>)
    requires AritiesFixed(schema, a) && AritiesFixed(schema, b)
    ensures SameBytes(h, schema, a, restA, b, restB) ==> SameFields(h, schema, a, b) && restA == restB
    decreases |schema|
  {
    hide Encode, Normal, Decode, FixedArity, Lookup, HoldsResource;
    if !SameBytes(h, schema, a, restA, b, restB) {
      return;
    }
    if schema == [] {
      assert [] + restA == restA && [] + restB == restB;
    } else {
      var ty, key := schema[0].ty, schema[0].key;
      var va, vb := Lookup(a, key), Lookup(b, key);
      var ea, eb := Encode(h, ty, va).value, Encode(h, ty, vb).value;
      var ta, tb := EncodeFields(h, schema[1..], a).value, EncodeFields(h, schema[1..], b).value;
      Associate(ea, ta, restA);
      Associate(eb, tb, restB);
      OnlyResourcesTakeResources(h, ty, va);
      OnlyResourcesTakeResources(h, ty, vb);
      PrefixDecodable(h, ty, va, ta + restA);
      PrefixDecodable(h, ty, vb, tb + restB);
      assert forall i :: 1 <= i < |schema| ==> schema[i] == schema[1..][i - 1];
      FieldsDecodable(h, schema[1..], a, restA, b, restB);
    }
  }

  // ---- resources with any number of components ----

  /** Of two component lists with the same bytes in front, the shorter starts the longer. */
  lemma {:induction false} EachPrefix(xs: seq<seq<nat>>, restX: seq<Byte>, ys: seq<seq<nat>>, restY: seq<Byte>)
    requires EncodeEach(xs).Some? && EncodeEach(ys).Some? && |xs| <= |ys|
    requires EncodeEach(xs).value + restX == EncodeEach(ys).value + restY
    ensures var more := EncodeEach(ys[|xs|..]); ys[..|xs|] == xs && more.Some? && restX == more.value + restY
    decreases |xs|
  {
    hide EncodeText;
    if xs == [] {
      assert [] + restX == restX && ys[0..] == ys;
    } else {
      var ex, ey := EncodeText(xs[0]).value, EncodeText(ys[0]).value;
      var tx, ty := EncodeEach(xs[1..]).value, EncodeEach(ys[1..]).value;
      Associate(ex, tx, restX);
      Associate(ey, ty, restY);
      TextReadBack(xs[0], tx + restX);
      TextReadBack(ys[0], ty + restY);
      EachPrefix(xs[1..], restX, ys[1..], restY);
      assert ys[1..][|xs| - 1..] == ys[|xs|..];
      assert ys[..|xs|] == [ys[0]] + ys[1..][..|xs| - 1] && xs == [xs[0]] + xs[1..];
    }
  }

  lemma TopByte(n: nat)
    requires n < 0x1_0000_0000
    ensures BigEndian(n, 4)[0] == n / 0x100_0000
  {
    var a, b, c := n / 256, n / 256 / 256, n / 256 / 256 / 256;
    assert BigEndian(c, 1) == BigEndian(c / 256, 0) + [c % 256];
    assert BigEndian(b, 2) == BigEndian(c, 1) + [b % 256];
    assert BigEndian(a, 3) == BigEndian(b, 2) + [a % 256];
  }

  /** At least one component takes four bytes, and one that starts with byte 1 takes very many. */
  lemma EachIsLong(xs: seq<seq<nat>>)
    requires EncodeEach(xs).Some? && xs != []
    ensures |EncodeEach(xs).value| >= 4 && (|EncodeEach(xs).value| <= 8 ==> EncodeEach(xs).value[0] == 0)
  {
    hide Utf8All, Limit, BigEndian;
    Widths();
    var n := |Utf8All(xs[0])|;
    if n < 0x100_0000 {
      TopByte(n);
    }
  }

  /** The bytes behind the resource in `chmod`, `chown` and `chgrp`. */
  predicate IsTail(ty: Ty, bytes: seq<Byte>) {
    match ty
    case U16 => |bytes| == 2
    case U64 => |bytes| == 8
    case _ => bytes == [0] || (|bytes| == 9 && bytes[0] == 1)
  }

  predicate TailType(ty: Ty) {
    ty == U16 || ty == U64 || ty == Optional(U64, false)
  }

  lemma TailBytes(h: Hash, ty: Ty, v: Val)
    requires TailType(ty)
    ensures Encode(h, ty, v).Some? ==> IsTail(ty, Encode(h, ty, v).value)
  {
    hide Limit;
    if ty.Optional? && !v.Null? && Encode(h, ty, v).Some? {
      TagFirst(1, Encode(h, U64, v).value, []);
    }
  }

  /** No further component hides in front of a tail. */
  lemma NothingHidden(ty: Ty, xs: seq<seq<nat>>, tail: seq<Byte>, longer: seq<Byte>)
    requires TailType(ty) && IsTail(ty, tail) && IsTail(ty, longer)
    requires EncodeEach(xs).Some? && longer == EncodeEach(xs).value + tail
    ensures xs == []
  {
    hide EncodeEach;
    if xs != [] {
      EachIsLong(xs);
    }
  }

  lemma EachThenTail(ty: Ty, xs: seq<seq<nat>>, tailX: seq<Byte>, ys: seq<seq<nat>>, tailY: seq<Byte>)
    requires TailType(ty) && IsTail(ty, tailX) && IsTail(ty, tailY)
    requires EncodeEach(xs).Some? && EncodeEach(ys).Some? && EncodeEach(xs).value + tailX == EncodeEach(ys).value + tailY
    ensures xs == ys && tailX == tailY
  {
    hide EncodeEach, IsTail, TailType;
    if |xs| <= |ys| {
      EachPrefix(xs, tailX, ys, tailY);
      NothingHidden(ty, ys[|xs|..], tailY, tailX);
    } else {
      EachPrefix(ys, tailY, xs, tailX);
      NothingHidden(ty, xs[|ys|..], tailX, tailY);
    }
    assert EncodeEach([]) == Some([]) by { NoComponents(); }
    assert |xs| == |ys|;
  }

  lemma NoComponents()
    ensures EncodeEach([]) == Some([])
  {
  }

  /** A resource with such a tail is determined whatever its component count. */
  lemma ResourceThenTail(ty: Ty, kindA: Kind, xs: seq<seq<nat>>, tailA: seq<Byte>, kindB: Kind, ys: seq<seq<nat>>, tailB: seq<Byte>)
    requires TailType(ty) && IsTail(ty, tailA) && IsTail(ty, tailB)
    requires EncodeResource(kindA, xs).Some? && EncodeResource(kindB, ys).Some?
    requires EncodeResource(kindA, xs).value + tailA == EncodeResource(kindB, ys).value + tailB
    ensures kindA == kindB && (kindA.FunctionNamespace? || xs == ys) && tailA == tailB
  {
    hide EncodeEach, EncodeTexts, IsTail, TailType;
    var a, b := EncodeResource(kindA, xs).value, EncodeResource(kindB, ys).value;
    TagFirst(KindTag(kindA), a[1..], tailA);
    TagFirst(KindTag(kindB), b[1..], tailB);
    assert a == [KindTag(kindA)] + a[1..] && b == [KindTag(kindB)] + b[1..];
    assert KindOf(KindTag(kindA)) == KindOf(KindTag(kindB));
    if kindA.FunctionFolder? {
      TextsReadBack(xs, tailA);
      TextsReadBack(ys, tailB);
    } else if !kindA.FunctionNamespace? {
      EachThenTail(ty, xs, tailA, ys, tailB);
    } else {
      assert a[1..] == [] && b[1..] == [];
    }
  }

  /** The schemas with a resource: it comes first and one of those tails follows. */
  predicate ResourceFirst(schema: seq<Field>) {
    |schema| == 2 && schema[0].ty.Resource? && TailType(schema[1].ty)
  }

  /** No resource at this place, and no optional value inside another. */
  predicate Simple(ty: Ty) {
    !ty.Resource? && (ty.Optional? ==> !ty.inner.Resource? && !ty.inner.Optional?)
  }

  lemma SimpleHoldsNone(ty: Ty)
    requires Simple(ty)
    ensures !HoldsResource(ty)
  {
  }

  /** A resource and its tail, or no resource at all. */
  predicate HasShape(schema: seq<Field>) {
    ResourceFirst(schema) || forall i :: 0 <= i < |schema| ==> Simple(schema[i].ty)
  }

  lemma FirstShapes(op: Op)
    requires Tag(op) <= 0x0D
    ensures HasShape(Schema(op))
  {
  }

  lemma SecondShapes(op: Op)
    requires 0x0E <= Tag(op) <= 0x15
    ensures HasShape(Schema(op))
  {
  }

  lemma ThirdShapes(op: Op)
    requires 0x16 <= Tag(op) <= 0x1C
    ensures HasShape(Schema(op))
  {
  }

  lemma LastShapes(op: Op)
    requires 0x1D <= Tag(op)
    ensures HasShape(Schema(op))
  {
  }

  lemma SchemaShapes(op: Op)
    ensures HasShape(Schema(op))
  {
    hide Tag, Schema, HasShape;
    if Tag(op) <= 0x0D {
      FirstShapes(op);
    } else if Tag(op) <= 0x15 {
      SecondShapes(op);
    } else if Tag(op) <= 0x1C {
      ThirdShapes(op);
    } else {
      LastShapes(op);
    }
  }

  lemma TwoFields(h: Hash, schema: seq<Field>, f: Fields)
    requires |schema| == 2
    ensures EncodeFields(h, schema, f)
         == Join(Encode(h, schema[0].ty, Lookup(f, schema[0].key)), Encode(h, schema[1].ty, Lookup(f, schema[1].key)))
  {
    hide Encode, Lookup;
    var last := Encode(h, schema[1].ty, Lookup(f, schema[1].key));
    assert EncodeFields(h, schema[1..], f) == Join(last, EncodeFields(h, schema[1..][1..], f));
    assert last.Some? ==> last.value + [] == last.value;
  }

  lemma ResourceFieldsDetermined(h: Hash, schema: seq<Field>, a: Fields, b: Fields)
    requires ResourceFirst(schema)
    ensures EncodeFields(h, schema, a).Some? && EncodeFields(h, schema, a) == EncodeFields(h, schema, b) ==> SameFields(h, schema, a, b)
  {
    if EncodeFields(h, schema, a).None? || EncodeFields(h, schema, a) != EncodeFields(h, schema, b) {
      return;
    }
    TwoFields(h, schema, a);
    TwoFields(h, schema, b);
    var ty := schema[1].ty;
    var va, vb := Lookup(a, schema[0].key), Lookup(b, schema[0].key);
    var wa, wb := Lookup(a, schema[1].key), Lookup(b, schema[1].key);
    TailBytes(h, ty, wa);
    TailBytes(h, ty, wb);
    TailArity(h, ty, wa);
    TailArity(h, ty, wb);
    hide EncodeFields, EncodeResource, IsTail, Pack, Lookup, Decode, FixedArity;
    assert va.Res? && vb.Res?;
    var ta, tb := Encode(h, ty, wa).value, Encode(h, ty, wb).value;
    ResourceThenTail(ty, va.kind, va.values, ta, vb.kind, vb.values, tb);
    PrefixDecodable(h, ty, wa, []);
    PrefixDecodable(h, ty, wb, []);
    hide Encode;
    SameTwo(h, schema, a, b);
  }

  lemma TailArity(h: Hash, ty: Ty, v: Val)
    requires TailType(ty)
    ensures Encode(h, ty, v).Some? ==> FixedArity(v)
  {
    hide Pack;
  }

  lemma SameTwo(h: Hash, schema: seq<Field>, a: Fields, b: Fields)
    requires |schema| == 2
    requires Normal(h, schema[0].ty, Lookup(a, schema[0].key)) == Normal(h, schema[0].ty, Lookup(b, schema[0].key))
    requires Normal(h, schema[1].ty, Lookup(a, schema[1].key)) == Normal(h, schema[1].ty, Lookup(b, schema[1].key))
    ensures SameFields(h, schema, a, b)
  {
  }

  /** Within every operation equal field bytes mean equal fields, whatever the component counts. */
  lemma FieldsDetermined(h: Hash, op: Op, a: Fields, b: Fields)
    ensures EncodeFields(h, Schema(op), a).Some? && EncodeFields(h, Schema(op), a) == EncodeFields(h, Schema(op), b) ==>
              SameFields(h, Schema(op), a, b)
  {
    hide EncodeFields, Schema, SameFields, FixedArity, HoldsResource;
    SchemaShapes(op);
    if ResourceFirst(Schema(op)) {
      ResourceFieldsDetermined(h, Schema(op), a, b);
    } else {
      forall i | 0 <= i < |Schema(op)| ensures !HoldsResource(Schema(op)[i].ty) {
        SimpleHoldsNone(Schema(op)[i].ty);
      }
      FieldsDecodable(h, Schema(op), a, [], b, []);
    }
  }

  lemma BasicUsesNormal(h: Hash, ty: Ty, a: Val, b: Val)
    requires !ty.Optional? && Encode(h, ty, a).Some? && Encode(h, ty, b).Some?
    requires Normal(h, ty, a) == Normal(h, ty, b)
    ensures Encode(h, ty, a) == Encode(h, ty, b)
  {
    hide Pack, EncodeText, EncodeTexts, EncodeEach;
    match ty
    case Resource =>
    case Hashed =>
    case Security =>
    case _ => assert a == b;
  }

  lemma PresentIsNotNull(h: Hash, ty: Ty, v: Val)
    requires !ty.Optional? && Encode(h, ty, v).Some?
    ensures Normal(h, ty, v) != Null
  {
    hide Pack, EncodeText, EncodeTexts, EncodeEach;
  }

  /** Optional values do not nest, so a present value is never mistaken for a missing one. */
  predicate Flat(ty: Ty) {
    ty.Optional? ==> !ty.inner.Optional?
  }

  lemma SchemasAreFlat(op: Op)
    ensures forall i :: 0 <= i < |Schema(op)| ==> Flat(Schema(op)[i].ty)
  {
    hide Schema;
    SchemaShapes(op);
  }

  /** Nothing but the normal form of a value reaches the bytes. */
  lemma EncodingUsesNormal(h: Hash, ty: Ty, a: Val, b: Val)
    requires Flat(ty) && Encode(h, ty, a).Some? && Encode(h, ty, b).Some?
    requires Normal(h, ty, a) == Normal(h, ty, b)
    ensures Encode(h, ty, a) == Encode(h, ty, b)
  {
    if !ty.Optional? {
      BasicUsesNormal(h, ty, a, b);
    } else {
      OptionalUsesNormal(h, ty.inner, ty.lenient, a, b);
    }
  }

  lemma OptionalUsesNormal(h: Hash, inner: Ty, lenient: bool, a: Val, b: Val)
    requires var ty := Optional(inner, lenient);
             Flat(ty) && Encode(h, ty, a).Some? && Encode(h, ty, b).Some? && Normal(h, ty, a) == Normal(h, ty, b)
    ensures Encode(h, Optional(inner, lenient), a) == Encode(h, Optional(inner, lenient), b)
  {
    var missingA := a.Null? || (a.Absent? && lenient);
    var missingB := b.Null? || (b.Absent? && lenient);
    if !missingA {
      PresentIsNotNull(h, inner, a);
    }
    if !missingB {
      PresentIsNotNull(h, inner, b);
    }
    if !missingA && !missingB {
      BasicUsesNormal(h, inner, a, b);
    }
  }

  lemma {:induction false} FieldsUseNormal(h: Hash, schema: seq<Field>, a: Fields, b: Fields)
    requires forall i :: 0 <= i < |schema| ==> Flat(schema[i].ty)
    ensures EncodeFields(h, schema, a).Some? && EncodeFields(h, schema, b).Some? && SameFields(h, schema, a, b) ==>
              EncodeFields(h, schema, a) == EncodeFields(h, schema, b)
    decreases |schema|
  {
    hide Encode, Normal, Flat, Lookup;
    if schema != [] && EncodeFields(h, schema, a).Some? && EncodeFields(h, schema, b).Some? && SameFields(h, schema, a, b) {
      EncodingUsesNormal(h, schema[0].ty, Lookup(a, schema[0].key), Lookup(b, schema[0].key));
      assert forall i :: 0 <= i < |schema[1..]| ==> schema[1..][i] == schema[i + 1];
      FieldsUseNormal(h, schema[1..], a, b);
    }
  }

  /** Canonical bytes are equal exactly when the operations are and their fields agree: up to the
      `invoker` default, the ignored name of a namespace, and equality of digests. */
  lemma CanonicalIsInjective(h: Hash, opA: Op, a: Fields, opB: Op, b: Fields)
    ensures Canonical(h, opA, a).Some? && Canonical(h, opB, b).Some? ==>
              (Canonical(h, opA, a) == Canonical(h, opB, b) <==> opA == opB && SameFields(h, Schema(opA), a, b))
  {
    hide Pack, Tag, EncodeFields, Schema, SameFields;
    if Canonical(h, opA, a).None? || Canonical(h, opB, b).None? {
      return;
    }
    if Canonical(h, opA, a) == Canonical(h, opB, b) {
      var ea, eb := EncodeFields(h, Schema(opA), a).value, EncodeFields(h, Schema(opB), b).value;
      HeadDetermines(opA, ea, opB, eb);
      FieldsDetermined(h, opA, a, b);
    }
    if opA == opB && SameFields(h, Schema(opA), a, b) {
      SchemasAreFlat(opA);
      FieldsUseNormal(h, Schema(opA), a, b);
    }
  }

  /** The encoding is not vacuous: even an empty token id encodes. */
  lemma SomeFieldsEncode(h: Hash)
    ensures Canonical(h, RevokeApiToken, map["id" := Text([])]).Some?
  {
    hide Limit;
    Widths();
    var f: Fields := map["id" := Text([])];
    var schema := Schema(RevokeApiToken);
    assert Lookup(f, schema[0].key) == Text([]);
    assert EncodeFields(h, schema[1..], f) == Some([]);
  }

  /** Without the fixed component count a resource is not prefix-decodable: the same bytes split in two ways. */
  lemma ArityMatters()
    ensures EncodeResource(Database, []).Some? && EncodeResource(Database, [[]]).Some?
    ensures exists restA: seq<Byte>, restB: seq<Byte> ::
              EncodeResource(Database, []).value + restA == EncodeResource(Database, [[]]).value + restB
  {
    hide Limit;
    Widths();
    var one := EncodeResource(Database, [[]]).value;
    assert EncodeEach([[]]) == Join(EncodeText([]), EncodeEach([]));
    assert EncodeResource(Database, []).value + one[1..] == one + [];
  }
}
