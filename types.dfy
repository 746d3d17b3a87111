/**
 * The entity graph the parser produces and the generators consume
 * (xsd-parser/src/parser/types.rs). `RefCell` field lists are plain sequences
 * here; the resolver keeps its own mutable copy of them.
 */
module Types {
  import opened Wrappers

  /** The name that marks the placeholder field standing for a complex type's base. */
  const BaseTag: string := "@base"

  datatype TypeModifier = None | Array | Option | Recursive | Empty | Flatten

  datatype StructFieldSource = Attribute | Element | Base | Choice | Sequence | NA

  datatype EnumSource = Restriction | Choice | Union | NA

  /** `facet_type` is kept as its label; the facet kinds belong to a module that is not part of this model. */
  datatype Facet = Facet(facetType: string, comment: Option<string>)

  datatype Struct = Struct(
    name: string,
    comment: Option<string>,
    fields: seq<StructField>,
    attributeGroups: seq<Alias>,
    groups: seq<Alias>,
    subtypes: seq<RsEntity>)

  datatype StructField = StructField(
    name: string,
    typeName: string,
    comment: Option<string>,
    subtypes: seq<RsEntity>,
    source: StructFieldSource,
    typeModifiers: seq<TypeModifier>)

  datatype TupleStruct = TupleStruct(
    name: string,
    comment: Option<string>,
    typeName: string,
    subtypes: seq<RsEntity>,
    typeModifiers: seq<TypeModifier>,
    facets: seq<Facet>)

  datatype Enum = Enum(
    name: string,
    cases: seq<EnumCase>,
    comment: Option<string>,
    typeName: string,
    subtypes: seq<RsEntity>,
    typeModifiers: seq<TypeModifier>,
    source: EnumSource)

  datatype EnumCase = EnumCase(
    name: string,
    comment: Option<string>,
    value: string,
    typeName: Option<string>,
    typeModifiers: seq<TypeModifier>,
    source: EnumSource,
    subtypes: seq<RsEntity>)

  datatype Alias = Alias(
    name: string,
    original: string,
    comment: Option<string>,
    subtypes: seq<RsEntity>,
    typeModifiers: seq<TypeModifier>)

  datatype Import = Import(name: string, location: string, comment: Option<string>)

  datatype RsEntity =
    | StructEntity(st: Struct)
    | FieldEntity(field: StructField)
    | TupleStructEntity(tuple: TupleStruct)
    | EnumEntity(en: Enum)
    | EnumCaseEntity(enumCase: EnumCase)
    | AliasEntity(alias: Alias)
    | ImportEntity(imported: Import)

  /** `Struct { name, ..Default::default() }`-style values. */
  function NamedStruct(name: string): Struct
  {
    Struct(name, Option.None, [], [], [], [])
  }

  function NamedField(name: string, typeName: string): StructField
  {
    StructField(name, typeName, Option.None, [], StructFieldSource.NA, [])
  }

  /** `RsEntity::name`. */
  function Name(e: RsEntity): string
  {
    match e
    case StructEntity(s) => s.name
    case FieldEntity(f) => f.name
    case TupleStructEntity(t) => t.name
    case EnumEntity(en) => en.name
    case EnumCaseEntity(c) => c.name
    case AliasEntity(a) => a.name
    case ImportEntity(i) => i.name
  }

  /** The `comment` of whichever entity `e` holds. */
  function Comment(e: RsEntity): Option<string>
  {
    match e
    case StructEntity(s) => s.comment
    case FieldEntity(f) => f.comment
    case TupleStructEntity(t) => t.comment
    case EnumEntity(en) => en.comment
    case EnumCaseEntity(c) => c.comment
    case AliasEntity(a) => a.comment
    case ImportEntity(i) => i.comment
  }

  /** Which of the seven variants an entity is. */
  function Variant(e: RsEntity): nat
  {
    match e
    case StructEntity(_) => 0
    case FieldEntity(_) => 1
    case TupleStructEntity(_) => 2
    case EnumEntity(_) => 3
    case EnumCaseEntity(_) => 4
    case AliasEntity(_) => 5
    case ImportEntity(_) => 6
  }

  /** `RsEntity::set_name`: the name is replaced, the variant and the comment are kept (`SetNameRoundTrip` pins the rest). */
  function SetName(e: RsEntity, n: string): (r: RsEntity)
    ensures Name(r) == n
    ensures Variant(r) == Variant(e) && Comment(r) == Comment(e)
  {
    match e
    case StructEntity(s) => StructEntity(s.(name := n))
    case FieldEntity(f) => FieldEntity(f.(name := n))
    case TupleStructEntity(t) => TupleStructEntity(t.(name := n))
    case EnumEntity(en) => EnumEntity(en.(name := n))
    case EnumCaseEntity(c) => EnumCaseEntity(c.(name := n))
    case AliasEntity(a) => AliasEntity(a.(name := n))
    case ImportEntity(i) => ImportEntity(i.(name := n))
  }

  /** Renaming to the current name changes nothing, and a later rename undoes an earlier one. */
  lemma SetNameRoundTrip(e: RsEntity, n: string)
    ensures SetName(e, Name(e)) == e
    ensures SetName(SetName(e, n), Name(e)) == e
  {
  }

  /** `RsEntity::set_comment`: the comment is replaced, the name and the variant are kept. */
  function SetComment(e: RsEntity, c: Option<string>): (r: RsEntity)
    ensures Comment(r) == c
    ensures Name(r) == Name(e) && Variant(r) == Variant(e)
  {
    match e
    case StructEntity(s) => StructEntity(s.(comment := c))
    case FieldEntity(f) => FieldEntity(f.(comment := c))
    case TupleStructEntity(t) => TupleStructEntity(t.(comment := c))
    case EnumEntity(en) => EnumEntity(en.(comment := c))
    case EnumCaseEntity(ec) => EnumCaseEntity(ec.(comment := c))
    case AliasEntity(a) => AliasEntity(a.(comment := c))
    case ImportEntity(i) => ImportEntity(i.(comment := c))
  }

  /** Setting the current comment changes nothing, and setting the old one back undoes a change: nothing else is touched. */
  lemma SetCommentRoundTrip(e: RsEntity, c: Option<string>)
    ensures SetComment(e, Comment(e)) == e
    ensures SetComment(SetComment(e, c), Comment(e)) == e
  {
  }

  /** How many of the first `k` entities are of variant `v`: the running counters of the choice and sequence builders. */
  function CountBefore(es: seq<RsEntity>, k: nat, v: nat): (n: nat)
    requires k <= |es|
    ensures n <= k
  {
    if k == 0 then 0
    else CountBefore(es, k - 1, v) + (if Variant(es[k - 1]) == v then 1 else 0)
  }

  /** Two entities of the counted variant at different positions get different counts. */
  lemma {:induction false} CountBeforeStrict(es: seq<RsEntity>, i: nat, j: nat, v: nat)
    requires i < j <= |es|
    requires Variant(es[i]) == v
    ensures CountBefore(es, i, v) < CountBefore(es, j, v)
  {
    if j == i + 1 {
    } else {
      CountBeforeStrict(es, i, j - 1, v);
    }
  }
}
