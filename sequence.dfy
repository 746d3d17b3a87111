/** `xs:sequence` (xsd-parser/src/parser/sequence.rs). */
module Sequence {
  import opened Wrappers
  import opened Strings
  import opened Types
  import opened Xml

  const EnumVariant: nat := 3

  /** The children that become fields: elements other than annotations, groups and attribute groups, in document order. */
  function FieldChildren(sequence: XmlNode): seq<XmlNode>
  {
    ElementChildrenExcept(sequence, {ElementType.Annotation, ElementType.Group, ElementType.AttributeGroup})
  }

  function ParsedChildren(env: Env, sequence: XmlNode): (r: seq<RsEntity>)
    ensures |r| == |FieldChildren(sequence)|
  {
    var kids := FieldChildren(sequence);
    seq(|kids|, i requires 0 <= i < |kids| => env.parseNode(kids[i], sequence))
  }

  /** `<parent>Choice<k>`: the name of the k-th enum child. */
  function ChoiceName(parentName: string, k: nat): string
  {
    parentName + "Choice" + NatToString(k)
  }

  /** The field a parsed child becomes when `k` enum children precede it; None for a variant that is not allowed. */
  function SequenceField(env: Env, e: RsEntity, parentName: string, k: nat): (r: Option<StructField>)
    ensures r.Some? <==> e.FieldEntity? || e.EnumEntity? || e.AliasEntity? || e.StructEntity?
    ensures e.FieldEntity? ==>
      && r.value == e.field.(typeModifiers := r.value.typeModifiers)
      && (EndsWith(e.field.typeName, parentName) ==> r.value.typeModifiers == e.field.typeModifiers + [TypeModifier.Recursive])
      && (!EndsWith(e.field.typeName, parentName) ==> r.value.typeModifiers == e.field.typeModifiers)
    ensures e.EnumEntity? ==> r.value == env.enumToField(e.en.(name := ChoiceName(parentName, k)))
    ensures e.AliasEntity? ==>
      r.value == StructField(e.alias.name, e.alias.original, e.alias.comment, e.alias.subtypes, StructFieldSource.NA, [])
    ensures e.StructEntity? ==>
      r.value == StructField(e.st.name, e.st.name, Option.None, [e], StructFieldSource.NA, [])
  {
    match e
    case FieldEntity(sf) =>
      if EndsWith(sf.typeName, parentName) then Some(sf.(typeModifiers := sf.typeModifiers + [TypeModifier.Recursive]))
      else Some(sf)
    case EnumEntity(en) => Some(env.enumToField(en.(name := ChoiceName(parentName, k))))
    case AliasEntity(a) => Some(StructField(a.name, a.original, a.comment, a.subtypes, StructFieldSource.NA, []))
    case StructEntity(st) => Some(StructField(st.name, st.name, Option.None, [StructEntity(st)], StructFieldSource.NA, []))
    case _ => Option.None
  }

  predicate Allowed(e: RsEntity)
  {
    e.FieldEntity? || e.EnumEntity? || e.AliasEntity? || e.StructEntity?
  }

  /** Each field so far is what its child becomes, given the enum children before it. */
  predicate FieldsMatch(env: Env, results: seq<RsEntity>, parentName: string, fields: seq<StructField>)
  {
    && |fields| <= |results|
    && forall j :: 0 <= j < |fields| ==> FieldAt(env, results, parentName, j, fields[j])
  }

  /** Child `j` becomes field `f`, given the enum children before it. */
  predicate FieldAt(env: Env, results: seq<RsEntity>, parentName: string, j: nat, f: StructField)
    requires j < |results|
  {
    SequenceField(env, results[j], parentName, CountBefore(results, j, EnumVariant)) == Some(f)
  }

  lemma FieldsMatchExtend(env: Env, results: seq<RsEntity>, parentName: string, fields: seq<StructField>, f: StructField)
    requires FieldsMatch(env, results, parentName, fields) && |fields| < |results|
    requires SequenceField(env, results[|fields|], parentName, CountBefore(results, |fields|, EnumVariant)) == Some(f)
    ensures FieldsMatch(env, results, parentName, fields + [f])
  {
    var next := fields + [f];
    forall j | 0 <= j < |next|
      ensures FieldAt(env, results, parentName, j, next[j])
    {
      if j < |fields| {
        assert next[j] == fields[j];
      }
    }
  }

  /** The map closure of `elements_to_fields`: the field for one parsed child, bumping the captured choice counter. */
  method FieldOf(env: Env, e: RsEntity, parentName: string, choiceCount: nat) returns (f: Option<StructField>, count: nat)
    ensures f.Some? <==> Allowed(e)
    ensures f == SequenceField(env, e, parentName, choiceCount)
    ensures count == choiceCount + (if Variant(e) == EnumVariant then 1 else 0)
  {
    count := choiceCount;
    match e {
      case FieldEntity(sf) =>
        var field := sf;
        if EndsWith(field.typeName, parentName) {
          field := field.(typeModifiers := field.typeModifiers + [TypeModifier.Recursive]);
        }
        f := Some(field);
      case EnumEntity(en) =>
        var renamed := en.(name := parentName + "Choice" + NatToString(count));
        count := count + 1;
        f := Some(env.enumToField(renamed));
      case AliasEntity(a) =>
        f := Some(StructField(a.name, a.original, a.comment, a.subtypes, StructFieldSource.NA, []));
      case StructEntity(st) =>
        f := Some(StructField(st.name, st.name, Option.None, [StructEntity(st)], StructFieldSource.NA, []));
      case _ =>
        f := Option.None;
    }
  }

  /** The loop of `elements_to_fields` after `i` children: their fields, and the enum count among them. */
  predicate Progress(env: Env, results: seq<RsEntity>, parentName: string, i: nat, fields: seq<StructField>, choiceCount: nat)
    requires i <= |results|
  {
    && |fields| == i
    && choiceCount == CountBefore(results, i, EnumVariant)
    && (forall j :: 0 <= j < i ==> Allowed(results[j]))
    && FieldsMatch(env, results, parentName, fields)
  }

  lemma ProgressStep(env: Env, results: seq<RsEntity>, parentName: string, i: nat, fields: seq<StructField>, choiceCount: nat, f: StructField)
    requires i < |results| && Progress(env, results, parentName, i, fields, choiceCount)
    requires SequenceField(env, results[i], parentName, choiceCount) == Some(f)
    ensures Progress(env, results, parentName, i + 1, fields + [f],
      choiceCount + (if Variant(results[i]) == EnumVariant then 1 else 0))
  {
    FieldsMatchExtend(env, results, parentName, fields, f);
  }

  /** `elements_to_fields`: one field per child in order; any other parse result is fatal. */
  method ElementsToFields(env: Env, sequence: XmlNode, parentName: string) returns (r: Result<seq<StructField>, ParseError>)
    ensures r.Success? <==> forall j :: 0 <= j < |ParsedChildren(env, sequence)| ==> Allowed(ParsedChildren(env, sequence)[j])
    ensures r.Success? ==>
      && |r.value| == |ParsedChildren(env, sequence)|
      && FieldsMatch(env, ParsedChildren(env, sequence), parentName, r.value)
  {
    var kids := FieldChildren(sequence);
    ghost var results := ParsedChildren(env, sequence);
    var fields: seq<StructField> := [];
    var choiceCount: nat := 0;
    var i := 0;
    while i < |kids|
      invariant 0 <= i <= |kids| == |results|
      invariant Progress(env, results, parentName, i, fields, choiceCount)
    {
      var e := env.parseNode(kids[i], sequence);
      assert e == results[i];
      var f;
      ghost var before := choiceCount;
      f, choiceCount := FieldOf(env, e, parentName, choiceCount);
      if f.None? {
        return Failure(UnexpectedEntity("sequence child"));
      }
      ProgressStep(env, results, parentName, i, fields, before, f.value);
      fields := fields + [f.value];
      i := i + 1;
    }
    r := Success(fields);
  }

  /** `parse_sequence`: a struct named after the parent holding the fields and the sequence's aliases. */
  method ParseSequence(env: Env, sequence: XmlNode, parent: XmlNode) returns (r: Result<RsEntity, ParseError>)
    ensures r.Success? <==> forall j :: 0 <= j < |ParsedChildren(env, sequence)| ==> Allowed(ParsedChildren(env, sequence)[j])
    ensures r.Success? ==>
      var name := env.getParentName(sequence);
      && r.value.StructEntity?
      && r.value.st.name == name
      && r.value.st.comment == env.getDocumentation(parent)
      && r.value.st.subtypes == []
      && r.value.st.attributeGroups == env.attributeGroupsToAliases(sequence)
      && r.value.st.groups == env.groupsToAliases(sequence)
      && |r.value.st.fields| == |ParsedChildren(env, sequence)|
      && FieldsMatch(env, ParsedChildren(env, sequence), name, r.value.st.fields)
  {
    var name := env.getParentName(sequence);
    var fields := ElementsToFields(env, sequence, name);
    if fields.Failure? {
      return Failure(fields.error);
    }
    r := Success(StructEntity(Struct(name, env.getDocumentation(parent), fields.value,
      env.attributeGroupsToAliases(sequence), env.groupsToAliases(sequence), [])));
  }

  /** The k-th enum child, counting enum children only, is named `<parent>Choice<k>`; distinct enum children get distinct names. */
  lemma EnumFieldNaming(results: seq<RsEntity>, parentName: string, i: nat, j: nat)
    requires i < j < |results| && results[i].EnumEntity? && results[j].EnumEntity?
    ensures ChoiceName(parentName, CountBefore(results, i, EnumVariant)) != ChoiceName(parentName, CountBefore(results, j, EnumVariant))
  {
    var a, b := CountBefore(results, i, EnumVariant), CountBefore(results, j, EnumVariant);
    CountBeforeStrict(results, i, j, EnumVariant);
    var p := |parentName + "Choice"|;
    if NatToString(a) == NatToString(b) {
      NatToStringInjective(a, b);
    }
    assert ChoiceName(parentName, a)[p..] == NatToString(a);
    assert ChoiceName(parentName, b)[p..] == NatToString(b);
  }

  /** The recursion mark is a suffix test: a field typed `tt:SubItem` inside `Item` is marked `Recursive` too. */
  lemma RecursiveIsSuffixTest(env: Env)
    ensures
      var sf := NamedField("child", "tt:SubItem");
      SequenceField(env, FieldEntity(sf), "Item", 0) == Some(sf.(typeModifiers := [TypeModifier.Recursive]))
  {
    var sf := NamedField("child", "tt:SubItem");
    assert sf.typeName[|sf.typeName| - 4..] == "Item";
    assert EndsWith(sf.typeName, "Item");
    assert sf.typeModifiers + [TypeModifier.Recursive] == [TypeModifier.Recursive];
  }
}
