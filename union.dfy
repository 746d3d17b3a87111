/** `xs:union` (xsd-parser/src/parser/union.rs). */
module Union {
  import opened Wrappers
  import opened Strings
  import opened Types
  import opened Xml

  const StringType: string := "std::string::String"

  /** A case for one `memberTypes` entry. */
  function MemberCase(token: string): EnumCase
  {
    EnumCase(token, Option.None, "", Some(token), [], EnumSource.Union, [])
  }

  /** `create_enum_cases`: one case per non-empty space-separated token, in order. */
  function CreateEnumCases(memberTypes: string): (r: seq<EnumCase>)
    ensures |r| == |Tokens(memberTypes)|
    ensures forall i :: 0 <= i < |r| ==>
      && r[i].name == Tokens(memberTypes)[i]
      && r[i].typeName == Some(Tokens(memberTypes)[i])
      && r[i].source == EnumSource.Union
      && r[i].subtypes == [] && r[i].typeModifiers == []
      && r[i].name != "" && ' ' !in r[i].name
  {
    var tokens := Tokens(memberTypes);
    seq(|tokens|, i requires 0 <= i < |tokens| => MemberCase(tokens[i]))
  }

  /** The name `format!("EnumCaseType_{}", index)` of the i-th inline member type. */
  function CaseTypeName(index: nat): string
  {
    "EnumCaseType_" + NatToString(index)
  }

  function CaseName(index: nat): string
  {
    "EnumCase_" + NatToString(index)
  }

  /** Distinct positions give distinct case names. */
  lemma CaseNamesDistinct(i: nat, j: nat)
    requires i != j
    ensures CaseName(i) != CaseName(j)
    ensures CaseTypeName(i) != CaseTypeName(j)
  {
    if NatToString(i) == NatToString(j) {
      NatToStringInjective(i, j);
    }
    assert CaseName(i)[9..] == NatToString(i) && CaseName(j)[9..] == NatToString(j);
    assert CaseTypeName(i)[13..] == NatToString(i) && CaseTypeName(j)[13..] == NatToString(j);
  }

  /** `enum_subtype_from_node`: the parsed member type, renamed after its position. */
  function EnumSubtypeFromNode(env: Env, node: XmlNode, parent: XmlNode, index: nat): (r: RsEntity)
    ensures Name(r) == CaseTypeName(index)
    ensures Variant(r) == Variant(env.parseNode(node, parent))
  {
    SetName(env.parseNode(node, parent), CaseTypeName(index))
  }

  /** The case for the `index`-th inline simple type: `EnumCase_<index>`, flattened, holding the renamed type. */
  function InlineCase(env: Env, union: XmlNode, node: XmlNode, index: nat): (c: EnumCase)
    ensures c.name == CaseName(index) && c.typeName == Some(CaseTypeName(index))
    ensures c.typeModifiers == [TypeModifier.Flatten] && c.source == EnumSource.Union
    ensures c.subtypes == [EnumSubtypeFromNode(env, node, union, index)]
  {
    var subtype := EnumSubtypeFromNode(env, node, union, index);
    EnumCase(CaseName(index), Option.None, "", Some(Name(subtype)), [TypeModifier.Flatten], EnumSource.Union, [subtype])
  }

  function SimpleTypeChildren(union: XmlNode): seq<XmlNode>
  {
    ElementChildrenOf(union, {ElementType.SimpleType})
  }

  /** The cases named by the `memberTypes` attribute, none when it is absent. */
  function MemberCases(union: XmlNode): seq<EnumCase>
  {
    if "memberTypes" in union.attributes then CreateEnumCases(union.attributes["memberTypes"]) else []
  }

  /** Case `i` of `r`, counted from `offset`, is the inline case built from `inline[i]`. */
  predicate InlineCaseAt(env: Env, union: XmlNode, inline: seq<XmlNode>, r: seq<EnumCase>, offset: nat, i: nat)
    requires i < |inline| && offset + i < |r|
  {
    r[offset + i] == InlineCase(env, union, inline[i], i)
  }

  /** One case per inline simple type, numbered by its position. */
  function InlineCases(env: Env, union: XmlNode, inline: seq<XmlNode>): (r: seq<EnumCase>)
    ensures |r| == |inline|
    ensures forall i :: 0 <= i < |inline| ==> InlineCaseAt(env, union, inline, r, 0, i)
  {
    seq(|inline|, i requires 0 <= i < |inline| => InlineCase(env, union, inline[i], i))
  }

  /** The cases of the union: member types first, then the inline simple types, each in declaration order. */
  function UnionCases(env: Env, union: XmlNode): (r: seq<EnumCase>)
    ensures |r| == |MemberCases(union)| + |SimpleTypeChildren(union)|
    ensures r[..|MemberCases(union)|] == MemberCases(union)
    ensures forall i :: 0 <= i < |SimpleTypeChildren(union)| ==>
      InlineCaseAt(env, union, SimpleTypeChildren(union), r, |MemberCases(union)|, i)
  {
    var members := MemberCases(union);
    var inline := SimpleTypeChildren(union);
    var tail := InlineCases(env, union, inline);
    InlineCasesShifted(env, union, inline, members, tail);
    members + tail
  }

  /** Inline cases keep their numbering when the member cases are put in front of them. */
  lemma InlineCasesShifted(env: Env, union: XmlNode, inline: seq<XmlNode>, members: seq<EnumCase>, tail: seq<EnumCase>)
    requires |tail| == |inline|
    requires forall i :: 0 <= i < |inline| ==> InlineCaseAt(env, union, inline, tail, 0, i)
    ensures forall i :: 0 <= i < |inline| ==> InlineCaseAt(env, union, inline, members + tail, |members|, i)
  {
    forall i | 0 <= i < |inline|
      ensures InlineCaseAt(env, union, inline, members + tail, |members|, i)
    {
      assert InlineCaseAt(env, union, inline, tail, 0, i);
      assert (members + tail)[|members| + i] == tail[i];
    }
  }

  /** The unnamed Union-sourced enum of the union's cases, typed `std::string::String`. */
  function UnionEnum(env: Env, union: XmlNode): Enum
  {
    Enum("", UnionCases(env, union), env.getDocumentation(union), StringType, [], [], EnumSource.Union)
  }

  /**
   * `parse_union`: an unnamed enum when the union has no attributes; otherwise an
   * unnamed struct of the attribute fields followed by the field for the enum,
   * which is then named after the parent.
   */
  function ParseUnion(env: Env, union: XmlNode): (r: RsEntity)
    ensures
      var en := UnionEnum(env, union);
      var attrs := env.attributesToFields(union);
      && (r.EnumEntity? <==> attrs == [])
      && (attrs == [] ==> r == EnumEntity(en))
      && (attrs != [] ==>
          && r.StructEntity?
          && r.st.name == "" && r.st.subtypes == [] && r.st.comment == Option.None
          && r.st.attributeGroups == [] && r.st.groups == []
          && r.st.fields == attrs + [env.enumToField(en.(name := env.getParentName(union) + "Choice"))])
  {
    var unionEnum := UnionEnum(env, union);
    var fields := env.attributesToFields(union);
    if fields == [] then EnumEntity(unionEnum)
    else
      var named := unionEnum.(name := env.getParentName(union) + "Choice");
      StructEntity(NamedStruct("").(fields := fields + [env.enumToField(named)]))
  }

  // The unit tests of union.rs, on the documents they parse.

  /** `test_create_enum`. */
  lemma CreateEnumCasesExample()
    ensures |CreateEnumCases("Type1 Type2  Type3")| == 3
    ensures CreateEnumCases("Type1 Type2  Type3")[0].name == "Type1"
  {
    TokensExample();
  }

  lemma TokensExample()
    ensures Tokens("Type1 Type2  Type3") == ["Type1", "Type2", "Type3"]
  {
    TokensOfThree("Type1", "Type2", "Type3");
    assert "Type1" + " " + "Type2" + "  " + "Type3" == "Type1 Type2  Type3";
  }

  /** The shape of the test input: three words, the last two separated by two spaces. */
  lemma TokensOfThree(a: string, b: string, c: string)
    requires a != "" && b != "" && c != ""
    requires ' ' !in a && ' ' !in b && ' ' !in c
    ensures Tokens(a + " " + b + "  " + c) == [a, b, c]
  {
    SplitWithoutSeparator(c, ' ');
    SplitAtSeparator("", c, ' ');
    assert "" + [' '] + c == " " + c;
    SplitAtSeparator(b, " " + c, ' ');
    assert b + [' '] + (" " + c) == b + "  " + c;
    SplitAtSeparator(a, b + "  " + c, ' ');
    assert a + [' '] + (b + "  " + c) == a + " " + b + "  " + c;
    var pieces := Split(a + " " + b + "  " + c, ' ');
    assert pieces == [a, b, "", c];
    assert pieces[3..] == [c];
    assert NonEmpty(pieces[3..], ' ') == [c];
    assert pieces[2..] == ["", c];
    assert NonEmpty(pieces[2..], ' ') == [c];
    assert pieces[1..] == [b, "", c];
    assert NonEmpty(pieces[1..], ' ') == [b, c];
  }

  const Blank: XmlNode := XmlNode(false, ElementType.Unknown, map[], [])

  function ListOf(itemType: string): XmlNode
  {
    XmlNode(true, ElementType.SimpleType, map[], [Blank, XmlNode(true, ElementType.List, map["itemType" := itemType], []), Blank])
  }

  function AttributeNode(name: string, typeName: string): XmlNode
  {
    XmlNode(true, ElementType.Attribute, map["name" := name, "type" := typeName], [])
  }

  /** `<xs:union memberTypes="Type1 Type2">` with the given children. */
  function UnionNode(children: seq<XmlNode>): XmlNode
  {
    XmlNode(true, ElementType.Union, map["memberTypes" := "Type1 Type2"], children)
  }

  const NestedTypes: seq<XmlNode> :=
    [Blank, ListOf("ListOfType"), Blank, ListOf("ListOfType1"), Blank, ListOf("ListOfType2"), Blank]

  const WithAttributes: seq<XmlNode> :=
    NestedTypes + [AttributeNode("Attr1", "AttrType1"), AttributeNode("Attr2", "AttrType2")]

  lemma MembersTypeOneTwo()
    ensures Tokens("Type1 Type2") == ["Type1", "Type2"]
  {
    TokensOfTwo("Type1", "Type2");
    assert "Type1" + " " + "Type2" == "Type1 Type2";
  }

  lemma TokensOfTwo(a: string, b: string)
    requires a != "" && b != ""
    requires ' ' !in a && ' ' !in b
    ensures Tokens(a + " " + b) == [a, b]
  {
    SplitWithoutSeparator(b, ' ');
    SplitAtSeparator(a, b, ' ');
    assert a + [' '] + b == a + " " + b;
    var pieces := Split(a + " " + b, ' ');
    assert pieces == [a, b];
    assert pieces[1..] == [b];
    assert NonEmpty(pieces[1..], ' ') == [b];
  }

  /** `test_parse_union`: the helpers find no attributes on the union. */
  lemma ParseUnionExample(env: Env)
    requires env.attributesToFields(UnionNode([])) == []
    ensures ParseUnion(env, UnionNode([])).EnumEntity?
    ensures |ParseUnion(env, UnionNode([])).en.cases| == 2
    ensures ParseUnion(env, UnionNode([])).en.cases[0].name == "Type1"
    ensures ParseUnion(env, UnionNode([])).en.cases[1].name == "Type2"
    ensures ParseUnion(env, UnionNode([])).en.name == ""
  {
    MembersTypeOneTwo();
    assert SimpleTypeChildren(UnionNode([])) == [];
  }

  lemma NestedSimpleTypes(extras: seq<XmlNode>)
    requires forall i :: 0 <= i < |extras| ==> extras[i].kind != ElementType.SimpleType
    ensures SimpleTypeChildren(UnionNode(NestedTypes + extras)) == [ListOf("ListOfType"), ListOf("ListOfType1"), ListOf("ListOfType2")]
  {
    ThreeSimpleTypes(Blank, ListOf("ListOfType"), ListOf("ListOfType1"), ListOf("ListOfType2"), extras);
  }

  /** Text between the children and trailing non-simpleType elements are skipped. */
  lemma ThreeSimpleTypes(blank: XmlNode, s1: XmlNode, s2: XmlNode, s3: XmlNode, extras: seq<XmlNode>)
    requires !blank.isElement
    requires s1.isElement && s1.kind == ElementType.SimpleType
    requires s2.isElement && s2.kind == ElementType.SimpleType
    requires s3.isElement && s3.kind == ElementType.SimpleType
    requires forall i :: 0 <= i < |extras| ==> extras[i].kind != ElementType.SimpleType
    ensures
      var children := [blank, s1, blank, s2, blank, s3, blank] + extras;
      SimpleTypeChildren(UnionNode(children)) == [s1, s2, s3]
  {
    var keep := {ElementType.SimpleType};
    var c := [blank, s1, blank, s2, blank, s3, blank] + extras;
    assert c[7..] == extras;
    NoneKept(extras, keep, true);
    FilterNodesAt(c, 6, keep, true);
    FilterNodesAt(c, 5, keep, true);
    FilterNodesAt(c, 4, keep, true);
    FilterNodesAt(c, 3, keep, true);
    FilterNodesAt(c, 2, keep, true);
    FilterNodesAt(c, 1, keep, true);
    FilterNodesAt(c, 0, keep, true);
    assert c[0..] == c;
  }

  /** The five cases both nested-type tests check. */
  predicate NestedCasesAsExpected(cases: seq<EnumCase>)
  {
    && |cases| == 5
    && cases[0].name == "Type1" && cases[1].name == "Type2"
    && cases[2].name == "EnumCase_0" && cases[3].name == "EnumCase_1" && cases[4].name == "EnumCase_2"
    && cases[2].typeName == Some("EnumCaseType_0")
    && cases[3].typeName == Some("EnumCaseType_1")
    && cases[4].typeName == Some("EnumCaseType_2")
    && |cases[2].subtypes| == 1 && Name(cases[2].subtypes[0]) == "EnumCaseType_0"
    && |cases[3].subtypes| == 1 && Name(cases[3].subtypes[0]) == "EnumCaseType_1"
    && |cases[4].subtypes| == 1 && Name(cases[4].subtypes[0]) == "EnumCaseType_2"
  }

  lemma NestedCases(env: Env, extras: seq<XmlNode>)
    requires forall i :: 0 <= i < |extras| ==> extras[i].kind != ElementType.SimpleType
    ensures NestedCasesAsExpected(UnionCases(env, UnionNode(NestedTypes + extras)))
  {
    MembersTypeOneTwo();
    NestedSimpleTypes(extras);
    CasesOfTwoMembersThreeInline(env, UnionNode(NestedTypes + extras));
  }

  /** Any union with member types `Type1 Type2` and three inline simple types. */
  lemma CasesOfTwoMembersThreeInline(env: Env, u: XmlNode)
    requires "memberTypes" in u.attributes && Tokens(u.attributes["memberTypes"]) == ["Type1", "Type2"]
    requires |SimpleTypeChildren(u)| == 3
    ensures NestedCasesAsExpected(UnionCases(env, u))
  {
    var cases := UnionCases(env, u);
    var members := CreateEnumCases(u.attributes["memberTypes"]);
    var inline := SimpleTypeChildren(u);
    assert cases[..2] == members;
    assert cases[0] == members[0] && cases[1] == members[1];
    assert cases[2] == InlineCase(env, u, inline[0], 0);
    assert cases[3] == InlineCase(env, u, inline[1], 1);
    assert cases[4] == InlineCase(env, u, inline[2], 2);
    assert NatToString(0) == "0" && NatToString(1) == "1" && NatToString(2) == "2";
    assert CaseName(0) == "EnumCase_0" && CaseTypeName(0) == "EnumCaseType_0";
    assert CaseName(1) == "EnumCase_1" && CaseTypeName(1) == "EnumCaseType_1";
    assert CaseName(2) == "EnumCase_2" && CaseTypeName(2) == "EnumCaseType_2";
  }

  /** `test_parse_union_with_nested_types`. */
  lemma ParseUnionWithNestedTypesExample(env: Env)
    requires env.attributesToFields(UnionNode(NestedTypes)) == []
    ensures ParseUnion(env, UnionNode(NestedTypes)).EnumEntity?
    ensures NestedCasesAsExpected(ParseUnion(env, UnionNode(NestedTypes)).en.cases)
    ensures ParseUnion(env, UnionNode(NestedTypes)).en.name == ""
  {
    NestedCases(env, []);
    assert NestedTypes + [] == NestedTypes;
  }

  /** `test_parse_union_with_nested_types_and_attributes`, first half: the five cases of its document. */
  lemma AttributedUnionCases(env: Env, u: XmlNode)
    requires u == UnionNode(WithAttributes)
    ensures NestedCasesAsExpected(UnionCases(env, u))
  {
    var extras := [AttributeNode("Attr1", "AttrType1"), AttributeNode("Attr2", "AttrType2")];
    assert extras[0].kind != ElementType.SimpleType && extras[1].kind != ElementType.SimpleType;
    NestedCases(env, extras);
    assert WithAttributes == NestedTypes + extras;
  }

  /** The name the parent `SomeType` gives the enum field. */
  lemma ChoiceNameOfSomeType()
    ensures "SomeType" + "Choice" == "SomeTypeChoice"
  {
  }

  /**
   * `test_parse_union_with_nested_types_and_attributes`, second half: for a union with the
   * five cases of its document (`AttributedUnionCases`), when the helpers turn the
   * attributes into two fields and the parent's name is `SomeType`, the result
   * is an unnamed three-field struct whose last field is made from the enum
   * `SomeTypeChoice` with the five expected cases.
   */
  lemma ParseUnionWithAttributesExample(env: Env, u: XmlNode)
    requires NestedCasesAsExpected(UnionCases(env, u))
    requires |env.attributesToFields(u)| == 2
    requires env.getParentName(u) == "SomeType"
    ensures
      var r := ParseUnion(env, u);
      var en := UnionEnum(env, u).(name := "SomeTypeChoice");
      && r.StructEntity? && r.st.name == "" && r.st.subtypes == [] && |r.st.fields| == 3
      && r.st.fields[2] == env.enumToField(en)
      && NestedCasesAsExpected(en.cases)
  {
    var en := UnionEnum(env, u).(name := "SomeTypeChoice");
    ChoiceNameOfSomeType();
    assert ParseUnion(env, u).st.fields == env.attributesToFields(u) + [env.enumToField(en)];
  }
}
