/** `xs:complexType` (xsd-parser/src/parser/complex_type.rs). */
module ComplexType {
  import opened Wrappers
  import opened Types
  import opened Xml

  /** The content models a complex type may hold exactly one of. */
  const ContentKinds: set<ElementType> :=
    {ElementType.All, ElementType.Choice, ElementType.ComplexContent, ElementType.Group, ElementType.Sequence, ElementType.SimpleContent}

  /** The name: the `name` attribute below the schema (fatal if missing), the parent's name elsewhere. */
  function ComplexTypeName(env: Env, node: XmlNode, parent: XmlNode): (r: Result<string, ParseError>)
    ensures parent.kind == ElementType.Schema ==>
      (r.Success? <==> "name" in node.attributes) && (r.Success? ==> r.value == node.attributes["name"])
    ensures parent.kind != ElementType.Schema ==> r == Success(env.getParentName(node))
  {
    if parent.kind == ElementType.Schema then
      if "name" in node.attributes then Success(node.attributes["name"]) else Failure(MissingAttribute("name"))
    else Success(env.getParentName(node))
  }

  function LastOf(nodes: seq<XmlNode>): (r: Option<XmlNode>)
    ensures r.None? <==> nodes == []
    ensures r.Some? ==> r.value == nodes[|nodes| - 1]
  {
    if nodes == [] then Option.None else Some(nodes[|nodes| - 1])
  }

  /** The content node: the last child of a permitted content kind; earlier ones are ignored, not an error. */
  function Content(node: XmlNode): (r: Option<XmlNode>)
    ensures r.Some? ==> r.value in node.children && r.value.isElement && r.value.kind in ContentKinds
    ensures r.None? <==> ElementChildrenOf(node, ContentKinds) == []
  {
    LastOf(ElementChildrenOf(node, ContentKinds))
  }

  /** The comment of struct content: the type's documentation, then a newline and the existing comment. */
  function PrependDocs(docs: Option<string>, existing: Option<string>): (r: Option<string>)
    ensures docs.None? ==> r == existing
    ensures docs.Some? && existing.None? ==> r == docs
    ensures docs.Some? && existing.Some? ==> r == Some(docs.value + "\n" + existing.value)
  {
    match docs
    case None => existing
    case Some(d) => if existing.Some? then Some(d + "\n" + existing.value) else Some(d)
  }

  predicate HasElementChildren(n: XmlNode)
  {
    exists i :: 0 <= i < |n.children| && n.children[i].isElement
  }

  /** `parse_complex_type`. */
  function ParseComplexType(env: Env, node: XmlNode, parent: XmlNode): (r: Result<RsEntity, ParseError>)
    ensures r.Success? <==> ComplexTypeName(env, node, parent).Success?
    ensures r.Success? && (Content(node).None? || !HasElementChildren(Content(node).value)) ==>
      r.value == StructEntity(Struct(ComplexTypeName(env, node, parent).value, env.getDocumentation(node),
        env.attributesToFields(node), env.attributeGroupsToAliases(node), env.groupsToAliases(node), []))
    ensures r.Success? && Content(node).Some? && HasElementChildren(Content(node).value) ==>
      var name := ComplexTypeName(env, node, parent).value;
      var res := env.parseNode(Content(node).value, node);
      && (res.StructEntity? ==>
          && r.value.StructEntity?
          && r.value.st.name == name
          && r.value.st.fields == res.st.fields + env.attributesToFields(node)
          && r.value.st.attributeGroups == res.st.attributeGroups + env.attributeGroupsToAliases(node)
          && r.value.st.groups == res.st.groups + env.groupsToAliases(node)
          && r.value.st.comment == PrependDocs(env.getDocumentation(node), res.st.comment)
          && r.value.st.subtypes == res.st.subtypes)
      && (res.EnumEntity? ==>
          r.value == EnumEntity(res.en.(name := name + "Choice", subtypes := [StructEntity(ChoiceHolder(env, node, name))])))
      && (!res.StructEntity? && !res.EnumEntity? ==> r.value == res)
  {
    match ComplexTypeName(env, node, parent)
    case Failure(e) => Failure(e)
    case Success(name) =>
      var fields := env.attributesToFields(node);
      var content := Content(node);
      if content.None? || !HasElementChildren(content.value) then
        Success(StructEntity(Struct(name, env.getDocumentation(node), fields,
          env.attributeGroupsToAliases(node), env.groupsToAliases(node), [])))
      else
        var res := env.parseNode(content.value, node);
        var docs := env.getDocumentation(node);
        match res
        case StructEntity(st) =>
          Success(StructEntity(st.(
            fields := st.fields + fields,
            name := name,
            attributeGroups := st.attributeGroups + env.attributeGroupsToAliases(node),
            groups := st.groups + env.groupsToAliases(node),
            comment := PrependDocs(docs, st.comment))))
        case EnumEntity(en) =>
          Success(EnumEntity(en.(name := name + "Choice", subtypes := [StructEntity(ChoiceHolder(env, node, name))])))
        case _ => Success(res)
  }

  /** The struct an enum-content type wraps its attributes in: the attribute fields, then one Choice field for the enum. */
  function ChoiceHolder(env: Env, node: XmlNode, name: string): (s: Struct)
    ensures s.name == name && s.subtypes == []
    ensures s.fields == env.attributesToFields(node) + [StructField(name + "Choice", name + "Choice", Option.None, [], StructFieldSource.Choice, [])]
    ensures s.comment == env.getDocumentation(node)
  {
    var choiceName := name + "Choice";
    Struct(name, env.getDocumentation(node),
      env.attributesToFields(node) + [StructField(choiceName, choiceName, Option.None, [], StructFieldSource.Choice, [])],
      env.attributeGroupsToAliases(node), env.groupsToAliases(node), [])
  }

  /** With several content children the last one decides: an earlier one is never parsed. */
  lemma LastContentWins(node: XmlNode, pre: seq<XmlNode>, b: XmlNode, rest: seq<XmlNode>)
    requires b.isElement && b.kind in ContentKinds
    requires forall i :: 0 <= i < |rest| ==> !Kept(rest[i], ContentKinds, true)
    requires node.children == pre + [b] + rest
    ensures Content(node) == Some(b)
  {
    NoneKept(rest, ContentKinds, true);
    FilterNodesAppend(pre + [b], rest, ContentKinds, true);
    FilterNodesAppend(pre, [b], ContentKinds, true);
    assert [b][1..] == [];
    assert FilterNodes([b], ContentKinds, true) == [b];
  }
}
