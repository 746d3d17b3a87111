/** `xs:group`: occurrence bounds, group references and global group definitions (xsd-parser/src/parser/group.rs). */
module Group {
  import opened Wrappers
  import opened Types
  import opened Xml

  /** `group_modifier`: the collection shape a group reference gets from its occurrence bounds. */
  function GroupModifier(min: nat, max: MaxOccurs): (m: TypeModifier)
    ensures m == TypeModifier.None || m == TypeModifier.Option || m == TypeModifier.Array
    ensures m == TypeModifier.Option <==> min == 0 && max == MaxOccurs.None
    ensures m == TypeModifier.Array <==> min >= 2 || max == MaxOccurs.Unbounded || (max.Bounded? && max.n > 1)
  {
    if min == 0 then
      match max
      case None => TypeModifier.Option
      case Unbounded => TypeModifier.Array
      case Bounded(v) => if v > 1 then TypeModifier.Array else TypeModifier.None
    else if min == 1 then
      match max
      case None => TypeModifier.None
      case Unbounded => TypeModifier.Array
      case Bounded(v) => if v > 1 then TypeModifier.Array else TypeModifier.None
    else TypeModifier.Array
  }

  /** An explicit `maxOccurs="1"` (or `"0"`) on an optional group does not make it optional. */
  lemma BoundedOneIsNotOptional(v: nat)
    requires v <= 1
    ensures GroupModifier(0, MaxOccurs.Bounded(v)) == TypeModifier.None
  {
  }

  /** `parse_group`: a reference below anything but the schema becomes an alias; a global group a struct. */
  function ParseGroup(env: Env, node: XmlNode, parent: XmlNode): (r: Result<RsEntity, ParseError>)
    ensures parent.kind == ElementType.Schema ==> r == ParseGlobalGroup(env, node)
    ensures parent.kind != ElementType.Schema ==>
      (r.Success? <==> "ref" in node.attributes)
    ensures parent.kind != ElementType.Schema && r.Success? ==>
      var m := GroupModifier(env.minOccurs(node), env.maxOccurs(node));
      && r.value.AliasEntity?
      && r.value.alias.name == node.attributes["ref"]
      && r.value.alias.original == node.attributes["ref"]
      && r.value.alias.comment == env.getDocumentation(node)
      && r.value.alias.subtypes == []
      && (m == TypeModifier.None ==> r.value.alias.typeModifiers == [])
      && (m != TypeModifier.None ==> r.value.alias.typeModifiers == [m])
  {
    if parent.kind == ElementType.Schema then ParseGlobalGroup(env, node)
    else if "ref" !in node.attributes then Failure(MissingAttribute("ref"))
    else
      var reference := node.attributes["ref"];
      var modifier := GroupModifier(env.minOccurs(node), env.maxOccurs(node));
      var modifiers := if modifier != TypeModifier.None then [modifier] else [];
      Success(AliasEntity(Alias(reference, reference, env.getDocumentation(node), [], modifiers)))
  }

  /** `parse_global_group`: a named struct whose subtypes are the non-annotation element children. */
  function ParseGlobalGroup(env: Env, node: XmlNode): (r: Result<RsEntity, ParseError>)
    ensures r.Success? <==> "name" in node.attributes
    ensures r.Success? ==>
      var kids := ElementChildrenExcept(node, {ElementType.Annotation});
      && r.value.StructEntity?
      && r.value.st.name == node.attributes["name"]
      && r.value.st.comment == env.getDocumentation(node)
      && |r.value.st.subtypes| == |kids|
      && (forall i :: 0 <= i < |kids| ==> r.value.st.subtypes[i] == env.parseNode(kids[i], node))
      && r.value.st.fields == [] && r.value.st.attributeGroups == [] && r.value.st.groups == []
  {
    if "name" !in node.attributes then Failure(MissingAttribute("name"))
    else
      var kids := ElementChildrenExcept(node, {ElementType.Annotation});
      var subtypes := seq(|kids|, i requires 0 <= i < |kids| => env.parseNode(kids[i], node));
      Success(StructEntity(NamedStruct(node.attributes["name"]).(
        comment := env.getDocumentation(node), subtypes := subtypes)))
  }
}
