/** `xs:choice` (xsd-parser/src/parser/choice.rs). */
module Choice {
  import opened Wrappers
  import opened Strings
  import opened Types
  import opened Xml

  const StringType: string := "std::string::String"
  const StructVariant: nat := 0

  /** The children that become cases: `xs:element` and `xs:sequence` elements, in document order. */
  function CaseChildren(choice: XmlNode): seq<XmlNode>
  {
    ElementChildrenOf(choice, {ElementType.Element, ElementType.Sequence})
  }

  function ParsedChildren(env: Env, choice: XmlNode): (r: seq<RsEntity>)
    ensures |r| == |CaseChildren(choice)|
  {
    var kids := CaseChildren(choice);
    seq(|kids|, i requires 0 <= i < |kids| => env.parseNode(kids[i], choice))
  }

  /** The name of a struct case after `count` earlier struct cases. */
  function CaseStructName(name: string, count: nat): string
  {
    if count > 0 then name + NatToString(count) else name
  }

  /** The case a parsed child becomes when `count` struct children precede it; None for a variant that is not allowed. */
  function ChoiceCase(e: RsEntity, count: nat): (r: Option<EnumCase>)
    ensures r.Some? <==> e.EnumCaseEntity? || e.StructEntity?
    ensures e.EnumCaseEntity? ==> r == Some(e.enumCase)
    ensures e.StructEntity? ==>
      var name := CaseStructName(e.st.name, count);
      && r.value.name == name
      && r.value.typeName == Some(name)
      && r.value.source == EnumSource.Choice
      && r.value.typeModifiers == []
      && r.value.subtypes == [StructEntity(e.st.(name := name))]
  {
    match e
    case EnumCaseEntity(c) => Some(c)
    case StructEntity(st) =>
      var name := CaseStructName(st.name, count);
      Some(EnumCase(name, Option.None, "", Some(name), [], EnumSource.Choice, [StructEntity(st.(name := name))]))
    case _ => Option.None
  }

  predicate AllowedCases(results: seq<RsEntity>)
  {
    forall i :: 0 <= i < |results| ==> results[i].EnumCaseEntity? || results[i].StructEntity?
  }

  /** The map closure of `parse_choice`: the case for one parsed child, bumping the captured struct counter. */
  method CaseOf(e: RsEntity, subTypeCount: nat) returns (c: Option<EnumCase>, count: nat)
    ensures c.Some? <==> e.EnumCaseEntity? || e.StructEntity?
    ensures c == ChoiceCase(e, subTypeCount)
    ensures count == subTypeCount + (if Variant(e) == StructVariant then 1 else 0)
  {
    count := subTypeCount;
    match e {
      case EnumCaseEntity(passed) =>
        c := Some(passed);
      case StructEntity(st) =>
        var name := if count > 0 then st.name + NatToString(count) else st.name;
        count := count + 1;
        var renamed := st.(name := name);
        c := Some(EnumCase(renamed.name, Option.None, "", Some(renamed.name), [], EnumSource.Choice, [StructEntity(renamed)]));
      case _ =>
        c := Option.None;
    }
  }

  /** Each case so far is what its child becomes, given the struct children before it. */
  predicate CasesMatch(results: seq<RsEntity>, cases: seq<EnumCase>)
  {
    && |cases| <= |results|
    && forall j :: 0 <= j < |cases| ==> CaseAt(results, j, cases[j])
  }

  /** Child `j` becomes case `c`, given the struct children before it. */
  predicate CaseAt(results: seq<RsEntity>, j: nat, c: EnumCase)
    requires j < |results|
  {
    ChoiceCase(results[j], CountBefore(results, j, StructVariant)) == Some(c)
  }

  lemma CasesMatchExtend(results: seq<RsEntity>, cases: seq<EnumCase>, c: EnumCase)
    requires CasesMatch(results, cases) && |cases| < |results|
    requires ChoiceCase(results[|cases|], CountBefore(results, |cases|, StructVariant)) == Some(c)
    ensures CasesMatch(results, cases + [c])
  {
    var next := cases + [c];
    forall j | 0 <= j < |next|
      ensures CaseAt(results, j, next[j])
    {
      if j < |cases| {
        assert next[j] == cases[j];
      }
    }
  }

  /** The loop of `parse_choice` after `i` children: their cases, and the struct count among them. */
  predicate Progress(results: seq<RsEntity>, i: nat, cases: seq<EnumCase>, subTypeCount: nat)
    requires i <= |results|
  {
    && |cases| == i
    && subTypeCount == CountBefore(results, i, StructVariant)
    && (forall j :: 0 <= j < i ==> results[j].EnumCaseEntity? || results[j].StructEntity?)
    && CasesMatch(results, cases)
  }

  lemma ProgressStep(results: seq<RsEntity>, i: nat, cases: seq<EnumCase>, subTypeCount: nat, c: EnumCase)
    requires i < |results| && Progress(results, i, cases, subTypeCount)
    requires ChoiceCase(results[i], subTypeCount) == Some(c)
    ensures Progress(results, i + 1, cases + [c], subTypeCount + (if Variant(results[i]) == StructVariant then 1 else 0))
  {
    CasesMatchExtend(results, cases, c);
  }

  /**
   * `parse_choice`: one case per child in order, struct children renamed with the
   * number of struct children before them; any other parse result is fatal.
   */
  method ParseChoice(env: Env, choice: XmlNode) returns (r: Result<RsEntity, ParseError>)
    ensures r.Success? <==> AllowedCases(ParsedChildren(env, choice))
    ensures r.Success? ==>
      var results := ParsedChildren(env, choice);
      && r.value.EnumEntity?
      && r.value.en.name == "" && r.value.en.comment == Option.None
      && r.value.en.typeName == StringType && r.value.en.source == EnumSource.Choice
      && r.value.en.subtypes == [] && r.value.en.typeModifiers == []
      && |r.value.en.cases| == |results|
      && CasesMatch(results, r.value.en.cases)
  {
    var kids := CaseChildren(choice);
    ghost var results := ParsedChildren(env, choice);
    var cases: seq<EnumCase> := [];
    var subTypeCount: nat := 0;
    var i := 0;
    while i < |kids|
      invariant 0 <= i <= |kids| == |results|
      invariant Progress(results, i, cases, subTypeCount)
    {
      var e := env.parseNode(kids[i], choice);
      assert e == results[i];
      var c;
      ghost var before := subTypeCount;
      c, subTypeCount := CaseOf(e, subTypeCount);
      if c.None? {
        return Failure(UnexpectedEntity("Elements in choice must be a enum variants"));
      }
      ProgressStep(results, i, cases, before, c.value);
      cases := cases + [c.value];
      i := i + 1;
    }
    r := Success(EnumEntity(Enum("", cases, Option.None, StringType, [], [], EnumSource.Choice)));
  }

  /** The first struct child keeps its name; a later one gets the count of struct children before it (at least 1). */
  lemma StructCaseNaming(results: seq<RsEntity>, i: nat)
    requires i < |results| && results[i].StructEntity?
    ensures
      var k := CountBefore(results, i, StructVariant);
      var c := ChoiceCase(results[i], k).value;
      && (k == 0 ==> c.name == results[i].st.name)
      && (k > 0 ==> c.name == results[i].st.name + NatToString(k))
      && (forall j :: 0 <= j < i && results[j].StructEntity? ==> k > 0)
  {
    forall j | 0 <= j < i && results[j].StructEntity?
      ensures CountBefore(results, i, StructVariant) > 0
    {
      CountBeforeStrict(results, j, i, StructVariant);
    }
  }

  /** Struct children at different positions get different counters, so their suffixes differ. */
  lemma StructCountersDistinct(results: seq<RsEntity>, i: nat, j: nat)
    requires i < j < |results| && results[i].StructEntity? && results[j].StructEntity?
    ensures CountBefore(results, i, StructVariant) != CountBefore(results, j, StructVariant)
  {
    CountBeforeStrict(results, i, j, StructVariant);
  }
}
