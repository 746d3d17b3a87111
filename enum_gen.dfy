/**
 * The enum emitter (xsd-parser/src/generator/enum.rs): the declaration, its
 * `Default`/`Display`/`FromStr` choices, the decode routine's attempts and match arms,
 * and the subtype scope.
 */
module EnumGen {
  import opened Wrappers
  import opened Types
  import opened Formatting
  import opened Decode
  import opened Scope
  import opened EnumCaseGen

  /** A typed case with subtypes gets its type name qualified with the enum's module; any other case is kept. */
  function QualifyCase(fmt: Formatter, modName: string, c: EnumCase): (r: EnumCase)
    ensures r.name == c.name && r.comment == c.comment && r.value == c.value
    ensures r.typeModifiers == c.typeModifiers && r.source == c.source && r.subtypes == c.subtypes
    ensures r.typeName.Some? <==> c.typeName.Some?
    ensures c.typeName.Some? && c.subtypes != [] ==> r.typeName == Some(modName + "::" + fmt.formatTypeName(c.typeName.value))
    ensures c.typeName.None? || c.subtypes == [] ==> r == c
  {
    if c.typeName.Some? && c.subtypes != [] then c.(typeName := Some(modName + "::" + fmt.formatTypeName(c.typeName.value))) else c
  }

  function ModName(fmt: Formatter, en: Enum): string
  {
    fmt.modName(en.name)
  }

  /** `cases`: the declarations of the qualified cases, in order. */
  function Cases(fmt: Formatter, en: Enum): (r: seq<CaseDecl>)
    ensures |r| == |en.cases|
    ensures forall i :: 0 <= i < |r| ==> r[i] == GenerateCase(fmt, QualifyCase(fmt, ModName(fmt, en), en.cases[i]))
  {
    seq(|en.cases|, i requires 0 <= i < |en.cases| => GenerateCase(fmt, QualifyCase(fmt, ModName(fmt, en), en.cases[i])))
  }

  /** The getter of every case attempt, the case qualified first. */
  function Getters(fmt: Formatter, en: Enum): (r: seq<Getter>)
    ensures |r| == |en.cases|
    ensures forall i :: 0 <= i < |r| ==> r[i] == CaseGetter(fmt, QualifyCase(fmt, ModName(fmt, en), en.cases[i]))
  {
    seq(|en.cases|, i requires 0 <= i < |en.cases| => CaseGetter(fmt, QualifyCase(fmt, ModName(fmt, en), en.cases[i])))
  }

  /** Arm i: `Some(value)` at position i and `None` at the others, then the case's assignment. */
  function Arms(fmt: Formatter, en: Enum): (r: seq<Arm>)
    ensures |r| == |en.cases| && OneHotArms(r)
    ensures forall i :: 0 <= i < |r| ==> r[i].assign == CaseAssign(fmt, QualifyCase(fmt, ModName(fmt, en), en.cases[i]))
  {
    seq(|en.cases|, i requires 0 <= i < |en.cases| =>
      Arm(OneHot(i, |en.cases|), CaseAssign(fmt, QualifyCase(fmt, ModName(fmt, en), en.cases[i]))))
  }

  function Fallback(en: Enum): string
  {
    "Found multiple possible matches " + en.name
  }

  function DecodePlan(fmt: Formatter, en: Enum): EnumPlan
  {
    EnumPlan(Getters(fmt, en), Arms(fmt, en), Fallback(en))
  }

  /** The pattern tuple of case `index` among `n`, built one position at a time. */
  method Pattern(index: nat, n: nat) returns (p: seq<bool>)
    ensures p == OneHot(index, n)
  {
    p := [];
    for i := 0 to n
      invariant |p| == i && forall j :: 0 <= j < i ==> (p[j] <==> j == index)
    {
      if i == index {
        p := p + [true];
      } else {
        p := p + [false];
      }
    }
  }

  /** The body of `deserialize`'s loop for case `index`: its attempt and its arm. */
  method CaseStep(fmt: Formatter, en: Enum, modName: string, index: nat) returns (getter: Getter, arm: Arm)
    requires index < |en.cases| && modName == ModName(fmt, en)
    ensures getter == Getters(fmt, en)[index] && arm == Arms(fmt, en)[index]
  {
    var c := en.cases[index];
    if c.typeName.Some? && c.subtypes != [] {
      c := c.(typeName := Some(modName + "::" + fmt.formatTypeName(c.typeName.value)));
    }
    var caseDe, caseAssign := CaseDeserialize(fmt, c);
    getter := caseDe;
    var pattern := Pattern(index, |en.cases|);
    arm := Arm(pattern, caseAssign);
  }

  /** `deserialize`: one attempt and one arm per case, in case order, then the fallback. */
  method Deserialize(fmt: Formatter, en: Enum) returns (plan: EnumPlan)
    ensures plan == DecodePlan(fmt, en)
  {
    var modName := fmt.modName(en.name);
    var getters: seq<Getter> := [];
    var arms: seq<Arm> := [];
    for index := 0 to |en.cases|
      invariant getters == Getters(fmt, en)[..index]
      invariant arms == Arms(fmt, en)[..index]
    {
      var getter, arm := CaseStep(fmt, en, modName, index);
      assert Getters(fmt, en)[..index + 1] == Getters(fmt, en)[..index] + [getter];
      assert Arms(fmt, en)[..index + 1] == Arms(fmt, en)[..index] + [arm];
      getters := getters + [getter];
      arms := arms + [arm];
    }
    assert Getters(fmt, en)[..|en.cases|] == Getters(fmt, en);
    assert Arms(fmt, en)[..|en.cases|] == Arms(fmt, en);
    plan := EnumPlan(getters, arms, Fallback(en));
  }

  /** The loop of `generate` that clears `easy_display` at the first typed case and stops. */
  method EasyDisplay(cases: seq<EnumCase>) returns (easy: bool)
    ensures easy <==> forall i :: 0 <= i < |cases| ==> cases[i].typeName.None?
  {
    easy := true;
    var i := 0;
    while i < |cases|
      invariant 0 <= i <= |cases|
      invariant easy && forall k :: 0 <= k < i ==> cases[k].typeName.None?
    {
      if cases[i].typeName.Some? {
        easy := false;
        break;
      }
      i := i + 1;
    }
  }

  function CaseSubtypes(cases: seq<EnumCase>): (r: seq<seq<RsEntity>>)
    ensures |r| == |cases| && forall i :: 0 <= i < |cases| ==> r[i] == cases[i].subtypes
  {
    seq(|cases|, i requires 0 <= i < |cases| => cases[i].subtypes)
  }

  /** The parts of an emitted enum that the model keeps. */
  datatype EnumDecl = EnumDecl(
    name: string,
    cases: seq<CaseDecl>,
    unknown: CaseDecl,
    defaultCase: string,
    display: bool,
    fromStr: bool,
    plan: EnumPlan,
    subtypes: SubtypeScope)

  const Unknown: string := "__Unknown__"

  /**
   * `generate`: the declared cases end with `__Unknown__(<type>)`, the default is
   * `__Unknown__`, `Display` is emitted only for an enum of untyped cases and `FromStr` never.
   */
  method Generate(fmt: Formatter, en: Enum) returns (d: EnumDecl)
    ensures d.name == fmt.formatTypeName(en.name)
    ensures d.unknown.name == Unknown && d.unknown.payload == Some("(" + fmt.formatTypeName(en.typeName) + ")")
    ensures d.defaultCase == Unknown
    ensures d.display <==> forall i :: 0 <= i < |en.cases| ==> en.cases[i].typeName.None?
    ensures !d.fromStr
    ensures d.cases == Cases(fmt, en)
    ensures d.plan == DecodePlan(fmt, en)
    ensures d.subtypes == Subtypes(fmt, ModName(fmt, en), en.subtypes, CaseSubtypes(en.cases))
  {
    var name := fmt.formatTypeName(en.name);
    var easy := EasyDisplay(en.cases);
    var display := easy;
    var fromStr := easy && false;
    var unknown := CaseDecl("", "", fmt.indent, Unknown, Some("(" + fmt.formatTypeName(en.typeName) + ")"));
    var scope := Subtypes(fmt, fmt.modName(en.name), en.subtypes, CaseSubtypes(en.cases));
    var plan := Deserialize(fmt, en);
    d := EnumDecl(name, Cases(fmt, en), unknown, Unknown, display, fromStr, plan, scope);
  }

  /**
   * The decode routine of an enum succeeds exactly when one case attempt alone succeeds,
   * and then yields that case with that attempt's value and commits the cursor the
   * attempts left; with no or several successes it fails with the fallback message and
   * leaves the caller's cursor as it was.
   */
  lemma EnumDecodeUnique<C, V>(rt: Runtime<C, V>, fmt: Formatter, en: Enum, outer: C)
    ensures var (results, popper) := Attempts(rt, Getters(fmt, en), rt.recursiveClone(outer));
      var (res, after) := RunEnum(rt, DecodePlan(fmt, en), outer);
      && (res.Success? <==> CountSome(results) == 1)
      && (res.Failure? ==> res.error == Failed(Fallback(en)) && after == outer)
      && (res.Success? ==> after == popper)
      && (res.Success? ==>
            forall i :: 0 <= i < |en.cases| && results[i].Some? ==>
              var c := QualifyCase(fmt, ModName(fmt, en), en.cases[i]);
              res.value == EnumValue(CaseName(fmt, c), if c.typeName.Some? then results[i] else Option.None))
  {
    var plan := DecodePlan(fmt, en);
    var (results, popper) := Attempts(rt, plan.getters, rt.recursiveClone(outer));
    OneHotSelect(plan.arms, results);
    var sel := SelectArm(plan.arms, results);
    if sel.Some? {
      var i := sel.value;
      OneHotBuild(plan.arms, results, i);
      var c := QualifyCase(fmt, ModName(fmt, en), en.cases[i]);
      assert RunEnum(rt, plan, outer).0.value == EnumValue(CaseName(fmt, c), if c.typeName.Some? then results[i] else Option.None);
    }
  }
}
