/**
 * The struct emitter (xsd-parser/src/generator/struct.rs). The struct's field list is
 * the `RefCell` vector `fields` rewrites in place; here it is an array, and the rest
 * of the struct (name, comment, subtypes) is passed by value.
 */
module StructGen {
  import opened Wrappers
  import opened Strings
  import opened Types
  import opened Formatting
  import opened Decode
  import opened Scope
  import opened StructFieldGen

  /** A field with subtypes gets its type name qualified with the struct's module; others are kept. */
  function Qualify(fmt: Formatter, modName: string, f: StructField): (r: StructField)
    ensures r.name == f.name && r.comment == f.comment && r.subtypes == f.subtypes
    ensures r.source == f.source && r.typeModifiers == f.typeModifiers
    ensures f.subtypes == [] ==> r == f
    ensures f.subtypes != [] ==> r.typeName == modName + "::" + fmt.formatTypeName(f.typeName)
  {
    if f.subtypes != [] then f.(typeName := modName + "::" + fmt.formatTypeName(f.typeName)) else f
  }

  /** The rendered declarations, the empty ones (fields marked `Empty`) dropped. */
  function Rendered(fmt: Formatter, fs: seq<StructField>): (r: seq<string>)
    ensures forall i :: 0 <= i < |r| ==> r[i] != ""
    ensures r == [] <==> forall i :: 0 <= i < |fs| ==> TypeModifier.Empty in fs[i].typeModifiers
    ensures |r| <= |fs|
  {
    if fs == [] then []
    else
      var line := GenerateField(fmt, fs[0]);
      var rest := Rendered(fmt, fs[1..]);
      assert forall i :: 1 <= i < |fs| ==> fs[i] == fs[1..][i - 1];
      if line == "" then rest else [line] + rest
  }

  /** The body of the struct declaration: nothing when every field renders empty, else the declarations between newlines. */
  function FieldsText(fmt: Formatter, fs: seq<StructField>): (r: string)
    ensures r == "" <==> forall i :: 0 <= i < |fs| ==> TypeModifier.Empty in fs[i].typeModifiers
    ensures r != "" ==> r == "\n" + Join(Rendered(fmt, fs), "\n\n") + "\n"
  {
    var rendered := Rendered(fmt, fs);
    var joined := Join(rendered, "\n\n");
    JoinOfNonEmpty(rendered, "\n\n");
    if joined == "" then "" else "\n" + joined + "\n"
  }

  /**
   * `fields`: qualifies in place the type name of every field with subtypes, then
   * renders the field list from the rewritten fields.
   */
  method Fields(fmt: Formatter, structName: string, fields: array<StructField>) returns (text: string)
    modifies fields
    ensures forall i :: 0 <= i < fields.Length ==> fields[i] == Qualify(fmt, fmt.modName(structName), old(fields[i]))
    ensures text == FieldsText(fmt, fields[..])
  {
    var modName := fmt.modName(structName);
    var i := 0;
    while i < fields.Length
      invariant 0 <= i <= fields.Length
      invariant forall k :: 0 <= k < i ==> fields[k] == Qualify(fmt, modName, old(fields[k]))
      invariant forall k :: i <= k < fields.Length ==> fields[k] == old(fields[k])
    {
      var f := fields[i];
      if f.subtypes != [] {
        fields[i] := f.(typeName := modName + "::" + fmt.formatTypeName(f.typeName));
      }
      i := i + 1;
    }
    text := FieldsText(fmt, fields[..]);
  }

  /** One initialiser per field, in field order: the formatted field name and its getter. */
  function DecodePlan(fmt: Formatter, fs: seq<StructField>): (plan: seq<FieldInit>)
    ensures |plan| == |fs|
    ensures forall i :: 0 <= i < |fs| ==> plan[i] == FieldInit(fmt.formatName(fs[i].name), FieldGetter(fmt, fs[i]))
  {
    seq(|fs|, i requires 0 <= i < |fs| => FieldInit(fmt.formatName(fs[i].name), FieldGetter(fmt, fs[i])))
  }

  /** `deserialize`: the initialisers built one field at a time. */
  method Deserialize(fmt: Formatter, fs: seq<StructField>) returns (plan: seq<FieldInit>)
    ensures plan == DecodePlan(fmt, fs)
  {
    plan := [];
    var i := 0;
    while i < |fs|
      invariant 0 <= i <= |fs|
      invariant plan == DecodePlan(fmt, fs[..i])
    {
      var getter := FieldDeserialize(fmt, fs[i]);
      plan := plan + [FieldInit(fmt.formatName(fs[i].name), getter)];
      assert fs[..i + 1][..i] == fs[..i];
      i := i + 1;
    }
    assert fs[..i] == fs;
  }

  /** The parts of an emitted struct that the model keeps. */
  datatype StructDecl = StructDecl(name: string, fields: string, plan: seq<FieldInit>, subtypes: SubtypeScope)

  function FieldSubtypes(fs: seq<StructField>): (r: seq<seq<RsEntity>>)
    ensures |r| == |fs| && forall i :: 0 <= i < |fs| ==> r[i] == fs[i].subtypes
  {
    seq(|fs|, i requires 0 <= i < |fs| => fs[i].subtypes)
  }

  /**
   * `generate`: `fields` runs first, so the subtype scope and the decode plan are built
   * from the qualified fields.
   */
  method Generate(fmt: Formatter, name: string, subtypes: seq<RsEntity>, fields: array<StructField>) returns (d: StructDecl)
    modifies fields
    ensures forall i :: 0 <= i < fields.Length ==> fields[i] == Qualify(fmt, fmt.modName(name), old(fields[i]))
    ensures d.name == fmt.formatTypeName(name)
    ensures d.fields == FieldsText(fmt, fields[..])
    ensures d.plan == DecodePlan(fmt, fields[..])
    ensures d.subtypes == Subtypes(fmt, fmt.modName(name), subtypes, FieldSubtypes(fields[..]))
  {
    var text := Fields(fmt, name, fields);
    var scope := Subtypes(fmt, fmt.modName(name), subtypes, FieldSubtypes(fields[..]));
    var plan := Deserialize(fmt, fields[..]);
    d := StructDecl(fmt.formatTypeName(name), text, plan, scope);
  }

  /**
   * The decode routine of a struct: a failure at any field leaves the caller's cursor
   * as it was; a success gives one value per field, in field order, and commits the
   * cursor where the last field left it.
   */
  lemma StructDecodeCommit<C, V>(rt: Runtime<C, V>, fmt: Formatter, fs: seq<StructField>, outer: C)
    ensures var (res, after) := RunStruct(rt, DecodePlan(fmt, fs), outer);
      (res.Failure? ==> after == outer) &&
      (res.Success? ==>
        && |res.value| == |fs|
        && after == RunFields(rt, DecodePlan(fmt, fs), rt.recursiveClone(outer)).1
        && forall i :: 0 <= i < |fs| ==> res.value[i].0 == fmt.formatName(fs[i].name))
  {
  }

  /** The fields are decoded one after the other: the first error is the routine's error. */
  lemma {:induction false} FirstFieldErrorWins<C, V>(rt: Runtime<C, V>, plan: seq<FieldInit>, c: C, k: nat)
    requires k < |plan|
    requires forall j :: 0 <= j < k ==> RunField(rt, plan[j].getter, FieldCursor(rt, plan, c, j)).0.Success?
    requires RunField(rt, plan[k].getter, FieldCursor(rt, plan, c, k)).0.Failure?
    ensures RunFields(rt, plan, c).0 == Failure(RunField(rt, plan[k].getter, FieldCursor(rt, plan, c, k)).0.error)
  {
    if k > 0 {
      var c2 := RunField(rt, plan[0].getter, c).1;
      assert RunField(rt, plan[0].getter, FieldCursor(rt, plan, c, 0)).0.Success?;
      forall j | 0 <= j < k - 1
        ensures RunField(rt, plan[1..][j].getter, FieldCursor(rt, plan[1..], c2, j)).0.Success?
      {
        assert plan[1..][j] == plan[j + 1];
        assert FieldCursor(rt, plan, c, j + 1) == FieldCursor(rt, plan[1..], c2, j);
      }
      assert plan[1..][k - 1] == plan[k];
      assert FieldCursor(rt, plan, c, k) == FieldCursor(rt, plan[1..], c2, k - 1);
      FirstFieldErrorWins(rt, plan[1..], c2, k - 1);
    }
  }

  /** The cursor the k-th field starts from when all fields before it succeed. */
  function FieldCursor<C, V>(rt: Runtime<C, V>, plan: seq<FieldInit>, c: C, k: nat): C
    requires k <= |plan|
  {
    if k == 0 then c else FieldCursor(rt, plan[1..], RunField(rt, plan[0].getter, c).1, k - 1)
  }

  /** An identity formatter: module and type names pass through unchanged. */
  function Plain(): Formatter
  {
    Formatter((s: string) => s, (s: string, m: seq<TypeModifier>) => s, (s: string) => s,
      (c: Option<string>, n: nat) => "", "    ", 4, (s: string) => s, (s: string) => s, (es: seq<RsEntity>) => "")
  }

  /** Qualifying twice qualifies twice: for any field with subtypes, `fields` is not idempotent. */
  lemma QualifyNotIdempotent(modName: string, f: StructField)
    requires f.subtypes != []
    ensures var once := Qualify(Plain(), modName, f);
      && once.typeName == modName + "::" + f.typeName
      && Qualify(Plain(), modName, once).typeName == modName + "::" + once.typeName
      && Qualify(Plain(), modName, once) != once
  {
    var once := Qualify(Plain(), modName, f);
    assert |Qualify(Plain(), modName, once).typeName| > |once.typeName|;
  }
}
