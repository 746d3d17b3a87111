/**
 * The struct-field emitter (xsd-parser/src/generator/struct_field.rs): the field's
 * declaration line and the getter its struct's decode routine uses for it.
 */
module StructFieldGen {
  import opened Wrappers
  import opened Types
  import opened Formatting
  import opened Decode

  /** The declared type: the formatted type name wrapped by the field's modifiers. */
  function FieldTypeName(fmt: Formatter, f: StructField): string
  {
    fmt.modifyType(fmt.formatTypeName(f.typeName), f.typeModifiers)
  }

  /** The declaration line; a field marked `Empty` renders to nothing. The attribute macros are always empty. */
  function GenerateField(fmt: Formatter, f: StructField): (r: string)
    ensures r == "" <==> TypeModifier.Empty in f.typeModifiers
  {
    if TypeModifier.Empty in f.typeModifiers then ""
    else fmt.formatComment(f.comment, fmt.indentSize) + "" + fmt.indent + "pub " + fmt.formatName(f.name) + ": " + FieldTypeName(fmt, f) + ","
  }

  predicate IsAttributeOp(op: PopOp)
  {
    op == PopAttribute || op == PopAttributes || op == MaybePopAttribute
  }

  /** The cursor operation one modifier contributes. */
  function ModifierOp(m: TypeModifier, attribute: bool): Option<PopOp>
  {
    match m
    case Array => Some(if attribute then PopAttributes else PopChildren)
    case Option => Some(if attribute then MaybePopAttribute else MaybePopChild)
    case _ => Option.None
  }

  function OpList(o: Option<PopOp>): seq<PopOp>
  {
    if o.Some? then [o.value] else []
  }

  /** The operations the modifiers contribute, in modifier order. */
  function ModifierOps(mods: seq<TypeModifier>, attribute: bool): seq<PopOp>
  {
    if mods == [] then []
    else ModifierOps(mods[..|mods| - 1], attribute) + OpList(ModifierOp(mods[|mods| - 1], attribute))
  }

  /** The operations of the getter: the modifiers' ones, or the one default operation. */
  function FieldOps(f: StructField): seq<PopOp>
  {
    var attribute := f.source == StructFieldSource.Attribute;
    var ops := ModifierOps(f.typeModifiers, attribute);
    if ops == [] then [if attribute then PopAttribute else PopChild] else ops
  }

  predicate Flattens(f: StructField)
  {
    f.source == StructFieldSource.Choice || f.source == StructFieldSource.Sequence || TypeModifier.Flatten in f.typeModifiers
  }

  /** The getter the decode routine runs for the field. */
  function FieldGetter(fmt: Formatter, f: StructField): Getter
  {
    if Flattens(f) then Nested(FieldTypeName(fmt, f)) else Reads(Chain(FieldOps(f), f.name))
  }

  /** `deserialize`: a pass over the modifiers building the getter and the `flatten` flag. */
  method FieldDeserialize(fmt: Formatter, f: StructField) returns (g: Getter)
    ensures g == FieldGetter(fmt, f)
  {
    var mods := f.typeModifiers;
    var flatten := f.source == StructFieldSource.Choice || f.source == StructFieldSource.Sequence;
    var attribute := f.source == StructFieldSource.Attribute;
    var getter: seq<Read> := [];
    var i := 0;
    while i < |mods|
      invariant 0 <= i <= |mods|
      invariant getter == Chain(ModifierOps(mods[..i], attribute), f.name)
      invariant flatten == (f.source == StructFieldSource.Choice || f.source == StructFieldSource.Sequence || TypeModifier.Flatten in mods[..i])
    {
      var receiver := if getter == [] then Receiver.Cursor else Receiver.Previous;
      var popFunc := ModifierOp(mods[i], attribute);
      if mods[i] == TypeModifier.Flatten {
        flatten := true;
      }
      ModifierOpsStep(mods, i, attribute, f.name);
      if popFunc.Some? {
        getter := getter + [Read(receiver, popFunc.value, f.name)];
      }
      i := i + 1;
    }
    assert mods[..i] == mods;
    if getter == [] {
      getter := [Read(Receiver.Cursor, if attribute then PopAttribute else PopChild, f.name)];
    }
    if flatten {
      g := Nested(FieldTypeName(fmt, f));
    } else {
      g := Reads(getter);
    }
  }

  /** One more modifier extends the chain by the read it contributes. */
  lemma ModifierOpsStep(mods: seq<TypeModifier>, i: nat, attribute: bool, name: string)
    requires i < |mods|
    ensures var ops := ModifierOps(mods[..i], attribute);
      var o := ModifierOp(mods[i], attribute);
      Chain(ModifierOps(mods[..i + 1], attribute), name) ==
        Chain(ops, name) + (if o.Some? then [Read(if Chain(ops, name) == [] then Receiver.Cursor else Receiver.Previous, o.value, name)] else [])
    ensures TypeModifier.Flatten in mods[..i + 1] <==> TypeModifier.Flatten in mods[..i] || mods[i] == TypeModifier.Flatten
  {
    assert mods[..i + 1][..i] == mods[..i];
    assert mods[..i + 1] == mods[..i] + [mods[i]];
    ChainAppendOpt(ModifierOps(mods[..i], attribute), ModifierOp(mods[i], attribute), name);
  }

  lemma ChainAppendOpt(ops: seq<PopOp>, o: Option<PopOp>, name: string)
    ensures Chain(ops + OpList(o), name) ==
      Chain(ops, name) + (if o.Some? then [Read(if ops == [] then Receiver.Cursor else Receiver.Previous, o.value, name)] else [])
  {
    if o.Some? {
      ChainAppend(ops, o.value, name);
    } else {
      assert ops + OpList(o) == ops;
    }
  }

  /** Every modifier operation is of the attribute family exactly when the field is an attribute. */
  lemma {:induction false} ModifierOpsFamily(mods: seq<TypeModifier>, attribute: bool)
    ensures forall k :: 0 <= k < |ModifierOps(mods, attribute)| ==> (IsAttributeOp(ModifierOps(mods, attribute)[k]) <==> attribute)
  {
    if mods != [] {
      ModifierOpsFamily(mods[..|mods| - 1], attribute);
    }
  }

  /** Array and Option modifiers contribute an operation each; Recursive, None, Empty and Flatten none. */
  lemma {:induction false} ModifierOpsCount(mods: seq<TypeModifier>, attribute: bool)
    ensures ModifierOps(mods, attribute) == [] <==> forall k :: 0 <= k < |mods| ==> mods[k] !in {TypeModifier.Array, TypeModifier.Option}
    ensures |ModifierOps(mods, attribute)| <= |mods|
  {
    if mods != [] {
      var init := mods[..|mods| - 1];
      ModifierOpsCount(init, attribute);
      assert forall k :: 0 <= k < |init| ==> init[k] == mods[k];
    }
  }

  /** Attribute-family operations are used iff the field is sourced from an attribute. */
  lemma FieldOpsFamily(f: StructField)
    ensures |FieldOps(f)| >= 1
    ensures forall k :: 0 <= k < |FieldOps(f)| ==> (IsAttributeOp(FieldOps(f)[k]) <==> f.source == StructFieldSource.Attribute)
  {
    ModifierOpsFamily(f.typeModifiers, f.source == StructFieldSource.Attribute);
  }

  /** Without an Array or Option modifier the getter is the single default read of the field. */
  lemma DefaultRead(fmt: Formatter, f: StructField)
    requires !Flattens(f)
    requires forall k :: 0 <= k < |f.typeModifiers| ==> f.typeModifiers[k] !in {TypeModifier.Array, TypeModifier.Option}
    ensures FieldGetter(fmt, f) ==
      Reads([Read(Receiver.Cursor, if f.source == StructFieldSource.Attribute then PopAttribute else PopChild, f.name)])
  {
    ModifierOpsCount(f.typeModifiers, f.source == StructFieldSource.Attribute);
  }

  /** A modifier list of Recursive, None and Empty markers reads exactly like the empty one. */
  lemma {:induction false} NoOpModifiers(mods: seq<TypeModifier>, attribute: bool)
    requires forall k :: 0 <= k < |mods| ==> mods[k] in {TypeModifier.Recursive, TypeModifier.None, TypeModifier.Empty}
    ensures ModifierOps(mods, attribute) == []
  {
    ModifierOpsCount(mods, attribute);
  }

  /**
   * A flattened field runs the nested decode on a clone of the cursor: an error leaves
   * the cursor as it was, a success moves it to where the nested decode stopped.
   */
  lemma FlattenCommitsOnSuccess<C, V>(rt: Runtime<C, V>, fmt: Formatter, f: StructField, c: C)
    requires Flattens(f)
    ensures var (res, after) := RunField(rt, FieldGetter(fmt, f), c);
      (res.Failure? ==> after == c) && (res.Success? ==> (res, after) == rt.deserialize(FieldTypeName(fmt, f), c))
  {
  }

  /** Every read of an unflattened field names the field; only the first is on the cursor. */
  lemma ReadsNameTheField(fmt: Formatter, f: StructField)
    requires !Flattens(f)
    ensures FieldGetter(fmt, f).Reads?
    ensures var steps := FieldGetter(fmt, f).steps;
      |steps| >= 1 && steps[0].receiver == Receiver.Cursor &&
      forall k :: 0 <= k < |steps| ==> steps[k].name == f.name && (k > 0 ==> steps[k].receiver == Receiver.Previous)
  {
  }
}
