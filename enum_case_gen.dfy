/**
 * The enum-case emitter (xsd-parser/src/generator/enum_case.rs): the case's
 * declaration and the getter and assignment its enum's decode routine uses for it.
 */
module EnumCaseGen {
  import opened Wrappers
  import opened Strings
  import opened Types
  import opened Formatting
  import opened Decode

  /** The case's identifier: the last `::` piece of the formatted name. */
  function CaseName(fmt: Formatter, c: EnumCase): (r: string)
    ensures !HasInfix(r, "::")
  {
    var pieces := SplitOn(fmt.defaultFormatType(c.name), "::");
    SplitOnPiecesFree(fmt.defaultFormatType(c.name), "::");
    Last(pieces)
  }

  function CaseTypeName(fmt: Formatter, c: EnumCase): string
    requires c.typeName.Some?
  {
    fmt.modifyType(fmt.formatTypeName(c.typeName.value), c.typeModifiers)
  }

  /** A declared case: `{comment}{macros}{indent}{name}{payload},`, the payload being `(<type>)`. */
  datatype CaseDecl = CaseDecl(comment: string, macros: string, indent: string, name: string, payload: Option<string>)

  /** The case's declaration: a payload exactly when the case has a type name, and never any macros. */
  function GenerateCase(fmt: Formatter, c: EnumCase): (d: CaseDecl)
    ensures d.payload.Some? <==> c.typeName.Some?
    ensures c.typeName.Some? ==> d.payload == Some("(" + CaseTypeName(fmt, c) + ")")
    ensures d.macros == "" && d.name == CaseName(fmt, c)
  {
    CaseDecl(fmt.formatComment(c.comment, fmt.indentSize), "", fmt.indent, CaseName(fmt, c),
      if c.typeName.Some? then Some("(" + CaseTypeName(fmt, c) + ")") else Option.None)
  }

  /** The operation a modifier contributes to a typed case's getter. */
  function CaseOp(m: TypeModifier): Option<PopOp>
  {
    match m
    case Array => Some(PopChildren)
    case Option => Some(MaybePopChild)
    case Recursive => Some(PopChild)
    case _ => Option.None
  }

  function CaseOps(mods: seq<TypeModifier>): seq<PopOp>
  {
    if mods == [] then []
    else CaseOps(mods[..|mods| - 1]) + (if CaseOp(mods[|mods| - 1]).Some? then [CaseOp(mods[|mods| - 1]).value] else [])
  }

  /** Union cases and untyped cases compare the raw value instead of reading a type. */
  predicate ReadsValue(c: EnumCase)
  {
    c.source == EnumSource.Union || c.typeName.None?
  }

  /** The getter of a case attempt. */
  function CaseGetter(fmt: Formatter, c: EnumCase): Getter
  {
    if ReadsValue(c) then ValueIs(c.name)
    else if TypeModifier.Flatten in c.typeModifiers then Nested(CaseTypeName(fmt, c))
    else
      var ops := CaseOps(c.typeModifiers);
      Reads(Chain(if ops == [] then [PopChild] else ops, c.name))
  }

  /** `Self::Name(value)` for a typed case, the bare `Self::Name` otherwise. */
  function CaseAssign(fmt: Formatter, c: EnumCase): (a: Assign)
    ensures a.caseName == CaseName(fmt, c)
    ensures a.WithPayload? <==> c.typeName.Some?
  {
    if c.typeName.Some? then WithPayload(CaseName(fmt, c)) else Bare(CaseName(fmt, c))
  }

  lemma CaseOpsStep(mods: seq<TypeModifier>, i: nat, name: string)
    requires i < |mods|
    ensures var ops := CaseOps(mods[..i]);
      var o := CaseOp(mods[i]);
      Chain(CaseOps(mods[..i + 1]), name) ==
        Chain(ops, name) + (if o.Some? then [Read(if Chain(ops, name) == [] then Receiver.Cursor else Receiver.Previous, o.value, name)] else [])
    ensures TypeModifier.Flatten in mods[..i + 1] <==> TypeModifier.Flatten in mods[..i] || mods[i] == TypeModifier.Flatten
  {
    assert mods[..i + 1][..i] == mods[..i];
    assert mods[..i + 1] == mods[..i] + [mods[i]];
    var ops := CaseOps(mods[..i]);
    if CaseOp(mods[i]).Some? {
      ChainAppend(ops, CaseOp(mods[i]).value, name);
    } else {
      assert CaseOps(mods[..i + 1]) == ops;
    }
  }

  /** `deserialize`: the getter built over the modifiers with the `flatten` flag, and the assignment. */
  method CaseDeserialize(fmt: Formatter, c: EnumCase) returns (g: Getter, assign: Assign)
    ensures g == CaseGetter(fmt, c) && assign == CaseAssign(fmt, c)
  {
    if c.source == EnumSource.Union || c.typeName.None? {
      g := ValueIs(c.name);
    } else {
      var mods := c.typeModifiers;
      var getter: seq<Read> := [];
      var flatten := false;
      var i := 0;
      while i < |mods|
        invariant 0 <= i <= |mods|
        invariant getter == Chain(CaseOps(mods[..i]), c.name)
        invariant flatten == (TypeModifier.Flatten in mods[..i])
      {
        var receiver := if getter == [] then Receiver.Cursor else Receiver.Previous;
        var popFunc := CaseOp(mods[i]);
        if mods[i] == TypeModifier.Flatten {
          flatten := true;
        }
        CaseOpsStep(mods, i, c.name);
        if popFunc.Some? {
          getter := getter + [Read(receiver, popFunc.value, c.name)];
        }
        i := i + 1;
      }
      assert mods[..i] == mods;
      if flatten {
        g := Nested(CaseTypeName(fmt, c));
      } else {
        if getter == [] {
          getter := [Read(Receiver.Cursor, PopChild, c.name)];
        }
        g := Reads(getter);
      }
    }
    if c.typeName.Some? {
      assign := WithPayload(CaseName(fmt, c));
    } else {
      assign := Bare(CaseName(fmt, c));
    }
  }

  /** Array gives `pop_children`, Option `maybe_pop_child`, Recursive `pop_child`; all are child reads. */
  lemma {:induction false} CaseOpsAreChildReads(mods: seq<TypeModifier>)
    ensures forall k :: 0 <= k < |CaseOps(mods)| ==> CaseOps(mods)[k] in {PopChildren, MaybePopChild, PopChild}
    ensures CaseOps(mods) == [] <==> forall k :: 0 <= k < |mods| ==> mods[k] !in {TypeModifier.Array, TypeModifier.Option, TypeModifier.Recursive}
  {
    if mods != [] {
      var init := mods[..|mods| - 1];
      CaseOpsAreChildReads(init);
      assert forall k :: 0 <= k < |init| ==> init[k] == mods[k];
    }
  }

  /** A typed case with no operation-bearing modifier and no Flatten reads one child named after the case. */
  lemma DefaultPopChild(fmt: Formatter, c: EnumCase)
    requires !ReadsValue(c) && TypeModifier.Flatten !in c.typeModifiers
    requires forall k :: 0 <= k < |c.typeModifiers| ==> c.typeModifiers[k] in {TypeModifier.None, TypeModifier.Empty}
    ensures CaseGetter(fmt, c) == Reads([Read(Receiver.Cursor, PopChild, c.name)])
  {
    CaseOpsAreChildReads(c.typeModifiers);
  }

  /** A Flatten modifier anywhere replaces the reads by a nested decode of the case's type. */
  lemma FlattenDelegates<C, V>(rt: Runtime<C, V>, fmt: Formatter, c: EnumCase, popper: C)
    requires !ReadsValue(c) && TypeModifier.Flatten in c.typeModifiers
    ensures var (res, after) := rt.deserialize(CaseTypeName(fmt, c), popper);
      Attempt(rt, CaseGetter(fmt, c), popper) == (if res.Success? then Some(res.value) else Option.None, after)
  {
  }

  /**
   * A value-reading case succeeds exactly when the raw value equals the case's name
   * (not its `value`); the cursor moves past the value either way.
   */
  lemma ValueCaseMatchesName<C, V>(rt: Runtime<C, V>, fmt: Formatter, c: EnumCase, popper: C)
    requires ReadsValue(c)
    ensures var (v, after) := rt.popValue(popper);
      Attempt(rt, CaseGetter(fmt, c), popper).1 == after &&
      (Attempt(rt, CaseGetter(fmt, c), popper).0.Some? <==> v == Success(c.name)) &&
      (v == Success(c.name) ==> Attempt(rt, CaseGetter(fmt, c), popper).0 == Some(rt.ofText(c.name)))
  {
  }

  /** A case attempt never fails: a failing read becomes `None`, and the cursor it left is kept. */
  lemma ReadFailureIsNone<C, V>(rt: Runtime<C, V>, fmt: Formatter, c: EnumCase, popper: C)
    requires CaseGetter(fmt, c).Reads?
    ensures var (res, after) := RunReads(rt, CaseGetter(fmt, c).steps, popper, Option.None);
      Attempt(rt, CaseGetter(fmt, c), popper) == (if res.Success? then Some(res.value) else Option.None, after)
  {
  }
}
