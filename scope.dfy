/**
 * The subtype scope shared by the struct and enum emitters
 * (xsd-parser/src/generator/struct.rs `subtypes`/`shift`, and the same code in enum.rs):
 * nested types are emitted inside a `pub mod` only when there are any.
 */
module Scope {
  import opened Strings
  import opened Types
  import opened Formatting

  function ShiftLine(s: string, indent: string): string
  {
    if s != "" then "\n" + indent + s else "\n"
  }

  /** `.map(ShiftLine).fold(acc, |acc, x| acc + &x)` with the accumulator left out. */
  function ShiftLines(lines: seq<string>, indent: string): string
  {
    if lines == [] then "" else ShiftLine(lines[0], indent) + ShiftLines(lines[1..], indent)
  }

  /**
   * `shift`: collapse each `"\n\n\n"` of one left-to-right pass to `"\n"`, then put
   * every line after a newline, non-empty lines after the indent as well, all after a leading indent.
   */
  function Shift(text: string, indent: string): (r: string)
    ensures |r| >= |indent| && r[..|indent|] == indent
  {
    indent + ShiftLines(Split(Replace(text, "\n\n\n", "\n"), '\n'), indent)
  }

  /** A text without a triple newline is shifted line by line, as it stands. */
  lemma ShiftWithoutTriple(text: string, indent: string)
    requires !HasInfix(text, "\n\n\n")
    ensures Shift(text, indent) == indent + ShiftLines(Split(text, '\n'), indent)
  {
    ReplaceAbsent(text, "\n\n\n", "\n");
  }

  /** One non-empty line becomes the indent, a newline, the indent and the line. */
  lemma ShiftOneLine(line: string, indent: string)
    requires line != "" && '\n' !in line
    ensures Shift(line, indent) == indent + "\n" + indent + line
  {
    forall k | 0 <= k <= |line|
      ensures !InfixAt(line, "\n\n\n", k)
    {
      if k + 3 <= |line| {
        assert line[k..k + 3][0] == line[k];
      }
    }
    ShiftWithoutTriple(line, indent);
    SplitWithoutSeparator(line, '\n');
    assert Split(line, '\n')[1..] == [];
  }

  /** Shifting no text gives the indent and one newline. */
  lemma ShiftNothing(indent: string)
    ensures Shift("", indent) == indent + "\n"
  {
    assert Replace("", "\n\n\n", "\n") == "";
    assert Split("", '\n') == [""];
    assert [""][1..] == [];
    assert ShiftLines([""], indent) == "\n";
  }

  /** The collapse is a single pass: five newlines still leave a triple newline behind. */
  lemma CollapseIsSinglePass()
    ensures Replace("\n\n\n\n\n", "\n\n\n", "\n") == "\n\n\n"
  {
    var five := "\n\n\n\n\n";
    assert five[..3] == "\n\n\n";
    assert five[3..] == "\n\n";
    assert Replace("\n\n", "\n\n\n", "\n") == "\n\n";
  }

  /** Emitted subtypes: wrapped in `pub mod <mod> { use super::*; .. }`, or, when there are none, inline. */
  datatype SubtypeScope =
    | PubMod(modName: string, own: string, nested: string)
    | Inline(text: string)

  /** The members' subtypes rendered one after another, in member order. */
  function MemberText(fmt: Formatter, members: seq<seq<RsEntity>>): string
  {
    if members == [] then "" else fmt.joinSubtypes(members[0]) + MemberText(fmt, members[1..])
  }

  lemma {:induction false} RenderedText(fmt: Formatter, members: seq<seq<RsEntity>>, rendered: seq<string>)
    requires |rendered| == |members| && forall i :: 0 <= i < |members| ==> rendered[i] == fmt.joinSubtypes(members[i])
    ensures Join(rendered, "") == MemberText(fmt, members)
  {
    if |members| == 1 {
      assert members[1..] == [];
      assert rendered[0] + "" == rendered[0];
    } else if |members| > 1 {
      RenderedText(fmt, members[1..], rendered[1..]);
    }
  }

  /**
   * The scope of an entity with subtypes `own` whose members (fields or cases) carry
   * subtypes `members[i]`: a module exactly when some rendering is non-empty.
   */
  function Subtypes(fmt: Formatter, modName: string, own: seq<RsEntity>, members: seq<seq<RsEntity>>): (r: SubtypeScope)
    ensures r.PubMod? <==> fmt.joinSubtypes(own) != "" || exists i :: 0 <= i < |members| && fmt.joinSubtypes(members[i]) != ""
    ensures r.PubMod? ==> r.modName == modName && r.own == fmt.joinSubtypes(own)
    ensures r.PubMod? ==> r.nested == Shift(MemberText(fmt, members), fmt.indent)
    ensures r.Inline? ==> r.text == "\n"
  {
    var rendered := seq(|members|, i requires 0 <= i < |members| => fmt.joinSubtypes(members[i]));
    var memberSubtypes := Join(rendered, "");
    var subtypes := fmt.joinSubtypes(own);
    ConcatEmpty(rendered);
    assert forall i :: 0 <= i < |members| ==> rendered[i] == fmt.joinSubtypes(members[i]);
    RenderedText(fmt, members, rendered);
    if memberSubtypes != "" || subtypes != "" then
      PubMod(modName, subtypes, Shift(memberSubtypes, fmt.indent))
    else
      Inline(subtypes + "\n" + memberSubtypes)
  }
}
