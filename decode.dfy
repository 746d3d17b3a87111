/**
 * The structure of the generated `xml_deserialize` routines, and what they do when run.
 *
 * The generators emit Rust text; here a routine is a plan: for a struct, one getter
 * per field; for an enum, one getter per case plus the match arms over their results.
 * The cursor (`XmlPopper`) is an abstract value `C` and the cursor library a `Runtime`
 * of functions over it, so the commit and rollback behaviour of the emitted code can
 * be stated for every cursor implementation.
 */
module Decode {
  import opened Wrappers

  /** The cursor operations a getter can call. */
  datatype PopOp = PopChild | PopChildren | MaybePopChild | PopAttribute | PopAttributes | MaybePopAttribute

  /** Whether a read is made on the working cursor (`popper`) or on the previous read's result (`inter`). */
  datatype Receiver = Cursor | Previous

  datatype Read = Read(receiver: Receiver, op: PopOp, name: string)

  /**
   * A getter: a chain of reads; a nested `<T as XmlDeserialize>::xml_deserialize` of
   * type `T`; or a comparison of the raw text value with a literal.
   */
  datatype Getter = Reads(steps: seq<Read>) | Nested(typeName: string) | ValueIs(literal: string)

  /** `let inter = popper.op1(..)?; let inter = inter.op2(..)?; ...`: the first read on the cursor, the rest on the previous result. */
  function Chain(ops: seq<PopOp>, name: string): (r: seq<Read>)
    ensures |r| == |ops|
    ensures forall i :: 0 <= i < |r| ==> r[i].op == ops[i] && r[i].name == name
    ensures forall i :: 0 <= i < |r| ==> (r[i].receiver == Receiver.Cursor <==> i == 0)
  {
    seq(|ops|, i requires 0 <= i < |ops| => Read(if i == 0 then Receiver.Cursor else Receiver.Previous, ops[i], name))
  }

  lemma ChainAppend(ops: seq<PopOp>, op: PopOp, name: string)
    ensures Chain(ops + [op], name) == Chain(ops, name) + [Read(if ops == [] then Receiver.Cursor else Receiver.Previous, op, name)]
  {
  }

  datatype DeError = Failed(message: string)

  /** The cursor library. `recursiveClone` and `pop*` are `XmlPopper`'s; `deserialize` runs another generated routine. */
  datatype Runtime<!C, !V> = Runtime(
    recursiveClone: C -> C,
    pop: (C, PopOp, string) -> (Result<V, DeError>, C),
    popFrom: (V, PopOp, string) -> Result<V, DeError>,
    popValue: C -> (Result<string, DeError>, C),
    ofText: string -> V,
    deserialize: (string, C) -> (Result<V, DeError>, C))

  /** Runs a chain of reads from cursor `c`; `last` is the previous read's value. */
  function RunReads<C, V>(rt: Runtime<C, V>, steps: seq<Read>, c: C, last: Option<V>): (Result<V, DeError>, C)
  {
    if steps == [] then
      (if last.Some? then Success(last.value) else Failure(Failed("nothing read")), c)
    else
      var rd := steps[0];
      var (res, c2) :=
        if rd.receiver == Receiver.Cursor then rt.pop(c, rd.op, rd.name)
        else if last.Some? then (rt.popFrom(last.value, rd.op, rd.name), c)
        else (Failure(Failed("nothing read")), c);
      if res.Failure? then (res, c2) else RunReads(rt, steps[1..], c2, Some(res.value))
  }

  /**
   * A struct field's getter run on the working cursor. A nested decode runs on a clone
   * that replaces the cursor only when it succeeds.
   */
  function RunField<C, V>(rt: Runtime<C, V>, g: Getter, c: C): (r: (Result<V, DeError>, C))
    ensures g.Nested? ==> (r.0.Failure? ==> r.1 == c) && (r.0.Success? ==> r == rt.deserialize(g.typeName, c))
  {
    match g
    case Reads(steps) => RunReads(rt, steps, c, Option.None)
    case Nested(t) =>
      var (res, inter) := rt.deserialize(t, c);
      if res.Success? then (res, inter) else (res, c)
    case ValueIs(lit) =>
      var (v, c2) := rt.popValue(c);
      (if v.Failure? then Failure(v.error) else if v.value == lit then Success(rt.ofText(v.value)) else Failure(Failed("value mismatch")), c2)
  }

  datatype FieldInit = FieldInit(name: string, getter: Getter)

  /** The field initialisers in declaration order, each on the cursor the previous one left; stops at the first error. */
  function RunFields<C, V>(rt: Runtime<C, V>, plan: seq<FieldInit>, c: C): (r: (Result<seq<(string, V)>, DeError>, C))
    ensures r.0.Success? ==> |r.0.value| == |plan| && forall i :: 0 <= i < |plan| ==> r.0.value[i].0 == plan[i].name
  {
    if plan == [] then (Success([]), c)
    else
      var (v, c2) := RunField(rt, plan[0].getter, c);
      if v.Failure? then (Failure(v.error), c2)
      else
        var (rest, c3) := RunFields(rt, plan[1..], c2);
        if rest.Failure? then (rest, c3) else (Success([(plan[0].name, v.value)] + rest.value), c3)
  }

  /**
   * A generated struct routine: the fields are built on a recursive clone of the
   * caller's cursor, which is overwritten only once every field is built.
   */
  function RunStruct<C, V>(rt: Runtime<C, V>, plan: seq<FieldInit>, outer: C): (r: (Result<seq<(string, V)>, DeError>, C))
    ensures r.0.Failure? ==> r.1 == outer
    ensures r.0.Success? ==> r == RunFields(rt, plan, rt.recursiveClone(outer))
    ensures r.0.Success? <==> RunFields(rt, plan, rt.recursiveClone(outer)).0.Success?
  {
    var (res, popper) := RunFields(rt, plan, rt.recursiveClone(outer));
    if res.Failure? then (res, outer) else (res, popper)
  }

  /** How a matched case builds the value: `Self::Name(value)` or the bare `Self::Name`. */
  datatype Assign = WithPayload(caseName: string) | Bare(caseName: string)

  /** A match arm: the pattern (true for `Some(value)`, false for `None`, one per case) and its assignment. */
  datatype Arm = Arm(pattern: seq<bool>, assign: Assign)

  datatype EnumPlan = EnumPlan(getters: seq<Getter>, arms: seq<Arm>, fallback: string)

  datatype EnumValue<V> = EnumValue(caseName: string, payload: Option<V>)

  /**
   * One case attempt: the getter runs on a clone of the working cursor; its error
   * becomes `None`, and the clone replaces the working cursor whatever the outcome.
   */
  function Attempt<C, V>(rt: Runtime<C, V>, g: Getter, popper: C): (Option<V>, C)
  {
    var inter := popper;
    match g
    case Reads(steps) =>
      var (res, after) := RunReads(rt, steps, inter, Option.None);
      (if res.Success? then Some(res.value) else Option.None, after)
    case Nested(t) =>
      var (res, after) := rt.deserialize(t, inter);
      (if res.Success? then Some(res.value) else Option.None, after)
    case ValueIs(lit) =>
      var (v, after) := rt.popValue(inter);
      (if v.Success? && v.value == lit then Some(rt.ofText(v.value)) else Option.None, after)
  }

  /** The tuple of attempts, each on the cursor the previous attempt left. */
  function Attempts<C, V>(rt: Runtime<C, V>, getters: seq<Getter>, popper: C): (r: (seq<Option<V>>, C))
    ensures |r.0| == |getters|
  {
    if getters == [] then ([], popper)
    else
      var (a, c2) := Attempt(rt, getters[0], popper);
      var (rest, c3) := Attempts(rt, getters[1..], c2);
      ([a] + rest, c3)
  }

  /** The attempts over `a + b` are those over `a`, then those over `b` from the cursor `a`'s left. */
  lemma {:induction false} AttemptsAppend<C, V>(rt: Runtime<C, V>, a: seq<Getter>, b: seq<Getter>, popper: C)
    ensures var ra := Attempts(rt, a, popper); var rb := Attempts(rt, b, ra.1);
      Attempts(rt, a + b, popper) == (ra.0 + rb.0, rb.1)
  {
    if a == [] {
      assert a + b == b;
      assert Attempts(rt, a, popper) == ([], popper);
      assert [] + Attempts(rt, b, popper).0 == Attempts(rt, b, popper).0;
    } else {
      assert (a + b)[0] == a[0] && (a + b)[1..] == a[1..] + b;
      var (x, c2) := Attempt(rt, a[0], popper);
      AttemptsAppend(rt, a[1..], b, c2);
      var ra := Attempts(rt, a[1..], c2);
      var rb := Attempts(rt, b, ra.1);
      var rab := Attempts(rt, a[1..] + b, c2);
      assert Attempts(rt, a, popper) == ([x] + ra.0, ra.1);
      assert Attempts(rt, a + b, popper) == ([x] + rab.0, rab.1);
      assert [x] + (ra.0 + rb.0) == ([x] + ra.0) + rb.0;
    }
  }

  /** Attempt `i` runs on the cursor that attempts `0..i` left, independently of the later ones. */
  lemma AttemptsAt<C, V>(rt: Runtime<C, V>, getters: seq<Getter>, popper: C, i: nat)
    requires i < |getters|
    ensures Attempts(rt, getters, popper).0[i] == Attempt(rt, getters[i], Attempts(rt, getters[..i], popper).1).0
  {
    assert getters == getters[..i] + getters[i..];
    AttemptsAppend(rt, getters[..i], getters[i..], popper);
    assert getters[i..][0] == getters[i];
  }

  predicate Matches<V>(pattern: seq<bool>, results: seq<Option<V>>)
  {
    |pattern| == |results| && forall j :: 0 <= j < |pattern| ==> (pattern[j] <==> results[j].Some?)
  }

  /** The first arm whose pattern matches, as `match` picks it. */
  function SelectArm<V>(arms: seq<Arm>, results: seq<Option<V>>): (r: Option<nat>)
    ensures r.Some? ==> r.value < |arms| && Matches(arms[r.value].pattern, results)
    ensures r.Some? ==> forall k :: 0 <= k < r.value ==> !Matches(arms[k].pattern, results)
    ensures r.None? ==> forall k :: 0 <= k < |arms| ==> !Matches(arms[k].pattern, results)
  {
    if arms == [] then Option.None
    else if Matches(arms[0].pattern, results) then Some(0)
    else
      var rest := SelectArm(arms[1..], results);
      if rest.Some? then
        assert forall k :: 1 <= k <= rest.value ==> arms[k] == arms[1..][k - 1];
        Some(rest.value + 1)
      else
        assert forall k :: 1 <= k < |arms| ==> arms[k] == arms[1..][k - 1];
        Option.None
  }

  function FirstTrue(p: seq<bool>): (r: Option<nat>)
    ensures r.Some? ==> r.value < |p| && p[r.value] && forall j :: 0 <= j < r.value ==> !p[j]
    ensures r.None? ==> forall j :: 0 <= j < |p| ==> !p[j]
  {
    if p == [] then Option.None
    else if p[0] then Some(0)
    else
      var rest := FirstTrue(p[1..]);
      if rest.Some? then Some(rest.value + 1) else Option.None
  }

  function Build<V>(arm: Arm, results: seq<Option<V>>): EnumValue<V>
    requires Matches(arm.pattern, results)
  {
    match arm.assign
    case Bare(n) => EnumValue(n, Option.None)
    case WithPayload(n) =>
      var i := FirstTrue(arm.pattern);
      EnumValue(n, if i.Some? then results[i.value] else Option.None)
  }

  /**
   * A generated enum routine: the attempts run on a recursive clone of the caller's
   * cursor; a matching arm builds the value and the cursor left by all attempts is
   * committed; no matching arm is the fallback error, and the caller's cursor is left alone.
   */
  function RunEnum<C, V>(rt: Runtime<C, V>, plan: EnumPlan, outer: C): (r: (Result<EnumValue<V>, DeError>, C))
    ensures r.0.Failure? ==> r.1 == outer
    ensures r.0.Success? ==> r.1 == Attempts(rt, plan.getters, rt.recursiveClone(outer)).1
    ensures r.0.Success? <==> SelectArm(plan.arms, Attempts(rt, plan.getters, rt.recursiveClone(outer)).0).Some?
  {
    var (results, popper) := Attempts(rt, plan.getters, rt.recursiveClone(outer));
    match SelectArm(plan.arms, results)
    case None => (Failure(Failed(plan.fallback)), outer)
    case Some(k) => (Success(Build(plan.arms[k], results)), popper)
  }

  /** `(None, .., Some(value), .., None)` with the `Some` at position i of n. */
  function OneHot(i: nat, n: nat): (p: seq<bool>)
    ensures |p| == n && forall j :: 0 <= j < n ==> (p[j] <==> j == i)
  {
    seq(n, j => j == i)
  }

  function CountSome<V>(results: seq<Option<V>>): nat
  {
    if results == [] then 0 else (if results[0].Some? then 1 else 0) + CountSome(results[1..])
  }

  lemma {:induction false} CountSomeOne<V>(results: seq<Option<V>>, i: nat)
    requires i < |results| && results[i].Some?
    requires forall j :: 0 <= j < |results| && j != i ==> results[j].None?
    ensures CountSome(results) == 1
  {
    if i == 0 {
      CountSomeZero(results[1..]);
    } else {
      CountSomeOne(results[1..], i - 1);
    }
  }

  lemma {:induction false} CountSomeZero<V>(results: seq<Option<V>>)
    requires forall j :: 0 <= j < |results| ==> results[j].None?
    ensures CountSome(results) == 0
  {
    if results != [] {
      CountSomeZero(results[1..]);
    }
  }

  /** A count of one pins down the single `Some`. */
  lemma {:induction false} CountSomeOneAt<V>(results: seq<Option<V>>) returns (i: nat)
    requires CountSome(results) == 1
    ensures i < |results| && results[i].Some?
    ensures forall j :: 0 <= j < |results| && j != i ==> results[j].None?
  {
    if results[0].Some? {
      CountSomeZeroAll(results[1..]);
      i := 0;
      assert forall j :: 1 <= j < |results| ==> results[j] == results[1..][j - 1];
    } else {
      var k := CountSomeOneAt(results[1..]);
      i := k + 1;
      assert forall j :: 1 <= j < |results| ==> results[j] == results[1..][j - 1];
    }
  }

  /** A count of zero means no `Some` at all. */
  lemma {:induction false} CountSomeZeroAll<V>(results: seq<Option<V>>)
    requires CountSome(results) == 0
    ensures forall j :: 0 <= j < |results| ==> results[j].None?
  {
    if results != [] {
      CountSomeZeroAll(results[1..]);
      assert forall j :: 1 <= j < |results| ==> results[j] == results[1..][j - 1];
    }
  }

  /** Arms with the one-hot patterns, one per attempt. */
  predicate OneHotArms(arms: seq<Arm>)
  {
    forall k :: 0 <= k < |arms| ==> arms[k].pattern == OneHot(k, |arms|)
  }

  /**
   * The match over one-hot arms picks arm i exactly when attempt i alone succeeded;
   * zero or several successes reach the fallback.
   */
  lemma OneHotSelect<V>(arms: seq<Arm>, results: seq<Option<V>>)
    requires OneHotArms(arms) && |results| == |arms|
    ensures SelectArm(arms, results).Some? <==> CountSome(results) == 1
    ensures SelectArm(arms, results).Some? ==>
      var i := SelectArm(arms, results).value;
      results[i].Some? && forall j :: 0 <= j < |results| && j != i ==> results[j].None?
  {
    var sel := SelectArm(arms, results);
    if CountSome(results) == 1 {
      var i := CountSomeOneAt(results);
      assert Matches(arms[i].pattern, results);
    }
    if sel.Some? {
      var i := sel.value;
      assert Matches(OneHot(i, |arms|), results);
      CountSomeOne(results, i);
    }
  }

  /** Under one-hot arms, a routine's value carries the payload of the one attempt that succeeded. */
  lemma OneHotBuild<V>(arms: seq<Arm>, results: seq<Option<V>>, i: nat)
    requires OneHotArms(arms) && |results| == |arms| && i < |arms|
    requires Matches(arms[i].pattern, results)
    ensures arms[i].assign.WithPayload? ==> Build(arms[i], results) == EnumValue(arms[i].assign.caseName, results[i])
    ensures arms[i].assign.Bare? ==> Build(arms[i], results) == EnumValue(arms[i].assign.caseName, Option.None)
  {
    var p := arms[i].pattern;
    var f := FirstTrue(p);
    assert p[i];
    assert f.Some? && f.value == i;
  }
}
