/**
 * What the resolver of xsd-parser/src/parser/types.rs computes, as functions of the
 * structs' field lists.
 *
 * Every `Struct` reachable from the schema's types, attribute groups and groups through
 * `subtypes` is a node of a `Graph`: its immutable parts form a `Shape` (nested structs
 * referred to by node number), and its `RefCell` field list is an entry of a `Heap`.
 * The name index the resolver consults (`types`) maps a name to a node. A struct owned
 * by a field (inside `StructField::subtypes`) is a value; while it is being extended its
 * field list occupies a temporary heap slot past the nodes, which no lookup reaches.
 */
module Resolve {
  import opened Wrappers
  import opened Strings
  import opened Types

  /** A nested entity of a node: another node, or any non-struct entity. */
  datatype Sub = Child(id: nat) | Other(entity: RsEntity)

  datatype Shape = Shape(
    name: string,
    comment: Option<string>,
    attributeGroups: seq<Alias>,
    groups: seq<Alias>,
    subtypes: seq<Sub>)

  /**
   * The nodes, the name index, and an order on the nodes in which every attribute-group
   * reference leads to a lower rank (the source recurses forever on a cycle).
   */
  datatype Graph = Graph(shapes: seq<Shape>, index: map<string, nat>, rank: seq<nat>)

  type Heap = seq<seq<StructField>>

  /** `types.get(&key).unwrap()` on a name that is not indexed. */
  datatype Panic = MissingStruct(key: string)

  /** The lookup key of a reference: the part after the last `:`. */
  function Key(a: Alias): string
  {
    LastSegment(a.original)
  }

  /** Nodes are numbered so that a nested struct comes before the struct it is nested in. */
  predicate ChildrenBelow(shapes: seq<Shape>)
  {
    forall id, j :: 0 <= id < |shapes| && 0 <= j < |shapes[id].subtypes| && shapes[id].subtypes[j].Child? ==>
      shapes[id].subtypes[j].id < id
  }

  ghost predicate WellFormed(g: Graph)
  {
    && |g.rank| == |g.shapes|
    && (forall k :: k in g.index ==> g.index[k] < |g.shapes|)
    && ChildrenBelow(g.shapes)
    && (forall id, j :: 0 <= id < |g.shapes| && 0 <= j < |g.shapes[id].attributeGroups| && Key(g.shapes[id].attributeGroups[j]) in g.index ==>
          g.rank[g.index[Key(g.shapes[id].attributeGroups[j])]] < g.rank[id])
  }

  ghost predicate Fits(g: Graph, h: Heap)
  {
    WellFormed(g) && |h| >= |g.shapes|
  }

  /** `types.get(&key).map(|s| s.fields.borrow().clone()).unwrap_or_default()`. */
  function Lookup(g: Graph, h: Heap, key: string): seq<StructField>
    requires Fits(g, h)
  {
    if key in g.index then h[g.index[key]] else []
  }

  predicate Named(fs: seq<StructField>, name: string)
  {
    exists i :: 0 <= i < |fs| && fs[i].name == name
  }

  /** The produced fields whose names are not yet among `current`'s. */
  function NotPresent(produced: seq<StructField>, current: seq<StructField>): (r: seq<StructField>)
    ensures |r| <= |produced|
    ensures forall i :: 0 <= i < |r| ==> r[i] in produced && !Named(current, r[i].name)
  {
    if produced == [] then []
    else (if Named(current, produced[0].name) then [] else [produced[0]]) + NotPresent(produced[1..], current)
  }

  /** The filter drops no field whose name is new. */
  lemma {:induction false} NotPresentKeeps(produced: seq<StructField>, current: seq<StructField>, f: StructField)
    requires f in produced && !Named(current, f.name)
    ensures f in NotPresent(produced, current)
  {
    if produced[0] != f {
      NotPresentKeeps(produced[1..], current, f);
    }
  }

  /** The struct value of a node as the heap has it now (`Struct::clone`). */
  function Materialize(g: Graph, h: Heap, id: nat): (st: Struct)
    requires Fits(g, h) && id < |g.shapes|
    ensures st.name == g.shapes[id].name && st.fields == h[id]
    decreases id, 1, 0
  {
    var sh := g.shapes[id];
    Struct(sh.name, sh.comment, h[id], sh.attributeGroups, sh.groups, MaterializeSubs(g, h, id, 0))
  }

  function MaterializeSubs(g: Graph, h: Heap, id: nat, j: nat): seq<RsEntity>
    requires Fits(g, h) && id < |g.shapes| && j <= |g.shapes[id].subtypes|
    decreases id, 0, |g.shapes[id].subtypes| - j
  {
    var subs := g.shapes[id].subtypes;
    if j == |subs| then []
    else
      var e := match subs[j] case Child(c) => StructEntity(Materialize(g, h, c)) case Other(e) => e;
      [e] + MaterializeSubs(g, h, id, j + 1)
  }

  /** The hard-coded `part-group` rename applied to a cloned group struct's own fields. */
  function RewritePartGroup(st: Struct): Struct
  {
    st.(fields := seq(|st.fields|, i requires 0 <= i < |st.fields| =>
      if st.fields[i].typeName == "part-group" then st.fields[i].(typeName := "super::PartGroup") else st.fields[i]))
  }

  /**
   * The fields a group or attribute-group reference contributes: with modifiers, one
   * field named after the reference and typed by the referenced struct's name (in the
   * group loop of `extend_base`, also carrying a clone of that struct); without, the
   * referenced struct's fields, none if the name is unknown.
   */
  function AliasFields(g: Graph, h: Heap, a: Alias, nested: bool): (r: Result<seq<StructField>, Panic>)
    requires Fits(g, h)
    ensures a.typeModifiers == [] ==> r == Success(Lookup(g, h, Key(a)))
    ensures a.typeModifiers != [] ==> (r.Failure? <==> Key(a) !in g.index)
    ensures a.typeModifiers != [] && r.Success? ==>
      var id := g.index[Key(a)];
      && |r.value| == 1
      && r.value[0].name == a.name && r.value[0].typeName == g.shapes[id].name
      && r.value[0].comment == a.comment && r.value[0].typeModifiers == a.typeModifiers
      && r.value[0].source == StructFieldSource.NA
      && r.value[0].subtypes == (if nested then [StructEntity(RewritePartGroup(Materialize(g, h, id)))] else [])
  {
    if a.typeModifiers != [] then
      if Key(a) !in g.index then Failure(MissingStruct(Key(a)))
      else
        var id := g.index[Key(a)];
        var subtypes := if nested then [StructEntity(RewritePartGroup(Materialize(g, h, id)))] else [];
        Success([StructField(a.name, g.shapes[id].name, a.comment, subtypes, StructFieldSource.NA, a.typeModifiers)])
    else Success(Lookup(g, h, Key(a)))
  }

  /** Heaps of the same size that agree past the nodes. */
  ghost predicate SameSlots(g: Graph, h: Heap, h2: Heap)
  {
    |h2| == |h| && forall k :: |g.shapes| <= k < |h| ==> h2[k] == h[k]
  }

  /** `extend_attribute_group` run on node `id`. */
  function AfterAttributeGroups(g: Graph, h: Heap, id: nat): (r: Result<Heap, Panic>)
    requires Fits(g, h) && id < |g.shapes|
    ensures r.Success? ==> SameSlots(g, h, r.value)
    decreases g.rank[id], |g.shapes[id].attributeGroups| + 1
  {
    AttributeGroupsFrom(g, h, id, 0, [])
  }

  /** The loop of `extend_attribute_group` from reference `i` on, with `pending` collected so far. */
  function AttributeGroupsFrom(g: Graph, h: Heap, id: nat, i: nat, pending: seq<StructField>): (r: Result<Heap, Panic>)
    requires Fits(g, h) && id < |g.shapes| && i <= |g.shapes[id].attributeGroups|
    ensures r.Success? ==> SameSlots(g, h, r.value)
    decreases g.rank[id], |g.shapes[id].attributeGroups| - i
  {
    var ags := g.shapes[id].attributeGroups;
    if i == |ags| then Success(h[id := h[id] + pending])
    else
      var a := ags[i];
      var h1 := if Key(a) in g.index then AfterAttributeGroups(g, h, g.index[Key(a)]) else Success(h);
      if h1.Failure? then Failure(h1.error)
      else
        var produced := AliasFields(g, h1.value, a, false);
        if produced.Failure? then Failure(produced.error)
        else AttributeGroupsFrom(g, h1.value, id, i + 1, pending + NotPresent(produced.value, h1.value[id]))
  }

  /** `extend_group` run on node `id`: its group references, then its nested structs. */
  function AfterGroups(g: Graph, h: Heap, id: nat): (r: Result<Heap, Panic>)
    requires Fits(g, h) && id < |g.shapes|
    ensures r.Success? ==> SameSlots(g, h, r.value)
    decreases id, 2, 0
  {
    GroupsFrom(g, h, id, 0, [])
  }

  function GroupsFrom(g: Graph, h: Heap, id: nat, i: nat, pending: seq<StructField>): (r: Result<Heap, Panic>)
    requires Fits(g, h) && id < |g.shapes| && i <= |g.shapes[id].groups|
    ensures r.Success? ==> SameSlots(g, h, r.value)
    decreases id, 1, |g.shapes[id].groups| - i
  {
    var groups := g.shapes[id].groups;
    if i == |groups| then GroupChildren(g, h[id := h[id] + pending], id, 0)
    else
      var a := groups[i];
      var h1 := if Key(a) in g.index then AfterAttributeGroups(g, h, g.index[Key(a)]) else Success(h);
      if h1.Failure? then Failure(h1.error)
      else
        var produced := AliasFields(g, h1.value, a, false);
        if produced.Failure? then Failure(produced.error)
        else GroupsFrom(g, h1.value, id, i + 1, pending + NotPresent(produced.value, h1.value[id]))
  }

  function GroupChildren(g: Graph, h: Heap, id: nat, j: nat): (r: Result<Heap, Panic>)
    requires Fits(g, h) && id < |g.shapes| && j <= |g.shapes[id].subtypes|
    ensures r.Success? ==> SameSlots(g, h, r.value)
    decreases id, 0, |g.shapes[id].subtypes| - j
  {
    var subs := g.shapes[id].subtypes;
    if j == |subs| then Success(h)
    else if subs[j].Child? then
      var h1 := AfterGroups(g, h, subs[j].id);
      if h1.Failure? then Failure(h1.error) else GroupChildren(g, h1.value, id, j + 1)
    else GroupChildren(g, h, id, j + 1)
  }

  /** The struct `extend_base` works on: a node, or a struct value owned by a field or nested in one. */
  datatype Me = Node(id: nat) | Value(st: Struct)

  /** `me`'s field list is heap slot `s`: its own node, or a slot past the nodes. */
  ghost predicate SlotOf(g: Graph, h: Heap, me: Me, s: nat)
  {
    && Fits(g, h) && s < |h|
    && (me.Node? ==> s == me.id && me.id < |g.shapes|)
    && (me.Value? ==> s >= |g.shapes| && h[s] == me.st.fields)
  }

  /** Heaps of the same size that agree past the nodes, except at slot `s`. */
  ghost predicate SameSlotsBut(g: Graph, h: Heap, h2: Heap, s: nat)
  {
    |h2| == |h| && forall k :: |g.shapes| <= k < |h| && k != s ==> h2[k] == h[k]
  }

  function GroupsOf(g: Graph, me: Me): seq<Alias>
    requires me.Node? ==> me.id < |g.shapes|
  {
    if me.Node? then g.shapes[me.id].groups else me.st.groups
  }

  function AttributeGroupsOf(g: Graph, me: Me): seq<Alias>
    requires me.Node? ==> me.id < |g.shapes|
  {
    if me.Node? then g.shapes[me.id].attributeGroups else me.st.attributeGroups
  }

  /** The fields the base placeholders stand for: each placeholder's type, looked up by its last `:` segment. */
  function BaseFields(g: Graph, h: Heap, fs: seq<StructField>): seq<StructField>
    requires Fits(g, h)
  {
    if fs == [] then []
    else (if fs[0].name == BaseTag then Lookup(g, h, LastSegment(fs[0].typeName)) else []) + BaseFields(g, h, fs[1..])
  }

  /** `retain(|field| field.name != name)`. */
  function Without(fs: seq<StructField>, name: string): (r: seq<StructField>)
    ensures |r| <= |fs|
    ensures forall i :: 0 <= i < |r| ==> r[i] in fs && r[i].name != name
  {
    if fs == [] then []
    else (if fs[0].name == name then [] else [fs[0]]) + Without(fs[1..], name)
  }

  /** `retain` drops no field of another name. */
  lemma {:induction false} WithoutKeeps(fs: seq<StructField>, name: string, f: StructField)
    requires f in fs && f.name != name
    ensures f in Without(fs, name)
  {
    if fs[0] != f {
      WithoutKeeps(fs[1..], name, f);
    }
  }

  /**
   * The base splice of `extend_base`: the fields of the placeholders' base structs that
   * `cur` does not name yet are appended, in placeholder order, then every placeholder is dropped.
   */
  function SplicedBase(g: Graph, h: Heap, cur: seq<StructField>): (r: seq<StructField>)
    requires Fits(g, h)
    ensures forall i :: 0 <= i < |r| ==> r[i].name != BaseTag
  {
    Without(cur + NotPresent(BaseFields(g, h, cur), cur), BaseTag)
  }

  /** The splice keeps the old non-placeholder fields first, in order, then adds base fields under names `cur` lacked. */
  lemma SplicedBaseParts(g: Graph, h: Heap, cur: seq<StructField>)
    requires Fits(g, h)
    ensures var r := SplicedBase(g, h, cur);
      && r == Without(cur, BaseTag) + Without(NotPresent(BaseFields(g, h, cur), cur), BaseTag)
      && forall i :: |Without(cur, BaseTag)| <= i < |r| ==> r[i] in BaseFields(g, h, cur) && !Named(cur, r[i].name)
  {
    WithoutConcat(cur, NotPresent(BaseFields(g, h, cur), cur), BaseTag);
    SplicedTail(Without(cur, BaseTag), NotPresent(BaseFields(g, h, cur), cur), BaseFields(g, h, cur), cur);
  }

  /** The part after the kept fields holds base fields only, none of them named in `cur`. */
  lemma SplicedTail(kept: seq<StructField>, added: seq<StructField>, base: seq<StructField>, cur: seq<StructField>)
    requires added == NotPresent(base, cur)
    ensures var r := kept + Without(added, BaseTag);
      forall i :: |kept| <= i < |r| ==> r[i] in base && !Named(cur, r[i].name)
  {
    var w := Without(added, BaseTag);
    forall i | |kept| <= i < |kept + w|
      ensures (kept + w)[i] in base && !Named(cur, (kept + w)[i].name)
    {
      assert (kept + w)[i] == w[i - |kept|];
      assert w[i - |kept|] in added;
    }
  }

  /** The base lookups distribute over the placeholders of a concatenation. */
  lemma {:induction false} BaseFieldsAppend(g: Graph, h: Heap, a: seq<StructField>, b: seq<StructField>)
    requires Fits(g, h)
    ensures BaseFields(g, h, a + b) == BaseFields(g, h, a) + BaseFields(g, h, b)
  {
    if a != [] {
      var ab := a + b;
      assert ab[0] == a[0] && ab[1..] == a[1..] + b;
      var head := if a[0].name == BaseTag then Lookup(g, h, LastSegment(a[0].typeName)) else [];
      assert BaseFields(g, h, ab) == head + BaseFields(g, h, a[1..] + b);
      BaseFieldsAppend(g, h, a[1..], b);
      assert head + (BaseFields(g, h, a[1..]) + BaseFields(g, h, b)) == (head + BaseFields(g, h, a[1..])) + BaseFields(g, h, b);
    } else {
      assert a + b == b;
    }
  }

  /** The fields of placeholder `k`'s base struct form one contiguous run of the base fields, after those of the earlier placeholders. */
  lemma BaseFieldsAt(g: Graph, h: Heap, fs: seq<StructField>, k: nat)
    requires Fits(g, h) && k < |fs| && fs[k].name == BaseTag
    ensures BaseFields(g, h, fs) == BaseFields(g, h, fs[..k]) + Lookup(g, h, LastSegment(fs[k].typeName)) + BaseFields(g, h, fs[k + 1..])
  {
    assert fs == fs[..k] + fs[k..];
    BaseFieldsAppend(g, h, fs[..k], fs[k..]);
    assert fs[k..][0] == fs[k] && fs[k..][1..] == fs[k + 1..];
  }

  /** Every field of a placeholder's base struct whose name `cur` does not have yet ends up in the splice. */
  lemma BaseFieldSpliced(g: Graph, h: Heap, cur: seq<StructField>, k: nat, f: StructField)
    requires Fits(g, h) && k < |cur| && cur[k].name == BaseTag
    requires f in Lookup(g, h, LastSegment(cur[k].typeName)) && !Named(cur, f.name)
    ensures f in SplicedBase(g, h, cur)
  {
    BaseFieldsAt(g, h, cur, k);
    SplicedBaseParts(g, h, cur);
    var added := NotPresent(BaseFields(g, h, cur), cur);
    NotPresentKeeps(BaseFields(g, h, cur), cur, f);
    assert f.name != BaseTag;
    WithoutKeeps(added, BaseTag, f);
  }

  /** The group loop of `extend_base`, on slot `s`. */
  function BaseGroupsFrom(g: Graph, h: Heap, groups: seq<Alias>, s: nat, i: nat, pending: seq<StructField>): (r: Result<Heap, Panic>)
    requires Fits(g, h) && s < |h| && i <= |groups|
    ensures r.Success? ==> SameSlotsBut(g, h, r.value, s)
    decreases |groups| - i
  {
    if i == |groups| then Success(h[s := h[s] + pending])
    else
      var a := groups[i];
      var h1 := if Key(a) in g.index then AfterAttributeGroups(g, h, g.index[Key(a)]) else Success(h);
      if h1.Failure? then Failure(h1.error)
      else
        var produced := AliasFields(g, h1.value, a, true);
        if produced.Failure? then Failure(produced.error)
        else BaseGroupsFrom(g, h1.value, groups, s, i + 1, pending + NotPresent(produced.value, h1.value[s]))
  }

  predicate AttributeNamed(fs: seq<StructField>, name: string)
  {
    exists j :: 0 <= j < |fs| && fs[j].name == name && fs[j].source == StructFieldSource.Attribute
  }

  predicate OtherNamed(fs: seq<StructField>, name: string)
  {
    exists j :: 0 <= j < |fs| && fs[j].name == name && fs[j].source != StructFieldSource.Attribute
  }

  /** An attribute-group field: dropped on a clash with an attribute, renamed `<name>_attr` on a clash with anything else. */
  function AdmitAttribute(f: StructField, current: seq<StructField>): (r: Option<StructField>)
    ensures r.None? <==> AttributeNamed(current, f.name)
    ensures r.Some? && Named(current, f.name) ==> r.value == f.(name := f.name + "_attr")
    ensures r.Some? && !Named(current, f.name) ==> r.value == f
  {
    if AttributeNamed(current, f.name) then Option.None
    else if Named(current, f.name) then Some(f.(name := f.name + "_attr"))
    else Some(f)
  }

  function AdmitAll(produced: seq<StructField>, current: seq<StructField>): (r: seq<StructField>)
    ensures |r| <= |produced|
  {
    if produced == [] then []
    else
      var f := AdmitAttribute(produced[0], current);
      (if f.Some? then [f.value] else []) + AdmitAll(produced[1..], current)
  }

  /** The attribute-group loop of `extend_base`, collecting the clones of the referenced structs with modifiers. */
  function BaseAttributeGroupsFrom(g: Graph, h: Heap, ags: seq<Alias>, s: nat, i: nat, pending: seq<StructField>, extended: seq<Struct>):
    (r: Result<(Heap, seq<Struct>), Panic>)
    requires Fits(g, h) && s < |h| && i <= |ags|
    ensures r.Success? ==> SameSlotsBut(g, h, r.value.0, s)
    decreases |ags| - i
  {
    if i == |ags| then Success((h[s := h[s] + pending], extended))
    else
      var a := ags[i];
      var h1 := if Key(a) in g.index then AfterAttributeGroups(g, h, g.index[Key(a)]) else Success(h);
      if h1.Failure? then Failure(h1.error)
      else if a.typeModifiers != [] && Key(a) !in g.index then Failure(MissingStruct(Key(a)))
      else
        var extended1 := if a.typeModifiers != [] then extended + [Materialize(g, h1.value, g.index[Key(a)])] else extended;
        var produced := AliasFields(g, h1.value, a, false);
        BaseAttributeGroupsFrom(g, h1.value, ags, s, i + 1, pending + AdmitAll(produced.value, h1.value[s]), extended1)
  }

  /** The final pass of `extend_base`: an attribute field sharing its name with a non-attribute field becomes `<name>_attr`. */
  function RenameAttributes(fs: seq<StructField>): (r: seq<StructField>)
    ensures |r| == |fs|
    ensures forall i :: 0 <= i < |fs| ==> r[i] == fs[i].(name := r[i].name)
    ensures forall i :: 0 <= i < |fs| ==>
      r[i].name == (if fs[i].source == StructFieldSource.Attribute && OtherNamed(fs, fs[i].name) then fs[i].name + "_attr" else fs[i].name)
  {
    seq(|fs|, i requires 0 <= i < |fs| =>
      if fs[i].source == StructFieldSource.Attribute && OtherNamed(fs, fs[i].name) then fs[i].(name := fs[i].name + "_attr") else fs[i])
  }

  /** `b` is `a` after `extend_base`: a struct keeps all but its fields and nested entities; any other entity is untouched. */
  predicate Reshaped(a: RsEntity, b: RsEntity)
  {
    if a.StructEntity? then b.StructEntity? && b.st == a.st.(fields := b.st.fields, subtypes := b.st.subtypes) else b == a
  }

  predicate ReshapedAll(a: seq<RsEntity>, b: seq<RsEntity>)
  {
    |a| == |b| && forall t :: 0 <= t < |a| ==> Reshaped(a[t], b[t])
  }

  /** `b` is field `a` after `StructField::extend_base`: only the nested entities change, each reshaped. */
  predicate FieldReshaped(a: StructField, b: StructField)
  {
    b == a.(subtypes := b.subtypes) && ReshapedAll(a.subtypes, b.subtypes)
  }

  predicate FieldsReshaped(a: seq<StructField>, b: seq<StructField>)
  {
    |a| == |b| && forall i :: 0 <= i < |a| ==> FieldReshaped(a[i], b[i])
  }

  lemma ReshapedSnoc(a: seq<RsEntity>, b: seq<RsEntity>, j: nat, y: RsEntity)
    requires j < |a| && ReshapedAll(a[..j], b) && Reshaped(a[j], y)
    ensures ReshapedAll(a[..j + 1], b + [y])
  {
    assert a[..j + 1] == a[..j] + [a[j]];
  }

  lemma FieldsReshapedSnoc(a: seq<StructField>, b: seq<StructField>, k: nat, y: StructField)
    requires k < |a| && FieldsReshaped(a[..k], b) && FieldReshaped(a[k], y)
    ensures FieldsReshaped(a[..k + 1], b + [y])
  {
    assert a[..k + 1] == a[..k] + [a[k]];
  }

  /** What `extend_base` leaves: the heap, the clones it returns, and (for a value) its updated nested entities. */
  datatype Outcome = Outcome(heap: Heap, extended: seq<Struct>, subtypes: seq<RsEntity>)

  const NoStruct: Struct := NamedStruct("")

  /** `extend_base` on `me`, whose field list is slot `s`. */
  function AfterBase(g: Graph, h: Heap, me: Me, s: nat): (r: Result<Outcome, Panic>)
    requires SlotOf(g, h, me, s)
    ensures r.Success? ==> SameSlotsBut(g, h, r.value.heap, s)
    decreases if me.Node? then 1 else 0, if me.Node? then me.id else 0, if me.Value? then me.st else NoStruct, 4, 0, 0, 0
  {
    var owned := FieldOwned(g, h, me, s, h[s], 0, []);
    if owned.Failure? then Failure(owned.error)
    else
      var h2 := owned.value.0[s := owned.value.1];
      var h3 := h2[s := SplicedBase(g, h2, h2[s])];
      var grouped := BaseGroupsFrom(g, h3, GroupsOf(g, me), s, 0, []);
      if grouped.Failure? then Failure(grouped.error)
      else
        var attributed := BaseAttributeGroupsFrom(g, grouped.value, AttributeGroupsOf(g, me), s, 0, [], []);
        if attributed.Failure? then Failure(attributed.error)
        else
          var h5 := attributed.value.0;
          var h6 := h5[s := RenameAttributes(h5[s])];
          match me
          case Node(id) =>
            var children := NodeChildren(g, h6, id, 0, []);
            if children.Failure? then Failure(children.error)
            else Success(Outcome(children.value.0, attributed.value.1 + children.value.1, []))
          case Value(st) =>
            var children := ValueChildren(g, h6, st, 0, [], []);
            if children.Failure? then Failure(children.error)
            else Success(Outcome(children.value.0, attributed.value.1 + children.value.1, children.value.2))
  }

  /** `fields.iter_mut().for_each(|f| f.extend_base(types))` over the snapshot `fs` of `me`'s fields, from field `k` on. */
  function FieldOwned(g: Graph, h: Heap, me: Me, s: nat, fs: seq<StructField>, k: nat, done: seq<StructField>):
    (r: Result<(Heap, seq<StructField>), Panic>)
    requires Fits(g, h) && s < |h| && k <= |fs|
    requires me.Node? ==> me.id < |g.shapes|
    requires me.Value? ==> fs == me.st.fields
    ensures r.Success? ==> SameSlots(g, h, r.value.0)
    decreases if me.Node? then 1 else 0, if me.Node? then me.id else 0, if me.Value? then me.st else NoStruct, 3, |fs| - k, 1, 0
  {
    if k == |fs| then Success((h, done))
    else
      var subs := FieldSubtypes(g, h, me, s, fs, k, 0, []);
      if subs.Failure? then Failure(subs.error)
      else FieldOwned(g, subs.value.0, me, s, fs, k + 1, done + [fs[k].(subtypes := subs.value.1)])
  }

  /** `StructField::extend_base` on field `k`: each struct among its subtypes is extended as a value, its result dropped. */
  function FieldSubtypes(g: Graph, h: Heap, me: Me, s: nat, fs: seq<StructField>, k: nat, j: nat, done: seq<RsEntity>):
    (r: Result<(Heap, seq<RsEntity>), Panic>)
    requires Fits(g, h) && s < |h| && k < |fs| && j <= |fs[k].subtypes|
    requires me.Node? ==> me.id < |g.shapes|
    requires me.Value? ==> fs == me.st.fields
    ensures r.Success? ==> SameSlots(g, h, r.value.0)
    decreases if me.Node? then 1 else 0, if me.Node? then me.id else 0, if me.Value? then me.st else NoStruct, 3, |fs| - k, 0, |fs[k].subtypes| - j
  {
    var subs := fs[k].subtypes;
    if j == |subs| then Success((h, done))
    else
      match subs[j]
      case StructEntity(inner) =>
        assert fs[k] in fs && subs[j] in subs;
        var r := AfterBase(g, h + [inner.fields], Value(inner), |h|);
        if r.Failure? then Failure(r.error)
        else
          var updated := inner.(fields := r.value.heap[|h|], subtypes := r.value.subtypes);
          FieldSubtypes(g, r.value.heap[..|h|], me, s, fs, k, j + 1, done + [StructEntity(updated)])
      case _ => FieldSubtypes(g, h, me, s, fs, k, j + 1, done + [subs[j]])
  }

  /** The recursion of `extend_base` into the nested structs of node `id`, concatenating their clones. */
  function NodeChildren(g: Graph, h: Heap, id: nat, j: nat, extended: seq<Struct>): (r: Result<(Heap, seq<Struct>), Panic>)
    requires Fits(g, h) && id < |g.shapes| && j <= |g.shapes[id].subtypes|
    ensures r.Success? ==> SameSlots(g, h, r.value.0)
    decreases 1, id, NoStruct, 1, |g.shapes[id].subtypes| - j, 0, 0
  {
    var subs := g.shapes[id].subtypes;
    if j == |subs| then Success((h, extended))
    else if subs[j].Child? then
      var r := AfterBase(g, h, Node(subs[j].id), subs[j].id);
      if r.Failure? then Failure(r.error)
      else NodeChildren(g, r.value.heap, id, j + 1, extended + r.value.extended)
    else NodeChildren(g, h, id, j + 1, extended)
  }

  /** The same recursion for a struct value: its nested structs are extended as values too. */
  function ValueChildren(g: Graph, h: Heap, st: Struct, j: nat, extended: seq<Struct>, done: seq<RsEntity>):
    (r: Result<(Heap, seq<Struct>, seq<RsEntity>), Panic>)
    requires Fits(g, h) && j <= |st.subtypes|
    ensures r.Success? ==> SameSlots(g, h, r.value.0)
    decreases 0, 0, st, 1, |st.subtypes| - j, 0, 0
  {
    if j == |st.subtypes| then Success((h, extended, done))
    else
      match st.subtypes[j]
      case StructEntity(inner) =>
        assert st.subtypes[j] in st.subtypes;
        var r := AfterBase(g, h + [inner.fields], Value(inner), |h|);
        if r.Failure? then Failure(r.error)
        else
          var updated := inner.(fields := r.value.heap[|h|], subtypes := r.value.subtypes);
          ValueChildren(g, r.value.heap[..|h|], st, j + 1, extended + r.value.extended, done + [StructEntity(updated)])
      case _ => ValueChildren(g, h, st, j + 1, extended, done + [st.subtypes[j]])
  }

  /** `StructField::extend_base` keeps the field's nested entities in place: each struct keeps its name, comment and references. */
  lemma {:induction false} FieldSubtypesReshaped(g: Graph, h: Heap, me: Me, s: nat, fs: seq<StructField>, k: nat, j: nat, done: seq<RsEntity>)
    requires Fits(g, h) && s < |h| && k < |fs| && j <= |fs[k].subtypes|
    requires me.Node? ==> me.id < |g.shapes|
    requires me.Value? ==> fs == me.st.fields
    requires ReshapedAll(fs[k].subtypes[..j], done)
    ensures var r := FieldSubtypes(g, h, me, s, fs, k, j, done);
      r.Success? ==> ReshapedAll(fs[k].subtypes, r.value.1)
    decreases |fs[k].subtypes| - j
  {
    var subs := fs[k].subtypes;
    if j == |subs| {
      assert subs[..j] == subs;
    } else {
      match subs[j]
      case StructEntity(inner) =>
        var r := AfterBase(g, h + [inner.fields], Value(inner), |h|);
        if r.Success? {
          var updated := inner.(fields := r.value.heap[|h|], subtypes := r.value.subtypes);
          ReshapedSnoc(subs, done, j, StructEntity(updated));
          var next := FieldSubtypes(g, r.value.heap[..|h|], me, s, fs, k, j + 1, done + [StructEntity(updated)]);
          assert FieldSubtypes(g, h, me, s, fs, k, j, done) == next;
          FieldSubtypesReshaped(g, r.value.heap[..|h|], me, s, fs, k, j + 1, done + [StructEntity(updated)]);
        }
      case _ =>
        ReshapedSnoc(subs, done, j, subs[j]);
        FieldSubtypesReshaped(g, h, me, s, fs, k, j + 1, done + [subs[j]]);
    }
  }

  /** The field pass of `extend_base` changes only the fields' nested entities, keeping each field and its order. */
  lemma {:induction false} FieldOwnedReshaped(g: Graph, h: Heap, me: Me, s: nat, fs: seq<StructField>, k: nat, done: seq<StructField>)
    requires Fits(g, h) && s < |h| && k <= |fs|
    requires me.Node? ==> me.id < |g.shapes|
    requires me.Value? ==> fs == me.st.fields
    requires FieldsReshaped(fs[..k], done)
    ensures var r := FieldOwned(g, h, me, s, fs, k, done);
      r.Success? ==> FieldsReshaped(fs, r.value.1)
    decreases |fs| - k
  {
    if k == |fs| {
      assert fs[..k] == fs;
    } else {
      assert fs[k].subtypes[..0] == [];
      FieldSubtypesReshaped(g, h, me, s, fs, k, 0, []);
      var subs := FieldSubtypes(g, h, me, s, fs, k, 0, []);
      if subs.Success? {
        FieldsReshapedSnoc(fs, done, k, fs[k].(subtypes := subs.value.1));
        FieldOwnedReshaped(g, subs.value.0, me, s, fs, k + 1, done + [fs[k].(subtypes := subs.value.1)]);
      }
    }
  }

  /** The recursion into a node's nested structs only adds clones after those collected so far. */
  lemma {:induction false} NodeChildrenExtends(g: Graph, h: Heap, id: nat, j: nat, extended: seq<Struct>)
    requires Fits(g, h) && id < |g.shapes| && j <= |g.shapes[id].subtypes|
    ensures var r := NodeChildren(g, h, id, j, extended);
      r.Success? ==> extended <= r.value.1
    decreases |g.shapes[id].subtypes| - j
  {
    var subs := g.shapes[id].subtypes;
    if j < |subs| {
      if subs[j].Child? {
        var r := AfterBase(g, h, Node(subs[j].id), subs[j].id);
        if r.Success? {
          NodeChildrenExtends(g, r.value.heap, id, j + 1, extended + r.value.extended);
        }
      } else {
        NodeChildrenExtends(g, h, id, j + 1, extended);
      }
    }
  }

  /** The recursion into a value's nested structs keeps them in place. */
  lemma {:induction false} ValueChildrenReshaped(g: Graph, h: Heap, st: Struct, j: nat, extended: seq<Struct>, done: seq<RsEntity>)
    requires Fits(g, h) && j <= |st.subtypes|
    requires ReshapedAll(st.subtypes[..j], done)
    ensures var r := ValueChildren(g, h, st, j, extended, done);
      r.Success? ==> ReshapedAll(st.subtypes, r.value.2)
    decreases |st.subtypes| - j
  {
    if j == |st.subtypes| {
      assert st.subtypes[..j] == st.subtypes;
    } else {
      match st.subtypes[j]
      case StructEntity(inner) =>
        var r := AfterBase(g, h + [inner.fields], Value(inner), |h|);
        if r.Success? {
          var updated := inner.(fields := r.value.heap[|h|], subtypes := r.value.subtypes);
          ReshapedSnoc(st.subtypes, done, j, StructEntity(updated));
          var next := ValueChildren(g, r.value.heap[..|h|], st, j + 1, extended + r.value.extended, done + [StructEntity(updated)]);
          assert ValueChildren(g, h, st, j, extended, done) == next;
          ValueChildrenReshaped(g, r.value.heap[..|h|], st, j + 1, extended + r.value.extended, done + [StructEntity(updated)]);
        }
      case _ =>
        ReshapedSnoc(st.subtypes, done, j, st.subtypes[j]);
        ValueChildrenReshaped(g, h, st, j + 1, extended, done + [st.subtypes[j]]);
    }
  }

  /** The recursion into a value's nested structs only adds clones after those collected so far. */
  lemma {:induction false} ValueChildrenExtends(g: Graph, h: Heap, st: Struct, j: nat, extended: seq<Struct>, done: seq<RsEntity>)
    requires Fits(g, h) && j <= |st.subtypes|
    ensures var r := ValueChildren(g, h, st, j, extended, done);
      r.Success? ==> extended <= r.value.1
    decreases |st.subtypes| - j
  {
    if j < |st.subtypes| {
      match st.subtypes[j]
      case StructEntity(inner) =>
        var r := AfterBase(g, h + [inner.fields], Value(inner), |h|);
        if r.Success? {
          var updated := inner.(fields := r.value.heap[|h|], subtypes := r.value.subtypes);
          var next := ValueChildren(g, r.value.heap[..|h|], st, j + 1, extended + r.value.extended, done + [StructEntity(updated)]);
          assert ValueChildren(g, h, st, j, extended, done) == next;
          ValueChildrenExtends(g, r.value.heap[..|h|], st, j + 1, extended + r.value.extended, done + [StructEntity(updated)]);
          assert extended <= extended + r.value.extended;
        }
      case _ =>
        ValueChildrenExtends(g, h, st, j + 1, extended, done + [st.subtypes[j]]);
    }
  }

  lemma WithoutCons(x: StructField, rest: seq<StructField>, name: string)
    ensures Without([x] + rest, name) == (if x.name == name then [] else [x]) + Without(rest, name)
  {
    assert ([x] + rest)[0] == x && ([x] + rest)[1..] == rest;
  }

  /** `retain` distributes over concatenation. */
  lemma {:induction false} WithoutConcat(a: seq<StructField>, b: seq<StructField>, name: string)
    ensures Without(a + b, name) == Without(a, name) + Without(b, name)
  {
    if a == [] {
      assert a + b == b;
    } else {
      var head := if a[0].name == name then [] else [a[0]];
      assert a == [a[0]] + a[1..];
      assert a + b == [a[0]] + (a[1..] + b);
      WithoutCons(a[0], a[1..], name);
      WithoutCons(a[0], a[1..] + b, name);
      WithoutConcat(a[1..], b, name);
      Associative(head, Without(a[1..], name), Without(b, name));
    }
  }

  lemma Associative(a: seq<StructField>, b: seq<StructField>, c: seq<StructField>)
    ensures a + (b + c) == (a + b) + c
  {
  }

  lemma {:induction false} NoBaseFields(g: Graph, h: Heap, fs: seq<StructField>)
    requires Fits(g, h)
    requires forall i :: 0 <= i < |fs| && fs[i].name == BaseTag ==> LastSegment(fs[i].typeName) !in g.index
    ensures BaseFields(g, h, fs) == []
  {
    if fs != [] {
      assert forall i :: 1 <= i < |fs| ==> fs[1..][i - 1] == fs[i];
      NoBaseFields(g, h, fs[1..]);
    }
  }

  /** A base reference to an unknown name contributes nothing: only the placeholders go. */
  lemma UnknownBase(g: Graph, h: Heap, cur: seq<StructField>)
    requires Fits(g, h)
    requires forall i :: 0 <= i < |cur| && cur[i].name == BaseTag ==> LastSegment(cur[i].typeName) !in g.index
    ensures SplicedBase(g, h, cur) == Without(cur, BaseTag)
  {
    assert BaseFields(g, h, cur) == [] by {
      NoBaseFields(g, h, cur);
    }
    assert cur + NotPresent(BaseFields(g, h, cur), cur) == cur by {
      assert NotPresent([], cur) == [];
    }
  }

  /** Every list keeps its old contents as a prefix: the heap only grows at the ends of lists. */
  ghost predicate Grows(h: Heap, h2: Heap)
  {
    |h2| == |h| && forall k :: 0 <= k < |h| ==> h[k] <= h2[k]
  }

  lemma GrowsTrans(h1: Heap, h2: Heap, h3: Heap)
    requires Grows(h1, h2) && Grows(h2, h3)
    ensures Grows(h1, h3)
  {
    forall k | 0 <= k < |h1|
      ensures h1[k] <= h3[k]
    {
      assert h2[k][..|h1[k]|] == h3[k][..|h2[k]|][..|h1[k]|];
    }
  }

  lemma {:induction false} AttributeGroupsGrow(g: Graph, h: Heap, id: nat)
    requires Fits(g, h) && id < |g.shapes|
    ensures AfterAttributeGroups(g, h, id).Success? ==> Grows(h, AfterAttributeGroups(g, h, id).value)
    decreases g.rank[id], |g.shapes[id].attributeGroups| + 1
  {
    AttributeGroupsFromGrow(g, h, id, 0, []);
  }

  /** `extend_attribute_group` only appends, to every list it touches. */
  lemma {:induction false} AttributeGroupsFromGrow(g: Graph, h: Heap, id: nat, i: nat, pending: seq<StructField>)
    requires Fits(g, h) && id < |g.shapes| && i <= |g.shapes[id].attributeGroups|
    ensures AttributeGroupsFrom(g, h, id, i, pending).Success? ==> Grows(h, AttributeGroupsFrom(g, h, id, i, pending).value)
    decreases g.rank[id], |g.shapes[id].attributeGroups| - i
  {
    var ags := g.shapes[id].attributeGroups;
    if i < |ags| {
      var a := ags[i];
      if Key(a) in g.index {
        AttributeGroupsGrow(g, h, g.index[Key(a)]);
      }
      var h1 := if Key(a) in g.index then AfterAttributeGroups(g, h, g.index[Key(a)]) else Success(h);
      if h1.Success? {
        var produced := AliasFields(g, h1.value, a, false);
        if produced.Success? {
          AttributeGroupsFromGrow(g, h1.value, id, i + 1, pending + NotPresent(produced.value, h1.value[id]));
          var r := AttributeGroupsFrom(g, h1.value, id, i + 1, pending + NotPresent(produced.value, h1.value[id]));
          if r.Success? {
            GrowsTrans(h, h1.value, r.value);
          }
        }
      }
    }
  }

  lemma {:induction false} GroupsGrow(g: Graph, h: Heap, id: nat)
    requires Fits(g, h) && id < |g.shapes|
    ensures AfterGroups(g, h, id).Success? ==> Grows(h, AfterGroups(g, h, id).value)
    decreases id, 2, 0
  {
    GroupsFromGrow(g, h, id, 0, []);
  }

  /** `extend_group` only appends as well, on its own list and on the lists of its nested structs. */
  lemma {:induction false} GroupsFromGrow(g: Graph, h: Heap, id: nat, i: nat, pending: seq<StructField>)
    requires Fits(g, h) && id < |g.shapes| && i <= |g.shapes[id].groups|
    ensures GroupsFrom(g, h, id, i, pending).Success? ==> Grows(h, GroupsFrom(g, h, id, i, pending).value)
    decreases id, 1, |g.shapes[id].groups| - i
  {
    var groups := g.shapes[id].groups;
    if i == |groups| {
      var h1 := h[id := h[id] + pending];
      GroupChildrenGrow(g, h1, id, 0);
      if GroupChildren(g, h1, id, 0).Success? {
        GrowsTrans(h, h1, GroupChildren(g, h1, id, 0).value);
      }
    } else {
      var a := groups[i];
      if Key(a) in g.index {
        AttributeGroupsGrow(g, h, g.index[Key(a)]);
      }
      var h1 := if Key(a) in g.index then AfterAttributeGroups(g, h, g.index[Key(a)]) else Success(h);
      if h1.Success? {
        var produced := AliasFields(g, h1.value, a, false);
        if produced.Success? {
          GroupsFromGrow(g, h1.value, id, i + 1, pending + NotPresent(produced.value, h1.value[id]));
          var r := GroupsFrom(g, h1.value, id, i + 1, pending + NotPresent(produced.value, h1.value[id]));
          if r.Success? {
            GrowsTrans(h, h1.value, r.value);
          }
        }
      }
    }
  }

  lemma {:induction false} GroupChildrenGrow(g: Graph, h: Heap, id: nat, j: nat)
    requires Fits(g, h) && id < |g.shapes| && j <= |g.shapes[id].subtypes|
    ensures GroupChildren(g, h, id, j).Success? ==> Grows(h, GroupChildren(g, h, id, j).value)
    decreases id, 0, |g.shapes[id].subtypes| - j
  {
    var subs := g.shapes[id].subtypes;
    if j < |subs| {
      if subs[j].Child? {
        GroupsGrow(g, h, subs[j].id);
        var h1 := AfterGroups(g, h, subs[j].id);
        if h1.Success? {
          GroupChildrenGrow(g, h1.value, id, j + 1);
          if GroupChildren(g, h1.value, id, j + 1).Success? {
            GrowsTrans(h, h1.value, GroupChildren(g, h1.value, id, j + 1).value);
          }
        }
      } else {
        GroupChildrenGrow(g, h, id, j + 1);
      }
    } else {
      assert GroupChildren(g, h, id, j) == Success(h);
    }
  }

  /** A field that reference `a` contributes, judged on heap `h`: a field of the referenced struct, or the one field that stands for it. */
  predicate Contributes(g: Graph, h: Heap, a: Alias, f: StructField)
    requires Fits(g, h)
  {
    && Key(a) in g.index
    && if a.typeModifiers == [] then f in h[g.index[Key(a)]]
       else f == StructField(a.name, g.shapes[g.index[Key(a)]].name, a.comment, [], StructFieldSource.NA, a.typeModifiers)
  }

  lemma NamedFrom(f: StructField, fs: seq<StructField>)
    requires f in fs
    ensures Named(fs, f.name)
  {
    var k :| 0 <= k < |fs| && fs[k] == f;
  }

  lemma NamedPrefix(a: seq<StructField>, b: seq<StructField>, name: string)
    requires a <= b && Named(a, name)
    ensures Named(b, name)
  {
    var k :| 0 <= k < |a| && a[k].name == name;
    assert b[k] == a[k];
  }

  lemma InPrefix(a: seq<StructField>, b: seq<StructField>, f: StructField)
    requires a <= b && f in a
    ensures f in b
  {
    var k :| 0 <= k < |a| && a[k] == f;
    assert b[k] == a[k];
  }

  /** `extend_attribute_group` on `x` leaves every node of higher rank alone, so a struct never sees its own list change under it. */
  lemma {:induction false} AttributeGroupsFrame(g: Graph, h: Heap, x: nat, y: nat)
    requires Fits(g, h) && x < |g.shapes| && y < |g.shapes| && g.rank[x] < g.rank[y]
    ensures AfterAttributeGroups(g, h, x).Success? ==> AfterAttributeGroups(g, h, x).value[y] == h[y]
    decreases g.rank[x], |g.shapes[x].attributeGroups| + 1
  {
    AttributeGroupsFromFrame(g, h, x, 0, [], y);
  }

  lemma {:induction false} AttributeGroupsFromFrame(g: Graph, h: Heap, x: nat, i: nat, pending: seq<StructField>, y: nat)
    requires Fits(g, h) && x < |g.shapes| && i <= |g.shapes[x].attributeGroups| && y < |g.shapes| && g.rank[x] < g.rank[y]
    ensures AttributeGroupsFrom(g, h, x, i, pending).Success? ==> AttributeGroupsFrom(g, h, x, i, pending).value[y] == h[y]
    decreases g.rank[x], |g.shapes[x].attributeGroups| - i
  {
    var ags := g.shapes[x].attributeGroups;
    if i < |ags| {
      var a := ags[i];
      if Key(a) in g.index {
        AttributeGroupsFrame(g, h, g.index[Key(a)], y);
      }
      var h1 := if Key(a) in g.index then AfterAttributeGroups(g, h, g.index[Key(a)]) else Success(h);
      if h1.Success? {
        var produced := AliasFields(g, h1.value, a, false);
        if produced.Success? {
          AttributeGroupsFromFrame(g, h1.value, x, i + 1, pending + NotPresent(produced.value, h1.value[x]), y);
        }
      }
    }
  }

  /** The loop appends `pending` and then more to the struct's own list. */
  lemma {:induction false} AttributeGroupsFromKeeps(g: Graph, h: Heap, id: nat, i: nat, pending: seq<StructField>)
    requires Fits(g, h) && id < |g.shapes| && i <= |g.shapes[id].attributeGroups|
    ensures AttributeGroupsFrom(g, h, id, i, pending).Success? ==> h[id] + pending <= AttributeGroupsFrom(g, h, id, i, pending).value[id]
    decreases |g.shapes[id].attributeGroups| - i
  {
    var ags := g.shapes[id].attributeGroups;
    if i < |ags| {
      var a := ags[i];
      if Key(a) in g.index {
        AttributeGroupsFrame(g, h, g.index[Key(a)], id);
      }
      var h1 := if Key(a) in g.index then AfterAttributeGroups(g, h, g.index[Key(a)]) else Success(h);
      if h1.Success? {
        var produced := AliasFields(g, h1.value, a, false);
        if produced.Success? {
          var p2 := pending + NotPresent(produced.value, h1.value[id]);
          AttributeGroupsFromKeeps(g, h1.value, id, i + 1, p2);
          var r := AttributeGroupsFrom(g, h1.value, id, i + 1, p2);
          if r.Success? {
            assert h1.value[id] == h[id];
            assert h[id] + pending <= h[id] + p2;
            assert (h[id] + p2)[..|h[id] + pending|] == h[id] + pending;
          }
        }
      }
    }
  }

  /** Every field the loop appends has a name the struct's list did not have. */
  lemma {:induction false} AttributeGroupsFromFresh(g: Graph, h: Heap, id: nat, i: nat, pending: seq<StructField>)
    requires Fits(g, h) && id < |g.shapes| && i <= |g.shapes[id].attributeGroups|
    requires forall k :: 0 <= k < |pending| ==> !Named(h[id], pending[k].name)
    ensures var r := AttributeGroupsFrom(g, h, id, i, pending);
      r.Success? ==> forall k :: |h[id]| <= k < |r.value[id]| ==> !Named(h[id], r.value[id][k].name)
    decreases |g.shapes[id].attributeGroups| - i
  {
    var ags := g.shapes[id].attributeGroups;
    if i < |ags| {
      var a := ags[i];
      if Key(a) in g.index {
        AttributeGroupsFrame(g, h, g.index[Key(a)], id);
      }
      var h1 := if Key(a) in g.index then AfterAttributeGroups(g, h, g.index[Key(a)]) else Success(h);
      if h1.Success? {
        var produced := AliasFields(g, h1.value, a, false);
        if produced.Success? {
          var added := NotPresent(produced.value, h1.value[id]);
          assert h1.value[id] == h[id];
          forall k | 0 <= k < |pending + added|
            ensures !Named(h1.value[id], (pending + added)[k].name)
          {
            if k >= |pending| {
              assert (pending + added)[k] == added[k - |pending|];
            }
          }
          AttributeGroupsFromFresh(g, h1.value, id, i + 1, pending + added);
        }
      }
    } else {
      var r: Heap := h[id := h[id] + pending];
      forall k | |h[id]| <= k < |r[id]|
        ensures !Named(h[id], r[id][k].name)
      {
        assert r[id][k] == pending[k - |h[id]|];
      }
    }
  }

  /** Every field contributed by reference `j` (not yet passed) reaches the struct, unless a field of that name is already there. */
  lemma {:induction false} AttributeGroupsFromOwn(g: Graph, h: Heap, id: nat, i: nat, pending: seq<StructField>, j: nat, f: StructField)
    requires Fits(g, h) && id < |g.shapes| && i <= j < |g.shapes[id].attributeGroups|
    requires Contributes(g, h, g.shapes[id].attributeGroups[j], f)
    ensures var r := AttributeGroupsFrom(g, h, id, i, pending);
      r.Success? ==> Named(r.value[id], f.name) && (!Named(h[id], f.name) ==> f in r.value[id])
    decreases |g.shapes[id].attributeGroups| - i
  {
    var ags := g.shapes[id].attributeGroups;
    var a := ags[i];
    var x := g.index[Key(ags[j])];
    if Key(a) in g.index {
      AttributeGroupsFrame(g, h, g.index[Key(a)], id);
      AttributeGroupsGrow(g, h, g.index[Key(a)]);
    }
    var h1 := if Key(a) in g.index then AfterAttributeGroups(g, h, g.index[Key(a)]) else Success(h);
    if h1.Success? {
      if ags[j].typeModifiers == [] {
        InPrefix(h[x], h1.value[x], f);
      }
      var produced := AliasFields(g, h1.value, a, false);
      if produced.Success? {
        var p2 := pending + NotPresent(produced.value, h1.value[id]);
        var r := AttributeGroupsFrom(g, h1.value, id, i + 1, p2);
        if i < j {
          AttributeGroupsFromOwn(g, h1.value, id, i + 1, p2, j, f);
        } else {
          assert f in produced.value;
          AttributeGroupsFromKeeps(g, h1.value, id, i + 1, p2);
          if r.Success? {
            if Named(h1.value[id], f.name) {
              NamedPrefix(h1.value[id], r.value[id], f.name);
            } else {
              NotPresentKeeps(produced.value, h1.value[id], f);
              NotPresentKeeps(produced.value, h1.value[id], f);
            assert f in p2;
              InPrefix(h1.value[id] + p2, r.value[id], f);
              NamedFrom(f, r.value[id]);
            }
          }
        }
      }
    }
  }

  /** `extend_attribute_group` only appends to the struct's own list, and only fields under names the list lacked. */
  lemma AttributeGroupsAppends(g: Graph, h: Heap, id: nat)
    requires Fits(g, h) && id < |g.shapes|
    ensures var r := AfterAttributeGroups(g, h, id);
      r.Success? ==> h[id] <= r.value[id] && forall k :: |h[id]| <= k < |r.value[id]| ==> !Named(h[id], r.value[id][k].name)
  {
    AttributeGroupsFromKeeps(g, h, id, 0, []);
    AttributeGroupsFromFresh(g, h, id, 0, []);
    assert h[id] + [] == h[id];
  }

  /** Each attribute group's fields (and the field standing for a referenced struct with modifiers) reach the struct, first name winning. */
  lemma AttributeGroupsOwn(g: Graph, h: Heap, id: nat, j: nat, f: StructField)
    requires Fits(g, h) && id < |g.shapes| && j < |g.shapes[id].attributeGroups|
    requires Contributes(g, h, g.shapes[id].attributeGroups[j], f)
    ensures var r := AfterAttributeGroups(g, h, id);
      r.Success? ==> Named(r.value[id], f.name) && (!Named(h[id], f.name) ==> f in r.value[id])
  {
    AttributeGroupsFromOwn(g, h, id, 0, [], j, f);
  }

  /** The group loop ends with every pending field on the struct's own list. */
  lemma {:induction false} GroupsFromKeeps(g: Graph, h: Heap, id: nat, i: nat, pending: seq<StructField>, f: StructField)
    requires Fits(g, h) && id < |g.shapes| && i <= |g.shapes[id].groups| && f in pending
    ensures GroupsFrom(g, h, id, i, pending).Success? ==> f in GroupsFrom(g, h, id, i, pending).value[id]
    decreases |g.shapes[id].groups| - i
  {
    var groups := g.shapes[id].groups;
    if i == |groups| {
      var h1 := h[id := h[id] + pending];
      GroupChildrenGrow(g, h1, id, 0);
      var r := GroupChildren(g, h1, id, 0);
      if r.Success? {
        assert f in h1[id];
        InPrefix(h1[id], r.value[id], f);
      }
    } else {
      var a := groups[i];
      var h1 := if Key(a) in g.index then AfterAttributeGroups(g, h, g.index[Key(a)]) else Success(h);
      if h1.Success? {
        var produced := AliasFields(g, h1.value, a, false);
        if produced.Success? {
          GroupsFromKeeps(g, h1.value, id, i + 1, pending + NotPresent(produced.value, h1.value[id]), f);
        }
      }
    }
  }

  /**
   * Every field contributed by group reference `j` ends up named in the struct. The name may come from an earlier
   * field: the struct's list can grow while the referenced structs are extended, so only the name is promised.
   */
  lemma {:induction false} GroupsFromOwn(g: Graph, h: Heap, id: nat, i: nat, pending: seq<StructField>, j: nat, f: StructField)
    requires Fits(g, h) && id < |g.shapes| && i <= j < |g.shapes[id].groups|
    requires Contributes(g, h, g.shapes[id].groups[j], f)
    ensures GroupsFrom(g, h, id, i, pending).Success? ==> Named(GroupsFrom(g, h, id, i, pending).value[id], f.name)
    decreases |g.shapes[id].groups| - i
  {
    var groups := g.shapes[id].groups;
    var a := groups[i];
    var x := g.index[Key(groups[j])];
    if Key(a) in g.index {
      AttributeGroupsGrow(g, h, g.index[Key(a)]);
    }
    var h1 := if Key(a) in g.index then AfterAttributeGroups(g, h, g.index[Key(a)]) else Success(h);
    if h1.Success? {
      if groups[j].typeModifiers == [] {
        InPrefix(h[x], h1.value[x], f);
      }
      var produced := AliasFields(g, h1.value, a, false);
      if produced.Success? {
        var p2 := pending + NotPresent(produced.value, h1.value[id]);
        var r := GroupsFrom(g, h1.value, id, i + 1, p2);
        if i < j {
          GroupsFromOwn(g, h1.value, id, i + 1, p2, j, f);
        } else if r.Success? {
          assert f in produced.value;
          if Named(h1.value[id], f.name) {
            GroupsFromGrow(g, h1.value, id, i + 1, p2);
            NamedPrefix(h1.value[id], r.value[id], f.name);
          } else {
            NotPresentKeeps(produced.value, h1.value[id], f);
            assert f in p2;
            GroupsFromKeeps(g, h1.value, id, i + 1, p2, f);
            NamedFrom(f, r.value[id]);
          }
        }
      }
    }
  }

  /** Each group's fields (and the field standing for a referenced struct with modifiers) are named in the struct after `extend_group`. */
  lemma GroupsOwn(g: Graph, h: Heap, id: nat, j: nat, f: StructField)
    requires Fits(g, h) && id < |g.shapes| && j < |g.shapes[id].groups|
    requires Contributes(g, h, g.shapes[id].groups[j], f)
    ensures AfterGroups(g, h, id).Success? ==> Named(AfterGroups(g, h, id).value[id], f.name)
  {
    GroupsFromOwn(g, h, id, 0, [], j, f);
  }

  /** The group loop of `extend_base` only appends. */
  lemma {:induction false} BaseGroupsGrow(g: Graph, h: Heap, groups: seq<Alias>, s: nat, i: nat, pending: seq<StructField>)
    requires Fits(g, h) && s < |h| && i <= |groups|
    ensures BaseGroupsFrom(g, h, groups, s, i, pending).Success? ==> Grows(h, BaseGroupsFrom(g, h, groups, s, i, pending).value)
    decreases |groups| - i
  {
    if i < |groups| {
      var a := groups[i];
      if Key(a) in g.index {
        AttributeGroupsGrow(g, h, g.index[Key(a)]);
      }
      var h1 := if Key(a) in g.index then AfterAttributeGroups(g, h, g.index[Key(a)]) else Success(h);
      if h1.Success? {
        var produced := AliasFields(g, h1.value, a, true);
        if produced.Success? {
          BaseGroupsGrow(g, h1.value, groups, s, i + 1, pending + NotPresent(produced.value, h1.value[s]));
          var r := BaseGroupsFrom(g, h1.value, groups, s, i + 1, pending + NotPresent(produced.value, h1.value[s]));
          if r.Success? {
            GrowsTrans(h, h1.value, r.value);
          }
        }
      }
    }
  }

  /** The attribute-group loop of `extend_base` only appends. */
  lemma {:induction false} BaseAttributeGroupsGrow(g: Graph, h: Heap, ags: seq<Alias>, s: nat, i: nat, pending: seq<StructField>, extended: seq<Struct>)
    requires Fits(g, h) && s < |h| && i <= |ags|
    ensures var r := BaseAttributeGroupsFrom(g, h, ags, s, i, pending, extended);
      r.Success? ==> Grows(h, r.value.0)
    decreases |ags| - i
  {
    if i == |ags| {
      assert h[s] <= h[s] + pending;
    } else {
      var a := ags[i];
      if Key(a) in g.index {
        AttributeGroupsGrow(g, h, g.index[Key(a)]);
      }
      var h1 := if Key(a) in g.index then AfterAttributeGroups(g, h, g.index[Key(a)]) else Success(h);
      if h1.Success? && !(a.typeModifiers != [] && Key(a) !in g.index) {
        var extended1 := if a.typeModifiers != [] then extended + [Materialize(g, h1.value, g.index[Key(a)])] else extended;
        var pending1 := pending + AdmitAll(AliasFields(g, h1.value, a, false).value, h1.value[s]);
        BaseAttributeGroupsGrow(g, h1.value, ags, s, i + 1, pending1, extended1);
        var r := BaseAttributeGroupsFrom(g, h1.value, ags, s, i + 1, pending1, extended1);
        if r.Success? {
          GrowsTrans(h, h1.value, r.value.0);
        }
      }
    }
  }

  /** The group loop of `extend_base` ends with every pending field on slot `s`. */
  lemma {:induction false} BaseGroupsFromKeeps(g: Graph, h: Heap, groups: seq<Alias>, s: nat, i: nat, pending: seq<StructField>, f: StructField)
    requires Fits(g, h) && s < |h| && i <= |groups| && f in pending
    ensures var r := BaseGroupsFrom(g, h, groups, s, i, pending);
      r.Success? ==> f in r.value[s]
    decreases |groups| - i
  {
    if i == |groups| {
      var r: Heap := h[s := h[s] + pending];
      assert f in r[s];
    } else {
      var a := groups[i];
      var h1 := if Key(a) in g.index then AfterAttributeGroups(g, h, g.index[Key(a)]) else Success(h);
      if h1.Success? {
        var produced := AliasFields(g, h1.value, a, true);
        if produced.Success? {
          var p2 := pending + NotPresent(produced.value, h1.value[s]);
          assert f in p2;
          BaseGroupsFromKeeps(g, h1.value, groups, s, i + 1, p2, f);
        }
      }
    }
  }

  /**
   * Every field contributed by group reference `j` (not yet passed) is named on slot `s` afterwards:
   * it was there already, or it is appended (for a reference with modifiers, as the field carrying the clone).
   * On a slot past the nodes, which no `extend_attribute_group` touches, a referenced field under a new name is itself appended.
   */
  lemma {:induction false} BaseGroupsFromOwn(g: Graph, h: Heap, groups: seq<Alias>, s: nat, i: nat, pending: seq<StructField>, j: nat, f: StructField)
    requires Fits(g, h) && s < |h| && i <= j < |groups|
    requires Contributes(g, h, groups[j], f)
    ensures var r := BaseGroupsFrom(g, h, groups, s, i, pending);
      r.Success? ==> Named(r.value[s], f.name)
    ensures var r := BaseGroupsFrom(g, h, groups, s, i, pending);
      r.Success? && |g.shapes| <= s && groups[j].typeModifiers == [] && !Named(h[s], f.name) ==> f in r.value[s]
    decreases |groups| - i
  {
    var a := groups[i];
    var x := g.index[Key(groups[j])];
    if Key(a) in g.index {
      AttributeGroupsGrow(g, h, g.index[Key(a)]);
    }
    var h1 := if Key(a) in g.index then AfterAttributeGroups(g, h, g.index[Key(a)]) else Success(h);
    if h1.Success? {
      if groups[j].typeModifiers == [] {
        InPrefix(h[x], h1.value[x], f);
      }
      var produced := AliasFields(g, h1.value, a, true);
      if produced.Success? {
        var p2 := pending + NotPresent(produced.value, h1.value[s]);
        var r := BaseGroupsFrom(g, h1.value, groups, s, i + 1, p2);
        if i < j {
          BaseGroupsFromOwn(g, h1.value, groups, s, i + 1, p2, j, f);
        } else if r.Success? {
          var f0 := if a.typeModifiers == [] then f else produced.value[0];
          assert f0 in produced.value && f0.name == f.name;
          if Named(h1.value[s], f.name) {
            BaseGroupsGrow(g, h1.value, groups, s, i + 1, p2);
            NamedPrefix(h1.value[s], r.value[s], f.name);
          } else {
            NotPresentKeeps(produced.value, h1.value[s], f0);
            assert f0 in p2;
            BaseGroupsFromKeeps(g, h1.value, groups, s, i + 1, p2, f0);
            NamedFrom(f0, r.value[s]);
          }
        }
      }
    }
  }

  lemma AttributeNamedIsNamed(fs: seq<StructField>, name: string)
    ensures AttributeNamed(fs, name) ==> Named(fs, name)
  {
    if AttributeNamed(fs, name) {
      var k :| 0 <= k < |fs| && fs[k].name == name && fs[k].source == StructFieldSource.Attribute;
    }
  }

  /** Every produced attribute-group field that `AdmitAttribute` admits is collected, as admitted. */
  lemma {:induction false} AdmitAllKeeps(produced: seq<StructField>, current: seq<StructField>, f: StructField)
    requires f in produced && AdmitAttribute(f, current).Some?
    ensures AdmitAttribute(f, current).value in AdmitAll(produced, current)
  {
    if produced[0] != f {
      AdmitAllKeeps(produced[1..], current, f);
    }
  }

  /** Every collected field is a produced field as `AdmitAttribute` admits it. */
  lemma {:induction false} AdmitAllSound(produced: seq<StructField>, current: seq<StructField>, k: nat)
    requires k < |AdmitAll(produced, current)|
    ensures exists p :: p in produced && AdmitAttribute(p, current) == Some(AdmitAll(produced, current)[k])
  {
    var first := AdmitAttribute(produced[0], current);
    var rest := AdmitAll(produced[1..], current);
    if first.Some? && k == 0 {
      assert AdmitAll(produced, current)[0] == first.value;
      assert produced[0] in produced;
    } else {
      var k1 := if first.Some? then k - 1 else k;
      assert AdmitAll(produced, current)[k] == rest[k1];
      AdmitAllSound(produced[1..], current, k1);
      var p :| p in produced[1..] && AdmitAttribute(p, current) == Some(rest[k1]);
      assert p in produced;
    }
  }

  /** The attribute-group loop of `extend_base` ends with every pending field on slot `s`. */
  lemma {:induction false} BaseAttributeGroupsFromKeeps(g: Graph, h: Heap, ags: seq<Alias>, s: nat, i: nat, pending: seq<StructField>, extended: seq<Struct>, f: StructField)
    requires Fits(g, h) && s < |h| && i <= |ags| && f in pending
    ensures var r := BaseAttributeGroupsFrom(g, h, ags, s, i, pending, extended);
      r.Success? ==> f in r.value.0[s]
    decreases |ags| - i
  {
    if i == |ags| {
      var r: Heap := h[s := h[s] + pending];
      assert f in r[s];
    } else {
      var a := ags[i];
      var h1 := if Key(a) in g.index then AfterAttributeGroups(g, h, g.index[Key(a)]) else Success(h);
      if h1.Success? && !(a.typeModifiers != [] && Key(a) !in g.index) {
        var extended1 := if a.typeModifiers != [] then extended + [Materialize(g, h1.value, g.index[Key(a)])] else extended;
        var pending1 := pending + AdmitAll(AliasFields(g, h1.value, a, false).value, h1.value[s]);
        assert f in pending1;
        BaseAttributeGroupsFromKeeps(g, h1.value, ags, s, i + 1, pending1, extended1, f);
      }
    }
  }

  /**
   * Every field contributed by attribute-group reference `j` (not yet passed) is named on slot `s` afterwards:
   * dropped because an attribute has its name, appended as `<name>_attr` beside another field of its name, or appended unchanged.
   * On a slot past the nodes the admitted field itself is appended.
   */
  lemma {:induction false} BaseAttributeGroupsFromOwn(g: Graph, h: Heap, ags: seq<Alias>, s: nat, i: nat, pending: seq<StructField>,
                                                     extended: seq<Struct>, j: nat, f: StructField)
    requires Fits(g, h) && s < |h| && i <= j < |ags|
    requires Contributes(g, h, ags[j], f)
    ensures var r := BaseAttributeGroupsFrom(g, h, ags, s, i, pending, extended);
      r.Success? ==> Named(r.value.0[s], f.name)
    ensures var r := BaseAttributeGroupsFrom(g, h, ags, s, i, pending, extended);
      r.Success? && |g.shapes| <= s && AdmitAttribute(f, h[s]).Some? ==> AdmitAttribute(f, h[s]).value in r.value.0[s]
    decreases |ags| - i
  {
    var a := ags[i];
    var x := g.index[Key(ags[j])];
    if Key(a) in g.index {
      AttributeGroupsGrow(g, h, g.index[Key(a)]);
    }
    var h1 := if Key(a) in g.index then AfterAttributeGroups(g, h, g.index[Key(a)]) else Success(h);
    if h1.Success? && !(a.typeModifiers != [] && Key(a) !in g.index) {
      if ags[j].typeModifiers == [] {
        InPrefix(h[x], h1.value[x], f);
      }
      var extended1 := if a.typeModifiers != [] then extended + [Materialize(g, h1.value, g.index[Key(a)])] else extended;
      var produced := AliasFields(g, h1.value, a, false).value;
      var pending1 := pending + AdmitAll(produced, h1.value[s]);
      var r := BaseAttributeGroupsFrom(g, h1.value, ags, s, i + 1, pending1, extended1);
      if i < j {
        BaseAttributeGroupsFromOwn(g, h1.value, ags, s, i + 1, pending1, extended1, j, f);
      } else if r.Success? {
        assert f in produced;
        var admitted := AdmitAttribute(f, h1.value[s]);
        if admitted.Some? {
          AdmitAllKeeps(produced, h1.value[s], f);
          assert admitted.value in pending1;
          BaseAttributeGroupsFromKeeps(g, h1.value, ags, s, i + 1, pending1, extended1, admitted.value);
        }
        if Named(h1.value[s], f.name) {
          BaseAttributeGroupsGrow(g, h1.value, ags, s, i + 1, pending1, extended1);
          NamedPrefix(h1.value[s], r.value.0[s], f.name);
        } else {
          AttributeNamedIsNamed(h1.value[s], f.name);
          NamedFrom(f, r.value.0[s]);
        }
      }
    }
  }

  /** The nodes cloned for the references with modifiers among `ags`, in order. */
  function CloneIds(g: Graph, ags: seq<Alias>): seq<nat>
  {
    if ags == [] then []
    else (if ags[0].typeModifiers != [] && Key(ags[0]) in g.index then [g.index[Key(ags[0])]] else []) + CloneIds(g, ags[1..])
  }

  lemma CloneIdsAt(g: Graph, ags: seq<Alias>, i: nat)
    requires i < |ags|
    ensures CloneIds(g, ags[i..]) ==
      (if ags[i].typeModifiers != [] && Key(ags[i]) in g.index then [g.index[Key(ags[i])]] else []) + CloneIds(g, ags[i + 1..])
  {
    assert ags[i..][1..] == ags[i + 1..];
  }

  /**
   * `st` is node `x` as `extend_base` clones it: after `x`'s own `extend_attribute_group`,
   * run on the heap as earlier references have left it (one grown from `h`).
   */
  ghost predicate ClonedFrom(g: Graph, h: Heap, st: Struct, x: nat)
  {
    && x < |g.shapes|
    && exists hk :: Grows(h, hk) && Fits(g, hk) && AfterAttributeGroups(g, hk, x).Success? &&
         st == Materialize(g, AfterAttributeGroups(g, hk, x).value, x)
  }

  ghost predicate ClonesFrom(g: Graph, h: Heap, sts: seq<Struct>, ids: seq<nat>)
  {
    |sts| == |ids| && forall k :: 0 <= k < |ids| ==> ClonedFrom(g, h, sts[k], ids[k])
  }

  lemma ClonedFromEarlier(g: Graph, h0: Heap, h: Heap, st: Struct, x: nat)
    requires Grows(h0, h) && ClonedFrom(g, h, st, x)
    ensures ClonedFrom(g, h0, st, x)
  {
    var hk :| Grows(h, hk) && Fits(g, hk) && AfterAttributeGroups(g, hk, x).Success? &&
      st == Materialize(g, AfterAttributeGroups(g, hk, x).value, x);
    GrowsTrans(h0, h, hk);
  }

  /** A clone is the referenced struct with its own fields first and its attribute groups already spliced in. */
  lemma ClonedShape(g: Graph, h: Heap, st: Struct, x: nat)
    requires ClonedFrom(g, h, st, x)
    ensures st.name == g.shapes[x].name && st.comment == g.shapes[x].comment && st.attributeGroups == g.shapes[x].attributeGroups
    ensures h[x] <= st.fields
  {
    var hk :| Grows(h, hk) && Fits(g, hk) && AfterAttributeGroups(g, hk, x).Success? &&
      st == Materialize(g, AfterAttributeGroups(g, hk, x).value, x);
    AttributeGroupsGrow(g, hk, x);
    GrowsTrans(h, hk, AfterAttributeGroups(g, hk, x).value);
  }

  /** Every field an attribute group of the referenced struct contributes is named in the clone. */
  lemma ClonedOwn(g: Graph, h: Heap, st: Struct, x: nat, j: nat, f: StructField)
    requires Fits(g, h) && ClonedFrom(g, h, st, x) && j < |g.shapes[x].attributeGroups|
    requires Contributes(g, h, g.shapes[x].attributeGroups[j], f)
    ensures Named(st.fields, f.name)
  {
    var hk :| Grows(h, hk) && Fits(g, hk) && AfterAttributeGroups(g, hk, x).Success? &&
      st == Materialize(g, AfterAttributeGroups(g, hk, x).value, x);
    var a := g.shapes[x].attributeGroups[j];
    if a.typeModifiers == [] {
      InPrefix(h[g.index[Key(a)]], hk[g.index[Key(a)]], f);
    }
    AttributeGroupsOwn(g, hk, x, j, f);
  }

  /**
   * The attribute-group loop of `extend_base` returns one clone per reference with
   * modifiers, in order: the referenced struct after its own `extend_attribute_group`;
   * a reference without modifiers adds none.
   */
  lemma {:induction false} BaseAttributeGroupsClones(g: Graph, h: Heap, ags: seq<Alias>, s: nat, i: nat, pending: seq<StructField>, extended: seq<Struct>)
    requires Fits(g, h) && s < |h| && i <= |ags|
    ensures var r := BaseAttributeGroupsFrom(g, h, ags, s, i, pending, extended);
      r.Success? ==> extended <= r.value.1 && ClonesFrom(g, h, r.value.1[|extended|..], CloneIds(g, ags[i..]))
    decreases |ags| - i
  {
    if i == |ags| {
      assert ags[i..] == [];
      assert extended[|extended|..] == [];
    } else {
      var a := ags[i];
      var h1 := if Key(a) in g.index then AfterAttributeGroups(g, h, g.index[Key(a)]) else Success(h);
      if Key(a) in g.index {
        AttributeGroupsGrow(g, h, g.index[Key(a)]);
      }
      if h1.Success? && !(a.typeModifiers != [] && Key(a) !in g.index) {
        var extended1 := if a.typeModifiers != [] then extended + [Materialize(g, h1.value, g.index[Key(a)])] else extended;
        var pending1 := pending + AdmitAll(AliasFields(g, h1.value, a, false).value, h1.value[s]);
        BaseAttributeGroupsClones(g, h1.value, ags, s, i + 1, pending1, extended1);
        CloneIdsAt(g, ags, i);
        var r := BaseAttributeGroupsFrom(g, h1.value, ags, s, i + 1, pending1, extended1);
        assert BaseAttributeGroupsFrom(g, h, ags, s, i, pending, extended) == r;
        if r.Success? {
          var cid := if a.typeModifiers != [] then [g.index[Key(a)]] else [];
          if a.typeModifiers != [] {
            ClonedNow(g, h, g.index[Key(a)]);
          }
          assert ClonesFrom(g, h, extended1[|extended|..], cid);
          SplitAfter(extended, extended1, r.value.1);
          ClonesJoin(g, h, h1.value, extended1[|extended|..], cid, r.value.1[|extended1|..], CloneIds(g, ags[i + 1..]));
        }
      }
    }
  }

  /** The node as its own `extend_attribute_group` leaves it is a clone in the sense of `ClonedFrom`. */
  lemma ClonedNow(g: Graph, h: Heap, x: nat)
    requires Fits(g, h) && x < |g.shapes| && AfterAttributeGroups(g, h, x).Success?
    ensures ClonedFrom(g, h, Materialize(g, AfterAttributeGroups(g, h, x).value, x), x)
  {
    assert Grows(h, h);
  }

  lemma SplitAfter(a: seq<Struct>, b: seq<Struct>, c: seq<Struct>)
    requires a <= b <= c
    ensures a <= c && c[|a|..] == b[|a|..] + c[|b|..]
  {
  }

  lemma ClonesJoin(g: Graph, h: Heap, h1: Heap, c: seq<Struct>, cid: seq<nat>, t: seq<Struct>, tid: seq<nat>)
    requires Grows(h, h1) && ClonesFrom(g, h, c, cid) && ClonesFrom(g, h1, t, tid)
    ensures ClonesFrom(g, h, c + t, cid + tid)
  {
    forall k | 0 <= k < |cid + tid|
      ensures ClonedFrom(g, h, (c + t)[k], (cid + tid)[k])
    {
      if k >= |cid| {
        ClonedFromEarlier(g, h, h1, t[k - |cid|], tid[k - |cid|]);
      }
    }
  }

  /** `get_types_map` of node `id`: its own name first, then each nested struct's map laid over it. */
  function TypesMap(shapes: seq<Shape>, id: nat): (m: map<string, nat>)
    requires ChildrenBelow(shapes) && id < |shapes|
    ensures shapes[id].name in m
    ensures forall k :: k in m ==> m[k] <= id && shapes[m[k]].name == k
    decreases id, 1, 0
  {
    TypesMapFrom(shapes, id, 0, map[shapes[id].name := id])
  }

  function TypesMapFrom(shapes: seq<Shape>, id: nat, j: nat, m: map<string, nat>): (r: map<string, nat>)
    requires ChildrenBelow(shapes) && id < |shapes| && j <= |shapes[id].subtypes|
    requires forall k :: k in m ==> m[k] <= id && shapes[m[k]].name == k
    ensures m.Keys <= r.Keys
    ensures forall k :: k in r ==> r[k] <= id && shapes[r[k]].name == k
    decreases id, 0, |shapes[id].subtypes| - j
  {
    var subs := shapes[id].subtypes;
    if j == |subs| then m
    else TypesMapFrom(shapes, id, j + 1, if subs[j].Child? then m + TypesMap(shapes, subs[j].id) else m)
  }

  /** Whether the map of one of the nested structs `j..` of `id` has `key`. */
  predicate NestedHas(shapes: seq<Shape>, id: nat, j: nat, key: string)
    requires ChildrenBelow(shapes) && id < |shapes|
  {
    exists j' :: j <= j' < |shapes[id].subtypes| && shapes[id].subtypes[j'].Child? && key in TypesMap(shapes, shapes[id].subtypes[j'].id)
  }

  /** The fold keeps an entry no later nested map has, and replaces one that some later map has. */
  lemma {:induction false} TypesMapFromEntry(shapes: seq<Shape>, id: nat, j: nat, m: map<string, nat>, key: string)
    requires ChildrenBelow(shapes) && id < |shapes| && j <= |shapes[id].subtypes|
    requires forall k :: k in m ==> m[k] <= id && shapes[m[k]].name == k
    ensures !NestedHas(shapes, id, j, key) ==> (key in TypesMapFrom(shapes, id, j, m) <==> key in m)
    ensures !NestedHas(shapes, id, j, key) && key in m ==> TypesMapFrom(shapes, id, j, m)[key] == m[key]
    ensures NestedHas(shapes, id, j, key) ==> key in TypesMapFrom(shapes, id, j, m) && TypesMapFrom(shapes, id, j, m)[key] < id
    decreases |shapes[id].subtypes| - j
  {
    var subs := shapes[id].subtypes;
    if j < |subs| {
      var m1 := if subs[j].Child? then m + TypesMap(shapes, subs[j].id) else m;
      TypesMapFromEntry(shapes, id, j + 1, m1, key);
      if NestedHas(shapes, id, j, key) && !NestedHas(shapes, id, j + 1, key) {
        assert subs[j].Child? && key in TypesMap(shapes, subs[j].id);
      }
      if !NestedHas(shapes, id, j, key) && subs[j].Child? {
        assert key !in TypesMap(shapes, subs[j].id);
      }
    }
  }

  /** The root keeps its own entry exactly when no nested struct has the same name; otherwise the nested one wins. */
  lemma TypesMapRoot(shapes: seq<Shape>, id: nat)
    requires ChildrenBelow(shapes) && id < |shapes|
    ensures TypesMap(shapes, id)[shapes[id].name] == id <==> !NestedHas(shapes, id, 0, shapes[id].name)
  {
    TypesMapFromEntry(shapes, id, 0, map[shapes[id].name := id], shapes[id].name);
  }

  /** Every name in a nested struct's map is in the map of the struct holding it. */
  lemma TypesMapCovers(shapes: seq<Shape>, id: nat, j: nat, key: string)
    requires ChildrenBelow(shapes) && id < |shapes| && j < |shapes[id].subtypes| && shapes[id].subtypes[j].Child?
    requires key in TypesMap(shapes, shapes[id].subtypes[j].id)
    ensures key in TypesMap(shapes, id)
  {
    TypesMapFromEntry(shapes, id, 0, map[shapes[id].name := id], key);
  }
}
