/**
 * The resolution step of `parse` in xsd-parser/src/parser/mod.rs: index every struct of
 * the schema by name, extend each top-level struct, and hoist the synthesized types.
 * The schema's structs are given laid out as the nodes of a `Graph`.
 */
module Schema {
  import opened Wrappers
  import opened Types
  import opened Resolve
  import opened Extension

  /** A top-level entity: a struct (a node), or any other entity. */
  datatype Top = TopStruct(id: nat) | TopOther(entity: RsEntity)

  predicate TopsFit(shapes: seq<Shape>, tops: seq<Top>)
  {
    forall i :: 0 <= i < |tops| && tops[i].TopStruct? ==> tops[i].id < |shapes|
  }

  /** What one top-level entity adds to the index: a struct's `get_types_map`, anything else nothing. */
  function MapOf(shapes: seq<Shape>, t: Top): map<string, nat>
    requires ChildrenBelow(shapes) && (t.TopStruct? ==> t.id < |shapes|)
  {
    if t.TopStruct? then TypesMap(shapes, t.id) else map[]
  }

  /** `map.extend(st.get_types_map())` over `tops` in order. */
  function Index(shapes: seq<Shape>, tops: seq<Top>): (m: map<string, nat>)
    requires ChildrenBelow(shapes) && TopsFit(shapes, tops)
    ensures forall k :: k in m ==> m[k] < |shapes| && shapes[m[k]].name == k
  {
    if tops == [] then map[]
    else
      var last := tops[|tops| - 1];
      Index(shapes, tops[..|tops| - 1]) + MapOf(shapes, last)
  }

  lemma TopsFitConcat(shapes: seq<Shape>, a: seq<Top>, b: seq<Top>)
    requires TopsFit(shapes, a) && TopsFit(shapes, b)
    ensures TopsFit(shapes, a + b)
  {
    forall i | 0 <= i < |a + b| && (a + b)[i].TopStruct?
      ensures (a + b)[i].id < |shapes|
    {
      if i >= |a| {
        assert (a + b)[i] == b[i - |a|];
      } else {
        assert (a + b)[i] == a[i];
      }
    }
  }

  lemma TopsFitPrefix(shapes: seq<Shape>, a: seq<Top>, n: nat)
    requires TopsFit(shapes, a) && n <= |a|
    ensures TopsFit(shapes, a[..n])
  {
    forall i | 0 <= i < n && a[..n][i].TopStruct?
      ensures a[..n][i].id < |shapes|
    {
      assert a[..n][i] == a[i];
    }
  }

  lemma MapUnionAssoc(x: map<string, nat>, y: map<string, nat>, z: map<string, nat>)
    ensures (x + y) + z == x + (y + z)
  {
  }

  /** Indexing one list after another is laying the second index over the first. */
  lemma {:induction false} IndexAppend(shapes: seq<Shape>, a: seq<Top>, b: seq<Top>)
    requires ChildrenBelow(shapes) && TopsFit(shapes, a) && TopsFit(shapes, b)
    ensures TopsFit(shapes, a + b)
    ensures Index(shapes, a + b) == Index(shapes, a) + Index(shapes, b)
    decreases |b|
  {
    TopsFitConcat(shapes, a, b);
    if b == [] {
      assert a + b == a;
    } else {
      var b' := b[..|b| - 1];
      var last := b[|b| - 1];
      assert (a + b)[..|a + b| - 1] == a + b';
      assert (a + b)[|a + b| - 1] == last;
      TopsFitPrefix(shapes, b, |b| - 1);
      IndexAppend(shapes, a, b');
      MapUnionAssoc(Index(shapes, a), Index(shapes, b'), MapOf(shapes, last));
    }
  }

  /** The three loops of `parse`: types, then attribute groups, then groups. */
  function SchemaIndex(shapes: seq<Shape>, types: seq<Top>, attributeGroups: seq<Top>, groups: seq<Top>): map<string, nat>
    requires ChildrenBelow(shapes) && TopsFit(shapes, types) && TopsFit(shapes, attributeGroups) && TopsFit(shapes, groups)
  {
    IndexAppend(shapes, types, attributeGroups);
    IndexAppend(shapes, types + attributeGroups, groups);
    Index(shapes, types + attributeGroups + groups)
  }

  /**
   * On a name clash the later category decides: a group's entry wins over everything,
   * an attribute group's over the types', and a name found only among the types keeps that entry.
   */
  lemma IndexPrecedence(shapes: seq<Shape>, types: seq<Top>, attributeGroups: seq<Top>, groups: seq<Top>, key: string)
    requires ChildrenBelow(shapes) && TopsFit(shapes, types) && TopsFit(shapes, attributeGroups) && TopsFit(shapes, groups)
    ensures var m := SchemaIndex(shapes, types, attributeGroups, groups);
      && (key in Index(shapes, groups) ==> key in m && m[key] == Index(shapes, groups)[key])
      && (key !in Index(shapes, groups) && key in Index(shapes, attributeGroups) ==>
            key in m && m[key] == Index(shapes, attributeGroups)[key])
      && (key !in Index(shapes, groups) && key !in Index(shapes, attributeGroups) ==>
            (key in m <==> key in Index(shapes, types)) && (key in m ==> m[key] == Index(shapes, types)[key]))
  {
    IndexAppend(shapes, types, attributeGroups);
    IndexAppend(shapes, types + attributeGroups, groups);
  }

  /** Non-struct top-level entities are not indexed. */
  lemma OthersNotIndexed(shapes: seq<Shape>, tops: seq<Top>, e: RsEntity)
    requires ChildrenBelow(shapes) && TopsFit(shapes, tops)
    ensures TopsFit(shapes, tops + [TopOther(e)])
    ensures Index(shapes, tops + [TopOther(e)]) == Index(shapes, tops)
  {
    IndexAppend(shapes, tops, [TopOther(e)]);
    assert [TopOther(e)][..0] == [];
  }

  /** Indexing one more top-level entity after `done + tops[..i]` extends the index by that entity's map. */
  lemma IndexStep(shapes: seq<Shape>, done: seq<Top>, tops: seq<Top>, i: nat)
    requires ChildrenBelow(shapes) && TopsFit(shapes, done) && TopsFit(shapes, tops) && i < |tops|
    ensures TopsFit(shapes, done + tops[..i]) && TopsFit(shapes, done + tops[..i + 1])
    ensures Index(shapes, done + tops[..i + 1]) == Index(shapes, done + tops[..i]) + MapOf(shapes, tops[i])
  {
    TopsFitPrefix(shapes, tops, i);
    TopsFitPrefix(shapes, tops, i + 1);
    TopsFitConcat(shapes, done, tops[..i]);
    TopsFitConcat(shapes, done, tops[..i + 1]);
    var next := done + tops[..i + 1];
    assert next[..|next| - 1] == done + tops[..i];
    assert next[|next| - 1] == tops[i];
  }

  /** The body of an indexing loop: `if let RsEntity::Struct(st) = ty { st.get_types_map() }`. */
  method TopMap(shapes: seq<Shape>, t: Top) returns (m: map<string, nat>)
    requires ChildrenBelow(shapes) && (t.TopStruct? ==> t.id < |shapes|)
    ensures m == MapOf(shapes, t)
  {
    if t.TopStruct? {
      m := GetTypesMap(shapes, t.id);
    } else {
      m := map[];
    }
  }

  /**
   * One indexing loop of `parse`: `map.extend(st.get_types_map())` for each struct of
   * `tops`, starting from the index of the entities `done` before them.
   */
  method ExtendIndex(shapes: seq<Shape>, done: seq<Top>, tops: seq<Top>, start: map<string, nat>) returns (index: map<string, nat>)
    requires ChildrenBelow(shapes) && TopsFit(shapes, done) && TopsFit(shapes, tops)
    requires start == Index(shapes, done)
    ensures TopsFit(shapes, done + tops) && index == Index(shapes, done + tops)
  {
    index := start;
    var i := 0;
    assert done + tops[..0] == done;
    while i < |tops|
      invariant 0 <= i <= |tops|
      invariant TopsFit(shapes, done + tops[..i]) && index == Index(shapes, done + tops[..i])
    {
      IndexStep(shapes, done, tops, i);
      var m := TopMap(shapes, tops[i]);
      index := index + m;
      i := i + 1;
    }
    assert tops[..i] == tops;
  }

  /** The three indexing loops of `parse`: types, then attribute groups, then groups. */
  method BuildIndex(shapes: seq<Shape>, types: seq<Top>, attributeGroups: seq<Top>, groups: seq<Top>) returns (index: map<string, nat>)
    requires ChildrenBelow(shapes) && TopsFit(shapes, types) && TopsFit(shapes, attributeGroups) && TopsFit(shapes, groups)
    ensures index == SchemaIndex(shapes, types, attributeGroups, groups)
  {
    assert TopsFit(shapes, []);
    index := ExtendIndex(shapes, [], types, map[]);
    assert [] + types == types;
    index := ExtendIndex(shapes, types, attributeGroups, index);
    index := ExtendIndex(shapes, types + attributeGroups, groups, index);
  }

  /** One top-level struct: `extend_base`, then `extend_attribute_group`, then `extend_group`. */
  function ExtendOne(g: Graph, h: Heap, id: nat): (r: Result<(Heap, seq<Struct>), Panic>)
    requires Fits(g, h) && id < |g.shapes|
    ensures r.Success? ==> SameSlots(g, h, r.value.0)
  {
    var based := AfterBase(g, h, Node(id), id);
    if based.Failure? then Failure(based.error)
    else
      var attributed := AfterAttributeGroups(g, based.value.heap, id);
      if attributed.Failure? then Failure(attributed.error)
      else
        var grouped := AfterGroups(g, attributed.value, id);
        if grouped.Failure? then Failure(grouped.error)
        else Success((grouped.value, based.value.extended))
  }

  /** The extension loop of `parse` from top-level entity `i` on, collecting the synthesized types. */
  function ExtendFrom(g: Graph, h: Heap, types: seq<Top>, i: nat, extended: seq<Struct>): (r: Result<(Heap, seq<Struct>), Panic>)
    requires Fits(g, h) && TopsFit(g.shapes, types) && i <= |types|
    ensures r.Success? ==> |r.value.0| == |h|
    decreases |types| - i
  {
    if i == |types| then Success((h, extended))
    else if types[i].TopOther? then ExtendFrom(g, h, types, i + 1, extended)
    else
      var one := ExtendOne(g, h, types[i].id);
      if one.Failure? then Failure(one.error)
      else ExtendFrom(g, one.value.0, types, i + 1, extended + one.value.1)
  }

  /** `extend_base`, `extend_attribute_group` and `extend_group` of one top-level struct, on the arena. */
  method ExtendTop(arena: Arena, id: nat) returns (panic: Option<Panic>, extended: seq<Struct>)
    requires arena.Valid() && id < |arena.g.shapes|
    modifies arena
    ensures var r := ExtendOne(arena.g, old(arena.fields), id);
      if r.Success? then panic.None? && arena.fields == r.value.0 && extended == r.value.1 else panic == Some(r.error)
  {
    var rest;
    panic, extended, rest := arena.ExtendBase(Node(id), id);
    if panic.Some? {
      return;
    }
    panic := arena.ExtendAttributeGroup(id);
    if panic.Some? {
      return;
    }
    panic := arena.ExtendGroup(id);
  }

  /** Non-struct top-level entities are not extended: skipping one changes nothing. */
  lemma OthersNotExtended(g: Graph, h: Heap, types: seq<Top>, e: RsEntity, extended: seq<Struct>)
    requires Fits(g, h) && TopsFit(g.shapes, types)
    ensures TopsFit(g.shapes, [TopOther(e)] + types)
    ensures ExtendFrom(g, h, [TopOther(e)] + types, 0, extended) == ExtendFrom(g, h, types, 0, extended)
  {
    assert TopsFit(g.shapes, [TopOther(e)] + types) by {
      forall i | 0 <= i < |types| + 1 && ([TopOther(e)] + types)[i].TopStruct?
        ensures ([TopOther(e)] + types)[i].id < |g.shapes|
      {
        assert ([TopOther(e)] + types)[i] == types[i - 1];
      }
    }
    assert ([TopOther(e)] + types)[1..] == types[0..];
    ExtendShift(g, h, [TopOther(e)] + types, 1, types, 0, extended);
  }

  /** One step of the loop, unfolded. */
  lemma ExtendFromStep(g: Graph, h: Heap, types: seq<Top>, i: nat, extended: seq<Struct>)
    requires Fits(g, h) && TopsFit(g.shapes, types) && i < |types|
    ensures ExtendFrom(g, h, types, i, extended) ==
      if types[i].TopOther? then ExtendFrom(g, h, types, i + 1, extended)
      else
        var one := ExtendOne(g, h, types[i].id);
        if one.Failure? then Failure(one.error) else ExtendFrom(g, one.value.0, types, i + 1, extended + one.value.1)
  {
  }

  /** The loop depends only on the entities still ahead: two lists with the same suffix give the same run. */
  lemma {:induction false} ExtendShift(g: Graph, h: Heap, a: seq<Top>, i: nat, b: seq<Top>, j: nat, extended: seq<Struct>)
    requires Fits(g, h) && TopsFit(g.shapes, a) && TopsFit(g.shapes, b) && i <= |a| && j <= |b| && a[i..] == b[j..]
    ensures ExtendFrom(g, h, a, i, extended) == ExtendFrom(g, h, b, j, extended)
    decreases |a| - i
  {
    assert |a| - i == |b| - j;
    if i < |a| {
      assert a[i] == a[i..][0] == b[j..][0] == b[j];
      assert a[i + 1..] == a[i..][1..] == b[j..][1..] == b[j + 1..];
      if a[i].TopOther? {
        ExtendShift(g, h, a, i + 1, b, j + 1, extended);
      } else {
        var one := ExtendOne(g, h, a[i].id);
        if one.Success? {
          ExtendShift(g, one.value.0, a, i + 1, b, j + 1, extended + one.value.1);
        }
      }
    }
  }

  /** The names of the top-level structs, the only names a hoisted type is checked against. */
  function TopNames(shapes: seq<Shape>, types: seq<Top>): set<string>
    requires TopsFit(shapes, types)
  {
    set i | 0 <= i < |types| && types[i].TopStruct? :: shapes[types[i].id].name
  }

  /** `extended_types.into_iter().filter(…)`: the synthesized types whose names no top-level struct has. */
  function Hoist(extended: seq<Struct>, names: set<string>): (r: seq<Struct>)
    ensures forall i :: 0 <= i < |r| ==> r[i].name !in names
    ensures forall st :: st in r <==> st in extended && st.name !in names
  {
    if extended == [] then []
    else (if extended[0].name in names then [] else [extended[0]]) + Hoist(extended[1..], names)
  }

  /**
   * Deduplication is only against the existing types: synthesized types whose names no
   * top-level struct has are all kept, in order, however many share a name.
   */
  lemma {:induction false} HoistKeepsDuplicates(extended: seq<Struct>, names: set<string>)
    requires forall i :: 0 <= i < |extended| ==> extended[i].name !in names
    ensures Hoist(extended, names) == extended
  {
    if extended != [] {
      HoistKeepsDuplicates(extended[1..], names);
      assert [extended[0]] + extended[1..] == extended;
    }
  }

  /** Hoisting keeps the order of the synthesized types: it distributes over concatenation. */
  lemma {:induction false} HoistAppend(a: seq<Struct>, b: seq<Struct>, names: set<string>)
    ensures Hoist(a + b, names) == Hoist(a, names) + Hoist(b, names)
  {
    if a == [] {
      assert a + b == b;
    } else {
      assert (a + b)[1..] == a[1..] + b;
      HoistAppend(a[1..], b, names);
    }
  }

  /** A top-level entity as the types list has it after resolution. */
  function Entity(g: Graph, h: Heap, t: Top): RsEntity
    requires Fits(g, h) && (t.TopStruct? ==> t.id < |g.shapes|)
  {
    match t
    case TopStruct(id) => StructEntity(Materialize(g, h, id))
    case TopOther(e) => e
  }

  /** The whole resolution step of `parse`: the types list it leaves in the schema. */
  function Resolved(g: Graph, h: Heap, types: seq<Top>): (r: Result<seq<RsEntity>, Panic>)
    requires Fits(g, h) && TopsFit(g.shapes, types)
    ensures r.Success? <==> ExtendFrom(g, h, types, 0, []).Success?
    ensures r.Success? ==> |r.value| >= |types|
    ensures r.Success? ==> var x := ExtendFrom(g, h, types, 0, []).value;
      && (forall i :: 0 <= i < |types| ==> r.value[i] == Entity(g, x.0, types[i]))
      && r.value[|types|..] == Wrap(Hoist(x.1, TopNames(g.shapes, types)))
  {
    var x := ExtendFrom(g, h, types, 0, []);
    if x.Failure? then Failure(x.error)
    else
      var originals := seq(|types|, i requires 0 <= i < |types| => Entity(g, x.value.0, types[i]));
      var hoisted := Wrap(Hoist(x.value.1, TopNames(g.shapes, types)));
      assert (originals + hoisted)[|types|..] == hoisted;
      Success(originals + hoisted)
  }

  function Wrap(sts: seq<Struct>): seq<RsEntity>
  {
    seq(|sts|, i requires 0 <= i < |sts| => StructEntity(sts[i]))
  }

  /** The extension loop of `parse` over every top-level struct, on the arena. */
  method ExtendAll(arena: Arena, types: seq<Top>) returns (panic: Option<Panic>, extended: seq<Struct>)
    requires arena.Valid() && TopsFit(arena.g.shapes, types)
    modifies arena
    ensures var r := ExtendFrom(arena.g, old(arena.fields), types, 0, []);
      if r.Success? then panic.None? && arena.fields == r.value.0 && extended == r.value.1 else panic == Some(r.error)
  {
    extended := [];
    var i := 0;
    while i < |types|
      invariant 0 <= i <= |types|
      invariant arena.Valid()
      invariant ExtendFrom(arena.g, old(arena.fields), types, 0, []) == ExtendFrom(arena.g, arena.fields, types, i, extended)
    {
      ExtendFromStep(arena.g, arena.fields, types, i, extended);
      if types[i].TopStruct? {
        var p, more := ExtendTop(arena, types[i].id);
        if p.Some? {
          return p, extended;
        }
        extended := extended + more;
      }
      i := i + 1;
    }
    return Option.None, extended;
  }

  /** `parse` after the schema is read: the index, the extension loop on an arena, and the hoisting. */
  method Parse(shapes: seq<Shape>, rank: seq<nat>, heap: Heap, types: seq<Top>, attributeGroups: seq<Top>, groups: seq<Top>)
    returns (r: Result<seq<RsEntity>, Panic>)
    requires ChildrenBelow(shapes) && TopsFit(shapes, types) && TopsFit(shapes, attributeGroups) && TopsFit(shapes, groups)
    requires |heap| == |shapes| && WellFormed(Graph(shapes, SchemaIndex(shapes, types, attributeGroups, groups), rank))
    ensures r == Resolved(Graph(shapes, SchemaIndex(shapes, types, attributeGroups, groups), rank), heap, types)
  {
    var index := BuildIndex(shapes, types, attributeGroups, groups);
    var arena := new Arena(Graph(shapes, index, rank), heap);
    var panic, extended := ExtendAll(arena, types);
    if panic.Some? {
      return Failure(panic.value);
    }
    var names := TopNames(shapes, types);
    var fields := arena.fields;
    var originals := seq(|types|, k requires 0 <= k < |types| => Entity(arena.g, fields, types[k]));
    r := Success(originals + Wrap(Hoist(extended, names)));
  }
}
