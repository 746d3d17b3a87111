/**
 * The resolver of xsd-parser/src/parser/types.rs as it runs: an arena whose field
 * lists the `extend_*` methods rewrite in place, each method proved to leave the
 * arena as the corresponding function of `Resolve` says.
 */
module Extension {
  import opened Wrappers
  import opened Strings
  import opened Types
  import opened Resolve

  /** A method that may panic ends as `spec` says: in its heap on success, with its panic otherwise. */
  predicate Mirrors(spec: Result<Heap, Panic>, panic: Option<Panic>, h: Heap)
  {
    if spec.Success? then panic.None? && h == spec.value else panic == Some(spec.error)
  }

  /** Every `Struct` reachable through the name index, with its `RefCell` field list in `fields`. */
  class Arena {
    const g: Graph
    var fields: Heap

    ghost predicate Valid()
      reads this
    {
      Fits(g, fields)
    }

    constructor (g: Graph, fields: Heap)
      requires Fits(g, fields)
      ensures this.g == g && this.fields == fields
    {
      this.g := g;
      this.fields := fields;
    }

    /** `Struct::extend_attribute_group` on node `id`. */
    method ExtendAttributeGroup(id: nat) returns (panic: Option<Panic>)
      requires Valid() && id < |g.shapes|
      modifies this
      ensures Mirrors(AfterAttributeGroups(g, old(fields), id), panic, fields)
      decreases g.rank[id]
    {
      var ags := g.shapes[id].attributeGroups;
      var pending: seq<StructField> := [];
      var i := 0;
      while i < |ags|
        invariant 0 <= i <= |ags|
        invariant Valid()
        invariant AfterAttributeGroups(g, old(fields), id) == AttributeGroupsFrom(g, fields, id, i, pending)
      {
        var a := ags[i];
        ghost var before := fields;
        if Key(a) in g.index {
          panic := ExtendAttributeGroup(g.index[Key(a)]);
          if panic.Some? {
            return;
          }
        }
        var produced := AliasFields(g, fields, a, false);
        if produced.Failure? {
          return Some(produced.error);
        }
        assert AttributeGroupsFrom(g, before, id, i, pending)
            == AttributeGroupsFrom(g, fields, id, i + 1, pending + NotPresent(produced.value, fields[id]));
        pending := pending + NotPresent(produced.value, fields[id]);
        i := i + 1;
      }
      fields := fields[id := fields[id] + pending];
      return Option.None;
    }

    /** `Struct::extend_group` on node `id`: its group references, then its nested structs. */
    method ExtendGroup(id: nat) returns (panic: Option<Panic>)
      requires Valid() && id < |g.shapes|
      modifies this
      ensures Mirrors(AfterGroups(g, old(fields), id), panic, fields)
      decreases id
    {
      var groups := g.shapes[id].groups;
      var pending: seq<StructField> := [];
      var i := 0;
      while i < |groups|
        invariant 0 <= i <= |groups|
        invariant Valid()
        invariant AfterGroups(g, old(fields), id) == GroupsFrom(g, fields, id, i, pending)
      {
        var a := groups[i];
        ghost var before := fields;
        if Key(a) in g.index {
          panic := ExtendAttributeGroup(g.index[Key(a)]);
          if panic.Some? {
            return;
          }
        }
        var produced := AliasFields(g, fields, a, false);
        if produced.Failure? {
          return Some(produced.error);
        }
        assert GroupsFrom(g, before, id, i, pending)
            == GroupsFrom(g, fields, id, i + 1, pending + NotPresent(produced.value, fields[id]));
        pending := pending + NotPresent(produced.value, fields[id]);
        i := i + 1;
      }
      fields := fields[id := fields[id] + pending];
      var subs := g.shapes[id].subtypes;
      var j := 0;
      while j < |subs|
        invariant 0 <= j <= |subs|
        invariant Valid()
        invariant AfterGroups(g, old(fields), id) == GroupChildren(g, fields, id, j)
      {
        if subs[j].Child? {
          panic := ExtendGroup(subs[j].id);
          if panic.Some? {
            return;
          }
        }
        j := j + 1;
      }
      return Option.None;
    }

    /** `Struct::extend_base` on `me`, whose field list is slot `s`; a value's slot is pushed by the caller. */
    method ExtendBase(me: Me, s: nat) returns (panic: Option<Panic>, extended: seq<Struct>, subtypes: seq<RsEntity>)
      requires SlotOf(g, fields, me, s)
      modifies this
      ensures match AfterBase(g, old(fields), me, s)
        case Success(o) => panic.None? && fields == o.heap && extended == o.extended && subtypes == o.subtypes
        case Failure(e) => panic == Some(e)
      decreases if me.Node? then 1 else 0, if me.Node? then me.id else 0, if me.Value? then me.st else NoStruct, 4
    {
      extended, subtypes := [], [];
      panic := ExtendOwnedFields(me, s);
      if panic.Some? {
        return;
      }
      SpliceBase(s);
      panic := SpliceGroups(me, s);
      if panic.Some? {
        return;
      }
      var clones;
      panic, clones := SpliceAttributeGroups(me, s);
      if panic.Some? {
        return;
      }
      fields := fields[s := RenameAttributes(fields[s])];
      var nested;
      panic, nested, subtypes := ExtendChildren(me, s);
      if panic.Some? {
        return;
      }
      extended := clones + nested;
    }

    /** `self.fields.borrow_mut().iter_mut().for_each(|f| f.extend_base(types))`. */
    method ExtendOwnedFields(me: Me, s: nat) returns (panic: Option<Panic>)
      requires SlotOf(g, fields, me, s)
      modifies this
      ensures var r := FieldOwned(g, old(fields), me, s, old(fields)[s], 0, []);
        if r.Success? then panic.None? && fields == r.value.0[s := r.value.1] else panic == Some(r.error)
      decreases if me.Node? then 1 else 0, if me.Node? then me.id else 0, if me.Value? then me.st else NoStruct, 3
    {
      var fs := fields[s];
      var done: seq<StructField> := [];
      var k := 0;
      while k < |fs|
        invariant 0 <= k <= |fs|
        invariant Fits(g, fields) && s < |fields| && |fields| == |old(fields)|
        invariant FieldOwned(g, old(fields), me, s, fs, 0, []) == FieldOwned(g, fields, me, s, fs, k, done)
      {
        var p, updated := ExtendFieldSubtypes(me, s, fs, k);
        if p.Some? {
          return p;
        }
        done := done + [fs[k].(subtypes := updated)];
        k := k + 1;
      }
      fields := fields[s := done];
      return Option.None;
    }

    /** `StructField::extend_base` on field `k` of `fs`: every struct among its subtypes is extended on a slot of its own. */
    method ExtendFieldSubtypes(me: Me, s: nat, fs: seq<StructField>, k: nat) returns (panic: Option<Panic>, updated: seq<RsEntity>)
      requires Fits(g, fields) && s < |fields| && k < |fs|
      requires me.Node? ==> me.id < |g.shapes|
      requires me.Value? ==> fs == me.st.fields
      modifies this
      ensures var r := FieldSubtypes(g, old(fields), me, s, fs, k, 0, []);
        if r.Success? then panic.None? && fields == r.value.0 && updated == r.value.1 else panic == Some(r.error)
      decreases if me.Node? then 1 else 0, if me.Node? then me.id else 0, if me.Value? then me.st else NoStruct, 2
    {
      var subs := fs[k].subtypes;
      updated := [];
      var j := 0;
      while j < |subs|
        invariant 0 <= j <= |subs|
        invariant Fits(g, fields) && |fields| == |old(fields)|
        invariant FieldSubtypes(g, old(fields), me, s, fs, k, 0, []) == FieldSubtypes(g, fields, me, s, fs, k, j, updated)
      {
        match subs[j] {
          case StructEntity(inner) =>
            assert fs[k] in fs && subs[j] in subs;
            var slot := |fields|;
            fields := fields + [inner.fields];
            var p, _, innerSubs := ExtendBase(Value(inner), slot);
            if p.Some? {
              return p, updated;
            }
            var innerFields := fields[slot];
            fields := fields[..slot];
            updated := updated + [StructEntity(inner.(fields := innerFields, subtypes := innerSubs))];
          case _ =>
            updated := updated + [subs[j]];
        }
        j := j + 1;
      }
      return Option.None, updated;
    }

    /** Appends the base fields not yet named and then drops the placeholders (`retain`). */
    method SpliceBase(s: nat)
      requires Valid() && s < |fields|
      modifies this
      ensures fields == old(fields)[s := SplicedBase(g, old(fields), old(fields)[s])]
    {
      var cur := fields[s];
      var list := cur + NotPresent(BaseFields(g, fields, cur), cur);
      var kept: seq<StructField> := [];
      var i := 0;
      while i < |list|
        invariant 0 <= i <= |list|
        invariant kept == Without(list[..i], BaseTag)
        invariant fields == old(fields)
      {
        assert list[..i + 1] == list[..i] + [list[i]];
        WithoutConcat(list[..i], [list[i]], BaseTag);
        if list[i].name != BaseTag {
          kept := kept + [list[i]];
        }
        i := i + 1;
      }
      assert list[..i] == list;
      fields := fields[s := kept];
    }

    /** The group loop of `extend_base`. */
    method SpliceGroups(me: Me, s: nat) returns (panic: Option<Panic>)
      requires Valid() && s < |fields| && (me.Node? ==> me.id < |g.shapes|)
      modifies this
      ensures Mirrors(BaseGroupsFrom(g, old(fields), GroupsOf(g, me), s, 0, []), panic, fields)
    {
      var groups := GroupsOf(g, me);
      var pending: seq<StructField> := [];
      var i := 0;
      while i < |groups|
        invariant 0 <= i <= |groups|
        invariant Valid() && s < |fields|
        invariant BaseGroupsFrom(g, old(fields), groups, s, 0, []) == BaseGroupsFrom(g, fields, groups, s, i, pending)
      {
        var a := groups[i];
        ghost var before := fields;
        if Key(a) in g.index {
          panic := ExtendAttributeGroup(g.index[Key(a)]);
          if panic.Some? {
            return;
          }
        }
        var produced := AliasFields(g, fields, a, true);
        if produced.Failure? {
          return Some(produced.error);
        }
        assert BaseGroupsFrom(g, before, groups, s, i, pending)
            == BaseGroupsFrom(g, fields, groups, s, i + 1, pending + NotPresent(produced.value, fields[s]));
        pending := pending + NotPresent(produced.value, fields[s]);
        i := i + 1;
      }
      fields := fields[s := fields[s] + pending];
      return Option.None;
    }

    /** The attribute-group loop of `extend_base`, pushing a clone per reference with modifiers. */
    method SpliceAttributeGroups(me: Me, s: nat) returns (panic: Option<Panic>, extended: seq<Struct>)
      requires Valid() && s < |fields| && (me.Node? ==> me.id < |g.shapes|)
      modifies this
      ensures var r := BaseAttributeGroupsFrom(g, old(fields), AttributeGroupsOf(g, me), s, 0, [], []);
        if r.Success? then panic.None? && fields == r.value.0 && extended == r.value.1 else panic == Some(r.error)
    {
      var ags := AttributeGroupsOf(g, me);
      var pending: seq<StructField> := [];
      extended := [];
      var i := 0;
      while i < |ags|
        invariant 0 <= i <= |ags|
        invariant Valid() && s < |fields|
        invariant BaseAttributeGroupsFrom(g, old(fields), ags, s, 0, [], [])
               == BaseAttributeGroupsFrom(g, fields, ags, s, i, pending, extended)
      {
        var a := ags[i];
        ghost var before := fields;
        if Key(a) in g.index {
          panic := ExtendAttributeGroup(g.index[Key(a)]);
          if panic.Some? {
            return;
          }
        }
        if a.typeModifiers != [] {
          if Key(a) !in g.index {
            return Some(MissingStruct(Key(a))), extended;
          }
          extended := extended + [Materialize(g, fields, g.index[Key(a)])];
        }
        var produced := AliasFields(g, fields, a, false);
        pending := pending + AdmitAll(produced.value, fields[s]);
        i := i + 1;
      }
      fields := fields[s := fields[s] + pending];
      return Option.None, extended;
    }

    /** The recursion of `extend_base` into the nested structs. */
    method ExtendChildren(me: Me, s: nat) returns (panic: Option<Panic>, extended: seq<Struct>, subtypes: seq<RsEntity>)
      requires Valid() && (me.Node? ==> me.id < |g.shapes|)
      modifies this
      ensures me.Node? ==> var r := NodeChildren(g, old(fields), me.id, 0, []);
        if r.Success? then panic.None? && fields == r.value.0 && extended == r.value.1 && subtypes == [] else panic == Some(r.error)
      ensures me.Value? ==> var r := ValueChildren(g, old(fields), me.st, 0, [], []);
        if r.Success? then panic.None? && fields == r.value.0 && extended == r.value.1 && subtypes == r.value.2 else panic == Some(r.error)
      decreases if me.Node? then 1 else 0, if me.Node? then me.id else 0, if me.Value? then me.st else NoStruct, 1
    {
      extended, subtypes := [], [];
      match me {
        case Node(id) =>
          var subs := g.shapes[id].subtypes;
          var j := 0;
          while j < |subs|
            invariant 0 <= j <= |subs|
            invariant Valid()
            invariant NodeChildren(g, old(fields), id, 0, []) == NodeChildren(g, fields, id, j, extended)
          {
            if subs[j].Child? {
              var p, more, _ := ExtendBase(Node(subs[j].id), subs[j].id);
              if p.Some? {
                return p, extended, subtypes;
              }
              extended := extended + more;
            }
            j := j + 1;
          }
        case Value(st) =>
          var j := 0;
          while j < |st.subtypes|
            invariant 0 <= j <= |st.subtypes|
            invariant Valid()
            invariant ValueChildren(g, old(fields), st, 0, [], []) == ValueChildren(g, fields, st, j, extended, subtypes)
          {
            match st.subtypes[j] {
              case StructEntity(inner) =>
                assert st.subtypes[j] in st.subtypes;
                var slot := |fields|;
                fields := fields + [inner.fields];
                var p, more, innerSubs := ExtendBase(Value(inner), slot);
                if p.Some? {
                  return p, extended, subtypes;
                }
                var innerFields := fields[slot];
                fields := fields[..slot];
                extended := extended + more;
                subtypes := subtypes + [StructEntity(inner.(fields := innerFields, subtypes := innerSubs))];
              case _ =>
                subtypes := subtypes + [st.subtypes[j]];
            }
            j := j + 1;
          }
      }
      return Option.None, extended, subtypes;
    }
  }

  /** `Struct::get_types_map` on node `id`: its own entry, then each nested struct's map laid over it. */
  method GetTypesMap(shapes: seq<Shape>, id: nat) returns (m: map<string, nat>)
    requires ChildrenBelow(shapes) && id < |shapes|
    ensures m == TypesMap(shapes, id)
    decreases id
  {
    m := map[shapes[id].name := id];
    var subs := shapes[id].subtypes;
    var j := 0;
    while j < |subs|
      invariant 0 <= j <= |subs|
      invariant forall k :: k in m ==> m[k] <= id && shapes[m[k]].name == k
      invariant TypesMap(shapes, id) == TypesMapFrom(shapes, id, j, m)
    {
      if subs[j].Child? {
        var nested := GetTypesMap(shapes, subs[j].id);
        m := m + nested;
      }
      j := j + 1;
    }
  }
}
