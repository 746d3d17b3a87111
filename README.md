# xsd-parser core, modelled in Dafny

xsd-parser reads an XML Schema document and turns it into Rust source code. It works in two stages:

- **The parser** turns schema elements into a small graph of entities: `Struct`, `StructField`, `TupleStruct`, `Enum`, `EnumCase`, `Alias` and `Import`.
- **The generator** prints those entities as Rust declarations, each with an `xml_deserialize` routine that reads an instance document through a cursor (`XmlPopper`).

This project models four parts of that pipeline and proves properties about them.

1. **Resolver** (`parser/types.rs`, `parser/mod.rs`). The model is in `Resolve`, `Extension` and `Schema`.
   - Every struct is indexed by name through `get_types_map`.
   - Each top-level struct is then extended in place. `extend_base` splices in the fields of its `@base` placeholders and of its group and attribute-group references, and renames clashing attribute fields `<name>_attr`. Then `extend_attribute_group` and `extend_group` run.
   - The structs synthesized along the way are hoisted into the schema's type list, unless a top-level struct already has their name.
   - The structs that share mutable `RefCell` field lists form the nodes of a `Graph`. Their field lists are an arena `Heap` held by the class `Extension.Arena`, whose methods mutate it as the Rust methods do.
   - Each method is proved against a function of the old heap (`Resolve.AfterBase`, `AfterAttributeGroups`, `AfterGroups`). The properties are lemmas about those functions.
2. **Entity builders** (`parser/group.rs`, `union.rs`, `choice.rs`, `sequence.rs`, `complex_type.rs`). Each turns an XSD node into one entity.
   - The node is an abstract tree (`Xml.XmlNode`).
   - The helpers these files call but do not define are fields of an `Xml.Env` record, so every property holds for any helper: `parse_node`, `attributes_to_fields`, `enum_to_field`, `get_parent_name`, `get_documentation`, the alias collectors, and the occurrence readers.
3. **Decode-plan generation** (`generator/struct.rs`, `struct_field.rs`, `enum.rs`, `enum_case.rs`).
   - The emitted text is not modelled. The model keeps its structure:
     - the cursor operations each field or case uses;
     - the one-`Some`-per-position match arms;
     - the "multiple possible matches" fallback.
   - The module `Decode` interprets those plans over an abstract cursor library (`Decode.Runtime`). This lets the commit and rollback behaviour of the generated routines be stated as theorems.
4. **Annotation-only check** (`xml_to_xsd/utils.rs`). The model is in `Annotation`.

Points where the code behaves in a way a reader might not expect; the model does what the code does (the one exception, emitted enum-case closures that do not type-check, is under "## Left out"):

- **Enum decoding.** The generated routine threads one working cursor through every case attempt. The cursor left by the last attempt is committed. It is not the clone of the case that matched.
- **Choice cases.** A struct case built by `parse_choice` carries no `Flatten` modifier.
- **`@base` placeholder.** The placeholder name (`tag::BASE`) is defined in a file that is not part of this model. It is taken to be `"@base"`, as `Types.BaseTag`.

## Model

| member | source | states |
|---|---|---|
| Types.SetName | xsd-parser/src/parser/types.rs:378-389 | `set_name` replaces the name and keeps the variant |
| Types.SetNameRoundTrip | xsd-parser/src/parser/types.rs:365-389 | renaming to the current name is the identity, and renaming back undoes a rename |
| Types.SetComment | xsd-parser/src/parser/types.rs:391-402 | `set_comment` installs the given comment and keeps the name and the variant |
| Types.SetCommentRoundTrip | xsd-parser/src/parser/types.rs:391-402 | putting back the old comment restores the entity exactly, so nothing else is touched |
| Types.CountBeforeStrict | xsd-parser/src/parser/choice.rs:21-29 | two entities of the counted variant at different positions see different running counts |
| Strings.LastSegment | xsd-parser/src/parser/types.rs:51 | the lookup key `split(':').last()` contains no `:` |
| Strings.JoinSplit | xsd-parser/src/parser/types.rs:51 | `split` loses nothing: joining the pieces with the separator gives back the text |
| Resolve.TypesMap | xsd-parser/src/parser/types.rs:29-38 | the map has the struct's own name, and every entry maps a name to a struct of that name at or below the struct |
| Resolve.TypesMapRoot | xsd-parser/src/parser/types.rs:31-36 | the root keeps its own entry exactly when no nested struct's map has that name; otherwise the nested entry overwrites it |
| Resolve.TypesMapCovers | xsd-parser/src/parser/types.rs:32-35 | every name in a nested struct's map is in the map of the struct that holds it |
| Resolve.TypesMapFromEntry | xsd-parser/src/parser/types.rs:31-36 | the fold over the nested maps keeps an entry no later nested map has, and replaces one that some nested map has by an entry below the struct |
| Extension.GetTypesMap | xsd-parser/src/parser/types.rs:29-38 | the recursive insert/extend builds exactly `TypesMap` |
| Resolve.Without | xsd-parser/src/parser/types.rs:62 | `retain` never adds a field and leaves none of the removed name |
| Resolve.WithoutKeeps | xsd-parser/src/parser/types.rs:62 | `retain` keeps every field of another name |
| Resolve.SplicedBase | xsd-parser/src/parser/types.rs:45-62 | after the base splice no `@base` placeholder remains |
| Resolve.SplicedBaseParts | xsd-parser/src/parser/types.rs:45-62 | the splice is the old fields minus placeholders, in order, followed by the appended base fields minus placeholders; every appended field comes from a base struct and has a name the struct lacked |
| Resolve.BaseFieldsAppend | xsd-parser/src/parser/types.rs:46-52 | the base lookups of a concatenation are the lookups of each part, in order |
| Resolve.BaseFieldsAt | xsd-parser/src/parser/types.rs:46-52 | the fields of one placeholder's base struct form one contiguous run, after those of the earlier placeholders |
| Resolve.BaseFieldSpliced | xsd-parser/src/parser/types.rs:45-62 | every field of a placeholder's base struct whose name the struct lacks is appended |
| Resolve.UnknownBase | xsd-parser/src/parser/types.rs:52 | a base placeholder whose key is not indexed contributes nothing: only the placeholders are dropped |
| Resolve.NotPresent | xsd-parser/src/parser/types.rs:54-57 | the first-name-wins filter never adds a field, and every field it keeps has a name the struct does not have yet |
| Resolve.NotPresentKeeps | xsd-parser/src/parser/types.rs:54-57 | the filter keeps every field whose name the struct does not have yet |
| Resolve.AliasFields | xsd-parser/src/parser/types.rs:75-95 | a reference without modifiers gives the referenced fields (none for an unknown key); with modifiers, one field named after the alias, typed by the referenced struct's name, with the alias's comment and modifiers (and in `extend_base`'s group loop, a cloned subtype); with modifiers and an unknown key, a panic |
| Resolve.AdmitAttribute | xsd-parser/src/parser/types.rs:129-142 | an attribute-group field is dropped exactly when an Attribute-sourced field has its name, renamed `<name>_attr` when another field has it, and kept unchanged otherwise |
| Resolve.RenameAttributes | xsd-parser/src/parser/types.rs:147-163 | only names change; an Attribute-sourced field gets `_attr` exactly when a non-Attribute field shares its name |
| Resolve.AfterBase | xsd-parser/src/parser/types.rs:40-172 | `extend_base` changes no field list outside the nodes except its own slot |
| Resolve.AfterAttributeGroups | xsd-parser/src/parser/types.rs:174-205 | `extend_attribute_group` changes no field list outside the nodes (its own list: `AttributeGroupsOwn`) |
| Resolve.AfterGroups | xsd-parser/src/parser/types.rs:207-244 | `extend_group` changes no field list outside the nodes (its own list: `GroupsOwn`) |
| Resolve.AttributeGroupsFrame | xsd-parser/src/parser/types.rs:174-205 | `extend_attribute_group` of a struct leaves every struct of higher rank untouched, so the lists it reads are never changed under it |
| Resolve.AttributeGroupsFromFrame | xsd-parser/src/parser/types.rs:175-204 | the loop of `extend_attribute_group`, step by step, leaves every struct of higher rank untouched |
| Resolve.AttributeGroupsAppends | xsd-parser/src/parser/types.rs:174-205 | `extend_attribute_group` only appends to the struct's own list, and every appended field has a name the list lacked |
| Resolve.AttributeGroupsFromKeeps | xsd-parser/src/parser/types.rs:175-204 | the loop appends the fields pending so far, and then more, to the struct's own list |
| Resolve.AttributeGroupsFromFresh | xsd-parser/src/parser/types.rs:184-199 | every field the loop appends has a name the struct's list lacked |
| Resolve.AttributeGroupsOwn | xsd-parser/src/parser/types.rs:174-205 | every field an attribute group contributes (its fields, or the one field standing for a reference with modifiers) is named in the struct afterwards, and is there itself when the struct lacked its name |
| Resolve.AttributeGroupsFromOwn | xsd-parser/src/parser/types.rs:175-204 | the same for every reference the loop has not yet passed |
| Resolve.GroupsOwn | xsd-parser/src/parser/types.rs:207-244 | every field a group contributes is named in the struct after `extend_group` |
| Resolve.GroupsFromOwn | xsd-parser/src/parser/types.rs:208-237 | the same for every group reference the loop has not yet passed |
| Resolve.GroupsFromKeeps | xsd-parser/src/parser/types.rs:208-237 | every field pending in the group loop ends up in the struct's own list |
| Resolve.AttributeGroupsGrow | xsd-parser/src/parser/types.rs:174-205 | `extend_attribute_group` only appends: every field list keeps its old contents as a prefix |
| Resolve.AttributeGroupsFromGrow | xsd-parser/src/parser/types.rs:175-204 | each step of the attribute-group loop, including the recursive extension of the referenced struct, only appends |
| Resolve.GroupsGrow | xsd-parser/src/parser/types.rs:207-244 | `extend_group` only appends, on its own list and on its nested structs' lists |
| Resolve.GroupsFromGrow | xsd-parser/src/parser/types.rs:208-237 | each step of the group loop only appends |
| Resolve.GroupChildrenGrow | xsd-parser/src/parser/types.rs:239-243 | the recursion of `extend_group` into Struct subtypes only appends |
| Resolve.GroupChildren | xsd-parser/src/parser/types.rs:239-243 | the recursion of `extend_group` into Struct subtypes changes no field list outside the nodes |
| Resolve.BaseGroupsGrow | xsd-parser/src/parser/types.rs:64-103 | the group loop of `extend_base` only appends |
| Resolve.BaseGroupsFrom | xsd-parser/src/parser/types.rs:64-103 | the group loop of `extend_base` changes no field list but the struct's own |
| Resolve.BaseGroupsFromOwn | xsd-parser/src/parser/types.rs:64-103 | every field a group reference contributes is named on the struct's list afterwards: it was there already, or it is appended (for a reference with modifiers, as the one field carrying the clone); on a slot past the nodes a referenced field under a new name is itself appended |
| Resolve.BaseGroupsFromKeeps | xsd-parser/src/parser/types.rs:97-103 | every field the group loop collects ends up on the struct's list |
| Resolve.BaseAttributeGroupsGrow | xsd-parser/src/parser/types.rs:105-145 | the attribute-group loop of `extend_base` only appends to the field list |
| Resolve.BaseAttributeGroupsFrom | xsd-parser/src/parser/types.rs:105-145 | the attribute-group loop of `extend_base` changes no field list but the struct's own |
| Resolve.BaseAttributeGroupsFromOwn | xsd-parser/src/parser/types.rs:105-145 | every field an attribute-group reference contributes is named on the struct's list afterwards, whether it was dropped on an attribute clash, renamed `<name>_attr` or kept; on a slot past the nodes the field as `AdmitAttribute` admits it is itself appended |
| Resolve.BaseAttributeGroupsFromKeeps | xsd-parser/src/parser/types.rs:143-145 | every field the attribute-group loop collects ends up on the struct's list |
| Resolve.AdmitAllKeeps | xsd-parser/src/parser/types.rs:129-142 | every produced field that `AdmitAttribute` admits is collected, in its admitted form |
| Resolve.AdmitAllSound | xsd-parser/src/parser/types.rs:129-142 | every collected field is some produced field as `AdmitAttribute` admits it |
| Resolve.BaseAttributeGroupsClones | xsd-parser/src/parser/types.rs:105-145 | the loop keeps the clones collected so far and adds one clone per reference with modifiers, in order, each the referenced struct after its own `extend_attribute_group` on the heap as the earlier references left it; a reference without modifiers adds none |
| Resolve.CloneIdsAt | xsd-parser/src/parser/types.rs:116-117 | the references with modifiers, taken one at a time from the front, name the cloned structs in order |
| Resolve.ClonedShape | xsd-parser/src/parser/types.rs:117 | a clone keeps the referenced struct's name, comment and attribute-group references, and its fields start with the fields it had before the loop |
| Resolve.ClonedOwn | xsd-parser/src/parser/types.rs:112-117 | every field an attribute group of the referenced struct contributes is named in the clone |
| Resolve.ClonedFromEarlier | xsd-parser/src/parser/types.rs:105-145 | a clone taken on a heap grown from an earlier one is still a clone relative to the earlier heap |
| Resolve.FieldOwned | xsd-parser/src/parser/types.rs:43 | the field pass of `extend_base` changes no field list outside the nodes |
| Resolve.FieldSubtypes | xsd-parser/src/parser/types.rs:258-264 | `StructField::extend_base` changes no field list outside the nodes; each temporary slot is dropped again |
| Resolve.NodeChildren | xsd-parser/src/parser/types.rs:165-171 | the recursion into a node's nested structs changes no field list outside the nodes |
| Resolve.ValueChildren | xsd-parser/src/parser/types.rs:165-171 | the recursion into a struct value's nested structs changes no field list outside the nodes |
| Resolve.FieldOwnedReshaped | xsd-parser/src/parser/types.rs:43 | `f.extend_base` over the fields keeps every field and its order, changing only its nested entities, each a struct with the same name, comment and references |
| Resolve.FieldSubtypesReshaped | xsd-parser/src/parser/types.rs:258-264 | `StructField::extend_base` keeps the field's nested entities in place: a struct keeps its name, comment and references, anything else is unchanged |
| Resolve.NodeChildrenExtends | xsd-parser/src/parser/types.rs:165-171 | the recursion into a node's nested structs keeps the synthesized types collected so far and only adds after them |
| Resolve.ValueChildrenReshaped | xsd-parser/src/parser/types.rs:165-171 | the recursion into a struct value's nested structs keeps each nested entity in place, reshaped |
| Resolve.ValueChildrenExtends | xsd-parser/src/parser/types.rs:165-171 | the recursion into a struct value's nested structs only adds synthesized types after those collected so far |
| Extension.Arena.ExtendAttributeGroup | xsd-parser/src/parser/types.rs:174-205 | the in-place method ends in `AfterAttributeGroups` of the old field lists, or panics when it does |
| Extension.Arena.ExtendGroup | xsd-parser/src/parser/types.rs:207-244 | the in-place method ends in `AfterGroups` of the old field lists, or panics when it does |
| Extension.Arena.ExtendBase | xsd-parser/src/parser/types.rs:40-172 | the in-place method ends in `AfterBase`'s heap, returns its synthesized types and updated nested entities, or panics when it does |
| Extension.Arena.ExtendOwnedFields | xsd-parser/src/parser/types.rs:43 | extending the structs owned by the fields, each on a temporary slot, ends as `FieldOwned` says, with the updated fields written back |
| Extension.Arena.ExtendFieldSubtypes | xsd-parser/src/parser/types.rs:258-264 | `StructField::extend_base` on one field extends every Struct subtype as `FieldSubtypes` says, leaves the other subtypes as they are, and drops each temporary slot again |
| Extension.Arena.SpliceBase | xsd-parser/src/parser/types.rs:45-62 | the append-then-`retain` on the slot ends in `SplicedBase` of the old list; nothing else changes |
| Extension.Arena.SpliceGroups | xsd-parser/src/parser/types.rs:64-103 | the group loop ends as `BaseGroupsFrom` says |
| Extension.Arena.SpliceAttributeGroups | xsd-parser/src/parser/types.rs:105-145 | the attribute-group loop ends as `BaseAttributeGroupsFrom` says, with its list of clones |
| Extension.Arena.ExtendChildren | xsd-parser/src/parser/types.rs:165-171 | the recursion into Struct subtypes ends as `NodeChildren`/`ValueChildren` say, concatenating their synthesized types |
| Extension.Arena.constructor | xsd-parser/src/parser/mod.rs:62-69 | the arena holds the graph and the field lists it is given |
| Schema.Index | xsd-parser/src/parser/mod.rs:46-60 | every index entry maps a name to a struct of that name |
| Schema.IndexAppend | xsd-parser/src/parser/mod.rs:46-60 | indexing one list after another lays the second index over the first |
| Schema.IndexPrecedence | xsd-parser/src/parser/mod.rs:46-60 | on a clash a group's entry wins, then an attribute group's; a name only the types have keeps the types' entry |
| Schema.OthersNotIndexed | xsd-parser/src/parser/mod.rs:47 | a non-struct top-level entity adds nothing to the index |
| Schema.BuildIndex | xsd-parser/src/parser/mod.rs:40-60 | the three `extend` loops build exactly the layered index |
| Schema.ExtendIndex | xsd-parser/src/parser/mod.rs:46-50 | one `extend` loop over a list of top-level entities turns the index of what came before into the index of the whole prefix, the later names overriding the earlier |
| Schema.ExtendOne | xsd-parser/src/parser/mod.rs:64-68 | a top-level struct runs `extend_base`, then `extend_attribute_group`, then `extend_group`, changing nothing outside the nodes |
| Schema.ExtendFrom | xsd-parser/src/parser/mod.rs:62-69 | the extension loop keeps the size of the heap |
| Schema.ExtendTop | xsd-parser/src/parser/mod.rs:65-67 | the three in-place calls on the arena end as `ExtendOne` says, stopping at the first panic |
| Schema.ExtendAll | xsd-parser/src/parser/mod.rs:62-69 | the in-place loop over the top-level entities ends as `ExtendFrom` says, stopping at the first panic |
| Schema.OthersNotExtended | xsd-parser/src/parser/mod.rs:64 | a non-struct top-level entity is skipped: the loop over the rest gives the same result |
| Schema.ExtendShift | xsd-parser/src/parser/mod.rs:63-69 | the loop depends only on the entities still ahead: two lists with equal suffixes give the same run, whatever came before |
| Schema.Hoist | xsd-parser/src/parser/mod.rs:71 | a synthesized type survives exactly when no top-level struct has its name |
| Schema.HoistKeepsDuplicates | xsd-parser/src/parser/mod.rs:71 | synthesized types whose names no top-level struct has are all kept, in order, however many share a name |
| Schema.HoistAppend | xsd-parser/src/parser/mod.rs:71 | hoisting keeps the order of the synthesized types |
| Schema.Resolved | xsd-parser/src/parser/mod.rs:62-72 | on success the original types come first, in order, as the extension left them, followed by the surviving synthesized types |
| Schema.Parse | xsd-parser/src/parser/mod.rs:40-72 | the index, the in-place extension loop and the hoisting compute exactly `Resolved` |
| Group.GroupModifier | xsd-parser/src/parser/group.rs:10-38 | the result is None, Option or Array; Option exactly when min is 0 and max is absent; Array exactly when min ≥ 2, max is unbounded, or max is a number above 1 |
| Group.BoundedOneIsNotOptional | xsd-parser/src/parser/group.rs:17-23 | min 0 with an explicit max of at most 1 gives None, not Option |
| Group.ParseGroup | xsd-parser/src/parser/group.rs:40-64 | below the schema it is the global group; elsewhere it succeeds exactly with a `ref`, giving an alias named and typed by it, with modifiers `[m]` for m ≠ None and none otherwise |
| Group.ParseGlobalGroup | xsd-parser/src/parser/group.rs:66-81 | it succeeds exactly with a `name`, giving a struct of that name with one subtype per non-annotation element child, in order |
| Union.CreateEnumCases | xsd-parser/src/parser/union.rs:57-68 | one Union-sourced case per non-empty space-separated token, in order, named and typed by the token, with no subtypes or modifiers |
| Union.CaseNamesDistinct | xsd-parser/src/parser/union.rs:24-33 | distinct positions give distinct `EnumCase_i` and `EnumCaseType_i` names |
| Union.EnumSubtypeFromNode | xsd-parser/src/parser/union.rs:70-74 | the parsed member type is renamed `EnumCaseType_<index>` and keeps its variant |
| Union.InlineCase | xsd-parser/src/parser/union.rs:24-33 | the case of inline simple type `i` is `EnumCase_i`, typed by its subtype's name `EnumCaseType_i`, `[Flatten]`, Union-sourced, with that one subtype |
| Union.UnionCases | xsd-parser/src/parser/union.rs:16-35 | the member-type cases come first, in the order of `memberTypes`, then one `InlineCase` per inline simple type, numbered from 0 in document order |
| Union.ParseUnion | xsd-parser/src/parser/union.rs:15-55 | without attributes, the unnamed Union enum typed `std::string::String`; with them, an unnamed struct of the attribute fields followed by the field of the enum named `<Parent>Choice` |
| Union.CreateEnumCasesExample | xsd-parser/src/parser/union.rs:84-89 | `"Type1 Type2  Type3"` gives three cases, the first `Type1` |
| Union.TokensExample | xsd-parser/src/parser/union.rs:86 | the double space yields no empty token |
| Union.TokensOfThree | xsd-parser/src/parser/union.rs:86 | three words with one and then two spaces give exactly the three words |
| Union.MembersTypeOneTwo | xsd-parser/src/parser/union.rs:98 | `"Type1 Type2"` gives the two tokens |
| Union.TokensOfTwo | xsd-parser/src/parser/union.rs:98 | two words with one space give exactly the two words |
| Union.ParseUnionExample | xsd-parser/src/parser/union.rs:91-118 | the attribute-free union of `Type1 Type2` is an unnamed enum with cases `Type1`, `Type2` |
| Union.NestedSimpleTypes | xsd-parser/src/parser/union.rs:127-137 | the three inline simple types of the test document are the union's simple-type children, in order |
| Union.ThreeSimpleTypes | xsd-parser/src/parser/union.rs:127-137 | text between children and trailing other elements do not count as simple types |
| Union.NestedCases | xsd-parser/src/parser/union.rs:149-165 | the test document gives the five expected cases, names, type names and subtypes |
| Union.CasesOfTwoMembersThreeInline | xsd-parser/src/parser/union.rs:149-165 | any union with members `Type1 Type2` and three inline types has those five cases |
| Union.ParseUnionWithNestedTypesExample | xsd-parser/src/parser/union.rs:120-170 | the nested-types test: an unnamed enum with the five expected cases |
| Union.AttributedUnionCases | xsd-parser/src/parser/union.rs:172-231 | the attributed test document has the same five cases |
| Union.ParseUnionWithAttributesExample | xsd-parser/src/parser/union.rs:172-236 | for a union with the five cases of the document, two attribute fields and parent `SomeType`, the result is an unnamed three-field struct with no subtypes whose last field is made from the union's enum renamed `SomeTypeChoice`, still with those five cases |
| Choice.ParsedChildren | xsd-parser/src/parser/choice.rs:13-19 | one parse result per Element or Sequence child |
| Choice.ChoiceCase | xsd-parser/src/parser/choice.rs:20-39 | an EnumCase passes through unchanged; a Struct after k struct children becomes a Choice case named and typed by its name (with k appended when k > 0), holding the renamed struct as its only subtype; anything else is rejected |
| Choice.CaseOf | xsd-parser/src/parser/choice.rs:20-39 | the map closure gives `ChoiceCase` and bumps the counter only for a Struct |
| Choice.CasesMatchExtend | xsd-parser/src/parser/choice.rs:19-40 | appending the next child's case keeps every case matched to its child |
| Choice.ParseChoice | xsd-parser/src/parser/choice.rs:11-49 | it succeeds exactly when every child parses to an EnumCase or a Struct; then it is the unnamed Choice enum typed `std::string::String` with one case per child, in order, each as `ChoiceCase` says |
| Choice.StructCaseNaming | xsd-parser/src/parser/choice.rs:21-29 | the first struct child keeps its name; a later one gets the positive count of struct children before it |
| Choice.StructCountersDistinct | xsd-parser/src/parser/choice.rs:21-29 | struct children at different positions get different counters |
| Sequence.ParsedChildren | xsd-parser/src/parser/sequence.rs:31-37 | one parse result per element child other than annotation, group and attribute group |
| Sequence.SequenceField | xsd-parser/src/parser/sequence.rs:37-62 | a field gets `Recursive` exactly when its type name ends with the parent name; the k-th enum becomes `<parent>Choice<k>`; an alias and a struct become fields as the source builds them; anything else is rejected |
| Sequence.FieldOf | xsd-parser/src/parser/sequence.rs:37-62 | the map closure gives `SequenceField` and bumps the counter only for an Enum |
| Sequence.FieldsMatchExtend | xsd-parser/src/parser/sequence.rs:37-64 | appending the next child's field keeps every field matched to its child |
| Sequence.ElementsToFields | xsd-parser/src/parser/sequence.rs:27-65 | it succeeds exactly when every child parses to a field, enum, alias or struct; then it gives one field per child, in order |
| Sequence.ParseSequence | xsd-parser/src/parser/sequence.rs:14-25 | a struct named after the parent, with the parent's documentation, no subtypes, the sequence's aliases, and the fields of `ElementsToFields` |
| Sequence.EnumFieldNaming | xsd-parser/src/parser/sequence.rs:44-48 | counting only enum children, distinct enum children get distinct `<parent>Choice<k>` names |
| Sequence.RecursiveIsSuffixTest | xsd-parser/src/parser/sequence.rs:38-42 | a field typed `tt:SubItem` inside `Item` is marked Recursive: the test is a suffix test |
| ComplexType.ComplexTypeName | xsd-parser/src/parser/complex_type.rs:27-32 | below the schema, the `name` attribute (fatal if missing); elsewhere the parent's name |
| ComplexType.LastOf | xsd-parser/src/parser/complex_type.rs:36-39 | the last node, none exactly for an empty list |
| ComplexType.Content | xsd-parser/src/parser/complex_type.rs:36-39 | the content, when present, is an element child of one of the six content kinds; there is none exactly when no child has such a kind (which one: `LastContentWins`) |
| ComplexType.LastContentWins | xsd-parser/src/parser/complex_type.rs:36-39 | a content child followed by no other content child is the content, whatever precedes it; earlier ones are not an error |
| ComplexType.PrependDocs | xsd-parser/src/parser/complex_type.rs:63-68 | the type's documentation goes before the existing comment, separated by a newline |
| ComplexType.ChoiceHolder | xsd-parser/src/parser/complex_type.rs:71-87 | the struct named `<Name>` holds the attribute fields followed by one Choice field named and typed `<Name>Choice` |
| ComplexType.ParseComplexType | xsd-parser/src/parser/complex_type.rs:26-91 | no content or content without element children gives the attribute struct; Struct content gets the attributes appended, the name overwritten, the aliases extended and the documentation prepended; Enum content is renamed `<Name>Choice` with the holder as its only subtype; any other result is returned unchanged |
| Xml.ElementChildrenExcept | xsd-parser/src/parser/sequence.rs:31-37 | only element children outside the excluded kinds, never more than there are children |
| Xml.ElementChildrenExceptComplete | xsd-parser/src/parser/sequence.rs:31-37 | every element child outside the excluded kinds is kept |
| Xml.ElementChildrenOf | xsd-parser/src/parser/choice.rs:13-18 | only element children of the listed kinds, never more than there are children |
| Xml.ElementChildrenOfComplete | xsd-parser/src/parser/choice.rs:13-18 | every element child of the listed kinds is kept |
| Xml.FilterNodesAppend | xsd-parser/src/parser/choice.rs:13-18 | filtering distributes over concatenation, so document order is kept |
| Xml.FilterNodesComplete | xsd-parser/src/parser/choice.rs:13-18 | the element filter drops no node that passes its test |
| Annotation.AnnotationOnly | xsd-parser/src/xml_to_xsd/utils.rs:6-23 | the loop computes `Scan` of the element children |
| Annotation.ScanSucceeds | xsd-parser/src/xml_to_xsd/utils.rs:10-22 | success exactly when every element child is a parsable annotation; then the last annotation, or none for no children |
| Annotation.ScanFailsAtFirstOffender | xsd-parser/src/xml_to_xsd/utils.rs:11-20 | a failure is the first offending child's: its kind-lookup error, the invalid-child message, or its parse error |
| Annotation.AnnotationFirst | xsd-parser/src/xml_to_xsd/utils.rs:25-28 | none without element children; otherwise the parse of the first element child, whatever its kind, and none exactly when that parse fails |
| Decode.Chain | xsd-parser/src/generator/struct_field.rs:85-116 | one read per operation, all naming the field; only the first reads from the cursor |
| Decode.RunField | xsd-parser/src/generator/struct_field.rs:126-146 | a nested decode runs on a clone: on error the cursor is unchanged, on success it is the nested routine's |
| Decode.RunFields | xsd-parser/src/generator/struct.rs:24-30 | on success one named value per initializer, in order |
| Decode.RunStruct | xsd-parser/src/generator/struct.rs:32-44 | the caller's cursor is untouched on failure and overwritten only after every field is built |
| Decode.SelectArm | xsd-parser/src/generator/enum.rs:155-172 | the first matching arm; none only when no arm matches |
| Decode.RunEnum | xsd-parser/src/generator/enum.rs:162-177 | success exactly when an arm matches, committing the cursor all attempts left; otherwise the fallback error with the caller's cursor untouched |
| Decode.AttemptsAppend | xsd-parser/src/generator/enum.rs:122-131 | the attempts for two lists of getters are those of the first, then those of the second on the cursor the first left |
| Decode.AttemptsAt | xsd-parser/src/generator/enum.rs:122-131 | attempt `i` runs on the cursor the attempts before it left, whatever comes after |
| Decode.OneHot | xsd-parser/src/generator/enum.rs:133-142 | the pattern of case i among n has `Some` exactly at position i |
| Decode.OneHotSelect | xsd-parser/src/generator/enum.rs:133-160 | under one-hot arms a case is selected exactly when one attempt alone succeeded |
| Decode.OneHotBuild | xsd-parser/src/generator/enum_case.rs:133-138 | a selected case carries the succeeding attempt's value when typed, and nothing when untyped |
| StructFieldGen.GenerateField | xsd-parser/src/generator/struct_field.rs:9-27 | the declaration is empty exactly for a field with the Empty modifier |
| StructFieldGen.FieldDeserialize | xsd-parser/src/generator/struct_field.rs:78-152 | the modifier loop with its `flatten` flag builds exactly `FieldGetter` |
| StructFieldGen.ModifierOpsStep | xsd-parser/src/generator/struct_field.rs:85-116 | one more modifier extends the chain by the read it contributes |
| StructFieldGen.ModifierOpsFamily | xsd-parser/src/generator/struct_field.rs:88-95 | every modifier operation is attribute-family exactly when the field is an attribute |
| StructFieldGen.ModifierOpsCount | xsd-parser/src/generator/struct_field.rs:88-110 | only Array and Option contribute operations |
| StructFieldGen.FieldOpsFamily | xsd-parser/src/generator/struct_field.rs:82-124 | at least one operation; attribute-family exactly for an Attribute-sourced field |
| StructFieldGen.DefaultRead | xsd-parser/src/generator/struct_field.rs:118-124 | without Array or Option, the getter is the single default `pop_attribute` or `pop_child` |
| StructFieldGen.NoOpModifiers | xsd-parser/src/generator/struct_field.rs:89-105 | Recursive, None and Empty contribute no operation |
| StructFieldGen.FlattenCommitsOnSuccess | xsd-parser/src/generator/struct_field.rs:126-146 | a flattened field (Choice or Sequence source, or a Flatten modifier) leaves the cursor alone on error and takes the nested cursor on success |
| StructFieldGen.ReadsNameTheField | xsd-parser/src/generator/struct_field.rs:112-124 | every read of an unflattened field names the field; only the first is on the cursor |
| EnumCaseGen.CaseName | xsd-parser/src/generator/enum_case.rs:32-38 | the case identifier is the last `::` piece and contains no `::` |
| EnumCaseGen.GenerateCase | xsd-parser/src/generator/enum_case.rs:7-30 | a parenthesised payload exactly when the case has a type name; never any macros |
| EnumCaseGen.CaseAssign | xsd-parser/src/generator/enum_case.rs:133-138 | `Self::Name(value)` exactly when the case has a type name, otherwise the bare `Self::Name` |
| EnumCaseGen.CaseOpsStep | xsd-parser/src/generator/enum_case.rs:103-122 | one more modifier extends the chain by the read it contributes |
| EnumCaseGen.CaseDeserialize | xsd-parser/src/generator/enum_case.rs:84-166 | the value test, the modifier loop with its `flatten` flag and the default build exactly `CaseGetter` and `CaseAssign` |
| EnumCaseGen.CaseOpsAreChildReads | xsd-parser/src/generator/enum_case.rs:106-116 | Array, Option and Recursive give `pop_children`, `maybe_pop_child` and `pop_child`; the others give nothing |
| EnumCaseGen.DefaultPopChild | xsd-parser/src/generator/enum_case.rs:126-128 | a typed case without operation-bearing modifiers reads one child named after the case |
| EnumCaseGen.FlattenDelegates | xsd-parser/src/generator/enum_case.rs:112-125 | a Flatten modifier anywhere delegates to the type's nested decode on the same cursor |
| EnumCaseGen.ValueCaseMatchesName | xsd-parser/src/generator/enum_case.rs:85-98 | a Union or untyped case succeeds exactly when the raw value equals the case's name; the cursor moves past the value either way |
| EnumCaseGen.ReadFailureIsNone | xsd-parser/src/generator/enum_case.rs:144-158 | a failed attempt becomes `None`, and the cursor the attempt left replaces the working cursor |
| EnumGen.QualifyCase | xsd-parser/src/generator/enum.rs:123-127 | a typed case with subtypes gets `<mod>::<type>`; any other case is unchanged |
| EnumGen.Cases | xsd-parser/src/generator/enum.rs:182-208 | one declaration per qualified case, in order |
| EnumGen.Getters | xsd-parser/src/generator/enum.rs:122-131 | one attempt per qualified case, in order |
| EnumGen.Arms | xsd-parser/src/generator/enum.rs:133-152 | one one-hot arm per case, with the case's assignment |
| EnumGen.Pattern | xsd-parser/src/generator/enum.rs:133-142 | the pattern loop builds exactly the one-hot tuple |
| EnumGen.Deserialize | xsd-parser/src/generator/enum.rs:117-180 | the loop builds exactly the attempts, arms and fallback of `DecodePlan` |
| EnumGen.CaseStep | xsd-parser/src/generator/enum.rs:122-152 | the loop body for case `i` gives the plan's `i`-th attempt and `i`-th arm |
| EnumGen.EasyDisplay | xsd-parser/src/generator/enum.rs:23-32 | the flag survives exactly when no case has a type name |
| EnumGen.Generate | xsd-parser/src/generator/enum.rs:9-115 | the cases end with `__Unknown__(<type>)`, the default is `__Unknown__`, Display exactly when no case is typed, never FromStr |
| EnumGen.EnumDecodeUnique | xsd-parser/src/generator/enum.rs:117-180 | decoding succeeds exactly when one attempt alone succeeds, yielding that case and committing the attempts' cursor; otherwise the fallback error and the caller's cursor untouched |
| Scope.Shift | xsd-parser/src/generator/struct.rs:105-110 | `shift` starts with the indent |
| Scope.ShiftWithoutTriple | xsd-parser/src/generator/enum.rs:237-242 | a text without a triple newline is shifted line by line as it stands |
| Scope.ShiftOneLine | xsd-parser/src/generator/struct.rs:105-110 | one line becomes indent, newline, indent, line |
| Scope.ShiftNothing | xsd-parser/src/generator/struct.rs:105-110 | an empty text becomes the indent and one newline |
| Scope.CollapseIsSinglePass | xsd-parser/src/generator/struct.rs:106 | one replace pass leaves a triple newline behind in five newlines |
| Scope.Subtypes | xsd-parser/src/generator/struct.rs:81-103 | a `pub mod` exactly when the own or some member's rendered subtypes are non-empty; its body is the members' renderings, one after another in member order, shifted by the indent; otherwise a single newline |
| Scope.RenderedText | xsd-parser/src/generator/struct.rs:81-87 | joining the members' renderings with `""` concatenates them in member order |
| StructGen.Qualify | xsd-parser/src/generator/struct.rs:55-63 | a field with subtypes gets `<mod>::<formatted>` as its type; nothing else changes, and fields without subtypes are untouched |
| StructGen.Rendered | xsd-parser/src/generator/struct.rs:65-72 | the non-empty renderings; none exactly when every field is Empty |
| StructGen.FieldsText | xsd-parser/src/generator/struct.rs:65-78 | `""` exactly when every field renders empty, otherwise the joined declarations between newlines |
| StructGen.Fields | xsd-parser/src/generator/struct.rs:52-79 | every field is qualified in place, and the text is rendered from the rewritten fields |
| StructGen.DecodePlan | xsd-parser/src/generator/struct.rs:24-30 | one initializer per field, in field order |
| StructGen.Deserialize | xsd-parser/src/generator/struct.rs:22-50 | the loop builds exactly `DecodePlan` |
| StructGen.Generate | xsd-parser/src/generator/struct.rs:9-20 | `fields` runs first, so the scope and the decode plan see the qualified fields |
| StructGen.StructDecodeCommit | xsd-parser/src/generator/struct.rs:32-44 | a failed field leaves the caller's cursor; success gives one value per field, in order, and commits the cursor |
| StructGen.FirstFieldErrorWins | xsd-parser/src/generator/struct.rs:24-30 | the first failing field's error is the routine's error |
| StructGen.QualifyNotIdempotent | xsd-parser/src/generator/struct.rs:55-63 | for any field with subtypes, qualifying again prefixes the module again, so `fields` is not idempotent |

## Left out

- The reading of the XML text (`roxmltree`) and the node traversal. A document is an `Xml.XmlNode` tree.
- The schema element lookup of mod.rs:37-45. `Schema.Parse` starts from the parsed schema.
- `parse_schema`, `parse_node`, the attribute and alias helpers, `enum_to_field`, `get_parent_name` and `get_documentation`. These are not part of this model; they are parameters.
- The `gen.base()` text helpers and `default_format_type`. These are not part of this model; they are parameters (`Formatting.Formatter`).
- The emitted Rust text: derives, comments, whitespace, `Default`, `Display` and `FromStr` bodies, and validation blocks. Only the decode plans and the choices between text shapes are modelled.
- `XmlPopper` internals. The cursor is an abstract value, and its operations are parameters (`Decode.Runtime`).
- Resolve.AfterBase: `RefCell` borrow panics are not modelled. When a struct owned by a field looks up its own holder while the holder's field list is mutably borrowed (types.rs:43), Rust panics. The model reads the holder's list and then writes the updated field list back over it.
- Resolve.WellFormed: a cycle of attribute-group references makes `extend_attribute_group` recurse until the stack overflows. The model requires a rank that decreases along those references, so cyclic schemas are outside it.
- The structs of a schema are given already laid out as graph nodes, numbered so that a nested struct comes before its holder. Struct identity in the index is node identity.
- Resolve.AfterBase: its contract does not state that it only appends. It renames and drops fields, and it replaces the subtypes of fields. Its phases each carry their own properties instead: the base splice (`SplicedBaseParts`, `BaseFieldSpliced`), the group loop (`BaseGroupsGrow`, `BaseGroupsFromOwn`), the attribute-group loop (`BaseAttributeGroupsGrow`, `BaseAttributeGroupsFromOwn`, `BaseAttributeGroupsClones`) and the final rename (`RenameAttributes`). On a struct's own node slot the two loops promise only the contributed names: the referenced structs' `extend_attribute_group` may grow that slot first (types.rs:72, 113), so which clashing field is kept is not stated.
- Resolve.GroupsOwn: states that every field a group contributes is named in the struct, not that the field itself is there. While the referenced structs are extended (types.rs:72) the struct's own list can grow, so an earlier field of the same name may be the one kept.
- Resolve.BaseAttributeGroupsClones: each clone is tied to some heap grown from the loop's starting heap, not to the exact heap the earlier references left behind.
- EnumCaseGen.CaseGetter: two of the closures that enum_case.rs emits do not type-check as written, and the model gives them the meaning their authors evidently intended. The value test (enum_case.rs:88-98) ends in `Option::Some(value)`/`None` and uses `pop_value()?`, yet its result is matched as `Ok`/`Err` (enum_case.rs:149-156); the model reads it as a test that succeeds exactly when the raw value equals the case name. A chain of modifier reads without `Flatten` (enum_case.rs:118-121) ends in `let inter = …?;` with no tail expression; the model gives it the meaning of the struct-field chain, whose value is the last read's (struct_field.rs:150).
- The `part-group` → `super::PartGroup` rewrite of types.rs:79-83 is a literal rewrite (`Resolve.RewritePartGroup`) with no property of its own.
- Error messages carry no `{:?}` rendering of the offending entity.
- `RsEntity::set_name` and `set_comment` mutate in place in the source. The model states them as functions returning the updated entity.
- xsd-parser/src/generator/tuple_struct.rs and src/generator2/types.rs are pure templating. They are not part of this model.
- xsd-parser/src/parser/mod.rs:1-25 holds only module declarations.
