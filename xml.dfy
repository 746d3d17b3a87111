/**
 * The XSD document as an abstract tree, and the parser helpers that the builders
 * call but that are not part of this model. Those helpers are fields of `Env`:
 * every lemma about a builder holds for every choice of them.
 */
module Xml {
  import opened Wrappers
  import opened Types

  /** The `xsd_type()` of a node, as far as the builders distinguish it. */
  datatype ElementType =
    | All | Annotation | Any | AnyAttribute | Attribute | AttributeGroup | Choice
    | ComplexContent | ComplexType | Documentation | Element | Extension | Group
    | Import | List | Restriction | Schema | Sequence | SimpleContent | SimpleType
    | Union | Unknown

  /** A node: text and comment nodes have `isElement == false`. */
  datatype XmlNode = XmlNode(
    isElement: bool,
    kind: ElementType,
    attributes: map<string, string>,
    children: seq<XmlNode>)

  /** `maxOccurs`: absent, `unbounded`, or a number. */
  datatype MaxOccurs = None | Unbounded | Bounded(n: nat)

  datatype Env = Env(
    parseNode: (XmlNode, XmlNode) -> RsEntity,
    attributesToFields: XmlNode -> seq<StructField>,
    enumToField: Enum -> StructField,
    getParentName: XmlNode -> string,
    getDocumentation: XmlNode -> Option<string>,
    attributeGroupsToAliases: XmlNode -> seq<Alias>,
    groupsToAliases: XmlNode -> seq<Alias>,
    minOccurs: XmlNode -> nat,
    maxOccurs: XmlNode -> MaxOccurs)

  /** The fatal conditions of the builders: an `expect`/`panic!` on a missing attribute, or an `unreachable!`. */
  datatype ParseError = MissingAttribute(attribute: string) | UnexpectedEntity(context: string)

  /** The element children of `node` whose kind is not in `excluded`, in document order (all of them: `ElementChildrenExceptComplete`). */
  function ElementChildrenExcept(node: XmlNode, excluded: set<ElementType>): (r: seq<XmlNode>)
    ensures forall i :: 0 <= i < |r| ==> r[i] in node.children && r[i].isElement && r[i].kind !in excluded
  {
    FilterNodes(node.children, excluded, false)
  }

  /** The element children of `node` whose kind is in `kinds`, in document order (all of them: `ElementChildrenOfComplete`). */
  function ElementChildrenOf(node: XmlNode, kinds: set<ElementType>): (r: seq<XmlNode>)
    ensures forall i :: 0 <= i < |r| ==> r[i] in node.children && r[i].isElement && r[i].kind in kinds
  {
    FilterNodes(node.children, kinds, true)
  }

  /** An element whose kind is in `kinds` (when `inside`) or outside it (otherwise). */
  predicate Kept(n: XmlNode, kinds: set<ElementType>, inside: bool)
  {
    n.isElement && (n.kind in kinds <==> inside)
  }

  /** `iter().filter(..)` with one of the two element tests above: exactly the kept nodes (`FilterNodesComplete`), in order (`FilterNodesAppend`). */
  function FilterNodes(nodes: seq<XmlNode>, kinds: set<ElementType>, inside: bool): (r: seq<XmlNode>)
    ensures |r| <= |nodes|
    ensures forall i :: 0 <= i < |r| ==> r[i] in nodes && Kept(r[i], kinds, inside)
  {
    if |nodes| == 0 then []
    else if Kept(nodes[0], kinds, inside) then [nodes[0]] + FilterNodes(nodes[1..], kinds, inside)
    else FilterNodes(nodes[1..], kinds, inside)
  }

  /** No kept node is filtered out. */
  lemma {:induction false} FilterNodesComplete(nodes: seq<XmlNode>, kinds: set<ElementType>, inside: bool, n: XmlNode)
    requires n in nodes && Kept(n, kinds, inside)
    ensures n in FilterNodes(nodes, kinds, inside)
  {
    if nodes[0] != n {
      FilterNodesComplete(nodes[1..], kinds, inside, n);
    }
  }

  lemma ElementChildrenExceptComplete(node: XmlNode, excluded: set<ElementType>, n: XmlNode)
    requires n in node.children && n.isElement && n.kind !in excluded
    ensures n in ElementChildrenExcept(node, excluded)
  {
    FilterNodesComplete(node.children, excluded, false, n);
  }

  lemma ElementChildrenOfComplete(node: XmlNode, kinds: set<ElementType>, n: XmlNode)
    requires n in node.children && n.isElement && n.kind in kinds
    ensures n in ElementChildrenOf(node, kinds)
  {
    FilterNodesComplete(node.children, kinds, true, n);
  }

  /** Filtering distributes over concatenation, so it keeps the relative order of what it keeps. */
  lemma {:induction false} FilterNodesAppend(a: seq<XmlNode>, b: seq<XmlNode>, kinds: set<ElementType>, inside: bool)
    ensures FilterNodes(a + b, kinds, inside) == FilterNodes(a, kinds, inside) + FilterNodes(b, kinds, inside)
  {
    if |a| > 0 {
      assert (a + b)[1..] == a[1..] + b;
      FilterNodesAppend(a[1..], b, kinds, inside);
    } else {
      assert a + b == b;
    }
  }

  /** Filtering a suffix `nodes[k..]`: the node at `k` if it is kept, then the filtered rest. */
  lemma FilterNodesAt(nodes: seq<XmlNode>, k: nat, kinds: set<ElementType>, inside: bool)
    requires k < |nodes|
    ensures FilterNodes(nodes[k..], kinds, inside) ==
      (if Kept(nodes[k], kinds, inside) then [nodes[k]] else []) + FilterNodes(nodes[k + 1..], kinds, inside)
  {
    assert nodes[k..][1..] == nodes[k + 1..];
  }

  lemma {:induction false} NoneKept(nodes: seq<XmlNode>, kinds: set<ElementType>, inside: bool)
    requires forall i :: 0 <= i < |nodes| ==> !Kept(nodes[i], kinds, inside)
    ensures FilterNodes(nodes, kinds, inside) == []
  {
    if |nodes| > 0 {
      NoneKept(nodes[1..], kinds, inside);
    }
  }
}
