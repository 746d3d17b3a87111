/**
 * The annotation-only child check of the XSD reader (xsd-parser/src/xml_to_xsd/utils.rs).
 * The annotation type and its parser belong to the reader's element model and are
 * parameters here, as is the lookup of a node's element kind, which can fail.
 */
module Annotation {
  import opened Wrappers
  import opened Xml

  function ElementChildren(node: XmlNode): seq<XmlNode>
  {
    ElementChildrenExcept(node, {})
  }

  function InvalidChild(parentName: string): string
  {
    "Invalid child node for xsd:" + parentName + " type"
  }

  /** What the loop computes from `kids` on, having kept `acc` so far. */
  function Scan<A>(kids: seq<XmlNode>, kindOf: XmlNode -> Result<ElementType, string>,
                   parse: XmlNode -> Result<A, string>, parentName: string, acc: Option<A>): Result<Option<A>, string>
  {
    if kids == [] then Success(acc)
    else match kindOf(kids[0])
      case Failure(e) => Failure(e)
      case Success(k) =>
        if k != ElementType.Annotation then Failure(InvalidChild(parentName))
        else match parse(kids[0])
          case Failure(e) => Failure(e)
          case Success(a) => Scan(kids[1..], kindOf, parse, parentName, Some(a))
  }

  /** `annotation_only`: the last annotation among the element children, failing at the first other child. */
  method AnnotationOnly<A>(node: XmlNode, parentName: string, kindOf: XmlNode -> Result<ElementType, string>,
                           parse: XmlNode -> Result<A, string>) returns (r: Result<Option<A>, string>)
    ensures r == Scan(ElementChildren(node), kindOf, parse, parentName, Option.None)
  {
    var kids := ElementChildren(node);
    var annotation: Option<A> := Option.None;
    var i := 0;
    while i < |kids|
      invariant 0 <= i <= |kids|
      invariant Scan(kids, kindOf, parse, parentName, Option.None) == Scan(kids[i..], kindOf, parse, parentName, annotation)
    {
      var ch := kids[i];
      assert kids[i..][0] == ch && kids[i..][1..] == kids[i + 1..];
      var kind := kindOf(ch);
      if kind.Failure? {
        return Failure(kind.error);
      }
      if kind.value != ElementType.Annotation {
        return Failure(InvalidChild(parentName));
      }
      var parsed := parse(ch);
      if parsed.Failure? {
        return Failure(parsed.error);
      }
      annotation := Some(parsed.value);
      i := i + 1;
    }
    return Success(annotation);
  }

  /** Every child is a recognised annotation that parses. */
  predicate AllAnnotations<A>(kids: seq<XmlNode>, kindOf: XmlNode -> Result<ElementType, string>, parse: XmlNode -> Result<A, string>)
  {
    forall i :: 0 <= i < |kids| ==> kindOf(kids[i]) == Success(ElementType.Annotation) && parse(kids[i]).Success?
  }

  /** The scan succeeds exactly on annotation-only children, and then yields the last annotation (or what it had, for none). */
  lemma {:induction false} ScanSucceeds<A>(kids: seq<XmlNode>, kindOf: XmlNode -> Result<ElementType, string>,
                                          parse: XmlNode -> Result<A, string>, parentName: string, acc: Option<A>)
    ensures Scan(kids, kindOf, parse, parentName, acc).Success? <==> AllAnnotations(kids, kindOf, parse)
    ensures Scan(kids, kindOf, parse, parentName, acc).Success? ==>
      Scan(kids, kindOf, parse, parentName, acc).value == (if kids == [] then acc else Some(parse(kids[|kids| - 1]).value))
  {
    if kids != [] {
      ScanSucceeds(kids[1..], kindOf, parse, parentName, acc);
      if kindOf(kids[0]) == Success(ElementType.Annotation) && parse(kids[0]).Success? {
        ScanSucceeds(kids[1..], kindOf, parse, parentName, Some(parse(kids[0]).value));
        assert AllAnnotations(kids, kindOf, parse) <==> AllAnnotations(kids[1..], kindOf, parse) by {
          if AllAnnotations(kids[1..], kindOf, parse) {
            forall i | 0 <= i < |kids|
              ensures kindOf(kids[i]) == Success(ElementType.Annotation) && parse(kids[i]).Success?
            {
              if i > 0 {
                assert kids[i] == kids[1..][i - 1];
              }
            }
          }
        }
      }
    }
  }

  /**
   * On failure the error is that of the first child that is not a parsable annotation:
   * its kind lookup error, the invalid-child message, or its parse error.
   */
  lemma {:induction false} ScanFailsAtFirstOffender<A>(kids: seq<XmlNode>, kindOf: XmlNode -> Result<ElementType, string>,
                                                      parse: XmlNode -> Result<A, string>, parentName: string, acc: Option<A>, i: nat)
    requires i < |kids|
    requires AllAnnotations(kids[..i], kindOf, parse)
    requires !(kindOf(kids[i]) == Success(ElementType.Annotation) && parse(kids[i]).Success?)
    ensures Scan(kids, kindOf, parse, parentName, acc) ==
      if kindOf(kids[i]).Failure? then Failure(kindOf(kids[i]).error)
      else if kindOf(kids[i]).value != ElementType.Annotation then Failure(InvalidChild(parentName))
      else Failure(parse(kids[i]).error)
  {
    if i > 0 {
      assert kids[..i][0] == kids[0];
      assert kids[1..][..i - 1] == kids[..i][1..];
      var tail := kids[1..][..i - 1];
      assert AllAnnotations(tail, kindOf, parse) by {
        forall j | 0 <= j < |tail|
          ensures kindOf(tail[j]) == Success(ElementType.Annotation) && parse(tail[j]).Success?
        {
          assert tail[j] == kids[..i][j + 1];
        }
      }
      ScanFailsAtFirstOffender(kids[1..], kindOf, parse, parentName, Some(parse(kids[0]).value), i - 1);
    }
  }

  /** `annotation_first`: the parse of the first element child, whatever its kind; None when absent or unparsable. */
  function AnnotationFirst<A>(node: XmlNode, parse: XmlNode -> Result<A, string>): (r: Option<A>)
    ensures ElementChildren(node) == [] ==> r.None?
    ensures ElementChildren(node) != [] ==>
      var first := ElementChildren(node)[0];
      && (r.Some? <==> parse(first).Success?)
      && (r.Some? ==> r.value == parse(first).value)
  {
    var kids := ElementChildren(node);
    if kids == [] then Option.None
    else match parse(kids[0])
      case Success(a) => Some(a)
      case Failure(_) => Option.None
  }
}
