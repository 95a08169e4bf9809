/** The parsed-HTML collaborator, at the level the crawler uses it: a tree of
    elements, and the two library queries (CSS selection and absolute-URL
    resolution) as uninterpreted functions that the caller supplies. */
module Html {

  /** A jsoup element: its tag, its own (non-descendant) text and its children in order. */
  datatype Element = Element(tag: string, ownText: string, children: seq<Element>)

  /** `select(elements, query)` stands for `Elements.select(query)` (for a
      whole page, `page.select(query)` is `select([page], query)`), and
      `absUrl(e, attribute)` for `e.absUrl(attribute)`. CSS semantics and URL
      resolution are not modelled. */
  datatype Dom = Dom(
    select: (seq<Element>, string) -> seq<Element>,
    absUrl: (Element, string) -> string)

  /** getAllElements: `e` and all its descendants, in document (pre-)order. */
  function AllElements(e: Element): (r: seq<Element>)
    ensures |r| >= 1 && r[0] == e
    decreases e, 1
  {
    [e] + AllOfEach(e.children)
  }

  /** The document-order elements of each tree of `es`, one tree after the other. */
  function AllOfEach(es: seq<Element>): seq<Element>
    decreases es, 0
  {
    if es == [] then [] else AllElements(es[0]) + AllOfEach(es[1..])
  }

  /** The element reached from `e` by taking the first child until there is none. */
  function FirstLeaf(e: Element): (leaf: Element)
    ensures leaf.children == []
    decreases e
  {
    if e.children == [] then e else FirstLeaf(e.children[0])
  }

  /** The number of first-child steps from `e` to FirstLeaf(e). */
  function LeafDepth(e: Element): nat
    decreases e
  {
    if e.children == [] then 0 else 1 + LeafDepth(e.children[0])
  }

  /** First-child descent finds the first element in document order that has
      no children: it sits at position LeafDepth(e) of getAllElements, and every
      element before it has a child. */
  lemma {:induction false} FirstLeafInDocumentOrder(e: Element)
    ensures LeafDepth(e) < |AllElements(e)|
    ensures AllElements(e)[LeafDepth(e)] == FirstLeaf(e)
    ensures forall j :: 0 <= j < LeafDepth(e) ==> AllElements(e)[j].children != []
    decreases e
  {
    if e.children != [] {
      var c := e.children[0];
      FirstLeafInDocumentOrder(c);
      var all, sub := AllElements(e), AllElements(c);
      assert AllOfEach(e.children) == sub + AllOfEach(e.children[1..]);
      assert all == [e] + sub + AllOfEach(e.children[1..]);
      forall j | 0 <= j < |sub|
        ensures all[j + 1] == sub[j]
      {
      }
    }
  }
}
