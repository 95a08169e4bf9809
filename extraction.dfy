/** The extraction-expression interpreter of main/Rules.java (the two
    `parseCode` methods): a `+`-separated sequence of selectors and `name(arg)`
    commands evaluated left to right against a current set of elements. */
module Extraction {
  import opened Strings
  import opened Html

  /** What `parseCode(ByteBuffer, Elements)` hands back: an element, Java's
      null, or an exception it raises. */
  datatype Located = Found(element: Element) | NoElement | Thrown(exception: string)

  const INDEX_OUT_OF_BOUNDS := "IndexOutOfBoundsException"
  const NULL_DEREF := "NullPointerException"

  /** The value of expression `expr` over the element set `elements`.
      `intValue` stands for ByteBuffer.intValue, the parse of a command's
      argument. Every recursive call is on the text after the first `+`,
      which is strictly shorter than `expr`. */
  function Eval(dom: Dom, intValue: string -> int, expr: string, elements: seq<Element>): (r: Located)
    ensures r.Thrown? ==> r.exception == INDEX_OUT_OF_BOUNDS
    ensures elements == [] ==> !r.Found?
    ensures expr == [] && elements != [] ==> r == Found(FirstLeaf(elements[0]))
    ensures r.Found? ==> elements != []
    decreases |expr|
  {
    if (|elements| == 1 && elements[0].children == []) || expr == [] then
      if elements == [] then Thrown(INDEX_OUT_OF_BOUNDS)
      else Found(FirstLeaf(elements[0]))
    else if elements == [] then NoElement
    else
      var (command, rest) := NextToken(expr, '+');
      if '(' in command then
        var (name, afterParen) := NextToken(command, '(');
        var (argument, _) := NextToken(afterParen, ')');
        if name == "child" then
          var k := intValue(argument);
          if 0 <= k < |elements| then Eval(dom, intValue, rest, elements[k].children)
          else Thrown(INDEX_OUT_OF_BOUNDS)
        else Found(elements[0])
      else Eval(dom, intValue, rest, dom.select(elements, command))
  }

  /** The value of a field's code expression over a page:
      `parseCode(val, page)` evaluates over `page.getAllElements()` and takes
      the own text of the element found; a null element raises
      NullPointerException. */
  function EvalText(dom: Dom, intValue: string -> int, expr: string, page: Element): Result<string> {
    match Eval(dom, intValue, expr, AllElements(page))
    case Found(e) => Ok(e.ownText)
    case NoElement => Fail(NULL_DEREF)
    case Thrown(x) => Fail(x)
  }

  /** A field's code yields the own text of the element found; it fails
      only with NullPointerException (no element) or
      IndexOutOfBoundsException (an empty element set or a child index out
      of range), and an empty code over a page yields the own text of its
      first leaf. */
  lemma EvalTextOutcome(dom: Dom, intValue: string -> int, expr: string, page: Element)
    ensures var r, e := EvalText(dom, intValue, expr, page), Eval(dom, intValue, expr, AllElements(page));
      && (r.Ok? <==> e.Found?)
      && (r.Ok? ==> r.value == e.element.ownText)
      && (r.Fail? ==> r.exception == NULL_DEREF || r.exception == INDEX_OUT_OF_BOUNDS)
      && (expr == [] ==> r == Ok(FirstLeaf(page).ownText))
  {
  }

  /** The descent loop of parseCode: follow first children down to an
      element that has none. */
  method DescendFirstChildren(e: Element) returns (curr: Element)
    ensures curr == FirstLeaf(e)
    ensures curr.children == []
  {
    curr := e;
    var children := e.children;
    while |children| > 0
      invariant children == curr.children
      invariant FirstLeaf(curr) == FirstLeaf(e)
      decreases curr
    {
      curr := children[0];
      children := curr.children;
    }
  }

  /** parseCode(ByteBuffer, Elements), over the remaining expression text. */
  method ParseCodeIn(dom: Dom, intValue: string -> int, buf: string, elements: seq<Element>)
    returns (r: Located)
    ensures r == Eval(dom, intValue, buf, elements)
    decreases |buf|
  {
    var size := |elements|;
    if (size == 1 && |elements[0].children| == 0) || |buf| == 0 {
      if size == 0 {
        return Thrown(INDEX_OUT_OF_BOUNDS);
      }
      var curr := DescendFirstChildren(elements[0]);
      return Found(curr);
    } else if size == 0 {
      return NoElement;
    } else {
      var (command, rest) := NextToken(buf, '+');
      if IndexOfChar(command, '(') != -1 {
        var (commandText, afterParen) := NextToken(command, '(');
        var (commandProperties, _) := NextToken(afterParen, ')');
        if commandText == "child" {
          var k := intValue(commandProperties);
          if !(0 <= k < size) {
            return Thrown(INDEX_OUT_OF_BOUNDS);
          }
          r := ParseCodeIn(dom, intValue, rest, elements[k].children);
        } else {
          r := Found(elements[0]);
        }
      } else {
        var nextElems := dom.select(elements, command);
        r := ParseCodeIn(dom, intValue, rest, nextElems);
      }
    }
  }

  /** parseCode(String, Document): evaluate over getAllElements and take the
      own text of the result. */
  method ParseCode(dom: Dom, intValue: string -> int, val: string, page: Element)
    returns (r: Result<string>)
    ensures r == EvalText(dom, intValue, val, page)
  {
    var found := ParseCodeIn(dom, intValue, val, AllElements(page));
    match found
    case Found(e) => r := Ok(e.ownText);
    case NoElement => r := Fail(NULL_DEREF);
    case Thrown(x) => r := Fail(x);
  }

  /** An exhausted expression over a non-empty set yields the leaf under the
      first element, reached by first-child descent; it has no children and
      is the first childless element of that subtree in document order. */
  lemma EmptyExpressionDescends(dom: Dom, intValue: string -> int, elements: seq<Element>)
    requires elements != []
    ensures Eval(dom, intValue, "", elements) == Found(FirstLeaf(elements[0]))
    ensures FirstLeaf(elements[0]).children == []
    ensures LeafDepth(elements[0]) < |AllElements(elements[0])|
    ensures AllElements(elements[0])[LeafDepth(elements[0])] == FirstLeaf(elements[0])
  {
    FirstLeafInDocumentOrder(elements[0]);
  }

  /** A single childless element ends evaluation, whatever text remains. */
  lemma SingleLeafEndsEvaluation(dom: Dom, intValue: string -> int, expr: string, leaf: Element)
    requires leaf.children == []
    ensures Eval(dom, intValue, expr, [leaf]) == Found(leaf)
  {
  }

  /** An empty element set with text remaining yields null; with no text
      remaining, `elements.get(0)` raises. */
  lemma EmptySet(dom: Dom, intValue: string -> int, expr: string)
    ensures Eval(dom, intValue, expr, []) == if expr == [] then Thrown(INDEX_OUT_OF_BOUNDS) else NoElement
  {
  }

  /** The `child(i)` command narrows to the children of element `i`;
      the rest of the expression is evaluated against them. */
  lemma ChildCommand(dom: Dom, intValue: string -> int, argument: string, rest: string, elements: seq<Element>)
    requires |elements| > 1 || (|elements| == 1 && elements[0].children != [])
    requires 0 <= intValue(argument) < |elements|
    requires ')' !in argument && '+' !in argument
    ensures Eval(dom, intValue, "child(" + argument + ")+" + rest, elements)
         == Eval(dom, intValue, rest, elements[intValue(argument)].children)
  {
    var command := "child(" + argument + ")";
    var expr := "child(" + argument + ")+" + rest;
    assert expr == command + ['+'] + rest;
    assert '+' !in command by {
      assert command == "child(" + argument + ")";
    }
    NextTokenSplits(command, '+', rest);
    assert command == "child" + ['('] + (argument + ")");
    NextTokenSplits("child", '(', argument + ")");
    assert argument + ")" == argument + [')'] + "";
    NextTokenSplits(argument, ')', "");
    assert command[5] == '(';
    ChildStep(dom, intValue, expr, elements);
  }

  /** One `child(i)` step, for any expression whose first segment names it. */
  lemma ChildStep(dom: Dom, intValue: string -> int, expr: string, elements: seq<Element>)
    requires |elements| > 1 || (|elements| == 1 && elements[0].children != [])
    requires expr != []
    requires '(' in NextToken(expr, '+').0
    requires NextToken(NextToken(expr, '+').0, '(').0 == "child"
    requires 0 <= intValue(NextToken(NextToken(NextToken(expr, '+').0, '(').1, ')').0) < |elements|
    ensures Eval(dom, intValue, expr, elements)
         == Eval(dom, intValue, NextToken(expr, '+').1,
                 elements[intValue(NextToken(NextToken(NextToken(expr, '+').0, '(').1, ')').0)].children)
  {
  }

  /** A command other than `child` gives up and yields the first element of
      the current set. */
  lemma UnknownCommand(dom: Dom, intValue: string -> int, expr: string, elements: seq<Element>)
    requires |elements| > 1 || (|elements| == 1 && elements[0].children != [])
    requires expr != []
    requires '(' in NextToken(expr, '+').0
    requires NextToken(NextToken(expr, '+').0, '(').0 != "child"
    ensures Eval(dom, intValue, expr, elements) == Found(elements[0])
  {
  }

  /** A segment without `(` is a selector: the rest is evaluated over its matches. */
  lemma SelectorSegment(dom: Dom, intValue: string -> int, selector: string, rest: string, elements: seq<Element>)
    requires |elements| > 1 || (|elements| == 1 && elements[0].children != [])
    requires '(' !in selector && '+' !in selector
    ensures Eval(dom, intValue, selector + "+" + rest, elements)
         == Eval(dom, intValue, rest, dom.select(elements, selector))
  {
    assert selector + "+" + rest == selector + ['+'] + rest;
    NextTokenSplits(selector, '+', rest);
  }

  /** The worked example: `child(0)+p` over {div[div[p("X")]]} narrows to the
      inner div, selects its `p` and yields "X". */
  lemma ChildThenSelector(dom: Dom, intValue: string -> int)
    requires intValue("0") == 0
    requires dom.select([Element("div", "", [Element("p", "X", [])])], "p") == [Element("p", "X", [])]
    ensures Eval(dom, intValue, "child(0)+p",
                 [Element("div", "", [Element("div", "", [Element("p", "X", [])])])])
         == Found(Element("p", "X", []))
  {
    var p := Element("p", "X", []);
    var inner := Element("div", "", [p]);
    var outer := Element("div", "", [inner]);
    ChildCommand(dom, intValue, "0", "p", [outer]);
    assert "child(" + "0" + ")+" + "p" == "child(0)+p";
    assert Eval(dom, intValue, "p", [inner]) == Eval(dom, intValue, "", [p]) by {
      assert NextToken("p", '+') == ("p", "");
    }
  }
}
