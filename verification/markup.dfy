/** A parsed HTML fragment and `walkNodes` from the blog detail page: text
    nodes are upper-cased, every other node is left as it is while the walk
    descends into its children. */
module Markup {
  import opened Text

  datatype Attribute = Attribute(name: string, value: string)

  /** The DOM node kinds a parsed body holds. Attributes are not child nodes,
      and comments have no children. */
  datatype Node =
    | TextNode(content: string)
    | CommentNode(data: string)
    | Element(tag: string, attributes: seq<Attribute>, children: seq<Node>)

  /** `walkNodes`: a text node with non-empty (truthy) content gets its
      content upper-cased; any other node keeps its own data and has the walk
      applied to each child in order. */
  function Walk(n: Node): Node {
    match n
    case TextNode(s) => if s != "" then TextNode(Upper(s)) else n
    case CommentNode(_) => n
    case Element(tag, attrs, cs) =>
      Element(tag, attrs, seq(|cs|, i requires 0 <= i < |cs| => Walk(cs[i])))
  }

  /** `convertHtmlTextToUppercase` on an already-parsed body: walk the body
      and return its children (its `innerHTML`). */
  function ConvertBody(body: seq<Node>): seq<Node> {
    Walk(Element("body", [], body)).children
  }

  /** Same tree shape: same node kinds, tags, attributes, comments and number
      and order of children; text contents may differ. */
  ghost predicate SameShape(a: Node, b: Node) {
    match a
    case TextNode(_) => b.TextNode?
    case CommentNode(d) => b == CommentNode(d)
    case Element(tag, attrs, cs) =>
      && b.Element? && b.tag == tag && b.attributes == attrs
      && |b.children| == |cs|
      && forall i :: 0 <= i < |cs| ==> SameShape(cs[i], b.children[i])
  }

  /** `b` is an upper-case copy of `a`: the same shape, with every text node
      of `b` an upper case of the text node of `a` at the same place. */
  ghost predicate UpperCopy(a: Node, b: Node) {
    match a
    case TextNode(s) => b.TextNode? && IsUpperOf(b.content, s)
    case CommentNode(d) => b == CommentNode(d)
    case Element(tag, attrs, cs) =>
      && b.Element? && b.tag == tag && b.attributes == attrs
      && |b.children| == |cs|
      && forall i :: 0 <= i < |cs| ==> UpperCopy(cs[i], b.children[i])
  }

  /** Every text node holds upper-case text. */
  ghost predicate AllTextUpper(n: Node) {
    match n
    case TextNode(s) => IsUpperCase(s)
    case CommentNode(_) => true
    case Element(_, _, cs) => forall i :: 0 <= i < |cs| ==> AllTextUpper(cs[i])
  }

  /** The visible text: the contents of the text nodes, in document order. */
  function TextOf(n: Node): string {
    match n
    case TextNode(s) => s
    case CommentNode(_) => ""
    case Element(_, _, cs) => TextOfAll(cs)
  }

  function TextOfAll(cs: seq<Node>): string
    decreases cs
  {
    if |cs| == 0 then "" else TextOf(cs[0]) + TextOfAll(cs[1..])
  }

  /** The emptiness guard makes no difference: an empty text is its own upper case. */
  lemma WalkText(s: string)
    ensures Walk(TextNode(s)) == TextNode(Upper(s))
  {
  }

  /** The walk keeps the shape of the tree. */
  lemma {:induction false} WalkKeepsShape(n: Node)
    ensures SameShape(n, Walk(n))
  {
    match n
    case TextNode(_) =>
    case CommentNode(_) =>
    case Element(tag, attrs, cs) =>
      forall i | 0 <= i < |cs| ensures SameShape(cs[i], Walk(n).children[i]) {
        WalkKeepsShape(cs[i]);
      }
  }

  /** After the walk no text node holds a lower-case letter. */
  lemma {:induction false} WalkUppercasesAll(n: Node)
    ensures AllTextUpper(Walk(n))
  {
    match n
    case TextNode(s) =>
      UpperSpec(s);
    case CommentNode(_) =>
    case Element(tag, attrs, cs) =>
      forall i | 0 <= i < |cs| ensures AllTextUpper(Walk(n).children[i]) {
        WalkUppercasesAll(cs[i]);
      }
  }

  /** The walk upper-cases each text node in place: every text node of the
      result is the upper case of the original text node at the same place. */
  lemma {:induction false} WalkIsUpperCopy(n: Node)
    ensures UpperCopy(n, Walk(n))
  {
    match n
    case TextNode(s) =>
      UpperIsUpperOf(s);
    case CommentNode(_) =>
    case Element(tag, attrs, cs) =>
      forall i | 0 <= i < |cs| ensures UpperCopy(cs[i], Walk(n).children[i]) {
        WalkIsUpperCopy(cs[i]);
      }
  }

  /** Conversely, the walk is the only upper-case copy of a tree. */
  lemma {:induction false} UpperCopyIsWalk(a: Node, b: Node)
    requires UpperCopy(a, b)
    ensures b == Walk(a)
  {
    match a
    case TextNode(s) =>
      UpperOfUnique(b.content, s);
    case CommentNode(_) =>
    case Element(tag, attrs, cs) =>
      forall i | 0 <= i < |cs| ensures b.children[i] == Walk(cs[i]) {
        UpperCopyIsWalk(cs[i], b.children[i]);
      }
      assert b.children == Walk(a).children;
  }

  /** A tree whose text is already upper case is left unchanged. */
  lemma {:induction false} WalkFixesUpper(n: Node)
    requires AllTextUpper(n)
    ensures Walk(n) == n
  {
    match n
    case TextNode(s) =>
      UpperOfUpperCase(s);
    case CommentNode(_) =>
    case Element(tag, attrs, cs) =>
      forall i | 0 <= i < |cs| ensures Walk(cs[i]) == cs[i] {
        WalkFixesUpper(cs[i]);
      }
      assert Walk(n).children == cs;
  }

  /** Walking twice is walking once. */
  lemma WalkIdempotent(n: Node)
    ensures Walk(Walk(n)) == Walk(n)
  {
    WalkUppercasesAll(n);
    WalkFixesUpper(Walk(n));
  }

  /** The visible text after the walk is the upper case of the visible text before. */
  lemma {:induction false} WalkUppercasesText(n: Node)
    ensures TextOf(Walk(n)) == Upper(TextOf(n))
    decreases n, 1
  {
    match n
    case TextNode(s) =>
    case CommentNode(_) =>
    case Element(tag, attrs, cs) =>
      WalkUppercasesTextAll(cs, Walk(n).children);
  }

  lemma {:induction false} WalkUppercasesTextAll(cs: seq<Node>, ws: seq<Node>)
    requires |ws| == |cs| && forall i :: 0 <= i < |cs| ==> ws[i] == Walk(cs[i])
    ensures TextOfAll(ws) == Upper(TextOfAll(cs))
    decreases cs, 0
  {
    if |cs| > 0 {
      WalkUppercasesText(cs[0]);
      WalkUppercasesTextAll(cs[1..], ws[1..]);
      UpperConcat(TextOf(cs[0]), TextOfAll(cs[1..]));
    }
  }

  /** On the body: each top-level node becomes its upper-case copy (text
      node by text node), every text is upper case, and the visible text is
      the upper case of the input's. */
  lemma ConvertBodySpec(body: seq<Node>)
    ensures |ConvertBody(body)| == |body|
    ensures forall i :: 0 <= i < |body| ==> UpperCopy(body[i], ConvertBody(body)[i])
    ensures forall i :: 0 <= i < |body| ==> SameShape(body[i], ConvertBody(body)[i])
    ensures forall i :: 0 <= i < |body| ==> AllTextUpper(ConvertBody(body)[i])
    ensures TextOfAll(ConvertBody(body)) == Upper(TextOfAll(body))
    ensures ConvertBody(ConvertBody(body)) == ConvertBody(body)
  {
    var n := Element("body", [], body);
    WalkIsUpperCopy(n);
    WalkKeepsShape(n);
    WalkUppercasesAll(n);
    WalkUppercasesText(n);
    WalkIdempotent(n);
    assert Walk(Walk(n)) == Walk(Element("body", [], ConvertBody(body)));
  }

  /** The example paragraph `<p>Hello <b>World</b></p>` becomes
      `<p>HELLO <b>WORLD</b></p>`; the bold element keeps its attribute. */
  lemma ParagraphExample()
    ensures ConvertBody([Element("p", [], [TextNode("Hello "),
              Element("b", [Attribute("class", "x")], [TextNode("World")])])])
         == [Element("p", [], [TextNode("HELLO "),
              Element("b", [Attribute("class", "x")], [TextNode("WORLD")])])]
  {
    var b := Element("b", [Attribute("class", "x")], [TextNode("World")]);
    var p := Element("p", [], [TextNode("Hello "), b]);
    assert Upper("Hello ") == "HELLO ";
    assert Upper("World") == "WORLD";
    assert Walk(TextNode("World")) == TextNode("WORLD");
    assert Walk(b) == Element("b", [Attribute("class", "x")], [TextNode("WORLD")]);
    assert Walk(TextNode("Hello ")) == TextNode("HELLO ");
    assert Walk(p).children == [TextNode("HELLO "), Walk(b)];
  }
}
