/** How printed XML looks: without any white space of its own in compact mode; otherwise one line for
    each element, four spaces further in than its parent. */
module XmlLayout {

  import opened XmlText
  import opened XmlParser
  import opened XmlPrinter

  // ---------------------------------------------------------------- escaped characters

  /** What is written for a character: the five entities of XML 1.0 section 4.6, quotes being left
      alone in text. */
  lemma EscapedCharacters()
    ensures Escape("&", true) == Escape("&", false) == "&amp;"
    ensures Escape("<", true) == Escape("<", false) == "&lt;"
    ensures Escape(">", true) == Escape(">", false) == "&gt;"
    ensures Escape("\"", false) == "&quot;" && Escape("\'", false) == "&apos;"
    ensures Escape("\"", true) == "\"" && Escape("\'", true) == "\'"
    ensures forall c, restricted :: c !in "&<>\"\'" ==> Escape([c], restricted) == [c]
  {
    SingleEscape('&', true);
    SingleEscape('&', false);
    SingleEscape('<', true);
    SingleEscape('<', false);
    SingleEscape('>', true);
    SingleEscape('>', false);
    SingleEscape('\"', true);
    SingleEscape('\"', false);
    SingleEscape('\'', true);
    SingleEscape('\'', false);
    forall c, restricted | c !in "&<>\"\'" ensures Escape([c], restricted) == [c] {
      SingleEscape(c, restricted);
      NotSpecial(c);
    }
  }

  lemma NotSpecial(c: char)
    requires c !in "&<>\"\'"
    ensures c != '&' && c != '<' && c != '>' && c != '\"' && c != '\''
  {
    var specials := "&<>\"\'";
    assert specials[0] == '&' && specials[1] == '<' && specials[2] == '>' && specials[3] == '\"' && specials[4] == '\'';
  }

  lemma SingleEscape(c: char, restricted: bool)
    ensures Escape([c], restricted) == EscapeChar(c, restricted)
  {
    assert [c][1..] == "";
    assert EscapeChar(c, restricted) + "" == EscapeChar(c, restricted);
  }

  /** And a text is escaped character by character. */
  lemma {:induction false} EscapedParts(a: string, b: string, restricted: bool)
    ensures Escape(a + b, restricted) == Escape(a, restricted) + Escape(b, restricted)
    decreases |a|
  {
    if a == "" {
      assert a + b == b;
    } else {
      assert (a + b)[1..] == a[1..] + b;
      EscapedParts(a[1..], b, restricted);
    }
  }

  // ---------------------------------------------------------------- compact mode

  function FlatAttribute(a: Attribute): string {
    " " + a.name + "=\"" + Escape(a.value, false) + "\""
  }

  function FlatAttributes(attributes: seq<Attribute>): string {
    if attributes == [] then ""
    else FlatAttributes(attributes[..|attributes| - 1]) + FlatAttribute(attributes[|attributes| - 1])
  }

  function Flat(n: Node): string {
    match n
    case Text(value) => Escape(value, true)
    case Element(name, attributes, children) =>
      "<" + name + FlatAttributes(attributes)
      + if children == [] then "/>" else ">" + FlatAll(children) + "</" + name + ">"
  }

  function FlatAll(ns: seq<Node>): string {
    if ns == [] then "" else Flat(ns[0]) + FlatAll(ns[1..])
  }

  lemma {:induction false} AttributesAreFlat(attributes: seq<Attribute>)
    ensures AttributesText(attributes) == FlatAttributes(attributes)
    decreases |attributes|
  {
    if attributes != [] {
      hide AttributeText, FlatAttribute, AttributesText;
      var front, last := attributes[..|attributes| - 1], attributes[|attributes| - 1];
      AttributesAreFlat(front);
      AttributesSplit(front, last);
      AttributeIsFlat(last);
      assert front + [last] == attributes;
    } else {
      assert AttributesText([]) == "";
    }
  }

  lemma AttributeIsFlat(a: Attribute)
    ensures AttributeText(a) == FlatAttribute(a)
  {
    hide Escape;
    var value := Escape(a.value, false);
    assert " " + (a.name + ("=\"" + (value + "\""))) == " " + a.name + "=\"" + value + "\"";
  }

  lemma {:induction false} AttributesSplit(attributes: seq<Attribute>, a: Attribute)
    ensures AttributesText(attributes + [a]) == AttributesText(attributes) + AttributeText(a)
    decreases |attributes|
  {
    hide AttributeText;
    if attributes == [] {
      assert [] + [a] == [a] && [a][1..] == [];
      assert AttributesText([a]) == AttributeText(a) + "";
    } else {
      assert (attributes + [a])[1..] == attributes[1..] + [a];
      AttributesSplit(attributes[1..], a);
    }
  }

  lemma {:induction false} NodeIsFlat(n: Node, depth: nat, textDepth: int, first: bool)
    ensures NodeText(n, depth, textDepth, first, true).text == Flat(n)
    decreases n, 0
  {
    if n.Element? {
      hide AttributesText, FlatAttributes;
      AttributesAreFlat(n.attributes);
      BodyIsFlat(n.name, n.children, depth, textDepth, first);
      OneAfterTheOther("<", n.name, AttributesText(n.attributes),
                       BodyText(n.name, n.children, depth, textDepth, first, true).text);
      hide BodyText;
    }
  }

  lemma OneAfterTheOther(a: string, b: string, c: string, d: string)
    ensures "" + (a + (b + (c + (d + "")))) == a + b + c + d
  {
  }

  lemma {:induction false} BodyIsFlat(name: string, children: seq<Node>, depth: nat, textDepth: int, first: bool)
    ensures BodyText(name, children, depth, textDepth, first, true).text
      == if children == [] then "/>" else ">" + FlatAll(children) + "</" + name + ">"
    decreases children, 1
  {
    if children != [] {
      hide NodesText, FlatAll, Indent;
      NodesAreFlat(children, depth + 1, textDepth, first);
      OpenAndClosed(FlatAll(children), name);
    }
  }

  lemma OpenAndClosed(inner: string, name: string)
    ensures ">" + (inner + ("" + ("</" + (name + ">")))) == ">" + inner + "</" + name + ">"
  {
  }

  lemma {:induction false} NodesAreFlat(ns: seq<Node>, depth: nat, textDepth: int, first: bool)
    ensures NodesText(ns, depth, textDepth, first, true).text == FlatAll(ns)
    decreases ns, 0
  {
    hide NodeText, Flat;
    if ns != [] {
      NodeIsFlat(ns[0], depth, textDepth, first);
      NodesAreFlat(ns[1..], depth, NodeText(ns[0], depth, textDepth, first, true).textDepth,
                   FirstAfter(ns[0], first, true));
    }
  }

  /** In compact mode a document is printed without any white space of the printer's own. */
  lemma CompactIs(ns: seq<Node>)
    ensures PrintDocument(ns, true) == FlatAll(ns)
  {
    NodesAreFlat(ns, 0, -1, true);
  }

  // ---------------------------------------------------------------- one line for each element

  function Spaces(n: nat): string {
    seq(n, _ => ' ')
  }

  predicate AllTexts(ns: seq<Node>) {
    forall n :: n in ns ==> n.Text?
  }

  /** No element has both texts and elements in it. */
  predicate Unmixed(n: Node) {
    n.Element? && (AllTexts(n.children) || AllUnmixed(n.children))
  }

  predicate AllUnmixed(ns: seq<Node>) {
    ns == [] || (Unmixed(ns[0]) && AllUnmixed(ns[1..]))
  }

  /** An element on lines of its own: texts inside it are on its line, elements below it. */
  function Block(n: Node, depth: nat): string
    requires Unmixed(n)
  {
    Spaces(4 * depth) + "<" + n.name + FlatAttributes(n.attributes)
    + if n.children == [] then "/>"
      else if AllTexts(n.children) then ">" + FlatAll(n.children) + "</" + n.name + ">"
      else ">" + Blocks(n.children, depth + 1) + "\n" + Spaces(4 * depth) + "</" + n.name + ">"
  }

  function Blocks(ns: seq<Node>, depth: nat): string
    requires AllUnmixed(ns)
  {
    if ns == [] then "" else "\n" + Block(ns[0], depth) + Blocks(ns[1..], depth)
  }

  /** The elements of a document, with an empty line between them. */
  function Document(ns: seq<Node>): string
    requires AllUnmixed(ns)
  {
    if ns == [] then ""
    else Block(ns[0], 0) + "\n" + (if |ns| == 1 then "" else "\n") + Document(ns[1..])
  }

  lemma {:induction false} IndentIs(depth: nat)
    ensures Indent(depth) == Spaces(4 * depth)
    decreases depth
  {
    if depth > 0 {
      IndentIs(depth - 1);
      assert Spaces(4 * depth) == "    " + Spaces(4 * (depth - 1));
    }
  }

  lemma {:induction false} TextsInLine(ns: seq<Node>, depth: nat, textDepth: int)
    requires AllTexts(ns)
    ensures NodesText(ns, depth, textDepth, false, false)
      == Printed(FlatAll(ns), if ns == [] then textDepth else depth - 1)
    decreases |ns|
  {
    hide Escape;
    if ns != [] {
      assert ns[0] in ns;
      TextsInLine(ns[1..], depth, depth - 1);
    }
  }

  /** An element is a block, with the margin in front of it and a line end behind it. */
  lemma {:induction false} ElementIsBlock(n: Node, depth: nat, first: bool)
    requires Unmixed(n)
    ensures NodeText(n, depth, -1, first, false)
      == Printed((if first then "" else "\n") + Block(n, depth) + (if depth == 0 then "\n" else ""), -1)
    decreases n, 0
  {
    hide AttributesText, FlatAttributes, Spaces, Indent, AllTexts, AllUnmixed, Blocks, FlatAll, BodyText;
    IndentIs(depth);
    AttributesAreFlat(n.attributes);
    BodyIsBlock(n, depth, first);
    var body := BodyText(n.name, n.children, depth, -1, first, false);
    var end := if depth == 0 then "\n" else "";
    var attributes := AttributesText(n.attributes);
    var space := Indent(depth);
    assert Block(n, depth) == space + "<" + n.name + attributes + body.text;
    hide Block;
    InItsPlace(space, "<", n.name, attributes, body.text, end);
  }

  lemma InItsPlace(space: string, a: string, b: string, c: string, d: string, end: string)
    ensures space + (a + (b + (c + (d + end)))) == "" + (space + a + b + c + d) + end
    ensures ("\n" + space) + (a + (b + (c + (d + end)))) == "\n" + (space + a + b + c + d) + end
  {
  }

  lemma ClosedBelow(inner: string, space: string, name: string)
    ensures ">" + (inner + (("\n" + space) + ("</" + (name + ">")))) == ">" + inner + "\n" + space + "</" + name + ">"
  {
  }

  lemma {:induction false} BodyIsBlock(n: Node, depth: nat, first: bool)
    requires Unmixed(n)
    ensures var body := BodyText(n.name, n.children, depth, -1, first, false);
      && DepthAfter(body.textDepth, depth) == -1
      && body.text == (if n.children == [] then "/>"
                       else if AllTexts(n.children) then ">" + FlatAll(n.children) + "</" + n.name + ">"
                       else ">" + Blocks(n.children, depth + 1) + "\n" + Spaces(4 * depth) + "</" + n.name + ">")
    decreases n.children, 1
  {
    hide Spaces, Indent, AllTexts, AllUnmixed, FlatAll, Blocks, NodesText;
    if n.children != [] {
      if AllTexts(n.children) {
        TextsInLine(n.children, depth + 1, -1);
        OpenAndClosed(FlatAll(n.children), n.name);
      } else {
        IndentIs(depth);
        ElementsAreBlocks(n.children, depth + 1);
        ClosedBelow(Blocks(n.children, depth + 1), Spaces(4 * depth), n.name);
      }
    }
  }

  lemma {:induction false} ElementsAreBlocks(ns: seq<Node>, depth: nat)
    requires AllUnmixed(ns) && depth > 0
    ensures NodesText(ns, depth, -1, false, false) == Printed(Blocks(ns, depth), -1)
    decreases ns, 0
  {
    hide NodeText, Block, Unmixed;
    if ns != [] {
      ElementIsBlock(ns[0], depth, false);
      ElementsAreBlocks(ns[1..], depth);
      var block := Block(ns[0], depth);
      assert "\n" + block + "" == "\n" + block;
    }
  }

  lemma UnmixedIsElement(n: Node)
    requires Unmixed(n)
    ensures n.Element?
  {
  }

  lemma {:induction false} RootsAreBlocks(ns: seq<Node>, first: bool)
    requires AllUnmixed(ns)
    ensures NodesText(ns, 0, -1, first, false)
      == Printed((if first || ns == [] then "" else "\n") + Document(ns), -1)
    decreases ns
  {
    hide NodeText, Block, Unmixed;
    if ns != [] {
      UnmixedIsElement(ns[0]);
      ElementIsBlock(ns[0], 0, first);
      RootsAreBlocks(ns[1..], false);
      var block, rest := Block(ns[0], 0), Document(ns[1..]);
      var margin := if first then "" else "\n";
      var between := if |ns| == 1 then "" else "\n";
      assert (margin + block + "\n") + (between + rest) == margin + (block + "\n" + between + rest);
    }
  }

  /** Otherwise each element has its own lines, four spaces further in than its parent, if no element
      has both texts and elements in it. */
  lemma PrettyIs(ns: seq<Node>)
    requires AllUnmixed(ns)
    ensures PrintDocument(ns, false) == Document(ns)
  {
    RootsAreBlocks(ns, true);
    assert "" + Document(ns) == Document(ns);
  }
}
