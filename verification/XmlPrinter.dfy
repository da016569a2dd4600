/** XMLPrinter (tinyxml2.cpp): what it writes for a document, as functions, and the printer
    object with its state. */
module XmlPrinter {
  import opened XmlText
  import opened XmlParser

  function Indent(depth: nat): string {
    if depth == 0 then "" else "    " + Indent(depth - 1)
  }

  /** What PrepareForNewNode puts in front of an element: textDepth is -1 unless an open element
      has text in it. */
  function Margin(depth: nat, textDepth: int, first: bool, compact: bool): string {
    if compact then ""
    else if first then Indent(depth)
    else if textDepth < 0 then "\n" + Indent(depth)
    else ""
  }

  function AttributeText(a: Attribute): string {
    " " + (a.name + ("=\"" + (Escape(a.value, false) + "\"")))
  }

  function AttributesText(attributes: seq<Attribute>): string {
    if attributes == [] then "" else AttributeText(attributes[0]) + AttributesText(attributes[1..])
  }

  /** A printed node, and textDepth after it. */
  datatype Printed = Printed(text: string, textDepth: int)

  /** Whether the next element is still the first one. */
  function FirstAfter(n: Node, first: bool, compact: bool): bool {
    first && (compact || n.Text?)
  }

  function FirstAfterAll(ns: seq<Node>, first: bool, compact: bool): bool {
    first && (compact || forall k :: 0 <= k < |ns| ==> ns[k].Text?)
  }

  /** textDepth after the element at depth is closed. */
  function DepthAfter(textDepth: int, depth: nat): int {
    if textDepth == depth then -1 else textDepth
  }

  function EndTagText(name: string, depth: nat, textDepth: int, compact: bool): string {
    (if textDepth < 0 && !compact then "\n" + Indent(depth) else "") + ("</" + (name + ">"))
  }

  function LineEnd(depth: nat, compact: bool): string {
    if depth == 0 && !compact then "\n" else ""
  }

  /** What comes after the name and the attributes of an element. */
  function BodyText(name: string, children: seq<Node>, depth: nat, textDepth: int, first: bool, compact: bool): Printed
    decreases children, 1
  {
    if children == [] then Printed("/>", textDepth)
    else
      var inner := NodesText(children, depth + 1, textDepth, first && compact, compact);
      Printed(">" + (inner.text + EndTagText(name, depth, inner.textDepth, compact)), inner.textDepth)
  }

  function NodeText(n: Node, depth: nat, textDepth: int, first: bool, compact: bool): Printed
    decreases n, 0
  {
    match n
    case Text(value) => Printed(Escape(value, true), depth - 1)
    case Element(name, attributes, children) =>
      var body := BodyText(name, children, depth, textDepth, first, compact);
      Printed(Margin(depth, textDepth, first, compact)
              + ("<" + (name + (AttributesText(attributes) + (body.text + LineEnd(depth, compact))))),
              DepthAfter(body.textDepth, depth))
  }

  function NodesText(ns: seq<Node>, depth: nat, textDepth: int, first: bool, compact: bool): Printed
    decreases ns, 0
  {
    if ns == [] then Printed("", textDepth)
    else
      var head := NodeText(ns[0], depth, textDepth, first, compact);
      var tail := NodesText(ns[1..], depth, head.textDepth, FirstAfter(ns[0], first, compact), compact);
      Printed(head.text + tail.text, tail.textDepth)
  }

  lemma NoNodes(depth: nat, textDepth: int, first: bool, compact: bool)
    ensures NodesText([], depth, textDepth, first, compact) == Printed("", textDepth)
  {
  }

  function PrintDocument(ns: seq<Node>, compact: bool): string {
    NodesText(ns, 0, -1, true, compact).text
  }

  // ---------------------------------------------------------------- the printer object

  lemma Regroup(a: string, b: string, c: string, d: string)
    ensures a + b + c == a + (b + c)
    ensures a + b + c + d == a + (b + (c + d))
    ensures a + (b + c) + d == a + (b + (c + d))
    ensures a + "" == a && "" + a == a
  {
    assert a + b + c == a + (b + c);
    assert a + b + c + d == a + (b + (c + d));
  }

  class Printer {
    const compact: bool
    var elementJustOpened: bool
    var firstElement: bool
    var depth: nat
    var textDepth: int
    var stack: seq<string>
    var buffer: string

    constructor (compact: bool)
      ensures this.compact == compact && !elementJustOpened && firstElement
      ensures depth == 0 && textDepth == -1 && stack == [] && buffer == ""
    {
      this.compact := compact;
      elementJustOpened, firstElement, depth, textDepth, stack, buffer := false, true, 0, -1, [], "";
    }

    function Seal(): string
      reads this
    {
      if elementJustOpened then ">" else ""
    }

    method Write(text: string)
      modifies this`buffer
      ensures buffer == old(buffer) + text
    {
      buffer := buffer + text;
    }

    method PrintSpace(depth: nat)
      modifies this`buffer
      ensures buffer == old(buffer) + Indent(depth)
    {
      var i := 0;
      while i < depth
        invariant i <= depth && old(buffer) + Indent(depth) == buffer + Indent(depth - i)
      {
        ghost var before := buffer;
        Write("    ");
        assert before + ("    " + Indent(depth - i - 1)) == buffer + Indent(depth - i - 1);
        i := i + 1;
      }
      assert buffer + Indent(0) == buffer;
    }

    method WriteEntity(c: char)
      modifies this`buffer
      ensures buffer == old(buffer) + ("&" + Pattern(c) + ";")
    {
      Write("&");
      Write(Pattern(c));
      Write(";");
    }

    /** Runs of characters between entities are written in one go. */
    method PrintString(s: string, restricted: bool)
      modifies this`buffer
      ensures buffer == old(buffer) + Escape(s, restricted)
    {
      hide Pattern, IsEscaped, Escape;
      var p, q := 0, 0;
      EscapeFromHere(s, 0, restricted);
      Regroup(buffer, "", Escape(s, restricted), "");
      while q < |s|
        invariant p <= q <= |s|
        invariant old(buffer) + Escape(s, restricted) == buffer + (s[p..q] + Escape(s[q..], restricted))
      {
        ghost var before := buffer;
        EscapeFromHere(s, q, restricted);
        if IsEscaped(s[q], restricted) {
          Write(s[p..q]);
          WriteEntity(s[q]);
          EntityWritten(before, s, p, q, restricted);
          p := q + 1;
        } else {
          RunGrows(before, s, p, q, restricted);
        }
        q := q + 1;
      }
      EscapeFromHere(s, q, restricted);
      Write(s[p..q]);
      Regroup(s[p..q], "", "", "");
    }

    lemma EscapeFromHere(s: string, q: nat, restricted: bool)
      requires q <= |s|
      ensures s[0..] == s && s[q..q] == ""
      ensures Escape(s[q..], restricted)
        == if q == |s| then "" else EscapeChar(s[q], restricted) + Escape(s[q + 1..], restricted)
    {
      if q < |s| {
        assert s[q..][1..] == s[q + 1..];
      }
    }

    lemma EntityWritten(before: string, s: string, p: nat, q: nat, restricted: bool)
      requires p <= q < |s| && IsEscaped(s[q], restricted)
      ensures before + (s[p..q] + Escape(s[q..], restricted))
        == before + s[p..q] + ("&" + Pattern(s[q]) + ";") + (s[q + 1..q + 1] + Escape(s[q + 1..], restricted))
    {
      hide Escape, Pattern;
      EscapeFromHere(s, q, restricted);
      EscapeFromHere(s, q + 1, restricted);
      var entity, rest := EscapeChar(s[q], restricted), Escape(s[q + 1..], restricted);
      Regroup(before, s[p..q], entity, rest);
      Regroup(rest, "", "", "");
    }

    lemma RunGrows(before: string, s: string, p: nat, q: nat, restricted: bool)
      requires p <= q < |s| && !IsEscaped(s[q], restricted)
      ensures before + (s[p..q] + Escape(s[q..], restricted))
        == before + (s[p..q + 1] + Escape(s[q + 1..], restricted))
    {
      EscapeFromHere(s, q, restricted);
      hide Escape;
      assert s[p..q + 1] == s[p..q] + [s[q]];
      Regroup(s[p..q], [s[q]], Escape(s[q + 1..], restricted), "");
    }

    method SealElementIfJustOpened()
      modifies this`buffer, this`elementJustOpened
      ensures !elementJustOpened && buffer == old(buffer) + old(Seal())
    {
      if elementJustOpened {
        elementJustOpened := false;
        Write(">");
      }
    }

    method PrepareForNewNode()
      modifies this`buffer, this`elementJustOpened, this`firstElement
      ensures !elementJustOpened && firstElement == (old(firstElement) && compact)
      ensures buffer == old(buffer) + (old(Seal()) + Margin(depth, textDepth, old(firstElement), compact))
    {
      SealElementIfJustOpened();
      if compact {
        return;
      }
      if firstElement {
        PrintSpace(depth);
      } else if textDepth < 0 {
        Write("\n");
        PrintSpace(depth);
      }
      firstElement := false;
    }

    method OpenElement(name: string)
      modifies this
      ensures elementJustOpened && firstElement == (old(firstElement) && compact)
      ensures depth == old(depth) + 1 && textDepth == old(textDepth) && stack == old(stack) + [name]
      ensures buffer == old(buffer)
        + (old(Seal()) + Margin(old(depth), textDepth, old(firstElement), compact) + ("<" + name))
    {
      hide Margin;
      PrepareForNewNode();
      ghost var before := buffer;
      stack := stack + [name];
      Write("<");
      Write(name);
      Regroup(before, "<", name, "");
      Regroup(old(buffer), old(Seal()) + Margin(old(depth), textDepth, old(firstElement), compact), "<" + name, "");
      elementJustOpened := true;
      depth := depth + 1;
    }

    method PushAttribute(a: Attribute)
      modifies this`buffer
      ensures buffer == old(buffer) + AttributeText(a)
    {
      hide Escape;
      ghost var before := buffer;
      Write(" ");
      Write(a.name);
      Regroup(before, " ", a.name, "");
      Write("=\"");
      PrintString(a.value, false);
      Write("\"");
      Regroup(before + (" " + a.name), "=\"", Escape(a.value, false), "\"");
      Regroup(before, " ", a.name, "=\"" + (Escape(a.value, false) + "\""));
    }

    method WriteEndTag(name: string)
      modifies this`buffer
      ensures buffer == old(buffer) + EndTagText(name, depth, textDepth, compact)
    {
      ghost var before := buffer;
      if textDepth < 0 && !compact {
        Write("\n");
        PrintSpace(depth);
        Regroup(before, "\n", Indent(depth), "");
      }
      ghost var margin := if textDepth < 0 && !compact then "\n" + Indent(depth) else "";
      assert buffer == before + margin;
      Write("</");
      Write(name);
      Write(">");
      Regroup(before + margin, "</", name, ">");
      Regroup(before, margin, "</" + (name + ">"), "");
    }

    method CloseElement()
      requires stack != [] && depth > 0
      modifies this
      ensures !elementJustOpened && firstElement == old(firstElement)
      ensures depth == old(depth) - 1 && stack == old(stack[..|stack| - 1])
      ensures textDepth == DepthAfter(old(textDepth), depth)
      ensures buffer == old(buffer)
        + ((if old(elementJustOpened) then "/>"
            else EndTagText(old(stack[|stack| - 1]), depth, old(textDepth), compact))
           + LineEnd(depth, compact))
    {
      hide EndTagText;
      ghost var before := buffer;
      depth := depth - 1;
      var name := stack[|stack| - 1];
      stack := stack[..|stack| - 1];
      if elementJustOpened {
        Write("/>");
      } else {
        WriteEndTag(name);
      }
      ghost var end := if elementJustOpened then "/>" else EndTagText(name, depth, textDepth, compact);
      if textDepth == depth {
        textDepth := -1;
      }
      if depth == 0 && !compact {
        Write("\n");
      }
      Regroup(before, end, LineEnd(depth, compact), "");
      Regroup(before + end, "", "", "");
      elementJustOpened := false;
    }

    method PushText(text: string)
      modifies this
      ensures !elementJustOpened && firstElement == old(firstElement)
      ensures depth == old(depth) && stack == old(stack) && textDepth == depth - 1
      ensures buffer == old(buffer) + (old(Seal()) + Escape(text, true))
    {
      hide Escape;
      textDepth := depth - 1;
      ghost var before, seal := buffer, Seal();
      SealElementIfJustOpened();
      PrintString(text, true);
      Regroup(before, seal, Escape(text, true), "");
    }

    /** VisitEnter of an element. */
    method EnterElement(name: string, attributes: seq<Attribute>)
      modifies this
      ensures elementJustOpened && firstElement == (old(firstElement) && compact)
      ensures depth == old(depth) + 1 && textDepth == old(textDepth) && stack == old(stack) + [name]
      ensures buffer == old(buffer)
        + (old(Seal()) + Margin(old(depth), textDepth, old(firstElement), compact) + ("<" + name))
        + AttributesText(attributes)
    {
      hide Margin, AttributeText;
      OpenElement(name);
      var k := 0;
      ghost var tag := buffer;
      assert attributes[0..] == attributes;
      while k < |attributes|
        invariant k <= |attributes|
        invariant tag + AttributesText(attributes) == buffer + AttributesText(attributes[k..])
        modifies this`buffer
      {
        ghost var before := buffer;
        assert attributes[k..][1..] == attributes[k + 1..];
        PushAttribute(attributes[k]);
        Regroup(before, AttributeText(attributes[k]), AttributesText(attributes[k + 1..]), "");
        k := k + 1;
      }
      Regroup(buffer, "", "", "");
    }

    /** The visits of one node and everything below it. */
    method PrintNode(n: Node)
      modifies this
      ensures depth == old(depth) && stack == old(stack) && !elementJustOpened
      ensures firstElement == FirstAfter(n, old(firstElement), compact)
      ensures var p := NodeText(n, depth, old(textDepth), old(firstElement), compact);
        textDepth == p.textDepth && buffer == old(buffer) + (old(Seal()) + p.text)
      decreases n, 0
    {
      match n
      case Text(value) =>
        PushText(value);
      case Element(name, attributes, children) =>
        PrintElement(name, attributes, children);
    }

    method PrintElement(name: string, attributes: seq<Attribute>, children: seq<Node>)
      modifies this
      ensures depth == old(depth) && stack == old(stack) && !elementJustOpened
      ensures firstElement == FirstAfter(Element(name, attributes, children), old(firstElement), compact)
      ensures var p := NodeText(Element(name, attributes, children), depth, old(textDepth), old(firstElement), compact);
        textDepth == p.textDepth && buffer == old(buffer) + (old(Seal()) + p.text)
      decreases children, 2
    {
      hide Margin, AttributesText, EndTagText, LineEnd, NodesText, NodeText, Seal;
      ghost var before, seal, first, above := buffer, Seal(), firstElement, textDepth;
      EnterElement(name, attributes);
      SealOf();
      ghost var tag := buffer;
      PrintNodes(children);
      ghost var inner := buffer;
      CloseElement();
      ElementComposed(name, attributes, children, depth, above, first, compact, before, seal, tag, inner);
    }

    /** The text of an element, put together from what was written for its parts. */
    lemma ElementComposed(name: string, attributes: seq<Attribute>, children: seq<Node>, depth: nat, above: int,
            first: bool, compact: bool, before: string, seal: string, tag: string, inner: string)
      requires tag == before + (seal + Margin(depth, above, first, compact) + ("<" + name)) + AttributesText(attributes)
      requires var below := NodesText(children, depth + 1, above, first && compact, compact);
        inner == tag + ((if children == [] then "" else ">") + below.text)
      ensures var below := NodesText(children, depth + 1, above, first && compact, compact);
        var end := if children == [] then "/>" else EndTagText(name, depth, below.textDepth, compact);
        var p := NodeText(Element(name, attributes, children), depth, above, first, compact);
        && inner + (end + LineEnd(depth, compact)) == before + (seal + p.text)
        && p.textDepth == DepthAfter(below.textDepth, depth)
    {
      hide Margin, AttributesText, EndTagText, LineEnd, NodesText;
      NoNodes(depth + 1, above, first && compact, compact);
      var below := NodesText(children, depth + 1, above, first && compact, compact);
      var body := BodyText(name, children, depth, above, first, compact);
      var end := if children == [] then "/>" else EndTagText(name, depth, below.textDepth, compact);
      assert inner + end == tag + body.text by {
        Regroup(tag, ">", below.text, end);
        Regroup(tag, "", "", "");
      }
      Regroup(inner, end, LineEnd(depth, compact), "");
      Together(before, seal, Margin(depth, above, first, compact), name, AttributesText(attributes), body.text,
               LineEnd(depth, compact));
    }

    lemma Together(before: string, seal: string, margin: string, name: string, attributes: string, body: string,
            end: string)
      ensures before + (seal + margin + ("<" + name)) + attributes + body + end
           == before + (seal + (margin + ("<" + (name + (attributes + (body + end))))))
    {
    }

    method PrintNodes(ns: seq<Node>)
      modifies this
      ensures depth == old(depth) && stack == old(stack)
      ensures elementJustOpened == (ns == [] && old(elementJustOpened))
      ensures firstElement == FirstAfterAll(ns, old(firstElement), compact)
      ensures var p := NodesText(ns, depth, old(textDepth), old(firstElement), compact);
        textDepth == p.textDepth && buffer == old(buffer) + ((if ns == [] then "" else old(Seal())) + p.text)
      decreases ns, 1
    {
      hide NodeText, NodesText, FirstAfterAll, FirstAfter, Seal, Pending;
      NoNodes(depth, textDepth, firstElement, compact);
      NoFirstYet(ns, 0, firstElement, compact);
      if ns == [] {
        Regroup(buffer, "", "", "");
        return;
      }
      ghost var whole := NodesText(ns, depth, textDepth, firstElement, compact);
      ghost var total := buffer + Seal() + whole.text;
      var k := 0;
      PendingStarts(ns, depth, textDepth, firstElement, compact, buffer + Seal());
      while k < |ns|
        invariant k <= |ns| && depth == old(depth) && stack == old(stack)
        invariant k > 0 ==> !elementJustOpened
        invariant firstElement == FirstAfterAll(ns[..k], old(firstElement), compact)
        invariant Pending(ns, k, depth, textDepth, firstElement, compact, buffer + Seal(), total, whole.textDepth)
      {
        ghost var before, sealed := buffer, Seal();
        ghost var head := NodeText(ns[k], depth, textDepth, firstElement, compact);
        NoFirstYet(ns, k, old(firstElement), compact);
        PendingStep(ns, k, depth, textDepth, firstElement, compact, before + sealed, total, whole.textDepth);
        PrintNode(ns[k]);
        SealOf();
        Regroup(before, sealed, head.text, "");
        Regroup(buffer, "", "", "");
        k := k + 1;
      }
      assert ns[..k] == ns;
      PendingEnds(ns, depth, textDepth, firstElement, compact, buffer + Seal(), total, whole.textDepth);
      SealOf();
      Regroup(buffer, "", "", "");
      Regroup(old(buffer), old(Seal()), whole.text, "");
    }

    /** The nodes from the k-th on complete what has been written to the total. */
    ghost predicate Pending(ns: seq<Node>, k: nat, depth: nat, textDepth: int, first: bool, compact: bool,
            written: string, total: string, depthAfter: int)
      requires k <= |ns|
    {
      var rest := NodesText(ns[k..], depth, textDepth, first, compact);
      written + rest.text == total && rest.textDepth == depthAfter
    }

    lemma PendingStarts(ns: seq<Node>, depth: nat, textDepth: int, first: bool, compact: bool, written: string)
      ensures var whole := NodesText(ns, depth, textDepth, first, compact);
        Pending(ns, 0, depth, textDepth, first, compact, written, written + whole.text, whole.textDepth)
    {
      hide NodesText;
      assert ns[0..] == ns;
    }

    lemma PendingStep(ns: seq<Node>, k: nat, depth: nat, textDepth: int, first: bool, compact: bool,
            written: string, total: string, depthAfter: int)
      requires k < |ns| && Pending(ns, k, depth, textDepth, first, compact, written, total, depthAfter)
      ensures var head := NodeText(ns[k], depth, textDepth, first, compact);
        Pending(ns, k + 1, depth, head.textDepth, FirstAfter(ns[k], first, compact), compact, written + head.text,
                total, depthAfter)
    {
      hide NodesText, NodeText, FirstAfter;
      NodesBetween(ns, k, depth, textDepth, first, compact);
      var head := NodeText(ns[k], depth, textDepth, first, compact);
      var tail := NodesText(ns[k + 1..], depth, head.textDepth, FirstAfter(ns[k], first, compact), compact);
      Regroup(written, head.text, tail.text, "");
    }

    lemma PendingEnds(ns: seq<Node>, depth: nat, textDepth: int, first: bool, compact: bool,
            written: string, total: string, depthAfter: int)
      requires Pending(ns, |ns|, depth, textDepth, first, compact, written, total, depthAfter)
      ensures written == total && textDepth == depthAfter
    {
      hide NodesText;
      NodesBetween(ns, |ns|, depth, textDepth, first, compact);
      Regroup(written, "", "", "");
    }

    lemma SealOf()
      ensures Seal() == if elementJustOpened then ">" else ""
    {
    }

    lemma NoFirstYet(ns: seq<Node>, k: nat, first: bool, compact: bool)
      requires k <= |ns|
      ensures FirstAfterAll([], first, compact) == first
      ensures k < |ns| ==>
        FirstAfterAll(ns[..k + 1], first, compact) == FirstAfter(ns[k], FirstAfterAll(ns[..k], first, compact), compact)
    {
      if k < |ns| {
        assert ns[..k + 1] == ns[..k] + [ns[k]];
      }
    }

    lemma NodesBetween(ns: seq<Node>, k: nat, depth: nat, textDepth: int, first: bool, compact: bool)
      requires k <= |ns|
      ensures if k == |ns| then NodesText(ns[k..], depth, textDepth, first, compact) == Printed("", textDepth)
        else
          var head := NodeText(ns[k], depth, textDepth, first, compact);
          var tail := NodesText(ns[k + 1..], depth, head.textDepth, FirstAfter(ns[k], first, compact), compact);
          NodesText(ns[k..], depth, textDepth, first, compact) == Printed(head.text + tail.text, tail.textDepth)
    {
      if k < |ns| {
        assert ns[k..][0] == ns[k] && ns[k..][1..] == ns[k + 1..];
      }
    }

    /** XMLDocument::Print on a fresh printer. */
    method PrintAll(ns: seq<Node>)
      requires !elementJustOpened && firstElement && depth == 0 && textDepth == -1 && buffer == ""
      modifies this
      ensures buffer == PrintDocument(ns, compact)
    {
      PrintNodes(ns);
    }
  }
}
