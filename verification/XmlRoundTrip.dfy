/** Parsing what the printer wrote gives the document back, in both of the printer's modes. */
module XmlRoundTrip {
  import opened XmlText
  import opened XmlParser
  import opened XmlPrinter

  predicate ValidName(name: string) {
    name != "" && IsNameStartChar(name[0]) && forall k :: 0 <= k < |name| ==> IsNameChar(name[k])
  }

  predicate ValidAttributes(attributes: seq<Attribute>) {
    && (forall k :: 0 <= k < |attributes| ==> ValidName(attributes[k].name) && Clean(attributes[k].value))
    && (forall k, m :: 0 <= k < m < |attributes| ==> attributes[k].name != attributes[m].name)
  }

  /** Text that is only white space is dropped by the parser. */
  predicate Blank(s: string) {
    forall k :: 0 <= k < |s| ==> IsWhiteSpace(s[k])
  }

  predicate ValidNode(n: Node) {
    match n
    case Text(value) => Clean(value) && !Blank(value)
    case Element(name, attributes, children) =>
      ValidName(name) && ValidAttributes(attributes) && ValidNodes(children)
  }

  /** Neighbouring texts would be read as one. */
  predicate ValidNodes(ns: seq<Node>) {
    ns != [] ==>
      && ValidNode(ns[0]) && ValidNodes(ns[1..])
      && (|ns| > 1 && ns[0].Text? ==> ns[1].Element?)
  }

  /** How many levels of nesting the parser goes through below the current one. */
  function Height(ns: seq<Node>): nat {
    if ns == [] then 0
    else
      var rest := Height(ns[1..]);
      var here := if ns[0].Element? && ns[0].children != [] then 1 + Height(ns[0].children) else 0;
      if here > rest then here else rest
  }

  // ---------------------------------------------------------------- positions

  lemma HasConcat(src: string, i: nat, a: string, b: string)
    ensures HasAt(src, i, a + b) <==> HasAt(src, i, a) && HasAt(src, i + |a|, b)
  {
    if HasAt(src, i, a + b) {
      assert src[i..i + |a|] == src[i..i + |a + b|][..|a|];
      assert src[i + |a|..i + |a| + |b|] == src[i..i + |a + b|][|a|..];
    }
    if HasAt(src, i, a) && HasAt(src, i + |a|, b) {
      assert src[i..i + |a + b|] == src[i..i + |a|] + src[i + |a|..i + |a + b|];
    }
  }

  lemma HasChars(src: string, i: nat, a: string)
    requires HasAt(src, i, a)
    ensures forall k :: i <= k < i + |a| ==> src[k] == a[k - i]
  {
    forall k | i <= k < i + |a| ensures src[k] == a[k - i] {
      HasChar(src, i, a, k - i);
    }
  }

  lemma {:induction false} SkipWhiteTo(src: string, i: nat, j: nat)
    requires i <= j <= |src| && forall k :: i <= k < j ==> IsWhiteSpace(src[k])
    requires j == |src| || !IsWhiteSpace(src[j])
    ensures SkipWhite(src, i) == j
    decreases j - i
  {
    if i < j {
      SkipWhiteTo(src, i + 1, j);
    }
  }

  lemma {:induction false} NameEndsAt(src: string, i: nat, j: nat)
    requires i <= j <= |src| && forall k :: i <= k < j ==> IsNameChar(src[k])
    requires j == |src| || !IsNameChar(src[j])
    ensures NameEnd(src, i) == j
    decreases j - i
  {
    if i < j {
      NameEndsAt(src, i + 1, j);
    }
  }

  lemma {:induction false} FindsAt(src: string, i: nat, j: nat, c: char)
    requires i <= j < |src| && src[j] == c && forall k :: i <= k < j ==> src[k] != c
    ensures FindChar(src, i, c) == Some(j)
    decreases j - i
  {
    if i < j {
      FindsAt(src, i + 1, j, c);
    }
  }

  lemma ParsesName(src: string, i: nat, name: string)
    requires ValidName(name) && HasAt(src, i, name)
    requires i + |name| < |src| && !IsNameChar(src[i + |name|])
    ensures ParseName(src, i) == Some(i + |name|) && src[i..i + |name|] == name
    ensures src[i] == name[0] && !IsWhiteSpace(src[i])
  {
    HasChars(src, i, name);
    NameEndsAt(src, i + 1, i + |name|);
  }

  // ---------------------------------------------------------------- attributes

  lemma AttributeParts(src: string, i: nat, a: Attribute)
    requires HasAt(src, i, AttributeText(a))
    ensures var raw, n := Escape(a.value, false), i + 1 + |a.name|;
      && i + |AttributeText(a)| == n + 3 + |raw| <= |src|
      && src[i] == ' ' && HasAt(src, i + 1, a.name) && src[n] == '=' && src[n + 1] == '\"'
      && HasAt(src, n + 2, raw) && src[n + 2 + |raw|] == '\"'
  {
    hide HasAt, Escape;
    var raw, n := Escape(a.value, false), i + 1 + |a.name|;
    HasConcat(src, i, " ", a.name + ("=\"" + (raw + "\"")));
    HasConcat(src, i + 1, a.name, "=\"" + (raw + "\""));
    HasConcat(src, n, "=\"", raw + "\"");
    HasConcat(src, n + 2, raw, "\"");
    HasChar(src, i, " ", 0);
    HasChar(src, n, "=\"", 0);
    HasChar(src, n, "=\"", 1);
    HasChar(src, n + 2 + |raw|, "\"", 0);
  }

  lemma ValueReads(src: string, i: nat, value: string)
    requires Clean(value)
    requires HasAt(src, i, Escape(value, false)) && i + |Escape(value, false)| < |src|
    requires src[i + |Escape(value, false)|] == '\"'
    ensures FindChar(src, i, '\"') == Some(i + |Escape(value, false)|)
    ensures Decode(src[i..i + |Escape(value, false)|], 0, "") == value
  {
    hide FindChar, Decode, Escape, Clean;
    var raw := Escape(value, false);
    EscapeHasNo(value, false, '\"');
    HasChars(src, i, raw);
    FindsAt(src, i, i + |raw|, '\"');
    assert raw[0..] == raw;
    DecodeEscape(raw, 0, "", value, false);
    assert "" + value == value;
  }

  lemma ParsesAttribute(src: Buffer, i: nat, a: Attribute)
    requires ValidName(a.name) && Clean(a.value) && HasAt(src, i, AttributeText(a))
    ensures SkipWhite(src, i) == i + 1 && i + |AttributeText(a)| <= |src| && IsNameStartChar(src[i + 1])
    ensures ParseAttribute(src, i + 1) == Some(ParsedAttribute(a, i + |AttributeText(a)|))
  {
    hide SkipWhite, FindChar, Decode, Escape, IsNameStartChar, IsWhiteSpace;
    hide IsNameChar, ValidName, ParseName, AttributeText, HasAt, Clean;
    var n := i + 1 + |a.name|;
    AttributeParts(src, i, a);
    Separators();
    ParsesName(src, i + 1, a.name);
    NameStarts(a.name);
    SkipWhiteTo(src, i, i + 1);
    SkipWhiteTo(src, n, n);
    SkipWhiteTo(src, n + 1, n + 1);
    ValueReads(src, n + 2, a.value);
  }

  lemma Separators()
    ensures IsWhiteSpace(' ') && IsWhiteSpace('\n')
    ensures forall c :: c in {'=', '\"', '<', '/', '>'} ==> !IsWhiteSpace(c) && !IsNameChar(c) && !IsNameStartChar(c)
    ensures !IsNameChar(' ')
  {
  }

  lemma NameStarts(name: string)
    requires ValidName(name)
    ensures name != "" && IsNameStartChar(name[0])
  {
  }

  lemma {:induction false} ParsesAttributes(src: Buffer, i: nat, attributes: seq<Attribute>, acc: seq<Attribute>,
          isSealed: bool)
    requires ValidAttributes(acc + attributes)
    requires HasAt(src, i, AttributesText(attributes))
    requires HasAt(src, i + |AttributesText(attributes)|, if isSealed then "/>" else ">")
    ensures ParseAttributes(src, i, acc)
         == Ok(Tail(acc + attributes, isSealed, i + |AttributesText(attributes)| + if isSealed then 2 else 1))
    decreases |attributes|
  {
    hide ParseAttributes, AttributeText, ParseAttribute, ValidAttributes, ValidName, Clean;
    if attributes == [] {
      AttributesEnd(src, i, acc, isSealed);
      assert acc + attributes == acc;
    } else {
      var a := attributes[0];
      HasConcat(src, i, AttributeText(a), AttributesText(attributes[1..]));
      NewAttribute(acc, attributes);
      AttributeStep(src, i, a, acc);
      assert acc + [a] + attributes[1..] == acc + attributes;
      ParsesAttributes(src, i + |AttributeText(a)|, attributes[1..], acc + [a], isSealed);
    }
  }

  lemma AttributesEnd(src: Buffer, i: nat, acc: seq<Attribute>, isSealed: bool)
    requires HasAt(src, i, if isSealed then "/>" else ">")
    ensures ParseAttributes(src, i, acc) == Ok(Tail(acc, isSealed, i + if isSealed then 2 else 1))
  {
    hide SkipWhite, ParseAttribute, IsNameStartChar, IsWhiteSpace, IsNameChar;
    Separators();
    SealRead(src, i, isSealed);
    SkipWhiteTo(src, i, i);
  }

  lemma AttributeStep(src: Buffer, i: nat, a: Attribute, acc: seq<Attribute>)
    requires ValidName(a.name) && Clean(a.value) && !HasAttribute(acc, a.name) && HasAt(src, i, AttributeText(a))
    ensures i + |AttributeText(a)| <= |src|
    ensures ParseAttributes(src, i, acc) == ParseAttributes(src, i + |AttributeText(a)|, acc + [a])
  {
    hide SkipWhite, AttributeText, ParseAttribute, IsNameStartChar, IsWhiteSpace;
    hide IsNameChar, ValidName, Clean, HasAt, HasAttribute;
    ParsesAttribute(src, i, a);
  }

  lemma NewAttribute(acc: seq<Attribute>, attributes: seq<Attribute>)
    requires attributes != [] && ValidAttributes(acc + attributes)
    ensures ValidName(attributes[0].name) && Clean(attributes[0].value)
    ensures !HasAttribute(acc, attributes[0].name)
  {
    var a := attributes[0];
    assert (acc + attributes)[|acc|] == a;
    forall k | 0 <= k < |acc| ensures acc[k].name != a.name {
      assert (acc + attributes)[k] == acc[k];
    }
  }

  lemma SealRead(src: string, i: nat, isSealed: bool)
    requires HasAt(src, i, if isSealed then "/>" else ">")
    ensures i < |src| && src[i] == if isSealed then '/' else '>'
    ensures isSealed ==> i + 1 < |src| && src[i + 1] == '>'
  {
    HasChars(src, i, if isSealed then "/>" else ">");
  }

  lemma {:induction false} AttributesStart(attributes: seq<Attribute>)
    ensures attributes != [] ==> AttributesText(attributes) != "" && AttributesText(attributes)[0] == ' '
  {
  }

  // ---------------------------------------------------------------- tags

  function TagText(name: string, attributes: seq<Attribute>, isSealed: bool): string {
    name + (AttributesText(attributes) + if isSealed then "/>" else ">")
  }

  lemma ParsesTag(src: Buffer, i: nat, name: string, attributes: seq<Attribute>, isSealed: bool)
    requires ValidName(name) && ValidAttributes(attributes) && HasAt(src, i, TagText(name, attributes, isSealed))
    ensures ParseHead(src, i)
         == Ok(Head(name, attributes, if isSealed then Closed else Open, i + |TagText(name, attributes, isSealed)|))
    ensures i < |src| && src[i] != '?' && src[i] != '!'
  {
    hide SkipWhite, ParseName, ParseAttributes, IsNameStartChar, IsWhiteSpace, IsNameChar, ValidName, ValidAttributes;
    var ending := if isSealed then "/>" else ">";
    NameFollowed(src, i, name, attributes, isSealed);
    ParsesName(src, i, name);
    SkipWhiteTo(src, i, i);
    NameStarts(name);
    NotTagMarks(src[i]);
    assert [] + attributes == attributes;
    ParsesAttributes(src, i + |name|, attributes, [], isSealed);
  }

  lemma NotTagMarks(c: char)
    requires IsNameStartChar(c)
    ensures c != '?' && c != '!' && c != '/'
  {
  }

  lemma NameFollowed(src: string, i: nat, name: string, attributes: seq<Attribute>, isSealed: bool)
    requires HasAt(src, i, TagText(name, attributes, isSealed))
    ensures HasAt(src, i, name) && HasAt(src, i + |name|, AttributesText(attributes))
    ensures HasAt(src, i + |name| + |AttributesText(attributes)|, if isSealed then "/>" else ">")
    ensures i + |name| < |src| && !IsNameChar(src[i + |name|])
  {
    hide HasAt, IsNameChar, AttributesText;
    var ending := if isSealed then "/>" else ">";
    HasConcat(src, i, name, AttributesText(attributes) + ending);
    HasConcat(src, i + |name|, AttributesText(attributes), ending);
    Separators();
    AttributesStart(attributes);
    if attributes == [] {
      NoAttributes();
      HasChar(src, i + |name|, ending, 0);
    } else {
      HasChar(src, i + |name|, AttributesText(attributes), 0);
    }
  }

  lemma NoAttributes()
    ensures AttributesText([]) == ""
  {
  }

  /** The white space between nodes: none, a line end, or a line end and an indent. */
  lemma {:induction false} IndentIsWhite(depth: nat)
    ensures forall k :: 0 <= k < |Indent(depth)| ==> IsWhiteSpace(Indent(depth)[k])
  {
    if depth > 0 {
      IndentIsWhite(depth - 1);
    }
  }

  /** The parser skips white space in front of a tag. */
  lemma ReachesTag(src: Buffer, i: nat, white: string)
    requires HasAt(src, i, white + "<") && forall k :: 0 <= k < |white| ==> IsWhiteSpace(white[k])
    ensures SkipWhite(src, i) == i + |white| < |src| && src[i + |white|] == '<'
  {
    hide SkipWhite, IsWhiteSpace;
    HasConcat(src, i, white, "<");
    HasChars(src, i, white);
    HasChar(src, i + |white|, "<", 0);
    Separators();
    SkipWhiteTo(src, i, i + |white|);
  }

  /** The head of an end tag, from behind its '<'. */
  lemma ParsesEndHead(src: Buffer, i: nat, name: string)
    requires ValidName(name) && HasAt(src, i, "/" + (name + ">"))
    ensures ParseHead(src, i) == Ok(Head(name, [], Closing, i + |name| + 2))
  {
    hide SkipWhite, IsWhiteSpace, ParseName, ParseAttributes, ValidName, IsNameChar, IsNameStartChar, HasAt;
    HasConcat(src, i, "/", name + ">");
    HasChar(src, i, "/", 0);
    Separators();
    SkipWhiteTo(src, i, i);
    NoAttributes();
    assert name + ">" == TagText(name, [], false);
    NameFollowed(src, i + 1, name, [], false);
    ParsesName(src, i + 1, name);
    ParsesAttributes(src, i + 1 + |name|, [], [], false);
  }

  lemma ParsesEndTag(src: Buffer, i: nat, white: string, name: string, depth: nat, nodes: seq<Node>)
    requires ValidName(name) && forall k :: 0 <= k < |white| ==> IsWhiteSpace(white[k])
    requires HasAt(src, i, white + ("</" + (name + ">")))
    ensures ParseLevel(src, i, depth, nodes) == Ok(Level(nodes, Some(EndTag(name, i + |white| + |name| + 3))))
  {
    hide SkipWhite, IsWhiteSpace, ParseHead, ParseLevel, ValidName, HasAt;
    var j := i + |white|;
    HasConcat(src, i, white, "</" + (name + ">"));
    assert "</" + (name + ">") == "<" + ("/" + (name + ">"));
    HasConcat(src, j, "<", "/" + (name + ">"));
    HasConcat(src, j + 1, "/", name + ">");
    HasChar(src, j + 1, "/", 0);
    HasConcat(src, i, white, "<");
    ReachesTag(src, i, white);
    ParsesEndHead(src, j + 1, name);
    EndTagStep(src, i, j, depth, nodes);
  }

  lemma EndTagStep(src: Buffer, i: nat, j: nat, depth: nat, nodes: seq<Node>)
    requires i <= |src| && j == SkipWhite(src, i) < |src| && src[j] == '<'
    requires CharAt(src, j + 1) != '?' && CharAt(src, j + 1) != '!'
    requires ParseHead(src, j + 1).Ok? && ParseHead(src, j + 1).value.closing == Closing
    ensures var h := ParseHead(src, j + 1).value;
      ParseLevel(src, i, depth, nodes) == Ok(Level(nodes, Some(EndTag(h.name, h.next))))
  {
    hide SkipWhite, ParseHead, ParseNodes, FindChar, Decode;
  }

  // ---------------------------------------------------------------- nodes

  lemma {:induction false} EscapeShows(s: string, k: nat) returns (m: nat)
    requires k < |s| && !IsWhiteSpace(s[k])
    ensures m < |Escape(s, true)| && !IsWhiteSpace(Escape(s, true)[m])
    decreases k
  {
    if k == 0 {
      m := 0;
    } else {
      var m' := EscapeShows(s[1..], k - 1);
      m := |EscapeChar(s[0], true)| + m';
    }
  }

  lemma ParsesText(src: Buffer, i: nat, value: string, pd: nat, acc: seq<Node>)
    requires Clean(value) && !Blank(value) && HasAt(src, i, Escape(value, true))
    requires var end := i + |Escape(value, true)|; end + 1 < |src| && src[end] == '<'
    ensures ParseLevel(src, i, pd, acc) == ParseLevel(src, i + |Escape(value, true)|, pd, acc + [Text(value)])
  {
    hide SkipWhite, FindChar, Decode, Escape, IsWhiteSpace, Clean, ParseLevel;
    var raw := Escape(value, true);
    var k :| 0 <= k < |value| && !IsWhiteSpace(value[k]);
    var m := EscapeShows(value, k);
    EscapeHasNo(value, true, '<');
    HasChars(src, i, raw);
    assert !IsWhiteSpace(src[i + m]);
    var j := SkipWhite(src, i);
    assert j <= i + m && src[j] == raw[j - i];
    FindsAt(src, i, i + |raw|, '<');
    assert src[i..i + |raw|] == raw && raw[0..] == raw;
    DecodeEscape(raw, 0, "", value, true);
    assert "" + value == value;
    TextStep(src, i, i + |raw|, pd, acc);
  }

  lemma TextStep(src: Buffer, i: nat, end: nat, pd: nat, acc: seq<Node>)
    requires i <= |src| && SkipWhite(src, i) < |src| && src[SkipWhite(src, i)] != '<'
    requires FindChar(src, i, '<') == Some(end) && i <= end && end + 1 < |src|
    ensures ParseLevel(src, i, pd, acc) == ParseLevel(src, end, pd, acc + [Text(Decode(src[i..end], 0, ""))])
  {
    hide SkipWhite, FindChar, Decode, ParseTag;
  }

  /** White space, then a tag or the end of the text. */
  predicate EndsOrTag(src: string, i: nat)
    requires i <= |src|
  {
    var j := SkipWhite(src, i); j == |src| || src[j] == '<'
  }

  lemma SkipsLineEnd(src: Buffer, i: nat, white: string, pd: nat, acc: seq<Node>)
    requires HasAt(src, i, white) && (white == "" || white == "\n")
    requires white != "" ==> EndsOrTag(src, i + |white|)
    ensures ParseLevel(src, i, pd, acc) == ParseLevel(src, i + |white|, pd, acc)
  {
    hide FindChar, Decode, ParseHead, ParseNodes;
    if white != "" {
      HasChar(src, i, white, 0);
    }
  }

  lemma MarginIsWhite(depth: nat, textDepth: int, first: bool, compact: bool)
    ensures var m := Margin(depth, textDepth, first, compact); forall k :: 0 <= k < |m| ==> IsWhiteSpace(m[k])
  {
    IndentIsWhite(depth);
  }

  /** An element's text from its opening bracket on. */
  function TagAndBody(n: Node, depth: nat, textDepth: int, first: bool, compact: bool): string
    requires n.Element?
  {
    n.name + (AttributesText(n.attributes) + BodyText(n.name, n.children, depth, textDepth, first, compact).text)
  }

  lemma ElementParts(src: string, i: nat, n: Node, depth: nat, textDepth: int, first: bool, compact: bool)
    requires n.Element? && HasAt(src, i, NodeText(n, depth, textDepth, first, compact).text)
    ensures var m := Margin(depth, textDepth, first, compact);
            var body := TagAndBody(n, depth, textDepth, first, compact);
            var j := i + |m|;
      && HasAt(src, i, m + "<") && HasAt(src, j + 1, body) && HasAt(src, j + 1 + |body|, LineEnd(depth, compact))
      && i + |NodeText(n, depth, textDepth, first, compact).text| == j + 1 + |body| + |LineEnd(depth, compact)|
  {
    hide HasAt, Margin, BodyText, AttributesText, LineEnd;
    var m := Margin(depth, textDepth, first, compact);
    var attributes := AttributesText(n.attributes);
    var body := BodyText(n.name, n.children, depth, textDepth, first, compact).text;
    var end := LineEnd(depth, compact);
    HasConcat(src, i, m, "<" + (n.name + (attributes + (body + end))));
    HasConcat(src, i + |m|, "<", n.name + (attributes + (body + end)));
    HasConcat(src, i, m, "<");
    assert n.name + (attributes + (body + end)) == n.name + (attributes + body) + end;
    HasConcat(src, i + |m| + 1, n.name + (attributes + body), end);
  }

  lemma ParsesSealed(src: Buffer, i: nat, n: Node, depth: nat, textDepth: int, first: bool, compact: bool, pd: nat,
          acc: seq<Node>)
    requires n.Element? && ValidNode(n) && n.children == []
    requires HasAt(src, i, TagAndBody(n, depth, textDepth, first, compact))
    ensures i < |src| && src[i] != '?' && src[i] != '!'
    ensures ParseHead(src, i)
      == Ok(Head(n.name, n.attributes, Closed, i + |TagAndBody(n, depth, textDepth, first, compact)|))
  {
    hide ParseHead, ParseLevel, HasAt, AttributesText, ValidName, ValidAttributes;
    assert TagAndBody(n, depth, textDepth, first, compact) == TagText(n.name, n.attributes, true);
    ParsesTag(src, i, n.name, n.attributes, true);
  }

  ghost predicate LastIsText(ns: seq<Node>) {
    ns != [] && ns[|ns| - 1].Text?
  }

  /** What the parser needs to know of the place of some nodes: they are written at i, texts are
      only found inside elements, and a text is followed by a tag at once. */
  ghost predicate Written(src: string, i: nat, ns: seq<Node>, depth: nat, textDepth: int, first: bool, compact: bool) {
    var text := NodesText(ns, depth, textDepth, first, compact).text;
    var end := i + |text|;
    && ValidNodes(ns)
    && HasAt(src, i, text)
    && (first ==> compact || depth == 0)
    && (depth == 0 ==> EndsOrTag(src, end) && forall k :: 0 <= k < |ns| ==> ns[k].Element?)
    && (LastIsText(ns) ==> end + 1 < |src| && src[end] == '<')
  }

  /** The parser's loop reads the nodes that are written at i. */
  lemma {:induction false} ParsesNodes(src: Buffer, i: nat, ns: seq<Node>, depth: nat, textDepth: int, first: bool,
          compact: bool, pd: nat, acc: seq<Node>)
    requires Written(src, i, ns, depth, textDepth, first, compact) && pd + Height(ns) < MAX_ELEMENT_DEPTH
    ensures var end := i + |NodesText(ns, depth, textDepth, first, compact).text|;
      ParseLevel(src, i, pd, acc) == ParseLevel(src, end, pd, acc + ns)
    decreases ns, 1
  {
    hide ParseLevel, HasAt, NodeText, ValidNode, EndsOrTag;
    if ns == [] {
      assert acc + ns == acc;
    } else {
      var head := NodeText(ns[0], depth, textDepth, first, compact);
      var first' := FirstAfter(ns[0], first, compact);
      var tail := NodesText(ns[1..], depth, head.textDepth, first', compact);
      HasConcat(src, i, head.text, tail.text);
      var j := i + |head.text|;
      TailWritten(src, i, ns, depth, textDepth, first, compact);
      HeightOfAll(ns);
      if ns[0].Text? {
        ParsesTextNode(src, i, ns[0], depth, textDepth, first, compact, pd, acc);
      } else {
        ParsesElement(src, i, ns[0], depth, textDepth, first, compact, pd, acc);
      }
      ParsesNodes(src, j, ns[1..], depth, head.textDepth, first', compact, pd, acc + [ns[0]]);
      assert acc + [ns[0]] + ns[1..] == acc + ns;
    }
  }

  lemma ParsesTextNode(src: Buffer, i: nat, n: Node, depth: nat, textDepth: int, first: bool, compact: bool, pd: nat,
          acc: seq<Node>)
    requires n.Text? && ValidNode(n) && HasAt(src, i, NodeText(n, depth, textDepth, first, compact).text)
    requires var end := i + |NodeText(n, depth, textDepth, first, compact).text|; end + 1 < |src| && src[end] == '<'
    ensures var end := i + |NodeText(n, depth, textDepth, first, compact).text|;
      ParseLevel(src, i, pd, acc) == ParseLevel(src, end, pd, acc + [n])
  {
    hide ParseLevel, HasAt;
    ParsesText(src, i, n.value, pd, acc);
  }

  /** What follows the first of some nodes is placed as it should be. */
  lemma TailWritten(src: Buffer, i: nat, ns: seq<Node>, depth: nat, textDepth: int, first: bool, compact: bool)
    requires ns != [] && Written(src, i, ns, depth, textDepth, first, compact)
    ensures var head := NodeText(ns[0], depth, textDepth, first, compact);
            var j := i + |head.text|;
      && HasAt(src, i, head.text)
      && Written(src, j, ns[1..], depth, head.textDepth, FirstAfter(ns[0], first, compact), compact)
      && (depth == 0 ==> EndsOrTag(src, j))
      && (ns[0].Text? ==> j + 1 < |src| && src[j] == '<')
  {
    hide HasAt, NodeText, ValidNode, SkipWhite, EndsOrTag;
    var head := NodeText(ns[0], depth, textDepth, first, compact);
    var first' := FirstAfter(ns[0], first, compact);
    var rest := ns[1..];
    var tail := NodesText(rest, depth, head.textDepth, first', compact);
    HasConcat(src, i, head.text, tail.text);
    var j := i + |head.text|;
    assert LastIsText(rest) ==> LastIsText(ns);
    assert rest == [] && ns[0].Text? ==> LastIsText(ns);
    if rest != [] && rest[0].Element? {
      var next := NodeText(rest[0], depth, head.textDepth, first', compact);
      var after := NodesText(rest[1..], depth, next.textDepth, FirstAfter(rest[0], first', compact), compact);
      HasConcat(src, j, next.text, after.text);
      StartsWithTag(src, j, rest[0], depth, head.textDepth, first', compact);
      TextDepthOf(ns[0], depth, textDepth, first, compact);
    }
  }

  lemma TextDepthOf(n: Node, depth: nat, textDepth: int, first: bool, compact: bool)
    ensures n.Text? ==> NodeText(n, depth, textDepth, first, compact).textDepth == depth - 1
  {
  }

  lemma StartsWithTag(src: Buffer, i: nat, n: Node, depth: nat, textDepth: int, first: bool, compact: bool)
    requires n.Element? && HasAt(src, i, NodeText(n, depth, textDepth, first, compact).text)
    ensures EndsOrTag(src, i)
    ensures textDepth >= 0 && (first ==> compact) ==> i + 1 < |src| && src[i] == '<'
  {
    hide HasAt, NodeText, SkipWhite, TagAndBody;
    ElementParts(src, i, n, depth, textDepth, first, compact);
    MarginIsWhite(depth, textDepth, first, compact);
    ReachesTag(src, i, Margin(depth, textDepth, first, compact));
    BodyNonempty(src, i + |Margin(depth, textDepth, first, compact)| + 1, n, depth, textDepth, first, compact);
  }

  lemma BodyNonempty(src: string, i: nat, n: Node, depth: nat, textDepth: int, first: bool, compact: bool)
    requires n.Element? && HasAt(src, i, TagAndBody(n, depth, textDepth, first, compact))
    ensures i < |src|
  {
    hide NodesText, EndTagText;
  }

  lemma {:induction false} ParsesElement(src: Buffer, i: nat, n: Node, depth: nat, textDepth: int, first: bool,
          compact: bool, pd: nat, acc: seq<Node>)
    requires n.Element? && ValidNode(n) && pd + Height([n]) < MAX_ELEMENT_DEPTH
    requires HasAt(src, i, NodeText(n, depth, textDepth, first, compact).text)
    requires depth == 0 ==> EndsOrTag(src, i + |NodeText(n, depth, textDepth, first, compact).text|)
    requires first ==> compact || depth == 0
    ensures var end := i + |NodeText(n, depth, textDepth, first, compact).text|;
      ParseLevel(src, i, pd, acc) == ParseLevel(src, end, pd, acc + [n])
    decreases n, 2
  {
    hide HasAt, NodeText, SkipWhite, TagAndBody, ParseHead, ParseNodes, ParseLevel, EndsOrTag, Margin;
    var m := Margin(depth, textDepth, first, compact);
    var body := TagAndBody(n, depth, textDepth, first, compact);
    var j := i + |m| + 1;
    ElementParts(src, i, n, depth, textDepth, first, compact);
    MarginIsWhite(depth, textDepth, first, compact);
    ReachesTag(src, i, m);
    if n.children == [] {
      ParsesSealed(src, j, n, depth, textDepth, first, compact, pd, acc);
      ClosedStep(src, i, j - 1, pd, acc);
    } else {
      ParsesOpen(src, i, j, n, depth, textDepth, first, compact, pd, acc);
    }
    SkipsLineEnd(src, j + |body|, LineEnd(depth, compact), pd, acc + [n]);
  }

  lemma ClosedStep(src: Buffer, i: nat, j: nat, pd: nat, acc: seq<Node>)
    requires i <= |src| && j == SkipWhite(src, i) < |src| && src[j] == '<'
    requires CharAt(src, j + 1) != '?' && CharAt(src, j + 1) != '!'
    requires ParseHead(src, j + 1).Ok? && ParseHead(src, j + 1).value.closing == Closed
    ensures var h := ParseHead(src, j + 1).value;
      && h.next <= |src|
      && ParseLevel(src, i, pd, acc) == ParseLevel(src, h.next, pd, acc + [Element(h.name, h.attributes, [])])
  {
    hide SkipWhite, ParseHead, ParseNodes, FindChar, Decode;
  }

  lemma OpenStep(src: Buffer, i: nat, j: nat, pd: nat, acc: seq<Node>, inner: Level)
    requires i <= |src| && j == SkipWhite(src, i) < |src| && src[j] == '<'
    requires CharAt(src, j + 1) != '?' && CharAt(src, j + 1) != '!'
    requires ParseHead(src, j + 1).Ok? && ParseHead(src, j + 1).value.closing == Open
    requires ParseHead(src, j + 1).value.next < |src|
    requires ParseNodes(src, ParseHead(src, j + 1).value.next, pd + 1) == Ok(inner)
    requires inner.stop.Some? && inner.stop.value.name == ParseHead(src, j + 1).value.name
    ensures var h := ParseHead(src, j + 1).value;
      && inner.stop.value.next <= |src|
      && ParseLevel(src, i, pd, acc)
        == ParseLevel(src, inner.stop.value.next, pd, acc + [Element(h.name, h.attributes, inner.children)])
  {
    hide SkipWhite, ParseHead, ParseNodes, FindChar, Decode;
  }

  /** Where the pieces of an element with children are. */
  lemma OpenParts(src: string, j: nat, n: Node, depth: nat, textDepth: int, first: bool, compact: bool)
    requires n.Element? && n.children != [] && HasAt(src, j, TagAndBody(n, depth, textDepth, first, compact))
    ensures var tag := TagText(n.name, n.attributes, false);
            var inner := NodesText(n.children, depth + 1, textDepth, first && compact, compact);
            var close := EndTagText(n.name, depth, inner.textDepth, compact);
            var k := j + |tag|;
      && HasAt(src, j, tag) && HasAt(src, k, inner.text) && HasAt(src, k + |inner.text|, close)
      && j + |TagAndBody(n, depth, textDepth, first, compact)| == k + |inner.text| + |close|
  {
    hide HasAt, NodesText, EndTagText, AttributesText;
    var tag := TagText(n.name, n.attributes, false);
    var inner := NodesText(n.children, depth + 1, textDepth, first && compact, compact);
    var close := EndTagText(n.name, depth, inner.textDepth, compact);
    assert TagAndBody(n, depth, textDepth, first, compact) == tag + (inner.text + close);
    HasConcat(src, j, tag, inner.text + close);
    HasConcat(src, j + |tag|, inner.text, close);
  }

  lemma {:induction false} ParsesOpen(src: Buffer, i: nat, j: nat, n: Node, depth: nat, textDepth: int, first: bool,
          compact: bool, pd: nat, acc: seq<Node>)
    requires n.Element? && ValidNode(n) && n.children != [] && pd + Height([n]) < MAX_ELEMENT_DEPTH
    requires i < j <= |src| && j - 1 == SkipWhite(src, i) && src[j - 1] == '<'
    requires HasAt(src, j, TagAndBody(n, depth, textDepth, first, compact))
    requires first ==> compact || depth == 0
    ensures var end := j + |TagAndBody(n, depth, textDepth, first, compact)|;
      end <= |src| && ParseLevel(src, i, pd, acc) == ParseLevel(src, end, pd, acc + [n])
    decreases n, 1
  {
    hide HasAt, NodesText, SkipWhite, TagAndBody, ParseHead, ParseNodes, ParseLevel, EndTagText, TagText;
    var tag := TagText(n.name, n.attributes, false);
    var inner := NodesText(n.children, depth + 1, textDepth, first && compact, compact);
    var k := j + |tag|;
    var m := k + |inner.text|;
    OpenParts(src, j, n, depth, textDepth, first, compact);
    ParsesTag(src, j, n.name, n.attributes, false);
    ChildrenWritten(src, k, n, depth, textDepth, first, compact);
    HeightOfOne(n);
    ParsesNodes(src, k, n.children, depth + 1, textDepth, first && compact, compact, pd + 1, []);
    assert [] + n.children == n.children;
    ClosesLevel(src, m, n.name, depth, inner.textDepth, compact, pd + 1, n.children);
    var level := Level(n.children, Some(EndTag(n.name, m + |EndTagText(n.name, depth, inner.textDepth, compact)|)));
    NestedLevel(src, k, pd + 1);
    OpenStep(src, i, j - 1, pd, acc, level);
  }

  lemma NestedLevel(src: Buffer, k: nat, pd: nat)
    requires k <= |src| && pd < MAX_ELEMENT_DEPTH
    ensures ParseNodes(src, k, pd) == ParseLevel(src, k, pd, [])
  {
    hide ParseLevel;
  }

  lemma ClosesLevel(src: Buffer, m: nat, name: string, depth: nat, textDepth: int, compact: bool, pd: nat,
          nodes: seq<Node>)
    requires ValidName(name) && HasAt(src, m, EndTagText(name, depth, textDepth, compact))
    ensures m + 1 < |src|
    ensures textDepth >= 0 ==> src[m] == '<'
    ensures ParseLevel(src, m, pd, nodes)
      == Ok(Level(nodes, Some(EndTag(name, m + |EndTagText(name, depth, textDepth, compact)|))))
  {
    hide ParseLevel, ValidName, HasAt, IsWhiteSpace;
    IndentIsWhite(depth);
    Separators();
    var white := if textDepth < 0 && !compact then "\n" + Indent(depth) else "";
    assert forall k :: 0 <= k < |white| ==> IsWhiteSpace(white[k]);
    ParsesEndTag(src, m, white, name, pd, nodes);
    HasChar(src, m, EndTagText(name, depth, textDepth, compact), 0);
    HasChar(src, m, EndTagText(name, depth, textDepth, compact), 1);
  }

  lemma ChildrenWritten(src: Buffer, k: nat, n: Node, depth: nat, textDepth: int, first: bool, compact: bool)
    requires n.Element? && ValidNode(n) && n.children != []
    requires k <= |src|
    requires var inner := NodesText(n.children, depth + 1, textDepth, first && compact, compact);
      && HasAt(src, k, inner.text)
      && HasAt(src, k + |inner.text|, EndTagText(n.name, depth, inner.textDepth, compact))
    ensures Written(src, k, n.children, depth + 1, textDepth, first && compact, compact)
  {
    hide HasAt, NodesText, ParseLevel, EndTagText, SkipWhite;
    var inner := NodesText(n.children, depth + 1, textDepth, first && compact, compact);
    LastTextDepth(n.children, depth + 1, textDepth, first && compact, compact);
    ClosesLevel(src, k + |inner.text|, n.name, depth, inner.textDepth, compact, 0, n.children);
  }

  lemma HeightOfAll(ns: seq<Node>)
    requires ns != []
    ensures Height(ns) == if Height([ns[0]]) >= Height(ns[1..]) then Height([ns[0]]) else Height(ns[1..])
  {
    assert [ns[0]][1..] == [];
  }

  lemma HeightOfOne(n: Node)
    requires n.Element? && n.children != []
    ensures Height([n]) == 1 + Height(n.children)
  {
    assert [n][1..] == [];
  }

  lemma {:induction false} LastTextDepth(ns: seq<Node>, depth: nat, textDepth: int, first: bool, compact: bool)
    ensures LastIsText(ns) ==> NodesText(ns, depth, textDepth, first, compact).textDepth == depth - 1
    decreases |ns|
  {
    hide NodeText;
    if |ns| > 1 {
      var head := NodeText(ns[0], depth, textDepth, first, compact);
      LastTextDepth(ns[1..], depth, head.textDepth, FirstAfter(ns[0], first, compact), compact);
    } else if |ns| == 1 {
      TextDepthOf(ns[0], depth, textDepth, first, compact);
      NoNodes(depth, NodeText(ns[0], depth, textDepth, first, compact).textDepth,
              FirstAfter(ns[0], first, compact), compact);
      assert ns[1..] == [];
    }
  }

  // ---------------------------------------------------------------- documents

  /** The documents the round trip is about: elements at the top. */
  ghost predicate ValidDocument(ns: seq<Node>) {
    && ns != [] && ValidNodes(ns)
    && forall k :: 0 <= k < |ns| ==> ns[k].Element?
  }

  lemma NoNulConcat(a: string, b: string)
    ensures NUL !in a + b <==> NUL !in a && NUL !in b
  {
    if NUL in a { var k :| 0 <= k < |a| && a[k] == NUL; assert (a + b)[k] == NUL; }
    if NUL in b { var k :| 0 <= k < |b| && b[k] == NUL; assert (a + b)[|a| + k] == NUL; }
  }

  lemma NameHasNoNul(name: string)
    requires ValidName(name)
    ensures NUL !in name
  {
  }

  lemma {:induction false} AttributesHaveNoNul(attributes: seq<Attribute>)
    requires forall k :: 0 <= k < |attributes| ==> ValidName(attributes[k].name) && Clean(attributes[k].value)
    ensures NUL !in AttributesText(attributes)
    decreases |attributes|
  {
    hide ValidName, Escape;
    if attributes != [] {
      var a := attributes[0];
      var raw := Escape(a.value, false);
      NameHasNoNul(a.name);
      EscapeKeepsAway(a.value, false, NUL);
      NoNulConcat(raw, "\"");
      NoNulConcat("=\"", raw + "\"");
      NoNulConcat(a.name, "=\"" + (raw + "\""));
      NoNulConcat(" ", a.name + ("=\"" + (raw + "\"")));
      AttributesHaveNoNul(attributes[1..]);
      NoNulConcat(AttributeText(a), AttributesText(attributes[1..]));
    }
  }

  lemma {:induction false} IndentHasNoNul(depth: nat)
    ensures NUL !in Indent(depth)
  {
    if depth > 0 {
      IndentHasNoNul(depth - 1);
      NoNulConcat("    ", Indent(depth - 1));
    }
  }

  lemma MarginHasNoNul(depth: nat, textDepth: int, first: bool, compact: bool)
    ensures NUL !in Margin(depth, textDepth, first, compact) && NUL !in LineEnd(depth, compact)
  {
    hide Indent;
    IndentHasNoNul(depth);
    NoNulConcat("\n", Indent(depth));
  }

  lemma EndTagHasNoNul(name: string, depth: nat, textDepth: int, compact: bool)
    requires ValidName(name)
    ensures NUL !in EndTagText(name, depth, textDepth, compact)
  {
    hide ValidName, Indent;
    NameHasNoNul(name);
    NoNulConcat(name, ">");
    NoNulConcat("</", name + ">");
    MarginHasNoNul(depth, textDepth, false, compact);
    NoNulConcat(if textDepth < 0 && !compact then "\n" + Indent(depth) else "", "</" + (name + ">"));
  }

  lemma {:induction false} NodeHasNoNul(n: Node, depth: nat, textDepth: int, first: bool, compact: bool)
    requires ValidNode(n)
    ensures NUL !in NodeText(n, depth, textDepth, first, compact).text
    decreases n, 0
  {
    hide ValidName, Escape, Margin, LineEnd, AttributesText, BodyText;
    match n
    case Text(value) => EscapeKeepsAway(value, true, NUL);
    case Element(name, attributes, children) =>
      var body := BodyText(name, children, depth, textDepth, first, compact);
      MarginHasNoNul(depth, textDepth, first, compact);
      NameHasNoNul(name);
      AttributesHaveNoNul(attributes);
      BodyHasNoNul(name, children, depth, textDepth, first, compact);
      NoNulConcat(body.text, LineEnd(depth, compact));
      NoNulConcat(AttributesText(attributes), body.text + LineEnd(depth, compact));
      NoNulConcat(name, AttributesText(attributes) + (body.text + LineEnd(depth, compact)));
      NoNulConcat("<", name + (AttributesText(attributes) + (body.text + LineEnd(depth, compact))));
      NoNulConcat(Margin(depth, textDepth, first, compact),
                  "<" + (name + (AttributesText(attributes) + (body.text + LineEnd(depth, compact)))));
  }

  lemma {:induction false} BodyHasNoNul(name: string, children: seq<Node>, depth: nat, textDepth: int, first: bool,
          compact: bool)
    requires ValidName(name) && ValidNodes(children)
    ensures NUL !in BodyText(name, children, depth, textDepth, first, compact).text
    decreases children, 1
  {
    hide ValidName, EndTagText, NodesText;
    var inner := NodesText(children, depth + 1, textDepth, first && compact, compact);
    NodesHaveNoNul(children, depth + 1, textDepth, first && compact, compact);
    EndTagHasNoNul(name, depth, inner.textDepth, compact);
    NoNulConcat(inner.text, EndTagText(name, depth, inner.textDepth, compact));
    NoNulConcat(">", inner.text + EndTagText(name, depth, inner.textDepth, compact));
  }

  lemma {:induction false} NodesHaveNoNul(ns: seq<Node>, depth: nat, textDepth: int, first: bool, compact: bool)
    requires ValidNodes(ns)
    ensures NUL !in NodesText(ns, depth, textDepth, first, compact).text
    decreases ns, 0
  {
    hide NodeText, ValidNode;
    if ns != [] {
      var head := NodeText(ns[0], depth, textDepth, first, compact);
      var tail := NodesText(ns[1..], depth, head.textDepth, FirstAfter(ns[0], first, compact), compact);
      NodeHasNoNul(ns[0], depth, textDepth, first, compact);
      NodesHaveNoNul(ns[1..], depth, head.textDepth, FirstAfter(ns[0], first, compact), compact);
      NoNulConcat(head.text, tail.text);
    }
  }

  // ---------------------------------------------------------------- too deep

  /** Reading nodes that are nested too deeply ends with that error, whatever comes before. */
  lemma {:induction false} NodesTooDeep(src: Buffer, i: nat, ns: seq<Node>, depth: nat, textDepth: int, first: bool,
          compact: bool,
                                        pd: nat, acc: seq<Node>)
    requires Written(src, i, ns, depth, textDepth, first, compact) && pd < MAX_ELEMENT_DEPTH <= pd + Height(ns)
    ensures ParseLevel(src, i, pd, acc) == Err(DepthExceeded)
    decreases ns, 1
  {
    hide ParseLevel, HasAt, NodeText, ValidNode, EndsOrTag;
    var head := NodeText(ns[0], depth, textDepth, first, compact);
    var first' := FirstAfter(ns[0], first, compact);
    var tail := NodesText(ns[1..], depth, head.textDepth, first', compact);
    HasConcat(src, i, head.text, tail.text);
    TailWritten(src, i, ns, depth, textDepth, first, compact);
    HeightOfAll(ns);
    if pd + Height([ns[0]]) >= MAX_ELEMENT_DEPTH {
      ElementTooDeep(src, i, ns[0], depth, textDepth, first, compact, pd, acc);
    } else {
      if ns[0].Text? {
        ParsesTextNode(src, i, ns[0], depth, textDepth, first, compact, pd, acc);
      } else {
        ParsesElement(src, i, ns[0], depth, textDepth, first, compact, pd, acc);
      }
      NodesTooDeep(src, i + |head.text|, ns[1..], depth, head.textDepth, first', compact, pd, acc + [ns[0]]);
    }
  }

  lemma HasHeight(n: Node)
    requires Height([n]) > 0
    ensures n.Element? && n.children != []
  {
    assert [n][1..] == [];
  }

  lemma {:induction false} ElementTooDeep(src: Buffer, i: nat, n: Node, depth: nat, textDepth: int, first: bool,
          compact: bool, pd: nat,
                                          acc: seq<Node>)
    requires ValidNode(n) && pd < MAX_ELEMENT_DEPTH <= pd + Height([n])
    requires HasAt(src, i, NodeText(n, depth, textDepth, first, compact).text)
    requires first ==> compact || depth == 0
    ensures ParseLevel(src, i, pd, acc) == Err(DepthExceeded)
    decreases n, 2
  {
    hide HasAt, NodeText, NodesText, SkipWhite, TagAndBody;
    hide ParseHead, ParseNodes, ParseLevel, EndTagText, TagText, Margin;
    HasHeight(n);
    var m := Margin(depth, textDepth, first, compact);
    var j := i + |m| + 1;
    ElementParts(src, i, n, depth, textDepth, first, compact);
    MarginIsWhite(depth, textDepth, first, compact);
    ReachesTag(src, i, m);
    OpenParts(src, j, n, depth, textDepth, first, compact);
    ParsesTag(src, j, n.name, n.attributes, false);
    var k := j + |TagText(n.name, n.attributes, false)|;
    ChildrenWritten(src, k, n, depth, textDepth, first, compact);
    var inner := NodesText(n.children, depth + 1, textDepth, first && compact, compact);
    ClosesLevel(src, k + |inner.text|, n.name, depth, inner.textDepth, compact, 0, []);
    HeightOfOne(n);
    if pd + 1 < MAX_ELEMENT_DEPTH {
      NestedLevel(src, k, pd + 1);
      NodesTooDeep(src, k, n.children, depth + 1, textDepth, first && compact, compact, pd + 1, []);
    } else {
      LimitReached(src, k);
    }
    OpenFails(src, i, j - 1, pd, acc);
  }

  lemma LimitReached(src: Buffer, k: nat)
    requires k <= |src|
    ensures ParseNodes(src, k, MAX_ELEMENT_DEPTH) == Err(DepthExceeded)
  {
    hide ParseLevel;
  }

  lemma OpenFails(src: Buffer, i: nat, j: nat, pd: nat, acc: seq<Node>)
    requires i <= |src| && j == SkipWhite(src, i) < |src| && src[j] == '<'
    requires CharAt(src, j + 1) != '?' && CharAt(src, j + 1) != '!'
    requires ParseHead(src, j + 1).Ok? && ParseHead(src, j + 1).value.closing == Open
    requires ParseHead(src, j + 1).value.next < |src|
    requires ParseNodes(src, ParseHead(src, j + 1).value.next, pd + 1) == Err(DepthExceeded)
    ensures ParseLevel(src, i, pd, acc) == Err(DepthExceeded)
  {
    hide SkipWhite, ParseHead, ParseNodes, FindChar, Decode;
  }

  /** Parsing undoes printing: same elements and texts in the same order, same names, same
      attributes in the same order with the same values; unless the nesting reaches the parser's
      limit, and then that is the error. */
  lemma ParsePrint(ns: seq<Node>, compact: bool)
    requires ValidDocument(ns)
    ensures NUL !in PrintDocument(ns, compact)
    ensures ParseDocument(PrintDocument(ns, compact))
      == if 1 + Height(ns) < MAX_ELEMENT_DEPTH then Ok(ns) else Err(DepthExceeded)
  {
    hide NodeText, ValidNode, ParseLevel, SkipWhite, NodesText, EndsOrTag;
    NodesHaveNoNul(ns, 0, -1, true, compact);
    var src: Buffer := PrintDocument(ns, compact);
    assert src[0..|src|] == src;
    AtTheEnd(src);
    FirstTag(src, ns, compact);
    NestedLevel(src, 0, 1);
    if 1 + Height(ns) < MAX_ELEMENT_DEPTH {
      ParsesNodes(src, 0, ns, 0, -1, true, compact, 1, []);
      assert [] + ns == ns;
      EndOfLevel(src, ns);
    } else {
      NodesTooDeep(src, 0, ns, 0, -1, true, compact, 1, []);
    }
  }

  lemma AtTheEnd(src: string)
    ensures EndsOrTag(src, |src|)
  {
  }

  lemma EndOfLevel(src: Buffer, ns: seq<Node>)
    ensures ParseLevel(src, |src|, 1, ns) == Ok(Level(ns, None))
  {
    hide ParseHead, ParseNodes, FindChar, Decode;
  }

  /** A printed document starts with a tag: no white space, no byte order mark. */
  lemma FirstTag(src: Buffer, ns: seq<Node>, compact: bool)
    requires ValidDocument(ns) && src == PrintDocument(ns, compact)
    ensures src != "" && ReadBOM(src, SkipWhite(src, 0)) == 0
  {
    hide NodeText, ValidNode, SkipWhite, TagAndBody;
    var head := NodeText(ns[0], 0, -1, true, compact);
    assert src[0..|head.text|] == head.text;
    ElementParts(src, 0, ns[0], 0, -1, true, compact);
    ReachesTag(src, 0, "");
    if HasAt(src, 0, BOM) {
      HasChar(src, 0, BOM, 0);
    }
  }
}
