/** The XML that tinyxml2 accepts, as a grammar: what stands where in the text. White space may
    stand in front of a name, before and behind an equals sign, and between nodes; a value may be
    in quotes of either kind; an empty element may be sealed; names of start and end tags match.
    The parser accepts exactly the texts with such a reading, and gives what the reading means. */
module XmlGrammar {

  import opened XmlText
  import opened XmlParser

  // ---------------------------------------------------------------- what stands where

  predicate Blank(src: string, i: nat, j: nat) {
    i <= j <= |src| && forall k :: i <= k < j ==> IsWhiteSpace(src[k])
  }

  /** A name, as long as it can be. */
  predicate NameAt(src: string, i: nat, j: nat) {
    && i < j <= |src| && IsNameStartChar(src[i])
    && (forall k :: i < k < j ==> IsNameChar(src[k]))
    && (j < |src| ==> !IsNameChar(src[j]))
  }

  predicate Stands(src: string, i: nat, c: char) {
    i < |src| && src[i] == c
  }

  predicate Lacks(src: string, i: nat, j: nat, c: char) {
    j <= |src| && forall k :: i <= k < j ==> src[k] != c
  }

  /** name = "value" */
  datatype AttributeAt = AttributeAt(from: nat, nameEnd: nat, eq: nat, quote: nat, end: nat)

  predicate IsAttribute(src: string, a: AttributeAt) {
    && NameAt(src, a.from, a.nameEnd)
    && Blank(src, a.nameEnd, a.eq) && Stands(src, a.eq, '=')
    && Blank(src, a.eq + 1, a.quote) && (Stands(src, a.quote, '\"') || Stands(src, a.quote, '\''))
    && a.quote < a.end && Stands(src, a.end, src[a.quote]) && Lacks(src, a.quote + 1, a.end, src[a.quote])
  }

  function Slice(src: string, i: nat, j: nat): string {
    if i <= j <= |src| then src[i..j] else ""
  }

  function AttributeMeant(src: string, a: AttributeAt): Attribute {
    Attribute(Slice(src, a.from, a.nameEnd), Decode(Slice(src, a.quote + 1, a.end), 0, ""))
  }

  function AttributesMeant(src: string, attributes: seq<AttributeAt>): seq<Attribute> {
    seq(|attributes|, k requires 0 <= k < |attributes| => AttributeMeant(src, attributes[k]))
  }

  function AttributesEnd(i: nat, attributes: seq<AttributeAt>): nat {
    if attributes == [] then i else attributes[|attributes| - 1].end + 1
  }

  /** Attributes one behind the other, no name twice. */
  predicate AreAttributes(src: string, i: nat, attributes: seq<AttributeAt>) {
    && (forall k :: 0 <= k < |attributes| ==>
          IsAttribute(src, attributes[k]) && Blank(src, AttributesEnd(i, attributes[..k]), attributes[k].from))
    && forall k, l :: 0 <= k < l < |attributes| ==>
         AttributeMeant(src, attributes[k]).name != AttributeMeant(src, attributes[l]).name
  }

  /** A tag: its name, whether a slash stands right before the name, its attributes, whether it is sealed
      with a slash at the end, and the place behind it. */
  datatype TagAt = TagAt(slash: bool, from: nat, nameEnd: nat, attributes: seq<AttributeAt>, sealed: bool, next: nat)

  /** What comes behind the '<' at lt. */
  predicate IsTag(src: string, lt: nat, t: TagAt) {
    && Stands(src, lt, '<')
    && Blank(src, lt + 1, if t.slash && t.from > 0 then t.from - 1 else t.from)
    && (t.slash ==> t.from > 0 && Stands(src, t.from - 1, '/'))
    && NameAt(src, t.from, t.nameEnd)
    && AreAttributes(src, t.nameEnd, t.attributes)
    && IsTagEnd(src, AttributesEnd(t.nameEnd, t.attributes), t.sealed, t.next)
  }

  predicate IsTagEnd(src: string, i: nat, sealed: bool, next: nat) {
    && 1 <= next && Stands(src, next - 1, '>')
    && if sealed then 2 <= next && Stands(src, next - 2, '/') && Blank(src, i, next - 2) else Blank(src, i, next - 1)
  }

  function TagName(src: string, t: TagAt): string {
    Slice(src, t.from, t.nameEnd)
  }

  datatype NodeAt =
    | TextAt(from: nat, to: nat)
    | SealedAt(lt: nat, tag: TagAt)
    | ElementAt(lt: nat, tag: TagAt, children: seq<NodeAt>, endLt: nat, endTag: TagAt)

  function NodeEnd(n: NodeAt): nat {
    match n
    case TextAt(_, to) => to
    case SealedAt(_, tag) => tag.next
    case ElementAt(_, _, _, _, endTag) => endTag.next
  }

  function NodesEnd(i: nat, ns: seq<NodeAt>): nat {
    if ns == [] then i else NodeEnd(ns[|ns| - 1])
  }

  /** A node behind the place i. A text is more than white space and goes up to the next tag. */
  predicate IsNode(src: string, i: nat, n: NodeAt)
    decreases n
  {
    match n
    case TextAt(from, to) =>
      from == i < to && Lacks(src, i, to, '<') && Stands(src, to, '<') && to + 1 < |src| && !Blank(src, i, to)
    case SealedAt(lt, tag) => Blank(src, i, lt) && IsTag(src, lt, tag) && tag.sealed
    case ElementAt(lt, tag, children, endLt, endTag) =>
      && Blank(src, i, lt) && IsTag(src, lt, tag) && !tag.slash && !tag.sealed
      && AreNodes(src, tag.next, children)
      && Blank(src, NodesEnd(tag.next, children), endLt) && IsTag(src, endLt, endTag) && endTag.slash && !endTag.sealed
      && TagName(src, endTag) == TagName(src, tag)
  }

  predicate AreNodes(src: string, i: nat, ns: seq<NodeAt>)
    decreases ns
  {
    ns == [] || (AreNodes(src, i, ns[..|ns| - 1]) && IsNode(src, NodesEnd(i, ns[..|ns| - 1]), ns[|ns| - 1]))
  }

  function Meant(src: string, n: NodeAt): Node {
    match n
    case TextAt(from, to) => Text(Decode(Slice(src, from, to), 0, ""))
    case SealedAt(_, tag) => Element(TagName(src, tag), AttributesMeant(src, tag.attributes), [])
    case ElementAt(_, tag, children, _, _) =>
      Element(TagName(src, tag), AttributesMeant(src, tag.attributes), AllMeant(src, children))
  }

  function AllMeant(src: string, ns: seq<NodeAt>): seq<Node> {
    if ns == [] then [] else AllMeant(src, ns[..|ns| - 1]) + [Meant(src, ns[|ns| - 1])]
  }

  /** No node lies inside 499 elements or more. */
  predicate NestedBelow(n: NodeAt, depth: nat) {
    n.ElementAt? ==> depth + 1 < 500 && AllNestedBelow(n.children, depth + 1)
  }

  predicate AllNestedBelow(ns: seq<NodeAt>, depth: nat) {
    ns == [] || (AllNestedBelow(ns[..|ns| - 1], depth) && NestedBelow(ns[|ns| - 1], depth))
  }

  /** A level of nodes ends with the text, or with an end tag. */
  datatype StopAt = AtEnd | AtTag(lt: nat, tag: TagAt)

  predicate IsStop(src: string, i: nat, stop: StopAt) {
    match stop
    case AtEnd => Blank(src, i, |src|)
    case AtTag(lt, tag) => Blank(src, i, lt) && IsTag(src, lt, tag) && tag.slash && !tag.sealed
  }

  function StopMeant(src: string, stop: StopAt): Option<EndTag> {
    match stop
    case AtEnd => None
    case AtTag(_, tag) => Some(EndTag(TagName(src, tag), tag.next))
  }

  // ---------------------------------------------------------------- white space, names, quotes

  lemma {:induction false} SkipIs(src: string, i: nat, j: nat)
    requires Blank(src, i, j) && (j < |src| ==> !IsWhiteSpace(src[j]))
    ensures SkipWhite(src, i) == j
    decreases |src| - i
  {
    if i < j {
      SkipIs(src, i + 1, j);
    }
  }

  lemma {:induction false} NameIs(src: string, i: nat, j: nat)
    requires i <= j <= |src| && (forall k :: i <= k < j ==> IsNameChar(src[k])) && (j < |src| ==> !IsNameChar(src[j]))
    ensures NameEnd(src, i) == j
    decreases |src| - i
  {
    if i < j {
      NameIs(src, i + 1, j);
    }
  }

  lemma NameExactly(src: string, i: nat, j: nat)
    requires i <= |src|
    ensures ParseName(src, i) == Some(j) <==> NameAt(src, i, j)
  {
    if NameAt(src, i, j) {
      NameIs(src, i + 1, j);
    }
  }

  lemma {:induction false} QuoteIs(src: string, i: nat, j: nat, c: char)
    requires i <= j && Stands(src, j, c) && Lacks(src, i, j, c)
    ensures FindChar(src, i, c) == Some(j)
    decreases j - i
  {
    if i < j {
      QuoteIs(src, i + 1, j, c);
    }
  }

  lemma {:induction false} QuoteFound(src: string, i: nat, c: char)
    requires i <= |src| && FindChar(src, i, c).Some?
    ensures var j := FindChar(src, i, c).value; i <= j && Stands(src, j, c) && Lacks(src, i, j, c)
    decreases |src| - i
  {
  }

  /** These are not white space. */
  lemma Marks(c: char)
    ensures c == '=' || c == '\"' || c == '\'' || c == '<' || c == '>' || c == '/' ==>
      !IsWhiteSpace(c) && !IsNameChar(c)
    ensures IsNameStartChar(c) ==> !IsWhiteSpace(c) && IsNameChar(c) && c != '<' && c != '>' && c != '/'
  {
  }

  // ---------------------------------------------------------------- attributes

  lemma AttributeIs(src: Buffer, a: AttributeAt)
    requires IsAttribute(src, a)
    ensures a.from <= |src| && ParseAttribute(src, a.from) == Some(ParsedAttribute(AttributeMeant(src, a), a.end + 1))
  {
    hide NameAt, SkipWhite, FindChar, Decode, ParseName, IsWhiteSpace;
    NameBounds(src, a.from, a.nameEnd);
    NameExactly(src, a.from, a.nameEnd);
    Marks(src[a.eq]);
    Marks(src[a.quote]);
    SkipIs(src, a.nameEnd, a.eq);
    SkipIs(src, a.eq + 1, a.quote);
    QuoteIs(src, a.quote + 1, a.end, src[a.quote]);
  }

  lemma NameBounds(src: string, i: nat, j: nat)
    requires NameAt(src, i, j)
    ensures i < j <= |src| && IsNameStartChar(src[i])
  {
  }

  lemma AttributeRead(src: Buffer, i: nat) returns (a: AttributeAt)
    requires i <= |src| && ParseAttribute(src, i).Some?
    ensures IsAttribute(src, a) && a.from == i
    ensures ParseAttribute(src, i) == Some(ParsedAttribute(AttributeMeant(src, a), a.end + 1))
  {
    hide NameAt, FindChar, Decode, ParseName, IsWhiteSpace;
    var nameEnd := ParseName(src, i).value;
    NameExactly(src, i, nameEnd);
    var eq := SkipWhite(src, nameEnd);
    var quote := SkipWhite(src, eq + 1);
    var end := FindChar(src, quote + 1, src[quote]).value;
    QuoteFound(src, quote + 1, src[quote]);
    a := AttributeAt(i, nameEnd, eq, quote, end);
  }

  lemma HasName(src: string, attributes: seq<AttributeAt>, name: string)
    ensures HasAttribute(AttributesMeant(src, attributes), name) <==>
      exists k :: 0 <= k < |attributes| && AttributeMeant(src, attributes[k]).name == name
  {
    hide AttributeMeant;
    var meant := AttributesMeant(src, attributes);
    if k :| 0 <= k < |attributes| && AttributeMeant(src, attributes[k]).name == name {
      assert meant[k].name == name;
    }
  }

  lemma AttributesOn(src: string, i: nat, attributes: seq<AttributeAt>, a: AttributeAt)
    requires AreAttributes(src, i, attributes)
    ensures AreAttributes(src, i, attributes + [a]) <==>
      IsAttribute(src, a) && Blank(src, AttributesEnd(i, attributes), a.from)
      && !HasAttribute(AttributesMeant(src, attributes), AttributeMeant(src, a).name)
    ensures AttributesMeant(src, attributes + [a]) == AttributesMeant(src, attributes) + [AttributeMeant(src, a)]
    ensures AttributesEnd(i, attributes + [a]) == a.end + 1
  {
    hide IsAttribute, AttributeMeant, Blank, HasAttribute, AreAttributes;
    HasName(src, attributes, AttributeMeant(src, a).name);
    if AreAttributes(src, i, attributes + [a]) {
      LastOfAttributes(src, i, attributes, a);
    }
    if IsAttribute(src, a) && Blank(src, AttributesEnd(i, attributes), a.from)
      && !HasAttribute(AttributesMeant(src, attributes), AttributeMeant(src, a).name) {
      OneMoreAttribute(src, i, attributes, a);
    }
  }

  lemma LastOfAttributes(src: string, i: nat, attributes: seq<AttributeAt>, a: AttributeAt)
    requires AreAttributes(src, i, attributes + [a])
    ensures IsAttribute(src, a) && Blank(src, AttributesEnd(i, attributes), a.from)
    ensures forall k :: 0 <= k < |attributes| ==> AttributeMeant(src, attributes[k]).name != AttributeMeant(src, a).name
  {
    hide IsAttribute, AttributeMeant, Blank, AttributesEnd;
    var all := attributes + [a];
    assert all[|attributes|] == a && all[..|attributes|] == attributes;
    assert forall k :: 0 <= k < |attributes| ==> all[k] == attributes[k];
  }

  lemma OneMoreAttribute(src: string, i: nat, attributes: seq<AttributeAt>, a: AttributeAt)
    requires AreAttributes(src, i, attributes)
    requires IsAttribute(src, a) && Blank(src, AttributesEnd(i, attributes), a.from)
    requires forall k :: 0 <= k < |attributes| ==>
      AttributeMeant(src, attributes[k]).name != AttributeMeant(src, a).name
    ensures AreAttributes(src, i, attributes + [a])
  {
    hide IsAttribute, AttributeMeant, Blank, AttributesEnd;
    var all := attributes + [a];
    assert all[..|attributes|] == attributes;
    forall k | 0 <= k < |attributes| ensures all[k] == attributes[k] && all[..k] == attributes[..k] {
    }
  }

  lemma AttributesFront(src: string, i: nat, attributes: seq<AttributeAt>, k: nat)
    requires AreAttributes(src, i, attributes) && k <= |attributes|
    ensures AreAttributes(src, i, attributes[..k])
  {
    hide IsAttribute, AttributeMeant, Blank, AttributesEnd;
    forall l | 0 <= l < k ensures attributes[..k][..l] == attributes[..l] {
    }
  }

  /** The bounds of what has been read. */
  lemma AttributesBound(src: string, i: nat, attributes: seq<AttributeAt>)
    requires AreAttributes(src, i, attributes) && i <= |src|
    ensures AttributesEnd(i, attributes) <= |src|
  {
    if attributes != [] {
      assert IsAttribute(src, attributes[|attributes| - 1]);
    }
  }

  lemma TagEndIs(src: Buffer, i: nat, attributes: seq<Attribute>, sealed: bool, next: nat)
    requires i <= |src| && IsTagEnd(src, i, sealed, next)
    ensures ParseAttributes(src, i, attributes) == Ok(Tail(attributes, sealed, next))
  {
    hide ParseAttribute, HasAttribute;
    var at := if sealed then next - 2 else next - 1;
    Marks(src[at]);
    SkipIs(src, i, at);
  }

  lemma {:induction false} AttributesAre(src: Buffer, i: nat, all: seq<AttributeAt>, k: nat, sealed: bool, next: nat)
    requires AreAttributes(src, i, all) && k <= |all| && i <= |src| && AttributesEnd(i, all[..k]) <= |src|
    requires IsTagEnd(src, AttributesEnd(i, all), sealed, next)
    ensures ParseAttributes(src, AttributesEnd(i, all[..k]), AttributesMeant(src, all[..k]))
      == Ok(Tail(AttributesMeant(src, all), sealed, next))
    decreases |all| - k
  {
    hide ParseAttribute, HasAttribute, AttributeMeant, AttributesMeant, Blank, IsAttribute, AreAttributes;
    if k == |all| {
      assert all[..k] == all;
      TagEndIs(src, AttributesEnd(i, all), AttributesMeant(src, all), sealed, next);
    } else {
      var done, a := all[..k], all[k];
      assert all[..k + 1] == done + [a];
      AttributesFront(src, i, all, k);
      AttributesFront(src, i, all, k + 1);
      AttributesOn(src, i, done, a);
      AttributesBound(src, i, all[..k + 1]);
      AttributeIs(src, a);
      StartsName(src, a, AttributesEnd(i, done));
      AttributesAre(src, i, all, k + 1, sealed, next);
    }
  }

  lemma StartsName(src: string, a: AttributeAt, i: nat)
    requires IsAttribute(src, a) && Blank(src, i, a.from)
    ensures a.from < |src| && SkipWhite(src, i) == a.from && IsNameStartChar(src[a.from])
  {
    Marks(src[a.from]);
    SkipIs(src, i, a.from);
  }

  lemma {:induction false} AttributesRead(src: Buffer, i: nat, done: seq<AttributeAt>)
    returns (all: seq<AttributeAt>, sealed: bool, next: nat)
    requires AreAttributes(src, i, done) && i <= |src| && AttributesEnd(i, done) <= |src|
    requires ParseAttributes(src, AttributesEnd(i, done), AttributesMeant(src, done)).Ok?
    ensures AreAttributes(src, i, all) && IsTagEnd(src, AttributesEnd(i, all), sealed, next)
    ensures ParseAttributes(src, AttributesEnd(i, done), AttributesMeant(src, done))
      == Ok(Tail(AttributesMeant(src, all), sealed, next))
    decreases |src| - AttributesEnd(i, done)
  {
    hide ParseAttribute, HasAttribute, AttributeMeant, AttributesMeant, IsAttribute, AreAttributes, AttributesEnd;
    var at := AttributesEnd(i, done);
    var j := SkipWhite(src, at);
    if IsNameStartChar(src[j]) {
      var a := AttributeRead(src, j);
      AttributesOn(src, i, done, a);
      assert Blank(src, at, j);
      all, sealed, next := AttributesRead(src, i, done + [a]);
    } else {
      all := done;
      sealed := src[j] == '/';
      next := if sealed then j + 2 else j + 1;
    }
  }

  // ---------------------------------------------------------------- tags

  function Kind(t: TagAt): ClosingType {
    if t.sealed then Closed else if t.slash then Closing else Open
  }

  lemma TagIs(src: Buffer, lt: nat, t: TagAt)
    requires IsTag(src, lt, t)
    ensures lt < |src|
    ensures ParseHead(src, lt + 1) == Ok(Head(TagName(src, t), AttributesMeant(src, t.attributes), Kind(t), t.next))
  {
    hide AreAttributes, IsTagEnd, AttributesMeant, AttributesEnd, NameAt, ParseAttributes, ParseName;
    NameBounds(src, t.from, t.nameEnd);
    NameExactly(src, t.from, t.nameEnd);
    Marks(src[t.from]);
    var j := if t.slash then t.from - 1 else t.from;
    Marks(src[j]);
    SkipIs(src, lt + 1, j);
    NothingYet(src, t.nameEnd, t.attributes);
    AttributesAre(src, t.nameEnd, t.attributes, 0, t.sealed, t.next);
  }

  lemma NothingYet(src: string, i: nat, attributes: seq<AttributeAt>)
    ensures attributes[..0] == [] && AttributesEnd(i, []) == i && AttributesMeant(src, []) == []
    ensures AreAttributes(src, i, [])
  {
  }

  lemma TagRead(src: Buffer, lt: nat) returns (t: TagAt)
    requires Stands(src, lt, '<') && ParseHead(src, lt + 1).Ok?
    ensures IsTag(src, lt, t)
    ensures ParseHead(src, lt + 1) == Ok(Head(TagName(src, t), AttributesMeant(src, t.attributes), Kind(t), t.next))
  {
    hide AreAttributes, IsTagEnd, AttributesMeant, AttributesEnd, ParseAttributes, ParseName, NameAt;
    var j := SkipWhite(src, lt + 1);
    var slash := CharAt(src, j) == '/';
    var start := if slash then j + 1 else j;
    var nameEnd := ParseName(src, start).value;
    NameExactly(src, start, nameEnd);
    NameBounds(src, start, nameEnd);
    NothingYet(src, nameEnd, []);
    var all, sealed, next := AttributesRead(src, nameEnd, []);
    t := TagAt(slash, start, nameEnd, all, sealed, next);
  }

  lemma TagBounds(src: string, lt: nat, t: TagAt)
    requires IsTag(src, lt, t)
    ensures lt < t.next <= |src|
  {
    hide NameAt, AreAttributes, AttributesEnd;
    NameBounds(src, t.from, t.nameEnd);
    AttributesPast(src, t.nameEnd, t.attributes);
  }

  /** No comment, CDATA section, declaration or DTD starts like a tag. */
  lemma TagStart(src: string, lt: nat, t: TagAt)
    requires IsTag(src, lt, t)
    ensures Stands(src, lt, '<') && CharAt(src, lt + 1) != '?' && CharAt(src, lt + 1) != '!'
  {
    hide AreAttributes, IsTagEnd;
    NameBounds(src, t.from, t.nameEnd);
    hide NameAt;
  }

  lemma {:induction false} AttributesPast(src: string, i: nat, attributes: seq<AttributeAt>)
    requires AreAttributes(src, i, attributes)
    ensures i <= AttributesEnd(i, attributes)
    decreases |attributes|
  {
    hide IsAttribute, Blank, AttributeMeant;
    if attributes != [] {
      var front, last := attributes[..|attributes| - 1], attributes[|attributes| - 1];
      AttributesFront(src, i, attributes, |front|);
      AttributesPast(src, i, front);
      AttributePast(src, AttributesEnd(i, front), last);
    }
  }

  lemma AttributePast(src: string, i: nat, a: AttributeAt)
    requires IsAttribute(src, a) && Blank(src, i, a.from)
    ensures i <= a.end
  {
    hide Lacks;
    NameBounds(src, a.from, a.nameEnd);
    hide NameAt;
  }

  // ---------------------------------------------------------------- nodes

  lemma {:induction false} NodesPast(src: string, i: nat, ns: seq<NodeAt>)
    requires AreNodes(src, i, ns) && i <= |src|
    ensures i <= NodesEnd(i, ns) <= |src|
    decreases ns
  {
    hide IsNode;
    if ns != [] {
      var front, last := ns[..|ns| - 1], ns[|ns| - 1];
      NodesPast(src, i, front);
      NodePast(src, NodesEnd(i, front), last);
    }
  }

  lemma NodePast(src: string, i: nat, n: NodeAt)
    requires IsNode(src, i, n) && i <= |src|
    ensures i < NodeEnd(n) <= |src|
    decreases n
  {
    hide IsTag, AreNodes;
    match n
    case TextAt(from, to) =>
    case SealedAt(lt, tag) => TagBounds(src, lt, tag);
    case ElementAt(lt, tag, children, endLt, endTag) =>
      TagBounds(src, lt, tag);
      NodesPast(src, tag.next, children);
      TagBounds(src, endLt, endTag);
  }

  lemma {:induction false} NodesFront(src: string, i: nat, ns: seq<NodeAt>, k: nat)
    requires AreNodes(src, i, ns) && k <= |ns|
    ensures AreNodes(src, i, ns[..k])
    ensures k < |ns| ==> IsNode(src, NodesEnd(i, ns[..k]), ns[k])
    decreases |ns|
  {
    hide IsNode;
    if k == |ns| {
      assert ns[..k] == ns;
    } else if k < |ns| - 1 {
      NodesFront(src, i, ns[..|ns| - 1], k);
      assert ns[..|ns| - 1][..k] == ns[..k];
    }
  }

  lemma {:induction false} NestedFront(ns: seq<NodeAt>, k: nat, depth: nat)
    requires AllNestedBelow(ns, depth) && k < |ns|
    ensures NestedBelow(ns[k], depth)
    decreases |ns|
  {
    hide NestedBelow;
    if k < |ns| - 1 {
      NestedFront(ns[..|ns| - 1], k, depth);
    }
  }

  lemma NodesOn(src: string, i: nat, ns: seq<NodeAt>, n: NodeAt, depth: nat)
    ensures AreNodes(src, i, ns + [n]) <==> AreNodes(src, i, ns) && IsNode(src, NodesEnd(i, ns), n)
    ensures AllMeant(src, ns + [n]) == AllMeant(src, ns) + [Meant(src, n)]
    ensures AllNestedBelow(ns + [n], depth) <==> AllNestedBelow(ns, depth) && NestedBelow(n, depth)
    ensures NodesEnd(i, ns + [n]) == NodeEnd(n)
  {
    hide IsNode, Meant, NestedBelow;
    var all := ns + [n];
    assert all[..|all| - 1] == ns && all[|all| - 1] == n;
  }

  lemma StopIs(src: Buffer, i: nat, stop: StopAt, depth: nat, nodes: seq<Node>)
    requires i <= |src| && IsStop(src, i, stop)
    ensures ParseLevel(src, i, depth, nodes) == Ok(Level(nodes, StopMeant(src, stop)))
  {
    hide ParseHead, IsTag;
    match stop
    case AtEnd => SkipIs(src, i, |src|);
    case AtTag(lt, tag) =>
      TagStart(src, lt, tag);
      Marks(src[lt]);
      SkipIs(src, i, lt);
      TagIs(src, lt, tag);
  }

  /** A text is read as such, and the level goes on behind it. */
  lemma TextIs(src: Buffer, i: nat, n: NodeAt, depth: nat, nodes: seq<Node>)
    requires i <= |src| && IsNode(src, i, n) && n.TextAt?
    ensures NodeEnd(n) <= |src|
    ensures ParseLevel(src, i, depth, nodes) == ParseLevel(src, NodeEnd(n), depth, nodes + [Meant(src, n)])
  {
    hide ParseTag, Decode, IsWhiteSpace;
    QuoteIs(src, i, n.to, '<');
    SkipsNotAll(src, i, n.to);
  }

  lemma SkipsNotAll(src: string, i: nat, j: nat)
    requires i <= j <= |src| && !Blank(src, i, j)
    ensures SkipWhite(src, i) < j
  {
  }

  lemma SealedIs(src: Buffer, i: nat, n: NodeAt, depth: nat, nodes: seq<Node>)
    requires i <= |src| && IsNode(src, i, n) && n.SealedAt?
    ensures NodeEnd(n) <= |src|
    ensures ParseLevel(src, i, depth, nodes) == ParseLevel(src, NodeEnd(n), depth, nodes + [Meant(src, n)])
  {
    hide ParseHead, IsTag, TagName, AttributesMeant;
    TagStart(src, n.lt, n.tag);
    TagBounds(src, n.lt, n.tag);
    Marks(src[n.lt]);
    SkipIs(src, i, n.lt);
    TagIs(src, n.lt, n.tag);
    TagStep(src, i, n.lt, depth, nodes);
  }

  /** From the white space in front of a tag to the tag. */
  lemma TagStep(src: Buffer, i: nat, lt: nat, depth: nat, nodes: seq<Node>)
    requires i <= |src| && SkipWhite(src, i) == lt && Stands(src, lt, '<')
    requires CharAt(src, lt + 1) != '?' && CharAt(src, lt + 1) != '!'
    ensures ParseLevel(src, i, depth, nodes) == ParseTag(src, lt + 1, depth, nodes)
  {
    hide ParseTag;
  }

  lemma {:induction false} ElementIs(src: Buffer, i: nat, n: NodeAt, depth: nat, nodes: seq<Node>)
    requires i <= |src| && IsNode(src, i, n) && n.ElementAt? && NestedBelow(n, depth)
    ensures NodeEnd(n) <= |src|
    ensures ParseLevel(src, i, depth, nodes) == ParseLevel(src, NodeEnd(n), depth, nodes + [Meant(src, n)])
    decreases n
  {
    hide ParseHead, IsTag, TagName, AttributesMeant, AreNodes, AllNestedBelow, ParseLevel;
    TagStart(src, n.lt, n.tag);
    TagBounds(src, n.lt, n.tag);
    Marks(src[n.lt]);
    SkipIs(src, i, n.lt);
    TagIs(src, n.lt, n.tag);
    TagStep(src, i, n.lt, depth, nodes);
    NodesPast(src, n.tag.next, n.children);
    TagBounds(src, n.endLt, n.endTag);
    assert n.children[..0] == [];
    NodesAre(src, n.tag.next, n.children, 0, AtTag(n.endLt, n.endTag), depth + 1);
    assert AllMeant(src, []) == [];
    ElementStep(src, n.lt, n, depth, nodes);
  }

  lemma ElementStep(src: Buffer, lt: nat, n: NodeAt, depth: nat, nodes: seq<Node>)
    requires n.ElementAt? && lt < n.tag.next < |src| && n.endTag.next <= |src| && depth + 1 < 500
    requires ParseHead(src, lt + 1)
      == Ok(Head(TagName(src, n.tag), AttributesMeant(src, n.tag.attributes), Open, n.tag.next))
    requires ParseLevel(src, n.tag.next, depth + 1, [])
      == Ok(Level(AllMeant(src, n.children), Some(EndTag(TagName(src, n.endTag), n.endTag.next))))
    requires TagName(src, n.endTag) == TagName(src, n.tag)
    ensures ParseTag(src, lt + 1, depth, nodes) == ParseLevel(src, n.endTag.next, depth, nodes + [Meant(src, n)])
  {
    hide ParseHead, TagName, AttributesMeant, ParseLevel;
  }

  lemma {:induction false} NodesAre(src: Buffer, i: nat, ns: seq<NodeAt>, k: nat, stop: StopAt, depth: nat)
    requires i <= |src| && AreNodes(src, i, ns) && k <= |ns| && AllNestedBelow(ns, depth)
    requires NodesEnd(i, ns[..k]) <= |src| && IsStop(src, NodesEnd(i, ns), stop)
    ensures ParseLevel(src, NodesEnd(i, ns[..k]), depth, AllMeant(src, ns[..k]))
      == Ok(Level(AllMeant(src, ns), StopMeant(src, stop)))
    decreases ns, |ns| - k
  {
    hide ParseLevel, IsNode, AreNodes, AllNestedBelow, IsStop, StopMeant, NestedBelow, Meant;
    if k == |ns| {
      assert ns[..k] == ns;
      StopIs(src, NodesEnd(i, ns), stop, depth, AllMeant(src, ns));
    } else {
      var done, n := ns[..k], ns[k];
      assert ns[..k + 1] == done + [n];
      NodesFront(src, i, ns, k);
      NestedFront(ns, k, depth);
      NodesOn(src, i, done, n, depth);
      var nodes := AllMeant(src, done);
      if n.TextAt? {
        TextIs(src, NodesEnd(i, done), n, depth, nodes);
      } else if n.SealedAt? {
        SealedIs(src, NodesEnd(i, done), n, depth, nodes);
      } else {
        ElementIs(src, NodesEnd(i, done), n, depth, nodes);
      }
      NodesAre(src, i, ns, k + 1, stop, depth);
    }
  }

  // ---------------------------------------------------------------- what the parser read

  /** A tag was read in front of the rest of a level. */
  lemma LevelAtTag(src: Buffer, i: nat, depth: nat, nodes: seq<Node>)
    requires i <= |src| && ParseLevel(src, i, depth, nodes).Ok? && Stands(src, SkipWhite(src, i), '<')
    ensures var lt := SkipWhite(src, i);
      && Blank(src, i, lt) && lt + 1 <= |src|
      && ParseLevel(src, i, depth, nodes) == ParseTag(src, lt + 1, depth, nodes)
  {
    hide ParseTag;
  }

  lemma LevelAtText(src: Buffer, i: nat, depth: nat, nodes: seq<Node>) returns (n: NodeAt)
    requires i <= |src| && ParseLevel(src, i, depth, nodes).Ok?
    requires SkipWhite(src, i) < |src| && !Stands(src, SkipWhite(src, i), '<')
    ensures n.TextAt? && IsNode(src, i, n) && i < NodeEnd(n) <= |src|
    ensures ParseLevel(src, i, depth, nodes) == ParseLevel(src, NodeEnd(n), depth, nodes + [Meant(src, n)])
  {
    hide ParseTag, Decode, IsWhiteSpace;
    var to := FindChar(src, i, '<').value;
    QuoteFound(src, i, '<');
    n := TextAt(i, to);
    var j := SkipWhite(src, i);
    Marks('<');
    if j < to {
      assert !IsWhiteSpace(src[j]) && !Blank(src, i, to);
    }
  }

  /** What ParseTag comes to, by the kind of tag. */
  lemma TagCases(src: Buffer, lt: nat, depth: nat, nodes: seq<Node>)
    requires lt < |src| && ParseTag(src, lt + 1, depth, nodes).Ok?
    ensures ParseHead(src, lt + 1).Ok?
    ensures var head := ParseHead(src, lt + 1).value; var r := ParseTag(src, lt + 1, depth, nodes);
      match head.closing
      case Closing => r == Ok(Level(nodes, Some(EndTag(head.name, head.next))))
      case Closed => r == ParseLevel(src, head.next, depth, nodes + [Element(head.name, head.attributes, [])])
      case Open =>
        var inner := ParseLevel(src, head.next, depth + 1, []);
        && depth + 1 != 500 && inner.Ok? && inner.value.stop.Some? && inner.value.stop.value.name == head.name
        && r == ParseLevel(src, inner.value.stop.value.next, depth,
                           nodes + [Element(head.name, head.attributes, inner.value.children)])
  {
    hide ParseHead, ParseLevel;
  }

  lemma {:induction false} LevelRead(src: Buffer, i: nat, done: seq<NodeAt>, depth: nat)
    returns (all: seq<NodeAt>, stop: StopAt)
    requires i <= |src| && AreNodes(src, i, done) && AllNestedBelow(done, depth) && NodesEnd(i, done) <= |src|
    requires depth < 500 && ParseLevel(src, NodesEnd(i, done), depth, AllMeant(src, done)).Ok?
    ensures AreNodes(src, i, all) && IsStop(src, NodesEnd(i, all), stop) && AllNestedBelow(all, depth)
    ensures ParseLevel(src, NodesEnd(i, done), depth, AllMeant(src, done))
      == Ok(Level(AllMeant(src, all), StopMeant(src, stop)))
    decreases |src| - NodesEnd(i, done), 2
  {
    hide ParseLevel, IsNode, AreNodes, AllNestedBelow, NestedBelow, AllMeant, Meant, NodesEnd, IsStop, StopMeant;
    var at := NodesEnd(i, done);
    var nodes := AllMeant(src, done);
    var j := SkipWhite(src, at);
    if j == |src| {
      all, stop := done, AtEnd;
      StopsAtEnd(src, at, depth, nodes);
    } else if src[j] == '<' {
      LevelAtTag(src, at, depth, nodes);
      var n, closes := TagOfLevel(src, at, j, depth, nodes);
      if closes.AtTag? {
        all, stop := done, closes;
      } else {
        NodesOn(src, i, done, n, depth);
        all, stop := LevelRead(src, i, done + [n], depth);
      }
    } else {
      var n := LevelAtText(src, at, depth, nodes);
      NodesOn(src, i, done, n, depth);
      TextsAreFlat(n, depth);
      all, stop := LevelRead(src, i, done + [n], depth);
    }
  }

  lemma TextsAreFlat(n: NodeAt, depth: nat)
    requires n.TextAt?
    ensures NestedBelow(n, depth)
  {
  }

  lemma StopsAtEnd(src: Buffer, i: nat, depth: nat, nodes: seq<Node>)
    requires i <= |src| && SkipWhite(src, i) == |src|
    ensures IsStop(src, i, AtEnd) && ParseLevel(src, i, depth, nodes) == Ok(Level(nodes, StopMeant(src, AtEnd)))
  {
  }

  /** The node that a tag starts, or the end tag that it is. */
  lemma {:induction false} TagOfLevel(src: Buffer, i: nat, lt: nat, depth: nat, nodes: seq<Node>)
    returns (n: NodeAt, closes: StopAt)
    requires i <= lt < |src| && Blank(src, i, lt) && src[lt] == '<' && depth < 500
    requires ParseTag(src, lt + 1, depth, nodes).Ok?
    ensures closes.AtTag? ==>
      IsStop(src, i, closes) && ParseTag(src, lt + 1, depth, nodes) == Ok(Level(nodes, StopMeant(src, closes)))
    ensures closes.AtEnd? ==> IsNode(src, i, n) && NestedBelow(n, depth) && i < NodeEnd(n) <= |src|
    ensures closes.AtEnd? ==>
      ParseTag(src, lt + 1, depth, nodes) == ParseLevel(src, NodeEnd(n), depth, nodes + [Meant(src, n)])
    decreases |src| - i, 1
  {
    hide ParseLevel, ParseTag, ParseHead, IsTag, TagName, AttributesMeant, AreNodes, AllNestedBelow, AllMeant, Blank;
    TagCases(src, lt, depth, nodes);
    var t := TagRead(src, lt);
    TagBounds(src, lt, t);
    n, closes := SealedAt(lt, t), AtEnd;
    if t.slash && !t.sealed {
      closes := AtTag(lt, t);
    } else if !t.sealed {
      NoNodesYet(src, t.next, depth + 1);
      var children, stop := LevelRead(src, t.next, [], depth + 1);
      StopBounds(src, NodesEnd(t.next, children), stop);
      NodesPast(src, t.next, children);
      n := ElementAt(lt, t, children, stop.lt, stop.tag);
    }
  }

  lemma NoNodesYet(src: string, i: nat, depth: nat)
    ensures AreNodes(src, i, []) && AllNestedBelow([], depth) && NodesEnd(i, []) == i && AllMeant(src, []) == []
  {
  }

  lemma StopBounds(src: string, i: nat, stop: StopAt)
    requires IsStop(src, i, stop) && stop.AtTag?
    ensures i <= stop.lt < stop.tag.next <= |src|
  {
    TagBounds(src, stop.lt, stop.tag);
  }

  // ---------------------------------------------------------------- the document

  predicate IsBOM(src: string, i: nat) {
    i + 3 <= |src| && src[i] as int == 0xef && src[i + 1] as int == 0xbb && src[i + 2] as int == 0xbf
  }

  /** Where the nodes start: behind white space, and a byte order mark if there is one. */
  predicate Starts(src: string, i: nat) {
    if i >= 3 && IsBOM(src, i - 3) && Blank(src, 0, i - 3) then true
    else Blank(src, 0, i) && (i < |src| ==> !IsWhiteSpace(src[i])) && !IsBOM(src, i)
  }

  /** A reading of the whole text: nodes up to its end, or up to an end tag that belongs to none of
      them; what stands behind that is not looked at. */
  ghost predicate Reads(src: string, i: nat, ns: seq<NodeAt>, stop: StopAt) {
    && Starts(src, i) && i < |src|
    && AreNodes(src, i, ns) && IsStop(src, NodesEnd(i, ns), stop)
    && AllNestedBelow(ns, 1)
  }

  lemma StartsThere(src: string, i: nat)
    ensures Starts(src, i) <==> i == ReadBOM(src, SkipWhite(src, 0))
  {
    hide HasAt, IsBOM;
    var j := SkipWhite(src, 0);
    if i <= |src| && Blank(src, 0, i) && (i < |src| ==> !IsWhiteSpace(src[i])) {
      SkipIs(src, 0, i);
    }
    if i >= 3 && IsBOM(src, i - 3) && Blank(src, 0, i - 3) {
      MarkIsNoSpace(src, i - 3);
      SkipIs(src, 0, i - 3);
    }
    MarkRead(src, j);
  }

  lemma MarkIsNoSpace(src: string, i: nat)
    requires IsBOM(src, i)
    ensures i + 3 <= |src| && !IsWhiteSpace(src[i])
  {
  }

  lemma MarkRead(src: string, i: nat)
    ensures HasAt(src, i, BOM) <==> IsBOM(src, i)
  {
    if i + 3 <= |src| {
      var three := src[i..i + 3];
      assert three[0] == src[i] && three[1] == src[i + 1] && three[2] == src[i + 2];
      assert three == [src[i], src[i + 1], src[i + 2]];
    }
  }

  /** The text parses to these nodes if and only if it has a reading that means them. */
  lemma ParsesExactly(src: Buffer, nodes: seq<Node>)
    ensures ParseDocument(src) == Ok(nodes) <==>
      exists i, ns, stop :: Reads(src, i, ns, stop) && AllMeant(src, ns) == nodes
  {
    hide ParseLevel, AreNodes, IsStop, AllNestedBelow, Starts, NodesEnd, AllMeant, StopMeant, IsBOM;
    var i := ReadBOM(src, SkipWhite(src, 0));
    if ParseDocument(src) == Ok(nodes) {
      StartsThere(src, i);
      NoNodesYet(src, i, 1);
      var ns, stop := LevelRead(src, i, [], 1);
      assert Reads(src, i, ns, stop);
    }
    forall j, ns, stop | Reads(src, j, ns, stop) && AllMeant(src, ns) == nodes ensures ParseDocument(src) == Ok(nodes) {
      StartsThere(src, j);
      NoNodesYet(src, j, 1);
      assert ns[..0] == [];
      NodesAre(src, j, ns, 0, stop, 1);
    }
  }

  lemma {:induction false} AttributesNotEmpty(src: Buffer, i: nat, attributes: seq<Attribute>)
    requires i <= |src|
    ensures ParseAttributes(src, i, attributes) != Err(EmptyDocument)
    decreases |src| - i
  {
    hide ParseAttribute, HasAttribute;
    var j := SkipWhite(src, i);
    if j < |src| && IsNameStartChar(src[j]) {
      var a := ParseAttribute(src, j);
      if a.Some? {
        AttributesNotEmpty(src, a.value.next, attributes + [a.value.attribute]);
      }
    }
  }

  lemma HeadNotEmpty(src: Buffer, i: nat)
    requires i <= |src|
    ensures ParseHead(src, i) != Err(EmptyDocument)
  {
    hide ParseAttributes, ParseName;
    var j := SkipWhite(src, i);
    var start := if CharAt(src, j) == '/' then j + 1 else j;
    if ParseName(src, start).Some? {
      AttributesNotEmpty(src, ParseName(src, start).value, []);
    }
  }

  lemma {:induction false} LevelNotEmpty(src: Buffer, i: nat, depth: nat, nodes: seq<Node>)
    requires i <= |src|
    ensures ParseLevel(src, i, depth, nodes) != Err(EmptyDocument)
    decreases |src| - i, 0
  {
    hide ParseTag, Decode;
    var j := SkipWhite(src, i);
    if j < |src| && src[j] == '<' {
      TagNotEmpty(src, j + 1, depth, nodes);
    } else if j < |src| {
      var end := FindChar(src, i, '<');
      if end.Some? && end.value + 1 < |src| {
        assert i < end.value;
        LevelNotEmpty(src, end.value, depth, nodes + [Text(Decode(src[i..end.value], 0, ""))]);
      }
    }
  }

  lemma {:induction false} TagNotEmpty(src: Buffer, i: nat, depth: nat, nodes: seq<Node>)
    requires i <= |src|
    ensures ParseTag(src, i, depth, nodes) != Err(EmptyDocument)
    decreases |src| - i, 1
  {
    hide ParseHead, ParseLevel;
    HeadNotEmpty(src, i);
    if ParseHead(src, i).Ok? {
      var head := ParseHead(src, i).value;
      LevelNotEmpty(src, head.next, depth, nodes + [Element(head.name, head.attributes, [])]);
      LevelNotEmpty(src, head.next, depth + 1, []);
      var inner := ParseLevel(src, head.next, depth + 1, []);
      if inner.Ok? && inner.value.stop.Some? {
        LevelNotEmpty(src, inner.value.stop.value.next, depth,
                      nodes + [Element(head.name, head.attributes, inner.value.children)]);
      }
    }
  }

  /** A document is called empty exactly if there is nothing but white space, or a byte order mark
      behind white space at its end. */
  lemma EmptyExactly(src: Buffer)
    ensures ParseDocument(src) == Err(EmptyDocument) <==> Starts(src, |src|)
  {
    hide Starts, ParseLevel;
    var i := ReadBOM(src, SkipWhite(src, 0));
    StartsThere(src, |src|);
    LevelNotEmpty(src, i, 1, []);
  }

  /** A comment, CDATA section, declaration or DTD, wherever a node may stand, is reported as what it is. */
  lemma OthersReported(src: Buffer, i: nat, lt: nat, depth: nat, nodes: seq<Node>)
    requires i <= |src| && Blank(src, i, lt) && Stands(src, lt, '<')
    requires Stands(src, lt + 1, '?') || Stands(src, lt + 1, '!')
    ensures ParseLevel(src, i, depth, nodes) == Err(NotModelled)
  {
    Marks(src[lt]);
    SkipIs(src, i, lt);
  }

  /** The bytes that count as white space, start a name, and go on with it. */
  lemma CharacterClasses(c: char)
    ensures IsWhiteSpace(c) <==> c as int in {9, 10, 11, 12, 13, 32}
    ensures IsNameStartChar(c) <==>
      65 <= c as int <= 90 || 97 <= c as int <= 122 || c as int in {58, 95} || 128 <= c as int
    ensures IsNameChar(c) <==> IsNameStartChar(c) || 48 <= c as int <= 57 || c as int in {45, 46}
  {
  }
}
