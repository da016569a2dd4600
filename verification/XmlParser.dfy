/** The recursive parser of tinyxml2 for elements and text: XMLDocument::Identify,
    XMLNode::ParseDeep, XMLElement::ParseDeep, ParseAttributes, XMLAttribute::ParseDeep and the
    StrPair scans. The functions say what they return, class Document has the methods. */
module XmlParser {
  import opened XmlText

  datatype Attribute = Attribute(name: string, value: string)

  datatype Node =
    | Element(name: string, attributes: seq<Attribute>, children: seq<Node>)
    | Text(value: string)

  datatype XmlError =
    | EmptyDocument
    | ParsingElement
    | ParsingAttribute
    | ParsingText
    | Parsing
    | MismatchedElement
    | DepthExceeded
    | NotModelled  // comments, CDATA, declarations and DTD nodes

  datatype Result<+T> = Ok(value: T) | Err(error: XmlError) {
    predicate IsFailure() { Err? }
    function PropagateFailure<U>(): Result<U>
      requires Err?
    {
      Err(error)
    }
    function Extract(): T
      requires Ok?
    {
      value
    }
  }

  /** The text to parse: it ends where its first NUL would be. */
  type Buffer = s: string | NUL !in s witness ""

  const MAX_ELEMENT_DEPTH := 500

  datatype ClosingType = Open | Closed | Closing

  /** A parsed attribute and the index after it. */
  datatype ParsedAttribute = ParsedAttribute(attribute: Attribute, next: nat)

  /** The rest of a tag after its name. */
  datatype Tail = Tail(attributes: seq<Attribute>, sealed: bool, next: nat)

  datatype Head = Head(name: string, attributes: seq<Attribute>, closing: ClosingType, next: nat)

  /** The end tag a level of nodes ended with: the parent's to check. */
  datatype EndTag = EndTag(name: string, next: nat)

  /** The nodes of a level; no end tag if it ended with the text. */
  datatype Level = Level(children: seq<Node>, stop: Option<EndTag>)

  function SkipWhite(src: string, i: nat): (j: nat)
    requires i <= |src|
    ensures i <= j <= |src|
    ensures forall k :: i <= k < j ==> IsWhiteSpace(src[k])
    ensures j < |src| ==> !IsWhiteSpace(src[j])
    decreases |src| - i
  {
    if i < |src| && IsWhiteSpace(src[i]) then SkipWhite(src, i + 1) else i
  }

  function NameEnd(src: string, i: nat): (j: nat)
    requires i <= |src|
    ensures i <= j <= |src|
    ensures forall k :: i <= k < j ==> IsNameChar(src[k])
    ensures j < |src| ==> !IsNameChar(src[j])
    decreases |src| - i
  {
    if i < |src| && IsNameChar(src[i]) then NameEnd(src, i + 1) else i
  }

  /** The end of the name at i, if there is one. */
  function ParseName(src: string, i: nat): (r: Option<nat>)
    requires i <= |src|
    ensures r.Some? ==> i < r.value <= |src|
  {
    if i < |src| && IsNameStartChar(src[i]) then Some(NameEnd(src, i + 1)) else None
  }

  function ParseAttribute(src: Buffer, i: nat): (r: Option<ParsedAttribute>)
    requires i <= |src|
    ensures r.Some? ==> i < r.value.next <= |src|
  {
    var nameEnd := ParseName(src, i);
    if nameEnd.None? then None
    else
      var eq := SkipWhite(src, nameEnd.value);
      if CharAt(src, eq) != '=' then None
      else
        var quote := SkipWhite(src, eq + 1);
        var q := CharAt(src, quote);
        if q != '\"' && q != '\'' then None
        else
          var end := FindChar(src, quote + 1, q);
          if end.None? then None
          else
            var value := Decode(src[quote + 1..end.value], 0, "");
            Some(ParsedAttribute(Attribute(src[i..nameEnd.value], value), end.value + 1))
  }

  predicate HasAttribute(attributes: seq<Attribute>, name: string) {
    exists k :: 0 <= k < |attributes| && attributes[k].name == name
  }

  /** The loop of ParseAttributes, with the attributes read so far. */
  function ParseAttributes(src: Buffer, i: nat, attributes: seq<Attribute>): (r: Result<Tail>)
    requires i <= |src|
    ensures r.Ok? ==> i < r.value.next <= |src|
    decreases |src| - i
  {
    var j := SkipWhite(src, i);
    if j == |src| then Err(ParsingElement)
    else if IsNameStartChar(src[j]) then
      var a := ParseAttribute(src, j);
      if a.None? || HasAttribute(attributes, a.value.attribute.name) then Err(ParsingAttribute)
      else ParseAttributes(src, a.value.next, attributes + [a.value.attribute])
    else if src[j] == '>' then Ok(Tail(attributes, false, j + 1))
    else if src[j] == '/' && CharAt(src, j + 1) == '>' then Ok(Tail(attributes, true, j + 2))
    else Err(ParsingElement)
  }

  /** The tag whose < is just before i. A tag that starts with a slash closes an element, unless
      it also ends with one. */
  function ParseHead(src: Buffer, i: nat): (r: Result<Head>)
    requires i <= |src|
    ensures r.Ok? ==> i < r.value.next <= |src|
  {
    var j := SkipWhite(src, i);
    var slash := CharAt(src, j) == '/';
    var start := if slash then j + 1 else j;
    var nameEnd := ParseName(src, start);
    if nameEnd.None? then Err(Parsing)
    else
      var tail :- ParseAttributes(src, nameEnd.value, []);
      Ok(Head(src[start..nameEnd.value], tail.attributes,
              if tail.sealed then Closed else if slash then Closing else Open, tail.next))
  }

  /** The loop of XMLNode::ParseDeep at nesting depth depth, with the nodes read so far. */
  function ParseLevel(src: Buffer, i: nat, depth: nat, nodes: seq<Node>): (r: Result<Level>)
    requires i <= |src|
    ensures r.Ok? && r.value.stop.Some? ==> i < r.value.stop.value.next <= |src|
    decreases |src| - i, 0
  {
    var j := SkipWhite(src, i);
    if j == |src| then Ok(Level(nodes, None))
    else if src[j] == '<' then
      if CharAt(src, j + 1) == '?' || CharAt(src, j + 1) == '!' then Err(NotModelled)
      else ParseTag(src, j + 1, depth, nodes)
    else
      var end := FindChar(src, i, '<');
      if end.None? then Err(ParsingText)
      else if end.value + 1 == |src| then Err(Parsing)
      else ParseLevel(src, end.value, depth, nodes + [Text(Decode(src[i..end.value], 0, ""))])
  }

  /** The same, from behind a '<' on: an end tag ends the level. */
  function ParseTag(src: Buffer, i: nat, depth: nat, nodes: seq<Node>): (r: Result<Level>)
    requires i <= |src|
    ensures r.Ok? && r.value.stop.Some? ==> i < r.value.stop.value.next <= |src|
    decreases |src| - i, 2
  {
    var head :- ParseHead(src, i);
    match head.closing
    case Closing => Ok(Level(nodes, Some(EndTag(head.name, head.next))))
    case Closed => ParseLevel(src, head.next, depth, nodes + [Element(head.name, head.attributes, [])])
    case Open =>
      if head.next == |src| then Err(MismatchedElement)
      else
        var inner :- ParseNodes(src, head.next, depth + 1);
        if inner.stop.None? then Err(Parsing)
        else if inner.stop.value.name != head.name then Err(MismatchedElement)
        else
          ParseLevel(src, inner.stop.value.next, depth,
                     nodes + [Element(head.name, head.attributes, inner.children)])
  }

  /** XMLNode::ParseDeep: one more level of nesting, if that is still allowed. */
  function ParseNodes(src: Buffer, i: nat, depth: nat): (r: Result<Level>)
    requires i <= |src|
    ensures r.Ok? && r.value.stop.Some? ==> i < r.value.stop.value.next <= |src|
    decreases |src| - i, 1
  {
    if depth == MAX_ELEMENT_DEPTH then Err(DepthExceeded) else ParseLevel(src, i, depth, [])
  }

  const BOM := [0xef as char, 0xbb as char, 0xbf as char]

  function ReadBOM(src: string, i: nat): (j: nat)
    requires i <= |src|
    ensures i <= j <= |src|
  {
    if HasAt(src, i, BOM) then i + 3 else i
  }

  /** XMLDocument::Parse. A stray end tag at the top ends the document without an error. */
  function ParseDocument(src: Buffer): Result<seq<Node>> {
    var i := ReadBOM(src, SkipWhite(src, 0));
    if i == |src| then Err(EmptyDocument)
    else
      var level :- ParseNodes(src, i, 1);
      Ok(level.children)
  }

  // ---------------------------------------------------------------- the scans

  method SkipWhiteSpace(src: string, start: nat) returns (p: nat)
    requires start <= |src|
    ensures p == SkipWhite(src, start)
  {
    p := start;
    while p < |src| && IsWhiteSpace(src[p])
      invariant start <= p <= |src| && SkipWhite(src, p) == SkipWhite(src, start)
    {
      p := p + 1;
    }
  }

  method ScanName(src: string, start: nat) returns (r: Option<nat>)
    requires start <= |src|
    ensures r == ParseName(src, start)
  {
    if start == |src| || !IsNameStartChar(src[start]) {
      return None;
    }
    var p := start + 1;
    while p < |src| && IsNameChar(src[p])
      invariant start < p <= |src| && NameEnd(src, p) == NameEnd(src, start + 1)
    {
      p := p + 1;
    }
    return Some(p);
  }

  method ScanText(src: string, start: nat, endChar: char) returns (r: Option<nat>)
    requires start <= |src|
    ensures r == FindChar(src, start, endChar)
  {
    var p := start;
    while p < |src|
      invariant start <= p <= |src| && FindChar(src, p, endChar) == FindChar(src, start, endChar)
    {
      if src[p] == endChar {
        return Some(p);
      }
      p := p + 1;
    }
    return None;
  }

  method ScanAttribute(src: Buffer, start: nat) returns (r: Option<ParsedAttribute>)
    requires start <= |src|
    ensures r == ParseAttribute(src, start)
  {
    hide SkipWhite, FindChar, Decode, ParseName, IsNameChar, IsWhiteSpace;
    var nameEnd := ScanName(src, start);
    if nameEnd.None? || nameEnd.value == |src| {
      return None;
    }
    var p := SkipWhiteSpace(src, nameEnd.value);
    if CharAt(src, p) != '=' {
      return None;
    }
    p := SkipWhiteSpace(src, p + 1);
    var quote := CharAt(src, p);
    if quote != '\"' && quote != '\'' {
      return None;
    }
    var end := ScanText(src, p + 1, quote);
    if end.None? {
      return None;
    }
    var value := Decode(src[p + 1..end.value], 0, "");
    return Some(ParsedAttribute(Attribute(src[start..nameEnd.value], value), end.value + 1));
  }

  method FindAttribute(attributes: seq<Attribute>, name: string) returns (found: bool)
    ensures found == HasAttribute(attributes, name)
  {
    found := false;
    var k := 0;
    while k < |attributes| && !found
      invariant k <= |attributes| && (found ==> HasAttribute(attributes, name))
      invariant !found ==> forall m :: 0 <= m < k ==> attributes[m].name != name
      decreases |attributes| - k, !found
    {
      if attributes[k].name == name {
        found := true;
      } else {
        k := k + 1;
      }
    }
  }

  method ScanAttributes(src: Buffer, start: nat) returns (r: Result<Tail>)
    requires start <= |src|
    ensures r == ParseAttributes(src, start, [])
  {
    hide SkipWhite, ParseAttribute, HasAttribute;
    var p := start;
    var attributes: seq<Attribute> := [];
    while true
      invariant p <= |src|
      invariant ParseAttributes(src, p, attributes) == ParseAttributes(src, start, [])
      decreases |src| - p
    {
      var j := SkipWhiteSpace(src, p);
      if j == |src| {
        return Err(ParsingElement);
      }
      if IsNameStartChar(src[j]) {
        var a := ScanAttribute(src, j);
        if a.None? {
          return Err(ParsingAttribute);
        }
        var twice := FindAttribute(attributes, a.value.attribute.name);
        if twice {
          return Err(ParsingAttribute);
        }
        attributes := attributes + [a.value.attribute];
        p := a.value.next;
      } else if src[j] == '>' {
        return Ok(Tail(attributes, false, j + 1));
      } else if src[j] == '/' && CharAt(src, j + 1) == '>' {
        return Ok(Tail(attributes, true, j + 2));
      } else {
        return Err(ParsingElement);
      }
    }
  }

  method ScanHead(src: Buffer, start: nat) returns (r: Result<Head>)
    requires start <= |src|
    ensures r == ParseHead(src, start)
  {
    var p := SkipWhiteSpace(src, start);
    var closing := Open;
    if CharAt(src, p) == '/' {
      closing := Closing;
      p := p + 1;
    }
    var nameEnd := ScanName(src, p);
    if nameEnd.None? {
      return Err(Parsing);
    }
    var tail :- ScanAttributes(src, nameEnd.value);
    if tail.sealed {
      closing := Closed;
    }
    return Ok(Head(src[p..nameEnd.value], tail.attributes, closing, tail.next));
  }

  /** The parts of an XMLDocument that parsing changes. */
  class Document {
    var parsingDepth: nat
    var error: Option<XmlError>

    constructor ()
      ensures parsingDepth == 0 && error == None
    {
      parsingDepth := 0;
      error := None;
    }

    /** What is left of a call whose specification is r: the nodes and the end tag for the parent
        or, where a null pointer is returned, the error that was set. */
    predicate Reports(children: seq<Node>, stop: Option<EndTag>, r: Result<Level>)
      reads this
    {
      match r
      case Err(e) => error == Some(e) && stop == None
      case Ok(level) => error == None && children == level.children && stop == level.stop
    }

    /** XMLNode::ParseDeep. */
    method ParseDeep(src: Buffer, start: nat) returns (children: seq<Node>, stop: Option<EndTag>)
      requires start <= |src| && error == None
      modifies this
      ensures parsingDepth == old(parsingDepth)
      ensures Reports(children, stop, ParseNodes(src, start, parsingDepth + 1))
      decreases |src| - start, 1
    {
      hide ParseHead, SkipWhite, FindChar, Decode, ParseNodes;
      children, stop := [], None;
      parsingDepth := parsingDepth + 1;
      if parsingDepth == MAX_ELEMENT_DEPTH {
        error := Some(DepthExceeded);
      }
      LevelOf(src, start, parsingDepth);
      if error.Some? {
        parsingDepth := parsingDepth - 1;
        return;
      }
      ghost var spec := ParseLevel(src, start, parsingDepth, []);
      var p := start;
      while p < |src|
        invariant start <= p <= |src| && stop == None && error == None
        invariant parsingDepth == old(parsingDepth) + 1
        invariant ParseLevel(src, p, parsingDepth, children) == spec
        decreases |src| - p
      {
        var j := SkipWhiteSpace(src, p);
        if j == |src| {
          break;
        }
        if src[j] == '<' {
          if CharAt(src, j + 1) == '?' || CharAt(src, j + 1) == '!' {
            error := Some(NotModelled);
            break;
          }
          var head, inner, endTag := ParseElement(src, j + 1);
          if error.Some? {
            break;
          }
          if head.closing == Closing {
            stop := Some(EndTag(head.name, head.next));
            break;
          }
          var mismatch := if endTag.None? then head.closing == Open else endTag.value.name != head.name;
          if mismatch {
            error := Some(MismatchedElement);
            break;
          }
          children := children + [Element(head.name, head.attributes, inner)];
          p := if endTag.None? then head.next else endTag.value.next;
        } else {
          var end := ScanText(src, p, '<');
          if end.None? || end.value + 1 == |src| {
            error := Some(if end.None? then ParsingText else Parsing);
            break;
          }
          children := children + [Text(Decode(src[p..end.value], 0, ""))];
          p := end.value;
        }
      }
      parsingDepth := parsingDepth - 1;
    }

    lemma LevelOf(src: Buffer, start: nat, depth: nat)
      requires start <= |src|
      ensures ParseNodes(src, start, depth)
           == if depth == MAX_ELEMENT_DEPTH then Err(DepthExceeded) else ParseLevel(src, start, depth, [])
    {
    }

    /** XMLElement::ParseDeep: the tag at start and, if it opens an element, the nodes up to the
        end tag of some enclosing element. */
    method ParseElement(src: Buffer, start: nat)
      returns (head: Head, inner: seq<Node>, endTag: Option<EndTag>)
      requires start <= |src| && error == None
      modifies this
      ensures parsingDepth == old(parsingDepth)
      ensures match ParseHead(src, start)
        case Err(e) => error == Some(e)
        case Ok(h) =>
          if h.closing != Open || h.next == |src| then error == None && head == h && inner == [] && endTag == None
          else match ParseNodes(src, h.next, parsingDepth + 1)
            case Err(e) => error == Some(e)
            case Ok(level) =>
              if level.stop.None? then error == Some(Parsing)
              else error == None && head == h && inner == level.children && endTag == level.stop
      decreases |src| - start, 0
    {
      hide ParseHead, ParseLevel, ParseNodes;
      inner, endTag := [], None;
      head := Head("", [], Open, start);
      var h := ScanHead(src, start);
      if h.Err? {
        error := Some(h.error);
        return;
      }
      head := h.value;
      if head.closing == Open && head.next < |src| {
        inner, endTag := ParseDeep(src, head.next);
        if endTag.None? && error.None? {
          error := Some(Parsing);
        }
      }
    }

    method Parse(src: Buffer) returns (children: seq<Node>)
      requires parsingDepth == 0 && error == None
      modifies this
      ensures parsingDepth == 0
      ensures ParseDocument(src) == if error.Some? then Err(error.value) else Ok(children)
    {
      hide ParseNodes;
      children := [];
      var p := SkipWhiteSpace(src, 0);
      p := ReadBOM(src, p);
      if p == |src| {
        error := Some(EmptyDocument);
        return;
      }
      var stop;
      children, stop := ParseDeep(src, p);
    }
  }
}
