/** Characters, entities and the lazy decoding of tinyxml2 (tinyxml2.cpp, tinyxml2.h). A char
    stands for one byte of the document. */
module XmlText {

  const NUL := '\0'
  const LF := '\n'
  const CR := '\r'

  datatype Option<+T> = None | Some(value: T)

  /** The buffer ends with a NUL, which is what a pointer to its end reads. */
  function CharAt(src: string, i: nat): char {
    if i < |src| then src[i] else NUL
  }

  predicate IsWhiteSpace(c: char) {
    c == ' ' || 9 <= c as int <= 13
  }

  predicate IsAlpha(c: char) {
    'a' <= c <= 'z' || 'A' <= c <= 'Z'
  }

  predicate IsNameStartChar(c: char) {
    c as int >= 128 || IsAlpha(c) || c == ':' || c == '_'
  }

  predicate IsNameChar(c: char) {
    IsNameStartChar(c) || '0' <= c <= '9' || c == '.' || c == '-'
  }

  // ---------------------------------------------------------------- escaping (XMLPrinter::PrintString)

  /** The entity of a character, without & and ; (XML 1.0 section 4.6). */
  function Pattern(c: char): string {
    match c
    case '\"' => "quot"
    case '&' => "amp"
    case '\'' => "apos"
    case '<' => "lt"
    case '>' => "gt"
    case _ => ""
  }

  /** Text content leaves quotes alone. */
  predicate IsEscaped(c: char, restricted: bool) {
    c == '&' || c == '<' || c == '>' || (!restricted && (c == '\"' || c == '\''))
  }

  function EscapeChar(c: char, restricted: bool): string {
    if IsEscaped(c, restricted) then "&" + Pattern(c) + ";" else [c]
  }

  function Escape(s: string, restricted: bool): string {
    if s == "" then "" else EscapeChar(s[0], restricted) + Escape(s[1..], restricted)
  }

  // ---------------------------------------------------------------- decoding (StrPair::GetStr)

  predicate HasAt(s: string, i: nat, pattern: string) {
    i + |pattern| <= |s| && s[i..i + |pattern|] == pattern
  }

  lemma HasChar(src: string, i: nat, a: string, k: nat)
    requires HasAt(src, i, a) && k < |a|
    ensures i + k < |src| && src[i + k] == a[k]
  {
    assert src[i..i + |a|][k] == a[k];
  }

  /** The predefined entity that t, which starts with an &, starts with; in the order of the
      source's table. */
  function EntityAt(t: string): Option<char> {
    if HasAt(t, 1, "quot;") then Some('\"')
    else if HasAt(t, 1, "amp;") then Some('&')
    else if HasAt(t, 1, "apos;") then Some('\'')
    else if HasAt(t, 1, "lt;") then Some('<')
    else if HasAt(t, 1, "gt;") then Some('>')
    else None
  }

  const MAX_CODE_POINT := 0x10FFFF
  const UINT32 := 0x1_0000_0000

  function DigitOf(c: char, hex: bool): Option<nat> {
    if '0' <= c <= '9' then Some(c as int - '0' as int)
    else if hex && 'a' <= c <= 'f' then Some(c as int - 'a' as int + 10)
    else if hex && 'A' <= c <= 'F' then Some(c as int - 'A' as int + 10)
    else None
  }

  /** The backward loop of GetCharacterRef from q down to the terminator. The multiplier is
      capped and the sum wraps at 32 bits. */
  function CodePoint(s: string, lo: nat, q: nat, hex: bool, ucs: nat, mult: nat): (r: Option<nat>)
    requires lo <= q < |s| && s[lo] == if hex then 'x' else '#'
    ensures r.Some? && q == lo ==> r.value == ucs
    decreases q
  {
    if s[q] == s[lo] then Some(ucs)
    else
      var digit := DigitOf(s[q], hex);
      if digit.None? then None
      else
        var next := mult * (if hex then 16 else 10);
        CodePoint(s, lo, q - 1, hex, (ucs + mult * digit.value) % UINT32,
                  if next > MAX_CODE_POINT then MAX_CODE_POINT else next)
  }

  /** ConvertUTF32ToUTF8 for the code points that reach it. */
  function Utf8(ucs: nat): (bytes: string)
    requires ucs <= MAX_CODE_POINT
    ensures 1 <= |bytes| <= 4 && (ucs < 0x80 ==> |bytes| == 1)
  {
    if ucs < 0x80 then [ucs as char]
    else if ucs < 0x800 then [(0xC0 + ucs / 64) as char, (0x80 + ucs % 64) as char]
    else if ucs < 0x10000 then
      [(0xE0 + ucs / 4096) as char, (0x80 + ucs / 64 % 64) as char, (0x80 + ucs % 64) as char]
    else
      [(0xF0 + ucs / 262144) as char, (0x80 + ucs / 4096 % 64) as char,
       (0x80 + ucs / 64 % 64) as char, (0x80 + ucs % 64) as char]
  }

  /** Bytes to write, and how many characters they replace. */
  datatype Step = Step(bytes: string, used: nat)

  function FindChar(s: string, i: nat, c: char): (r: Option<nat>)
    requires i <= |s|
    ensures r.Some? ==> i <= r.value < |s| && s[r.value] == c && c !in s[i..r.value]
    ensures r.None? ==> c !in s[i..]
    decreases |s| - i
  {
    if i == |s| then None
    else if s[i] == c then Some(i)
    else
      assert s[i..] == [s[i]] + s[i + 1..];
      var r := FindChar(s, i + 1, c);
      assert r.Some? ==> s[i..r.value] == [s[i]] + s[i + 1..r.value];
      r
  }

  /** GetCharacterRef for a text that starts with &#. A reference never grows: it is at least as
      long as the bytes it stands for, which decoding in place needs. */
  function CharacterRef(t: string): (r: Option<Step>)
    requires |t| >= 2 && t[0] == '&' && t[1] == '#'
    ensures r.Some? ==> 0 < r.value.used <= |t| && |r.value.bytes| <= r.value.used
  {
    if CharAt(t, 2) == NUL then Some(Step("", 1))
    else
      var hex := t[2] == 'x';
      var lo := if hex then 2 else 1;
      if CharAt(t, lo + 1) == NUL then None
      else
        var semi := FindChar(t, lo + 1, ';');
        if semi.None? then None
        else
          var ucs := CodePoint(t, lo, semi.value - 1, hex, 0, 1);
          if ucs.None? || ucs.value > MAX_CODE_POINT then None
          else Some(Step(Utf8(ucs.value), semi.value + 1))
  }

  /** One step of the loop of GetStr. t is what is left to read; here is the character at the
      write pointer, which an & that starts no entity leaves in place. */
  function DecodeStep(t: string, here: char): (r: Step)
    requires t != ""
    ensures 0 < r.used <= |t| && |r.bytes| <= r.used
  {
    var c, next := t[0], CharAt(t, 1);
    if c == CR then Step([LF], if next == LF then 2 else 1)
    else if c == LF then Step([LF], if next == CR then 2 else 1)
    else if c != '&' then Step([c], 1)
    else if next == '#' then
      var ref := CharacterRef(t);
      if ref.None? then Step([c], 1) else ref.value
    else
      var entity := EntityAt(t);
      if entity.None? then Step([here], 1)
      else Step([entity.value], |Pattern(entity.value)| + 2)
  }

  /** What GetStr makes of the raw text s, with reading at p and the result so far in out. */
  function Decode(s: string, p: nat, out: string): (r: string)
    requires |out| <= p <= |s|
    ensures |out| <= |r| <= |s| && r[..|out|] == out
    decreases |s| - p
  {
    if p == |s| then out
    else
      var step := DecodeStep(s[p..], s[|out|]);
      var r := Decode(s, p + step.used, out + step.bytes);
      assert r[..|out|] == r[..|out + step.bytes|][..|out|];
      r
  }

  lemma DecodeOn(s: string, p: nat, out: string)
    requires |out| <= p < |s|
    ensures var step := DecodeStep(s[p..], s[|out|]);
      |out + step.bytes| <= p + step.used <= |s| && Decode(s, p, out) == Decode(s, p + step.used, out + step.bytes)
  {
    hide DecodeStep;
  }

  lemma DecodeEnds(s: string, out: string)
    requires |out| <= |s|
    ensures Decode(s, |s|, out) == out
  {
  }

  // ---------------------------------------------------------------- the inverse

  predicate Clean(s: string) {
    NUL !in s && CR !in s
  }

  lemma EscapedCharDecodes(t: string, here: char, c: char, restricted: bool)
    requires HasAt(t, 0, EscapeChar(c, restricted)) && c != CR
    requires c == LF ==> CharAt(t, 1) != CR
    ensures t != "" && DecodeStep(t, here) == Step([c], |EscapeChar(c, restricted)|)
  {
    var e := EscapeChar(c, restricted);
    assert t[0..|e|][0] == e[0];
    if IsEscaped(c, restricted) {
      assert t[1..|e|] == t[0..|e|][1..] == Pattern(c) + ";";
      assert t[0..|e|][1] == e[1];
      EntityFound(t, c);
    }
  }

  lemma EntityFound(t: string, c: char)
    requires Pattern(c) != "" && HasAt(t, 1, Pattern(c) + ";")
    ensures EntityAt(t) == Some(c)
  {
    var e := Pattern(c) + ";";
    HasChar(t, 1, e, 0);
    HasChar(t, 1, e, 1);
    EntityLetters(t);
  }

  /** The first two letters tell the entities apart. */
  lemma EntityLetters(t: string)
    ensures HasAt(t, 1, "quot;") ==> t[1] == 'q'
    ensures HasAt(t, 1, "amp;") ==> t[1] == 'a' && t[2] == 'm'
    ensures HasAt(t, 1, "apos;") ==> t[1] == 'a' && t[2] == 'p'
    ensures HasAt(t, 1, "lt;") ==> t[1] == 'l'
    ensures HasAt(t, 1, "gt;") ==> t[1] == 'g'
  {
    if HasAt(t, 1, "quot;") { HasChar(t, 1, "quot;", 0); }
    if HasAt(t, 1, "amp;") { HasChar(t, 1, "amp;", 0); HasChar(t, 1, "amp;", 1); }
    if HasAt(t, 1, "apos;") { HasChar(t, 1, "apos;", 0); HasChar(t, 1, "apos;", 1); }
    if HasAt(t, 1, "lt;") { HasChar(t, 1, "lt;", 0); }
    if HasAt(t, 1, "gt;") { HasChar(t, 1, "gt;", 0); }
  }

  lemma EscapeCharHasNo(x: char, restricted: bool, c: char)
    requires IsEscaped(c, restricted) && c != '&'
    ensures c !in EscapeChar(x, restricted)
  {
  }

  lemma {:induction false} EscapeHasNo(s: string, restricted: bool, c: char)
    requires IsEscaped(c, restricted) && c != '&'
    ensures c !in Escape(s, restricted)
  {
    hide EscapeChar, IsEscaped;
    if s != "" {
      EscapeCharHasNo(s[0], restricted, c);
      EscapeHasNo(s[1..], restricted, c);
    }
  }

  lemma EscapeCharKeepsAway(x: char, restricted: bool, c: char)
    requires (c == NUL || c == CR) && x != c
    ensures c !in EscapeChar(x, restricted)
  {
  }

  lemma {:induction false} EscapeKeepsAway(s: string, restricted: bool, c: char)
    requires c == NUL || c == CR
    requires c !in s
    ensures c !in Escape(s, restricted)
  {
    hide EscapeChar, IsEscaped;
    if s != "" {
      EscapeCharKeepsAway(s[0], restricted, c);
      EscapeKeepsAway(s[1..], restricted, c);
    }
  }

  /** Decoding undoes escaping, wherever the read and write pointers are. */
  lemma {:induction false} DecodeEscape(raw: string, p: nat, out: string, t: string, restricted: bool)
    requires |out| <= p <= |raw| && raw[p..] == Escape(t, restricted) && Clean(t)
    ensures Decode(raw, p, out) == out + t
    decreases |t|
  {
    hide Escape, Decode, DecodeStep, Clean, EscapeChar;
    if t == "" {
      EscapeOfNothing(raw[p..], restricted);
      DecodeEnds(raw, out);
    } else {
      var n := p + |EscapeChar(t[0], restricted)|;
      EscapedHead(raw[p..], t, restricted);
      assert raw[p..][n - p..] == raw[n..];
      EscapedStep(raw[p..], raw[|out|], t, restricted);
      DecodeOn(raw, p, out);
      CleanTail(t);
      DecodeEscape(raw, n, out + [t[0]], t[1..], restricted);
      assert out + [t[0]] + t[1..] == out + t;
    }
  }

  lemma EscapeOfNothing(s: string, restricted: bool)
    requires s == Escape("", restricted)
    ensures s == ""
  {
  }

  lemma CleanTail(t: string)
    requires Clean(t) && t != ""
    ensures Clean(t[1..])
  {
  }

  lemma EscapedHead(s: string, t: string, restricted: bool)
    requires s == Escape(t, restricted) && t != ""
    ensures var e := EscapeChar(t[0], restricted);
      0 < |e| <= |s| && HasAt(s, 0, e) && s[|e|..] == Escape(t[1..], restricted)
  {
    hide EscapeChar;
    EscapeNonempty(t[0], restricted);
  }

  lemma EscapedStep(s: string, here: char, t: string, restricted: bool)
    requires s == Escape(t, restricted) && t != "" && Clean(t)
    ensures s != "" && DecodeStep(s, here) == Step([t[0]], |EscapeChar(t[0], restricted)|)
  {
    hide Escape, DecodeStep, EscapeChar;
    EscapedHead(s, t, restricted);
    EscapeKeepsAway(t, restricted, CR);
    EscapedCharDecodes(s, here, t[0], restricted);
  }

  lemma EscapeNonempty(c: char, restricted: bool)
    ensures |EscapeChar(c, restricted)| > 0
  {
  }

  // ---------------------------------------------------------------- decoding in place

  /** The buffer when GetStr has read from was up to some point and written out: out, then the
      characters not yet overwritten, then a NUL at end; the same as was elsewhere. */
  ghost predicate Rewritten(now: seq<char>, was: seq<char>, start: nat, end: nat, out: string)
    requires start <= end < |was|
  {
    var q := start + |out|;
    && |now| == |was| && q <= end
    && now[..start] == was[..start] && now[start..q] == out && now[q..end] == was[q..end]
    && now[end] == NUL && now[end + 1..] == was[end + 1..]
  }

  /** The body of the loop of GetStr: one step, read at p and written at q. */
  method Advance(buf: array<char>, start: nat, end: nat, p: nat, q: nat, ghost was: seq<char>, ghost out: string)
    returns (p': nat, q': nat, ghost out': string)
    requires start <= p < end < |was| && q == start + |out| <= p && buf.Length == |was|
    requires Rewritten(buf[..], was, start, end, out)
    modifies buf
    ensures p < p' <= end && q' == start + |out'| <= p'
    ensures Rewritten(buf[..], was, start, end, out')
    ensures Decode(was[start..end], p' - start, out') == Decode(was[start..end], p - start, out)
  {
    hide DecodeStep, Rewritten, Decode;
    ghost var before := buf[..];
    Untouched(before, was, start, end, out, p);
    var step := StepAt(buf, p, q, end);
    WriteAt(buf, q, step.bytes);
    Advanced(before, buf[..], was, start, end, out, p, step);
    return p + step.used, q + |step.bytes|, out + step.bytes;
  }

  lemma Advanced(before: seq<char>, now: seq<char>, was: seq<char>, start: nat, end: nat, out: string, p: nat,
          step: Step)
    requires start <= end < |was| && Rewritten(before, was, start, end, out) && start + |out| <= p < end
    requires |before| == |was| && step == DecodeStep(before[p..end], before[start + |out|])
    requires now == before[..start + |out|] + step.bytes + before[start + |out| + |step.bytes|..]
    ensures start + |out + step.bytes| <= p + step.used <= end
    ensures Rewritten(now, was, start, end, out + step.bytes)
    ensures Decode(was[start..end], p + step.used - start, out + step.bytes) == Decode(was[start..end], p - start, out)
  {
    hide DecodeStep, Rewritten, Decode;
    Untouched(before, was, start, end, out, p);
    DecodeOn(was[start..end], p - start, out);
    Extend(before, now, was, start, end, out, step.bytes);
  }

  /** GetStr on the characters from start to end of the document's buffer: the decoded text
      replaces the raw text, ends with a NUL, and nothing outside is touched. */
  method GetStr(buf: array<char>, start: nat, end: nat) returns (q: nat)
    requires start <= end < buf.Length
    modifies buf
    ensures var value := Decode(old(buf[start..end]), 0, "");
      q == start + |value| <= end && buf[start..q] == value && buf[q] == NUL
    ensures buf[..start] == old(buf[..start]) && buf[end + 1..] == old(buf[end + 1..])
  {
    hide DecodeStep, Rewritten, Decode;
    ghost var was := buf[..];
    ghost var raw := was[start..end];
    buf[end] := NUL;
    var p := start;
    q := start;
    ghost var out := "";
    Unwritten(buf[..], was, start, end);
    while p < end
      invariant start <= p <= end && q == start + |out| <= p
      invariant Rewritten(buf[..], was, start, end, out)
      invariant Decode(raw, p - start, out) == Decode(raw, 0, "")
      decreases end - p
    {
      p, q, out := Advance(buf, start, end, p, q, was, out);
    }
    DecodeEnds(raw, out);
    ghost var before := buf[..];
    Lengths(before, was, start, end, out);
    buf[q] := NUL;
    assert buf[..] == before[q := NUL];
    Finished(before, buf[..], was, start, end, out);
  }

  lemma Lengths(now: seq<char>, was: seq<char>, start: nat, end: nat, out: string)
    requires start <= end < |was| && Rewritten(now, was, start, end, out)
    ensures |now| == |was| && start + |out| <= end
  {
  }

  lemma Unwritten(now: seq<char>, was: seq<char>, start: nat, end: nat)
    requires start <= end < |was| && now == was[end := NUL]
    ensures Rewritten(now, was, start, end, "")
  {
  }

  lemma Finished(before: seq<char>, now: seq<char>, was: seq<char>, start: nat, end: nat, out: string)
    requires start <= end < |was| && Rewritten(before, was, start, end, out)
    requires now == before[start + |out| := NUL]
    ensures now[start..start + |out|] == out
    ensures now[..start] == was[..start] && now[end + 1..] == was[end + 1..]
  {
    assert now[start..start + |out|] == before[start..start + |out|];
    assert now[end + 1..] == before[end + 1..];
    assert now[..start] == before[..start];
  }

  /** What is still to be read is as it was, and so is the character at the write pointer. */
  lemma Untouched(now: seq<char>, was: seq<char>, start: nat, end: nat, out: string, p: nat)
    requires start <= end < |was| && Rewritten(now, was, start, end, out) && start + |out| <= p < end
    ensures |now| == |was| && now[end] == NUL
    ensures now[p..end] == was[start..end][p - start..] && now[start + |out|] == was[start..end][|out|]
  {
    var q := start + |out|;
    assert now[p..end] == now[q..end][p - q..] == was[q..end][p - q..] == was[start..end][p - start..];
    assert now[q] == now[q..end][0] == was[q..end][0];
  }

  lemma Extend(before: seq<char>, now: seq<char>, was: seq<char>, start: nat, end: nat, out: string, bytes: string)
    requires start <= end < |was| && Rewritten(before, was, start, end, out)
    requires start + |out| + |bytes| <= end
    requires now == before[..start + |out|] + bytes + before[start + |out| + |bytes|..]
    ensures Rewritten(now, was, start, end, out + bytes)
  {
    var q := start + |out|;
    var r := q + |bytes|;
    assert now[start..r] == before[start..q] + bytes;
    assert now[r..end] == before[r..end] == before[q..end][|bytes|..] == was[r..end];
    assert now[end + 1..] == before[end + 1..] && now[..start] == before[..start];
  }

  method WriteAt(buf: array<char>, q: nat, bytes: string)
    requires q + |bytes| <= buf.Length
    modifies buf
    ensures buf[..] == old(buf[..])[..q] + bytes + old(buf[..])[q + |bytes|..]
  {
    ghost var was := buf[..];
    var k := 0;
    assert was == was[..q] + bytes[..k] + was[q + k..];
    while k < |bytes|
      invariant k <= |bytes|
      invariant buf[..] == was[..q] + bytes[..k] + was[q + k..]
    {
      ghost var now := buf[..];
      buf[q + k] := bytes[k];
      assert buf[..] == now[q + k := bytes[k]];
      OneWritten(was, q, bytes, k);
      k := k + 1;
    }
    assert bytes[..k] == bytes;
  }

  lemma OneWritten(was: seq<char>, q: nat, bytes: string, k: nat)
    requires q + |bytes| <= |was| && k < |bytes|
    ensures (was[..q] + bytes[..k] + was[q + k..])[q + k := bytes[k]] == was[..q] + bytes[..k + 1] + was[q + k + 1..]
  {
  }

  /** The branches of the loop of GetStr, reading the buffer at its two pointers. */
  method StepAt(buf: array<char>, p: nat, q: nat, end: nat) returns (r: Step)
    requires q <= p < end < buf.Length && buf[end] == NUL
    ensures r == DecodeStep(buf[..][p..end], buf[..][q])
  {
    hide CharacterRef, EntityAt;
    assert buf[..][p..end] == buf[p..end];
    assert CharAt(buf[p..end], 1) == buf[p + 1];
    if buf[p] == CR {
      r := Step([LF], if buf[p + 1] == LF then 2 else 1);
    } else if buf[p] == LF {
      r := Step([LF], if buf[p + 1] == CR then 2 else 1);
    } else if buf[p] == '&' {
      if buf[p + 1] == '#' {
        var ref := CharacterRef(buf[p..end]);
        r := if ref.None? then Step(['&'], 1) else ref.value;
      } else {
        var entity := EntityAt(buf[p..end]);
        r := if entity.None? then Step([buf[q]], 1) else Step([entity.value], |Pattern(entity.value)| + 2);
      }
    } else {
      r := Step([buf[p]], 1);
    }
  }
}
