/** What the raw text of an attribute or of a text node stands for, as XML 1.0 puts it (section 2.11 for
    line ends, sections 4.1 and 4.6 for references), and that StrPair::GetStr (tinyxml2.cpp) decodes it so. */
module XmlReading {
  import opened NumberText
  import opened XmlText

  predicate Starts(s: string, prefix: string) {
    |prefix| <= |s| && s[..|prefix|] == prefix
  }

  /** Each line end, of one character or of two different ones, is one line feed; each predefined entity
      is its character; all else stays. */
  function Reading(s: string): string {
    if s == "" then ""
    else if Starts(s, "\r\n") || Starts(s, "\n\r") then "\n" + Reading(s[2..])
    else if s[0] == '\r' || s[0] == '\n' then "\n" + Reading(s[1..])
    else if Starts(s, "&quot;") then "\"" + Reading(s[6..])
    else if Starts(s, "&amp;") then "&" + Reading(s[5..])
    else if Starts(s, "&apos;") then "'" + Reading(s[6..])
    else if Starts(s, "&lt;") then "<" + Reading(s[4..])
    else if Starts(s, "&gt;") then ">" + Reading(s[4..])
    else [s[0]] + Reading(s[1..])
  }

  predicate StartsEntity(s: string) {
    Starts(s, "&quot;") || Starts(s, "&amp;") || Starts(s, "&apos;") || Starts(s, "&lt;") || Starts(s, "&gt;")
  }

  /** Every & starts a predefined entity. */
  predicate Predefined(s: string) {
    forall k :: 0 <= k < |s| && s[k] == '&' ==> StartsEntity(s[k..])
  }

  lemma PredefinedTail(s: string, n: nat)
    requires Predefined(s) && n <= |s|
    ensures Predefined(s[n..])
  {
    hide StartsEntity;
    forall k | 0 <= k < |s[n..]| && s[n..][k] == '&' ensures StartsEntity(s[n..][k..]) {
      assert s[n..][k..] == s[n + k..];
    }
  }

  lemma EntityRead(t: string)
    requires t != "" && t[0] == '&' && StartsEntity(t)
    ensures |t| >= 4 && t[1] != '#'
    ensures EntityAt(t) == Some(EntityCharacter(t))
  {
    SameStart(t, "quot;");
    SameStart(t, "amp;");
    SameStart(t, "apos;");
    SameStart(t, "lt;");
    SameStart(t, "gt;");
    hide HasAt;
    if Starts(t, "&quot;") { assert t[..6][1] == 'q'; }
    if Starts(t, "&amp;") { assert t[..5][1] == 'a'; }
    if Starts(t, "&apos;") { assert t[..6][1] == 'a'; }
    if Starts(t, "&lt;") { assert t[..4][1] == 'l'; }
    if Starts(t, "&gt;") { assert t[..4][1] == 'g'; }
  }

  lemma SameStart(t: string, e: string)
    requires t != "" && t[0] == '&'
    ensures HasAt(t, 1, e) <==> Starts(t, "&" + e)
  {
    if HasAt(t, 1, e) {
      assert t[..1 + |e|] == "&" + t[1..1 + |e|];
    }
    if Starts(t, "&" + e) {
      assert t[1..1 + |e|] == t[..1 + |e|][1..];
    }
  }

  /** One step of the decoder reads what the text starts with. */
  lemma StepReads(t: string, here: char)
    requires t != "" && Predefined(t)
    ensures var step := DecodeStep(t, here); Reading(t) == step.bytes + Reading(t[step.used..])
  {
    hide CharacterRef;
    if t[0] == '&' {
      assert t[0..] == t;
      EntityRead(t);
      EntitySteps(t, here);
    } else {
      hide EntityAt;
      PlainSteps(t, here);
    }
  }

  lemma PlainSteps(t: string, here: char)
    requires t != "" && t[0] != '&'
    ensures var step := DecodeStep(t, here); Reading(t) == step.bytes + Reading(t[step.used..])
  {
    hide EntityAt, CharacterRef;
    NoEntity(t, "&quot;");
    NoEntity(t, "&amp;");
    NoEntity(t, "&apos;");
    NoEntity(t, "&lt;");
    NoEntity(t, "&gt;");
    TwoCharacters(t, "\r\n");
    TwoCharacters(t, "\n\r");
  }

  lemma NoEntity(t: string, e: string)
    requires t != "" && e != ""
    ensures Starts(t, e) ==> t[0] == e[0]
  {
    if Starts(t, e) {
      assert t[..|e|][0] == e[0];
    }
  }

  lemma TwoCharacters(t: string, e: string)
    requires |e| == 2
    ensures Starts(t, e) <==> |t| >= 2 && t[0] == e[0] && t[1] == e[1]
  {
    if |t| >= 2 {
      assert t[..2] == [t[0], t[1]];
      assert e == [e[0], e[1]];
    }
  }

  function EntityCharacter(t: string): char {
    if Starts(t, "&quot;") then '"' else if Starts(t, "&amp;") then '&' else if Starts(t, "&apos;") then '\''
    else if Starts(t, "&lt;") then '<' else '>'
  }

  lemma EntitySteps(t: string, here: char)
    requires t != "" && t[0] == '&' && StartsEntity(t) && |t| >= 4 && t[1] != '#'
    requires EntityAt(t) == Some(EntityCharacter(t))
    ensures var step := DecodeStep(t, here); Reading(t) == step.bytes + Reading(t[step.used..])
  {
    hide DecodeStep, Reading, EntityCharacter, StartsEntity, Pattern;
    EntityStep(t, here);
    EntityReading(t);
  }

  lemma EntityStep(t: string, here: char)
    requires t != "" && t[0] == '&' && |t| >= 4 && t[1] != '#' && EntityAt(t) == Some(EntityCharacter(t))
    ensures DecodeStep(t, here) == Step([EntityCharacter(t)], |Pattern(EntityCharacter(t))| + 2)
  {
    hide EntityAt, CharacterRef, EntityCharacter, Pattern;
  }

  lemma EntityReading(t: string)
    requires t != "" && t[0] == '&' && StartsEntity(t)
    ensures var n := |Pattern(EntityCharacter(t))| + 2;
      n <= |t| && Reading(t) == [EntityCharacter(t)] + Reading(t[n..])
  {
    hide Starts;
    TwoCharacters(t, "\r\n");
    TwoCharacters(t, "\n\r");
    StartsLength(t, "&quot;");
    StartsLength(t, "&amp;");
    StartsLength(t, "&apos;");
    StartsLength(t, "&lt;");
    StartsLength(t, "&gt;");
  }

  lemma StartsLength(t: string, e: string)
    ensures Starts(t, e) ==> |e| <= |t|
  {
  }

  /** Decoding a raw text in which each & starts a predefined entity gives its reading, wherever the read
      and write pointers are. */
  lemma {:induction false} DecodeReads(raw: string, p: nat, out: string)
    requires |out| <= p <= |raw| && Predefined(raw)
    ensures Decode(raw, p, out) == out + Reading(raw[p..])
    decreases |raw| - p
  {
    hide DecodeStep, Reading, Predefined, Decode;
    if p == |raw| {
      DecodeEnds(raw, out);
      NothingRead(raw[p..]);
    } else {
      var step := DecodeStep(raw[p..], raw[|out|]);
      PredefinedTail(raw, p);
      StepReads(raw[p..], raw[|out|]);
      DecodeOn(raw, p, out);
      DecodeReads(raw, p + step.used, out + step.bytes);
      assert raw[p..][step.used..] == raw[p + step.used..];
      assert out + step.bytes + Reading(raw[p + step.used..]) == out + (step.bytes + Reading(raw[p + step.used..]));
    }
  }

  lemma NothingRead(s: string)
    requires s == ""
    ensures Reading(s) == ""
  {
  }

  /** The whole raw text. */
  lemma DecodesToReading(raw: string)
    requires Predefined(raw)
    ensures Decode(raw, 0, "") == Reading(raw)
    ensures '\r' !in Reading(raw)
  {
    hide Decode, Reading;
    DecodeReads(raw, 0, "");
    assert raw[0..] == raw;
    NoCarriageReturn(raw);
  }

  /** What Reading takes off the front, and the character it puts there. */
  lemma ReadingStep(s: string) returns (c: char, n: nat)
    requires s != ""
    ensures 1 <= n <= |s| && c != '\r' && Reading(s) == [c] + Reading(s[n..])
  {
    hide Starts;
    TwoCharacters(s, "\r\n");
    TwoCharacters(s, "\n\r");
    if Starts(s, "\r\n") || Starts(s, "\n\r") {
      c, n := '\n', 2;
    } else if s[0] == '\r' || s[0] == '\n' {
      c, n := '\n', 1;
    } else if StartsEntity(s) {
      c, n := EntityOff(s);
    } else {
      c, n := s[0], 1;
    }
  }

  lemma EntityOff(s: string) returns (c: char, n: nat)
    requires s != "" && StartsEntity(s) && s[0] != '\r' && s[0] != '\n'
    ensures 1 <= n <= |s| && c != '\r' && Reading(s) == [c] + Reading(s[n..])
  {
    TwoCharacters(s, "\r\n");
    TwoCharacters(s, "\n\r");
    c := EntityCharacter(s);
    n := if c == '<' || c == '>' then 4 else if c == '&' then 5 else 6;
  }

  lemma {:induction false} NoCarriageReturn(s: string)
    ensures '\r' !in Reading(s)
    decreases |s|
  {
    hide Reading;
    if s == "" {
      NothingRead(s);
    } else {
      var c, n := ReadingStep(s);
      NoCarriageReturn(s[n..]);
    }
  }

  // ---------------------------------------------------------------- an ampersand by itself

  /** An & that starts nothing known is passed over in place: the result gets the character that the raw
      text has where the result has come to. That is the & itself exactly as long as nothing before
      has become shorter, or if another & happens to stand there. */
  lemma LoneAmpersand(raw: string, p: nat, out: string)
    requires |out| <= p < |raw| && raw[p] == '&' && (p + 1 < |raw| ==> raw[p + 1] != '#') && !StartsEntity(raw[p..])
    ensures Decode(raw, p, out) == Decode(raw, p + 1, out + [raw[|out|]])
  {
    hide Decode, Pattern;
    DecodeOn(raw, p, out);
    var t := raw[p..];
    SameStart(t, "quot;");
    SameStart(t, "amp;");
    SameStart(t, "apos;");
    SameStart(t, "lt;");
    SameStart(t, "gt;");
    hide HasAt, Starts, CharacterRef;
    assert t[0] == '&';
  }

  /** So an & behind an entity can turn into a letter of that entity's name. */
  lemma AmpersandLost()
    ensures Decode("&lt;&x", 0, "") == "<lx"
  {
    hide Decode, Reading, Predefined;
    var s := "&lt;&x";
    EntityFirst(s);
    var t := s[4..];
    assert t == "&x";
    LoneAmpersand(s, 4, "<");
    PlainLast(s, "<l");
    DecodeEnds(s, "<lx");
    assert "<" + [s[1]] == "<l" && "<l" + [s[5]] == "<lx";
  }

  lemma EntityFirst(s: string)
    requires s == "&lt;&x"
    ensures Decode(s, 0, "") == Decode(s, 4, "<")
  {
    hide Decode;
    DecodeOn(s, 0, "");
    assert s[0..] == s && s[..4] == "&lt;" && StartsEntity(s);
    EntityRead(s);
    EntityStep(s, s[0]);
    assert s[..6][1] == 'l' && s[..5][1] == 'l';
    assert "" + ['<'] == "<" && |Pattern('<')| == 2;
  }

  lemma PlainLast(s: string, out: string)
    requires s == "&lt;&x" && |out| == 2
    ensures Decode(s, 5, out) == Decode(s, 6, out + [s[5]])
  {
    hide Decode;
    DecodeOn(s, 5, out);
  }

  /** The line ends of Windows: a CR LF pair is one line feed. */
  lemma WindowsLineEnds()
    ensures Decode("a\r\nb", 0, "") == "a\nb"
  {
    hide Decode;
    var s := "a\r\nb";
    DecodesToReading(s);
    TwoCharacters(s, "\r\n");
    TwoCharacters(s, "\n\r");
    assert s[1..] == "\r\nb" && s[1..][2..] == "b" && "b"[1..] == "";
    assert Reading("b") == "b" by {
      TwoCharacters("b", "\r\n");
      TwoCharacters("b", "\n\r");
    }
    assert Reading("\r\nb") == "\n" + Reading("b");
  }

  // ---------------------------------------------------------------- numeric references

  /** The digits lie in s behind lo. */
  ghost predicate HasDigits(s: string, lo: nat, ds: seq<nat>, upper: bool) {
    && DigitsOf(ds, 16) && lo + |ds| < |s|
    && forall k :: 0 <= k < |ds| ==> s[lo + 1 + k] == DigitChar(ds[k], upper)
  }

  lemma DigitRead(d: nat, upper: bool, hex: bool)
    requires d < if hex then 16 else 10
    ensures DigitOf(DigitChar(d, upper), hex) == Some(d) && DigitChar(d, upper) != '#' && DigitChar(d, upper) != 'x'
  {
  }

  /** The backward loop reads a numeral of any length, as long as it denotes a code point: the cap on the
      multiplier is reached only where the digits are zero. */
  lemma {:induction false} NumeralRead(s: string, lo: nat, ds: seq<nat>, upper: bool, hex: bool, ucs: nat, mult: nat,
          exact: nat)
    requires var base := if hex then 16 else 10;
      && DigitsOf(ds, base) && lo < |s| && s[lo] == (if hex then 'x' else '#') && HasDigits(s, lo, ds, upper)
      && exact > 0 && mult == (if exact > MAX_CODE_POINT then MAX_CODE_POINT else exact)
      && ucs + exact * Positional(ds, base) <= MAX_CODE_POINT
    ensures var base := if hex then 16 else 10;
      CodePoint(s, lo, lo + |ds|, hex, ucs, mult) == Some(ucs + exact * Positional(ds, base))
    decreases |ds|
  {
    hide DigitOf, DigitChar;
    var base := if hex then 16 else 10;
    if ds != [] {
      var front, d := ds[..|ds| - 1], ds[|ds| - 1];
      var q := lo + |ds|;
      assert s[q] == s[lo + 1 + (|ds| - 1)] == DigitChar(d, upper);
      DigitRead(d, upper, hex);
      Split(exact, Positional(front, base), base, d);
      var next := if mult * base > MAX_CODE_POINT then MAX_CODE_POINT else mult * base;
      OneDigitMore(ucs, mult, exact, d, Positional(front, base), base);
      NumeralRead(s, lo, front, upper, hex, ucs + mult * d, next, exact * base);
    }
  }

  lemma Split(exact: nat, front: nat, base: nat, d: nat)
    ensures exact * (front * base + d) == exact * base * front + exact * d
  {
  }

  lemma OneDigitMore(ucs: nat, mult: nat, exact: nat, d: nat, front: nat, base: nat)
    requires exact > 0 && base > 0 && mult == (if exact > MAX_CODE_POINT then MAX_CODE_POINT else exact)
    requires ucs + exact * base * front + exact * d <= MAX_CODE_POINT
    ensures mult * d == exact * d && (ucs + mult * d) % UINT32 == ucs + mult * d
    ensures exact * base > 0
    ensures (if mult * base > MAX_CODE_POINT then MAX_CODE_POINT else mult * base)
      == (if exact * base > MAX_CODE_POINT then MAX_CODE_POINT else exact * base)
  {
    assert exact * base * front >= 0;
    if d > 0 {
      assert exact * d >= exact;
    }
    assert exact * base >= exact;
  }

  /** A numeric reference to a code point gives that code point, in UTF-8. */
  lemma NumericReference(t: string, ds: seq<nat>, upper: bool, hex: bool)
    requires ds != [] && DigitsOf(ds, if hex then 16 else 10)
    requires DigitsOf(ds, 16) && t == (if hex then "&#x" else "&#") + Numeral(ds, upper) + ";"
    requires Positional(ds, if hex then 16 else 10) <= 0x10FFFF
    ensures CharacterRef(t) == Some(Step(Utf8(Positional(ds, if hex then 16 else 10)), |t|))
  {
    hide Utf8, CodePoint, FindChar, Positional;
    var lo := if hex then 2 else 1;
    var digits := Numeral(ds, upper);
    NumeralPlaces(ds, upper);
    assert forall k :: 0 <= k < |ds| ==> t[lo + 1 + k] == digits[k];
    DigitsOnly(t, lo, ds, upper, hex);
    NumeralRead(t, lo, ds, upper, hex, 0, 1, 1);
    FindsSemicolon(t, lo + 1, |t| - 1);
  }

  lemma DigitsOnly(t: string, lo: nat, ds: seq<nat>, upper: bool, hex: bool)
    requires DigitsOf(ds, 16) && ds != [] && lo + 1 + |ds| < |t|
    requires forall k :: 0 <= k < |ds| ==> t[lo + 1 + k] == DigitChar(ds[k], upper)
    ensures HasDigits(t, lo, ds, upper) && t[lo + 1] != 'x' && t[lo + 1] != NUL
    ensures forall k :: lo + 1 <= k < lo + 1 + |ds| ==> t[k] != ';'
  {
    forall k | lo + 1 <= k < lo + 1 + |ds| ensures t[k] != ';' && t[k] != 'x' && t[k] != NUL {
      assert t[lo + 1 + (k - lo - 1)] == DigitChar(ds[k - lo - 1], upper);
      DigitIsNoSign(ds[k - lo - 1], upper);
    }
  }

  lemma DigitIsNoSign(d: nat, upper: bool)
    requires d < 16
    ensures DigitChar(d, upper) != ';' && DigitChar(d, upper) != 'x' && DigitChar(d, upper) != NUL
  {
  }

  lemma {:induction false} NumeralPlaces(ds: seq<nat>, upper: bool)
    requires DigitsOf(ds, 16)
    ensures |Numeral(ds, upper)| == |ds|
    ensures forall k :: 0 <= k < |ds| ==> Numeral(ds, upper)[k] == DigitChar(ds[k], upper)
  {
    hide DigitChar;
    if ds != [] {
      NumeralPlaces(ds[..|ds| - 1], upper);
    }
  }

  lemma {:induction false} FindsSemicolon(t: string, i: nat, j: nat)
    requires i <= j < |t| && t[j] == ';' && forall k :: i <= k < j ==> t[k] != ';'
    ensures FindChar(t, i, ';') == Some(j)
    decreases j - i
  {
    if i < j {
      FindsSemicolon(t, i + 1, j);
    }
  }

  /** What a numeral of any length counts for: the weight of a digit is that of its place, which is exact for the
      last one, but 0x10FFFF at most. */
  function Weighed(ds: seq<nat>, base: nat, exact: nat): nat {
    if ds == [] then 0 else Capped(exact) * ds[|ds| - 1] + Weighed(ds[..|ds| - 1], base, exact * base)
  }

  function Capped(weight: nat): nat {
    if weight > 0x10FFFF then 0x10FFFF else weight
  }

  lemma {:induction false} NumeralWeighed(s: string, lo: nat, ds: seq<nat>, upper: bool, hex: bool, ucs: nat,
          exact: nat)
    requires var base := if hex then 16 else 10;
      && DigitsOf(ds, base) && lo < |s| && s[lo] == (if hex then 'x' else '#') && HasDigits(s, lo, ds, upper)
      && exact > 0 && ucs < 0x1_0000_0000
    ensures var base := if hex then 16 else 10;
      CodePoint(s, lo, lo + |ds|, hex, ucs, Capped(exact)) == Some((ucs + Weighed(ds, base, exact)) % 0x1_0000_0000)
    decreases |ds|
  {
    hide DigitOf, DigitChar, CodePoint, Weighed, Capped;
    var base := if hex then 16 else 10;
    if ds == [] {
      NothingWeighed(s, lo, hex, ucs, base, exact);
    } else {
      var front, d := ds[..|ds| - 1], ds[|ds| - 1];
      var q := lo + |ds|;
      assert s[q] == s[lo + 1 + (|ds| - 1)] == DigitChar(d, upper);
      DigitWeighed(s, lo, q, d, upper, hex, ucs, exact);
      assert exact * base > 0;
      var sum := ucs + Capped(exact) * d;
      NumeralWeighed(s, lo, front, upper, hex, sum % 0x1_0000_0000, exact * base);
      WrapsOnce(sum, Weighed(front, base, exact * base));
      LastWeighed(ds, base, exact);
    }
  }

  lemma LastWeighed(ds: seq<nat>, base: nat, exact: nat)
    requires ds != []
    ensures Weighed(ds, base, exact)
      == Capped(exact) * ds[|ds| - 1] + Weighed(ds[..|ds| - 1], base, exact * base)
  {
  }

  lemma NothingWeighed(s: string, lo: nat, hex: bool, ucs: nat, base: nat, exact: nat)
    requires lo < |s| && s[lo] == (if hex then 'x' else '#') && ucs < 0x1_0000_0000
    ensures CodePoint(s, lo, lo, hex, ucs, Capped(exact)) == Some(ucs) && Weighed([], base, exact) == 0
  {
  }

  lemma DigitWeighed(s: string, lo: nat, q: nat, d: nat, upper: bool, hex: bool, ucs: nat, exact: nat)
    requires lo < q < |s| && s[lo] == (if hex then 'x' else '#') && d < (if hex then 16 else 10) && exact > 0
    requires s[q] == DigitChar(d, upper)
    ensures CodePoint(s, lo, q, hex, ucs, Capped(exact))
      == CodePoint(s, lo, q - 1, hex, (ucs + Capped(exact) * d) % 0x1_0000_0000,
                   Capped(exact * (if hex then 16 else 10)))
  {
    hide DigitOf, DigitChar;
    DigitRead(d, upper, hex);
    NextWeight(exact, if hex then 16 else 10);
  }

  lemma NextWeight(exact: nat, base: nat)
    requires exact > 0 && base > 0
    ensures exact * base > 0 && Capped(Capped(exact) * base) == Capped(exact * base)
  {
    assert exact * base >= exact;
    assert Capped(exact) * base >= Capped(exact);
  }

  lemma WrapsOnce(a: nat, b: nat)
    ensures (a % 0x1_0000_0000 + b) % 0x1_0000_0000 == (a + b) % 0x1_0000_0000
  {
  }

  /** So every numeric reference is read as the number its digits weigh, in 32 bits, or left alone if that is no
      code point. */
  lemma ReferenceExactly(t: string, ds: seq<nat>, upper: bool, hex: bool)
    requires ds != [] && DigitsOf(ds, if hex then 16 else 10)
    requires DigitsOf(ds, 16) && t == (if hex then "&#x" else "&#") + Numeral(ds, upper) + ";"
    ensures var v := Weighed(ds, if hex then 16 else 10, 1) % 0x1_0000_0000;
      CharacterRef(t) == if v <= 0x10FFFF then Some(Step(Utf8(v), |t|)) else None
  {
    hide Utf8, CodePoint, FindChar, Weighed;
    var lo := if hex then 2 else 1;
    var digits := Numeral(ds, upper);
    NumeralPlaces(ds, upper);
    assert forall k :: 0 <= k < |ds| ==> t[lo + 1 + k] == digits[k];
    DigitsOnly(t, lo, ds, upper, hex);
    NumeralWeighed(t, lo, ds, upper, hex, 0, 1);
    FindsSemicolon(t, lo + 1, |t| - 1);
  }

  /** The code point that UTF-8 bytes stand for (RFC 3629, section 3). */
  function CodePointOf(bytes: string): int
    requires 1 <= |bytes| <= 4
  {
    match |bytes|
    case 1 => bytes[0] as int
    case 2 => (bytes[0] as int - 0xC0) * 0x40 + (bytes[1] as int - 0x80)
    case 3 => (bytes[0] as int - 0xE0) * 0x1000 + (bytes[1] as int - 0x80) * 0x40 + (bytes[2] as int - 0x80)
    case _ =>
      (bytes[0] as int - 0xF0) * 0x40000 + (bytes[1] as int - 0x80) * 0x1000
      + (bytes[2] as int - 0x80) * 0x40 + (bytes[3] as int - 0x80)
  }

  /** The bytes written are the shortest that stand for the code point, with a proper lead byte and proper
      continuation bytes. */
  lemma Utf8IsRight(ucs: nat)
    requires ucs <= MAX_CODE_POINT
    ensures var b := Utf8(ucs);
      && CodePointOf(b) == ucs
      && |b| == (if ucs < 0x80 then 1 else if ucs < 0x800 then 2 else if ucs < 0x1_0000 then 3 else 4)
      && (forall k :: 1 <= k < |b| ==> 0x80 <= b[k] as int < 0xC0)
      && (|b| == 2 ==> 0xC0 <= b[0] as int < 0xE0) && (|b| == 3 ==> 0xE0 <= b[0] as int < 0xF0)
      && (|b| == 4 ==> 0xF0 <= b[0] as int < 0xF8)
  {
    if ucs < 0x800 {
    } else if ucs < 0x1_0000 {
      ThreeBytes(ucs);
    } else {
      FourBytes(ucs);
    }
  }

  lemma ThreeBytes(ucs: nat)
    requires ucs < 0x1_0000
    ensures ucs == ucs / 4096 * 0x1000 + ucs / 64 % 64 * 0x40 + ucs % 64 && ucs / 4096 < 16
  {
    assert ucs / 64 / 64 == ucs / 4096;
  }

  lemma FourBytes(ucs: nat)
    requires ucs <= MAX_CODE_POINT
    ensures ucs == ucs / 262144 * 0x40000 + ucs / 4096 % 64 * 0x1000 + ucs / 64 % 64 * 0x40 + ucs % 64
    ensures ucs / 262144 < 8
  {
    assert ucs / 64 / 64 == ucs / 4096 && ucs / 4096 / 64 == ucs / 262144;
  }

  /** But a numeral that is too large can slip through the cap: this one denotes ten million. */
  lemma LongNumeral()
    ensures CharacterRef("&#10000000;") == Some(Step(Utf8(MAX_CODE_POINT), 11))
  {
    hide Utf8;
    var t := "&#10000000;";
    FindsSemicolon(t, 2, 10);
    assert CodePoint(t, 1, 2, false, 0, MAX_CODE_POINT) == Some(MAX_CODE_POINT);
    assert CodePoint(t, 1, 3, false, 0, 1000000) == CodePoint(t, 1, 2, false, 0, MAX_CODE_POINT);
    assert CodePoint(t, 1, 4, false, 0, 100000) == CodePoint(t, 1, 3, false, 0, 1000000);
    assert CodePoint(t, 1, 5, false, 0, 10000) == CodePoint(t, 1, 4, false, 0, 100000);
    assert CodePoint(t, 1, 6, false, 0, 1000) == CodePoint(t, 1, 5, false, 0, 10000);
    assert CodePoint(t, 1, 7, false, 0, 100) == CodePoint(t, 1, 6, false, 0, 1000);
    assert CodePoint(t, 1, 8, false, 0, 10) == CodePoint(t, 1, 7, false, 0, 100);
    assert CodePoint(t, 1, 9, false, 0, 1) == CodePoint(t, 1, 8, false, 0, 10);
  }
}
