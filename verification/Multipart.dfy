/** The codec that puts the parts of a multipart message into one buffer (zmq_addon.hpp). */
module Multipart {

  datatype Result<+T> = Ok(value: T) | RangeError | OutOfRange

  type Byte = x: int | 0 <= x < 256 witness 0

  const MAX_UINT8 := 0xFF
  const MAX_UINT32 := 0xFFFF_FFFF

  // ---------------------------------------------------------------- sizes of four bytes

  /** The most significant byte comes first. */
  function NetworkOrder(value: nat): (r: seq<Byte>)
    requires value <= MAX_UINT32
    ensures |r| == 4
  {
    [value / 0x100_0000, value / 0x1_0000 % 0x100, value / 0x100 % 0x100, value % 0x100]
  }

  function FromNetworkOrder(b: seq<Byte>): (r: nat)
    requires |b| == 4
    ensures r <= MAX_UINT32
  {
    Number(b[0], b[1], b[2], b[3])
  }

  function Number(b0: nat, b1: nat, b2: nat, b3: nat): nat {
    b0 * 0x100_0000 + b1 * 0x1_0000 + b2 * 0x100 + b3
  }

  lemma LastDigit(value: nat, rest: nat, digit: nat)
    requires digit < 0x100
    ensures value == 0x100 * rest + digit <==> rest == value / 0x100 && digit == value % 0x100
  {
  }

  lemma DigitsInverse(value: nat, b0: nat, b1: nat, b2: nat, b3: nat)
    requires b0 < 0x100 && b1 < 0x100 && b2 < 0x100 && b3 < 0x100
    ensures value == Number(b0, b1, b2, b3) <==>
      (b0 == value / 0x100_0000 && b1 == value / 0x1_0000 % 0x100 && b2 == value / 0x100 % 0x100 && b3 == value % 0x100)
  {
    ShiftTwice(value);
    LastDigit(value, 0x100 * (0x100 * b0 + b1) + b2, b3);
    LastDigit(value / 0x100, 0x100 * b0 + b1, b2);
    LastDigit(value / 0x1_0000, b0, b1);
    assert Number(b0, b1, b2, b3) == 0x100 * (0x100 * (0x100 * b0 + b1) + b2) + b3;
  }

  lemma ShiftTwice(value: nat)
    ensures value / 0x100 / 0x100 == value / 0x1_0000 && value / 0x1_0000 / 0x100 == value / 0x100_0000
  {
    var q1, q2, q3 := value / 0x100, value / 0x1_0000, value / 0x100_0000;
    assert 0x100 * q2 <= q1 < 0x100 * q2 + 0x100;
    assert 0x100 * q3 <= q2 < 0x100 * q3 + 0x100;
  }

  lemma NetworkOrderInverse(value: nat, b: seq<Byte>)
    requires value <= MAX_UINT32 && |b| == 4
    ensures NetworkOrder(value) == b <==> value == FromNetworkOrder(b)
  {
    hide Number;
    DigitsInverse(value, b[0], b[1], b[2], b[3]);
    assert b == [b[0], b[1], b[2], b[3]];
  }

  // ---------------------------------------------------------------- what the format is

  /** A block is a part with its size before it: one byte for a small part, 0xFF and four bytes
      for a part of any size, the most significant first. */
  predicate IsBlock(block: seq<Byte>, part: seq<Byte>) {
    || (|part| < 0xFF && block == [|part|] + part)
    || (|block| >= 5 && block[0] == 0xFF && block[5..] == part
        && |part| == (block[1] as int) * 0x100_0000 + (block[2] as int) * 0x1_0000 + (block[3] as int) * 0x100
                     + block[4] as int)
  }

  lemma LongBlock(block: seq<Byte>, part: seq<Byte>)
    ensures |part| <= MAX_UINT32 && block == [MAX_UINT8] + NetworkOrder(|part|) + part <==>
      |block| >= 5 && block[0] == 0xFF && block[5..] == part
        && |part| == (block[1] as int) * 0x100_0000 + (block[2] as int) * 0x1_0000 + (block[3] as int) * 0x100
                     + block[4] as int
  {
    hide NetworkOrder;
    if |block| >= 5 && block[0] == 0xFF && block[5..] == part {
      var size := block[1..5];
      assert block == [MAX_UINT8] + size + part;
      if |part| <= MAX_UINT32 {
        NetworkOrderInverse(|part|, size);
      }
      if |part| <= MAX_UINT32 && block == [MAX_UINT8] + NetworkOrder(|part|) + part {
        assert size == ([MAX_UINT8] + NetworkOrder(|part|) + part)[1..5] == NetworkOrder(|part|);
      }
    }
  }

  function Joined(blocks: seq<seq<Byte>>): seq<Byte> {
    if blocks == [] then [] else blocks[0] + Joined(blocks[1..])
  }

  /** The bytes are blocks of the parts, and nothing else. */
  ghost predicate IsMessage(bytes: seq<Byte>, parts: seq<seq<Byte>>) {
    exists blocks: seq<seq<Byte>> ::
      && |blocks| == |parts| && Joined(blocks) == bytes
      && forall i :: 0 <= i < |parts| ==> IsBlock(blocks[i], parts[i])
  }

  // ---------------------------------------------------------------- encode

  predicate Encodable(parts: seq<seq<Byte>>) {
    forall i :: 0 <= i < |parts| ==> |parts[i]| <= MAX_UINT32
  }

  function Header(size: nat): (r: seq<Byte>)
    requires size <= MAX_UINT32
    ensures |r| == if size < MAX_UINT8 then 1 else 5
  {
    if size < MAX_UINT8 then [size] else [MAX_UINT8] + NetworkOrder(size)
  }

  function Encoded(parts: seq<seq<Byte>>): seq<Byte>
    requires Encodable(parts)
  {
    if parts == [] then [] else Header(|parts[0]|) + parts[0] + Encoded(parts[1..])
  }

  lemma {:induction false} EncodedAppend(parts: seq<seq<Byte>>, part: seq<Byte>)
    requires Encodable(parts) && |part| <= MAX_UINT32
    ensures Encodable(parts + [part]) && Encoded(parts + [part]) == Encoded(parts) + Header(|part|) + part
    decreases |parts|
  {
    hide Header;
    var more := parts + [part];
    if parts == [] {
      assert more == [part];
      assert Encoded(more) == Header(|part|) + part + Encoded([]);
    } else {
      assert more[1..] == parts[1..] + [part];
      EncodedAppend(parts[1..], part);
    }
  }

  lemma EncodedPrefix(parts: seq<seq<Byte>>, i: nat)
    requires Encodable(parts) && i < |parts|
    ensures Encodable(parts[..i]) && Encodable(parts[..i + 1])
    ensures Encoded(parts[..i + 1]) == Encoded(parts[..i]) + Header(|parts[i]|) + parts[i]
  {
    assert parts[..i + 1] == parts[..i] + [parts[i]];
    EncodedAppend(parts[..i], parts[i]);
  }

  lemma {:induction false} EncodedGrows(parts: seq<seq<Byte>>, i: nat)
    requires Encodable(parts) && i <= |parts|
    ensures Encodable(parts[..i]) && |Encoded(parts[..i])| <= |Encoded(parts)|
    decreases |parts| - i
  {
    if i < |parts| {
      EncodedGrows(parts, i + 1);
      EncodedPrefix(parts, i);
    } else {
      assert parts[..i] == parts;
    }
  }

  /** b with the bytes from at on overwritten. */
  function Overwritten(b: seq<Byte>, at: nat, bytes: seq<Byte>): seq<Byte>
    requires at + |bytes| <= |b|
  {
    b[..at] + bytes + b[at + |bytes|..]
  }

  method WriteNetworkOrder(buf: array<Byte>, at: nat, value: nat)
    requires value <= MAX_UINT32 && at + 4 <= buf.Length
    modifies buf
    ensures buf[..] == Overwritten(old(buf[..]), at, NetworkOrder(value))
  {
    buf[at] := value / 0x100_0000;
    buf[at + 1] := value / 0x1_0000 % 0x100;
    buf[at + 2] := value / 0x100 % 0x100;
    buf[at + 3] := value % 0x100;
  }

  /** std::memcpy into the buffer. */
  method Copy(buf: array<Byte>, at: nat, bytes: seq<Byte>)
    requires at + |bytes| <= buf.Length
    modifies buf
    ensures buf[..] == Overwritten(old(buf[..]), at, bytes)
  {
    hide Overwritten;
    ghost var was := buf[..];
    OverwrittenStarts(was, at, bytes);
    for k := 0 to |bytes|
      invariant buf[..] == Overwritten(was, at, bytes[..k])
    {
      ghost var now := buf[..];
      OverwrittenMore(was, at, bytes, k);
      buf[at + k] := bytes[k];
      assert buf[..] == now[at + k := bytes[k]];
    }
    assert bytes[..|bytes|] == bytes;
  }

  lemma OverwrittenStarts(b: seq<Byte>, at: nat, bytes: seq<Byte>)
    requires at + |bytes| <= |b|
    ensures Overwritten(b, at, bytes[..0]) == b
  {
  }

  lemma OverwrittenMore(b: seq<Byte>, at: nat, bytes: seq<Byte>, k: nat)
    requires at + |bytes| <= |b| && k < |bytes|
    ensures |Overwritten(b, at, bytes[..k])| == |b|
    ensures Overwritten(b, at, bytes[..k])[at + k := bytes[k]] == Overwritten(b, at, bytes[..k + 1])
  {
  }

  /** The first pass of encode. */
  method EncodedSize(parts: seq<seq<Byte>>) returns (r: Result<nat>)
    ensures r == if Encodable(parts) then Ok(|Encoded(parts)|) else RangeError
    ensures r.RangeError? <==> exists i :: 0 <= i < |parts| && 0xFFFF_FFFF < |parts[i]|
  {
    var size := 0;
    for i := 0 to |parts|
      invariant Encodable(parts[..i]) && size == |Encoded(parts[..i])|
    {
      var partSize := |parts[i]|;
      if partSize > MAX_UINT32 {
        return RangeError;
      }
      EncodedAppend(parts[..i], parts[i]);
      assert parts[..i + 1] == parts[..i] + [parts[i]];
      size := size + partSize + if partSize < MAX_UINT8 then 1 else 5;
    }
    assert parts[..|parts|] == parts;
    return Ok(size);
  }

  /** Writes one part with its size, and gives the place behind it. */
  method WritePart(buf: array<Byte>, at: nat, part: seq<Byte>) returns (next: nat)
    requires |part| <= MAX_UINT32 && at + |Header(|part|)| + |part| <= buf.Length
    modifies buf
    ensures next == at + |Header(|part|)| + |part|
    ensures buf[..next] == old(buf[..at]) + Header(|part|) + part
  {
    next := at;
    if |part| < MAX_UINT8 {
      buf[next] := |part|;
      next := next + 1;
    } else {
      buf[next] := MAX_UINT8;
      next := next + 1;
      WriteNetworkOrder(buf, next, |part|);
      next := next + 4;
    }
    assert buf[..next] == old(buf[..at]) + Header(|part|);
    Copy(buf, next, part);
    next := next + |part|;
  }

  /** encode: throws if a part is too large; otherwise the buffer is filled exactly. */
  method Encode(parts: seq<seq<Byte>>) returns (r: Result<array<Byte>>)
    ensures r.RangeError? <==> exists i :: 0 <= i < |parts| && 0xFFFF_FFFF < |parts[i]|
    ensures r.Ok? <==> Encodable(parts)
    ensures r.Ok? ==> fresh(r.value) && r.value[..] == Encoded(parts)
  {
    var size := EncodedSize(parts);
    if size.RangeError? {
      return RangeError;
    }
    var encoded := new Byte[size.value];
    var buf := 0;
    for i := 0 to |parts|
      invariant Encodable(parts[..i]) && buf == |Encoded(parts[..i])| <= encoded.Length
      invariant encoded[..buf] == Encoded(parts[..i])
    {
      EncodedPrefix(parts, i);
      EncodedGrows(parts, i + 1);
      buf := WritePart(encoded, buf, parts[i]);
    }
    assert parts[..|parts|] == parts;
    assert encoded[..buf] == encoded[..];
    return Ok(encoded);
  }

  // ---------------------------------------------------------------- decode

  /** The part at the front and what comes behind it. */
  function DecodeOne(bytes: seq<Byte>): (r: Result<(seq<Byte>, seq<Byte>)>)
    requires bytes != []
    ensures r.Ok? ==> |r.value.1| < |bytes|
  {
    if bytes[0] == MAX_UINT8 then
      if |bytes| - 1 < 4 then OutOfRange
      else
        var size := FromNetworkOrder(bytes[1..5]);
        if |bytes| - 5 < size then OutOfRange else Ok((bytes[5..5 + size], bytes[5 + size..]))
    else
      var size := bytes[0];
      if |bytes| - 1 < size then OutOfRange else Ok((bytes[1..1 + size], bytes[1 + size..]))
  }

  function Decoded(bytes: seq<Byte>): (r: Result<seq<seq<Byte>>>)
    ensures !r.RangeError?
    decreases |bytes|
  {
    if bytes == [] then Ok([])
    else
      match DecodeOne(bytes)
      case Ok((part, rest)) => (
        match Decoded(rest)
        case Ok(parts) => Ok([part] + parts)
        case _ => OutOfRange)
      case _ => OutOfRange
  }

  function ReadNetworkOrder(encoded: array<Byte>, at: nat): (r: nat)
    requires at + 4 <= encoded.Length
    reads encoded
    ensures r == FromNetworkOrder(encoded[at..at + 4])
  {
    Number(encoded[at], encoded[at + 1], encoded[at + 2], encoded[at + 3])
  }

  /** Prepends parts that were read before. */
  function After(parts: seq<seq<Byte>>, r: Result<seq<seq<Byte>>>): Result<seq<seq<Byte>>> {
    match r
    case Ok(more) => Ok(parts + more)
    case _ => r
  }

  /** One part at source; the place behind it does not pass the end of the buffer. */
  method ReadPart(encoded: array<Byte>, from: nat) returns (r: Result<seq<Byte>>, source: nat)
    requires from < encoded.Length
    ensures r.Ok? ==> from < source <= encoded.Length && DecodeOne(encoded[from..]) == Ok((r.value, encoded[source..]))
    ensures !r.Ok? ==> r == OutOfRange && DecodeOne(encoded[from..]) == OutOfRange
  {
    hide FromNetworkOrder;
    var limit := encoded.Length;
    ghost var bytes := encoded[from..];
    assert bytes[0] == encoded[from];
    source := from;
    var partSize: nat := encoded[source];
    source := source + 1;
    if partSize == MAX_UINT8 {
      if limit - source < 4 {
        return OutOfRange, source;
      }
      partSize := ReadNetworkOrder(encoded, source);
      PartAt(encoded[..], from, 1, 4);
      source := source + 4;
    }
    if limit - source < partSize {
      return OutOfRange, source;
    }
    var part := encoded[source..source + partSize];
    PartAt(encoded[..], from, source - from, partSize);
    source := source + partSize;
    return Ok(part), source;
  }

  lemma PartAt(encoded: seq<Byte>, from: nat, skip: nat, size: nat)
    requires from + skip + size <= |encoded|
    ensures encoded[from..][skip..skip + size] == encoded[from + skip..from + skip + size]
    ensures encoded[from..][skip + size..] == encoded[from + skip + size..]
  {
  }

  /** decode: gives all parts, or throws. */
  method Decode(encoded: array<Byte>) returns (r: Result<seq<seq<Byte>>>)
    ensures r == Decoded(encoded[..])
  {
    hide DecodeOne, After;
    var out: seq<seq<Byte>> := [];
    var source, limit := 0, encoded.Length;
    assert encoded[0..] == encoded[..];
    AfterNone(Decoded(encoded[..]));
    while source < limit
      invariant source <= limit
      invariant After(out, Decoded(encoded[source..])) == Decoded(encoded[..])
    {
      ghost var bytes := encoded[source..];
      var part;
      part, source := ReadPart(encoded, source);
      if !part.Ok? {
        AfterFailure(out, bytes);
        return OutOfRange;
      }
      DecodedOne(out, bytes, part.value, encoded[source..]);
      out := out + [part.value];
    }
    assert encoded[source..] == [];
    AfterAll(out);
    return Ok(out);
  }

  lemma AfterNone(r: Result<seq<seq<Byte>>>)
    ensures After([], r) == r
  {
    if r.Ok? {
      assert [] + r.value == r.value;
    }
  }

  lemma AfterAll(parts: seq<seq<Byte>>)
    ensures After(parts, Ok([])) == Ok(parts)
  {
    assert parts + [] == parts;
  }

  lemma AfterFailure(parts: seq<seq<Byte>>, bytes: seq<Byte>)
    requires bytes != [] && DecodeOne(bytes) == OutOfRange
    ensures After(parts, Decoded(bytes)) == OutOfRange
  {
  }

  lemma DecodedOne(out: seq<seq<Byte>>, bytes: seq<Byte>, part: seq<Byte>, rest: seq<Byte>)
    requires bytes != [] && DecodeOne(bytes) == Ok((part, rest))
    ensures After(out, Decoded(bytes)) == After(out + [part], Decoded(rest))
  {
    match Decoded(rest)
    case Ok(parts) => assert out + ([part] + parts) == out + [part] + parts;
    case _ =>
  }

  // ---------------------------------------------------------------- the two together

  /** A block is decoded to its part, whatever follows. */
  lemma BlockDecodes(block: seq<Byte>, part: seq<Byte>, rest: seq<Byte>)
    requires IsBlock(block, part)
    ensures block + rest != [] && DecodeOne(block + rest) == Ok((part, rest))
  {
    var bytes := block + rest;
    LongBlock(block, part);
    if |part| < MAX_UINT8 && block == [|part|] + part {
      assert bytes == [|part|] + part + rest;
      assert bytes[1..1 + |part|] == part && bytes[1 + |part|..] == rest;
    } else {
      assert bytes == [MAX_UINT8] + NetworkOrder(|part|) + part + rest;
      assert bytes[1..5] == NetworkOrder(|part|);
      NetworkOrderInverse(|part|, bytes[1..5]);
      assert bytes[5..5 + |part|] == part && bytes[5 + |part|..] == rest;
    }
  }

  lemma DecodedBlock(bytes: seq<Byte>)
    requires bytes != [] && DecodeOne(bytes).Ok?
    ensures var (part, rest) := DecodeOne(bytes).value;
      IsBlock(bytes[..|bytes| - |rest|], part) && bytes == bytes[..|bytes| - |rest|] + rest
  {
    hide NetworkOrder, FromNetworkOrder;
    var (part, rest) := DecodeOne(bytes).value;
    if bytes[0] == MAX_UINT8 {
      NetworkOrderInverse(|part|, bytes[1..5]);
      assert bytes[..5] == [MAX_UINT8] + bytes[1..5];
      Cut(bytes, 5, |part|);
      LongBlock(bytes[..|bytes| - |rest|], part);
    } else {
      assert bytes[..1] == [bytes[0]];
      Cut(bytes, 1, |part|);
    }
  }

  lemma Cut(bytes: seq<Byte>, head: nat, size: nat)
    requires head + size <= |bytes|
    ensures bytes[..head + size] == bytes[..head] + bytes[head..head + size]
    ensures bytes == bytes[..head + size] + bytes[head + size..]
  {
  }

  lemma {:induction false} BlocksDecode(blocks: seq<seq<Byte>>, parts: seq<seq<Byte>>)
    requires |blocks| == |parts| && forall i :: 0 <= i < |parts| ==> IsBlock(blocks[i], parts[i])
    ensures Decoded(Joined(blocks)) == Ok(parts)
    decreases |blocks|
  {
    hide IsBlock, DecodeOne;
    if blocks != [] {
      BlockDecodes(blocks[0], parts[0], Joined(blocks[1..]));
      BlocksDecode(blocks[1..], parts[1..]);
      assert parts == [parts[0]] + parts[1..];
    }
  }

  lemma {:induction false} DecodedBlocks(bytes: seq<Byte>) returns (blocks: seq<seq<Byte>>)
    requires Decoded(bytes).Ok?
    ensures var parts := Decoded(bytes).value;
      && |blocks| == |parts| && Joined(blocks) == bytes && forall i :: 0 <= i < |parts| ==> IsBlock(blocks[i], parts[i])
    decreases |bytes|
  {
    hide IsBlock, DecodeOne;
    if bytes == [] {
      blocks := [];
    } else {
      DecodedBlock(bytes);
      var (part, rest) := DecodeOne(bytes).value;
      var more := DecodedBlocks(rest);
      blocks := [bytes[..|bytes| - |rest|]] + more;
      assert blocks[1..] == more;
    }
  }

  /** decode returns these parts if and only if the bytes are blocks of these parts; in all other
      cases it throws. */
  lemma DecodesExactly(bytes: seq<Byte>, parts: seq<seq<Byte>>)
    ensures Decoded(bytes) == Ok(parts) <==> IsMessage(bytes, parts)
  {
    if Decoded(bytes) == Ok(parts) {
      var blocks := DecodedBlocks(bytes);
    }
    if IsMessage(bytes, parts) {
      var blocks: seq<seq<Byte>> :| |blocks| == |parts| && Joined(blocks) == bytes
        && forall i :: 0 <= i < |parts| ==> IsBlock(blocks[i], parts[i]);
      BlocksDecode(blocks, parts);
    }
  }

  /** What was encoded is decoded to the same parts. */
  lemma {:induction false} RoundTrip(parts: seq<seq<Byte>>)
    requires Encodable(parts)
    ensures Decoded(Encoded(parts)) == Ok(parts)
    decreases |parts|
  {
    if parts != [] {
      RoundTrip(parts[1..]);
      var block := Header(|parts[0]|) + parts[0];
      LongBlock(block, parts[0]);
      BlockDecodes(block, parts[0], Encoded(parts[1..]));
      assert parts == [parts[0]] + parts[1..];
    }
  }

  /** What was decoded can be encoded again, and is then no longer than it was: a small part may
      have come with a size of four bytes. */
  lemma {:induction false} ReencodingIsShorter(bytes: seq<Byte>)
    requires Decoded(bytes).Ok?
    ensures Encodable(Decoded(bytes).value) && |Encoded(Decoded(bytes).value)| <= |bytes|
    decreases |bytes|
  {
    if bytes != [] {
      var (part, rest) := DecodeOne(bytes).value;
      ReencodingIsShorter(rest);
      var more := Decoded(rest).value;
      assert ([part] + more)[1..] == more;
    }
  }
}
