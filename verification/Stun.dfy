/**
 * The response parser inside waitForStunResponse of src/network/nat_traversal.js, against the encoding of
 * binding responses in RFC 5389: message layout in section 6, attributes and their padding in section 15,
 * XOR-MAPPED-ADDRESS in section 15.2.
 */
module Stun {
  import opened Wrappers
  import opened Facts

  type Word = x: nat | x < 0x1_0000

  /** An external endpoint: four address octets and a port. */
  datatype Endpoint = Endpoint(a: Byte, b: Byte, c: Byte, d: Byte, port: Word)

  const BINDING_SUCCESS: Bytes := [0x01, 0x01]
  const MAGIC_COOKIE: Bytes := [0x21, 0x12, 0xA4, 0x42]
  const XOR_MAPPED_ADDRESS: Word := 0x0020

  function High(n: Word): Byte { n / 0x100 }

  function Low(n: Word): Byte { n % 0x100 }

  /** readUInt16BE on two bytes. */
  function Join(high: Byte, low: Byte): Word { high * 0x100 + low }

  /** The ^ operator on unsigned numbers of a given width, bit by bit from the lowest. */
  function Xor(a: nat, b: nat, width: nat): (r: nat)
    ensures r < Pow2(width)
  {
    if width == 0 then 0 else 2 * Xor(a / 2, b / 2, width - 1) + (a + b) % 2
  }

  lemma Widths()
    ensures Pow2(8) == 0x100 && Pow2(16) == 0x1_0000
  {
    assert Pow2(4) == 0x10;
    assert Pow2(8) == 0x100;
    assert Pow2(12) == 0x1000;
  }

  function Mask8(octet: Byte, mask: Byte): Byte {
    Widths();
    Xor(octet, mask, 8)
  }

  function Mask16(word: Word, mask: Word): Word {
    Widths();
    Xor(word, mask, 16)
  }

  /** An octet past the end of a slice is undefined, which ^ takes as 0. */
  function Octet(value: Bytes, k: nat): Byte {
    if k < |value| then value[k] else 0
  }

  function Unmask(value: Bytes): Endpoint
    requires |value| >= 4
  {
    Endpoint(Mask8(Octet(value, 4), 0x21), Mask8(Octet(value, 5), 0x12), Mask8(Octet(value, 6), 0xA4),
             Mask8(Octet(value, 7), 0x42), Mask16(Join(value[2], value[3]), 0x2112))
  }

  /** What is known of the endpoint after a mapped address: only family 1, IPv4, is decoded. */
  function Learn(value: Bytes, found: Option<Endpoint>): Option<Endpoint>
    requires |value| >= 4
  {
    if value[1] == 0x01 then Some(Unmask(value)) else found
  }

  function Padding(length: nat): nat {
    if length % 4 != 0 then 4 - length % 4 else 0
  }

  // -------------------------------------------------------------- the parser

  function Kind(msg: Bytes, offset: nat): Word
    requires offset + 4 <= |msg|
  {
    Join(msg[offset], msg[offset + 1])
  }

  function Length(msg: Bytes, offset: nat): Word
    requires offset + 4 <= |msg|
  {
    Join(msg[offset + 2], msg[offset + 3])
  }

  /** The attribute's value, cut off where the message ends. */
  function Value(msg: Bytes, offset: nat): Bytes
    requires offset + 4 <= |msg|
  {
    var end := offset + 4 + Length(msg, offset);
    msg[offset + 4..if end < |msg| then end else |msg|]
  }

  /** Where the next attribute starts: past the value, at the next multiple of four. */
  function Next(msg: Bytes, offset: nat): (next: nat)
    requires offset + 4 <= |msg|
    ensures next >= offset + 4 && (offset % 4 == 0 ==> next % 4 == 0)
  {
    offset + 4 + Length(msg, offset) + Padding(Length(msg, offset))
  }

  /** The attribute walk from offset on; reading past the end throws, and the handler then reports nothing. */
  function Walk(msg: Bytes, offset: nat, found: Option<Endpoint>): Option<Endpoint>
    decreases |msg| - offset
  {
    if offset >= |msg| then found
    else if offset + 4 > |msg| then None
    else if Kind(msg, offset) != XOR_MAPPED_ADDRESS then Walk(msg, Next(msg, offset), found)
    else
      var value := Value(msg, offset);
      if |value| < 4 then None
      else Walk(msg, Next(msg, offset), Learn(value, found))
  }

  function Parse(msg: Bytes, transactionId: Bytes): Option<Endpoint> {
    if |msg| < 20 || msg[..2] != BINDING_SUCCESS || msg[4..8] != MAGIC_COOKIE || msg[8..20] != transactionId then None
    else Walk(msg, 20, None)
  }

  /** The attribute loop of the handler. */
  method ParseAttributes(msg: Bytes) returns (address: Option<Endpoint>)
    requires |msg| >= 20
    ensures address == Walk(msg, 20, None)
  {
    hide Join, Unmask;
    var offset: nat, xorMappedAddress := 20, None;
    while offset < |msg|
      invariant offset % 4 == 0
      invariant Walk(msg, offset, xorMappedAddress) == Walk(msg, 20, None)
    {
      if offset + 4 > |msg| {
        return None;
      }
      var attributeType := Join(msg[offset], msg[offset + 1]);
      var attributeLength: nat := Join(msg[offset + 2], msg[offset + 3]);
      var end := offset + 4 + attributeLength;
      var attributeValue := msg[offset + 4..if end < |msg| then end else |msg|];
      ghost var next := Next(msg, offset);
      assert attributeType == Kind(msg, offset) && attributeValue == Value(msg, offset);
      if attributeType == XOR_MAPPED_ADDRESS {
        if |attributeValue| < 4 {
          return None;
        }
        if attributeValue[1] == 0x01 {
          xorMappedAddress := Some(Unmask(attributeValue));
        }
      }
      offset := offset + (4 + attributeLength);
      if attributeLength % 4 != 0 {
        offset := offset + (4 - attributeLength % 4);
      }
      assert offset == next;
    }
    return xorMappedAddress;
  }

  /** The message handler: what it resolves with, or None when it ignores the message. */
  method OnMessage(msg: Bytes, transactionId: Bytes) returns (address: Option<Endpoint>)
    ensures address == Parse(msg, transactionId)
  {
    hide Walk;
    if |msg| < 20 {
      return None;
    }
    if msg[..2] != BINDING_SUCCESS {
      return None;
    }
    if msg[4..8] != MAGIC_COOKIE {
      return None;
    }
    if msg[8..20] != transactionId {
      return None;
    }
    address := ParseAttributes(msg);
  }

  // ------------------------------------------------------------- the encoder

  /** One attribute on the wire; the padding octets may have any value. */
  datatype Attribute = Attribute(kind: Word, value: Bytes, padding: Bytes) {
    predicate WellFormed() {
      |value| < 0x1_0000 && |padding| == Padding(|value|)
    }

    function Encode(): (r: Bytes)
      requires WellFormed()
      ensures |r| == 4 + |value| + |padding|
    {
      [High(kind), Low(kind), High(|value|), Low(|value|)] + value + padding
    }
  }

  predicate WellFormed(attributes: seq<Attribute>) {
    forall i :: 0 <= i < |attributes| ==> attributes[i].WellFormed()
  }

  function EncodeAll(attributes: seq<Attribute>): Bytes
    requires WellFormed(attributes)
  {
    if attributes == [] then [] else attributes[0].Encode() + EncodeAll(attributes[1..])
  }

  /** XOR-MAPPED-ADDRESS for IPv4: a reserved octet, the family, then port and address masked with the cookie. */
  function XorMapped(reserved: Byte, e: Endpoint): (x: Attribute)
    ensures x.WellFormed()
  {
    hide Mask8, Mask16, High, Low;
    var port := Mask16(e.port, 0x2112);
    Attribute(XOR_MAPPED_ADDRESS,
              [reserved, 0x01, High(port), Low(port),
               Mask8(e.a, 0x21), Mask8(e.b, 0x12), Mask8(e.c, 0xA4), Mask8(e.d, 0x42)],
              [])
  }

  function Header(length: Word, transactionId: Bytes): Bytes {
    BINDING_SUCCESS + [High(length), Low(length)] + MAGIC_COOKIE + transactionId
  }

  function Response(length: Word, transactionId: Bytes, attributes: seq<Attribute>): Bytes
    requires WellFormed(attributes)
  {
    Header(length, transactionId) + EncodeAll(attributes)
  }

  /** What a list of attributes says: nothing if some mapped address is too short, else the last IPv4 one. */
  function Meaning(attributes: seq<Attribute>, found: Option<Endpoint>): Option<Endpoint> {
    if attributes == [] then found
    else if attributes[0].kind != XOR_MAPPED_ADDRESS then Meaning(attributes[1..], found)
    else if |attributes[0].value| < 4 then None
    else Meaning(attributes[1..], Learn(attributes[0].value, found))
  }

  // ------------------------------------------------------------- round trips

  lemma JoinSplit(n: Word)
    ensures Join(High(n), Low(n)) == n
  {
  }

  lemma Parity(a: nat, b: nat, x: nat)
    ensures (2 * x + (a + b) % 2) / 2 == x && (2 * x + (a + b) % 2 + b) % 2 == a % 2
  {
  }

  lemma {:induction false} XorTwice(a: nat, b: nat, width: nat)
    requires a < Pow2(width)
    ensures Xor(Xor(a, b, width), b, width) == a
  {
    if width > 0 {
      XorTwice(a / 2, b / 2, width - 1);
      Parity(a, b, Xor(a / 2, b / 2, width - 1));
    }
  }

  lemma {:induction false} XorOfZero(b: nat, width: nat)
    requires b < Pow2(width)
    ensures Xor(0, b, width) == b
  {
    if width > 0 {
      XorOfZero(b / 2, width - 1);
    }
  }

  /** Masking twice with the same mask gives back what was masked. */
  lemma MaskTwice8(octet: Byte, mask: Byte)
    ensures Mask8(Mask8(octet, mask), mask) == octet && Mask8(0, mask) == mask
  {
    hide Pow2, Xor;
    Widths();
    XorTwice(octet, mask, 8);
    XorOfZero(mask, 8);
  }

  lemma MaskTwice16(word: Word, mask: Word)
    ensures Mask16(Mask16(word, mask), mask) == word
  {
    hide Pow2, Xor;
    Widths();
    XorTwice(word, mask, 16);
  }

  /** The endpoint that remains of e when only its first n address octets arrive: the cookie fills the rest. */
  function Remains(e: Endpoint, n: nat): Endpoint {
    Endpoint(if n > 0 then e.a else 0x21, if n > 1 then e.b else 0x12, if n > 2 then e.c else 0xA4,
             if n > 3 then e.d else 0x42, e.port)
  }

  lemma Unmasked(reserved: Byte, e: Endpoint, n: nat)
    requires n <= 4
    ensures Unmask(XorMapped(reserved, e).value[..4 + n]) == Remains(e, n)
  {
    hide Join, High, Low, Mask8, Mask16;
    JoinSplit(Mask16(e.port, 0x2112));
    MaskTwice16(e.port, 0x2112);
    MaskTwice8(e.a, 0x21);
    MaskTwice8(e.b, 0x12);
    MaskTwice8(e.c, 0xA4);
    MaskTwice8(e.d, 0x42);
  }

  /** Where the parts of one attribute lie in a message, cut off anywhere after its four header octets. */
  lemma Layout(before: Bytes, x: Attribute, n: nat, after: Bytes)
    requires x.WellFormed() && 4 + n <= |x.Encode()|
    ensures var msg := before + x.Encode()[..4 + n] + after; var k := |before|;
            && |msg| == k + 4 + n + |after|
            && msg[k] == High(x.kind) && msg[k + 1] == Low(x.kind)
            && msg[k + 2] == High(|x.value|) && msg[k + 3] == Low(|x.value|)
            && (n >= |x.value| ==> msg[k + 4..k + 4 + |x.value|] == x.value)
            && (n < |x.value| && after == [] ==> msg[k + 4..] == x.value[..n])
  {
    hide High, Low;
    var msg, k := before + x.Encode()[..4 + n] + after, |before|;
    assert msg[k + 4..k + 4 + n] == (x.value + x.padding)[..n];
    if n >= |x.value| {
      assert (x.value + x.padding)[..n][..|x.value|] == x.value;
      assert msg[k + 4..k + 4 + |x.value|] == msg[k + 4..k + 4 + n][..|x.value|];
    }
  }

  /** What the parser finds where one attribute starts. */
  lemma FieldsOf(before: Bytes, x: Attribute, after: Bytes)
    requires x.WellFormed()
    ensures var msg := before + x.Encode() + after; var k := |before|;
            && k + 4 <= |msg| && Kind(msg, k) == x.kind && Value(msg, k) == x.value
            && Next(msg, k) == |before + x.Encode()|
  {
    hide Join, High, Low;
    var whole := x.Encode();
    assert whole[..4 + (|whole| - 4)] == whole;
    Layout(before, x, |whole| - 4, after);
    JoinSplit(x.kind);
    JoinSplit(|x.value|);
  }

  lemma WalkOne(before: Bytes, x: Attribute, after: Bytes, found: Option<Endpoint>)
    requires x.WellFormed()
    ensures var msg, next := before + x.Encode() + after, |before + x.Encode()|;
            Walk(msg, |before|, found) ==
              if x.kind != XOR_MAPPED_ADDRESS then Walk(msg, next, found)
              else if |x.value| < 4 then None
              else Walk(msg, next, Learn(x.value, found))
  {
    hide Kind, Value, Next, Learn, Attribute.Encode, Attribute.WellFormed;
    FieldsOf(before, x, after);
  }

  lemma Unroll(before: Bytes, attributes: seq<Attribute>)
    requires WellFormed(attributes) && attributes != []
    ensures attributes[0].WellFormed() && WellFormed(attributes[1..])
    ensures before + EncodeAll(attributes) == before + attributes[0].Encode() + EncodeAll(attributes[1..])
  {
    hide Attribute.Encode, Attribute.WellFormed;
  }

  lemma {:induction false} WalkReadsAttributes(before: Bytes, attributes: seq<Attribute>, found: Option<Endpoint>)
    requires WellFormed(attributes)
    ensures Walk(before + EncodeAll(attributes), |before|, found) == Meaning(attributes, found)
    decreases |attributes|
  {
    if attributes == [] {
      assert before + EncodeAll(attributes) == before;
    } else {
      hide Walk, EncodeAll, Learn, Attribute.Encode, Attribute.WellFormed, WellFormed;
      var x, rest := attributes[0], attributes[1..];
      Unroll(before, attributes);
      WalkOne(before, x, EncodeAll(rest), found);
      if x.kind != XOR_MAPPED_ADDRESS {
        WalkReadsAttributes(before + x.Encode(), rest, found);
      } else if |x.value| >= 4 {
        WalkReadsAttributes(before + x.Encode(), rest, Learn(x.value, found));
      }
    }
  }

  lemma HeaderFields(length: Word, transactionId: Bytes, body: Bytes)
    requires |transactionId| == 12
    ensures var msg := Header(length, transactionId) + body;
            && |Header(length, transactionId)| == 20 && msg[..2] == BINDING_SUCCESS
            && msg[4..8] == MAGIC_COOKIE && msg[8..20] == transactionId
  {
  }

  /** Every well-formed response, with any attributes of any length, parses to what its attributes say. */
  lemma ParseReadsResponse(length: Word, transactionId: Bytes, attributes: seq<Attribute>)
    requires |transactionId| == 12 && WellFormed(attributes)
    ensures Parse(Response(length, transactionId, attributes), transactionId) == Meaning(attributes, None)
  {
    HeaderFields(length, transactionId, EncodeAll(attributes));
    WalkReadsAttributes(Header(length, transactionId), attributes, None);
  }

  /** A response to another request is ignored. */
  lemma OtherTransactionIgnored(length: Word, transactionId: Bytes, other: Bytes, attributes: seq<Attribute>)
    requires |transactionId| == 12 && other != transactionId && WellFormed(attributes)
    ensures Parse(Response(length, transactionId, attributes), other) == None
  {
    HeaderFields(length, transactionId, EncodeAll(attributes));
  }

  /** An attribute that does not spoil the message: a mapped address has at least its family and port. */
  predicate Readable(x: Attribute) {
    x.kind == XOR_MAPPED_ADDRESS ==> |x.value| >= 4
  }

  predicate AllReadable(attributes: seq<Attribute>) {
    forall i :: 0 <= i < |attributes| ==> Readable(attributes[i])
  }

  /** One that does not override a mapped address before it either. */
  predicate Harmless(x: Attribute) {
    x.kind == XOR_MAPPED_ADDRESS ==> |x.value| >= 4 && x.value[1] != 0x01
  }

  lemma {:induction false} HarmlessKeeps(attributes: seq<Attribute>, found: Option<Endpoint>)
    requires forall i :: 0 <= i < |attributes| ==> Harmless(attributes[i])
    ensures Meaning(attributes, found) == found
  {
    if attributes != [] {
      assert Harmless(attributes[0]);
      HarmlessKeeps(attributes[1..], found);
    }
  }

  lemma {:induction false} MeaningSplits(before: seq<Attribute>, after: seq<Attribute>, found: Option<Endpoint>)
    requires AllReadable(before)
    ensures Meaning(before + after, found) == Meaning(after, Meaning(before, found))
  {
    if before == [] {
      assert before + after == after;
    } else {
      assert Readable(before[0]);
      assert (before + after)[1..] == before[1..] + after;
      MeaningSplits(before[1..], after,
        if before[0].kind == XOR_MAPPED_ADDRESS then Learn(before[0].value, found) else found);
    }
  }

  lemma MappedMeans(reserved: Byte, e: Endpoint, after: seq<Attribute>, found: Option<Endpoint>)
    requires forall i :: 0 <= i < |after| ==> Harmless(after[i])
    ensures Meaning([XorMapped(reserved, e)] + after, found) == Some(e)
  {
    var all := [XorMapped(reserved, e)] + after;
    assert all[1..] == after;
    Unmasked(reserved, e, 4);
    assert all[0].value[..8] == all[0].value;
    HarmlessKeeps(after, Some(e));
  }

  /** The endpoint a server encodes, wherever it stands among other attributes, is the endpoint the parser returns. */
  lemma RoundTrip(length: Word, transactionId: Bytes,
                  before: seq<Attribute>, reserved: Byte, e: Endpoint, after: seq<Attribute>)
    requires |transactionId| == 12 && WellFormed(before) && WellFormed(after) && AllReadable(before)
    requires forall i :: 0 <= i < |after| ==> Harmless(after[i])
    ensures var all := before + ([XorMapped(reserved, e)] + after);
            WellFormed(all) && Parse(Response(length, transactionId, all), transactionId) == Some(e)
  {
    var rest := [XorMapped(reserved, e)] + after;
    ParseReadsResponse(length, transactionId, before + rest);
    MeaningSplits(before, rest, None);
    MappedMeans(reserved, e, after, Meaning(before, None));
  }

  // ---------------------------------------------------------- on the wire

  /** Whatever the message goes on to say, an endpoint is read only from a binding response to the request itself. */
  lemma HeaderIsRequired(msg: Bytes, transactionId: Bytes)
    requires Parse(msg, transactionId).Some?
    ensures |msg| > 20 && msg[0] == 0x01 && msg[1] == 0x01
    ensures msg[4] == 0x21 && msg[5] == 0x12 && msg[6] == 0xA4 && msg[7] == 0x42
    ensures msg[8..20] == transactionId
  {
    assert msg[0] == msg[..2][0] && msg[1] == msg[..2][1];
    assert msg[4] == msg[4..8][0] && msg[5] == msg[4..8][1] && msg[6] == msg[4..8][2] && msg[7] == msg[4..8][3];
  }

  /** A response whose one attribute is a mapped address, octet by octet; the two length octets are not looked at. */
  lemma WireResponse(l: Byte, l': Byte, transactionId: Bytes, r: Byte, p: Byte, p': Byte,
                     a: Byte, b: Byte, c: Byte, d: Byte)
    requires |transactionId| == 12
    ensures Parse([0x01, 0x01, l, l', 0x21, 0x12, 0xA4, 0x42] + transactionId
                  + [0x00, 0x20, 0x00, 0x08, r, 0x01, p, p', a, b, c, d], transactionId)
         == Some(Endpoint(Mask8(a, 0x21), Mask8(b, 0x12), Mask8(c, 0xA4), Mask8(d, 0x42),
                          Mask16(0x100 * p + p', 0x2112)))
  {
    hide Mask8, Mask16;
    var head, value := [0x01, 0x01, l, l', 0x21, 0x12, 0xA4, 0x42] + transactionId, [r, 0x01, p, p', a, b, c, d];
    var msg := head + [0x00, 0x20, 0x00, 0x08, r, 0x01, p, p', a, b, c, d];
    assert msg[..2] == [0x01, 0x01] && msg[4..8] == [0x21, 0x12, 0xA4, 0x42] && msg[8..20] == transactionId;
    assert Kind(msg, 20) == 0x20 && Length(msg, 20) == 8 && Next(msg, 20) == 32;
    assert Value(msg, 20) == value;
    assert Walk(msg, 32, Learn(value, None)) == Learn(value, None);
  }

  lemma XorBit(a: nat, x: nat, b: nat, y: nat, width: nat)
    requires x < 2 && y < 2
    ensures Xor(2 * a + x, 2 * b + y, width + 1) == 2 * Xor(a, b, width) + (x + y) % 2
  {
    assert (2 * a + x) / 2 == a && (2 * b + y) / 2 == b;
  }

  /** Hexadecimal digits are combined digit by digit. */
  lemma XorDigit(h: nat, low: nat, h': nat, low': nat, width: nat)
    requires low < 0x10 && low' < 0x10
    ensures Xor(0x10 * h + low, 0x10 * h' + low', width + 4) == 0x10 * Xor(h, h', width) + Xor(low, low', 4)
  {
    hide Xor;
    var x2, y2 := low / 2 / 2, low' / 2 / 2;
    XorBits(h, x2 / 2, x2 % 2, low / 2 % 2, low % 2, h', y2 / 2, y2 % 2, low' / 2 % 2, low' % 2, width);
    XorBits(0, x2 / 2, x2 % 2, low / 2 % 2, low % 2, 0, y2 / 2, y2 % 2, low' / 2 % 2, low' % 2, 0);
    EqualDigits(0, 0);
  }

  lemma XorBits(h: nat, x3: nat, x2: nat, x1: nat, x0: nat, h': nat, y3: nat, y2: nat, y1: nat, y0: nat, width: nat)
    requires x3 < 2 && x2 < 2 && x1 < 2 && x0 < 2 && y3 < 2 && y2 < 2 && y1 < 2 && y0 < 2
    ensures Xor(16 * h + 8 * x3 + 4 * x2 + 2 * x1 + x0, 16 * h' + 8 * y3 + 4 * y2 + 2 * y1 + y0, width + 4)
         == 16 * Xor(h, h', width) + 8 * ((x3 + y3) % 2) + 4 * ((x2 + y2) % 2) + 2 * ((x1 + y1) % 2) + (x0 + y0) % 2
  {
    hide Xor;
    XorBit(h, x3, h', y3, width);
    XorBit(2 * h + x3, x2, 2 * h' + y3, y2, width + 1);
    XorBit(4 * h + 2 * x3 + x2, x1, 4 * h' + 2 * y3 + y2, y1, width + 2);
    XorBit(8 * h + 4 * x3 + 2 * x2 + x1, x0, 8 * h' + 4 * y3 + 2 * y2 + y1, y0, width + 3);
  }

  lemma Digits()
    ensures Xor(0xE, 0x2, 4) == 0xC && Xor(0x6, 0x4, 4) == 0x2 && Xor(0x3, 0x2, 4) == 0x1
  {
  }

  lemma PortDigits()
    ensures Xor(0xA, 0x2, 4) == 0x8 && Xor(0x4, 0x1, 4) == 0x5 && Xor(0x7, 0x2, 4) == 0x5
  {
  }

  lemma {:induction false} EqualDigits(x: nat, width: nat)
    ensures Xor(x, x, width) == 0
  {
    if width > 0 {
      EqualDigits(x / 2, width - 1);
    }
  }

  lemma Masked()
    ensures Mask8(0xE1, 0x21) == 192 && Mask8(0x12, 0x12) == 0 && Mask8(0xA6, 0xA4) == 2 && Mask8(0x43, 0x42) == 1
  {
    hide Xor, Pow2;
    XorDigit(0xE, 0x1, 0x2, 0x1, 4);
    XorDigit(0xA, 0x6, 0xA, 0x4, 4);
    XorDigit(0x4, 0x3, 0x4, 0x2, 4);
    Digits();
    EqualDigits(0x1, 4);
    EqualDigits(0xA, 4);
    EqualDigits(0x4, 4);
    EqualDigits(0x12, 8);
  }

  lemma MaskedPort()
    ensures Mask16(0xA147, 0x2112) == 32853
  {
    hide Xor, Pow2;
    XorDigit(0xA14, 0x7, 0x211, 0x2, 12);
    XorDigit(0xA1, 0x4, 0x21, 0x1, 8);
    XorDigit(0xA, 0x1, 0x2, 0x1, 4);
    PortDigits();
    EqualDigits(0x1, 4);
  }

  /** The mapped address of the IPv4 sample response, section 2.2 of RFC 5769: 192.0.2.1, port 32853. */
  lemma SampleAddress(l: Byte, l': Byte, transactionId: Bytes, r: Byte)
    requires |transactionId| == 12
    ensures Parse([0x01, 0x01, l, l', 0x21, 0x12, 0xA4, 0x42] + transactionId
                  + [0x00, 0x20, 0x00, 0x08, r, 0x01, 0xA1, 0x47, 0xE1, 0x12, 0xA6, 0x43], transactionId)
         == Some(Endpoint(192, 0, 2, 1, 32853))
  {
    hide Parse, Mask8, Mask16;
    WireResponse(l, l', transactionId, r, 0xA1, 0x47, 0xE1, 0x12, 0xA6, 0x43);
    Masked();
    MaskedPort();
  }

  // -------------------------------------------------------- cut datagrams

  /** The walk gets past whole attributes with what they say, whatever follows them. */
  lemma {:induction false} WalkSkips(head: Bytes, attributes: seq<Attribute>, tail: Bytes, found: Option<Endpoint>)
    requires WellFormed(attributes) && AllReadable(attributes)
    ensures var msg := head + EncodeAll(attributes) + tail;
            Walk(msg, |head|, found) == Walk(msg, |head + EncodeAll(attributes)|, Meaning(attributes, found))
    decreases |attributes|
  {
    hide Walk, Learn, Attribute.Encode, Attribute.WellFormed, WellFormed;
    if attributes != [] {
      var x, rest := attributes[0], attributes[1..];
      assert Readable(x);
      Unroll(head, attributes);
      Regroup(head + x.Encode(), EncodeAll(rest), tail);
      WalkOne(head, x, EncodeAll(rest) + tail, found);
      WalkSkips(head + x.Encode(), rest, tail, if x.kind == XOR_MAPPED_ADDRESS then Learn(x.value, found) else found);
    }
  }

  lemma Regroup(a: Bytes, b: Bytes, c: Bytes)
    ensures a + b + c == a + (b + c)
  {
  }

  lemma {:induction false} EncodeAppend(attributes: seq<Attribute>, x: Attribute)
    requires WellFormed(attributes) && x.WellFormed()
    ensures WellFormed(attributes + [x]) && EncodeAll(attributes + [x]) == EncodeAll(attributes) + x.Encode()
    decreases |attributes|
  {
    hide Attribute.Encode, Attribute.WellFormed;
    if attributes == [] {
      assert attributes + [x] == [x];
    } else {
      assert (attributes + [x])[1..] == attributes[1..] + [x];
      EncodeAppend(attributes[1..], x);
      Regroup(attributes[0].Encode(), EncodeAll(attributes[1..]), x.Encode());
    }
  }

  lemma CutFields(head: Bytes, x: Attribute, n: nat)
    requires x.WellFormed() && n < |x.value|
    ensures var msg := head + x.Encode()[..4 + n]; var k := |head|;
            && k + 4 <= |msg| && Kind(msg, k) == x.kind && Value(msg, k) == x.value[..n]
            && Next(msg, k) >= |msg|
  {
    hide Join, High, Low;
    Layout(head, x, n, []);
    assert head + x.Encode()[..4 + n] + [] == head + x.Encode()[..4 + n];
    JoinSplit(x.kind);
    JoinSplit(|x.value|);
  }

  /** The walk takes a mapped address whose value is cut short for what is left of it. */
  lemma CutAttribute(head: Bytes, x: Attribute, n: nat, found: Option<Endpoint>)
    requires x.WellFormed() && x.kind == XOR_MAPPED_ADDRESS && 4 <= n < |x.value| && x.value[1] == 0x01
    ensures Walk(head + x.Encode()[..4 + n], |head|, found) == Some(Unmask(x.value[..n]))
  {
    hide Kind, Value, Next, Unmask, Attribute.Encode, Attribute.WellFormed;
    CutFields(head, x, n);
  }

  /** After a header and whole attributes, a mapped address that is cut short is still taken for what is left of it. */
  lemma CutResponse(length: Word, transactionId: Bytes, before: seq<Attribute>, x: Attribute, n: nat)
    requires |transactionId| == 12 && WellFormed(before) && AllReadable(before)
    requires x.WellFormed() && x.kind == XOR_MAPPED_ADDRESS && 4 <= n < |x.value| && x.value[1] == 0x01
    ensures var msg := Header(length, transactionId) + (EncodeAll(before) + x.Encode()[..4 + n]);
            Parse(msg, transactionId) == Some(Unmask(x.value[..n]))
  {
    hide Walk, Meaning, EncodeAll, Unmask, Attribute.Encode, WellFormed, AllReadable;
    var head, tail := Header(length, transactionId), x.Encode()[..4 + n];
    HeaderFields(length, transactionId, EncodeAll(before) + tail);
    Regroup(head, EncodeAll(before), tail);
    WalkSkips(head, before, tail, None);
    CutAttribute(head + EncodeAll(before), x, n, Meaning(before, None));
  }

  lemma CutBytes(a: Bytes, b: Bytes, c: Bytes, k: nat)
    requires k <= |c|
    ensures (a + (b + c))[..|a + (b + c)| - k] == a + (b + c[..|c| - k])
  {
  }

  /**
   * A datagram that ends inside the address octets of its last attribute, whatever stands before that, is still
   * accepted. The parser then returns the right endpoint if and only if each missing octet equals the cookie octet
   * that masks it.
   */
  lemma CutAddressIsAccepted(length: Word, transactionId: Bytes, before: seq<Attribute>,
                             reserved: Byte, e: Endpoint, n: nat)
    requires |transactionId| == 12 && n < 4 && WellFormed(before) && AllReadable(before)
    ensures WellFormed(before + [XorMapped(reserved, e)])
    ensures var whole := Response(length, transactionId, before + [XorMapped(reserved, e)]);
            |whole| >= 4 && var cut := Parse(whole[..|whole| - (4 - n)], transactionId);
            && cut == Some(Remains(e, n))
            && (cut == Some(e) <==>
                  e.d == 0x42 && (n < 3 ==> e.c == 0xA4) && (n < 2 ==> e.b == 0x12) && (n < 1 ==> e.a == 0x21))
  {
    hide Parse, EncodeAll, Header, Unmask, High, Low, Mask8, Mask16, WellFormed, AllReadable;
    var x := XorMapped(reserved, e);
    EncodeAppend(before, x);
    CutBytes(Header(length, transactionId), EncodeAll(before), x.Encode(), 4 - n);
    CutResponse(length, transactionId, before, x, 4 + n);
    Unmasked(reserved, e, n);
  }
}
