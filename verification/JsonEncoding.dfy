/** The compact encoding of a value, byte by byte, and the proof that its length is the counted one. */
module JsonEncoding {
  import opened Text
  import opened Json

  function HexDigit(n: nat): byte
    requires n < 16
  {
    if n < 10 then (0x30 + n) as byte else (0x57 + n) as byte
  }

  /** A byte inside a text (RFC 8259, section 7): quotes, backslashes and control characters are escaped. */
  function EncodedByte(b: byte): Bytes {
    if b == 0x22 then [0x5C, 0x22]
    else if b == 0x5C then [0x5C, 0x5C]
    else if b == 0x08 then [0x5C, 0x62]
    else if b == 0x09 then [0x5C, 0x74]
    else if b == 0x0A then [0x5C, 0x6E]
    else if b == 0x0C then [0x5C, 0x66]
    else if b == 0x0D then [0x5C, 0x72]
    else if b < 0x20 then [0x5C, 0x75, 0x30, 0x30, HexDigit(b as nat / 16), HexDigit(b as nat % 16)]
    else [b]
  }

  function EncodedBytes(text: Bytes): Bytes {
    if text == [] then [] else EncodedByte(text[0]) + EncodedBytes(text[1..])
  }

  /** The bytes of a character. */
  function CharBytes(c: char): Bytes {
    seq(|Utf8(c)|, i requires 0 <= i < |Utf8(c)| => assert Utf8(c)[i] in Utf8(c); Utf8(c)[i] as byte)
  }

  function NameBytes(name: string): Bytes {
    if name == "" then [] else CharBytes(name[0]) + NameBytes(name[1..])
  }

  function Quoted(text: Bytes): Bytes {
    [0x22] + EncodedBytes(text) + [0x22]
  }

  function Digits(text: string): Bytes {
    seq(|text|, i requires 0 <= i < |text| => if text[i] as int < 256 then text[i] as byte else 0x3F)
  }

  function Encode(v: Json): Bytes {
    match v
    case Null => [0x6E, 0x75, 0x6C, 0x6C]
    case Boolean(true) => [0x74, 0x72, 0x75, 0x65]
    case Boolean(false) => [0x66, 0x61, 0x6C, 0x73, 0x65]
    case Number(digits) => Digits(digits)
    case String(text) => Quoted(text)
    case Array(items) => [0x5B] + EncodeItems(items) + [0x5D]
    case Object(members) => [0x7B] + EncodeMembers(members) + [0x7D]
  }

  function EncodeItems(items: seq<Json>): Bytes {
    if items == [] then []
    else if |items| == 1 then Encode(items[0])
    else Encode(items[0]) + [0x2C] + EncodeItems(items[1..])
  }

  function EncodeMember(m: Member): Bytes {
    Quoted(NameBytes(m.name)) + [0x3A] + Encode(m.value)
  }

  function EncodeMembers(members: seq<Member>): Bytes {
    if members == [] then []
    else if |members| == 1 then EncodeMember(members[0])
    else EncodeMember(members[0]) + [0x2C] + EncodeMembers(members[1..])
  }

  // ----- lengths

  lemma {:induction false} TextLength(text: Bytes)
    ensures |EncodedBytes(text)| == BytesCost(text)
  {
    if text != [] { TextLength(text[1..]); }
  }

  lemma {:induction false} EncodedConcat(a: Bytes, b: Bytes)
    ensures EncodedBytes(a + b) == EncodedBytes(a) + EncodedBytes(b)
    decreases |a|
  {
    if a == [] {
      assert a + b == b;
    } else {
      assert (a + b)[1..] == a[1..] + b;
      EncodedConcat(a[1..], b);
    }
  }

  lemma {:induction false} HighBytesStay(text: Bytes)
    requires forall i | 0 <= i < |text| :: text[i] >= 0x80
    ensures |EncodedBytes(text)| == |text|
  {
    if text != [] { HighBytesStay(text[1..]); }
  }

  lemma {:induction false} CharLength(c: char)
    ensures |EncodedBytes(CharBytes(c))| == CharCost(c)
  {
    var bytes := CharBytes(c);
    if c as int < 128 {
      assert bytes[1..] == [] && EncodedBytes(bytes) == EncodedByte(bytes[0]) + [];
    } else {
      assert forall i | 0 <= i < |bytes| :: Utf8(c)[i] in Utf8(c);
      HighBytesStay(bytes);
    }
  }

  lemma {:induction false} NameLength(name: string)
    ensures |EncodedBytes(NameBytes(name))| == NameCost(name)
  {
    if name != "" {
      CharLength(name[0]);
      NameLength(name[1..]);
      EncodedConcat(CharBytes(name[0]), NameBytes(name[1..]));
    }
  }

  /** The counted length is the length of the encoding. */
  lemma {:induction false} LengthIsExact(v: Json)
    ensures |Encode(v)| == EncodedLength(v)
    decreases v, 1
  {
    match v
    case Null =>
    case Boolean(_) =>
    case Number(_) =>
    case String(text) => TextLength(text);
    case Array(items) => ItemsLengthIsExact(items);
    case Object(members) => MembersLengthIsExact(members);
  }

  lemma {:induction false} ItemsLengthIsExact(items: seq<Json>)
    ensures |EncodeItems(items)| == ItemsLength(items)
    decreases items, 0
  {
    if items != [] {
      LengthIsExact(items[0]);
      ItemsLengthIsExact(items[1..]);
    }
  }

  lemma {:induction false} MembersLengthIsExact(members: seq<Member>)
    ensures |EncodeMembers(members)| == MembersLength(members)
    decreases members, 0
  {
    if members != [] {
      assert members[0].value < members[0];
      NameLength(members[0].name);
      LengthIsExact(members[0].value);
      MembersLengthIsExact(members[1..]);
    }
  }
}
