/**
 * `Classfile.h`: the class-level access-flag bits with their `|` and `&`
 * operators, and the packed attribute layouts of the class-file format
 * (section 4.7 of the Java Virtual Machine Specification). In the file every
 * multi-byte field is big-endian.
 */
module Classfile {
  import opened Bytes
  import opened ByteCursor

  /** `AccessFlags`: the class access flags of section 4.1 of the JVM specification. */
  datatype AccessFlag = Public | Final | Super | Interactive | Abstract | Synthetic | Annotation | Enum
  {
    function Value(): bv32
    {
      match this
      case Public => 0x0001
      case Final => 0x0010
      case Super => 0x0020
      case Interactive => 0x0200
      case Abstract => 0x0400
      case Synthetic => 0x1000
      case Annotation => 0x2000
      case Enum => 0x4000
    }
  }

  /** `operator|`: the bitwise or of two flags, widened to 32 bits. */
  function Or(a: AccessFlag, b: AccessFlag): bv32
  {
    a.Value() | b.Value()
  }

  /** `operator&`: whether two flags share a set bit. */
  predicate And(a: AccessFlag, b: AccessFlag)
  {
    a.Value() & b.Value() != 0
  }

  /** Every flag is a single bit, and no two flags have the same bit. */
  lemma FlagsAreDistinctSingleBits(a: AccessFlag, b: AccessFlag)
    ensures a.Value() != 0 && a.Value() & (a.Value() - 1) == 0
    ensures a.Value() == b.Value() <==> a == b
  {
  }

  /** `&` of two flags holds exactly when they are the same flag. */
  lemma AndOnlyOnSameFlag(a: AccessFlag, b: AccessFlag)
    ensures And(a, b) <==> a == b
  {
  }

  /** `|` is commutative and its result holds both operands' bits. */
  lemma OrHoldsBoth(a: AccessFlag, b: AccessFlag)
    ensures Or(a, b) == Or(b, a)
    ensures Or(a, b) & a.Value() == a.Value() && Or(a, b) & b.Value() == b.Value()
  {
    OrAbsorbs(a.Value(), b.Value());
    OrAbsorbs(b.Value(), a.Value());
  }

  lemma OrAbsorbs(x: bv32, y: bv32)
    ensures x | y == y | x
    ensures (x | y) & x == x
  {
  }

  // ---------------------------------------------------------------------------
  // Packed attribute layouts

  /** A 16-bit value as it is stored in the file: high byte first. */
  function Be16Bytes(v: u16): seq<byte>
  {
    [v / 0x100, v % 0x100]
  }

  /** A 32-bit value as it is stored in the file: high half first. */
  function Be32Bytes(v: u32): seq<byte>
  {
    Be16Bytes(v / 0x1_0000) + Be16Bytes(v % 0x1_0000)
  }

  /** The big-endian 16-bit field at byte offset `at`. */
  function Be16Field(bs: seq<byte>, at: nat): u16
    requires at + 2 <= |bs|
  {
    bs[at] as int * 0x100 + bs[at + 1]
  }

  /** The big-endian 32-bit field at byte offset `at`. */
  function Be32Field(bs: seq<byte>, at: nat): u32
    requires at + 4 <= |bs|
  {
    Be16Field(bs, at) as int * 0x1_0000 + Be16Field(bs, at + 2)
  }

  /** `Attribute`: the packed `attribute_info` header, a u16 name index then a u32 length. */
  datatype AttributeHeader = AttributeHeader(nameId: u16, length: u32)

  const AttributeHeaderSize: nat := 6

  function EncodeAttributeHeader(h: AttributeHeader): (bs: seq<byte>)
  {
    Be16Bytes(h.nameId) + Be32Bytes(h.length)
  }

  function DecodeAttributeHeader(bs: seq<byte>): AttributeHeader
    requires |bs| >= AttributeHeaderSize
  {
    AttributeHeader(Be16Field(bs, 0), Be32Field(bs, 2))
  }

  /** `CodeAttribute`: the header, then max stack, max locals and the code length; the code follows. */
  datatype CodeAttributeHeader = CodeAttributeHeader(header: AttributeHeader, maxStack: u16, maxLocals: u16, codeLength: u32)

  const CodeAttributeHeaderSize: nat := 14

  function EncodeCodeAttributeHeader(c: CodeAttributeHeader): seq<byte>
  {
    EncodeAttributeHeader(c.header) + Be16Bytes(c.maxStack) + Be16Bytes(c.maxLocals) + Be32Bytes(c.codeLength)
  }

  function DecodeCodeAttributeHeader(bs: seq<byte>): CodeAttributeHeader
    requires |bs| >= CodeAttributeHeaderSize
  {
    CodeAttributeHeader(DecodeAttributeHeader(bs), Be16Field(bs, 6), Be16Field(bs, 8), Be32Field(bs, 10))
  }

  /**
   * `SourceFileAttribute`, `SignatureAttribute` and `ConstantValueAttribute`:
   * the header followed by one u16 pool index.
   */
  datatype IndexAttribute = IndexAttribute(header: AttributeHeader, index: u16)

  const IndexAttributeSize: nat := 8

  function EncodeIndexAttribute(a: IndexAttribute): seq<byte>
  {
    EncodeAttributeHeader(a.header) + Be16Bytes(a.index)
  }

  function DecodeIndexAttribute(bs: seq<byte>): IndexAttribute
    requires |bs| >= IndexAttributeSize
  {
    IndexAttribute(DecodeAttributeHeader(bs), Be16Field(bs, 6))
  }

  lemma Be16RoundTrip(v: u16)
    ensures |Be16Bytes(v)| == 2 && Be16Field(Be16Bytes(v), 0) == v
  {
  }

  lemma Be32RoundTrip(v: u32)
    ensures |Be32Bytes(v)| == 4 && Be32Field(Be32Bytes(v), 0) == v
  {
    Be16RoundTrip(v / 0x1_0000);
    Be16RoundTrip(v % 0x1_0000);
  }

  lemma Be16FieldRoundTrip(bs: seq<byte>, at: nat)
    requires at + 2 <= |bs|
    ensures Be16Bytes(Be16Field(bs, at)) == bs[at..at + 2]
  {
  }

  lemma Be32FieldRoundTrip(bs: seq<byte>, at: nat)
    requires at + 4 <= |bs|
    ensures Be32Bytes(Be32Field(bs, at)) == bs[at..at + 4]
  {
    var hi, lo := Be16Field(bs, at), Be16Field(bs, at + 2);
    assert Be32Field(bs, at) / 0x1_0000 == hi;
    assert Be32Field(bs, at) % 0x1_0000 == lo;
    Be16FieldRoundTrip(bs, at);
    Be16FieldRoundTrip(bs, at + 2);
  }

  /** The header occupies exactly six bytes and decodes back to itself. */
  lemma AttributeHeaderRoundTrip(h: AttributeHeader)
    ensures |EncodeAttributeHeader(h)| == AttributeHeaderSize
    ensures DecodeAttributeHeader(EncodeAttributeHeader(h)) == h
  {
    var bs := EncodeAttributeHeader(h);
    Be16RoundTrip(h.nameId);
    Be32RoundTrip(h.length);
    assert bs[0..2] == Be16Bytes(h.nameId);
    assert bs[2..6] == Be32Bytes(h.length);
    assert Be16Field(bs, 0) == Be16Field(bs[0..2], 0);
    assert Be32Field(bs, 2) == Be16Field(bs[2..6], 0) as int * 0x1_0000 + Be16Field(bs[2..6], 2);
  }

  /** Any six bytes are the encoding of the header they decode to. */
  lemma AttributeHeaderBytesRoundTrip(bs: seq<byte>)
    requires |bs| == AttributeHeaderSize
    ensures EncodeAttributeHeader(DecodeAttributeHeader(bs)) == bs
  {
    Be16FieldRoundTrip(bs, 0);
    Be32FieldRoundTrip(bs, 2);
    assert bs == bs[0..2] + bs[2..6];
  }

  /** The `Code` header occupies fourteen bytes and decodes back to itself. */
  lemma CodeAttributeHeaderRoundTrip(c: CodeAttributeHeader)
    ensures |EncodeCodeAttributeHeader(c)| == CodeAttributeHeaderSize
    ensures DecodeCodeAttributeHeader(EncodeCodeAttributeHeader(c)) == c
  {
    var bs := EncodeCodeAttributeHeader(c);
    AttributeHeaderRoundTrip(c.header);
    Be16RoundTrip(c.maxStack);
    Be16RoundTrip(c.maxLocals);
    Be32RoundTrip(c.codeLength);
    assert bs[..6] == EncodeAttributeHeader(c.header);
    assert DecodeAttributeHeader(bs) == DecodeAttributeHeader(bs[..6]);
    assert bs[6..8] == Be16Bytes(c.maxStack);
    assert bs[8..10] == Be16Bytes(c.maxLocals);
    assert bs[10..14] == Be32Bytes(c.codeLength);
    assert Be16Field(bs, 6) == Be16Field(bs[6..8], 0);
    assert Be16Field(bs, 8) == Be16Field(bs[8..10], 0);
    assert Be32Field(bs, 10) == Be16Field(bs[10..14], 0) as int * 0x1_0000 + Be16Field(bs[10..14], 2);
  }

  /** The one-index attributes occupy eight bytes and decode back to themselves. */
  lemma IndexAttributeRoundTrip(a: IndexAttribute)
    ensures |EncodeIndexAttribute(a)| == IndexAttributeSize
    ensures DecodeIndexAttribute(EncodeIndexAttribute(a)) == a
  {
    var bs := EncodeIndexAttribute(a);
    AttributeHeaderRoundTrip(a.header);
    Be16RoundTrip(a.index);
    assert bs[..6] == EncodeAttributeHeader(a.header);
    assert DecodeAttributeHeader(bs) == DecodeAttributeHeader(bs[..6]);
    assert bs[6..8] == Be16Bytes(a.index);
    assert Be16Field(bs, 6) == Be16Field(bs[6..8], 0);
  }

  /**
   * The decoder reads a header field by field (`read16` then `read32`); inside
   * the buffer this yields exactly the packed header at the cursor and moves
   * the cursor past its six bytes.
   */
  lemma HeaderReadsMatchLayout(data: seq<byte>, off: nat)
    requires off + AttributeHeaderSize <= |data|
    ensures DecodeAttributeHeader(data[off..off + 6]) ==
            AttributeHeader(U16At(data, off), U32At(data, After16(data, off)))
    ensures After32(data, After16(data, off)) == off + 6
  {
    U16InBounds(data, off);
    U32InBounds(data, off + 2);
  }
}
