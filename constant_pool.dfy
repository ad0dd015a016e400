/**
 * `ConstantPool.h`: the constant-pool tags, the constant records, the
 * tag-checked lookup `ConstantPool::get` and the pool's slot vector.
 *
 * A record that holds a pointer to another constant (`ConstantString::value`,
 * `ConstantClass::name`, ...) holds here the value of that constant, or `None`
 * where the pointer is null; the pointed-to constants are never changed after
 * the pool is built, so the value is what the pointer would show.
 */
module Constants {
  import opened Wrappers
  import opened Bytes

  /** `ConstantTag`, with the numbers of section 4.4 of the JVM specification. */
  datatype Tag =
    | Class | Fieldref | Methodref | InterfaceMethodref | String | Integer | Float
    | Long | Double | NameAndType | Utf8 | MethodHandle | MethodType | InvokeDynamic
  {
    function Code(): byte
    {
      match this
      case Class => 7
      case Fieldref => 9
      case Methodref => 10
      case InterfaceMethodref => 11
      case String => 8
      case Integer => 3
      case Float => 4
      case Long => 5
      case Double => 6
      case NameAndType => 12
      case Utf8 => 1
      case MethodHandle => 15
      case MethodType => 16
      case InvokeDynamic => 18
    }

    predicate IsMemberRef()
    {
      this == Fieldref || this == Methodref || this == InterfaceMethodref
    }
  }

  /** The tag a byte names, if any: the `case` labels of the decoder's `switch`. */
  function TagOf(code: int): (t: Option<Tag>)
    ensures t.Some? ==> t.value.Code() == code
  {
    match code
    case 7 => Some(Class)
    case 9 => Some(Fieldref)
    case 10 => Some(Methodref)
    case 11 => Some(InterfaceMethodref)
    case 8 => Some(String)
    case 3 => Some(Integer)
    case 4 => Some(Float)
    case 5 => Some(Long)
    case 6 => Some(Double)
    case 12 => Some(NameAndType)
    case 1 => Some(Utf8)
    case 15 => Some(MethodHandle)
    case 16 => Some(MethodType)
    case 18 => Some(InvokeDynamic)
    case _ => None
  }

  /** Every tag's number names that tag again, so no two tags share a number. */
  lemma TagCodesRoundTrip(t: Tag)
    ensures TagOf(t.Code()) == Some(t)
  {
  }

  /** `tos(ConstantTag)`, including the source's spelling "FLoat". */
  function TagName(code: int): string
  {
    match TagOf(code)
    case None => "UNKNOWN"
    case Some(t) =>
      match t
      case Class => "Class"
      case Fieldref => "Fieldref"
      case Methodref => "Methodref"
      case InterfaceMethodref => "InterfaceMethodref"
      case String => "String"
      case Integer => "Integer"
      case Float => "FLoat"
      case Long => "Long"
      case Double => "Double"
      case NameAndType => "NameAndType"
      case Utf8 => "Utf8"
      case MethodHandle => "MethodHandle"
      case MethodType => "MethodType"
      case InvokeDynamic => "InvokeDynamic"
  }

  /** `tos` says "UNKNOWN" exactly for numbers outside the tag set, and names the known tags apart. */
  lemma TagNamesDistinguishTags(a: int, b: int)
    ensures TagName(a) == "UNKNOWN" <==> TagOf(a).None?
    ensures TagOf(a).Some? && TagOf(b).Some? && TagName(a) == TagName(b) ==> TagOf(a) == TagOf(b)
  {
  }

  type i16 = x: int | -0x8000 <= x < 0x8000
  type i64 = x: int | -0x8000_0000_0000_0000 <= x < 0x8000_0000_0000_0000

  /** The conversion to `int16_t`: the low 16 bits, read as two's complement. */
  function ToInt16(v: int): (r: i16)
    ensures (v - r) % 0x1_0000 == 0
  {
    var low := v % 0x1_0000;
    if low < 0x8000 then low else low - 0x1_0000
  }

  /** The conversion of a 64-bit unsigned value to `int64_t`: two's complement. */
  function ToInt64(v: int): (r: i64)
    ensures (v - r) % 0x1_0000_0000_0000_0000 == 0
  {
    var low := v % 0x1_0000_0000_0000_0000;
    if low < 0x8000_0000_0000_0000 then low else low - 0x1_0000_0000_0000_0000
  }

  /** A value already in the signed range passes through unchanged. */
  lemma ToInt16KeepsSmallValues(v: int)
    requires -0x8000 <= v < 0x8000
    ensures ToInt16(v) == v
  {
  }

  /** The three tags a `ConstantMember` can carry. */
  type MemberTag = t: Tag | t.IsMemberRef() witness Fieldref

  /** The constant records (`Constant` and its subclasses); `Tag()` is their `tag` member. */
  datatype Constant =
    | Utf8Const(bytes: seq<byte>)
    | IntegerConst(intValue: i16)
    | LongConst(longValue: i64)
    | StringConst(id: u16, value: Option<seq<byte>>)
    | NameAndTypeConst(name: Option<seq<byte>>, signature: Option<seq<byte>>)
    | ClassConst(id: u16, name: Option<seq<byte>>)
    | MemberConst(kind: MemberTag, classDef: Option<Constant>, memberDef: Option<Constant>)
  {
    function Tag(): Tag
    {
      match this
      case Utf8Const(_) => Utf8
      case IntegerConst(_) => Integer
      case LongConst(_) => Long
      case StringConst(_, _) => String
      case NameAndTypeConst(_, _) => NameAndType
      case ClassConst(_, _) => Class
      case MemberConst(kind, _, _) => kind
    }
  }

  /** `equals(a, b)`: `strcmp` of the constant's C string with `b`. */
  predicate Equals(a: seq<byte>, b: string)
  {
    Chars(CStr(a)) == b
  }

  /** For bytes without a NUL, `equals` is plain equality of the characters. */
  lemma EqualsWithoutNul(a: seq<byte>, b: string)
    requires 0 !in a
    ensures Equals(a, b) <==> Chars(a) == b
  {
    assert CStr(a) == a;
  }

  /** Whatever follows the first NUL does not take part in `equals`. */
  lemma EqualsStopsAtNul(a: seq<byte>, tail: seq<byte>, b: string)
    requires 0 !in a
    ensures Equals(a + [0] + tail, b) <==> Equals(a, b)
  {
    CStrStopsAtNul(a, tail);
    assert CStr(a) == a;
  }

  lemma {:induction false} CStrStopsAtNul(a: seq<byte>, tail: seq<byte>)
    requires 0 !in a
    ensures CStr(a + [0] + tail) == a
  {
    if a != [] {
      assert (a + [0] + tail)[1..] == a[1..] + [0] + tail;
      CStrStopsAtNul(a[1..], tail);
    }
  }

  // ---------------------------------------------------------------------------
  // The pool

  type Slots = seq<Option<Constant>>

  /**
   * `get` reads `pool[id]->tag` without a null check whenever `id` is in
   * range, so an in-range empty slot (for example the one after a Long) is
   * undefined behaviour, not "absent". Callers must stay out of that case.
   */
  predicate Readable(slots: Slots, id: int)
  {
    id < 1 || id >= |slots| || slots[id].Some?
  }

  /** `ConstantPool::get(tag, id)`: the constant at `id` if it carries `tag`. */
  function Get(slots: Slots, tag: Tag, id: int): Option<Constant>
    requires Readable(slots, id)
  {
    if id < 1 || id >= |slots| || slots[id].value.Tag() != tag then None else slots[id]
  }

  /** `get<ConstantUtf8>`: the bytes of the Utf8 constant at `id`, if that is what is there. */
  function GetUtf8(slots: Slots, id: int): Option<seq<byte>>
    requires Readable(slots, id)
  {
    match Get(slots, Utf8, id)
    case Some(Utf8Const(bytes)) => Some(bytes)
    case _ => None
  }

  /** `get<ConstantClass>`: the Class constant at `id`, if that is what is there. */
  function GetClass(slots: Slots, id: int): (r: Option<Constant>)
    requires Readable(slots, id)
    ensures r.Some? ==> r.value.ClassConst?
  {
    Get(slots, Class, id)
  }

  /** `get` finds exactly the slot at an in-range index whose tag is the requested one. */
  lemma GetFindsTaggedSlot(slots: Slots, tag: Tag, id: int)
    requires Readable(slots, id)
    ensures Get(slots, tag, id).Some? <==> 1 <= id < |slots| && slots[id].value.Tag() == tag
    ensures Get(slots, tag, id).Some? ==> Get(slots, tag, id) == slots[id]
    ensures id < 1 || id >= |slots| ==> Get(slots, tag, id) == None
  {
  }

  /** No index answers to two different tags. */
  lemma GetTagsExclusive(slots: Slots, a: Tag, b: Tag, id: int)
    requires Readable(slots, id)
    requires a != b
    ensures Get(slots, a, id).None? || Get(slots, b, id).None?
  {
  }

  /** `get<ConstantUtf8>` agrees with `get(Utf8, id)`. */
  lemma GetUtf8MatchesGet(slots: Slots, id: int)
    requires Readable(slots, id)
    ensures GetUtf8(slots, id).Some? <==> Get(slots, Utf8, id).Some?
    ensures GetUtf8(slots, id).Some? ==> Get(slots, Utf8, id) == Some(Utf8Const(GetUtf8(slots, id).value))
  {
  }

  /** `ConstantPool`: the slot vector, resized once and then written slot by slot. */
  class ConstantPool {
    var slots: Slots

    constructor ()
      ensures slots == []
    {
      slots := [];
    }

    function Size(): nat
      reads this
    {
      |slots|
    }

    /** `resize(n)`: keeps the first `n` slots and adds empty ones up to `n`. */
    method Resize(n: nat)
      modifies this
      ensures |slots| == n
      ensures forall i :: 0 <= i < n ==> slots[i] == if i < |old(slots)| then old(slots)[i] else None
    {
      if n <= |slots| {
        slots := slots[..n];
      } else {
        slots := slots + seq(n - |slots|, _ => None);
      }
    }

    /** `operator[]` read. */
    function At(id: nat): Option<Constant>
      reads this
      requires id < |slots|
    {
      slots[id]
    }

    /** `operator[]` write: only the addressed slot changes. */
    method Put(id: nat, c: Option<Constant>)
      requires id < |slots|
      modifies this
      ensures slots == old(slots)[id := c]
    {
      slots := slots[id := c];
    }
  }
}
