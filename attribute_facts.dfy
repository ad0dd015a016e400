/**
 * What `defineClass` promises about everything after the constant pool:
 * the magic check, the header's super-class rule, the shape of a `Code`
 * attribute, and the attributes that are skipped by exactly their
 * declared length. Also the wrap-around of the scan's 16-bit slot counter.
 */
module AttributeFacts {
  import opened Wrappers
  import opened Bytes
  import opened ByteCursor
  import opened Constants
  import opened ClassModel
  import opened ClassFileFormat

  // ---------------------------------------------------------------------
  // Magic and header

  /** A base-256 digit pair determines its digits. */
  lemma DigitsUnique(high: int, low: int, h: int, l: int)
    requires 0 <= low < 0x100 && 0 <= l < 0x100
    ensures high * 0x100 + low == h * 0x100 + l <==> high == h && low == l
  {
  }

  /** The first four bytes read as 0xCAFEBABE exactly when they are CA FE BA BE. */
  lemma MagicBytes(data: seq<byte>)
    requires |data| >= 4
    ensures U32At(data, 0) == Magic <==> [data[0], data[1], data[2], data[3]] == [0xCA, 0xFE, 0xBA, 0xBE]
  {
    U32InBounds(data, 0);
    var ab := data[0] as int * 0x100 + data[1];
    var abc := ab * 0x100 + data[2];
    DigitsUnique(abc, data[3] as int, 0xCAFEBA, 0xBE);
    DigitsUnique(ab, data[2] as int, 0xCAFE, 0xBA);
    DigitsUnique(data[0] as int, data[1] as int, 0xCA, 0xFE);
  }

  /** Only a buffer that does not start with 0xCAFEBABE is refused outright. */
  lemma BadMagicExactly(data: seq<byte>)
    requires |data| >= 4
    ensures Define(data) == BadMagic <==>
      [data[0], data[1], data[2], data[3]] != [0xCA, 0xFE, 0xBA, 0xBE]
  {
    MagicBytes(data);
  }

  /** The super-class name is read exactly when the super-class id is not 0. */
  lemma SuperNameIffNonZeroId(data: seq<byte>, off: nat, slots: Slots)
    requires ReadHeader(data, off, slots).Parsed?
    ensures var superId := U16At(data, After16(data, After16(data, off)));
      ReadHeader(data, off, slots).value.superClassName.None? <==> superId == 0
  {
  }

  /** The interface ids are stored raw, in input order. */
  lemma {:induction false} InterfaceIdsInOrder(data: seq<byte>, off: nat, count: nat, ids: seq<u16>)
    requires |ids| <= count && off + 2 * (count - |ids|) <= |data|
    ensures var (all, next) := InterfaceIdsFrom(data, off, count, ids);
      && all[..|ids|] == ids
      && next == off + 2 * (count - |ids|)
      && forall j :: 0 <= j < count - |ids| ==> all[|ids| + j] == U16At(data, off + 2 * j)
    decreases count - |ids|
  {
    if |ids| < count {
      U16InBounds(data, off);
      InterfaceIdsInOrder(data, off + 2, count, ids + [U16At(data, off)]);
      var all := InterfaceIdsFrom(data, off, count, ids).0;
      assert all[..|ids| + 1][..|ids|] == all[..|ids|];
      forall j | 1 <= j < count - |ids|
        ensures all[|ids| + j] == U16At(data, off + 2 * j)
      {
        assert all[|ids| + 1 + (j - 1)] == U16At(data, off + 2 + 2 * (j - 1));
      }
    }
  }

  // ---------------------------------------------------------------------
  // The Code attribute

  /** The exception-table record at `off`: four 16-bit ids in a row. */
  function HandlerAt(data: seq<byte>, off: nat): ExceptionHandler
  {
    ExceptionHandler(U16At(data, off), U16At(data, off + 2), U16At(data, off + 4), U16At(data, off + 6))
  }

  /** One turn of the exception-table loop reads the record at `off` and moves 8 bytes on. */
  lemma HandlerStep(data: seq<byte>, off: nat, count: nat, k: nat, table: seq<ExceptionHandler>)
    requires k < count && off + 8 <= |data|
    ensures HandlersFrom(data, off, count, k, table)
            == HandlersFrom(data, off + 8, count, k + 1, table + [HandlerAt(data, off)])
  {
    U16InBounds(data, off);
    U16InBounds(data, off + 2);
    U16InBounds(data, off + 4);
    U16InBounds(data, off + 6);
  }

  /** The exception-table loop appends its records, each 8 bytes, in input order. */
  lemma {:induction false} HandlersInOrder(data: seq<byte>, off: nat, count: nat, k: nat, table: seq<ExceptionHandler>)
    requires k <= count && off + 8 * (count - k) <= |data|
    ensures var (all, next) := HandlersFrom(data, off, count, k, table);
      && all[..|table|] == table
      && next == off + 8 * (count - k)
      && forall j :: 0 <= j < count - k ==> all[|table| + j] == HandlerAt(data, off + 8 * j)
    decreases count - k
  {
    if k < count {
      HandlerStep(data, off, count, k, table);
      HandlersInOrder(data, off + 8, count, k + 1, table + [HandlerAt(data, off)]);
      var all := HandlersFrom(data, off, count, k, table).0;
      assert all[..|table| + 1][..|table|] == all[..|table|];
      forall j | 1 <= j < count - k
        ensures all[|table| + j] == HandlerAt(data, off + 8 * j)
      {
        assert off + 8 + 8 * (j - 1) == off + 8 * j;
      }
    }
  }

  /** The line-number loop reads `count` pairs of 4 bytes, in input order. */
  lemma {:induction false} LineNumbersInOrder(data: seq<byte>, off: nat, count: nat, table: seq<LineNumber>)
    requires |table| <= count && off + 4 * (count - |table|) <= |data|
    ensures var (all, next) := LineNumbersFrom(data, off, count, table);
      && all[..|table|] == table
      && next == off + 4 * (count - |table|)
      && forall j :: 0 <= j < count - |table| ==>
           all[|table| + j] == LineNumber(U16At(data, off + 4 * j), U16At(data, off + 4 * j + 2))
    decreases count - |table|
  {
    if |table| < count {
      U16InBounds(data, off);
      U16InBounds(data, off + 2);
      LineNumbersInOrder(data, off + 4, count, table + [LineNumber(U16At(data, off), U16At(data, off + 2))]);
      var all := LineNumbersFrom(data, off, count, table).0;
      assert all[..|table| + 1][..|table|] == all[..|table|];
      forall j | 1 <= j < count - |table|
        ensures all[|table| + j] == LineNumber(U16At(data, off + 4 * j), U16At(data, off + 4 * j + 2))
      {
        assert off + 4 + 4 * (j - 1) == off + 4 * j;
      }
    }
  }

  /** The attributes nested in `Code` change the line-number table and nothing else. */
  lemma {:induction false} CodeSubAttributesOnlySetLines(data: seq<byte>, off: nat, slots: Slots, count: nat, k: nat, m: MethodInfo)
    requires k <= count
    ensures CodeSubAttributes(data, off, slots, count, k, m).Parsed? ==>
      var m' := CodeSubAttributes(data, off, slots, count, k, m).value;
      m' == m.(lineNumberTable := m'.lineNumberTable)
    decreases count - k
  {
    if k < count {
      match CodeSubAttribute(data, off, slots, m)
      case Faulted(_) =>
      case Parsed(m1, next) =>
        CodeSubAttributesOnlySetLines(data, next, slots, count, k + 1, m1);
    }
  }

  /**
   * A `Code` attribute sets the two limits, exactly `codeLength` code bytes
   * (0xFF past the end of the buffer), and appends exactly
   * `exceptionTableLength` handlers to the table.
   */
  lemma CodeAttributeShape(data: seq<byte>, off: nat, slots: Slots, m: MethodInfo)
    requires CodeAttribute(data, off, slots, m).Parsed?
    ensures var m' := CodeAttribute(data, off, slots, m).value;
      var p2 := After16(data, After16(data, off));
      var codeLength := U32At(data, p2);
      var p4 := AfterN(data, After32(data, p2), codeLength);
      && m'.maxStack == U16At(data, off)
      && m'.maxLocals == U16At(data, After16(data, off))
      && |m'.code| == codeLength
      && m'.code == BytesAt(data, After32(data, p2), codeLength)
      && |m'.exceptionTable| == |m.exceptionTable| + U16At(data, p4)
      && m'.name == m.name && m'.signature == m.signature && m'.flags == m.flags
      && m'.isDeprecated == m.isDeprecated
  {
    var p2 := After16(data, After16(data, off));
    var codeLength := U32At(data, p2);
    var p3 := After32(data, p2);
    BytesAtPositions(data, p3, codeLength);
    var p4 := AfterN(data, p3, codeLength);
    var (table, p5) := HandlersFrom(data, After16(data, p4), U16At(data, p4), 0, m.exceptionTable);
    var m1 := m.(maxStack := U16At(data, off), maxLocals := U16At(data, After16(data, off)),
                 code := BytesAt(data, p3, codeLength), exceptionTable := table);
    CodeSubAttributesOnlySetLines(data, After16(data, p5), slots, U16At(data, p5), 0, m1);
  }

  /** A `LineNumberTable` replaces the table with exactly `count` pairs. */
  lemma LineNumberTableSize(data: seq<byte>, off: nat, slots: Slots, m: MethodInfo)
    requires off + 6 <= |data|
    requires Readable(slots, U16At(data, off)) && GetUtf8(slots, U16At(data, off)).Some?
    requires Equals(GetUtf8(slots, U16At(data, off)).value, "LineNumberTable")
    ensures CodeSubAttribute(data, off, slots, m).Parsed?
    ensures |CodeSubAttribute(data, off, slots, m).value.lineNumberTable| == U16At(data, off + 6)
  {
    U16InBounds(data, off);
    U32InBounds(data, off + 2);
  }

  // ---------------------------------------------------------------------
  // Attributes skipped by their declared length

  /** The attribute header at `off` names the Utf8 constant `name`. */
  predicate NamedAt(data: seq<byte>, off: nat, slots: Slots, name: string)
  {
    && Readable(slots, U16At(data, off))
    && GetUtf8(slots, U16At(data, off)).Some?
    && Equals(GetUtf8(slots, U16At(data, off)).value, name)
  }

  /** The attribute at `off` names some Utf8 constant other than the listed ones. */
  predicate NamedOtherThan(data: seq<byte>, off: nat, slots: Slots, known: set<string>)
  {
    && Readable(slots, U16At(data, off))
    && GetUtf8(slots, U16At(data, off)).Some?
    && forall name :: name in known ==> !Equals(GetUtf8(slots, U16At(data, off)).value, name)
  }

  /** The offset just past the attribute at `off`: its 6-byte header plus its declared length. */
  function AttributeEnd(data: seq<byte>, off: nat): nat
  {
    off + 6 + U32At(data, off + 2)
  }

  /**
   * A method attribute other than `Deprecated`, `Signature` and `Code`
   * leaves the method as it is and skips exactly its declared length.
   */
  lemma MethodAttributeSkipped(data: seq<byte>, off: nat, slots: Slots, m: MethodInfo)
    requires off + 6 <= |data|
    requires NamedOtherThan(data, off, slots, {"Deprecated", "Signature", "Code"})
    ensures MethodAttribute(data, off, slots, m) == Parsed(m, AttributeEnd(data, off))
  {
    U16InBounds(data, off);
    U32InBounds(data, off + 2);
    var name := GetUtf8(slots, U16At(data, off)).value;
    assert !Equals(name, "Deprecated") && !Equals(name, "Signature") && !Equals(name, "Code");
  }

  /**
   * Inside `Code`, every attribute but `LineNumberTable` (so
   * `LocalVariableTable`, `LocalVariableTypeTable`, `StackMapTable` and any
   * unknown one) is skipped by exactly its declared length.
   */
  lemma CodeSubAttributeSkipped(data: seq<byte>, off: nat, slots: Slots, m: MethodInfo)
    requires off + 6 <= |data|
    requires NamedOtherThan(data, off, slots, {"LineNumberTable"})
    ensures CodeSubAttribute(data, off, slots, m) == Parsed(m, AttributeEnd(data, off))
  {
    U16InBounds(data, off);
    U32InBounds(data, off + 2);
    assert !Equals(GetUtf8(slots, U16At(data, off)).value, "LineNumberTable");
  }

  /** A class attribute other than `SourceFile` is skipped by exactly its declared length. */
  lemma ClassAttributeSkipped(data: seq<byte>, off: nat, slots: Slots, count: nat, k: nat, sourceFile: string)
    requires k < count && off + 6 <= |data|
    requires NamedOtherThan(data, off, slots, {"SourceFile"})
    ensures ClassAttributes(data, off, slots, count, k, sourceFile)
            == ClassAttributes(data, AttributeEnd(data, off), slots, count, k + 1, sourceFile)
  {
    U16InBounds(data, off);
    U32InBounds(data, off + 2);
    assert !Equals(GetUtf8(slots, U16At(data, off)).value, "SourceFile");
  }

  /** Every field attribute, whatever its name, is skipped by exactly its declared length. */
  lemma FieldAttributeSkipped(data: seq<byte>, off: nat, slots: Slots, count: nat, k: nat)
    requires k < count && off + 6 <= |data|
    requires Readable(slots, U16At(data, off)) && GetUtf8(slots, U16At(data, off)).Some?
    ensures SkipFieldAttributes(data, off, slots, count, k)
            == SkipFieldAttributes(data, AttributeEnd(data, off), slots, count, k + 1)
  {
    U16InBounds(data, off);
    U32InBounds(data, off + 2);
  }

  // ---------------------------------------------------------------------
  // The 16-bit slot counter

  /**
   * Below the top of the 16-bit range the source's counter steps exactly
   * like the unbounded one.
   */
  lemma CounterAgreesBelowWrap(i: u16, t: Tag)
    requires NextSlot(i, t) < 0x1_0000
    ensures NextSlotAsWritten(i, t) == NextSlot(i, t)
  {
  }

  /**
   * A Long or Double in slot 65534 of a 65535-slot pool: the 16-bit
   * counter wraps to 0, which is below the count, so the source goes on
   * scanning into slot 0; the unbounded counter ends the scan.
   */
  lemma CounterWrapsToSlotZero(t: Tag)
    requires t == Long || t == Double
    ensures NextSlotAsWritten(0xFFFE, t) == 0 && 0 < 0xFFFF
    ensures NextSlot(0xFFFE, t) >= 0xFFFF
  {
  }

  /**
   * The step after the wrap: the Long is stored at slot 65534, the 16-bit
   * counter comes back as 0, and when the next tag stores a value the source
   * writes it into slot 0, the slot every pool reader treats as empty.
   */
  lemma WrappedScanWritesSlotZero(data: seq<byte>, off: nat, acc: Scan)
    requires |acc.slots| == 0xFFFF
    requires TagOf(ByteAt(data, off)) == Some(Long)
    ensures var (acc1, next) := ScanEntry(data, After8(data, off), Long, 0xFFFE, acc);
      var i := NextSlotAsWritten(0xFFFE, Long);
      var t := TagOf(ByteAt(data, next));
      && i == 0 && i < |acc1.slots| && acc1.slots[0xFFFE].Some?
      && (t == Some(Integer) || t == Some(Long) || t == Some(Utf8) ==>
            ScanEntry(data, After8(data, next), t.value, i, acc1).0.slots[0].Some?)
    ensures NextSlot(0xFFFE, Long) >= |acc.slots|
  {
  }
}
