/**
 * What `VMClassLoader::defineClass` computes from a class-file buffer, as a
 * function of the bytes: the constant pool after its scan and its deferred
 * resolution, the header, the fields, the methods with their `Code`
 * attributes, and the class attributes.
 *
 * Each loop of the decoder is a tail-recursive function whose accumulator is
 * the state the loop has built so far, so the imperative decoder can be
 * proved to agree with it one iteration at a time. Every read goes through
 * the byte-cursor functions, so the offsets are exactly the cursor's.
 *
 * Where the decoder would crash (an unknown tag aborts, a null pointer is
 * dereferenced, an empty slot's tag is read, `operator[]` runs past the
 * pool) the result is `Faulted`/`Crashed` with the reason.
 */
module ClassFileFormat {
  import opened Wrappers
  import opened Bytes
  import opened ByteCursor
  import opened Constants
  import opened ClassModel

  /** The first four bytes of every class file. */
  const Magic: u32 := 0xCAFE_BABE

  /** Why decoding stops the process. */
  datatype Fault =
    | UnknownTag(tag: byte)     // the `default:` branch of the tag switch aborts
    | NullSlot(index: u16)      // `get` reads the tag of an empty in-range slot
    | NullDeref                 // a null constant pointer is dereferenced
    | OutOfRange(index: u16)    // unchecked `operator[]` past the end of the pool
    | Uninitialised             // `superClass_` is read although nothing was ever stored in it
    | EraseEnd                  // `erase` is handed the `end()` iterator of the class map

  /** A decoded value and the cursor offset after it, or the fault that stopped decoding. */
  datatype Parse<T> = Parsed(value: T, next: nat) | Faulted(fault: Fault)

  datatype Result<T> = Ok(value: T) | Err(fault: Fault)

  // ---------------------------------------------------------------------------
  // Constant pool: the scan

  /** The deferred records (`string_const`, `nameandtype_const`, `class_const`, `member_const`). */
  datatype StringRec = StringRec(self: u16, stringIndex: u16)
  datatype NameAndTypeRec = NameAndTypeRec(self: u16, nameIndex: u16, signatureIndex: u16)
  datatype ClassRec = ClassRec(self: u16, nameIndex: u16)
  datatype MemberRec = MemberRec(self: u16, kind: MemberTag, classIndex: u16, nameAndTypeIndex: u16)

  /** The pool slots and the four deferred vectors, as the scan loop leaves them. */
  datatype Scan = Scan(
    slots: Slots,
    strings: seq<StringRec>,
    nameAndTypes: seq<NameAndTypeRec>,
    classes: seq<ClassRec>,
    members: seq<MemberRec>)

  /** Every deferred record names a slot of the pool. */
  predicate InPool(s: Scan)
  {
    && (forall j :: 0 <= j < |s.strings| ==> s.strings[j].self < |s.slots|)
    && (forall j :: 0 <= j < |s.nameAndTypes| ==> s.nameAndTypes[j].self < |s.slots|)
    && (forall j :: 0 <= j < |s.classes| ==> s.classes[j].self < |s.slots|)
    && (forall j :: 0 <= j < |s.members| ==> s.members[j].self < |s.slots|)
  }

  /** Long and Double occupy two slots; every other entry one. */
  function NextSlot(i: nat, t: Tag): (n: nat)
    ensures n > i
  {
    if t == Long || t == Double then i + 2 else i + 1
  }

  /**
   * The same step on the source's `uint16_t` loop counter: `++i` in the
   * Long/Double case and again in the loop header, both modulo 2^16.
   */
  function NextSlotAsWritten(i: u16, t: Tag): u16
  {
    if t == Long || t == Double then ((i + 1) % 0x1_0000 + 1) % 0x1_0000 else (i + 1) % 0x1_0000
  }

  /**
   * One entry of the scan, after its tag byte: the payload read at `off`,
   * what it adds to the pool or to the deferred vectors, and the offset after it.
   */
  function ScanEntry(data: seq<byte>, off: nat, t: Tag, i: u16, acc: Scan): (r: (Scan, nat))
    requires i < |acc.slots|
    ensures |r.0.slots| == |acc.slots|
    ensures InPool(acc) ==> InPool(r.0)
  {
    match t
    case Class =>
      (acc.(classes := acc.classes + [ClassRec(i, U16At(data, off))]), After16(data, off))
    case Fieldref | Methodref | InterfaceMethodref =>
      var classIndex := U16At(data, off);
      var p := After16(data, off);
      (acc.(members := acc.members + [MemberRec(i, t, classIndex, U16At(data, p))]), After16(data, p))
    case String =>
      (acc.(strings := acc.strings + [StringRec(i, U16At(data, off))]), After16(data, off))
    case Integer =>
      (acc.(slots := acc.slots[i := Some(IntegerConst(ToInt16(U32At(data, off))))]), After32(data, off))
    case Float =>
      (acc, After32(data, off))
    case Long =>
      var hi := U32At(data, off);
      var p := After32(data, off);
      var value := hi * 0x1_0000_0000 + U32At(data, p);
      (acc.(slots := acc.slots[i := Some(LongConst(ToInt64(value)))]), After32(data, p))
    case Double =>
      (acc, After32(data, After32(data, off)))
    case NameAndType =>
      var nameIndex := U16At(data, off);
      var p := After16(data, off);
      (acc.(nameAndTypes := acc.nameAndTypes + [NameAndTypeRec(i, nameIndex, U16At(data, p))]), After16(data, p))
    case Utf8 =>
      var length := U16At(data, off);
      var p := After16(data, off);
      (acc.(slots := acc.slots[i := Some(Utf8Const(BytesAt(data, p, length)))]), AfterN(data, p, length))
    case MethodHandle =>
      (acc, After16(data, After8(data, off)))
    case MethodType =>
      (acc, After16(data, off))
    case InvokeDynamic =>
      (acc, After16(data, After16(data, off)))
  }

  /** The scan loop from slot `i` on: a tag byte, then the entry's payload. */
  function ScanFrom(data: seq<byte>, off: nat, i: nat, acc: Scan): (r: Parse<Scan>)
    requires |acc.slots| <= 0xFFFF
    ensures r.Parsed? ==> |r.value.slots| == |acc.slots|
    ensures r.Parsed? && InPool(acc) ==> InPool(r.value)
    decreases |acc.slots| - i
  {
    if i >= |acc.slots| then Parsed(acc, off)
    else
      var code := ByteAt(data, off);
      match TagOf(code)
      case None => Faulted(UnknownTag(code))
      case Some(t) =>
        var (acc', next) := ScanEntry(data, After8(data, off), t, i as u16, acc);
        ScanFrom(data, next, NextSlot(i, t), acc')
  }

  /** `constantCount` empty slots and no deferred records. */
  function EmptyScan(count: u16): Scan
  {
    Scan(seq(count, _ => None), [], [], [], [])
  }

  function ScanPool(data: seq<byte>, off: nat, count: u16): (r: Parse<Scan>)
    ensures r.Parsed? ==> |r.value.slots| == count && InPool(r.value)
  {
    ScanFrom(data, off, 1, EmptyScan(count))
  }

  // ---------------------------------------------------------------------------
  // Constant pool: deferred resolution, in the order String, NameAndType, Class, members

  function ResolveStrings(slots: Slots, recs: seq<StringRec>, k: nat): (r: Result<Slots>)
    requires k <= |recs|
    requires forall j :: 0 <= j < |recs| ==> recs[j].self < |slots|
    ensures r.Ok? ==> |r.value| == |slots|
    decreases |recs| - k
  {
    if k == |recs| then Ok(slots)
    else
      var rec := recs[k];
      if !Readable(slots, rec.stringIndex) then Err(NullSlot(rec.stringIndex))
      else
        var utf8 := GetUtf8(slots, rec.stringIndex);
        ResolveStrings(slots[rec.self := Some(StringConst(rec.stringIndex, utf8))], recs, k + 1)
  }

  function ResolveNameAndTypes(slots: Slots, recs: seq<NameAndTypeRec>, k: nat): (r: Result<Slots>)
    requires k <= |recs|
    requires forall j :: 0 <= j < |recs| ==> recs[j].self < |slots|
    ensures r.Ok? ==> |r.value| == |slots|
    decreases |recs| - k
  {
    if k == |recs| then Ok(slots)
    else
      var rec := recs[k];
      if !Readable(slots, rec.nameIndex) then Err(NullSlot(rec.nameIndex))
      else if !Readable(slots, rec.signatureIndex) then Err(NullSlot(rec.signatureIndex))
      else
        var entry := NameAndTypeConst(GetUtf8(slots, rec.nameIndex), GetUtf8(slots, rec.signatureIndex));
        ResolveNameAndTypes(slots[rec.self := Some(entry)], recs, k + 1)
  }

  function ResolveClasses(slots: Slots, recs: seq<ClassRec>, k: nat): (r: Result<Slots>)
    requires k <= |recs|
    requires forall j :: 0 <= j < |recs| ==> recs[j].self < |slots|
    ensures r.Ok? ==> |r.value| == |slots|
    decreases |recs| - k
  {
    if k == |recs| then Ok(slots)
    else
      var rec := recs[k];
      if !Readable(slots, rec.nameIndex) then Err(NullSlot(rec.nameIndex))
      else
        var name := GetUtf8(slots, rec.nameIndex);
        ResolveClasses(slots[rec.self := Some(ClassConst(rec.nameIndex, name))], recs, k + 1)
  }

  /** Member refs take whatever the two addressed slots hold: the source casts without checking. */
  function ResolveMembers(slots: Slots, recs: seq<MemberRec>, k: nat): (r: Result<Slots>)
    requires k <= |recs|
    requires forall j :: 0 <= j < |recs| ==> recs[j].self < |slots|
    ensures r.Ok? ==> |r.value| == |slots|
    decreases |recs| - k
  {
    if k == |recs| then Ok(slots)
    else
      var rec := recs[k];
      if rec.classIndex >= |slots| then Err(OutOfRange(rec.classIndex))
      else if rec.nameAndTypeIndex >= |slots| then Err(OutOfRange(rec.nameAndTypeIndex))
      else
        var entry := MemberConst(rec.kind, slots[rec.classIndex], slots[rec.nameAndTypeIndex]);
        ResolveMembers(slots[rec.self := Some(entry)], recs, k + 1)
  }

  function ResolvePool(s: Scan): (r: Result<Slots>)
    requires InPool(s)
    ensures r.Ok? ==> |r.value| == |s.slots|
  {
    match ResolveStrings(s.slots, s.strings, 0)
    case Err(f) => Err(f)
    case Ok(slots1) =>
      match ResolveNameAndTypes(slots1, s.nameAndTypes, 0)
      case Err(f) => Err(f)
      case Ok(slots2) =>
        match ResolveClasses(slots2, s.classes, 0)
        case Err(f) => Err(f)
        case Ok(slots3) => ResolveMembers(slots3, s.members, 0)
  }

  /** `constantCount`, the scan and the resolution: the finished pool and the offset after it. */
  function ReadPool(data: seq<byte>, off: nat): (r: Parse<Slots>)
    ensures r.Parsed? ==> |r.value| == U16At(data, off)
  {
    var count := U16At(data, off);
    match ScanPool(data, After16(data, off), count)
    case Faulted(f) => Faulted(f)
    case Parsed(scan, next) =>
      match ResolvePool(scan)
      case Err(f) => Faulted(f)
      case Ok(slots) => Parsed(slots, next)
  }

  // ---------------------------------------------------------------------------
  // Header: flags, this and super class, interface ids

  datatype Header = Header(
    flags: bv16,
    thisClass: Constant,
    thisClassName: string,
    superClassName: Option<string>,
    interfaceIds: seq<u16>)

  /** The interface-id loop: `count` u16 values, appended to `ids`. */
  function InterfaceIdsFrom(data: seq<byte>, off: nat, count: nat, ids: seq<u16>): (r: (seq<u16>, nat))
    requires |ids| <= count
    ensures |r.0| == count
    decreases count - |ids|
  {
    if |ids| == count then (ids, off)
    else InterfaceIdsFrom(data, After16(data, off), count, ids + [U16At(data, off)])
  }

  /** `get<ConstantClass>(id)->name->c_str()`: crashes unless a named Class constant is there. */
  function ClassNameAt(slots: Slots, id: u16): Result<(Constant, string)>
  {
    if !Readable(slots, id) then Err(NullSlot(id))
    else
      match GetClass(slots, id)
      case Some(ClassConst(nameId, Some(name))) => Ok((ClassConst(nameId, Some(name)), Chars(CStr(name))))
      case _ => Err(NullDeref)
  }

  function ReadHeader(data: seq<byte>, off: nat, slots: Slots): Parse<Header>
  {
    var flags := U16At(data, off);
    var p1 := After16(data, off);
    var thisId := U16At(data, p1);
    var p2 := After16(data, p1);
    var superId := U16At(data, p2);
    var p3 := After16(data, p2);
    var count := U16At(data, p3);
    var (ids, p4) := InterfaceIdsFrom(data, After16(data, p3), count, []);
    match ClassNameAt(slots, thisId)
    case Err(f) => Faulted(f)
    case Ok((thisClass, thisName)) =>
      if superId == 0 then Parsed(Header(flags as bv16, thisClass, thisName, None, ids), p4)
      else
        match ClassNameAt(slots, superId)
        case Err(f) => Faulted(f)
        case Ok((_, superName)) => Parsed(Header(flags as bv16, thisClass, thisName, Some(superName), ids), p4)
  }

  // ---------------------------------------------------------------------------
  // Fields

  /** A `Field` record: name and descriptor stay pool references, possibly null. */
  datatype FieldInfo = FieldInfo(name: Option<seq<byte>>, descriptor: Option<seq<byte>>, flags: bv16)

  /**
   * The field attribute loop: each attribute is skipped by its declared
   * length and only then its name is looked up (for a log line that
   * dereferences it).
   */
  function SkipFieldAttributes(data: seq<byte>, off: nat, slots: Slots, count: nat, k: nat): Parse<()>
    requires k <= count
    decreases count - k
  {
    if k == count then Parsed((), off)
    else
      var nameIndex := U16At(data, off);
      var p := After16(data, off);
      var length := U32At(data, p);
      var next := After32(data, p) + length;
      if !Readable(slots, nameIndex) then Faulted(NullSlot(nameIndex))
      else if GetUtf8(slots, nameIndex).None? then Faulted(NullDeref)
      else SkipFieldAttributes(data, next, slots, count, k + 1)
  }

  function ReadField(data: seq<byte>, off: nat, slots: Slots): Parse<FieldInfo>
  {
    var flags := U16At(data, off);
    var p1 := After16(data, off);
    var nameIndex := U16At(data, p1);
    var p2 := After16(data, p1);
    var descriptorIndex := U16At(data, p2);
    var p3 := After16(data, p2);
    var count := U16At(data, p3);
    if !Readable(slots, nameIndex) then Faulted(NullSlot(nameIndex))
    else if !Readable(slots, descriptorIndex) then Faulted(NullSlot(descriptorIndex))
    else
      var field := FieldInfo(GetUtf8(slots, nameIndex), GetUtf8(slots, descriptorIndex), flags as bv16);
      match SkipFieldAttributes(data, After16(data, p3), slots, count, 0)
      case Faulted(f) => Faulted(f)
      case Parsed(_, next) => Parsed(field, next)
  }

  function FieldsFrom(data: seq<byte>, off: nat, slots: Slots, count: nat, fields: seq<FieldInfo>): (r: Parse<seq<FieldInfo>>)
    requires |fields| <= count
    ensures r.Parsed? ==> |r.value| == count && r.value[..|fields|] == fields
    decreases count - |fields|
  {
    if |fields| == count then Parsed(fields, off)
    else
      match ReadField(data, off, slots)
      case Faulted(f) => Faulted(f)
      case Parsed(field, next) => FieldsFrom(data, next, slots, count, fields + [field])
  }

  function ReadFields(data: seq<byte>, off: nat, slots: Slots): (r: Parse<seq<FieldInfo>>)
    ensures r.Parsed? ==> |r.value| == U16At(data, off)
  {
    FieldsFrom(data, After16(data, off), slots, U16At(data, off), [])
  }

  // ---------------------------------------------------------------------------
  // Methods and their attributes

  /** The exception-table loop: `count` handlers pushed onto `table` in input order. */
  function HandlersFrom(data: seq<byte>, off: nat, count: nat, k: nat, table: seq<ExceptionHandler>): (r: (seq<ExceptionHandler>, nat))
    requires k <= count
    ensures |r.0| == |table| + count - k
    decreases count - k
  {
    if k == count then (table, off)
    else
      var start := U16At(data, off);
      var p1 := After16(data, off);
      var end := U16At(data, p1);
      var p2 := After16(data, p1);
      var handler := U16At(data, p2);
      var p3 := After16(data, p2);
      var catchType := U16At(data, p3);
      HandlersFrom(data, After16(data, p3), count, k + 1, table + [ExceptionHandler(start, end, handler, catchType)])
  }

  /** The line-number loop: `count` (start, line) pairs after the ones in `table`. */
  function LineNumbersFrom(data: seq<byte>, off: nat, count: nat, table: seq<LineNumber>): (r: (seq<LineNumber>, nat))
    requires |table| <= count
    ensures |r.0| == count
    decreases count - |table|
  {
    if |table| == count then (table, off)
    else
      var start := U16At(data, off);
      var p := After16(data, off);
      LineNumbersFrom(data, After16(data, p), count, table + [LineNumber(start, U16At(data, p))])
  }

  /** One attribute nested in `Code`: `LineNumberTable` replaces the table, anything else is skipped. */
  function CodeSubAttribute(data: seq<byte>, off: nat, slots: Slots, m: MethodInfo): Parse<MethodInfo>
  {
    var nameId := U16At(data, off);
    var p := After16(data, off);
    var length := U32At(data, p);
    var q := After32(data, p);
    if !Readable(slots, nameId) then Faulted(NullSlot(nameId))
    else
      match GetUtf8(slots, nameId)
      case None => Faulted(NullDeref)
      case Some(name) =>
        if Equals(name, "LineNumberTable") then
          var count := U16At(data, q);
          var (table, next) := LineNumbersFrom(data, After16(data, q), count, []);
          Parsed(m.(lineNumberTable := table), next)
        else
          Parsed(m, q + length)
  }

  function CodeSubAttributes(data: seq<byte>, off: nat, slots: Slots, count: nat, k: nat, m: MethodInfo): Parse<MethodInfo>
    requires k <= count
    decreases count - k
  {
    if k == count then Parsed(m, off)
    else
      match CodeSubAttribute(data, off, slots, m)
      case Faulted(f) => Faulted(f)
      case Parsed(m', next) => CodeSubAttributes(data, next, slots, count, k + 1, m')
  }

  /** The body of a `Code` attribute, after its name and length. */
  function CodeAttribute(data: seq<byte>, off: nat, slots: Slots, m: MethodInfo): Parse<MethodInfo>
  {
    var maxStack := U16At(data, off);
    var p1 := After16(data, off);
    var maxLocals := U16At(data, p1);
    var p2 := After16(data, p1);
    var codeLength := U32At(data, p2);
    var p3 := After32(data, p2);
    var code := BytesAt(data, p3, codeLength);
    var p4 := AfterN(data, p3, codeLength);
    var handlerCount := U16At(data, p4);
    var (table, p5) := HandlersFrom(data, After16(data, p4), handlerCount, 0, m.exceptionTable);
    var m' := m.(maxStack := maxStack, maxLocals := maxLocals, code := code, exceptionTable := table);
    var count := U16At(data, p5);
    CodeSubAttributes(data, After16(data, p5), slots, count, 0, m')
  }

  /**
   * One method attribute. `Deprecated` consumes nothing after its header and
   * `Signature` only its index; `Code` is decoded; anything else is skipped.
   */
  function MethodAttribute(data: seq<byte>, off: nat, slots: Slots, m: MethodInfo): Parse<MethodInfo>
  {
    var nameIndex := U16At(data, off);
    var p := After16(data, off);
    var length := U32At(data, p);
    var q := After32(data, p);
    if !Readable(slots, nameIndex) then Faulted(NullSlot(nameIndex))
    else
      match GetUtf8(slots, nameIndex)
      case None => Faulted(NullDeref)
      case Some(name) =>
        if Equals(name, "Deprecated") then Parsed(m.(isDeprecated := true), q)
        else if Equals(name, "Signature") then
          var signatureId := U16At(data, q);
          if !Readable(slots, signatureId) then Faulted(NullSlot(signatureId))
          else if GetUtf8(slots, signatureId).None? then Faulted(NullDeref)
          else Parsed(m, After16(data, q))
        else if Equals(name, "Code") then CodeAttribute(data, q, slots, m)
        else Parsed(m, q + length)
  }

  function MethodAttributes(data: seq<byte>, off: nat, slots: Slots, count: nat, k: nat, m: MethodInfo): Parse<MethodInfo>
    requires k <= count
    decreases count - k
  {
    if k == count then Parsed(m, off)
    else
      match MethodAttribute(data, off, slots, m)
      case Faulted(f) => Faulted(f)
      case Parsed(m', next) => MethodAttributes(data, next, slots, count, k + 1, m')
  }

  /** One method: flags, name, descriptor (both must be Utf8 constants), then its attributes. */
  function ReadMethod(data: seq<byte>, off: nat, slots: Slots): Parse<MethodInfo>
  {
    var flags := U16At(data, off);
    var p1 := After16(data, off);
    var nameIndex := U16At(data, p1);
    var p2 := After16(data, p1);
    var descriptorIndex := U16At(data, p2);
    var p3 := After16(data, p2);
    var count := U16At(data, p3);
    if !Readable(slots, nameIndex) then Faulted(NullSlot(nameIndex))
    else if !Readable(slots, descriptorIndex) then Faulted(NullSlot(descriptorIndex))
    else
      match (GetUtf8(slots, nameIndex), GetUtf8(slots, descriptorIndex))
      case (Some(name), Some(descriptor)) =>
        MethodAttributes(data, After16(data, p3), slots, count, 0, NewMethodInfo(name, descriptor, flags as bv16))
      case _ => Faulted(NullDeref)
  }

  function MethodsFrom(data: seq<byte>, off: nat, slots: Slots, count: nat, methods: seq<MethodInfo>): (r: Parse<seq<MethodInfo>>)
    requires |methods| <= count
    ensures r.Parsed? ==> |r.value| == count && r.value[..|methods|] == methods
    decreases count - |methods|
  {
    if |methods| == count then Parsed(methods, off)
    else
      match ReadMethod(data, off, slots)
      case Faulted(f) => Faulted(f)
      case Parsed(m, next) => MethodsFrom(data, next, slots, count, methods + [m])
  }

  function ReadMethods(data: seq<byte>, off: nat, slots: Slots): (r: Parse<seq<MethodInfo>>)
    ensures r.Parsed? ==> |r.value| == U16At(data, off)
  {
    MethodsFrom(data, After16(data, off), slots, U16At(data, off), [])
  }

  // ---------------------------------------------------------------------------
  // Class attributes

  /** The class attribute loop: `SourceFile` sets the source file name, anything else is skipped. */
  function ClassAttributes(data: seq<byte>, off: nat, slots: Slots, count: nat, k: nat, sourceFile: string): Parse<string>
    requires k <= count
    decreases count - k
  {
    if k == count then Parsed(sourceFile, off)
    else
      var nameId := U16At(data, off);
      var p := After16(data, off);
      var length := U32At(data, p);
      var q := After32(data, p);
      if !Readable(slots, nameId) then Faulted(NullSlot(nameId))
      else
        match GetUtf8(slots, nameId)
        case None => Faulted(NullDeref)
        case Some(name) =>
          if Equals(name, "SourceFile") then
            var value := U16At(data, q);
            if !Readable(slots, value) then Faulted(NullSlot(value))
            else
              match GetUtf8(slots, value)
              case None => Faulted(NullDeref)
              case Some(file) => ClassAttributes(data, After16(data, q), slots, count, k + 1, Chars(CStr(file)))
          else
            ClassAttributes(data, q + length, slots, count, k + 1, sourceFile)
  }

  function ReadClassAttributes(data: seq<byte>, off: nat, slots: Slots): Parse<string>
  {
    ClassAttributes(data, After16(data, off), slots, U16At(data, off), 0, "")
  }

  // ---------------------------------------------------------------------------
  // The whole class

  /** Everything `defineClass` stores in the new `Class`. */
  datatype ClassInfo = ClassInfo(
    minor: u16,
    major: u16,
    pool: Slots,
    header: Header,
    fields: seq<FieldInfo>,
    methods: seq<MethodInfo>,
    sourceFile: string)

  datatype DefineOutcome = BadMagic | Crashed(fault: Fault) | Defined(info: ClassInfo)

  /** Fields, methods and class attributes, in that order. */
  function ReadMembers(data: seq<byte>, off: nat, slots: Slots): Parse<(seq<FieldInfo>, seq<MethodInfo>, string)>
  {
    match ReadFields(data, off, slots)
    case Faulted(f) => Faulted(f)
    case Parsed(fields, p1) =>
      match ReadMethods(data, p1, slots)
      case Faulted(f) => Faulted(f)
      case Parsed(methods, p2) =>
        match ReadClassAttributes(data, p2, slots)
        case Faulted(f) => Faulted(f)
        case Parsed(sourceFile, p3) => Parsed((fields, methods, sourceFile), p3)
  }

  /** Everything after the constant pool. */
  function ReadBody(data: seq<byte>, off: nat, slots: Slots): Parse<(Header, seq<FieldInfo>, seq<MethodInfo>, string)>
  {
    match ReadHeader(data, off, slots)
    case Faulted(f) => Faulted(f)
    case Parsed(header, p1) =>
      match ReadMembers(data, p1, slots)
      case Faulted(f) => Faulted(f)
      case Parsed((fields, methods, sourceFile), p2) => Parsed((header, fields, methods, sourceFile), p2)
  }

  /** Everything after the magic number: the version, the constant pool and the body. */
  function ReadContents(data: seq<byte>, off: nat): Parse<ClassInfo>
  {
    var minor := U16At(data, off);
    var p0 := After16(data, off);
    var major := U16At(data, p0);
    match ReadPool(data, After16(data, p0))
    case Faulted(f) => Faulted(f)
    case Parsed(slots, p1) =>
      match ReadBody(data, p1, slots)
      case Faulted(f) => Faulted(f)
      case Parsed((header, fields, methods, sourceFile), p2) =>
        Parsed(ClassInfo(minor, major, slots, header, fields, methods, sourceFile), p2)
  }

  /** `defineClass(className, classfile, size)` on the bytes `data`. */
  function Define(data: seq<byte>): DefineOutcome
  {
    if U32At(data, 0) != Magic then BadMagic
    else
      match ReadContents(data, After32(data, 0))
      case Faulted(f) => Crashed(f)
      case Parsed(info, _) => Defined(info)
  }
}
