/**
 * The body of `VMClassLoader::defineClass` as the source runs it: a cursor
 * over the buffer, the pool's slots written in place, the deferred vectors
 * grown by appending, and `Field`/`Method` objects created and filled in.
 *
 * Each method is proved to do what the matching function of
 * `ClassFileFormat` says: on success it leaves the cursor at the offset the
 * function reaches and builds the same value; where the function faults, it
 * returns the same fault (the point at which the process would die).
 */
module Decoder {
  import opened Wrappers
  import opened Bytes
  import opened ByteCursor
  import opened Constants
  import opened ClassModel
  import opened ClassFileFormat

  /** A step that yields a value and moves the cursor agrees with its specification. */
  ghost predicate Agrees<T>(r: Parse<T>, fault: Option<Fault>, offset: nat, value: T)
  {
    match r
    case Faulted(f) => fault == Some(f)
    case Parsed(v, next) => fault == None && offset == next && value == v
  }

  /** A step that only changes a value agrees with its specification. */
  ghost predicate Settles<T>(r: Result<T>, fault: Option<Fault>, value: T)
  {
    match r
    case Err(f) => fault == Some(f)
    case Ok(v) => fault == None && value == v
  }

  // ---------------------------------------------------------------------------
  // The constant pool

  /** One `case` of the tag switch, after the tag byte. */
  method ReadEntry(cur: Cursor, pool: ConstantPool, t: Tag, i: u16,
                   strings: seq<StringRec>, nameAndTypes: seq<NameAndTypeRec>,
                   classes: seq<ClassRec>, members: seq<MemberRec>)
    returns (strings': seq<StringRec>, nameAndTypes': seq<NameAndTypeRec>,
             classes': seq<ClassRec>, members': seq<MemberRec>)
    requires cur != pool as object && i < |pool.slots|
    modifies cur, pool
    ensures ScanEntry(cur.data, old(cur.offset), t, i, Scan(old(pool.slots), strings, nameAndTypes, classes, members))
            == (Scan(pool.slots, strings', nameAndTypes', classes', members'), cur.offset)
  {
    strings', nameAndTypes', classes', members' := strings, nameAndTypes, classes, members;
    match t
    case Class =>
      var nameIndex := cur.Read16();
      classes' := classes + [ClassRec(i, nameIndex)];
    case Fieldref | Methodref | InterfaceMethodref =>
      var classIndex := cur.Read16();
      var nameAndTypeIndex := cur.Read16();
      members' := members + [MemberRec(i, t, classIndex, nameAndTypeIndex)];
    case String =>
      var stringIndex := cur.Read16();
      strings' := strings + [StringRec(i, stringIndex)];
    case Integer =>
      var value := cur.Read32();
      pool.Put(i, Some(IntegerConst(ToInt16(value))));
    case Float =>
      var _ := cur.Read32();
    case Long =>
      var hi := cur.Read32();
      var lo := cur.Read32();
      pool.Put(i, Some(LongConst(ToInt64(hi as int * 0x1_0000_0000 + lo))));
    case Double =>
      var _ := cur.Read32();
      var _ := cur.Read32();
    case NameAndType =>
      var nameIndex := cur.Read16();
      var signatureIndex := cur.Read16();
      nameAndTypes' := nameAndTypes + [NameAndTypeRec(i, nameIndex, signatureIndex)];
    case Utf8 =>
      var length := cur.Read16();
      var buf := new byte[length + 1];
      cur.ReadN(buf, length);
      buf[length] := 0;
      pool.Put(i, Some(Utf8Const(buf[..length])));
    case MethodHandle =>
      var _ := cur.Read8();
      var _ := cur.Read16();
    case MethodType =>
      var _ := cur.Read16();
    case InvokeDynamic =>
      var _ := cur.Read16();
      var _ := cur.Read16();
  }

  /** One turn of the constant-pool scan, at a slot below the count. */
  lemma ScanFromStep(data: seq<byte>, off: nat, i: nat, acc: Scan)
    requires i < |acc.slots| <= 0xFFFF
    ensures TagOf(ByteAt(data, off)).None? ==> ScanFrom(data, off, i, acc) == Faulted(UnknownTag(ByteAt(data, off)))
    ensures TagOf(ByteAt(data, off)).Some? ==>
              var t := TagOf(ByteAt(data, off)).value;
              var e := ScanEntry(data, After8(data, off), t, i as u16, acc);
              ScanFrom(data, off, i, acc) == ScanFrom(data, e.1, NextSlot(i, t), e.0)
  {
  }

  /** The scan loop over slots 1 .. `constantCount - 1` of a pool of empty slots. */
  method ScanConstants(cur: Cursor, pool: ConstantPool, count: u16)
    returns (fault: Option<Fault>, strings: seq<StringRec>, nameAndTypes: seq<NameAndTypeRec>,
             classes: seq<ClassRec>, members: seq<MemberRec>)
    requires cur != pool as object
    requires pool.slots == EmptyScan(count).slots
    modifies cur, pool
    ensures Agrees(ScanPool(cur.data, old(cur.offset), count), fault, cur.offset,
                   Scan(pool.slots, strings, nameAndTypes, classes, members))
  {
    strings, nameAndTypes, classes, members := [], [], [], [];
    ghost var start := cur.offset;
    var i: nat := 1;
    while i < count as nat
      invariant |pool.slots| == count
      invariant ScanFrom(cur.data, cur.offset, i, Scan(pool.slots, strings, nameAndTypes, classes, members))
                == ScanPool(cur.data, start, count)
      decreases count as int - i
    {
      ghost var off := cur.offset;
      ghost var acc := Scan(pool.slots, strings, nameAndTypes, classes, members);
      var code := cur.Read8();
      var tag := TagOf(code);
      if tag.None? {
        ScanFromStep(cur.data, off, i, acc);
        return Some(UnknownTag(code)), strings, nameAndTypes, classes, members;
      }
      var t := tag.value;
      strings, nameAndTypes, classes, members :=
        ReadEntry(cur, pool, t, i as u16, strings, nameAndTypes, classes, members);
      ScanFromStep(cur.data, off, i, acc);
      ghost var next := NextSlot(i, t);
      if t == Long || t == Double {
        i := i + 1;
      }
      i := i + 1;
      assert i == next;
    }
    fault := None;
  }

  method ResolveStringConstants(pool: ConstantPool, recs: seq<StringRec>) returns (fault: Option<Fault>)
    requires forall j :: 0 <= j < |recs| ==> recs[j].self < |pool.slots|
    modifies pool
    ensures Settles(ResolveStrings(old(pool.slots), recs, 0), fault, pool.slots)
  {
    for k := 0 to |recs|
      invariant |pool.slots| == |old(pool.slots)|
      invariant ResolveStrings(pool.slots, recs, k) == ResolveStrings(old(pool.slots), recs, 0)
    {
      var rec := recs[k];
      if !Readable(pool.slots, rec.stringIndex) {
        return Some(NullSlot(rec.stringIndex));
      }
      var utf8 := GetUtf8(pool.slots, rec.stringIndex);
      pool.Put(rec.self, Some(StringConst(rec.stringIndex, utf8)));
    }
    fault := None;
  }

  method ResolveNameAndTypeConstants(pool: ConstantPool, recs: seq<NameAndTypeRec>) returns (fault: Option<Fault>)
    requires forall j :: 0 <= j < |recs| ==> recs[j].self < |pool.slots|
    modifies pool
    ensures Settles(ResolveNameAndTypes(old(pool.slots), recs, 0), fault, pool.slots)
  {
    for k := 0 to |recs|
      invariant |pool.slots| == |old(pool.slots)|
      invariant ResolveNameAndTypes(pool.slots, recs, k) == ResolveNameAndTypes(old(pool.slots), recs, 0)
    {
      var rec := recs[k];
      if !Readable(pool.slots, rec.nameIndex) {
        return Some(NullSlot(rec.nameIndex));
      }
      var name := GetUtf8(pool.slots, rec.nameIndex);
      if !Readable(pool.slots, rec.signatureIndex) {
        return Some(NullSlot(rec.signatureIndex));
      }
      var signature := GetUtf8(pool.slots, rec.signatureIndex);
      pool.Put(rec.self, Some(NameAndTypeConst(name, signature)));
    }
    fault := None;
  }

  method ResolveClassConstants(pool: ConstantPool, recs: seq<ClassRec>) returns (fault: Option<Fault>)
    requires forall j :: 0 <= j < |recs| ==> recs[j].self < |pool.slots|
    modifies pool
    ensures Settles(ResolveClasses(old(pool.slots), recs, 0), fault, pool.slots)
  {
    for k := 0 to |recs|
      invariant |pool.slots| == |old(pool.slots)|
      invariant ResolveClasses(pool.slots, recs, k) == ResolveClasses(old(pool.slots), recs, 0)
    {
      var rec := recs[k];
      if !Readable(pool.slots, rec.nameIndex) {
        return Some(NullSlot(rec.nameIndex));
      }
      var name := GetUtf8(pool.slots, rec.nameIndex);
      pool.Put(rec.self, Some(ClassConst(rec.nameIndex, name)));
    }
    fault := None;
  }

  method ResolveMemberConstants(pool: ConstantPool, recs: seq<MemberRec>) returns (fault: Option<Fault>)
    requires forall j :: 0 <= j < |recs| ==> recs[j].self < |pool.slots|
    modifies pool
    ensures Settles(ResolveMembers(old(pool.slots), recs, 0), fault, pool.slots)
  {
    for k := 0 to |recs|
      invariant |pool.slots| == |old(pool.slots)|
      invariant ResolveMembers(pool.slots, recs, k) == ResolveMembers(old(pool.slots), recs, 0)
    {
      var rec := recs[k];
      if rec.classIndex >= |pool.slots| {
        return Some(OutOfRange(rec.classIndex));
      }
      var classRef := pool.At(rec.classIndex);
      if rec.nameAndTypeIndex >= |pool.slots| {
        return Some(OutOfRange(rec.nameAndTypeIndex));
      }
      var nameAndTypeRef := pool.At(rec.nameAndTypeIndex);
      pool.Put(rec.self, Some(MemberConst(rec.kind, classRef, nameAndTypeRef)));
    }
    fault := None;
  }

  /** `constantCount`, `resize`, the null-filling loop, the scan and the four resolution loops. */
  method ReadConstantPool(cur: Cursor, pool: ConstantPool) returns (fault: Option<Fault>)
    requires cur != pool as object
    modifies cur, pool
    ensures Agrees(ReadPool(cur.data, old(cur.offset)), fault, cur.offset, pool.slots)
  {
    var count := cur.Read16();
    ghost var afterCount := cur.offset;
    pool.Resize(count as nat);
    for j := 0 to count as nat
      modifies pool
      invariant |pool.slots| == count
      invariant forall k :: 0 <= k < j ==> pool.slots[k] == None
    {
      pool.Put(j, None);
    }
    assert pool.slots == EmptyScan(count).slots;
    var strings, nameAndTypes, classes, members;
    fault, strings, nameAndTypes, classes, members := ScanConstants(cur, pool, count);
    if fault.Some? {
      return;
    }
    ghost var scan := Scan(pool.slots, strings, nameAndTypes, classes, members);
    assert ScanPool(cur.data, afterCount, count) == Parsed(scan, cur.offset);
    assert ReadPool(cur.data, old(cur.offset)) == match ResolvePool(scan)
      case Err(f) => Faulted(f)
      case Ok(slots) => Parsed(slots, cur.offset);
    fault := ResolveStringConstants(pool, strings);
    if fault.Some? {
      return;
    }
    ghost var slots1 := pool.slots;
    assert ResolvePool(scan) == match ResolveNameAndTypes(slots1, nameAndTypes, 0)
      case Err(f) => Err(f)
      case Ok(slots2) =>
        match ResolveClasses(slots2, classes, 0)
        case Err(f) => Err(f)
        case Ok(slots3) => ResolveMembers(slots3, members, 0);
    fault := ResolveNameAndTypeConstants(pool, nameAndTypes);
    if fault.Some? {
      return;
    }
    ghost var slots2 := pool.slots;
    assert ResolvePool(scan) == match ResolveClasses(slots2, classes, 0)
      case Err(f) => Err(f)
      case Ok(slots3) => ResolveMembers(slots3, members, 0);
    fault := ResolveClassConstants(pool, classes);
    if fault.Some? {
      return;
    }
    fault := ResolveMemberConstants(pool, members);
  }

  // ---------------------------------------------------------------------------
  // Header

  /** Flags, this/super class ids, the interface ids, then the two class-name lookups. */
  method ReadClassHeader(cur: Cursor, slots: Slots) returns (fault: Option<Fault>, header: Header)
    modifies cur
    ensures Agrees(ReadHeader(cur.data, old(cur.offset), slots), fault, cur.offset, header)
  {
    var flags := cur.Read16();
    var thisClassId := cur.Read16();
    var superClassId := cur.Read16();
    var interfaceCount := cur.Read16();
    ghost var idsStart := cur.offset;
    var ids: seq<u16> := seq(interfaceCount, _ => 0);
    for i := 0 to interfaceCount as nat
      invariant |ids| == interfaceCount
      invariant InterfaceIdsFrom(cur.data, cur.offset, interfaceCount, ids[..i])
                == InterfaceIdsFrom(cur.data, idsStart, interfaceCount, [])
    {
      var id := cur.Read16();
      assert ids[i := id][..i + 1] == ids[..i] + [id];
      ids := ids[i := id];
    }
    assert ids[..interfaceCount] == ids;
    header := Header(0, IntegerConst(0), "", None, ids);
    if !Readable(slots, thisClassId) {
      return Some(NullSlot(thisClassId)), header;
    }
    var thisClass := GetClass(slots, thisClassId);
    if thisClass.None? || thisClass.value.name.None? {
      return Some(NullDeref), header;
    }
    var thisName := Chars(CStr(thisClass.value.name.value));
    var superName: Option<string> := None;
    if superClassId != 0 {
      if !Readable(slots, superClassId) {
        return Some(NullSlot(superClassId)), header;
      }
      var superClass := GetClass(slots, superClassId);
      if superClass.None? || superClass.value.name.None? {
        return Some(NullDeref), header;
      }
      superName := Some(Chars(CStr(superClass.value.name.value)));
    }
    header := Header(flags as bv16, thisClass.value, thisName, superName, ids);
    fault := None;
  }

  // ---------------------------------------------------------------------------
  // Fields

  /** The values a `Field` object was built from. */
  function FieldInfos(fields: seq<Field>): (infos: seq<FieldInfo>)
    ensures |infos| == |fields|
    ensures forall k :: 0 <= k < |fields| ==>
              infos[k] == FieldInfo(fields[k].name, fields[k].descriptor, fields[k].flags)
  {
    if fields == [] then []
    else FieldInfos(fields[..|fields| - 1]) + [FieldInfo(fields[|fields| - 1].name, fields[|fields| - 1].descriptor, fields[|fields| - 1].flags)]
  }

  /** The field attribute loop: skip by the declared length, then look the name up. */
  method SkipFieldAttributeList(cur: Cursor, slots: Slots, count: u16) returns (fault: Option<Fault>)
    modifies cur
    ensures Agrees(SkipFieldAttributes(cur.data, old(cur.offset), slots, count, 0), fault, cur.offset, ())
  {
    for u := 0 to count as nat
      invariant SkipFieldAttributes(cur.data, cur.offset, slots, count, u)
                == SkipFieldAttributes(cur.data, old(cur.offset), slots, count, 0)
    {
      var nameIndex := cur.Read16();
      var length := cur.Read32();
      cur.Consume(length);
      if !Readable(slots, nameIndex) {
        return Some(NullSlot(nameIndex));
      }
      if GetUtf8(slots, nameIndex).None? {
        return Some(NullDeref);
      }
    }
    fault := None;
  }

  /** One field: its header, a new `Field` owned by `owner`, then its attributes. */
  method ReadOneField(cur: Cursor, owner: Class, slots: Slots) returns (fault: Option<Fault>, field: Field?)
    modifies cur
    ensures fault.None? ==> field != null && fresh(field) && field.thisClass == owner && field.attributes == []
    ensures Agrees(ReadField(cur.data, old(cur.offset), slots), fault, cur.offset,
                   if field == null then FieldInfo(None, None, 0) else FieldInfo(field.name, field.descriptor, field.flags))
  {
    var flags := cur.Read16();
    var nameIndex := cur.Read16();
    var descriptorIndex := cur.Read16();
    var attributeCount := cur.Read16();
    if !Readable(slots, nameIndex) {
      return Some(NullSlot(nameIndex)), null;
    }
    var name := GetUtf8(slots, nameIndex);
    if !Readable(slots, descriptorIndex) {
      return Some(NullSlot(descriptorIndex)), null;
    }
    var descriptor := GetUtf8(slots, descriptorIndex);
    field := new Field(owner, name, descriptor, flags as bv16);
    fault := SkipFieldAttributeList(cur, slots, attributeCount);
  }

  /** `fieldCount`, then that many fields in order. */
  method ReadFieldList(cur: Cursor, owner: Class, slots: Slots) returns (fault: Option<Fault>, fields: seq<Field>)
    modifies cur
    ensures forall k :: 0 <= k < |fields| ==> fresh(fields[k]) && fields[k].thisClass == owner && fields[k].attributes == []
    ensures Agrees(ReadFields(cur.data, old(cur.offset), slots), fault, cur.offset, FieldInfos(fields))
  {
    var fieldCount := cur.Read16();
    ghost var start := cur.offset;
    fields := [];
    while |fields| < fieldCount as nat
      invariant |fields| <= fieldCount
      invariant forall k :: 0 <= k < |fields| ==> fresh(fields[k]) && fields[k].thisClass == owner && fields[k].attributes == []
      invariant FieldsFrom(cur.data, cur.offset, slots, fieldCount, FieldInfos(fields))
                == FieldsFrom(cur.data, start, slots, fieldCount, [])
      decreases fieldCount as int - |fields|
    {
      var field;
      fault, field := ReadOneField(cur, owner, slots);
      if fault.Some? {
        return;
      }
      assert FieldInfos(fields + [field]) == FieldInfos(fields) + [FieldInfo(field.name, field.descriptor, field.flags)];
      fields := fields + [field];
    }
    fault := None;
  }

  // ---------------------------------------------------------------------------
  // Methods

  /** The values the `Method` objects hold, in order. */
  ghost function MethodInfos(methods: seq<Method>): (infos: seq<MethodInfo>)
    reads methods
    ensures |infos| == |methods|
    ensures forall k :: 0 <= k < |methods| ==> infos[k] == methods[k].Info()
  {
    seq(|methods|, k requires 0 <= k < |methods| reads methods => methods[k].Info())
  }

  /** One turn of the method loop. */
  lemma MethodsFromStep(data: seq<byte>, off: nat, slots: Slots, count: nat, methods: seq<MethodInfo>)
    requires |methods| < count
    ensures ReadMethod(data, off, slots).Faulted? ==>
              MethodsFrom(data, off, slots, count, methods) == Faulted(ReadMethod(data, off, slots).fault)
    ensures ReadMethod(data, off, slots).Parsed? ==>
              MethodsFrom(data, off, slots, count, methods)
              == MethodsFrom(data, ReadMethod(data, off, slots).next, slots, count, methods + [ReadMethod(data, off, slots).value])
  {
  }

  /** Appending a method appends its values. */
  lemma MethodInfosAppend(methods: seq<Method>, m: Method)
    ensures MethodInfos(methods + [m]) == MethodInfos(methods) + [m.Info()]
  {
    assert (methods + [m])[..|methods|] == methods;
  }

  /** `LineNumberTable`: `resize(count)`, then every entry overwritten in order. */
  method ReadLineNumberTable(cur: Cursor, m: Method)
    requires cur != m as object
    modifies cur, m
    ensures var r := LineNumbersFrom(cur.data, After16(cur.data, old(cur.offset)), U16At(cur.data, old(cur.offset)), []);
            cur.offset == r.1 && m.Info() == old(m.Info()).(lineNumberTable := r.0)
  {
    var count := cur.Read16();
    ghost var start := cur.offset;
    ghost var before := m.Info();
    var previous := m.lineNumberTable;
    m.lineNumberTable := seq(count, k requires 0 <= k < count as nat =>
                               if k < |previous| then previous[k] else LineNumber(0, 0));
    for k := 0 to count as nat
      invariant |m.lineNumberTable| == count
      invariant m.Info() == before.(lineNumberTable := m.lineNumberTable)
      invariant LineNumbersFrom(cur.data, cur.offset, count, m.lineNumberTable[..k])
                == LineNumbersFrom(cur.data, start, count, [])
    {
      var codeOffset := cur.Read16();
      var line := cur.Read16();
      assert m.lineNumberTable[k := LineNumber(codeOffset, line)][..k + 1] == m.lineNumberTable[..k] + [LineNumber(codeOffset, line)];
      m.lineNumberTable := m.lineNumberTable[k := LineNumber(codeOffset, line)];
    }
    assert m.lineNumberTable[..count] == m.lineNumberTable;
  }

  /** One attribute nested in `Code`. */
  method ReadCodeSubAttribute(cur: Cursor, slots: Slots, m: Method) returns (fault: Option<Fault>)
    requires cur != m as object
    modifies cur, m
    ensures Agrees(CodeSubAttribute(cur.data, old(cur.offset), slots, old(m.Info())), fault, cur.offset, m.Info())
  {
    var nameId := cur.Read16();
    var length := cur.Read32();
    if !Readable(slots, nameId) {
      return Some(NullSlot(nameId));
    }
    var name := GetUtf8(slots, nameId);
    if name.None? {
      return Some(NullDeref);
    }
    if Equals(name.value, "LineNumberTable") {
      ReadLineNumberTable(cur, m);
    } else if Equals(name.value, "LocalVariableTable") {
      cur.Consume(length);
    } else if Equals(name.value, "LocalVariableTypeTable") {
      cur.Consume(length);
    } else if Equals(name.value, "StackMapTable") {
      cur.Consume(length);
    } else {
      cur.Consume(length);
    }
    fault := None;
  }

  /** The exception-table loop: each handler appended in input order. */
  method ReadExceptionTable(cur: Cursor, m: Method)
    requires cur != m as object
    modifies cur, m
    ensures var r := HandlersFrom(cur.data, After16(cur.data, old(cur.offset)), U16At(cur.data, old(cur.offset)), 0, old(m.exceptionTable));
            cur.offset == r.1 && m.Info() == old(m.Info()).(exceptionTable := r.0)
  {
    var handlerCount := cur.Read16();
    ghost var start := cur.offset;
    ghost var before := m.Info();
    for k := 0 to handlerCount as nat
      invariant m.Info() == before.(exceptionTable := m.exceptionTable)
      invariant HandlersFrom(cur.data, cur.offset, handlerCount, k, m.exceptionTable)
                == HandlersFrom(cur.data, start, handlerCount, 0, before.exceptionTable)
    {
      var startPc := cur.Read16();
      var endPc := cur.Read16();
      var handlerPc := cur.Read16();
      var catchType := cur.Read16();
      m.exceptionTable := m.exceptionTable + [ExceptionHandler(startPc, endPc, handlerPc, catchType)];
    }
  }

  /** The attributes nested in `Code`. */
  method ReadCodeSubAttributeList(cur: Cursor, slots: Slots, m: Method) returns (fault: Option<Fault>)
    requires cur != m as object
    modifies cur, m
    ensures Agrees(CodeSubAttributes(cur.data, After16(cur.data, old(cur.offset)), slots, U16At(cur.data, old(cur.offset)), 0, old(m.Info())),
                   fault, cur.offset, m.Info())
  {
    var attributeCount := cur.Read16();
    ghost var start := cur.offset;
    ghost var before := m.Info();
    for i := 0 to attributeCount as nat
      invariant CodeSubAttributes(cur.data, cur.offset, slots, attributeCount, i, m.Info())
                == CodeSubAttributes(cur.data, start, slots, attributeCount, 0, before)
    {
      fault := ReadCodeSubAttribute(cur, slots, m);
      if fault.Some? {
        return;
      }
    }
    fault := None;
  }

  /** The body of a `Code` attribute: sizes, code bytes, exception table, nested attributes. */
  method ReadCode(cur: Cursor, slots: Slots, m: Method) returns (fault: Option<Fault>)
    requires cur != m as object
    modifies cur, m
    ensures Agrees(CodeAttribute(cur.data, old(cur.offset), slots, old(m.Info())), fault, cur.offset, m.Info())
  {
    ghost var info := m.Info();
    var maxStack := cur.Read16();
    m.maxStack := maxStack;
    var maxLocals := cur.Read16();
    m.maxLocals := maxLocals;
    var codeLength := cur.Read32();
    ghost var codeStart := cur.offset;
    var buf := new byte[codeLength];
    cur.ReadN(buf, codeLength);
    m.code := buf[..];
    assert m.code == BytesAt(cur.data, codeStart, codeLength);
    assert m.Info() == info.(maxStack := maxStack, maxLocals := maxLocals, code := m.code);
    ghost var tableStart := cur.offset;
    ReadExceptionTable(cur, m);
    ghost var table := HandlersFrom(cur.data, After16(cur.data, tableStart), U16At(cur.data, tableStart), 0, info.exceptionTable);
    assert m.Info() == info.(maxStack := maxStack, maxLocals := maxLocals, code := m.code, exceptionTable := table.0);
    assert cur.offset == table.1;
    fault := ReadCodeSubAttributeList(cur, slots, m);
  }

  /** One method attribute: `Deprecated`, `Signature`, `Code`, or skipped. */
  method ReadMethodAttribute(cur: Cursor, slots: Slots, m: Method) returns (fault: Option<Fault>)
    requires cur != m as object
    modifies cur, m
    ensures Agrees(MethodAttribute(cur.data, old(cur.offset), slots, old(m.Info())), fault, cur.offset, m.Info())
  {
    var nameIndex := cur.Read16();
    if !Readable(slots, nameIndex) {
      return Some(NullSlot(nameIndex));
    }
    var name := GetUtf8(slots, nameIndex);
    var length := cur.Read32();
    if name.None? {
      return Some(NullDeref);
    }
    if Equals(name.value, "Deprecated") {
      m.isDeprecated := true;
    } else if Equals(name.value, "Signature") {
      var signatureId := cur.Read16();
      if !Readable(slots, signatureId) {
        return Some(NullSlot(signatureId));
      }
      if GetUtf8(slots, signatureId).None? {
        return Some(NullDeref);
      }
    } else if Equals(name.value, "Code") {
      fault := ReadCode(cur, slots, m);
      return;
    } else {
      cur.Consume(length);
    }
    fault := None;
  }

  /** One method: its header, a new `Method`, then its attributes. */
  method ReadOneMethod(cur: Cursor, slots: Slots) returns (fault: Option<Fault>, m: Method?)
    modifies cur
    ensures fault.None? ==> m != null && fresh(m)
    ensures Agrees(ReadMethod(cur.data, old(cur.offset), slots), fault, cur.offset,
                   if m == null then NewMethodInfo([], [], 0) else m.Info())
  {
    var flags := cur.Read16();
    var nameIndex := cur.Read16();
    if !Readable(slots, nameIndex) {
      return Some(NullSlot(nameIndex)), null;
    }
    var name := GetUtf8(slots, nameIndex);
    var descriptorIndex := cur.Read16();
    if !Readable(slots, descriptorIndex) {
      return Some(NullSlot(descriptorIndex)), null;
    }
    var descriptor := GetUtf8(slots, descriptorIndex);
    var attributeCount := cur.Read16();
    if name.None? || descriptor.None? {
      return Some(NullDeref), null;
    }
    m := new Method(name.value, descriptor.value, flags as bv16);
    ghost var start := cur.offset;
    for u := 0 to attributeCount as nat
      invariant MethodAttributes(cur.data, cur.offset, slots, attributeCount, u, m.Info())
                == MethodAttributes(cur.data, start, slots, attributeCount, 0, NewMethodInfo(name.value, descriptor.value, flags as bv16))
    {
      fault := ReadMethodAttribute(cur, slots, m);
      if fault.Some? {
        return;
      }
    }
    fault := None;
  }

  /** `methodCount`, then that many methods in order. */
  method ReadMethodList(cur: Cursor, slots: Slots) returns (fault: Option<Fault>, methods: seq<Method>)
    modifies cur
    ensures forall k :: 0 <= k < |methods| ==> fresh(methods[k])
    ensures Agrees(ReadMethods(cur.data, old(cur.offset), slots), fault, cur.offset, MethodInfos(methods))
  {
    var methodCount := cur.Read16();
    ghost var start := cur.offset;
    methods := [];
    while |methods| < methodCount as nat
      invariant |methods| <= methodCount
      invariant forall k :: 0 <= k < |methods| ==> fresh(methods[k])
      invariant MethodsFrom(cur.data, cur.offset, slots, methodCount, MethodInfos(methods))
                == MethodsFrom(cur.data, start, slots, methodCount, [])
      decreases methodCount as int - |methods|
    {
      MethodsFromStep(cur.data, cur.offset, slots, methodCount as nat, MethodInfos(methods));
      var m;
      fault, m := ReadOneMethod(cur, slots);
      if fault.Some? {
        return;
      }
      MethodInfosAppend(methods, m);
      methods := methods + [m];
    }
    fault := None;
  }

  // ---------------------------------------------------------------------------
  // Class attributes

  /** The class attribute loop; yields the `SourceFile` name, or "" when there is none. */
  method ReadClassAttributeList(cur: Cursor, slots: Slots) returns (fault: Option<Fault>, sourceFile: string)
    modifies cur
    ensures Agrees(ReadClassAttributes(cur.data, old(cur.offset), slots), fault, cur.offset, sourceFile)
  {
    var count := cur.Read16();
    ghost var start := cur.offset;
    sourceFile := "";
    for i := 0 to count as nat
      invariant ClassAttributes(cur.data, cur.offset, slots, count, i, sourceFile)
                == ClassAttributes(cur.data, start, slots, count, 0, "")
    {
      fault, sourceFile := ReadClassAttribute(cur, slots, count as nat, i, sourceFile);
      if fault.Some? {
        return;
      }
    }
    fault := None;
  }

  /**
   * Attribute `i` of the class: a fault ends the loop with it; otherwise the
   * loop goes on from the next attribute with the source file it leaves.
   */
  method ReadClassAttribute(cur: Cursor, slots: Slots, count: nat, i: nat, sourceFile: string)
      returns (fault: Option<Fault>, file: string)
    requires i < count
    modifies cur
    ensures fault.Some? ==> ClassAttributes(cur.data, old(cur.offset), slots, count, i, sourceFile) == Faulted(fault.value)
    ensures fault.None? ==>
      ClassAttributes(cur.data, old(cur.offset), slots, count, i, sourceFile)
        == ClassAttributes(cur.data, cur.offset, slots, count, i + 1, file)
  {
    file := sourceFile;
    var nameId := cur.Read16();
    var length := cur.Read32();
    if !Readable(slots, nameId) {
      return Some(NullSlot(nameId)), file;
    }
    var name := GetUtf8(slots, nameId);
    if name.None? {
      return Some(NullDeref), file;
    }
    if Equals(name.value, "SourceFile") {
      var value := cur.Read16();
      if !Readable(slots, value) {
        return Some(NullSlot(value)), file;
      }
      var utf8 := GetUtf8(slots, value);
      if utf8.None? {
        return Some(NullDeref), file;
      }
      file := Chars(CStr(utf8.value));
    } else {
      cur.Consume(length);
    }
    fault := None;
  }
}
