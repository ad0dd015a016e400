# jvmtoy class-file front end, modelled in Dafny

This project models the front end of jvmtoy, a toy Java virtual machine written in C++. It covers:

- `VMClassLoader::defineClass`. It decodes a class-file buffer with a bounds-checked, forward-only byte
  cursor. It builds the constant pool in two phases: a scan stores Utf8, Integer and Long entries at once, and
  String, NameAndType, Class and member references are deferred and then resolved in that order. It then reads
  the header, the fields, the methods with their `Code`, `Deprecated` and `Signature` attributes, and the class
  attributes.
- The name-keyed class cache and lazy linking of `VMClassLoader::findClass`, `VMClassLoader::resolveClass`,
  `JvmEnv::getClass` and `ConstantClass::resolve`.
- The records and small helpers: `ConstantPool` with its tag-checked `get`, the `Class`, `Field` and `Method`
  records, `Class::findMethod`, the flag-set renderers, the access-flag bit operators and the packed attribute
  layouts, and the `Utf8String` buffer with its character iterator.

The model has these modules:

- Byte cursor: `ByteCursor`. Pure offset-threading functions and the imperative `Cursor` class.
- Pure reference decoder: `ClassFileFormat`, whose top function is `Define`. It is a function from bytes to a
  decoded class or to the fault at which the C++ code would crash.
- Imperative decoder: `Decoder` and `ClassLoader`. It fills `Class`, `Method` and `ConstantPool` objects in place.
  Every method is proved to agree with the matching reference function.
- Lemmas about the reference decoder: `PoolFacts`, `AttributeFacts`.
- Records: `ClassModel`, `Constants`.
- Flag bits, layouts and their rendering: `Classfile`, `FlagNames`.
- The loader's cache and linking: `SearchPath`, `Environment`.
- `Utf8Strings`.

A crash of the C++ program becomes an explicit `Fault` value:

- an unknown constant tag aborts;
- the tag of an empty pool slot is read;
- a null constant pointer is dereferenced;
- `operator[]` runs past the pool;
- a never-initialised `superClass_` is read;
- `erase` is given `end()`.

The contracts then say exactly which inputs reach which fault.

The filesystem is a parameter: a map from path to optional bytes, where `None` means the file exists but cannot
be opened. `Class::load` is also a parameter, modelled as an oracle.

## Model

| member | source | states |
|---|---|---|
| ByteCursor.Cursor.constructor | src/VMClassLoader.cpp:82 | the cursor starts at offset 0 over the given buffer |
| ByteCursor.Cursor.Read8 | src/VMClassLoader.cpp:84-89 | inside the buffer: returns the byte at the offset and advances by one. At or past the end: returns 0xFF (EOF truncated) and does not move |
| ByteCursor.Cursor.Read16 | src/VMClassLoader.cpp:91-93 | returns the two next bytes big-endian, the first read is the high byte (left-to-right order is fixed for the unsequenced operands) |
| ByteCursor.Cursor.Read32 | src/VMClassLoader.cpp:95-97 | returns two u16 reads as high and low half, big-endian |
| ByteCursor.Cursor.Consume | src/VMClassLoader.cpp:99-101 | adds n to the offset with no bound check |
| ByteCursor.Cursor.ReadN | src/VMClassLoader.cpp:103-106 | the first n buffer cells get the n bytes the cursor yields; the rest of the buffer is untouched |
| ByteCursor.ReadsPastEnd | src/VMClassLoader.cpp:84-97 | at or past the end every read yields all-ones (0xFF, 0xFFFF, 0xFFFFFFFF) and leaves the offset where it is |
| ByteCursor.U16InBounds | src/VMClassLoader.cpp:91-93 | with two bytes left, read16 is `b0*256+b1` and advances by exactly 2 |
| ByteCursor.U32InBounds | src/VMClassLoader.cpp:95-97 | with four bytes left, read32 is the big-endian value of the four bytes and advances by exactly 4 |
| ByteCursor.BytesAtInBounds | src/VMClassLoader.cpp:103-106 | with n bytes left, readn copies exactly the slice `data[off..off+n]` and advances by n |
| ByteCursor.BytesAtPositions | src/VMClassLoader.cpp:103-106 | readn always yields n bytes, the k-th being what read8 yields at off+k |
| ByteCursor.AfterNClamps | src/VMClassLoader.cpp:84-89 | byte-wise reads stop advancing at the end of the buffer: the final offset is min(off+n, size) unless already past the end |
| ByteCursor.ByteAt | src/VMClassLoader.cpp:84-89 | the byte `read8` yields: the buffer byte inside the buffer, 0xFF (EOF truncated) past it |
| ByteCursor.After8 | src/VMClassLoader.cpp:84-89 | `read8` advances one byte only while inside the buffer |
| ByteCursor.U16At | src/VMClassLoader.cpp:91-93 | `read16` is two `read8`s, the first the high byte; `U16InBounds` gives its in-bounds value |
| ByteCursor.After16 | src/VMClassLoader.cpp:91-93 | the offset after two `read8`s |
| ByteCursor.U32At | src/VMClassLoader.cpp:95-97 | `read32` is two `read16`s, the first the high half; `U32InBounds` gives its in-bounds value |
| ByteCursor.After32 | src/VMClassLoader.cpp:95-97 | the offset after two `read16`s |
| ByteCursor.AfterN | src/VMClassLoader.cpp:103-106 | the offset after n `read8`s; `AfterNClamps` gives it in closed form |
| ByteCursor.BytesAt | src/VMClassLoader.cpp:103-106 | the n bytes `readn` copies, one `read8` each; `BytesAtPositions` and `BytesAtInBounds` state them |
| AttributeFacts.MagicBytes | src/VMClassLoader.cpp:110-111 | the magic test succeeds exactly when the first four bytes are CA FE BA BE |
| AttributeFacts.BadMagicExactly | src/VMClassLoader.cpp:110-114 | decoding is rejected with no class exactly when the first four bytes differ from CA FE BA BE |
| ClassLoader.VMClassLoader.DefineClass | src/VMClassLoader.cpp:80-384 | bad magic returns null and registers nothing; otherwise a fresh class is registered under `className` before decoding, and the class ends up holding exactly what `Define` decodes, or the crash fault is reported |
| ClassLoader.VMClassLoader.ReadContentsInto | src/VMClassLoader.cpp:119-381 | everything after the magic agrees with the reference decoder: the pool, header, members and attributes stored in the class, or the fault |
| ClassLoader.ReportsAfterMagic | src/VMClassLoader.cpp:110-117 | after a good magic, the outcome is decided by the contents alone |
| ClassLoader.ContentsAfterPool | src/VMClassLoader.cpp:119-240 | version, pool and body are decoded in that order; the body starts where the pool ends |
| ClassLoader.ContentsStopAtPool | src/VMClassLoader.cpp:122-216 | a crash while building the pool ends decoding with that crash |
| ClassLoader.MembersStopAtMethods | src/VMClassLoader.cpp:288-364 | a crash inside the method list ends decoding with that crash |
| ClassLoader.MembersAfterMethods | src/VMClassLoader.cpp:261-381 | the class attributes are read right after the methods, and their result decides the members' outcome |
| ClassLoader.VMClassLoader.StoreBody | src/VMClassLoader.cpp:240-381 | the class records the decoded header, fields, methods and source file, and keeps its version |
| ClassLoader.VMClassLoader.StoreHeader | src/VMClassLoader.cpp:240-259 | flags, this-class, raw interface ids with null links, and a super name only for a non-zero super id are stored |
| ClassLoader.VMClassLoader.StoreMembers | src/VMClassLoader.cpp:261-381 | the class holds the decoded fields, methods and source file |
| ClassLoader.VMClassLoader.ReadClassBody | src/VMClassLoader.cpp:240-381 | reading the header and members agrees with the reference `ReadBody`; fields are fresh, owned by the class, with no attributes |
| ClassLoader.VMClassLoader.ReadClassMembers | src/VMClassLoader.cpp:261-381 | reading fields, methods and class attributes agrees with the reference `ReadMembers` |
| ClassLoader.VMClassLoader.constructor | src/VMClassLoader.cpp:22-27 | the cache starts empty and the search path is ["."] |
| ClassLoader.VMClassLoader.AddClassPath | src/VMClassLoader.cpp:33-36 | appends one root to the end of the search path; the cache is unchanged |
| ClassLoader.VMClassLoader.FindClass | src/VMClassLoader.cpp:38-78 | a cached name returns the cached class and changes nothing. Otherwise the first root whose file exists is decoded and its result returned, null included; with no such file the result is null and nothing changes. Existing entries are never removed or replaced. In caller terms (`Finds`): null exactly when the name is uncached and no file is found or its magic is wrong; a fault exactly when defining the file found faults; on success the cache grows only by fully defined classes |
| ClassLoader.VMClassLoader.ResolveInterfaces | src/VMClassLoader.cpp:390-398 | only null interface slots are filled; already-linked ones keep their class. On success each slot null on entry names a Class constant and holds what `findClass` of that name gives against the cache on entry: the cached class, else null exactly when no file is found or its magic is wrong, else the class defined from the file found; and that class is cached under the name. On a fault, the first null slot that fails is named: an unreadable pool id gives `NullSlot(id)`, a non-Class entry or one without a name gives `NullDeref`, a file whose definition faults gives that fault; every null slot before it is linked as above |
| ClassLoader.VMClassLoader.ResolveClass | src/VMClassLoader.cpp:386-406 | the interfaces are linked or fail as in `ResolveInterfaces`. A non-null super link is kept. Otherwise, with the interfaces linked: a super link never initialised gives `Uninitialised`; a null super ends as what `findClass(superClassName)` gives against the cache on entry (cached class; else null exactly when no file or wrong magic; else the newly defined class), or the fault its definition gives. On success the cache grows only by fully defined classes |
| ClassLoader.LinkedKept | src/VMClassLoader.cpp:386-402 | linked interface slots stay linked while the cache only grows |
| ClassLoader.ReportsDecides | src/VMClassLoader.cpp:110-384 | `defineClass` returns null exactly on a wrong magic, faults exactly when decoding faults, and otherwise succeeds |
| ClassLoader.FindsLocated | src/VMClassLoader.cpp:51-77 | an uncached lookup whose file the search path finds behaves as `Finds` says for that file |
| ClassLoader.FoundLinks | src/VMClassLoader.cpp:386-406 | a lookup made after earlier lookups only added defined classes links as if made against the cache on entry |
| ClassLoader.FoundCrash | src/VMClassLoader.cpp:386-406 | a lookup that faults after earlier lookups faults for the same file against the cache on entry |
| Classfile.FlagsAreDistinctSingleBits | src/Classfile.h:45-54 | every access flag is a single non-zero bit, and two flags share a value only when they are the same flag |
| Classfile.AndOnlyOnSameFlag | src/Classfile.h:60-62 | `a & b` is true exactly when a and b are the same flag |
| Classfile.Or | src/Classfile.h:56-58 | `operator\|`: the bitwise or of the two flag values, widened to 32 bits |
| Classfile.And | src/Classfile.h:60-62 | `operator&`: whether the two flag values share a bit |
| Classfile.OrHoldsBoth | src/Classfile.h:56-58 | `a \| b` is commutative and contains both operands' bits |
| Classfile.OrAbsorbs | src/Classfile.h:56-58 | on any 32-bit values, `\|` is commutative and keeps its left operand's bits |
| Classfile.AttributeHeaderRoundTrip | src/Classfile.h:9-12 | the packed header is 6 bytes: u16 name id then u32 length, and decoding what was encoded gives the header back |
| Classfile.AttributeHeaderBytesRoundTrip | src/Classfile.h:9-12 | every 6-byte string is the encoding of the header decoded from it |
| Classfile.CodeAttributeHeaderRoundTrip | src/Classfile.h:18-33 | the Code prefix packs maxStack u16, maxLocals u16 and codeLength u32 after the 6-byte header, and it round-trips |
| Classfile.IndexAttributeRoundTrip | src/Classfile.h:35-41 | SourceFile and Signature pack one u16 index after the header, and it round-trips |
| Classfile.HeaderReadsMatchLayout | src/VMClassLoader.cpp:277-280 | reading u16 then u32 with the cursor yields the packed header's fields and advances by exactly its 6 bytes |
| Classfile.Be16RoundTrip | src/Classfile.h:9-12 | a u16 written big-endian reads back unchanged |
| Classfile.Be32RoundTrip | src/Classfile.h:9-12 | a u32 written big-endian reads back unchanged |
| Constants.TagOf | src/ConstantPool.h:8-23 | a recognised tag code maps to the tag whose JVMS number it is |
| Constants.TagCodesRoundTrip | src/ConstantPool.h:8-23 | each tag's number decodes back to that tag (Utf8=1 … InvokeDynamic=18) |
| Constants.TagNamesDistinguishTags | src/ConstantPool.h:25-43 | `tos` gives "UNKNOWN" exactly for unknown codes, and two known tags with the same name are the same tag |
| Constants.ToInt16 | src/ConstantPool.h:54-57 | the stored Integer value is congruent to the 32-bit operand modulo 2^16, i.e. only the low 16 bits are kept |
| Constants.ToInt16KeepsSmallValues | src/ConstantPool.h:54-57 | values that fit in 16 signed bits are stored unchanged |
| Constants.ToInt64 | src/VMClassLoader.cpp:168-175 | the Long value is the 64-bit two's-complement reading of `(hi<<32)\|lo` |
| Constants.EqualsWithoutNul | src/ConstantPool.h:95-101 | for bytes without NUL, `equals` holds exactly when the bytes spell the C string |
| Constants.EqualsStopsAtNul | src/ConstantPool.h:95-101 | bytes after the first NUL do not affect `equals` |
| Constants.CStrStopsAtNul | src/ConstantPool.h:95-101 | the C-string view of a buffer ends at its first NUL |
| Constants.GetFindsTaggedSlot | src/ConstantPool.h:194-199 | `get` yields the slot exactly when the id is in 1..size-1 and the slot has the requested tag; out-of-range ids give null |
| Constants.GetTagsExclusive | src/ConstantPool.h:194-199 | no slot is returned for two different tags |
| Constants.GetUtf8MatchesGet | src/ConstantPool.h:204-207 | `get<ConstantUtf8>` finds exactly what `get(Utf8, id)` finds |
| Constants.GetClass | src/ConstantPool.h:209-212 | `get<ConstantClass>` only ever yields a Class constant |
| Constants.Get | src/ConstantPool.h:194-199 | `get(tag, id)`: the slot when the id is in range and the slot carries the tag, else null; `GetFindsTaggedSlot` states it |
| Constants.GetUtf8 | src/ConstantPool.h:204-207 | the bytes of the Utf8 constant at the id, or nothing |
| Constants.Equals | src/ConstantPool.h:95-101 | `equals` compares the constant's C string with the literal; `EqualsWithoutNul` and `EqualsStopsAtNul` state it |
| Constants.TagName | src/ConstantPool.h:25-43 | `tos`: the tag's name (with the source's "FLoat"), "UNKNOWN" for other codes |
| Constants.ConstantPool.constructor | src/ConstantPool.h:178-186 | a new pool has no slots |
| Constants.ConstantPool.Resize | src/ConstantPool.h:187 | the pool then has exactly n slots; old slots are kept and new ones are null |
| Constants.ConstantPool.Put | src/ConstantPool.h:192 | only the addressed slot changes |
| Bytes.CStr | src/ConstantPool.h:78-86 | the C-string view is the prefix up to, not including, the first NUL |
| Bytes.CharsInjective | src/Class.h:108-118 | copying bytes into a `std::string` loses nothing: different bytes give different strings |
| ClassModel.Method.constructor | src/Class.h:108-118 | name and signature are copied strings; limits are 0, not deprecated, and code, exception table and line table are empty |
| ClassModel.Method.ToString | src/Class.cpp:182-191 | the text is the name, then ": ", then the signature |
| ClassModel.Field.constructor | src/Class.h:20-27 | owner, name, descriptor and flags are stored as given, with no attributes |
| ClassModel.Class.constructor | src/Class.cpp:108-114 | version 0.0 so not loaded, empty source file, no members; `superClass_` left uninitialised |
| ClassModel.Class.FindMethod | src/Class.cpp:120-127 | returns the first method in declaration order with the given name, or null when none has it |
| ClassModel.Class.Name | src/Class.h:165 | the class name recorded from the this-class constant |
| ClassModel.Class.IsLoaded | src/Class.h:166 | loaded exactly when the major version is non-zero |
| ClassModel.Class.SuperClass | src/Class.h:171 | the super link as stored, including the never-initialised state |
| ClassModel.Field.Name | src/Class.h:29 | dereferences the name constant, so a null name is excluded |
| ClassModel.Field.Descriptor | src/Class.h:30 | dereferences the descriptor constant, so a null descriptor is excluded |
| ClassModel.Method.Info | src/Class.h:38-134 | the value view of a method's fields |
| ClassFileFormat.NextSlot | src/VMClassLoader.cpp:168-181 | the scan always moves forward; Long and Double take two slots |
| ClassFileFormat.ScanEntry | src/VMClassLoader.cpp:138-216 | one entry never changes the pool size, and deferred records stay inside the pool |
| ClassFileFormat.ScanFrom | src/VMClassLoader.cpp:138-216 | a finished scan keeps the pool size and keeps deferred records inside the pool |
| ClassFileFormat.ScanPool | src/VMClassLoader.cpp:122-216 | a finished scan leaves exactly `constantCount` slots |
| ClassFileFormat.ResolveStrings | src/VMClassLoader.cpp:218-221 | resolving Strings keeps the pool size; where each record lands is stated by `PoolFacts.StringsResolveByIndex` |
| ClassFileFormat.ResolveNameAndTypes | src/VMClassLoader.cpp:223-227 | resolving NameAndTypes keeps the pool size; where each record lands is stated by `PoolFacts.NameAndTypesResolveByName` |
| ClassFileFormat.ResolveClasses | src/VMClassLoader.cpp:229-232 | resolving Classes keeps the pool size |
| ClassFileFormat.ResolveMembers | src/VMClassLoader.cpp:234-238 | resolving member references keeps the pool size |
| ClassFileFormat.ResolvePool | src/VMClassLoader.cpp:218-238 | the four resolution passes keep the pool size |
| ClassFileFormat.ReadPool | src/VMClassLoader.cpp:122-238 | a built pool has exactly as many slots as the declared count |
| ClassFileFormat.InterfaceIdsFrom | src/VMClassLoader.cpp:244-251 | exactly `interfacesCount` ids are read |
| ClassFileFormat.FieldsFrom | src/VMClassLoader.cpp:261-286 | the field loop yields `count` fields and keeps those read before |
| ClassFileFormat.ReadFields | src/VMClassLoader.cpp:261-286 | exactly `fieldsCount` fields are decoded |
| ClassFileFormat.HandlersFrom | src/VMClassLoader.cpp:321-328 | the exception table grows by exactly the remaining count |
| ClassFileFormat.LineNumbersFrom | src/VMClassLoader.cpp:335-342 | the line table holds exactly `count` entries |
| ClassFileFormat.MethodsFrom | src/VMClassLoader.cpp:288-364 | the method loop yields `count` methods and keeps those read before |
| ClassFileFormat.ReadMethods | src/VMClassLoader.cpp:288-364 | exactly `methodsCount` methods are decoded |
| ClassFileFormat.SkipFieldAttributes | src/VMClassLoader.cpp:277-285 | each field attribute is skipped by its declared length, then its name is looked up: an unreadable id gives `NullSlot`, a non-Utf8 name `NullDeref` |
| ClassFileFormat.ReadField | src/VMClassLoader.cpp:264-285 | flags, name and descriptor ids (both must be readable; non-Utf8 entries become null names), then the attributes are skipped |
| ClassFileFormat.CodeSubAttribute | src/VMClassLoader.cpp:331-356 | a `LineNumberTable` replaces the line table; any other sub-attribute is skipped by its length; an unreadable or non-Utf8 name faults |
| ClassFileFormat.CodeSubAttributes | src/VMClassLoader.cpp:329-357 | the sub-attribute loop, stopping at the first fault |
| ClassFileFormat.CodeAttribute | src/VMClassLoader.cpp:313-357 | limits, `codeLength` code bytes, the handlers appended to the table, then the sub-attributes |
| ClassFileFormat.MethodAttribute | src/VMClassLoader.cpp:300-362 | `Deprecated` sets the flag and reads nothing more; `Signature` reads one index that must name a Utf8; `Code` is decoded; anything else is skipped by its length |
| ClassFileFormat.MethodAttributes | src/VMClassLoader.cpp:299-363 | the method attribute loop, stopping at the first fault |
| ClassFileFormat.ReadMethod | src/VMClassLoader.cpp:289-363 | flags, then name and descriptor that must both be Utf8 constants, then the attributes on a fresh method |
| ClassFileFormat.ClassAttributes | src/VMClassLoader.cpp:367-381 | `SourceFile` sets the source file to the C string of the Utf8 it names; anything else is skipped by its length; later `SourceFile`s win |
| ClassFileFormat.ReadClassAttributes | src/VMClassLoader.cpp:366-381 | the class attribute count, then the loop, starting from an empty source file |
| ClassFileFormat.ReadMembers | src/VMClassLoader.cpp:261-381 | fields, then methods, then class attributes, each starting where the previous ended; the first fault ends decoding |
| ClassFileFormat.ClassNameAt | src/VMClassLoader.cpp:253-257 | a Class constant's name: an unreadable id gives `NullSlot`, a non-Class entry or a null name `NullDeref` |
| ClassFileFormat.ReadHeader | src/VMClassLoader.cpp:240-259 | flags, this class, super id, then the interface ids; this class must name a class, and the super only when its id is non-zero |
| ClassFileFormat.ReadBody | src/VMClassLoader.cpp:240-381 | the header, then the members from where the header ends |
| ClassFileFormat.ReadContents | src/VMClassLoader.cpp:119-381 | minor and major version, the pool, then the body from where the pool ends |
| ClassFileFormat.Define | src/VMClassLoader.cpp:110-384 | a wrong magic gives no class; otherwise the contents decide between a crash and a defined class (`AttributeFacts.BadMagicExactly` states the magic test in bytes) |
| ClassFileFormat.NextSlotAsWritten | src/VMClassLoader.cpp:138-181 | the scan step on the `uint16_t` counter: one or two increments, each modulo 2^16 |
| Decoder.ReadEntry | src/VMClassLoader.cpp:139-215 | one tag's payload is read and stored or deferred exactly as the reference scan step says |
| Decoder.ScanConstants | src/VMClassLoader.cpp:138-216 | the scan loop agrees with the reference scan: pool slots, deferred records and final offset, or the unknown-tag abort |
| Decoder.ResolveStringConstants | src/VMClassLoader.cpp:218-221 | the String pass agrees with the reference pass, including its crashes, so each String record lands at its own slot with its index and the Utf8 bytes it addressed (`PoolFacts.StringsResolveByIndex`) |
| Decoder.ResolveNameAndTypeConstants | src/VMClassLoader.cpp:223-227 | the NameAndType pass agrees with the reference pass, so each record lands at its own slot with the Utf8 name and descriptor it addressed (`PoolFacts.NameAndTypesResolveByName`) |
| Decoder.ResolveClassConstants | src/VMClassLoader.cpp:229-232 | the Class pass agrees with the reference pass |
| Decoder.ResolveMemberConstants | src/VMClassLoader.cpp:234-238 | the member pass agrees with the reference pass |
| Decoder.ReadConstantPool | src/VMClassLoader.cpp:122-238 | sizing, scanning and the four passes leave the pool the reference decoder builds |
| Decoder.ReadClassHeader | src/VMClassLoader.cpp:240-259 | the header read agrees with the reference header |
| Decoder.FieldInfos | src/Class.h:11-36 | the value view has one record per field, with its stored name, descriptor and flags |
| Decoder.SkipFieldAttributeList | src/VMClassLoader.cpp:277-285 | field attributes are skipped exactly as the reference says |
| Decoder.ReadOneField | src/VMClassLoader.cpp:262-285 | one fresh field owned by the class, agreeing with the reference field |
| Decoder.ReadFieldList | src/VMClassLoader.cpp:261-286 | the field list agrees with the reference field list |
| Decoder.MethodInfos | src/Class.h:95-134 | the value view has one record per method |
| Decoder.MethodInfosAppend | src/VMClassLoader.cpp:363 | appending a method appends its record |
| Decoder.ReadLineNumberTable | src/VMClassLoader.cpp:335-342 | the line table gets exactly the reference entries, in order |
| Decoder.ReadCodeSubAttribute | src/VMClassLoader.cpp:331-356 | one Code sub-attribute agrees with the reference |
| Decoder.ReadExceptionTable | src/VMClassLoader.cpp:321-328 | the exception table gets exactly the reference entries, in order |
| Decoder.ReadCodeSubAttributeList | src/VMClassLoader.cpp:329-357 | the sub-attribute loop agrees with the reference |
| Decoder.ReadCode | src/VMClassLoader.cpp:313-357 | the whole Code attribute agrees with the reference: limits, code bytes, handlers, line numbers |
| Decoder.ReadMethodAttribute | src/VMClassLoader.cpp:297-362 | one method attribute (Deprecated, Signature, Code or other) agrees with the reference |
| Decoder.ReadOneMethod | src/VMClassLoader.cpp:289-363 | one fresh method agreeing with the reference method |
| Decoder.ReadMethodList | src/VMClassLoader.cpp:288-364 | the method list agrees with the reference method list |
| Decoder.ReadClassAttributeList | src/VMClassLoader.cpp:366-381 | the class attributes agree with the reference: the source file name, or the fault |
| Decoder.ReadClassAttribute | src/VMClassLoader.cpp:368-380 | one class attribute is one step of the reference loop: its fault, or the loop continuing from the next attribute with the source file it sets |
| PoolFacts.PayloadSize | src/VMClassLoader.cpp:139-215 | every known tag has a non-empty fixed payload |
| PoolFacts.EntryConsumesPayload | src/VMClassLoader.cpp:139-215 | in bounds, every non-Utf8 entry consumes exactly its fixed payload |
| PoolFacts.Utf8EntryCopiesBytes | src/VMClassLoader.cpp:188-195 | a Utf8 entry consumes 2+length bytes and stores exactly those bytes |
| PoolFacts.UnsupportedEntriesStoreNothing | src/VMClassLoader.cpp:164-167 | Float, Double, MethodHandle, MethodType and InvokeDynamic leave pool and deferred records untouched |
| PoolFacts.LongEntryValue | src/VMClassLoader.cpp:168-175 | a Long stores `(hi<<32)\|lo` in its own slot, consumes 8 bytes and leaves the next slot empty |
| PoolFacts.UnknownTagAborts | src/VMClassLoader.cpp:210-214 | a tag outside the known set aborts the scan |
| PoolFacts.ScanFromKeepsInv | src/VMClassLoader.cpp:138-216 | the scan keeps slot 0 and every phantom slot empty and each deferred record at its own ascending slot |
| PoolFacts.ScanEntryKeepsInv | src/VMClassLoader.cpp:139-215 | one scan step keeps that invariant |
| PoolFacts.ScanPoolShape | src/VMClassLoader.cpp:134-216 | a finished scan has slot 0 empty, the phantom after each Long empty, and each deferred record at its own slot |
| PoolFacts.ResolveStringsTargets | src/VMClassLoader.cpp:218-221 | the String pass writes only its records' own slots |
| PoolFacts.ResolveNameAndTypesTargets | src/VMClassLoader.cpp:223-227 | the NameAndType pass writes only its records' own slots |
| PoolFacts.ResolveClassesTargets | src/VMClassLoader.cpp:229-232 | the Class pass writes only its records' own slots |
| PoolFacts.ResolveMembersTargets | src/VMClassLoader.cpp:234-238 | the member pass writes only its records' own slots |
| PoolFacts.ResolvePoolTargets | src/VMClassLoader.cpp:218-238 | resolution changes only deferred slots, so every entry the scan stored stays as it was |
| PoolFacts.PoolSlotZeroNull | src/VMClassLoader.cpp:134-138 | slot 0 of a built pool is never written |
| PoolFacts.LongPhantomNull | src/VMClassLoader.cpp:168-175 | in a built pool, the slot after a Long is empty |
| PoolFacts.ClassesResolveByName | src/VMClassLoader.cpp:229-232 | each Class constant ends at its own slot, named by the Utf8 its name index held, forward references included |
| PoolFacts.MembersKeepTag | src/VMClassLoader.cpp:234-238 | each member reference ends at its own slot with its original tag and its class and name-and-type entries |
| PoolFacts.StringsResolveByIndex | src/VMClassLoader.cpp:218-221 | each String record ends at its own slot holding its index and the Utf8 bytes that index held before the pass, whether it points forwards or backwards, as long as no String points at another String's slot |
| PoolFacts.NameAndTypesResolveByName | src/VMClassLoader.cpp:223-227 | each NameAndType record ends at its own slot holding the Utf8 name and descriptor its two indices held before the pass |
| PoolFacts.ScanEntryKeepsApart | src/VMClassLoader.cpp:139-215 | one scan step defers at most one record, for the slot it visits, so records of different kinds never share a slot |
| PoolFacts.ScanFromKeepsApart | src/VMClassLoader.cpp:138-216 | the whole scan never gives two records of different kinds the same slot |
| PoolFacts.LastPassesKeep | src/VMClassLoader.cpp:229-238 | the Class and member passes leave every slot that is not one of their targets unchanged |
| PoolFacts.LaterPassesKeep | src/VMClassLoader.cpp:223-238 | the passes after the String pass leave every slot that is not a NameAndType, Class or member target unchanged |
| PoolFacts.PoolStringsLand | src/VMClassLoader.cpp:218-238 | in the finished pool each String constant sits at its own slot with its index and the Utf8 bytes the scan stored there |
| PoolFacts.PoolNameAndTypesLand | src/VMClassLoader.cpp:218-238 | in the finished pool each NameAndType sits at its own slot with the Utf8 name and descriptor the scan stored |
| PoolFacts.ReadPoolRecordsLand | src/VMClassLoader.cpp:122-238 | the pool `ReadPool` returns holds each String and NameAndType entry at its own slot with what its indices addressed in the scanned pool |
| AttributeFacts.SuperNameIffNonZeroId | src/VMClassLoader.cpp:256-259 | the super-class name is recorded exactly when the super id is non-zero |
| AttributeFacts.InterfaceIdsInOrder | src/VMClassLoader.cpp:244-251 | the interface ids are the u16 values read in input order, two bytes each |
| AttributeFacts.HandlersInOrder | src/VMClassLoader.cpp:321-328 | the exception table holds the `{start,end,handler,type}` records in input order, 8 bytes each |
| AttributeFacts.LineNumbersInOrder | src/VMClassLoader.cpp:335-342 | the line table holds the `{start,line}` pairs in input order, 4 bytes each |
| AttributeFacts.CodeAttributeShape | src/VMClassLoader.cpp:313-328 | a decoded Code has the read limits, exactly `codeLength` code bytes, and `exceptionTableLength` more handlers; name, signature, flags and deprecation are kept |
| AttributeFacts.LineNumberTableSize | src/VMClassLoader.cpp:335-342 | a LineNumberTable sub-attribute decodes its declared number of entries |
| AttributeFacts.CodeSubAttributesOnlySetLines | src/VMClassLoader.cpp:329-357 | Code sub-attributes change nothing but the line table |
| AttributeFacts.MethodAttributeSkipped | src/VMClassLoader.cpp:358-362 | a method attribute other than Deprecated, Signature and Code is skipped by exactly its declared length |
| AttributeFacts.CodeSubAttributeSkipped | src/VMClassLoader.cpp:343-356 | a Code sub-attribute other than LineNumberTable is skipped by exactly its declared length |
| AttributeFacts.ClassAttributeSkipped | src/VMClassLoader.cpp:377-380 | a class attribute other than SourceFile is skipped by exactly its declared length |
| AttributeFacts.FieldAttributeSkipped | src/VMClassLoader.cpp:277-285 | every field attribute is skipped by exactly its declared length |
| AttributeFacts.CounterAgreesBelowWrap | src/VMClassLoader.cpp:138 | while the next index fits in 16 bits, the `uint16_t` counter and the unbounded counter agree |
| AttributeFacts.CounterWrapsToSlotZero | src/VMClassLoader.cpp:138 | a Long or Double at index 65534 wraps the `uint16_t` counter to 0, below the count, while the unbounded counter stops |
| AttributeFacts.WrappedScanWritesSlotZero | src/VMClassLoader.cpp:138-195 | in a 65535-slot pool, a Long at index 65534 is stored, the counter comes back as 0, and a following Integer, Long or Utf8 entry is written into slot 0; the unbounded counter stops instead |
| FlagNames.ClassFlagsToString | src/Class.cpp:15-42 | the text is the names of the set class flags in table order, joined by single spaces; "" exactly when no listed flag is set |
| FlagNames.MethodFlagsToString | src/Class.cpp:44-75 | the same over the 12 method flags |
| FlagNames.FieldFlagsToString | src/Class.cpp:77-105 | the same over the 9 field flags |
| FlagNames.CollectSet | src/Class.cpp:31-34 | the collected names are exactly the set flags' names in table order |
| FlagNames.JoinSet | src/Class.cpp:36-41 | the words are joined by single spaces |
| FlagNames.RenderFlags | src/Class.cpp:15-42 | the rendering is the joined names of the set flags |
| FlagNames.SelectedExactly | src/Class.cpp:15-34 | a name is rendered exactly when some table entry with that name has its bit set |
| FlagNames.SelectedEmptyIff | src/Class.cpp:15-34 | no name is chosen exactly when no listed bit is set |
| FlagNames.JoinOfWords | src/Class.cpp:36-41 | joined words give "" only for no words, and never start or end with a space |
| FlagNames.RenderingEmptyIff | src/Class.cpp:15-42 | the text is "" exactly when no listed bit is set; otherwise it has no leading or trailing space |
| FlagNames.SplitJoin | src/Class.cpp:36-41 | splitting a joined list of space-free words at spaces gives the list back |
| FlagNames.RenderingDecodes | src/Class.cpp:15-42 | splitting the rendering at spaces recovers exactly the set flags' names in table order |
| FlagNames.ClassMaskClear | src/Class.cpp:15-42 | the class table's bits make up the mask 0x7631 |
| FlagNames.MethodMaskClear | src/Class.cpp:44-75 | the method table's bits make up the mask 0x1DFF |
| FlagNames.FieldMaskClear | src/Class.cpp:77-105 | the field table's bits make up the mask 0x50DF |
| FlagNames.ClassNamesAreWords | src/Class.cpp:17-26 | every class flag name is non-empty and space-free |
| FlagNames.MethodNamesAreWords | src/Class.cpp:46-59 | every method flag name is non-empty and space-free |
| FlagNames.FieldNamesAreWords | src/Class.cpp:79-89 | every field flag name is non-empty and space-free |
| FlagNames.ClassFlagBitsMatchAccessFlags | src/Classfile.h:45-54 | the renderer's class table uses exactly the `AccessFlags` bit values, in the same order |
| SearchPath.Normalize | src/JvmEnv.cpp:37-40 | the in-place rewrite yields the normalised name |
| SearchPath.Normalized | src/VMClassLoader.cpp:46-49 | every '.' becomes '/', length and other characters unchanged, and no '.' remains |
| SearchPath.NormalizedIdempotent | src/JvmEnv.cpp:37-40 | normalising twice is normalising once, and a name with no '.' is unchanged |
| SearchPath.CandidatePath | src/JvmEnv.cpp:44-47 | the path is root, "/", the normalised name and ".class" |
| SearchPath.CandidatePathInjective | src/JvmEnv.cpp:44-47 | under one root, different names give different paths |
| SearchPath.FirstExisting | src/JvmEnv.cpp:42-50 | the index of the first root whose candidate file exists; every earlier one is missing |
| SearchPath.Located | src/VMClassLoader.cpp:51-77 | no file exactly when no root has the candidate path; otherwise the file under the first root that has it |
| SearchPath.Openable | src/VMClassLoader.cpp:56-68 | only files that exist and can be opened and mapped are visible, with their bytes |
| Environment.JvmEnv.constructor | src/JvmEnv.cpp:9-12 | the cache starts empty and the search path is ["."] |
| Environment.JvmEnv.AddClassPath | src/JvmEnv.cpp:18-21 | appends one root to the end of the search path |
| Environment.JvmEnv.GetClass | src/JvmEnv.cpp:29-67 | a cached name returns the stored class and probes nothing. Otherwise a fresh class is registered before loading, the first root whose load succeeds wins and stays cached, failures are erased by the name the class reports, and with no success the result is null |
| Environment.ProbeFrom | src/JvmEnv.cpp:42-64 | a successful probe names a root in range and leaves the class cached |
| Environment.ProbeLoadsFirstLoadable | src/JvmEnv.cpp:42-64 | a successful probe loads from a root whose file exists and loads, and no earlier root does; finding nothing means no root's file loads |
| Environment.ProbeOnlyErasesReportedNames | src/JvmEnv.cpp:57-61 | only names reported by failed loads are removed from the cache |
| Environment.ProbeWithFaithfulNames | src/JvmEnv.cpp:52-66 | when every failed load reports the requested name, the probe never hands `end()` to `erase`, and finding nothing leaves the cache as it was |
| Environment.MismatchedNameKeepsEntry | src/JvmEnv.cpp:57-61 | when a failed load reports another name, the dangling entry for the requested name stays |
| Environment.ProbeKeepsKey | src/JvmEnv.cpp:52-61 | when the requested name is already cached and no failed load reports it, finding nothing leaves that entry in place |
| Environment.UnknownReportedNameCrashes | src/JvmEnv.cpp:57-61 | erasing a name that is not cached hands `end()` to `erase`, which is a crash |
| Environment.ClassConstant.constructor | src/ConstantPool.h:139-147 | a Class constant starts unresolved with its name |
| Environment.ClassConstant.Resolve | src/ConstantPool.cpp:4-11 | always returns true. A bound class is kept without consulting the environment. A missing name is a null dereference. A cached name binds the cached class. An uncached name follows the `getClass` probe over the environment's roots: a load binds the fresh class, which is then cached under the name; finding nothing leaves the constant unbound (retried next time) with the cache the probe leaves; erasing an uncached name is the `EraseEnd` fault. No other cache entry changes |
| Utf8Strings.Utf8String.Dup | include/jvm/Utf8String.h:130-136 | a fresh buffer of n+1 bytes: the first n copy the input and the last is NUL |
| Utf8Strings.Utf8String.constructor | include/jvm/Utf8String.h:83-87 | size 0 and null data |
| Utf8Strings.Utf8String.FromBytes | include/jvm/Utf8String.h:89-93 | size as given and a fresh copy of the bytes |
| Utf8Strings.Utf8String.Duplicate | include/jvm/Utf8String.h:101-105 | same size and same text in a fresh buffer |
| Utf8Strings.Utf8String.IsEmpty | include/jvm/Utf8String.h:27 | empty exactly when the text is empty |
| Utf8Strings.Utf8String.Size | include/jvm/Utf8String.h:28 | the size is the text length |
| Utf8Strings.Utf8String.Text | include/jvm/Utf8String.h:33 | the text has `size` bytes |
| Utf8Strings.Utf8String.CopyAssign | include/jvm/Utf8String.h:112-115 | returns the target, which is left unchanged |
| Utf8Strings.Utf8String.MoveAssign | include/jvm/Utf8String.h:117-128 | the target takes the source's buffer and size; the source is left at size 0 with null data |
| Utf8Strings.CharIterator.Begin | include/jvm/Utf8String.h:68 | starts at offset 0 with the end at the size |
| Utf8Strings.CharIterator.End | include/jvm/Utf8String.h:69 | starts at the end |
| Utf8Strings.CharIterator.Next | include/jvm/Utf8String.h:72-80 | advances by one unless already at the end, and never passes it |

## Left out

- The filesystem and memory mapping (`stat`, `open`, `mmap`, `munmap`, `close`) are a map from path to optional
  bytes. A file whose value is `None` exists but cannot be opened. The source compares the mapping against
  null rather than `MAP_FAILED`; the model treats any failure to map as "cannot be opened".
- `Class::load` (used by `JvmEnv::getClass`) is not part of this model. It is an oracle parameter that reports
  success and the name the class then carries.
- Environment.JvmEnv.GetClass: `load` is a pure function of the candidate path, so a `getClass` re-entered from
  inside `Class::load` and any cache change that load makes are not modelled; the cache changes only as the probe
  itself registers and erases entries.
- `Class(JvmEnv*)` and `ConstantClass::resolvedClass` exist only in the newer API that `JvmEnv.cpp` and
  `ConstantPool.cpp` use. They are modelled as a class with a nullable `resolvedClass` field.
- Memory management is not modelled: `delete`, the buffer `release`, the ownership of `Utf8String` data, and the
  leaked or dangling class left behind when `getClass` erases by another name.
- Logging and the debug renderers (`printf`, `dump()`, the `snprintf`-based `to_s()` of constants and classes)
  produce no state.
- Float and Double values are never stored, as in the source. Only how many bytes they consume is modelled;
  likewise for MethodHandle, MethodType and InvokeDynamic.
- src/Classfile.cpp, src/rd.cpp, src/JObject.h, src/test.cpp and the sample Java files are not part of this
  model. They are a superseded dump driver, an interpreter sketch, the heap model and a driver.
- The header that declares `ClassFlags`, `MethodFlags` and `FieldFlags` is not part of this model. Their bit
  values follow sections 4.1, 4.5 and 4.6 of the Java Virtual Machine Specification.
- The `Utf8String(const char*)` constructor refers to an undefined `v` and cannot compile. `CharView` iterates
  through raw pointers; the model uses offsets.
- `ByteView` and the pool's `begin`/`end` iterators are not modelled.
- Concurrency: the loader is single-threaded.
- Where the Java Virtual Machine Specification and the code disagree, the model follows the code:
  - an attribute's declared length is never checked against what was read;
  - `Deprecated` and `Signature` do not skip the rest of their declared length;
  - a lookup of the empty slot after a Long crashes rather than reporting "absent";
  - there is no linking state machine and no recursive linking of super classes.
- Reading a `superClass_` that was never initialised is undefined in C++. `ResolveClass` reports it as the
  `Uninitialised` fault.

## Findings

| source | as written | input that shows it | evidently intended | confidence | as-written member | corrected member |
|---|---|---|---|---|---|---|
| src/VMClassLoader.cpp:138 | the scan counter `i` is a `uint16_t`; a Long or Double adds a second `++i` (lines 173 and 179) | `constantCount` 65535 with a Long or Double at index 65534: `i` becomes 65536 mod 2^16 = 0 < 65535, so the scan restarts at slot 0 and overwrites it | the scan stops once the index reaches `constantCount` | not executed | AttributeFacts.WrappedScanWritesSlotZero | ClassFileFormat.NextSlot |
