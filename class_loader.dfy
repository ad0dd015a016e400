/**
 * `VMClassLoader`: a cache of defined classes keyed by the requested name, the
 * class-path roots, `defineClass` (the decoder run over one class file and
 * stored into a fresh `Class`), `findClass` (cache, then the roots in order)
 * and `resolveClass` (interfaces and the super class looked up by name).
 *
 * The file system is the parameter `files` (see `SearchPath.FileSystem`).
 */
module ClassLoader {
  import opened Wrappers
  import opened Bytes
  import opened ByteCursor
  import opened Constants
  import opened ClassModel
  import opened ClassFileFormat
  import opened Decoder
  import opened SearchPath

  /** The `Class` object `c` holds exactly what `defineClass` decoded. */
  ghost predicate Describes(c: Class, info: ClassInfo)
    reads c, c.constantPool, c.fields, c.methods
  {
    && c.minor == info.minor as int && c.major == info.major as int
    && c.constantPool.slots == info.pool
    && HoldsBody(c, info.header, info.fields, info.methods, info.sourceFile)
  }

  /** The part of `Describes` read after the constant pool. */
  ghost predicate HoldsBody(c: Class, header: Header, fields: seq<FieldInfo>, methods: seq<MethodInfo>, sourceFile: string)
    reads c, c.fields, c.methods
  {
    HoldsHeader(c, header) && HoldsMembers(c, fields, methods, sourceFile)
  }

  /** What the class header sets: flags, this and super class, interface ids with null links. */
  ghost predicate HoldsHeader(c: Class, header: Header)
    reads c`flags, c`thisClass, c`thisClassName, c`superClassName, c`superClass, c`interfaceIds, c`interfaces
  {
    && c.flags == header.flags
    && c.thisClass == Some(header.thisClass)
    && c.thisClassName == header.thisClassName
    && (match header.superClassName
        case None => c.superClassName == "" && c.superClass == Indeterminate
        case Some(name) => c.superClassName == name && c.superClass == Link(null))
    && c.interfaceIds == header.interfaceIds
    && |c.interfaces| == |c.interfaceIds|
    && (forall i :: 0 <= i < |c.interfaces| ==> c.interfaces[i] == null)
  }

  /** What the field, method and attribute sections set. */
  ghost predicate HoldsMembers(c: Class, fields: seq<FieldInfo>, methods: seq<MethodInfo>, sourceFile: string)
    reads c, c.fields, c.methods
  {
    && FieldInfos(c.fields) == fields
    && (forall k :: 0 <= k < |c.fields| ==> c.fields[k].thisClass == c && c.fields[k].attributes == [])
    && MethodInfos(c.methods) == methods
    && c.sourceFile == sourceFile
  }

  /** The result `defineClass` gives for `data`: null on a wrong magic, the fault of a crash, or the decoded class. */
  ghost predicate Reports(data: seq<byte>, c: Class?, fault: Option<Fault>)
    reads c
    reads if c == null then {} else {c.constantPool}
    reads if c == null then {} else set f | f in c.fields
    reads if c == null then {} else set m | m in c.methods
  {
    ReportsOutcome(Define(data), c, fault)
  }

  /** `Reports` for a given outcome of the decoder. */
  ghost predicate ReportsOutcome(outcome: DefineOutcome, c: Class?, fault: Option<Fault>)
    reads c
    reads if c == null then {} else {c.constantPool}
    reads if c == null then {} else set f | f in c.fields
    reads if c == null then {} else set m | m in c.methods
  {
    if c == null then outcome.BadMagic? && fault.None?
    else match outcome
      case BadMagic => false
      case Crashed(f) => fault == Some(f)
      case Defined(info) => fault.None? && Describes(c, info)
  }

  /** Past a good magic, `Reports` is what the rest of the file decodes to. */
  lemma ReportsAfterMagic(data: seq<byte>, c: Class, fault: Option<Fault>)
    requires U32At(data, 0) == Magic
    requires match ReadContents(data, After32(data, 0))
             case Faulted(f) => fault == Some(f)
             case Parsed(info, _) => fault.None? && Describes(c, info)
    ensures Reports(data, c, fault)
  {
  }

  /**
   * How `defineClass` changes the cache: not at all on a wrong magic, and
   * otherwise by binding `className` to the new class, crash or not.
   */
  ghost predicate Registers(data: seq<byte>, className: string, before: map<string, Class>, after: map<string, Class>, c: Class?)
  {
    if Define(data).BadMagic? then after == before
    else c != null && after == before[className := c]
  }

  /** `ReadContents` once the constant pool is known. */
  lemma ContentsAfterPool(data: seq<byte>, off: nat, slots: Slots, p1: nat)
    requires ReadPool(data, After16(data, After16(data, off))) == Parsed(slots, p1)
    ensures ReadContents(data, off) == match ReadBody(data, p1, slots)
              case Faulted(f) => Faulted(f)
              case Parsed((header, fields, methods, sourceFile), p2) =>
                Parsed(ClassInfo(U16At(data, off), U16At(data, After16(data, off)), slots, header, fields, methods, sourceFile), p2)
  {
  }

  /** `ReadContents` when the constant pool faults. */
  lemma ContentsStopAtPool(data: seq<byte>, off: nat)
    requires ReadPool(data, After16(data, After16(data, off))).Faulted?
    ensures ReadContents(data, off) == Faulted(ReadPool(data, After16(data, After16(data, off))).fault)
  {
  }

  /** `ReadMembers` once the fields are known. */
  lemma MembersStopAtMethods(data: seq<byte>, off: nat, slots: Slots, fields: seq<FieldInfo>, p1: nat)
    requires ReadFields(data, off, slots) == Parsed(fields, p1)
    ensures ReadMethods(data, p1, slots).Faulted? ==> ReadMembers(data, off, slots) == Faulted(ReadMethods(data, p1, slots).fault)
  {
  }

  /** `ReadMembers` once the fields and methods are known. */
  lemma MembersAfterMethods(data: seq<byte>, off: nat, slots: Slots, fields: seq<FieldInfo>, p1: nat,
                            methods: seq<MethodInfo>, p2: nat)
    requires ReadFields(data, off, slots) == Parsed(fields, p1)
    requires ReadMethods(data, p1, slots) == Parsed(methods, p2)
    ensures ReadMembers(data, off, slots) == match ReadClassAttributes(data, p2, slots)
              case Faulted(f) => Faulted(f)
              case Parsed(sourceFile, p3) => Parsed((fields, methods, sourceFile), p3)
  {
  }

  /** Every entry of `before` is still in `after`, bound to the same class. */
  ghost predicate Extends(before: map<string, Class>, after: map<string, Class>)
  {
    forall n :: n in before ==> n in after && after[n] == before[n]
  }

  /** What `defineClass` makes of the file the search path finds for `name`, if it finds one. */
  ghost function Probe(name: string, paths: seq<string>, files: FileSystem): Option<DefineOutcome>
  {
    var found := Located(paths, name, Openable(files));
    if found.None? then None else Some(Define(found.value))
  }

  /** `findClass(name)` yields null: not cached, and no file found or a file with the wrong magic. */
  ghost predicate Absent(name: string, classes: map<string, Class>, paths: seq<string>, files: FileSystem)
  {
    name !in classes && (Probe(name, paths, files).None? || Probe(name, paths, files).value.BadMagic?)
  }

  /** `findClass(name)` dies with `f`: not cached, and reading the file found faults with `f`. */
  ghost predicate CrashesOn(name: string, classes: map<string, Class>, paths: seq<string>, files: FileSystem, f: Fault)
  {
    name !in classes && Probe(name, paths, files) == Some(Crashed(f))
  }

  /** The cache only grows, and every name added is one whose file was fully defined. */
  ghost predicate Grows(before: map<string, Class>, after: map<string, Class>, paths: seq<string>, files: FileSystem)
  {
    && Extends(before, after)
    && forall n :: n in after && n !in before ==> Probe(n, paths, files).Some? && Probe(n, paths, files).value.Defined?
  }

  /**
   * `findClass(name)` against the cache `before`, as a caller sees it: a
   * cached class comes back unchanged; otherwise the search path decides,
   * null exactly when nothing is found or the magic is wrong, a fault
   * exactly when defining the file faults; a class returned is cached.
   */
  ghost predicate Finds(name: string, c: Class?, fault: Option<Fault>,
                        before: map<string, Class>, after: map<string, Class>, paths: seq<string>, files: FileSystem)
  {
    && Extends(before, after)
    && (name in before ==> c == before[name] && fault.None?)
    && (c == null <==> Absent(name, before, paths, files))
    && (c != null ==> name in after && after[name] == c)
    && (fault.Some? ==> CrashesOn(name, before, paths, files, fault.value))
    && (fault.None? ==> Grows(before, after, paths, files)
                        && (name !in before && Probe(name, paths, files).Some? ==> !Probe(name, paths, files).value.Crashed?))
  }

  /**
   * A slot `resolveClass` filled with `target` for `name` without dying,
   * judged against the cache it started from: the class cached under `name`
   * then, or else null exactly when nothing loadable was found, or else a
   * class defined from the file found; and `target` is cached under `name` now.
   */
  ghost predicate LinksTo(name: string, target: Class?, before: map<string, Class>, after: map<string, Class>,
                          paths: seq<string>, files: FileSystem)
  {
    && (name in before ==> target == before[name])
    && (target == null <==> Absent(name, before, paths, files))
    && (target != null && name !in before ==> Probe(name, paths, files).Some? && Probe(name, paths, files).value.Defined?)
    && (target != null ==> name in after && after[name] == target)
  }

  /** An interface slot filled by `resolveClass`: the pool names a class at `id`, and the slot links to it. */
  ghost predicate Linked(slots: Slots, id: u16, target: Class?, before: map<string, Class>, after: map<string, Class>,
                         paths: seq<string>, files: FileSystem)
  {
    var name := ClassNameAt(slots, id);
    name.Ok? && LinksTo(name.value.1, target, before, after, paths, files)
  }

  /** Where the lookup of the interface at `id` dies with `f`: reading its pool entry, or defining its file. */
  ghost predicate LinkFails(slots: Slots, id: u16, f: Fault, before: map<string, Class>, paths: seq<string>, files: FileSystem)
  {
    var name := ClassNameAt(slots, id);
    if name.Err? then f == name.fault else CrashesOn(name.value.1, before, paths, files, f)
  }

  /** The interface slots null in `was` and below `upto` are linked in `now`. */
  ghost predicate InterfacesLinked(slots: Slots, ids: seq<u16>, was: seq<Class?>, now: seq<Class?>,
                                   before: map<string, Class>, after: map<string, Class>,
                                   paths: seq<string>, files: FileSystem, upto: int)
  {
    && |was| == |ids| && |now| == |ids|
    && forall j :: 0 <= j < upto && j < |ids| && was[j] == null ==>
         Linked(slots, ids[j], now[j], before, after, paths, files)
  }

  /** The interface loop died with `f` at some slot null in `was`, every null slot before it linked. */
  ghost predicate InterfacesFail(slots: Slots, ids: seq<u16>, was: seq<Class?>, now: seq<Class?>,
                                 before: map<string, Class>, after: map<string, Class>,
                                 paths: seq<string>, files: FileSystem, f: Fault)
  {
    exists i :: 0 <= i < |ids| && i < |was| && was[i] == null && LinkFails(slots, ids[i], f, before, paths, files)
                && InterfacesLinked(slots, ids, was, now, before, after, paths, files, i)
  }

  /** What `Reports` says about the outcome of `Define`, without the class contents. */
  lemma ReportsDecides(data: seq<byte>, c: Class?, fault: Option<Fault>)
    requires Reports(data, c, fault)
    ensures c == null <==> Define(data).BadMagic?
    ensures fault.Some? ==> Define(data) == Crashed(fault.value)
    ensures fault.None? ==> !Define(data).Crashed?
  {
  }

  /** `findClass` on an uncached name whose file the search path locates. */
  lemma FindsLocated(name: string, data: seq<byte>, c: Class?, fault: Option<Fault>,
                     before: map<string, Class>, after: map<string, Class>, paths: seq<string>, files: FileSystem)
    requires name !in before && Located(paths, name, Openable(files)) == Some(data)
    requires Registers(data, name, before, after, c) && Reports(data, c, fault)
    ensures Finds(name, c, fault, before, after, paths, files)
  {
    ReportsDecides(data, c, fault);
  }

  /**
   * A lookup made against a cache `mid` that grew from `before` by defined
   * classes only links as if made against `before`, and the growth adds up.
   */
  lemma FoundLinks(name: string, found: Class?, before: map<string, Class>, mid: map<string, Class>,
                   after: map<string, Class>, paths: seq<string>, files: FileSystem)
    requires Grows(before, mid, paths, files) && Finds(name, found, None, mid, after, paths, files)
    ensures LinksTo(name, found, before, after, paths, files) && Grows(before, after, paths, files)
  {
  }

  /** A lookup that dies against the grown cache `mid` dies the same way against `before`. */
  lemma FoundCrash(name: string, found: Class?, f: Fault, before: map<string, Class>, mid: map<string, Class>,
                   after: map<string, Class>, paths: seq<string>, files: FileSystem)
    requires Extends(before, mid) && Finds(name, found, Some(f), mid, after, paths, files)
    ensures CrashesOn(name, before, paths, files, f) && Extends(mid, after)
  {
  }

  /** Links stay valid while the cache only grows. */
  lemma {:induction false} LinkedKept(slots: Slots, ids: seq<u16>, was: seq<Class?>, now: seq<Class?>,
                                      before: map<string, Class>, mid: map<string, Class>, after: map<string, Class>,
                                      paths: seq<string>, files: FileSystem, upto: int)
    requires InterfacesLinked(slots, ids, was, now, before, mid, paths, files, upto) && Extends(mid, after)
    ensures InterfacesLinked(slots, ids, was, now, before, after, paths, files, upto)
  {
    forall j | 0 <= j < upto && j < |ids| && was[j] == null
      ensures Linked(slots, ids[j], now[j], before, after, paths, files)
    {
      assert Linked(slots, ids[j], now[j], before, mid, paths, files);
    }
  }

  class VMClassLoader {
    var classes: map<string, Class>
    var classpaths: seq<string>

    /** A new loader knows no classes and searches only the current directory. */
    constructor ()
      ensures classes == map[] && classpaths == ["."]
    {
      classes := map[];
      classpaths := ["."];
    }

    /** Appends a root; it is searched after all earlier ones. */
    method AddClassPath(path: string)
      modifies this
      ensures classpaths == old(classpaths) + [path] && classes == old(classes)
    {
      classpaths := classpaths + [path];
    }

    /**
     * `defineClass(className, classfile, size)`: nothing happens on a wrong
     * magic; otherwise a fresh class is registered under `className` before
     * anything else is read, then filled section by section. A fault means the
     * process would have died part-way, with the class already registered.
     */
    method DefineClass(className: string, data: seq<byte>) returns (c: Class?, fault: Option<Fault>)
      modifies this
      ensures classpaths == old(classpaths)
      ensures Registers(data, className, old(classes), classes, c) && Reports(data, c, fault)
      ensures c != null ==> fresh(c)
    {
      var cur := new Cursor(data);
      var magic := cur.Read32();
      if magic != Magic {
        return null, None;
      }
      c := new Class();
      classes := classes[className := c];
      fault := ReadContentsInto(cur, c);
      ReportsAfterMagic(data, c, fault);
    }

    /** The version, the constant pool and the body, read into the fresh class `c`. */
    static method ReadContentsInto(cur: Cursor, c: Class) returns (fault: Option<Fault>)
      requires c.superClassName == "" && c.superClass == Indeterminate
      modifies cur, c, c.constantPool
      ensures match ReadContents(cur.data, old(cur.offset))
              case Faulted(f) => fault == Some(f)
              case Parsed(info, _) => fault.None? && Describes(c, info)
    {
      var minor := cur.Read16();
      var major := cur.Read16();
      c.minor, c.major := minor, major;
      ghost var poolStart := cur.offset;
      fault := ReadConstantPool(cur, c.constantPool);
      if fault.Some? {
        ContentsStopAtPool(cur.data, old(cur.offset));
        return;
      }
      var slots := c.constantPool.slots;
      ContentsAfterPool(cur.data, old(cur.offset), slots, cur.offset);
      var header, fields, methods, sourceFile;
      fault, header, fields, methods, sourceFile := ReadClassBody(cur, c, slots);
      if fault.Some? {
        return;
      }
      StoreBody(c, header, fields, methods, sourceFile);
    }

    /** The stores `defineClass` makes into `c` after the constant pool. */
    static method StoreBody(c: Class, header: Header, fields: seq<Field>, methods: seq<Method>, sourceFile: string)
      requires c.superClassName == "" && c.superClass == Indeterminate
      requires forall k :: 0 <= k < |fields| ==> fields[k].thisClass == c && fields[k].attributes == []
      modifies c
      ensures c.minor == old(c.minor) && c.major == old(c.major)
      ensures HoldsBody(c, header, FieldInfos(fields), old(MethodInfos(methods)), sourceFile)
    {
      StoreHeader(c, header);
      StoreMembers(c, fields, methods, sourceFile);
    }

    /** Flags, this and super class, and the interface ids with null links. */
    static method StoreHeader(c: Class, header: Header)
      requires c.superClassName == "" && c.superClass == Indeterminate
      modifies c
      ensures c.minor == old(c.minor) && c.major == old(c.major)
      ensures HoldsHeader(c, header)
    {
      c.flags := header.flags;
      c.interfaceIds, c.interfaces := header.interfaceIds, seq(|header.interfaceIds|, _ => null);
      c.thisClass, c.thisClassName := Some(header.thisClass), header.thisClassName;
      match header.superClassName {
        case Some(name) =>
          c.superClassName, c.superClass := name, Link(null);
        case None =>
      }
    }

    /** The field list, the method list and the source file name. */
    static method StoreMembers(c: Class, fields: seq<Field>, methods: seq<Method>, sourceFile: string)
      requires forall k :: 0 <= k < |fields| ==> fields[k].thisClass == c && fields[k].attributes == []
      modifies c`fields, c`methods, c`sourceFile
      ensures HoldsMembers(c, FieldInfos(fields), old(MethodInfos(methods)), sourceFile)
    {
      c.fields, c.methods, c.sourceFile := fields, methods, sourceFile;
    }

    /** Header, fields, methods and class attributes of a class owned by `owner`. */
    static method ReadClassBody(cur: Cursor, owner: Class, slots: Slots)
        returns (fault: Option<Fault>, header: Header, fields: seq<Field>, methods: seq<Method>, sourceFile: string)
      modifies cur
      ensures forall k :: 0 <= k < |fields| ==> fresh(fields[k]) && fields[k].thisClass == owner && fields[k].attributes == []
      ensures forall k :: 0 <= k < |methods| ==> fresh(methods[k])
      ensures match ReadBody(cur.data, old(cur.offset), slots)
              case Faulted(f) => fault == Some(f)
              case Parsed((h, fs, ms, file), _) =>
                fault.None? && header == h && FieldInfos(fields) == fs && MethodInfos(methods) == ms && sourceFile == file
    {
      fields, methods, sourceFile := [], [], "";
      fault, header := ReadClassHeader(cur, slots);
      if fault.Some? {
        return;
      }
      fault, fields, methods, sourceFile := ReadClassMembers(cur, owner, slots);
    }

    /** The field, method and class attribute sections of a class owned by `owner`. */
    static method ReadClassMembers(cur: Cursor, owner: Class, slots: Slots)
        returns (fault: Option<Fault>, fields: seq<Field>, methods: seq<Method>, sourceFile: string)
      modifies cur
      ensures forall k :: 0 <= k < |fields| ==> fresh(fields[k]) && fields[k].thisClass == owner && fields[k].attributes == []
      ensures forall k :: 0 <= k < |methods| ==> fresh(methods[k])
      ensures match ReadMembers(cur.data, old(cur.offset), slots)
              case Faulted(f) => fault == Some(f)
              case Parsed((fs, ms, file), _) => fault.None? && FieldInfos(fields) == fs && MethodInfos(methods) == ms && sourceFile == file
    {
      methods, sourceFile := [], "";
      ghost var start := cur.offset;
      fault, fields := ReadFieldList(cur, owner, slots);
      if fault.Some? {
        return;
      }
      ghost var p1 := cur.offset;
      fault, methods := ReadMethodList(cur, slots);
      if fault.Some? {
        MembersStopAtMethods(cur.data, start, slots, FieldInfos(fields), p1);
        return;
      }
      ghost var p2 := cur.offset;
      fault, sourceFile := ReadClassAttributeList(cur, slots);
      MembersAfterMethods(cur.data, start, slots, FieldInfos(fields), p1, MethodInfos(methods), p2);
    }

    /**
     * `findClass(className)`: a cached class is returned as it is; otherwise
     * the first root holding the class file decides, through `defineClass`,
     * and later roots are never tried, even when that yields null.
     */
    method FindClass(className: string, files: FileSystem) returns (c: Class?, fault: Option<Fault>)
      modifies this
      ensures classpaths == old(classpaths)
      ensures Extends(old(classes), classes)
      ensures className in old(classes) ==> c == old(classes)[className] && fault.None? && classes == old(classes)
      ensures className !in old(classes) && Located(classpaths, className, Openable(files)).None? ==>
                c == null && fault.None? && classes == old(classes)
      ensures className !in old(classes) && Located(classpaths, className, Openable(files)).Some? ==>
                var data := Located(classpaths, className, Openable(files)).value;
                Registers(data, className, old(classes), classes, c) && Reports(data, c, fault)
      ensures c != null && className !in old(classes) ==> fresh(c)
      ensures c != null ==> className in classes && classes[className] == c
      ensures Finds(className, c, fault, old(classes), classes, classpaths, files)
    {
      if className in classes {
        return classes[className], None;
      }
      var normalized := Normalize(className);
      ghost var k := FirstExisting(classpaths, normalized, Openable(files).Keys);
      for j := 0 to |classpaths|
        invariant j <= k
      {
        var path := classpaths[j];
        path := path + "/";
        path := path + normalized;
        path := path + ".class";
        assert path == CandidatePath(classpaths[j], normalized);
        if path !in files {
          continue;
        }
        var contents := files[path];
        if contents.None? {
          continue;
        }
        c, fault := DefineClass(className, contents.value);
        FindsLocated(className, contents.value, c, fault, old(classes), classes, classpaths, files);
        return;
      }
      return null, None;
    }

    /** The interface loop of `resolveClass`. */
    method ResolveInterfaces(c: Class, files: FileSystem) returns (fault: Option<Fault>)
      requires |c.interfaces| == |c.interfaceIds|
      modifies this, c
      ensures classpaths == old(classpaths) && Extends(old(classes), classes)
      ensures c.interfaceIds == old(c.interfaceIds)
      ensures c.superClassName == old(c.superClassName) && c.thisClassName == old(c.thisClassName)
      ensures c.superClass == old(c.superClass)
      ensures c.fields == old(c.fields) && c.methods == old(c.methods)
      ensures |c.interfaces| == |c.interfaceIds|
      ensures forall i :: 0 <= i < |c.interfaces| && old(c.interfaces)[i] != null ==>
                c.interfaces[i] == old(c.interfaces)[i]
      ensures fault.None? ==>
                && Grows(old(classes), classes, classpaths, files)
                && InterfacesLinked(c.constantPool.slots, c.interfaceIds, old(c.interfaces), c.interfaces,
                                    old(classes), classes, classpaths, files, |c.interfaceIds|)
      ensures fault.Some? ==>
                InterfacesFail(c.constantPool.slots, c.interfaceIds, old(c.interfaces), c.interfaces,
                               old(classes), classes, classpaths, files, fault.value)
    {
      var slots := c.constantPool.slots;
      for i := 0 to |c.interfaceIds|
        invariant classpaths == old(classpaths) && Grows(old(classes), classes, classpaths, files)
        invariant c.interfaceIds == old(c.interfaceIds)
        invariant c.superClassName == old(c.superClassName) && c.thisClassName == old(c.thisClassName)
        invariant c.superClass == old(c.superClass)
        invariant c.fields == old(c.fields) && c.methods == old(c.methods)
        invariant |c.interfaces| == |c.interfaceIds|
        invariant forall j :: 0 <= j < |c.interfaces| && old(c.interfaces)[j] != null ==>
                    c.interfaces[j] == old(c.interfaces)[j]
        invariant forall j :: i <= j < |c.interfaces| ==> c.interfaces[j] == old(c.interfaces)[j]
        invariant InterfacesLinked(slots, c.interfaceIds, old(c.interfaces), c.interfaces,
                                   old(classes), classes, classpaths, files, i)
      {
        if c.interfaces[i] != null {
          continue;
        }
        var id := c.interfaceIds[i];
        if !Readable(slots, id) {
          fault := Some(NullSlot(id));
          assert LinkFails(slots, id, fault.value, old(classes), classpaths, files);
          return;
        }
        var iface := GetClass(slots, id);
        if iface.None? || iface.value.name.None? {
          fault := Some(NullDeref);
          assert LinkFails(slots, id, fault.value, old(classes), classpaths, files);
          return;
        }
        var name := Chars(CStr(iface.value.name.value));
        assert ClassNameAt(slots, id).Ok? && ClassNameAt(slots, id).value.1 == name;
        ghost var mid := classes;
        var found;
        found, fault := FindClass(name, files);
        LinkedKept(slots, c.interfaceIds, old(c.interfaces), c.interfaces, old(classes), mid, classes, classpaths, files, i);
        if fault.Some? {
          FoundCrash(name, found, fault.value, old(classes), mid, classes, classpaths, files);
          assert LinkFails(slots, id, fault.value, old(classes), classpaths, files);
          return;
        }
        FoundLinks(name, found, old(classes), mid, classes, classpaths, files);
        c.interfaces := c.interfaces[i := found];
        assert Linked(slots, id, found, old(classes), classes, classpaths, files);
      }
      fault := None;
    }

    /**
     * `resolveClass(c)`: every interface slot still null is looked up by the
     * name its pool entry gives, then a null super class by `superClassName`.
     * Slots already filled are left alone; a super class never set up is a
     * null dereference in the source and `Uninitialised` here.
     */
    method ResolveClass(c: Class, files: FileSystem) returns (fault: Option<Fault>)
      requires |c.interfaces| == |c.interfaceIds|
      modifies this, c
      ensures classpaths == old(classpaths) && Extends(old(classes), classes)
      ensures c.interfaceIds == old(c.interfaceIds)
      ensures c.superClassName == old(c.superClassName) && c.thisClassName == old(c.thisClassName)
      ensures c.fields == old(c.fields) && c.methods == old(c.methods)
      ensures |c.interfaces| == |c.interfaceIds|
      ensures forall i :: 0 <= i < |c.interfaces| && old(c.interfaces)[i] != null ==>
                c.interfaces[i] == old(c.interfaces)[i]
      ensures old(c.superClass) != Link(null) ==> c.superClass == old(c.superClass)
      ensures fault.None? ==>
                && old(c.superClass).Link?
                && Grows(old(classes), classes, classpaths, files)
                && InterfacesLinked(c.constantPool.slots, c.interfaceIds, old(c.interfaces), c.interfaces,
                                    old(classes), classes, classpaths, files, |c.interfaceIds|)
      ensures fault.None? && old(c.superClass) == Link(null) ==>
                c.superClass.Link? && LinksTo(c.superClassName, c.superClass.target, old(classes), classes, classpaths, files)
      ensures fault.Some? ==>
                || InterfacesFail(c.constantPool.slots, c.interfaceIds, old(c.interfaces), c.interfaces,
                                  old(classes), classes, classpaths, files, fault.value)
                || (&& InterfacesLinked(c.constantPool.slots, c.interfaceIds, old(c.interfaces), c.interfaces,
                                        old(classes), classes, classpaths, files, |c.interfaceIds|)
                    && ((old(c.superClass) == Indeterminate && fault.value == Uninitialised)
                        || (old(c.superClass) == Link(null)
                            && CrashesOn(c.superClassName, old(classes), classpaths, files, fault.value))))
    {
      fault := ResolveInterfaces(c, files);
      if fault.Some? {
        return;
      }
      match c.superClass
      case Indeterminate =>
        return Some(Uninitialised);
      case Link(target) =>
        if target == null {
          ghost var mid := classes;
          var found;
          found, fault := FindClass(c.superClassName, files);
          LinkedKept(c.constantPool.slots, c.interfaceIds, old(c.interfaces), c.interfaces,
                     old(classes), mid, classes, classpaths, files, |c.interfaceIds|);
          if fault.Some? {
            FoundCrash(c.superClassName, found, fault.value, old(classes), mid, classes, classpaths, files);
            return;
          }
          FoundLinks(c.superClassName, found, old(classes), mid, classes, classpaths, files);
          c.superClass := Link(found);
        }
      fault := None;
    }
  }
}
