/**
 * `JvmEnv` (the later class registry of `JvmEnv.cpp`) and the one-time
 * binding of a class constant to a loaded class (`ConstantPool.cpp`).
 *
 * Unlike `VMClassLoader`, `JvmEnv` registers the new class before loading
 * it and, when loading fails, erases the entry named by the class's own
 * name after the failed load, which need not be the name it was
 * registered under. Loading itself (`Class::load`) is an oracle `load`
 * that reports whether it succeeded and the name the class then carries.
 */
module Environment {
  import opened Wrappers
  import opened Bytes
  import opened Constants
  import ClassModel
  import opened ClassFileFormat
  import opened SearchPath

  /** What `Class::load(path)` leaves behind: success, and the class's `name()` afterwards. */
  datatype LoadReport = LoadReport(ok: bool, name: string)

  /** How a probe of the class-path roots ends, with the key set of the class map at that point. */
  datatype Outcome =
    | Loaded(root: nat, keys: set<string>)    // the class under `root` loaded
    | NotFound(keys: set<string>)             // every root was skipped or failed
    | EraseCrash(root: nat)                   // the failed load under `root` erased `end()`

  /**
   * The probe loop of `getClass` from root `i` on, on the key set alone:
   * a missing file is skipped; an existing one registers `className`,
   * and a failed load then erases the reported name, crashing when that
   * name is not a key.
   */
  function ProbeFrom(roots: seq<string>, i: nat, normalized: string, className: string,
                     files: FileSystem, load: string -> LoadReport, keys: set<string>): (r: Outcome)
    requires i <= |roots|
    ensures r.Loaded? ==> i <= r.root < |roots| && className in r.keys
    ensures r.EraseCrash? ==> i <= r.root < |roots|
    decreases |roots| - i
  {
    if i == |roots| then NotFound(keys)
    else
      var path := CandidatePath(roots[i], normalized);
      if path !in files then ProbeFrom(roots, i + 1, normalized, className, files, load, keys)
      else
        var registered := keys + {className};
        var report := load(path);
        if report.ok then Loaded(i, registered)
        else if report.name !in registered then EraseCrash(i)
        else ProbeFrom(roots, i + 1, normalized, className, files, load, registered - {report.name})
  }

  /** The candidate under root `m` exists and loads. */
  predicate LoadsAt(roots: seq<string>, m: nat, normalized: string, files: FileSystem, load: string -> LoadReport)
    requires m < |roots|
  {
    CandidatePath(roots[m], normalized) in files && load(CandidatePath(roots[m], normalized)).ok
  }

  /** The candidate under root `m` exists, fails to load, and reports `name`. */
  predicate FailsAs(roots: seq<string>, m: nat, normalized: string, files: FileSystem,
                    load: string -> LoadReport, name: string)
    requires m < |roots|
  {
    var path := CandidatePath(roots[m], normalized);
    path in files && !load(path).ok && load(path).name == name
  }

  class JvmEnv {
    var classpaths: seq<string>
    var classes: map<string, ClassModel.Class>

    /** `JvmEnv()`: the current directory is the only root, and nothing is loaded. */
    constructor ()
      ensures classpaths == ["."] && classes == map[]
    {
      classpaths := ["."];
      classes := map[];
    }

    /** `addClassPath`: a further root, tried after all earlier ones. */
    method AddClassPath(path: string)
      modifies this
      ensures classpaths == old(classpaths) + [path] && classes == old(classes)
    {
      classpaths := classpaths + [path];
    }

    /**
     * `getClass(className)`: the cached class, or the first root whose class
     * file exists and loads. The new class is in the map while it loads;
     * a failed load erases the entry of the name the class reports.
     */
    method GetClass(className: string, files: FileSystem, load: string -> LoadReport)
      returns (c: ClassModel.Class?, fault: Option<Fault>)
      modifies this
      ensures classpaths == old(classpaths)
      ensures className in old(classes) ==> c == old(classes)[className] && fault == None && classes == old(classes)
      ensures className !in old(classes) ==>
        match ProbeFrom(classpaths, 0, Normalized(className), className, files, load, old(classes).Keys)
        case Loaded(_, keys) => fault == None && c != null && fresh(c) && classes.Keys == keys && classes[className] == c
        case NotFound(keys) => fault == None && c == null && classes.Keys == keys
        case EraseCrash(_) => fault == Some(EraseEnd) && c == null
      ensures forall k :: k in classes && k != className ==> k in old(classes) && classes[k] == old(classes)[k]
      ensures className in classes && className !in old(classes) ==> fresh(classes[className])
      ensures c != null && className !in old(classes) ==>
        (var r := ProbeFrom(classpaths, 0, Normalized(className), className, files, load, old(classes).Keys);
         r.Loaded? && c.Name() == load(CandidatePath(classpaths[r.root], Normalized(className))).name)
    {
      if className in classes {
        return classes[className], None;
      }
      var normalized := Normalize(className);
      var roots := classpaths;
      ghost var outcome := ProbeFrom(roots, 0, normalized, className, files, load, classes.Keys);
      for i := 0 to |roots|
        invariant classpaths == roots && className !in old(classes)
        invariant ProbeFrom(roots, i, normalized, className, files, load, classes.Keys) == outcome
        invariant forall k :: k in classes && k != className ==> k in old(classes) && classes[k] == old(classes)[k]
        invariant className in classes ==> fresh(classes[className])
      {
        var path := roots[i] + "/";
        path := path + normalized;
        path := path + ".class";
        assert path == CandidatePath(roots[i], normalized);
        if path !in files {
          continue;
        }
        ghost var keys := classes.Keys;
        c := new ClassModel.Class();
        classes := classes[className := c];
        assert classes.Keys == keys + {className};
        var report := load(path);
        c.thisClassName := report.name;
        if !report.ok {
          if report.name !in classes {
            return null, Some(EraseEnd);
          }
          classes := classes - {report.name};
          assert classes.Keys == keys + {className} - {report.name};
          continue;
        }
        return c, None;
      }
      return null, None;
    }
  }

  /**
   * `ConstantClass` with the `resolvedClass` link of the newer API: the
   * class name stays a pool reference, possibly null.
   */
  class ClassConstant {
    const id: u16
    const name: Option<seq<byte>>
    var resolvedClass: ClassModel.Class?

    constructor (nameId: u16, value: Option<seq<byte>>)
      ensures id == nameId && name == value && resolvedClass == null
    {
      id := nameId;
      name := value;
      resolvedClass := null;
    }

    /**
     * `resolve(env)`: binds the constant to its class once; an unresolved
     * (null) result is tried again on the next call. Always reports true.
     */
    method Resolve(env: JvmEnv, files: FileSystem, load: string -> LoadReport) returns (ok: bool, fault: Option<Fault>)
      modifies this, env
      ensures ok
      ensures env.classpaths == old(env.classpaths)
      ensures old(resolvedClass) != null ==>
        resolvedClass == old(resolvedClass) && fault == None && env.classes == old(env.classes)
      ensures old(resolvedClass) == null && name.None? ==> fault == Some(NullDeref)
      ensures old(resolvedClass) == null && name.Some? && Chars(CStr(name.value)) in old(env.classes) ==>
        resolvedClass == old(env.classes)[Chars(CStr(name.value))] && fault == None && env.classes == old(env.classes)
      ensures old(resolvedClass) == null && fault == None && resolvedClass != null ==>
        name.Some? && Chars(CStr(name.value)) in env.classes && env.classes[Chars(CStr(name.value))] == resolvedClass
      ensures old(resolvedClass) == null && name.Some? && Chars(CStr(name.value)) !in old(env.classes) ==>
        var n := Chars(CStr(name.value));
        match ProbeFrom(env.classpaths, 0, Normalized(n), n, files, load, old(env.classes).Keys)
        case Loaded(_, keys) =>
          fault == None && resolvedClass != null && fresh(resolvedClass) && env.classes.Keys == keys && env.classes[n] == resolvedClass
        case NotFound(keys) => fault == None && resolvedClass == null && env.classes.Keys == keys
        case EraseCrash(_) => fault == Some(EraseEnd) && resolvedClass == null
      ensures forall k :: k in env.classes && (name.None? || k != Chars(CStr(name.value))) ==>
        k in old(env.classes) && env.classes[k] == old(env.classes)[k]
    {
      ok := true;
      if resolvedClass != null {
        return true, None;
      }
      if name.None? {
        return true, Some(NullDeref);
      }
      resolvedClass, fault := env.GetClass(Chars(CStr(name.value)), files, load);
    }
  }

  // ---------------------------------------------------------------------
  // What the probe means
  // ---------------------------------------------------------------------

  /** A probe loads the first root whose candidate exists and loads; no earlier one loads. */
  lemma {:induction false} ProbeLoadsFirstLoadable(roots: seq<string>, i: nat, normalized: string, className: string,
                                                  files: FileSystem, load: string -> LoadReport, keys: set<string>)
    requires i <= |roots|
    ensures var r := ProbeFrom(roots, i, normalized, className, files, load, keys);
      r.Loaded? ==> LoadsAt(roots, r.root, normalized, files, load) &&
                    forall m :: i <= m < r.root ==> !LoadsAt(roots, m, normalized, files, load)
    ensures var r := ProbeFrom(roots, i, normalized, className, files, load, keys);
      r.NotFound? ==> forall m :: i <= m < |roots| ==> !LoadsAt(roots, m, normalized, files, load)
    decreases |roots| - i
  {
    if i < |roots| {
      var path := CandidatePath(roots[i], normalized);
      if path !in files {
        ProbeLoadsFirstLoadable(roots, i + 1, normalized, className, files, load, keys);
      } else if !load(path).ok && load(path).name in keys + {className} {
        ProbeLoadsFirstLoadable(roots, i + 1, normalized, className, files, load, keys + {className} - {load(path).name});
      }
    }
  }

  /**
   * The probe adds no key but `className`, and an earlier key disappears
   * only as the reported name of a failed load.
   */
  lemma {:induction false} ProbeOnlyErasesReportedNames(roots: seq<string>, i: nat, normalized: string, className: string,
                                                       files: FileSystem, load: string -> LoadReport, keys: set<string>)
    requires i <= |roots|
    ensures var r := ProbeFrom(roots, i, normalized, className, files, load, keys);
      !r.EraseCrash? ==> r.keys <= keys + {className}
    ensures var r := ProbeFrom(roots, i, normalized, className, files, load, keys);
      !r.EraseCrash? ==> forall k :: k in keys && k !in r.keys ==>
        exists m :: i <= m < |roots| && FailsAs(roots, m, normalized, files, load, k)
    decreases |roots| - i
  {
    if i < |roots| {
      var path := CandidatePath(roots[i], normalized);
      if path !in files {
        ProbeOnlyErasesReportedNames(roots, i + 1, normalized, className, files, load, keys);
      } else if !load(path).ok && load(path).name in keys + {className} {
        var next := keys + {className} - {load(path).name};
        ProbeOnlyErasesReportedNames(roots, i + 1, normalized, className, files, load, next);
        var r := ProbeFrom(roots, i, normalized, className, files, load, keys);
        if !r.EraseCrash? {
          forall k | k in keys && k !in r.keys
            ensures exists m :: i <= m < |roots| && FailsAs(roots, m, normalized, files, load, k)
          {
            if k == load(path).name {
              assert FailsAs(roots, i, normalized, files, load, k);
            } else {
              assert k in next;
            }
          }
        }
      }
    }
  }

  /**
   * When every failed load reports the name it was registered under, the
   * probe never crashes, and a probe that finds nothing leaves the key set
   * exactly as it was.
   */
  lemma {:induction false} ProbeWithFaithfulNames(roots: seq<string>, i: nat, normalized: string, className: string,
                                                 files: FileSystem, load: string -> LoadReport, keys: set<string>)
    requires i <= |roots| && className !in keys
    requires forall m :: i <= m < |roots| && CandidatePath(roots[m], normalized) in files &&
                         !load(CandidatePath(roots[m], normalized)).ok ==>
                           load(CandidatePath(roots[m], normalized)).name == className
    ensures !ProbeFrom(roots, i, normalized, className, files, load, keys).EraseCrash?
    ensures ProbeFrom(roots, i, normalized, className, files, load, keys).NotFound? ==>
              ProbeFrom(roots, i, normalized, className, files, load, keys).keys == keys
    decreases |roots| - i
  {
    if i < |roots| {
      var path := CandidatePath(roots[i], normalized);
      if path !in files {
        ProbeWithFaithfulNames(roots, i + 1, normalized, className, files, load, keys);
      } else if !load(path).ok {
        assert keys + {className} - {className} == keys;
        ProbeWithFaithfulNames(roots, i + 1, normalized, className, files, load, keys);
      }
    }
  }

  /**
   * The failure mode of erasing by the reported name: when a failed load
   * reports another name that is a key, that other entry goes, and the
   * entry for `className` (pointing at the discarded class) stays behind
   * unless a later root replaces or erases it.
   */
  lemma {:induction false} MismatchedNameKeepsEntry(roots: seq<string>, i: nat, normalized: string, className: string,
                                                   files: FileSystem, load: string -> LoadReport, keys: set<string>)
    requires i <= |roots|
    requires forall m :: i <= m < |roots| && CandidatePath(roots[m], normalized) in files ==>
                         !load(CandidatePath(roots[m], normalized)).ok &&
                         load(CandidatePath(roots[m], normalized)).name != className
    requires exists m :: i <= m < |roots| && CandidatePath(roots[m], normalized) in files
    ensures var r := ProbeFrom(roots, i, normalized, className, files, load, keys);
      r.NotFound? ==> className in r.keys
    decreases |roots| - i
  {
    if i < |roots| {
      var path := CandidatePath(roots[i], normalized);
      if path !in files {
        var m :| i <= m < |roots| && CandidatePath(roots[m], normalized) in files;
        assert m != i;
        MismatchedNameKeepsEntry(roots, i + 1, normalized, className, files, load, keys);
      } else if load(path).name in keys + {className} {
        var next := keys + {className} - {load(path).name};
        assert className in next;
        ProbeKeepsKey(roots, i + 1, normalized, className, files, load, next);
      }
    }
  }

  /** A key that no failed load reports survives the probe. */
  lemma {:induction false} ProbeKeepsKey(roots: seq<string>, i: nat, normalized: string, className: string,
                                        files: FileSystem, load: string -> LoadReport, keys: set<string>)
    requires i <= |roots| && className in keys
    requires forall m :: i <= m < |roots| && CandidatePath(roots[m], normalized) in files ==>
                         load(CandidatePath(roots[m], normalized)).name != className
    ensures var r := ProbeFrom(roots, i, normalized, className, files, load, keys);
      r.NotFound? ==> className in r.keys
    decreases |roots| - i
  {
    if i < |roots| {
      var path := CandidatePath(roots[i], normalized);
      if path !in files {
        ProbeKeepsKey(roots, i + 1, normalized, className, files, load, keys);
      } else if !load(path).ok && load(path).name in keys + {className} {
        ProbeKeepsKey(roots, i + 1, normalized, className, files, load, keys + {className} - {load(path).name});
      }
    }
  }

  /**
   * When the first existing candidate fails to load and reports a name
   * that is neither a key nor `className`, the probe crashes there.
   */
  lemma {:induction false} UnknownReportedNameCrashes(roots: seq<string>, i: nat, normalized: string, className: string,
                                                     files: FileSystem, load: string -> LoadReport, keys: set<string>)
    requires i <= |roots|
    requires FirstExisting(roots[i..], normalized, files.Keys) < |roots| - i
    requires var path := CandidatePath(roots[i + FirstExisting(roots[i..], normalized, files.Keys)], normalized);
      !load(path).ok && load(path).name !in keys + {className}
    ensures ProbeFrom(roots, i, normalized, className, files, load, keys)
            == EraseCrash(i + FirstExisting(roots[i..], normalized, files.Keys))
    decreases |roots| - i
  {
    var first := FirstExisting(roots[i..], normalized, files.Keys);
    assert roots[i..][0] == roots[i];
    if first != 0 {
      assert roots[i..][1..] == roots[i + 1..];
      UnknownReportedNameCrashes(roots, i + 1, normalized, className, files, load, keys);
    }
  }
}
