/**
 * What the constant-pool scan and its deferred resolution guarantee about
 * the finished pool: slot 0 and the slot after every Long stay null, each
 * entry consumes exactly its payload, an unknown tag aborts, and each
 * deferred record lands at its own index with what it names, whether it
 * refers forwards or backwards.
 */
module PoolFacts {
  import opened Wrappers
  import opened Bytes
  import opened ByteCursor
  import opened Constants
  import opened ClassFileFormat

  predicate IsLong(o: Option<Constant>)
  {
    o.Some? && o.value.LongConst?
  }

  /** No deferred record of `s` is to be stored at slot `j`. */
  predicate NotSelf(s: Scan, j: int)
  {
    && (forall m :: 0 <= m < |s.strings| ==> s.strings[m].self != j)
    && (forall m :: 0 <= m < |s.nameAndTypes| ==> s.nameAndTypes[m].self != j)
    && (forall m :: 0 <= m < |s.classes| ==> s.classes[m].self != j)
    && (forall m :: 0 <= m < |s.members| ==> s.members[m].self != j)
  }

  /** Every deferred record of `s` is stored at a slot in `[lo, hi)`. */
  predicate SelvesWithin(s: Scan, lo: nat, hi: nat)
  {
    && (forall m :: 0 <= m < |s.strings| ==> lo <= s.strings[m].self < hi)
    && (forall m :: 0 <= m < |s.nameAndTypes| ==> lo <= s.nameAndTypes[m].self < hi)
    && (forall m :: 0 <= m < |s.classes| ==> lo <= s.classes[m].self < hi)
    && (forall m :: 0 <= m < |s.members| ==> lo <= s.members[m].self < hi)
  }

  /** Within each deferred vector the target slots strictly increase. */
  predicate Ascending(s: Scan)
  {
    && (forall a, b :: 0 <= a < b < |s.strings| ==> s.strings[a].self < s.strings[b].self)
    && (forall a, b :: 0 <= a < b < |s.nameAndTypes| ==> s.nameAndTypes[a].self < s.nameAndTypes[b].self)
    && (forall a, b :: 0 <= a < b < |s.classes| ==> s.classes[a].self < s.classes[b].self)
    && (forall a, b :: 0 <= a < b < |s.members| ==> s.members[a].self < s.members[b].self)
  }

  /** The slot after a Long is empty and no deferred record targets it. */
  predicate PhantomsNull(s: Scan)
  {
    forall j :: 0 <= j < |s.slots| - 1 && IsLong(s.slots[j]) ==> s.slots[j + 1] == None && NotSelf(s, j + 1)
  }

  /** Records of different kinds never share a target slot. */
  predicate Apart(s: Scan)
  {
    && (forall a, b :: 0 <= a < |s.strings| && 0 <= b < |s.nameAndTypes| ==> s.strings[a].self != s.nameAndTypes[b].self)
    && (forall a, b :: 0 <= a < |s.strings| && 0 <= b < |s.classes| ==> s.strings[a].self != s.classes[b].self)
    && (forall a, b :: 0 <= a < |s.strings| && 0 <= b < |s.members| ==> s.strings[a].self != s.members[b].self)
    && (forall a, b :: 0 <= a < |s.nameAndTypes| && 0 <= b < |s.classes| ==> s.nameAndTypes[a].self != s.classes[b].self)
    && (forall a, b :: 0 <= a < |s.nameAndTypes| && 0 <= b < |s.members| ==> s.nameAndTypes[a].self != s.members[b].self)
    && (forall a, b :: 0 <= a < |s.classes| && 0 <= b < |s.members| ==> s.classes[a].self != s.members[b].self)
  }

  /**
   * The scan state before visiting slot `i`: slot 0 and every slot from
   * `i` on are still empty, the records so far target visited slots in
   * increasing order, and every Long lies at least two slots back.
   */
  predicate ScanInv(s: Scan, i: nat)
  {
    && 1 <= i
    && InPool(s)
    && (forall k :: 0 <= k < |s.slots| && (k == 0 || i <= k) ==> s.slots[k] == None)
    && SelvesWithin(s, 1, i)
    && Ascending(s)
    && PhantomsNull(s)
    && (forall j :: 0 <= j < |s.slots| && IsLong(s.slots[j]) ==> j + 2 <= i)
  }

  // ---------------------------------------------------------------------
  // One entry

  /** The payload bytes each tag's entry reads after the tag byte (`Utf8`: its length field). */
  function PayloadSize(t: Tag): (n: nat)
    ensures n > 0
  {
    match t
    case Class | String | MethodType | Utf8 => 2
    case MethodHandle => 3
    case Fieldref | Methodref | InterfaceMethodref | Integer | Float | NameAndType | InvokeDynamic => 4
    case Long | Double => 8
  }

  /** Inside the buffer, every entry but `Utf8` consumes exactly its payload size. */
  lemma EntryConsumesPayload(data: seq<byte>, off: nat, t: Tag, i: u16, acc: Scan)
    requires i < |acc.slots| && t != Utf8 && off + PayloadSize(t) <= |data|
    ensures ScanEntry(data, off, t, i, acc).1 == off + PayloadSize(t)
  {
  }

  /** A `Utf8` entry stores exactly the `length` bytes after its length field and skips them. */
  lemma Utf8EntryCopiesBytes(data: seq<byte>, off: nat, i: u16, acc: Scan)
    requires i < |acc.slots| && off + 2 <= |data| && off + 2 + U16At(data, off) <= |data|
    ensures ScanEntry(data, off, Utf8, i, acc).1 == off + 2 + U16At(data, off)
    ensures ScanEntry(data, off, Utf8, i, acc).0.slots[i] == Some(Utf8Const(data[off + 2..off + 2 + U16At(data, off)]))
  {
    BytesAtInBounds(data, off + 2, U16At(data, off));
  }

  /** Float, Double, MethodHandle, MethodType and InvokeDynamic store nothing at all. */
  lemma UnsupportedEntriesStoreNothing(data: seq<byte>, off: nat, t: Tag, i: u16, acc: Scan)
    requires i < |acc.slots|
    requires t in {Float, Double, MethodHandle, MethodType, InvokeDynamic}
    ensures ScanEntry(data, off, t, i, acc).0 == acc
  {
  }

  /** A Long stores the two big-endian halves as one signed 64-bit value, in its own slot only. */
  lemma LongEntryValue(data: seq<byte>, off: nat, i: u16, acc: Scan)
    requires i < |acc.slots| && off + 8 <= |data|
    ensures var (s, next) := ScanEntry(data, off, Long, i, acc);
      && next == off + 8
      && s == acc.(slots := acc.slots[i := Some(LongConst(ToInt64(U32At(data, off) * 0x1_0000_0000 + U32At(data, off + 4))))])
  {
    U32InBounds(data, off);
  }

  /** A tag byte that names no tag aborts the scan right there. */
  lemma UnknownTagAborts(data: seq<byte>, off: nat, i: nat, acc: Scan)
    requires |acc.slots| <= 0xFFFF && i < |acc.slots|
    requires TagOf(ByteAt(data, off)).None?
    ensures ScanFrom(data, off, i, acc) == Faulted(UnknownTag(ByteAt(data, off)))
  {
  }

  /** Storing a constant at the visited slot `i` keeps the invariant; a Long skips the next slot. */
  lemma StoreKeepsInv(acc: Scan, i: nat, c: Constant)
    requires i < |acc.slots| && ScanInv(acc, i)
    ensures ScanInv(acc.(slots := acc.slots[i := Some(c)]), if c.LongConst? then i + 2 else i + 1)
  {
    var s := acc.(slots := acc.slots[i := Some(c)]);
    forall j | 0 <= j < |s.slots| - 1 && IsLong(s.slots[j])
      ensures s.slots[j + 1] == None && NotSelf(s, j + 1)
    {
      if j != i {
        assert IsLong(acc.slots[j]) && j + 2 <= i;
      }
    }
  }

  /** Deferring a record for the visited slot `i` keeps the invariant. */
  lemma DeferKeepsInv(acc: Scan, i: nat, s: Scan)
    requires i < |acc.slots| && ScanInv(acc, i)
    requires s.slots == acc.slots && InPool(s) && SelvesWithin(s, 1, i + 1) && Ascending(s)
    requires forall j :: 0 <= j < |acc.slots| && j != i && NotSelf(acc, j) ==> NotSelf(s, j)
    ensures ScanInv(s, i + 1)
  {
    forall j | 0 <= j < |s.slots| - 1 && IsLong(s.slots[j])
      ensures s.slots[j + 1] == None && NotSelf(s, j + 1)
    {
      assert j + 2 <= i;
    }
  }

  lemma DeferClassKeepsInv(acc: Scan, i: u16, nameIndex: u16)
    requires i < |acc.slots| && ScanInv(acc, i)
    ensures ScanInv(acc.(classes := acc.classes + [ClassRec(i, nameIndex)]), i + 1)
  {
    DeferKeepsInv(acc, i, acc.(classes := acc.classes + [ClassRec(i, nameIndex)]));
  }

  lemma DeferMemberKeepsInv(acc: Scan, i: u16, kind: MemberTag, classIndex: u16, nameAndTypeIndex: u16)
    requires i < |acc.slots| && ScanInv(acc, i)
    ensures ScanInv(acc.(members := acc.members + [MemberRec(i, kind, classIndex, nameAndTypeIndex)]), i + 1)
  {
    DeferKeepsInv(acc, i, acc.(members := acc.members + [MemberRec(i, kind, classIndex, nameAndTypeIndex)]));
  }

  lemma DeferStringKeepsInv(acc: Scan, i: u16, stringIndex: u16)
    requires i < |acc.slots| && ScanInv(acc, i)
    ensures ScanInv(acc.(strings := acc.strings + [StringRec(i, stringIndex)]), i + 1)
  {
    DeferKeepsInv(acc, i, acc.(strings := acc.strings + [StringRec(i, stringIndex)]));
  }

  lemma DeferNameAndTypeKeepsInv(acc: Scan, i: u16, nameIndex: u16, signatureIndex: u16)
    requires i < |acc.slots| && ScanInv(acc, i)
    ensures ScanInv(acc.(nameAndTypes := acc.nameAndTypes + [NameAndTypeRec(i, nameIndex, signatureIndex)]), i + 1)
  {
    DeferKeepsInv(acc, i, acc.(nameAndTypes := acc.nameAndTypes + [NameAndTypeRec(i, nameIndex, signatureIndex)]));
  }

  /** Skipping slots without storing anything keeps the invariant. */
  lemma SkipKeepsInv(acc: Scan, i: nat, n: nat)
    requires i < |acc.slots| && ScanInv(acc, i) && i < n
    ensures ScanInv(acc, n)
  {
  }

  lemma StoringEntryKeepsInv(data: seq<byte>, off: nat, t: Tag, i: u16, acc: Scan)
    requires i < |acc.slots| && ScanInv(acc, i) && t in {Integer, Long, Utf8}
    ensures ScanInv(ScanEntry(data, off, t, i, acc).0, NextSlot(i, t))
  {
    StoreKeepsInv(acc, i, ScanEntry(data, off, t, i, acc).0.slots[i].value);
  }

  lemma DeferringEntryKeepsInv(data: seq<byte>, off: nat, t: Tag, i: u16, acc: Scan)
    requires i < |acc.slots| && ScanInv(acc, i)
    requires t in {Class, Fieldref, Methodref, InterfaceMethodref, String, NameAndType}
    ensures ScanInv(ScanEntry(data, off, t, i, acc).0, NextSlot(i, t))
  {
    if t == Class {
      DeferClassKeepsInv(acc, i, U16At(data, off));
    } else if t == String {
      DeferStringKeepsInv(acc, i, U16At(data, off));
    } else if t == NameAndType {
      DeferNameAndTypeKeepsInv(acc, i, U16At(data, off), U16At(data, After16(data, off)));
    } else {
      DeferMemberKeepsInv(acc, i, t, U16At(data, off), U16At(data, After16(data, off)));
    }
  }

  /** One entry keeps the scan invariant, moving it on to the next slot the loop visits. */
  lemma ScanEntryKeepsInv(data: seq<byte>, off: nat, t: Tag, i: u16, acc: Scan)
    requires i < |acc.slots| && ScanInv(acc, i)
    ensures ScanInv(ScanEntry(data, off, t, i, acc).0, NextSlot(i, t))
  {
    if t in {Integer, Long, Utf8} {
      StoringEntryKeepsInv(data, off, t, i, acc);
    } else if t in {Class, Fieldref, Methodref, InterfaceMethodref, String, NameAndType} {
      DeferringEntryKeepsInv(data, off, t, i, acc);
    } else {
      assert ScanEntry(data, off, t, i, acc).0 == acc;
      SkipKeepsInv(acc, i, NextSlot(i, t));
    }
  }

  /** The scan keeps its invariant to the end. */
  lemma {:induction false} ScanFromKeepsInv(data: seq<byte>, off: nat, i: nat, acc: Scan)
    requires |acc.slots| <= 0xFFFF && ScanInv(acc, i)
    ensures ScanFrom(data, off, i, acc).Parsed? ==>
      && |acc.slots| > 0 ==> ScanFrom(data, off, i, acc).value.slots[0] == None
    ensures ScanFrom(data, off, i, acc).Parsed? ==>
      var s := ScanFrom(data, off, i, acc).value;
      SelvesWithin(s, 1, |s.slots|) && Ascending(s) && PhantomsNull(s)
    decreases |acc.slots| - i
  {
    if i < |acc.slots| {
      var code := ByteAt(data, off);
      if TagOf(code).Some? {
        var t := TagOf(code).value;
        var (acc', next) := ScanEntry(data, After8(data, off), t, i as u16, acc);
        ScanEntryKeepsInv(data, After8(data, off), t, i as u16, acc);
        ScanFromKeepsInv(data, next, NextSlot(i, t), acc');
      }
    }
  }

  /** One entry adds at most one record, for the visited slot, which no earlier record targets. */
  lemma ScanEntryKeepsApart(data: seq<byte>, off: nat, t: Tag, i: u16, acc: Scan)
    requires i < |acc.slots| && SelvesWithin(acc, 1, i) && Apart(acc)
    ensures Apart(ScanEntry(data, off, t, i, acc).0)
  {
  }

  /** The scan never gives two records of different kinds the same slot. */
  lemma {:induction false} ScanFromKeepsApart(data: seq<byte>, off: nat, i: nat, acc: Scan)
    requires |acc.slots| <= 0xFFFF && ScanInv(acc, i) && Apart(acc)
    ensures ScanFrom(data, off, i, acc).Parsed? ==> Apart(ScanFrom(data, off, i, acc).value)
    decreases |acc.slots| - i
  {
    if i < |acc.slots| {
      var code := ByteAt(data, off);
      if TagOf(code).Some? {
        var t := TagOf(code).value;
        var (acc', next) := ScanEntry(data, After8(data, off), t, i as u16, acc);
        ScanEntryKeepsInv(data, After8(data, off), t, i as u16, acc);
        ScanEntryKeepsApart(data, After8(data, off), t, i as u16, acc);
        ScanFromKeepsApart(data, next, NextSlot(i, t), acc');
      }
    }
  }

  /** What the whole scan leaves for resolution. */
  lemma ScanPoolShape(data: seq<byte>, off: nat, count: u16)
    ensures ScanPool(data, off, count).Parsed? ==>
      var s := ScanPool(data, off, count).value;
      && (count > 0 ==> s.slots[0] == None)
      && SelvesWithin(s, 1, count) && Ascending(s) && PhantomsNull(s) && Apart(s)
  {
    ScanFromKeepsInv(data, off, 1, EmptyScan(count));
    ScanFromKeepsApart(data, off, 1, EmptyScan(count));
  }

  // ---------------------------------------------------------------------
  // Resolution writes only the records' own slots

  /** A pass changes at most the target slots of its records, and never to a Long. */
  predicate OnlyTargets(before: Slots, after: Slots, untouched: int -> bool)
  {
    && |after| == |before|
    && (forall j :: 0 <= j < |before| && untouched(j) ==> after[j] == before[j])
    && (forall j :: 0 <= j < |before| && IsLong(after[j]) ==> after[j] == before[j])
  }

  lemma {:induction false} ResolveStringsTargets(slots: Slots, recs: seq<StringRec>, k: nat)
    requires k <= |recs| && forall j :: 0 <= j < |recs| ==> recs[j].self < |slots|
    ensures ResolveStrings(slots, recs, k).Ok? ==>
      OnlyTargets(slots, ResolveStrings(slots, recs, k).value, j => forall m :: k <= m < |recs| ==> recs[m].self != j)
    decreases |recs| - k
  {
    if k < |recs| && Readable(slots, recs[k].stringIndex) {
      var rec := recs[k];
      ResolveStringsTargets(slots[rec.self := Some(StringConst(rec.stringIndex, GetUtf8(slots, rec.stringIndex)))], recs, k + 1);
    }
  }

  lemma {:induction false} ResolveNameAndTypesTargets(slots: Slots, recs: seq<NameAndTypeRec>, k: nat)
    requires k <= |recs| && forall j :: 0 <= j < |recs| ==> recs[j].self < |slots|
    ensures ResolveNameAndTypes(slots, recs, k).Ok? ==>
      OnlyTargets(slots, ResolveNameAndTypes(slots, recs, k).value, j => forall m :: k <= m < |recs| ==> recs[m].self != j)
    decreases |recs| - k
  {
    if k < |recs| && Readable(slots, recs[k].nameIndex) && Readable(slots, recs[k].signatureIndex) {
      var rec := recs[k];
      var entry := NameAndTypeConst(GetUtf8(slots, rec.nameIndex), GetUtf8(slots, rec.signatureIndex));
      ResolveNameAndTypesTargets(slots[rec.self := Some(entry)], recs, k + 1);
    }
  }

  lemma {:induction false} ResolveClassesTargets(slots: Slots, recs: seq<ClassRec>, k: nat)
    requires k <= |recs| && forall j :: 0 <= j < |recs| ==> recs[j].self < |slots|
    ensures ResolveClasses(slots, recs, k).Ok? ==>
      OnlyTargets(slots, ResolveClasses(slots, recs, k).value, j => forall m :: k <= m < |recs| ==> recs[m].self != j)
    decreases |recs| - k
  {
    if k < |recs| && Readable(slots, recs[k].nameIndex) {
      var rec := recs[k];
      ResolveClassesTargets(slots[rec.self := Some(ClassConst(rec.nameIndex, GetUtf8(slots, rec.nameIndex)))], recs, k + 1);
    }
  }

  lemma {:induction false} ResolveMembersTargets(slots: Slots, recs: seq<MemberRec>, k: nat)
    requires k <= |recs| && forall j :: 0 <= j < |recs| ==> recs[j].self < |slots|
    ensures ResolveMembers(slots, recs, k).Ok? ==>
      OnlyTargets(slots, ResolveMembers(slots, recs, k).value, j => forall m :: k <= m < |recs| ==> recs[m].self != j)
    decreases |recs| - k
  {
    if k < |recs| && recs[k].classIndex < |slots| && recs[k].nameAndTypeIndex < |slots| {
      var rec := recs[k];
      var entry := MemberConst(rec.kind, slots[rec.classIndex], slots[rec.nameAndTypeIndex]);
      ResolveMembersTargets(slots[rec.self := Some(entry)], recs, k + 1);
    }
  }

  /** All four passes together write only record targets, and never a Long. */
  lemma ResolvePoolTargets(s: Scan)
    requires InPool(s)
    ensures ResolvePool(s).Ok? ==> OnlyTargets(s.slots, ResolvePool(s).value, j => NotSelf(s, j))
  {
    ResolveStringsTargets(s.slots, s.strings, 0);
    if ResolveStrings(s.slots, s.strings, 0).Ok? {
      var slots1 := ResolveStrings(s.slots, s.strings, 0).value;
      ResolveNameAndTypesTargets(slots1, s.nameAndTypes, 0);
      if ResolveNameAndTypes(slots1, s.nameAndTypes, 0).Ok? {
        var slots2 := ResolveNameAndTypes(slots1, s.nameAndTypes, 0).value;
        ResolveClassesTargets(slots2, s.classes, 0);
        if ResolveClasses(slots2, s.classes, 0).Ok? {
          ResolveMembersTargets(ResolveClasses(slots2, s.classes, 0).value, s.members, 0);
        }
      }
    }
  }

  // ---------------------------------------------------------------------
  // The finished pool

  /** The finished pool never has anything in slot 0. */
  lemma PoolSlotZeroNull(data: seq<byte>, off: nat)
    requires ReadPool(data, off).Parsed? && |ReadPool(data, off).value| > 0
    ensures ReadPool(data, off).value[0] == None
  {
    var count := U16At(data, off);
    ScanPoolShape(data, After16(data, off), count);
    var s := ScanPool(data, After16(data, off), count).value;
    ResolvePoolTargets(s);
  }

  /** In the finished pool the slot after every Long is null. */
  lemma LongPhantomNull(data: seq<byte>, off: nat)
    requires ReadPool(data, off).Parsed?
    ensures var slots := ReadPool(data, off).value;
      forall j :: 0 <= j < |slots| - 1 && IsLong(slots[j]) ==> slots[j + 1] == None
  {
    var count := U16At(data, off);
    ScanPoolShape(data, After16(data, off), count);
    var s := ScanPool(data, After16(data, off), count).value;
    ResolvePoolTargets(s);
  }

  // ---------------------------------------------------------------------
  // Each record lands at its own slot

  /** Slot `id` is not the target of any of `recs`. */
  predicate NoClassTarget(recs: seq<ClassRec>, id: int)
  {
    forall m :: 0 <= m < |recs| ==> recs[m].self != id
  }

  /**
   * Each Class record ends up at its own slot, naming the Utf8 constant
   * its index addressed when the scan finished; whether that index lies
   * before or after the record's own slot makes no difference.
   */
  lemma {:induction false} ClassesResolveByName(slots: Slots, recs: seq<ClassRec>, k: nat)
    requires k <= |recs| && forall j :: 0 <= j < |recs| ==> recs[j].self < |slots|
    requires forall a, b :: 0 <= a < b < |recs| ==> recs[a].self < recs[b].self
    requires forall m :: 0 <= m < |recs| ==> NoClassTarget(recs, recs[m].nameIndex)
    requires ResolveClasses(slots, recs, k).Ok?
    ensures forall m :: k <= m < |recs| ==>
      Readable(slots, recs[m].nameIndex) &&
      ResolveClasses(slots, recs, k).value[recs[m].self] == Some(ClassConst(recs[m].nameIndex, GetUtf8(slots, recs[m].nameIndex)))
    decreases |recs| - k
  {
    if k < |recs| {
      var rec := recs[k];
      var next := slots[rec.self := Some(ClassConst(rec.nameIndex, GetUtf8(slots, rec.nameIndex)))];
      ClassesResolveByName(next, recs, k + 1);
      ResolveClassesTargets(next, recs, k + 1);
      forall m | k < m < |recs|
        ensures Readable(slots, recs[m].nameIndex) && GetUtf8(next, recs[m].nameIndex) == GetUtf8(slots, recs[m].nameIndex)
      {
        assert NoClassTarget(recs, recs[m].nameIndex);
        assert rec.self != recs[m].nameIndex;
      }
    }
  }

  /** Slot `id` is not the target of any of `recs`. */
  predicate NoMemberTarget(recs: seq<MemberRec>, id: int)
  {
    forall m :: 0 <= m < |recs| ==> recs[m].self != id
  }

  /**
   * Each member ref ends up at its own slot with the tag it was read
   * with (Fieldref, Methodref or InterfaceMethodref) and the two slots it
   * addressed, forwards or backwards alike.
   */
  lemma {:induction false} MembersKeepTag(slots: Slots, recs: seq<MemberRec>, k: nat)
    requires k <= |recs| && forall j :: 0 <= j < |recs| ==> recs[j].self < |slots|
    requires forall a, b :: 0 <= a < b < |recs| ==> recs[a].self < recs[b].self
    requires forall m :: 0 <= m < |recs| ==>
      NoMemberTarget(recs, recs[m].classIndex) && NoMemberTarget(recs, recs[m].nameAndTypeIndex)
    requires ResolveMembers(slots, recs, k).Ok?
    ensures forall m :: k <= m < |recs| ==>
      recs[m].classIndex < |slots| && recs[m].nameAndTypeIndex < |slots| &&
      ResolveMembers(slots, recs, k).value[recs[m].self]
        == Some(MemberConst(recs[m].kind, slots[recs[m].classIndex], slots[recs[m].nameAndTypeIndex]))
    decreases |recs| - k
  {
    if k < |recs| {
      var rec := recs[k];
      var next := slots[rec.self := Some(MemberConst(rec.kind, slots[rec.classIndex], slots[rec.nameAndTypeIndex]))];
      MembersKeepTag(next, recs, k + 1);
      ResolveMembersTargets(next, recs, k + 1);
      forall m | k < m < |recs|
        ensures next[recs[m].classIndex] == slots[recs[m].classIndex]
        ensures next[recs[m].nameAndTypeIndex] == slots[recs[m].nameAndTypeIndex]
      {
        assert NoMemberTarget(recs, recs[m].classIndex) && NoMemberTarget(recs, recs[m].nameAndTypeIndex);
        assert rec.self != recs[m].classIndex && rec.self != recs[m].nameAndTypeIndex;
      }
    }
  }

  /** Two pools that agree at `id` read the same Utf8 bytes there. */
  lemma SameSlotSameUtf8(a: Slots, b: Slots, id: int)
    requires |a| == |b| && (0 <= id < |a| ==> a[id] == b[id])
    ensures Readable(a, id) == Readable(b, id)
    ensures Readable(a, id) ==> GetUtf8(a, id) == GetUtf8(b, id)
  {
  }

  /** Slot `id` is not the target of any of `recs`. */
  predicate NoStringTarget(recs: seq<StringRec>, id: int)
  {
    forall m :: 0 <= m < |recs| ==> recs[m].self != id
  }

  /**
   * Each String record ends up at its own slot, holding its index and the
   * Utf8 bytes that index addressed before the pass, whether the index lies
   * before or after the record's own slot.
   */
  lemma {:induction false} StringsResolveByIndex(slots: Slots, recs: seq<StringRec>, k: nat)
    requires k <= |recs| && forall j :: 0 <= j < |recs| ==> recs[j].self < |slots|
    requires forall a, b :: 0 <= a < b < |recs| ==> recs[a].self < recs[b].self
    requires forall m :: 0 <= m < |recs| ==> NoStringTarget(recs, recs[m].stringIndex)
    requires ResolveStrings(slots, recs, k).Ok?
    ensures forall m :: k <= m < |recs| ==>
      Readable(slots, recs[m].stringIndex) &&
      ResolveStrings(slots, recs, k).value[recs[m].self] == Some(StringConst(recs[m].stringIndex, GetUtf8(slots, recs[m].stringIndex)))
    decreases |recs| - k
  {
    if k < |recs| {
      var rec := recs[k];
      var next := slots[rec.self := Some(StringConst(rec.stringIndex, GetUtf8(slots, rec.stringIndex)))];
      StringsResolveByIndex(next, recs, k + 1);
      ResolveStringsTargets(next, recs, k + 1);
      forall m | k < m < |recs|
        ensures Readable(slots, recs[m].stringIndex) && GetUtf8(next, recs[m].stringIndex) == GetUtf8(slots, recs[m].stringIndex)
      {
        assert NoStringTarget(recs, recs[m].stringIndex);
        assert rec.self != recs[m].stringIndex;
      }
    }
  }

  /** Slot `id` is not the target of any of `recs`. */
  predicate NoNameAndTypeTarget(recs: seq<NameAndTypeRec>, id: int)
  {
    forall m :: 0 <= m < |recs| ==> recs[m].self != id
  }

  /**
   * Each NameAndType record ends up at its own slot, holding the Utf8
   * bytes its name and descriptor indices addressed before the pass.
   */
  lemma {:induction false} NameAndTypesResolveByName(slots: Slots, recs: seq<NameAndTypeRec>, k: nat)
    requires k <= |recs| && forall j :: 0 <= j < |recs| ==> recs[j].self < |slots|
    requires forall a, b :: 0 <= a < b < |recs| ==> recs[a].self < recs[b].self
    requires forall m :: 0 <= m < |recs| ==>
      NoNameAndTypeTarget(recs, recs[m].nameIndex) && NoNameAndTypeTarget(recs, recs[m].signatureIndex)
    requires ResolveNameAndTypes(slots, recs, k).Ok?
    ensures forall m :: k <= m < |recs| ==>
      Readable(slots, recs[m].nameIndex) && Readable(slots, recs[m].signatureIndex) &&
      ResolveNameAndTypes(slots, recs, k).value[recs[m].self]
        == Some(NameAndTypeConst(GetUtf8(slots, recs[m].nameIndex), GetUtf8(slots, recs[m].signatureIndex)))
    decreases |recs| - k
  {
    if k < |recs| {
      var rec := recs[k];
      var next := slots[rec.self := Some(NameAndTypeConst(GetUtf8(slots, rec.nameIndex), GetUtf8(slots, rec.signatureIndex)))];
      NameAndTypesResolveByName(next, recs, k + 1);
      ResolveNameAndTypesTargets(next, recs, k + 1);
      forall m | k < m < |recs|
        ensures Readable(slots, recs[m].nameIndex) && GetUtf8(next, recs[m].nameIndex) == GetUtf8(slots, recs[m].nameIndex)
        ensures Readable(slots, recs[m].signatureIndex) && GetUtf8(next, recs[m].signatureIndex) == GetUtf8(slots, recs[m].signatureIndex)
      {
        assert NoNameAndTypeTarget(recs, recs[m].nameIndex) && NoNameAndTypeTarget(recs, recs[m].signatureIndex);
        SameSlotSameUtf8(slots, next, recs[m].nameIndex);
        SameSlotSameUtf8(slots, next, recs[m].signatureIndex);
      }
    }
  }

  // ---------------------------------------------------------------------
  // ... and keeps it through the later passes

  /** No String record's index addresses a String record's slot. */
  predicate StringsPointAway(s: Scan)
  {
    forall m :: 0 <= m < |s.strings| ==> NoStringTarget(s.strings, s.strings[m].stringIndex)
  }

  /** No NameAndType index addresses a String or NameAndType record's slot. */
  predicate NameAndTypesPointAway(s: Scan)
  {
    forall m :: 0 <= m < |s.nameAndTypes| ==>
      && NoStringTarget(s.strings, s.nameAndTypes[m].nameIndex)
      && NoStringTarget(s.strings, s.nameAndTypes[m].signatureIndex)
      && NoNameAndTypeTarget(s.nameAndTypes, s.nameAndTypes[m].nameIndex)
      && NoNameAndTypeTarget(s.nameAndTypes, s.nameAndTypes[m].signatureIndex)
  }

  /** No Class or member record targets slot `j`. */
  predicate NotClassOrMemberTarget(s: Scan, j: int)
  {
    && (forall m :: 0 <= m < |s.classes| ==> s.classes[m].self != j)
    && (forall m :: 0 <= m < |s.members| ==> s.members[m].self != j)
  }

  /** The Class and member passes write only Class and member slots. */
  lemma LastPassesKeep(s: Scan, slots2: Slots)
    requires InPool(s) && |slots2| == |s.slots|
    requires ResolveClasses(slots2, s.classes, 0).Ok?
    requires ResolveMembers(ResolveClasses(slots2, s.classes, 0).value, s.members, 0).Ok?
    ensures forall j :: 0 <= j < |s.slots| && NotClassOrMemberTarget(s, j) ==>
      ResolveMembers(ResolveClasses(slots2, s.classes, 0).value, s.members, 0).value[j] == slots2[j]
  {
    ResolveClassesTargets(slots2, s.classes, 0);
    ResolveMembersTargets(ResolveClasses(slots2, s.classes, 0).value, s.members, 0);
  }

  /** The passes after the String pass write only NameAndType, Class and member slots. */
  lemma LaterPassesKeep(s: Scan, slots1: Slots)
    requires InPool(s) && |slots1| == |s.slots|
    requires ResolveStrings(s.slots, s.strings, 0) == Ok(slots1)
    requires ResolvePool(s).Ok?
    ensures forall j :: 0 <= j < |s.slots| && NotClassOrMemberTarget(s, j) && NoNameAndTypeTarget(s.nameAndTypes, j) ==>
      ResolvePool(s).value[j] == slots1[j]
  {
    ResolveNameAndTypesTargets(slots1, s.nameAndTypes, 0);
    LastPassesKeep(s, ResolveNameAndTypes(slots1, s.nameAndTypes, 0).value);
  }

  /** Each String record of the scan holds its string in the finished pool. */
  lemma PoolStringsLand(s: Scan)
    requires InPool(s) && Ascending(s) && Apart(s) && StringsPointAway(s)
    requires ResolvePool(s).Ok?
    ensures forall m :: 0 <= m < |s.strings| ==>
      var idx := s.strings[m].stringIndex;
      Readable(s.slots, idx) && ResolvePool(s).value[s.strings[m].self] == Some(StringConst(idx, GetUtf8(s.slots, idx)))
  {
    var slots1 := ResolveStrings(s.slots, s.strings, 0).value;
    StringsResolveByIndex(s.slots, s.strings, 0);
    LaterPassesKeep(s, slots1);
    forall m | 0 <= m < |s.strings|
      ensures NotClassOrMemberTarget(s, s.strings[m].self) && NoNameAndTypeTarget(s.nameAndTypes, s.strings[m].self)
    {
    }
  }

  /** Each NameAndType record of the scan holds its name and descriptor in the finished pool. */
  lemma PoolNameAndTypesLand(s: Scan)
    requires InPool(s) && Ascending(s) && Apart(s) && NameAndTypesPointAway(s)
    requires ResolvePool(s).Ok?
    ensures forall m :: 0 <= m < |s.nameAndTypes| ==>
      var rec := s.nameAndTypes[m];
      && Readable(s.slots, rec.nameIndex) && Readable(s.slots, rec.signatureIndex)
      && ResolvePool(s).value[rec.self] == Some(NameAndTypeConst(GetUtf8(s.slots, rec.nameIndex), GetUtf8(s.slots, rec.signatureIndex)))
  {
    var slots1 := ResolveStrings(s.slots, s.strings, 0).value;
    var slots2 := ResolveNameAndTypes(slots1, s.nameAndTypes, 0).value;
    assert ResolvePool(s).value == ResolveMembers(ResolveClasses(slots2, s.classes, 0).value, s.members, 0).value;
    LastPassesKeep(s, slots2);
    NameAndTypesResolveByName(slots1, s.nameAndTypes, 0);
    ResolveStringsTargets(s.slots, s.strings, 0);
    forall m | 0 <= m < |s.nameAndTypes|
      ensures var rec := s.nameAndTypes[m];
        && Readable(s.slots, rec.nameIndex) && GetUtf8(slots1, rec.nameIndex) == GetUtf8(s.slots, rec.nameIndex)
        && Readable(s.slots, rec.signatureIndex) && GetUtf8(slots1, rec.signatureIndex) == GetUtf8(s.slots, rec.signatureIndex)
        && NotClassOrMemberTarget(s, rec.self)
    {
      var rec := s.nameAndTypes[m];
      assert NoStringTarget(s.strings, rec.nameIndex) && NoStringTarget(s.strings, rec.signatureIndex);
      SameSlotSameUtf8(s.slots, slots1, rec.nameIndex);
      SameSlotSameUtf8(s.slots, slots1, rec.signatureIndex);
    }
  }

  /**
   * In the pool `ReadPool` returns, each String and NameAndType entry of
   * the scan sits at its own slot with what its indices addressed, as long
   * as those indices name no other deferred String or NameAndType entry.
   */
  lemma ReadPoolRecordsLand(data: seq<byte>, off: nat)
    requires ReadPool(data, off).Parsed?
    ensures var s := ScanPool(data, After16(data, off), U16At(data, off)).value;
      var pool := ReadPool(data, off).value;
      && (StringsPointAway(s) ==> forall m :: 0 <= m < |s.strings| ==>
            var idx := s.strings[m].stringIndex;
            Readable(s.slots, idx) && pool[s.strings[m].self] == Some(StringConst(idx, GetUtf8(s.slots, idx))))
      && (NameAndTypesPointAway(s) ==> forall m :: 0 <= m < |s.nameAndTypes| ==>
            var rec := s.nameAndTypes[m];
            && Readable(s.slots, rec.nameIndex) && Readable(s.slots, rec.signatureIndex)
            && pool[rec.self] == Some(NameAndTypeConst(GetUtf8(s.slots, rec.nameIndex), GetUtf8(s.slots, rec.signatureIndex))))
  {
    var count := U16At(data, off);
    ScanPoolShape(data, After16(data, off), count);
    var s := ScanPool(data, After16(data, off), count).value;
    if StringsPointAway(s) {
      PoolStringsLand(s);
    }
    if NameAndTypesPointAway(s) {
      PoolNameAndTypesLand(s);
    }
  }
}
