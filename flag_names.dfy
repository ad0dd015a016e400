/**
 * The three `tos(...Flags)` renderers of `Class.cpp`: each walks a fixed
 * table of (bit, name) pairs, collects the names whose bit is set, and
 * joins them with single spaces.
 */
module FlagNames {
  import Classfile

  datatype FlagName = FlagName(bit: bv16, name: string)

  /** Class access flags, in rendering order. */
  const ClassFlagNames: seq<FlagName> := [
    FlagName(0x0001, "public"), FlagName(0x0010, "final"), FlagName(0x0020, "super"),
    FlagName(0x0200, "interactive"), FlagName(0x0400, "abstract"), FlagName(0x1000, "synthetic"),
    FlagName(0x2000, "annotation"), FlagName(0x4000, "enum")]

  /** Method access flags, in rendering order. */
  const MethodFlagNames: seq<FlagName> := [
    FlagName(0x0001, "public"), FlagName(0x0002, "private"), FlagName(0x0004, "protected"),
    FlagName(0x0008, "static"), FlagName(0x0010, "final"), FlagName(0x0020, "synchronized"),
    FlagName(0x0040, "bridge"), FlagName(0x0080, "varargs"), FlagName(0x0100, "native"),
    FlagName(0x0400, "abstract"), FlagName(0x0800, "strict"), FlagName(0x1000, "synthetic")]

  /** Field access flags, in rendering order. */
  const FieldFlagNames: seq<FlagName> := [
    FlagName(0x0001, "public"), FlagName(0x0002, "private"), FlagName(0x0004, "protected"),
    FlagName(0x0008, "static"), FlagName(0x0010, "final"), FlagName(0x0040, "volatile"),
    FlagName(0x0080, "transient"), FlagName(0x1000, "synthetic"), FlagName(0x4000, "enum")]

  predicate IsSet(f: FlagName, flags: bv16)
  {
    f.bit & flags != 0
  }

  /** A word that can be told apart after joining: non-empty and without spaces. */
  predicate IsWord(w: string)
  {
    w != [] && ' ' !in w
  }

  predicate WellFormed(table: seq<FlagName>)
  {
    forall k :: 0 <= k < |table| ==> IsWord(table[k].name)
  }

  /** Every name in the class table is a single word. */
  lemma ClassNamesAreWords()
    ensures WellFormed(ClassFlagNames)
  {
    forall k | 0 <= k < |ClassFlagNames| ensures IsWord(ClassFlagNames[k].name) {
      assert ClassFlagNames[k].name in
        ["public", "final", "super", "interactive", "abstract", "synthetic", "annotation", "enum"];
    }
  }

  /** Every name in the method table is a single word. */
  lemma MethodNamesAreWords()
    ensures WellFormed(MethodFlagNames)
  {
    forall k | 0 <= k < |MethodFlagNames| ensures IsWord(MethodFlagNames[k].name) {
      assert MethodFlagNames[k].name in
        ["public", "private", "protected", "static", "final", "synchronized",
         "bridge", "varargs", "native", "abstract", "strict", "synthetic"];
    }
  }

  /** Every name in the field table is a single word. */
  lemma FieldNamesAreWords()
    ensures WellFormed(FieldFlagNames)
  {
    forall k | 0 <= k < |FieldFlagNames| ensures IsWord(FieldFlagNames[k].name) {
      assert FieldFlagNames[k].name in
        ["public", "private", "protected", "static", "final", "volatile", "transient", "synthetic", "enum"];
    }
  }

  /** The names of the set flags, in table order. */
  function Selected(table: seq<FlagName>, flags: bv16): seq<string>
  {
    if table == [] then []
    else
      var last := table[|table| - 1];
      Selected(table[..|table| - 1], flags) + (if IsSet(last, flags) then [last.name] else [])
  }

  lemma SelectedSnoc(table: seq<FlagName>, k: nat, flags: bv16)
    requires k < |table|
    ensures Selected(table[..k + 1], flags)
            == Selected(table[..k], flags) + (if IsSet(table[k], flags) then [table[k].name] else [])
  {
    assert table[..k + 1][..k] == table[..k];
  }

  /** The words separated by single spaces. */
  function Join(words: seq<string>): string
  {
    if |words| == 0 then ""
    else if |words| == 1 then words[0]
    else Join(words[..|words| - 1]) + " " + words[|words| - 1]
  }

  function Rendering(table: seq<FlagName>, flags: bv16): string
  {
    Join(Selected(table, flags))
  }

  /** The shared body of the three `tos` overloads: collect, then join. */
  method RenderFlags(table: seq<FlagName>, flags: bv16) returns (s: string)
    ensures s == Rendering(table, flags)
  {
    var chosen := CollectSet(table, flags);
    s := JoinSet(chosen);
  }

  /** The first loop: the names of the set flags, pushed in table order. */
  method CollectSet(table: seq<FlagName>, flags: bv16) returns (chosen: seq<string>)
    ensures chosen == Selected(table, flags)
  {
    chosen := [];
    for k := 0 to |table|
      invariant chosen == Selected(table[..k], flags)
    {
      SelectedSnoc(table, k, flags);
      if IsSet(table[k], flags) {
        chosen := chosen + [table[k].name];
      }
    }
    assert table[..|table|] == table;
  }

  /** The second loop: a space before every name but the first. */
  method JoinSet(words: seq<string>) returns (s: string)
    ensures s == Join(words)
  {
    s := "";
    for i := 0 to |words|
      invariant s == Join(words[..i])
    {
      assert words[..i + 1][..i] == words[..i];
      if i != 0 {
        s := s + " ";
      }
      s := s + words[i];
    }
    assert words[..|words|] == words;
  }

  /** `tos(ClassFlags)`. */
  method ClassFlagsToString(flags: bv16) returns (s: string)
    ensures s == Rendering(ClassFlagNames, flags)
    ensures s == "" <==> flags & 0x7631 == 0
  {
    ClassNamesAreWords();
    RenderingEmptyIff(ClassFlagNames, flags);
    ClassMaskClear(flags);
    s := RenderFlags(ClassFlagNames, flags);
  }

  /** `tos(MethodFlags)`. */
  method MethodFlagsToString(flags: bv16) returns (s: string)
    ensures s == Rendering(MethodFlagNames, flags)
    ensures s == "" <==> flags & 0x1DFF == 0
  {
    MethodNamesAreWords();
    RenderingEmptyIff(MethodFlagNames, flags);
    MethodMaskClear(flags);
    s := RenderFlags(MethodFlagNames, flags);
  }

  /** `tos(FieldFlags)`. */
  method FieldFlagsToString(flags: bv16) returns (s: string)
    ensures s == Rendering(FieldFlagNames, flags)
    ensures s == "" <==> flags & 0x50DF == 0
  {
    FieldNamesAreWords();
    RenderingEmptyIff(FieldFlagNames, flags);
    FieldMaskClear(flags);
    s := RenderFlags(FieldFlagNames, flags);
  }

  // ---------------------------------------------------------------------
  // What the rendering means
  // ---------------------------------------------------------------------

  /** Exactly the names of the set flags are selected. */
  lemma {:induction false} SelectedExactly(table: seq<FlagName>, flags: bv16, name: string)
    ensures name in Selected(table, flags) <==>
            exists k :: 0 <= k < |table| && table[k].name == name && IsSet(table[k], flags)
  {
    if table != [] {
      var init := table[..|table| - 1];
      SelectedExactly(init, flags, name);
      if exists k :: 0 <= k < |table| && table[k].name == name && IsSet(table[k], flags) {
        var k :| 0 <= k < |table| && table[k].name == name && IsSet(table[k], flags);
        if k < |init| {
          assert init[k] == table[k];
        }
      }
      if exists k :: 0 <= k < |init| && init[k].name == name && IsSet(init[k], flags) {
        var k :| 0 <= k < |init| && init[k].name == name && IsSet(init[k], flags);
        assert table[k] == init[k];
      }
    }
  }

  lemma {:induction false} SelectedAreWords(table: seq<FlagName>, flags: bv16)
    requires WellFormed(table)
    ensures forall i :: 0 <= i < |Selected(table, flags)| ==> IsWord(Selected(table, flags)[i])
  {
    if table != [] {
      SelectedAreWords(table[..|table| - 1], flags);
    }
  }

  lemma {:induction false} SelectedEmptyIff(table: seq<FlagName>, flags: bv16)
    ensures Selected(table, flags) == [] <==> forall k :: 0 <= k < |table| ==> !IsSet(table[k], flags)
  {
    if table != [] {
      var init := table[..|table| - 1];
      SelectedEmptyIff(init, flags);
      assert forall k :: 0 <= k < |init| ==> init[k] == table[k];
    }
  }

  lemma {:induction false} JoinOfWords(words: seq<string>)
    requires forall i :: 0 <= i < |words| ==> IsWord(words[i])
    ensures Join(words) == "" <==> words == []
    ensures Join(words) != "" ==> Join(words)[0] != ' ' && Join(words)[|Join(words)| - 1] != ' '
  {
    if |words| > 1 {
      JoinOfWords(words[..|words| - 1]);
      var s := Join(words);
      assert s[0] == Join(words[..|words| - 1])[0];
      assert s[|s| - 1] == words[|words| - 1][|words[|words| - 1]| - 1];
    } else if |words| == 1 {
      assert words[0][0] in words[0];
    }
  }

  /** The rendering is empty exactly when no listed flag is set, and never starts or ends with a space. */
  lemma RenderingEmptyIff(table: seq<FlagName>, flags: bv16)
    requires WellFormed(table)
    ensures Rendering(table, flags) == "" <==> forall k :: 0 <= k < |table| ==> table[k].bit & flags == 0
    ensures Rendering(table, flags) != "" ==>
              Rendering(table, flags)[0] != ' ' && Rendering(table, flags)[|Rendering(table, flags)| - 1] != ' '
  {
    SelectedAreWords(table, flags);
    JoinOfWords(Selected(table, flags));
    SelectedEmptyIff(table, flags);
  }

  /** The class table lists exactly the bits of 0x7631. */
  lemma ClassMaskClear(flags: bv16)
    ensures (forall k :: 0 <= k < |ClassFlagNames| ==> ClassFlagNames[k].bit & flags == 0) <==> flags & 0x7631 == 0
  {
    assert ClassFlagNames[0].bit == 0x0001;
    assert ClassFlagNames[1].bit == 0x0010;
    assert ClassFlagNames[2].bit == 0x0020;
    assert ClassFlagNames[3].bit == 0x0200;
    assert ClassFlagNames[4].bit == 0x0400;
    assert ClassFlagNames[5].bit == 0x1000;
    assert ClassFlagNames[6].bit == 0x2000;
    assert ClassFlagNames[7].bit == 0x4000;
    assert (flags & 0x0001 == 0 && flags & 0x0010 == 0 && flags & 0x0020 == 0 && flags & 0x0200 == 0 && flags & 0x0400 == 0 && flags & 0x1000 == 0 && flags & 0x2000 == 0 && flags & 0x4000 == 0) <==> flags & 0x7631 == 0;
  }

  /** The method table lists exactly the bits of 0x1DFF. */
  lemma MethodMaskClear(flags: bv16)
    ensures (forall k :: 0 <= k < |MethodFlagNames| ==> MethodFlagNames[k].bit & flags == 0) <==> flags & 0x1DFF == 0
  {
    assert MethodFlagNames[0].bit == 0x0001;
    assert MethodFlagNames[1].bit == 0x0002;
    assert MethodFlagNames[2].bit == 0x0004;
    assert MethodFlagNames[3].bit == 0x0008;
    assert MethodFlagNames[4].bit == 0x0010;
    assert MethodFlagNames[5].bit == 0x0020;
    assert MethodFlagNames[6].bit == 0x0040;
    assert MethodFlagNames[7].bit == 0x0080;
    assert MethodFlagNames[8].bit == 0x0100;
    assert MethodFlagNames[9].bit == 0x0400;
    assert MethodFlagNames[10].bit == 0x0800;
    assert MethodFlagNames[11].bit == 0x1000;
    assert (flags & 0x0001 == 0 && flags & 0x0002 == 0 && flags & 0x0004 == 0 && flags & 0x0008 == 0 && flags & 0x0010 == 0 && flags & 0x0020 == 0 && flags & 0x0040 == 0 && flags & 0x0080 == 0 && flags & 0x0100 == 0 && flags & 0x0400 == 0 && flags & 0x0800 == 0 && flags & 0x1000 == 0) <==> flags & 0x1DFF == 0;
  }

  /** The field table lists exactly the bits of 0x50DF. */
  lemma FieldMaskClear(flags: bv16)
    ensures (forall k :: 0 <= k < |FieldFlagNames| ==> FieldFlagNames[k].bit & flags == 0) <==> flags & 0x50DF == 0
  {
    assert FieldFlagNames[0].bit == 0x0001;
    assert FieldFlagNames[1].bit == 0x0002;
    assert FieldFlagNames[2].bit == 0x0004;
    assert FieldFlagNames[3].bit == 0x0008;
    assert FieldFlagNames[4].bit == 0x0010;
    assert FieldFlagNames[5].bit == 0x0040;
    assert FieldFlagNames[6].bit == 0x0080;
    assert FieldFlagNames[7].bit == 0x1000;
    assert FieldFlagNames[8].bit == 0x4000;
    assert (flags & 0x0001 == 0 && flags & 0x0002 == 0 && flags & 0x0004 == 0 && flags & 0x0008 == 0 && flags & 0x0010 == 0 && flags & 0x0040 == 0 && flags & 0x0080 == 0 && flags & 0x1000 == 0 && flags & 0x4000 == 0) <==> flags & 0x50DF == 0;
  }

  // ---------------------------------------------------------------------
  // The rendering can be read back
  // ---------------------------------------------------------------------

  /** Index of the last space in `s`, or -1. */
  function LastSpace(s: string): (i: int)
    ensures -1 <= i < |s|
    ensures 0 <= i ==> s[i] == ' '
    ensures forall j :: i < j < |s| ==> s[j] != ' '
  {
    if s == [] then -1
    else if s[|s| - 1] == ' ' then |s| - 1
    else LastSpace(s[..|s| - 1])
  }

  /** Splits at single spaces: the inverse of `Join` on words. */
  function Split(s: string): seq<string>
    decreases |s|
  {
    if s == [] then []
    else SplitWords(s)
  }

  function SplitWords(s: string): seq<string>
    decreases |s|
  {
    var i := LastSpace(s);
    if i < 0 then [s] else SplitWords(s[..i]) + [s[i + 1..]]
  }

  /** Characters without a space do not move the last space. */
  lemma {:induction false} LastSpaceSkips(prefix: string, word: string)
    requires ' ' !in word
    ensures LastSpace(prefix + word) == LastSpace(prefix)
    decreases |word|
  {
    if word != [] {
      var init := word[..|word| - 1];
      assert word[|word| - 1] in word;
      assert (prefix + word)[..|prefix + word| - 1] == prefix + init;
      assert forall c :: c in init ==> c in word;
      LastSpaceSkips(prefix, init);
    } else {
      assert prefix + word == prefix;
    }
  }

  /** A space just appended is the last one. */
  lemma LastSpaceAppended(prefix: string)
    ensures LastSpace(prefix + " ") == |prefix|
  {
    assert (prefix + " ")[|prefix|] == ' ';
  }

  /** The two sides of `prefix + " " + word` around the added space. */
  lemma SidesOfAddedSpace(prefix: string, word: string)
    ensures (prefix + " " + word)[..|prefix|] == prefix
    ensures (prefix + " " + word)[|prefix| + 1..] == word
  {
    assert (prefix + " " + word)[..|prefix|] == (prefix + " ")[..|prefix|];
  }

  /** The last space of `prefix + " " + word` is the one just added. */
  lemma SplitAtAddedSpace(prefix: string, word: string)
    requires IsWord(word)
    ensures LastSpace(prefix + " " + word) == |prefix|
    ensures (prefix + " " + word)[..|prefix|] == prefix
    ensures (prefix + " " + word)[|prefix| + 1..] == word
  {
    LastSpaceSkips(prefix + " ", word);
    LastSpaceAppended(prefix);
    SidesOfAddedSpace(prefix, word);
  }

  /** Splitting `prefix + " " + word` peels off `word` as the last piece. */
  lemma SplitWordsAtAddedSpace(prefix: string, word: string)
    requires IsWord(word)
    ensures SplitWords(prefix + " " + word) == SplitWords(prefix) + [word]
  {
    SplitAtAddedSpace(prefix, word);
  }

  /** A single word splits to itself. */
  lemma SplitOneWord(word: string)
    requires IsWord(word)
    ensures SplitWords(Join([word])) == [word]
  {
    LastSpaceSkips([], word);
    assert [] + word == word;
  }

  /** `Join` of two or more words puts a space before the last one. */
  lemma JoinLast(words: seq<string>)
    requires |words| > 1
    ensures Join(words) == Join(words[..|words| - 1]) + " " + words[|words| - 1]
  {
  }

  lemma {:induction false} SplitJoin(words: seq<string>)
    requires words != []
    requires forall i :: 0 <= i < |words| ==> IsWord(words[i])
    ensures SplitWords(Join(words)) == words
  {
    var last := words[|words| - 1];
    assert IsWord(last);
    if |words| == 1 {
      SplitOneWord(last);
      assert words == [last];
    } else {
      var init := words[..|words| - 1];
      assert forall i :: 0 <= i < |init| ==> init[i] == words[i];
      JoinLast(words);
      SplitWordsAtAddedSpace(Join(init), last);
      SplitJoin(init);
      assert words == init + [last];
    }
  }

  /** Splitting a rendering at its spaces gives back exactly the selected flag names, in table order. */
  lemma RenderingDecodes(table: seq<FlagName>, flags: bv16)
    requires WellFormed(table)
    ensures Split(Rendering(table, flags)) == Selected(table, flags)
  {
    SelectedAreWords(table, flags);
    JoinOfWords(Selected(table, flags));
    if Selected(table, flags) != [] {
      SplitJoin(Selected(table, flags));
    }
  }

  /** The class table uses the access-flag bits of `Classfile.h`, in the same order. */
  lemma ClassFlagBitsMatchAccessFlags()
    ensures |ClassFlagNames| == 8
    ensures ClassFlagNames[0].bit as bv32 == Classfile.AccessFlag.Public.Value()
    ensures ClassFlagNames[1].bit as bv32 == Classfile.AccessFlag.Final.Value()
    ensures ClassFlagNames[2].bit as bv32 == Classfile.AccessFlag.Super.Value()
    ensures ClassFlagNames[3].bit as bv32 == Classfile.AccessFlag.Interactive.Value()
    ensures ClassFlagNames[4].bit as bv32 == Classfile.AccessFlag.Abstract.Value()
    ensures ClassFlagNames[5].bit as bv32 == Classfile.AccessFlag.Synthetic.Value()
    ensures ClassFlagNames[6].bit as bv32 == Classfile.AccessFlag.Annotation.Value()
    ensures ClassFlagNames[7].bit as bv32 == Classfile.AccessFlag.Enum.Value()
  {
  }
}
