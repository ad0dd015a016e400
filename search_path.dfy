/**
 * How both class loaders turn a class name into file paths: every '.' of
 * the name becomes '/', and each class-path root is tried in order as
 * `root + "/" + name + ".class"`.
 */
module SearchPath {
  import opened Wrappers
  import opened Bytes

  /**
   * The file system as the loaders see it: every path `stat` accepts, with
   * its contents, or None when `open` then refuses it.
   */
  type FileSystem = map<string, Option<seq<byte>>>

  /** The files that can be opened, with their contents. */
  function Openable(files: FileSystem): (m: map<string, seq<byte>>)
    ensures forall p :: p in m <==> p in files && files[p].Some?
    ensures forall p :: p in m ==> m[p] == files[p].value
  {
    map p | p in files && files[p].Some? :: files[p].value
  }

  /** The name with every '.' replaced by '/'. */
  function Normalized(name: string): (s: string)
    ensures |s| == |name|
    ensures forall i :: 0 <= i < |s| ==> s[i] == if name[i] == '.' then '/' else name[i]
    ensures '.' !in s
  {
    seq(|name|, i requires 0 <= i < |name| => if name[i] == '.' then '/' else name[i])
  }

  /** The rewrite loop of `findClass`/`getClass`: the name is copied and rewritten in place. */
  method Normalize(className: string) returns (s: string)
    ensures s == Normalized(className)
  {
    s := className;
    for i := 0 to |s|
      invariant |s| == |className|
      invariant forall j :: 0 <= j < i ==> s[j] == if className[j] == '.' then '/' else className[j]
      invariant forall j :: i <= j < |s| ==> s[j] == className[j]
    {
      if s[i] == '.' {
        s := s[i := '/'];
      }
    }
  }

  /** Normalising twice changes nothing more, and names without '.' are kept as they are. */
  lemma NormalizedIdempotent(name: string)
    ensures Normalized(Normalized(name)) == Normalized(name)
    ensures '.' !in name ==> Normalized(name) == name
  {
  }

  /** The path probed under one root. */
  function CandidatePath(root: string, normalized: string): (path: string)
    ensures |path| == |root| + |normalized| + 7
    ensures path[..|root|] == root && path[|root|] == '/'
    ensures path[|root| + 1..|root| + 1 + |normalized|] == normalized
    ensures path[|root| + 1 + |normalized|..] == ".class"
  {
    root + "/" + normalized + ".class"
  }

  /** Under one root, different names give different paths. */
  lemma CandidatePathInjective(root: string, a: string, b: string)
    requires CandidatePath(root, a) == CandidatePath(root, b)
    ensures a == b
  {
    var pa := CandidatePath(root, a);
    assert |a| == |b|;
    assert a == pa[|root| + 1..|root| + 1 + |a|];
  }

  /** The index of the first root under which the class file exists, or `|roots|` if there is none. */
  function FirstExisting(roots: seq<string>, normalized: string, files: set<string>): (k: nat)
    ensures k <= |roots|
    ensures forall j :: 0 <= j < k ==> CandidatePath(roots[j], normalized) !in files
    ensures k < |roots| ==> CandidatePath(roots[k], normalized) in files
  {
    if roots == [] then 0
    else if CandidatePath(roots[0], normalized) in files then 0
    else 1 + FirstExisting(roots[1..], normalized, files)
  }

  /** What the probe loop opens for `className`: the contents of the first existing candidate, if any. */
  function Located<T>(roots: seq<string>, className: string, files: map<string, T>): (r: Option<T>)
    ensures r.None? <==> forall j :: 0 <= j < |roots| ==> CandidatePath(roots[j], Normalized(className)) !in files
    ensures r.Some? ==> exists j :: 0 <= j < |roots| && CandidatePath(roots[j], Normalized(className)) in files &&
                                    r.value == files[CandidatePath(roots[j], Normalized(className))]
  {
    var k := FirstExisting(roots, Normalized(className), files.Keys);
    if k < |roots| then Some(files[CandidatePath(roots[k], Normalized(className))]) else None
  }
}
