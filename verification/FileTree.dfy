/** The files below an output directory: a finite map from component lists to nodes. */
module FileTree {
  import opened Wrappers

  type Path = seq<string>

  datatype Node =
    | FileNode(content: seq<byte>, mode: nat)
    | DirNode(mode: nat)
    | LinkNode(target: string)
    | OtherNode

  type Tree = map<Path, Node>

  predicate IsDir(t: Tree, p: Path)
  {
    p == [] || (p in t && t[p].DirNode?)
  }

  function ParentOf(p: Path): Path
    requires p != []
  {
    p[..|p| - 1]
  }

  /** Every node lies in a directory of the tree; the root itself is not listed. */
  ghost predicate WellFormed(t: Tree)
  {
    forall p :: p in t ==> p != [] && IsDir(t, ParentOf(p))
  }

  lemma {:induction false} AncestorsAreDirs(t: Tree, p: Path, i: nat)
    requires WellFormed(t) && p in t && i < |p|
    ensures IsDir(t, p[..i])
    decreases |p|
  {
    if i < |p| - 1 {
      assert ParentOf(p)[..i] == p[..i];
      AncestorsAreDirs(t, ParentOf(p), i);
    }
  }

  lemma ProperPrefix(a: Path, b: Path)
    requires a <= b
    ensures a == b || a < b
  {
    if |a| == |b| {
      assert a == b;
    }
  }

  function Prefixes(p: Path): set<Path>
  {
    set i | 0 < i <= |p| :: p[..i]
  }

  lemma PrefixesAre(p: Path)
    ensures forall q :: q in Prefixes(p) <==> q != [] && q <= p
  {
    forall q | q != [] && q <= p
      ensures q in Prefixes(p)
    {
      assert q == p[..|q|];
    }
  }

  /** `create_dir_all`: missing directories appear with `mode`; a non-directory on the way is an error. */
  function MakeDirs(t: Tree, p: Path, mode: nat): Option<Tree>
  {
    if forall q :: q in Prefixes(p) && q in t ==> t[q].DirNode? then
      Some(t + map q | q in Prefixes(p) && q !in t :: DirNode(mode))
    else
      None
  }
}
