/** What validation means for a listed tree, and that it accepts what decoding wrote. */
module RoundTrip {
  import opened Wrappers
  import opened Paths
  import opened Links
  import opened FileTree
  import opened Distribution
  import opened Decoding
  import opened Archives
  import opened Validation

  // ----- exactness -----

  ghost predicate ListedDirectory(index: seq<Entry>, p: Path)
  {
    exists i :: 0 <= i < |index| && PortablePath(index[i].path) == Some(p) && index[i].kind.Directory?
  }

  /** Every proper ancestor of a listed path is itself listed, as a directory. */
  ghost predicate ListsAncestors(index: seq<Entry>)
  {
    forall i, n :: 0 <= i < |index| && PortablePath(index[i].path).Some? && 0 < n < |PortablePath(index[i].path).value| ==>
      ListedDirectory(index, PortablePath(index[i].path).value[..n])
  }

  ghost predicate ExactlyListed(index: seq<Entry>, p: Path)
  {
    exists i :: 0 <= i < |index| && PortablePath(index[i].path) == Some(p)
  }

  ghost predicate NodeHolds(hash: seq<byte> -> string, t: Tree, e: Entry)
  {
    && PortablePath(e.path).Some? && PortablePath(e.path).value in t
    && NodeMatches(hash, e, t[PortablePath(e.path).value])
  }

  /** The tree's own nodes are exactly as listed: no symbolic link is followed anywhere. */
  ghost predicate ExactTree(hash: seq<byte> -> string, t: Tree, index: seq<Entry>, metadata: seq<string>)
  {
    && |index| <= MAX_ENTRIES
    && |t| <= MAX_ENTRIES + |metadata|
    && (forall p :: p in t ==> ExactlyListed(index, p) || InMetadata(metadata, |metadata|, p))
    && (forall i :: 0 <= i < |index| ==> NodeHolds(hash, t, index[i]))
  }

  lemma {:induction false} ListedAreReal(hash: seq<byte> -> string, t: Tree, beyond: Path -> Stat, index: seq<Entry>,
                                         i: nat, n: nat)
    requires ListsAncestors(index)
    requires forall j :: 0 <= j < |index| ==> EntryHolds(hash, t, beyond, index[j])
    requires i < |index| && PortablePath(index[i].path).Some? && n < |PortablePath(index[i].path).value|
    ensures IsDir(t, PortablePath(index[i].path).value[..n])
    decreases n
  {
    var p := PortablePath(index[i].path).value;
    if n > 0 {
      var q := p[..n];
      var j :| 0 <= j < |index| && PortablePath(index[j].path) == Some(q) && index[j].kind.Directory?;
      forall k | 0 < k < |q|
        ensures IsDir(t, q[..k])
      {
        assert q[..k] == p[..k];
        ListedAreReal(hash, t, beyond, index, i, k);
      }
      LookupThroughDirs(t, beyond, q, 0);
      assert EntryHolds(hash, t, beyond, index[j]);
    }
  }

  lemma EntryIsReal(hash: seq<byte> -> string, t: Tree, beyond: Path -> Stat, index: seq<Entry>, i: nat)
    requires ListsAncestors(index)
    requires forall j :: 0 <= j < |index| ==> EntryHolds(hash, t, beyond, index[j])
    requires i < |index|
    ensures NodeHolds(hash, t, index[i])
  {
    assert EntryHolds(hash, t, beyond, index[i]);
    var p := PortablePath(index[i].path).value;
    forall n | 0 < n < |p|
      ensures IsDir(t, p[..n])
    {
      ListedAreReal(hash, t, beyond, index, i, n);
    }
    LookupThroughDirs(t, beyond, p, 0);
  }

  lemma RealEntryHolds(hash: seq<byte> -> string, t: Tree, beyond: Path -> Stat, e: Entry)
    requires WellFormed(t) && NodeHolds(hash, t, e)
    ensures EntryHolds(hash, t, beyond, e)
  {
    var p := PortablePath(e.path).value;
    forall n | 0 < n < |p|
      ensures IsDir(t, p[..n])
    {
      AncestorsAreDirs(t, p, n);
    }
    LookupThroughDirs(t, beyond, p, 0);
  }

  lemma ExpectedIsListed(index: seq<Entry>, metadata: seq<string>, p: Path)
    requires ListsAncestors(index)
    ensures Expected(index, metadata, p) && p != [] ==> ExactlyListed(index, p) || InMetadata(metadata, |metadata|, p)
    ensures p != [] && (ExactlyListed(index, p) || InMetadata(metadata, |metadata|, p)) ==> Expected(index, metadata, p)
  {
    if Listed(index, |index|, p) {
      var i :| 0 <= i < |index| && Under(index[i], p);
      var q := PortablePath(index[i].path).value;
      if |p| < |q| {
        assert p == q[..|p|];
        assert ListedDirectory(index, q[..|p|]);
      } else {
        ProperPrefix(p, q);
      }
    }
    if p != [] && ExactlyListed(index, p) {
      var i :| 0 <= i < |index| && PortablePath(index[i].path) == Some(p);
      assert Under(index[i], p);
    }
  }

  /** For an index that lists its own ancestor directories, validation is exact. */
  lemma ValidateExact(hash: seq<byte> -> string, t: Tree, beyond: Path -> Stat, index: seq<Entry>,
                      metadata: seq<string>)
    requires WellFormed(t) && ListsAncestors(index)
    ensures TreeMatches(hash, t, beyond, index, metadata) <==> ExactTree(hash, t, index, metadata)
  {
    forall p | p in t
      ensures Expected(index, metadata, p) <==> ExactlyListed(index, p) || InMetadata(metadata, |metadata|, p)
    {
      ExpectedIsListed(index, metadata, p);
    }
    if TreeMatches(hash, t, beyond, index, metadata) {
      forall i | 0 <= i < |index|
        ensures NodeHolds(hash, t, index[i])
      {
        EntryIsReal(hash, t, beyond, index, i);
      }
    }
    if ExactTree(hash, t, index, metadata) {
      forall i | 0 <= i < |index|
        ensures EntryHolds(hash, t, beyond, index[i])
      {
        RealEntryHolds(hash, t, beyond, index[i]);
      }
    }
  }

  /**
   Without listed ancestors a symbolic link in place of a directory can satisfy validation:
   a single listed file "x/y" is accepted while the tree holds nothing but a link at "x".
   */
  lemma UnlistedAncestor(hash: seq<byte> -> string, x: string, y: string, content: seq<byte>, target: string)
    requires GoodName(x) && GoodName(y)
    ensures var index := [Entry(Join([x, y]), File, 420, |content|, hash(content), None)];
            var t: Tree := map[[x] := LinkNode(target)];
            var beyond := (p: Path) => Found(FileNode(content, 420));
            WellFormed(t) && TreeMatches(hash, t, beyond, index, []) && !ExactTree(hash, t, index, [])
  {
    var e := Entry(Join([x, y]), File, 420, |content|, hash(content), None);
    var index := [e];
    var t: Tree := map[[x] := LinkNode(target)];
    var beyond := (p: Path) => Found(FileNode(content, 420));
    PortableKey([x, y]);
    LinkedAncestor(hash, t, beyond, index, e, x, y, target);
  }

  lemma LinkedAncestor(hash: seq<byte> -> string, t: Tree, beyond: Path -> Stat, index: seq<Entry>, e: Entry,
                       x: string, y: string, target: string)
    requires t == map[[x] := LinkNode(target)] && index == [e] && PortablePath(e.path) == Some([x, y])
    requires beyond([x, y]).Found? && NodeMatches(hash, e, beyond([x, y]).node)
    ensures WellFormed(t) && TreeMatches(hash, t, beyond, index, []) && !ExactTree(hash, t, index, [])
  {
    var p: Path := [x, y];
    assert p[..1] == [x];
    assert Lookup(t, beyond, p) == beyond(p);
    assert EntryHolds(hash, t, beyond, index[0]);
    assert Under(index[0], [x]);
    assert |t| == 1;
    assert ParentOf([x]) == [];
    assert p !in t;
    assert !NodeHolds(hash, t, index[0]);
  }

  // ----- exactly when validation can be trusted -----

  /** Every entry is satisfied by the tree's own nodes. */
  ghost predicate AllReal(hash: seq<byte> -> string, t: Tree, index: seq<Entry>)
  {
    forall i {:trigger index[i]} :: 0 <= i < |index| ==> NodeHolds(hash, t, index[i])
  }

  /** Whatever tree passes, and whatever lies behind its links, its own nodes satisfy the entries. */
  ghost predicate Trustworthy(hash: seq<byte> -> string, index: seq<Entry>, metadata: seq<string>)
  {
    forall t, beyond {:trigger TreeMatches(hash, t, beyond, index, metadata)} ::
      WellFormed(t) && TreeMatches(hash, t, beyond, index, metadata) ==> AllReal(hash, t, index)
  }

  /** The tree with a link in place of the directory `q` and everything below it moved away. */
  function Linked(t: Tree, q: Path): Tree
  {
    map p | p in t && !(q < p) :: if p == q then LinkNode("") else t[p]
  }

  lemma LinkedWellFormed(t: Tree, q: Path)
    requires WellFormed(t) && q in t
    ensures WellFormed(Linked(t, q)) && Linked(t, q).Keys <= t.Keys && |Linked(t, q)| <= |t|
  {
    var t' := Linked(t, q);
    forall p | p in t'
      ensures p != [] && IsDir(t', ParentOf(p))
    {
      var d := ParentOf(p);
      assert IsDir(t, d);
      if d != [] {
        assert q <= d ==> q < p;
        assert d in t';
      }
    }
    SubsetSize(t'.Keys, t.Keys);
  }

  lemma NotBelow(p: Path, q: Path)
    requires forall j :: 0 < j < |p| ==> p[..j] != q
    ensures q != [] ==> !(q < p)
  {
    if 0 < |q| < |p| {
      assert p[..|q|] != q;
    }
  }

  /** Below the link the operating system sees what was there before, elsewhere nothing has changed. */
  lemma {:induction false} LookupLinked(t: Tree, beyond: Path -> Stat, q: Path, p: Path, i: nat)
    requires WellFormed(t) && p in t && q in t && p != q && i < |p|
    requires forall r :: r in t ==> beyond(r) == Found(t[r])
    requires forall j :: 0 < j <= i ==> p[..j] != q
    ensures Lookup(Linked(t, q), beyond, p, i) == Found(t[p])
    decreases |p| - i
  {
    var r := p[..i + 1];
    if i + 1 == |p| {
      assert r == p;
      NotBelow(p, q);
    } else {
      AncestorsAreDirs(t, p, i + 1);
      assert forall j :: 0 < j < |r| ==> r[..j] == p[..j];
      NotBelow(r, q);
      if r != q {
        LookupLinked(t, beyond, q, p, i + 1);
      }
    }
  }

  /** A proper ancestor of a listed path that no entry lists as a directory is not listed at all. */
  lemma AncestorNotListed(hash: seq<byte> -> string, t: Tree, index: seq<Entry>, i: nat, n: nat, k: nat)
    requires WellFormed(t) && AllReal(hash, t, index)
    requires i < |index| && k < |index| && PortablePath(index[i].path).Some?
    requires 0 < n < |PortablePath(index[i].path).value|
    requires !ListedDirectory(index, PortablePath(index[i].path).value[..n])
    ensures PortablePath(index[k].path) != Some(PortablePath(index[i].path).value[..n])
  {
    var p := PortablePath(index[i].path).value;
    assert NodeHolds(hash, t, index[i]) && NodeHolds(hash, t, index[k]);
    AncestorsAreDirs(t, p, n);
  }

  /** Replacing an unlisted ancestor by a link passes validation without the files being there. */
  lemma LinkPasses(hash: seq<byte> -> string, t: Tree, index: seq<Entry>, metadata: seq<string>, i: nat, n: nat)
    returns (t': Tree, beyond: Path -> Stat)
    requires WellFormed(t) && AllReal(hash, t, index)
    requires |index| <= MAX_ENTRIES && |t| <= MAX_ENTRIES + |metadata| && forall p :: p in t ==> Expected(index, metadata, p)
    requires i < |index| && PortablePath(index[i].path).Some? && 0 < n < |PortablePath(index[i].path).value|
    requires !ListedDirectory(index, PortablePath(index[i].path).value[..n])
    ensures WellFormed(t') && TreeMatches(hash, t', beyond, index, metadata) && !AllReal(hash, t', index)
  {
    var p := PortablePath(index[i].path).value;
    var q := p[..n];
    assert NodeHolds(hash, t, index[i]);
    AncestorsAreDirs(t, p, n);
    t' := Linked(t, q);
    beyond := r => if r in t then Found(t[r]) else Missing;
    LinkedWellFormed(t, q);
    forall k | 0 <= k < |index|
      ensures EntryHolds(hash, t', beyond, index[k])
    {
      AncestorNotListed(hash, t, index, i, n, k);
      assert NodeHolds(hash, t, index[k]);
      PortableNames(index[k].path);
      LookupLinked(t, beyond, q, PortablePath(index[k].path).value, 0);
    }
    assert q < p;
    assert !NodeHolds(hash, t', index[i]);
  }

  /**
   For an index that some tree really satisfies, a passed validation means real entries for
   all trees exactly when the index lists the ancestors of its paths as directories.
   */
  lemma TrustExactly(hash: seq<byte> -> string, t: Tree, index: seq<Entry>, metadata: seq<string>)
    requires WellFormed(t) && AllReal(hash, t, index)
    requires |index| <= MAX_ENTRIES && |t| <= MAX_ENTRIES + |metadata| && forall p :: p in t ==> Expected(index, metadata, p)
    ensures Trustworthy(hash, index, metadata) <==> ListsAncestors(index)
  {
    if ListsAncestors(index) {
      forall t', beyond | WellFormed(t') && TreeMatches(hash, t', beyond, index, metadata)
        ensures AllReal(hash, t', index)
      {
        ValidateExact(hash, t', beyond, index, metadata);
      }
    } else {
      var i, n :| 0 <= i < |index| && PortablePath(index[i].path).Some? && 0 < n < |PortablePath(index[i].path).value| &&
                  !ListedDirectory(index, PortablePath(index[i].path).value[..n]);
      var t', beyond := LinkPasses(hash, t, index, metadata, i, n);
    }
  }

  // ----- decode, then validate -----

  lemma SettledShape(m: Index, f: Index)
    requires Shape(m) && Settled(m, f) && forall k :: k in f ==> f[k].mode < 512
    ensures Shape(f) && |f| == |m|
  {
    assert |f.Keys| == |m.Keys|;
    forall k | k in f
      ensures GoodKeyed(Keyed(k, f[k]))
    {
      assert GoodKeyed(Keyed(k, m[k]));
      SettledEntry(k, m[k], f[k]);
    }
    SettledTree(m, f);
  }

  lemma SettledEntry(k: Path, e: Entry, s: Entry)
    requires GoodKeyed(Keyed(k, e)) && s.kind == e.kind && s.path == e.path && s.target == e.target && s.mode < 512
    ensures GoodKeyed(Keyed(k, s))
  {
    assert Next(k, s) == Next(k, e);
  }

  lemma SettledTree(m: Index, f: Index)
    requires TreeShaped(m) && f.Keys == m.Keys && forall k :: k in m ==> f[k].kind == m[k].kind
    ensures TreeShaped(f)
  {
  }

  lemma FinalModes(m: Index)
    requires forall k :: k in m ==> m[k].mode < 512
    ensures forall k :: k in m ==> Final(m)[k].mode < 512
  {
    FinalSettles(m);
    var f := Final(m);
    forall k | k in m
      ensures f[k].mode < 512
    {
      if exists q :: EndsAt(m, k, q) {
        var q :| EndsAt(m, k, q);
        assert q in m;
      } else {
        assert f[k] == m[k];
      }
    }
  }

  lemma FinalKeepsShape(m: Index)
    requires Shape(m)
    ensures Shape(Final(m)) && |Final(m)| == |m|
  {
    FinalSettles(m);
    forall k | k in m
      ensures m[k].mode < 512
    {
      assert GoodKeyed(Keyed(k, m[k]));
    }
    FinalModes(m);
    SettledShape(m, Final(m));
  }

  lemma KeyedNodeHolds(hash: seq<byte> -> string, t: Tree, k: Path, e: Entry)
    requires GoodNames(k) && e.path == Join(k) && e.mode < 512
    requires k in t && Fits(hash, e, t[k]) && (e.kind.Directory? ==> t[k] == DirNode(e.mode))
    ensures NodeHolds(hash, t, e)
  {
    PortableKey(k);
  }

  lemma CompleteNodeHolds(hash: seq<byte> -> string, t: Tree, m: Index, k: Path)
    requires Shape(m) && Complete(hash, t, m) && k in m
    ensures NodeHolds(hash, t, m[k])
  {
    assert GoodKeyed(Keyed(k, m[k]));
    KeyedNodeHolds(hash, t, k, m[k]);
  }

  lemma PositionOf(m: Index, k: Path) returns (i: nat)
    requires AllGood(m.Keys) && k in m
    ensures i < |m| && Values(m)[i] == m[k]
  {
    var ks := Sorted(m.Keys);
    assert k in ks;
    i :| 0 <= i < |ks| && ks[i] == k;
  }

  lemma KeyUnder(e: Entry, k: Path, p: Path)
    requires GoodNames(k) && e.path == Join(k) && p != [] && p <= k
    ensures Under(e, p)
  {
    PortableKey(k);
  }

  lemma CompleteExpected(hash: seq<byte> -> string, t: Tree, m: Index, metadata: seq<string>, p: Path)
    requires Shape(m) && AllGood(m.Keys) && Complete(hash, t, m) && p in t
    ensures Expected(Values(m), metadata, p)
  {
    assert Covered(m, p);
    var k :| k in m && p <= k;
    var i := PositionOf(m, k);
    assert GoodKeyed(Keyed(k, m[k]));
    KeyUnder(m[k], k, p);
  }

  /** A tree as decoding leaves it matches its own index exactly when it is not too large to walk. */
  lemma CompleteMatches(hash: seq<byte> -> string, t: Tree, beyond: Path -> Stat, m: Index, metadata: seq<string>)
    requires Shape(m) && AllGood(m.Keys) && |m| <= MAX_ENTRIES && Complete(hash, t, m)
    ensures WellFormed(t)
    ensures TreeMatches(hash, t, beyond, Values(m), metadata) <==> |t| <= MAX_ENTRIES + |metadata|
  {
    MirrorsWellFormed(hash, t, m);
    forall p | p in t
      ensures Expected(Values(m), metadata, p)
    {
      CompleteExpected(hash, t, m, metadata, p);
    }
    forall i | 0 <= i < |m|
      ensures EntryHolds(hash, t, beyond, Values(m)[i])
    {
      CompleteNodeHolds(hash, t, m, Sorted(m.Keys)[i]);
      RealEntryHolds(hash, t, beyond, Values(m)[i]);
    }
  }

  // ----- validation against an extracted tree, node by node -----

  /** The same kind, and as the kind has them the same length, hash, permission bits and link target. */
  predicate SameNode(hash: seq<byte> -> string, node: Node, model: Node)
  {
    match model
    case FileNode(content, mode) =>
      node.FileNode? && |node.content| == |content| && hash(node.content) == hash(content) && node.mode % 512 == mode % 512
    case DirNode(mode) => node.DirNode? && node.mode % 512 == mode % 512
    case LinkNode(target) => node.LinkNode? && node.target == target
    case OtherNode => false
  }

  ghost predicate FoundSame(hash: seq<byte> -> string, t: Tree, beyond: Path -> Stat, k: Path, model: Node)
  {
    k != [] && Lookup(t, beyond, k).Found? && SameNode(hash, Lookup(t, beyond, k).node, model)
  }

  lemma MatchesLike(hash: seq<byte> -> string, e: Entry, model: Node, node: Node)
    requires Fits(hash, e, model) && e.mode < 512 && (e.kind.Directory? ==> model == DirNode(e.mode))
    ensures NodeMatches(hash, e, node) <==> SameNode(hash, node, model)
  {
  }

  lemma HoldsLike(hash: seq<byte> -> string, t0: Tree, t: Tree, beyond: Path -> Stat, m: Index, k: Path)
    requires Shape(m) && Complete(hash, t0, m) && k in m
    ensures k in t0 && (EntryHolds(hash, t, beyond, m[k]) <==> FoundSame(hash, t, beyond, k, t0[k]))
  {
    assert GoodKeyed(Keyed(k, m[k]));
    PortableKey(k);
    if Lookup(t, beyond, k).Found? {
      MatchesLike(hash, m[k], t0[k], Lookup(t, beyond, k).node);
    }
  }

  lemma ExpectedLike(hash: seq<byte> -> string, t0: Tree, m: Index, metadata: seq<string>, p: Path)
    requires Shape(m) && AllGood(m.Keys) && Complete(hash, t0, m)
    ensures Expected(Values(m), metadata, p) <==> p in t0 || InMetadata(metadata, |metadata|, p)
  {
    if p in t0 {
      CompleteExpected(hash, t0, m, metadata, p);
    }
    if Listed(Values(m), |Values(m)|, p) {
      var i :| 0 <= i < |Values(m)| && Under(Values(m)[i], p);
      var k := Sorted(m.Keys)[i];
      assert GoodKeyed(Keyed(k, m[k]));
      PortableKey(k);
      assert Covered(m, p);
    }
  }

  /** Every listed path shows a node like the extracted one. */
  ghost predicate ShowsAll(hash: seq<byte> -> string, extracted: Tree, t: Tree, beyond: Path -> Stat, keys: set<Path>)
  {
    forall k {:trigger k in keys} :: k in keys ==> k in extracted && FoundSame(hash, t, beyond, k, extracted[k])
  }

  /** No node but those of the extracted tree and the metadata files, and not too many of them. */
  ghost predicate NoneElse(extracted: Tree, t: Tree, metadata: seq<string>)
  {
    |t| <= MAX_ENTRIES + |metadata| && forall p :: p in t ==> p in extracted || InMetadata(metadata, |metadata|, p)
  }

  /** Something holds of all listed values exactly when it holds at all keys. */
  lemma AllValues(m: Index, good: Entry -> bool)
    requires AllGood(m.Keys)
    ensures (forall i :: 0 <= i < |m| ==> good(Values(m)[i])) <==> (forall k :: k in m ==> good(m[k]))
  {
    if forall i :: 0 <= i < |m| ==> good(Values(m)[i]) {
      forall k | k in m
        ensures good(m[k])
      {
        var i := PositionOf(m, k);
      }
    }
  }

  lemma ShowsKeys(hash: seq<byte> -> string, t0: Tree, t: Tree, beyond: Path -> Stat, m: Index)
    requires Shape(m) && Complete(hash, t0, m)
    ensures (forall k :: k in m ==> EntryHolds(hash, t, beyond, m[k])) <==> ShowsAll(hash, t0, t, beyond, m.Keys)
  {
    forall k | k in m
      ensures k in t0 && (EntryHolds(hash, t, beyond, m[k]) <==> FoundSame(hash, t, beyond, k, t0[k]))
    {
      HoldsLike(hash, t0, t, beyond, m, k);
    }
  }

  lemma ShowsListed(hash: seq<byte> -> string, t0: Tree, t: Tree, beyond: Path -> Stat, m: Index)
    requires Shape(m) && AllGood(m.Keys) && Complete(hash, t0, m)
    ensures (forall i :: 0 <= i < |m| ==> EntryHolds(hash, t, beyond, Values(m)[i])) <==>
            ShowsAll(hash, t0, t, beyond, m.Keys)
  {
    ShowsKeys(hash, t0, t, beyond, m);
    AllValues(m, e => EntryHolds(hash, t, beyond, e));
  }

  lemma NoneElseExpected(hash: seq<byte> -> string, t0: Tree, t: Tree, m: Index, metadata: seq<string>)
    requires Shape(m) && AllGood(m.Keys) && Complete(hash, t0, m)
    ensures |t| <= MAX_ENTRIES + |metadata| && (forall p :: p in t ==> Expected(Values(m), metadata, p)) <==>
            NoneElse(t0, t, metadata)
  {
    forall p | p in t
      ensures Expected(Values(m), metadata, p) <==> p in t0 || InMetadata(metadata, |metadata|, p)
    {
      ExpectedLike(hash, t0, m, metadata, p);
    }
  }

  /**
   Any tree passes validation against an extracted archive's index exactly when it has no
   other nodes than the extracted tree and the metadata files and shows at every listed
   path a node like the extracted one.
   */
  lemma PassesLike(hash: seq<byte> -> string, t0: Tree, t: Tree, beyond: Path -> Stat, m: Index, metadata: seq<string>)
    requires Shape(m) && AllGood(m.Keys) && |m| <= MAX_ENTRIES && Complete(hash, t0, m)
    ensures TreeMatches(hash, t, beyond, Values(m), metadata) <==>
            NoneElse(t0, t, metadata) && ShowsAll(hash, t0, t, beyond, m.Keys)
  {
    ShowsListed(hash, t0, t, beyond, m);
    NoneElseExpected(hash, t0, t, m, metadata);
  }

  /** Changing the kind, length, hash, mode or target of one listed node is always noticed. */
  lemma OneChange(hash: seq<byte> -> string, t0: Tree, beyond: Path -> Stat, m: Index, metadata: seq<string>, k: Path,
                  node: Node)
    requires Shape(m) && AllGood(m.Keys) && Complete(hash, t0, m) && k in m && k in t0
    requires !SameNode(hash, node, t0[k])
    ensures !TreeMatches(hash, t0[k := node], beyond, Values(m), metadata)
  {
    var t := t0[k := node];
    MirrorsWellFormed(hash, t0, m);
    forall n | 0 < n < |k|
      ensures IsDir(t, k[..n])
    {
      AncestorsAreDirs(t0, k, n);
    }
    assert GoodKeyed(Keyed(k, m[k]));
    LookupThroughDirs(t, beyond, k, 0);
    HoldsLike(hash, t0, t, beyond, m, k);
    var i := PositionOf(m, k);
    assert !EntryHolds(hash, t, beyond, Values(m)[i]);
  }

  /** The nodes that files and links at these keys bring with them: every non-empty prefix. */
  ghost function Nodes(keys: set<Path>): set<Path>
  {
    set k, i | k in keys && 0 < i <= |k| :: k[..i]
  }

  lemma MirrorsNodes(hash: seq<byte> -> string, t: Tree, m: Index)
    requires Mirrors(hash, t, m)
    ensures t.Keys == Nodes(m.Keys)
  {
    forall p
      ensures p in t <==> p in Nodes(m.Keys)
    {
      if p in t {
        assert Covered(m, p);
        var k :| k in m && p != [] && p <= k;
        assert p == k[..|p|];
      }
      if p in Nodes(m.Keys) {
        var k, i :| k in m.Keys && 0 < i <= |k| && p == k[..i];
        assert Covered(m, p);
      }
    }
  }

  lemma CopyPasses(hash: seq<byte> -> string, a: Archive, t0: Tree, t: Tree, beyond: Path -> Stat, metadata: seq<string>)
    requires Decoded(hash, a).Some? && Complete(hash, t0, Final(Collected(hash, a).value.entries))
    ensures TreeMatches(hash, t, beyond, Decoded(hash, a).value, metadata) <==>
            NoneElse(t0, t, metadata) && ShowsAll(hash, t0, t, beyond, Collected(hash, a).value.entries.Keys)
  {
    var m := Collected(hash, a).value.entries;
    FinalKeepsShape(m);
    ShapeFacts(Final(m));
    PassesLike(hash, t0, t, beyond, Final(m), metadata);
  }

  lemma ExtractedPasses(hash: seq<byte> -> string, a: Archive, t: Tree, beyond: Path -> Stat, metadata: seq<string>)
    requires Decoded(hash, a).Some? && Complete(hash, t, Final(Collected(hash, a).value.entries))
    ensures WellFormed(t)
    ensures TreeMatches(hash, t, beyond, Decoded(hash, a).value, metadata) <==>
            |Nodes(Collected(hash, a).value.entries.Keys)| <= MAX_ENTRIES + |metadata|
  {
    var m := Collected(hash, a).value.entries;
    FinalKeepsShape(m);
    ShapeFacts(Final(m));
    NodesPass(hash, t, beyond, Final(m), metadata);
  }

  lemma NodesPass(hash: seq<byte> -> string, t: Tree, beyond: Path -> Stat, m: Index, metadata: seq<string>)
    requires Shape(m) && AllGood(m.Keys) && |m| <= MAX_ENTRIES && Complete(hash, t, m)
    ensures WellFormed(t)
    ensures TreeMatches(hash, t, beyond, Values(m), metadata) <==> |Nodes(m.Keys)| <= MAX_ENTRIES + |metadata|
  {
    CompleteMatches(hash, t, beyond, m, metadata);
    NodeCount(hash, t, m);
  }

  lemma NodeCount(hash: seq<byte> -> string, t: Tree, m: Index)
    requires Mirrors(hash, t, m)
    ensures |t| == |Nodes(m.Keys)|
  {
    MirrorsNodes(hash, t, m);
    assert |t| == |t.Keys|;
  }

  /** Validating any tree with the index of an archive compares it with what extracting the archive writes. */
  method ValidateCopy(hash: seq<byte> -> string, dirMode: nat, a: Archive, t: Tree, beyond: Path -> Stat,
                      metadata: seq<string>)
    returns (index: Option<seq<Entry>>, extracted: Tree, valid: Result<bool, Fault>)
    requires WellFormed(t)
    ensures index == Decoded(hash, a)
    ensures index.Some? ==> Extracted(a, extracted)
    ensures index.Some? ==>
              (valid == Ok(true) <==>
               NoneElse(extracted, t, metadata) && ShowsAll(hash, extracted, t, beyond, Collected(hash, a).value.entries.Keys))
  {
    var out: Option<Tree>;
    extracted, valid := map[], Ok(false);
    index, out := Decode(hash, dirMode, a, true);
    if index.Some? {
      extracted := out.value;
      CopyPasses(hash, a, extracted, t, beyond, metadata);
      valid := Validate(hash, RootDirectory, t, beyond, index.value, metadata);
    }
  }

  /**
   Extracting an archive and validating the result with the returned index: this passes exactly
   when the archive's paths have few enough distinct prefixes.
   */
  method ExtractAndValidate(hash: seq<byte> -> string, dirMode: nat, a: Archive, beyond: Path -> Stat,
                            metadata: seq<string>)
    returns (index: Option<seq<Entry>>, tree: Tree, valid: Result<bool, Fault>)
    ensures index == Decoded(hash, a)
    ensures index.Some? ==>
              (valid == Ok(true) <==> |Nodes(Collected(hash, a).value.entries.Keys)| <= MAX_ENTRIES + |metadata|)
  {
    var out: Option<Tree>;
    tree, valid := map[], Ok(false);
    index, out := Decode(hash, dirMode, a, true);
    if index.Some? {
      tree := out.value;
      ExtractedPasses(hash, a, tree, beyond, metadata);
      valid := Validate(hash, RootDirectory, tree, beyond, index.value, metadata);
    }
  }
}
