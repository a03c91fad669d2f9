/** Comparing a directory tree with an index: a worklist walk, then one check per entry. */
module Validation {
  import opened Wrappers
  import opened Paths
  import opened Links
  import opened FileTree
  import opened Distribution
  import opened Decoding
  import opened Archives

  // ----- what the operating system reports -----

  datatype Stat = Found(node: Node) | Missing | NotADirectory

  /**
   `symlink_metadata` of a path below the root. Intermediate symbolic links are followed,
   so what lies behind one is not in the tree: `beyond` stands for any answer at all.
   */
  function Lookup(t: Tree, beyond: Path -> Stat, p: Path, i: nat := 0): Stat
    requires i < |p|
    decreases |p| - i
  {
    var q := p[..i + 1];
    if q !in t then Missing
    else if i + 1 == |p| then Found(t[q])
    else match t[q]
      case DirNode(_) => Lookup(t, beyond, p, i + 1)
      case LinkNode(_) => beyond(p)
      case _ => NotADirectory
  }

  lemma {:induction false} LookupThroughDirs(t: Tree, beyond: Path -> Stat, p: Path, i: nat)
    requires i < |p| && forall j :: i < j < |p| ==> IsDir(t, p[..j])
    ensures Lookup(t, beyond, p, i) == if p in t then Found(t[p]) else Missing
    decreases |p| - i
  {
    if i + 1 == |p| {
      assert p[..i + 1] == p;
    } else {
      assert IsDir(t, p[..i + 1]);
      LookupThroughDirs(t, beyond, p, i + 1);
    }
  }

  predicate NodeMatches(hash: seq<byte> -> string, e: Entry, node: Node)
  {
    match e.kind
    case File => node.FileNode? && |node.content| == e.size && hash(node.content) == e.digest && node.mode % 512 == e.mode
    case Hardlink => node.FileNode? && |node.content| == e.size && hash(node.content) == e.digest && node.mode % 512 == e.mode
    case Directory => node.DirNode? && node.mode % 512 == e.mode
    case Symlink => node.LinkNode? && e.target == Some(node.target)
    case Special => false
  }

  // ----- the specification of `validate` -----

  ghost predicate AllPortable(index: seq<Entry>)
  {
    forall i :: 0 <= i < |index| ==> Portable(index[i])
  }

  function MetaPath(file: string): Option<Path>
  {
    if AllNormal(Components(file)) then Some(Names(Components(file))) else None
  }

  /** A metadata file name is expected under its own names. */
  lemma MetaNames(ns: seq<string>)
    requires GoodNames(ns)
    ensures MetaPath(Join(ns)) == Some(ns)
  {
    PortableKey(ns);
  }

  /** `p` is an entry's path or one of its ancestors. */
  predicate Under(e: Entry, p: Path)
  {
    PortablePath(e.path).Some? && p != [] && p <= PortablePath(e.path).value
  }

  ghost predicate Listed(index: seq<Entry>, n: nat, p: Path)
  {
    exists i :: 0 <= i < n <= |index| && Under(index[i], p)
  }

  ghost predicate InMetadata(metadata: seq<string>, n: nat, p: Path)
  {
    exists j :: 0 <= j < n <= |metadata| && MetaPath(metadata[j]) == Some(p)
  }

  /** Listed paths, their ancestors, and the metadata files. */
  ghost predicate Expected(index: seq<Entry>, metadata: seq<string>, p: Path)
  {
    Listed(index, |index|, p) || InMetadata(metadata, |metadata|, p)
  }

  ghost predicate EntryHolds(hash: seq<byte> -> string, t: Tree, beyond: Path -> Stat, e: Entry)
  {
    && Portable(e)
    && var stat := Lookup(t, beyond, PortablePath(e.path).value);
    stat.Found? && NodeMatches(hash, e, stat.node)
  }

  /** No node the index does not expect, few enough nodes, and every entry as recorded. */
  ghost predicate TreeMatches(hash: seq<byte> -> string, t: Tree, beyond: Path -> Stat, index: seq<Entry>,
                              metadata: seq<string>)
  {
    && |index| <= MAX_ENTRIES
    && |t| <= MAX_ENTRIES + |metadata|
    && (forall p :: p in t ==> Expected(index, metadata, p))
    && (forall i :: 0 <= i < |index| ==> EntryHolds(hash, t, beyond, index[i]))
  }

  // ----- the walk -----

  function Children(t: Tree, d: Path): set<Path>
  {
    set p | p in t && p != [] && ParentOf(p) == d
  }

  ghost predicate WalkInv(t: Tree, directories: seq<Path>, seen: set<Path>, done: set<Path>)
  {
    && seen <= t.Keys && done <= {[]} + t.Keys
    && (forall p :: p in t && p != [] ==> (p in seen <==> ParentOf(p) in done))
    && (forall i, j :: 0 <= i < j < |directories| ==> directories[i] != directories[j])
    && (forall d :: d in directories ==> d !in done && IsDir(t, d) && (d == [] || d in seen))
    && (forall p :: p in seen && t[p].DirNode? ==> p in done || p in directories)
    && (forall d :: d in done ==> d == [] || d in seen)
    && ([] in done || [] in directories)
  }

  lemma {:induction false} WalkSeesAll(t: Tree, seen: set<Path>, done: set<Path>, p: Path)
    requires WellFormed(t) && WalkInv(t, [], seen, done) && p in t
    ensures p in seen
    decreases |p|
  {
    var d := ParentOf(p);
    if d != [] {
      WalkSeesAll(t, seen, done, d);
    }
  }

  /** One directory read: every child is counted and looked up, subdirectories join the worklist. */
  method ReadDir(t: Tree, relative: Path, expected: set<Path>, limit: nat, count: nat, directories: seq<Path>)
    returns (ok: bool, count': nat, directories': seq<Path>)
    requires count <= limit
    ensures ok <==> count + |Children(t, relative)| <= limit && Children(t, relative) <= expected
    ensures ok ==> count' == count + |Children(t, relative)|
    ensures ok ==> directories <= directories'
    ensures ok ==> forall i, j :: |directories| <= i < j < |directories'| ==> directories'[i] != directories'[j]
    ensures ok ==> forall p :: p in directories'[|directories|..] <==> p in Children(t, relative) && t[p].DirNode?
  {
    ghost var all := Children(t, relative);
    var todo := Children(t, relative);
    count', directories' := count, directories;
    while todo != {}
      invariant todo <= all && count' + |todo| == count + |all|
      invariant count' <= limit
      invariant all - todo <= expected
      invariant directories <= directories'
      invariant forall i, j :: |directories| <= i < j < |directories'| ==> directories'[i] != directories'[j]
      invariant forall p :: p in directories'[|directories|..] <==> p in all - todo && t[p].DirNode?
      decreases todo
    {
      var path :| path in todo;
      count' := count' + 1;
      if count' > limit || path !in expected {
        return false, count', directories';
      }
      if t[path].DirNode? {
        assert directories' + [path] == directories + (directories'[|directories|..] + [path]);
        directories' := directories' + [path];
      }
      todo := todo - {path};
    }
    ok := true;
  }

  lemma WalkStep(t: Tree, front: seq<Path>, d: Path, seen: set<Path>, done: set<Path>, rest: seq<Path>)
    requires WalkInv(t, front + [d], seen, done)
    requires front <= rest
    requires forall i, j :: |front| <= i < j < |rest| ==> rest[i] != rest[j]
    requires forall p :: p in rest[|front|..] <==> p in Children(t, d) && t[p].DirNode?
    ensures WalkInv(t, rest, seen + Children(t, d), done + {d})
  {
    var n := |front|;
    var directories, added := front + [d], rest[n..];
    assert directories[n] == d && d in directories;
    assert rest == front + added by {
      assert forall i :: 0 <= i < n ==> rest[i] == front[i];
    }
    forall i | 0 <= i < n
      ensures front[i] != d
    {
      assert directories[i] == front[i];
    }
    forall i, j | 0 <= i < j < |rest|
      ensures rest[i] != rest[j]
    {
      if j < n {
        assert directories[i] != directories[j];
      } else if i < n {
        assert rest[j] in added;
        assert directories[i] in directories;
        assert rest[j] !in seen;
      }
    }
    forall x | x in rest
      ensures x !in done + {d} && IsDir(t, x) && (x == [] || x in seen + Children(t, d))
    {
      if x in front {
        assert x in directories;
      } else {
        assert x in added;
      }
    }
  }

  lemma WalkCounts(t: Tree, front: seq<Path>, d: Path, seen: set<Path>, done: set<Path>)
    requires WalkInv(t, front + [d], seen, done)
    ensures d !in done && d in {[]} + t.Keys
    ensures Children(t, d) <= t.Keys && |seen + Children(t, d)| == |seen| + |Children(t, d)| <= |t|
  {
    assert (front + [d])[|front|] == d && d in front + [d];
    var children := Children(t, d);
    assert children !! seen;
    SubsetSize(seen + children, t.Keys);
  }

  lemma WalkComplete(t: Tree, seen: set<Path>, done: set<Path>)
    requires WellFormed(t) && WalkInv(t, [], seen, done)
    ensures seen == t.Keys
  {
    forall p | p in t
      ensures p in seen
    {
      WalkSeesAll(t, seen, done, p);
    }
  }

  /** Pops one directory off the worklist and reads it. */
  method Visit(t: Tree, expected: set<Path>, limit: nat, count: nat, directories: seq<Path>, ghost seen: set<Path>,
               ghost done: set<Path>)
    returns (ok: bool, count': nat, rest: seq<Path>, ghost seen': set<Path>, ghost done': set<Path>)
    requires directories != [] && WalkInv(t, directories, seen, done)
    requires count == |seen| <= limit && seen <= expected
    ensures ok ==> WalkInv(t, rest, seen', done') && done < done' && done' <= {[]} + t.Keys
    ensures ok ==> count' == |seen'| <= limit && seen' <= expected
    ensures !ok ==> !(|t| <= limit && t.Keys <= expected)
  {
    var front, relative := directories[..|directories| - 1], directories[|directories| - 1];
    assert directories == front + [relative];
    WalkCounts(t, front, relative, seen, done);
    ok, count', rest := ReadDir(t, relative, expected, limit, count, front);
    seen', done' := seen + Children(t, relative), done + {relative};
    if ok {
      WalkStep(t, front, relative, seen, done, rest);
    }
  }

  /** The worklist walk accepts exactly the trees that are small enough and hold nothing unexpected. */
  method Walk(t: Tree, expected: set<Path>, limit: nat) returns (ok: bool)
    requires WellFormed(t)
    ensures ok <==> |t| <= limit && t.Keys <= expected
  {
    var directories: seq<Path> := [[]];
    var count := 0;
    ghost var seen: set<Path>, done: set<Path> := {}, {};
    while directories != []
      invariant WalkInv(t, directories, seen, done)
      invariant count == |seen| <= limit && seen <= expected
      decreases {[]} + t.Keys - done
    {
      ok, count, directories, seen, done := Visit(t, expected, limit, count, directories, seen, done);
      if !ok {
        return false;
      }
    }
    WalkComplete(t, seen, done);
    ok := true;
  }

  lemma {:induction false} SubsetSize(a: set<Path>, b: set<Path>)
    requires a <= b
    ensures |a| <= |b|
  {
    if a != {} {
      var x :| x in a;
      SubsetSize(a - {x}, b - {x});
    }
  }

  // ----- the whole check -----

  datatype RootStat = RootMissing | RootOther | RootDirectory

  datatype Fault = NoRoot | NotPortable | Unreadable

  ghost predicate Gathered(found: set<Path>, index: seq<Entry>, i: nat)
  {
    forall p {:trigger Listed(index, i, p)} {:trigger p in found} :: p in found <==> Listed(index, i, p)
  }

  lemma ListedStep(index: seq<Entry>, i: nat)
    requires i < |index|
    ensures forall p :: Listed(index, i + 1, p) <==> Listed(index, i, p) || Under(index[i], p)
  {
  }

  lemma GatheredMore(found: set<Path>, index: seq<Entry>, i: nat, path: Path)
    requires i < |index| && Gathered(found, index, i) && PortablePath(index[i].path) == Some(path)
    ensures Gathered(found + Prefixes(path), index, i + 1)
  {
    UnderPrefixes(index[i], path);
    ListedStep(index, i);
    var found' := found + Prefixes(path);
    forall p
      ensures p in found' <==> Listed(index, i + 1, p)
    {
      assert p in Prefixes(path) <==> Under(index[i], p);
      assert p in found <==> Listed(index, i, p);
    }
  }

  lemma UnderPrefixes(e: Entry, path: Path)
    requires PortablePath(e.path) == Some(path)
    ensures path != [] && forall p :: p in Prefixes(path) <==> Under(e, p)
  {
    PortableNames(e.path);
    PrefixesAre(path);
  }

  predicate Portable(e: Entry)
  {
    PortablePath(e.path).Some? && PortablePath(e.path).value != []
  }

  method ExpectEntries(index: seq<Entry>) returns (expected: Option<set<Path>>)
    ensures expected.Some? <==> AllPortable(index)
    ensures expected.Some? ==> Gathered(expected.value, index, |index|)
  {
    var found: set<Path> := {};
    var i := 0;
    while i < |index|
      invariant 0 <= i <= |index|
      invariant forall j :: 0 <= j < i ==> Portable(index[j])
      invariant Gathered(found, index, i)
    {
      var path := PortablePath(index[i].path);
      if path.None? {
        assert !Portable(index[i]);
        return None;
      }
      PortableNames(index[i].path);
      GatheredMore(found, index, i, path.value);
      found := found + Prefixes(path.value);
      i := i + 1;
    }
    expected := Some(found);
  }

  method ExpectMetadata(metadata: seq<string>) returns (found: set<Path>)
    ensures forall p :: p in found <==> InMetadata(metadata, |metadata|, p)
  {
    found := {};
    var j := 0;
    while j < |metadata|
      invariant 0 <= j <= |metadata|
      invariant forall p :: p in found <==> InMetadata(metadata, j, p)
    {
      forall p
        ensures InMetadata(metadata, j + 1, p) <==> InMetadata(metadata, j, p) || MetaPath(metadata[j]) == Some(p)
      {
      }
      var path := MetaPath(metadata[j]);
      if path.Some? {
        found := found + {path.value};
      }
      j := j + 1;
    }
  }

  /** Listed paths with their ancestors, then the metadata files. */
  method Expect(index: seq<Entry>, metadata: seq<string>) returns (expected: Option<set<Path>>)
    ensures expected.Some? <==> AllPortable(index)
    ensures expected.Some? ==> forall p :: p in expected.value <==> Expected(index, metadata, p)
  {
    expected := ExpectEntries(index);
    if expected.Some? {
      var more := ExpectMetadata(metadata);
      expected := Some(expected.value + more);
    }
  }

  /** `validate`: true exactly when the tree matches; errors only for malformed input or an unreadable path. */
  method Validate(hash: seq<byte> -> string, root: RootStat, t: Tree, beyond: Path -> Stat, index: seq<Entry>,
                  metadata: seq<string>)
    returns (r: Result<bool, Fault>)
    requires WellFormed(t)
    ensures r == Ok(true) <==> root.RootDirectory? && TreeMatches(hash, t, beyond, index, metadata)
    ensures r == Err(NoRoot) <==> |index| <= MAX_ENTRIES && root.RootMissing?
    ensures r == Err(NotPortable) <==> |index| <= MAX_ENTRIES && root.RootDirectory? && !AllPortable(index)
    ensures r == Err(Unreadable) <==>
            && |index| <= MAX_ENTRIES && root.RootDirectory? && AllPortable(index)
            && |t| <= MAX_ENTRIES + |metadata| && (forall p :: p in t ==> Expected(index, metadata, p))
            && FirstUnreadable(hash, t, beyond, index)
  {
    if |index| > MAX_ENTRIES {
      return Ok(false);
    }
    if root.RootMissing? {
      return Err(NoRoot);
    }
    if root.RootOther? {
      return Ok(false);
    }
    var expected := Expect(index, metadata);
    if expected.None? {
      return Err(NotPortable);
    }
    var within := Walk(t, expected.value, MAX_ENTRIES + |metadata|);
    if !within {
      return Ok(false);
    }
    ghost var first;
    r, first := CheckEntries(hash, t, beyond, index);
    FirstFailure(hash, t, beyond, index, first);
  }

  function StatOf(t: Tree, beyond: Path -> Stat, e: Entry): Stat
  {
    if Portable(e) then Lookup(t, beyond, PortablePath(e.path).value) else Missing
  }

  /** A path cannot be looked up, and every entry before it holds. */
  ghost predicate FirstUnreadable(hash: seq<byte> -> string, t: Tree, beyond: Path -> Stat, index: seq<Entry>)
  {
    exists i :: 0 <= i < |index| && StatOf(t, beyond, index[i]) == NotADirectory &&
                forall j :: 0 <= j < i ==> EntryHolds(hash, t, beyond, index[j])
  }

  lemma FirstFailure(hash: seq<byte> -> string, t: Tree, beyond: Path -> Stat, index: seq<Entry>, first: nat)
    requires first <= |index| && forall i :: 0 <= i < first ==> EntryHolds(hash, t, beyond, index[i])
    requires first < |index| ==> !EntryHolds(hash, t, beyond, index[first])
    ensures first == |index| <==> forall i :: 0 <= i < |index| ==> EntryHolds(hash, t, beyond, index[i])
    ensures FirstUnreadable(hash, t, beyond, index) <==>
            first < |index| && StatOf(t, beyond, index[first]) == NotADirectory
  {
  }

  method CheckEntries(hash: seq<byte> -> string, t: Tree, beyond: Path -> Stat,
                      index: seq<Entry>) returns (r: Result<bool, Fault>, ghost first: nat)
    requires AllPortable(index)
    ensures first <= |index| && forall i :: 0 <= i < first ==> EntryHolds(hash, t, beyond, index[i])
    ensures first < |index| ==> !EntryHolds(hash, t, beyond, index[first])
    ensures r == if first == |index| then Ok(true)
                 else if StatOf(t, beyond, index[first]) == NotADirectory then Err(Unreadable)
                 else Ok(false)
  {
    var i := 0;
    while i < |index|
      invariant 0 <= i <= |index|
      invariant forall j :: 0 <= j < i ==> EntryHolds(hash, t, beyond, index[j])
    {
      var e := index[i];
      var stat := StatOf(t, beyond, e);
      match stat {
        case Missing =>
          return Ok(false), i;
        case NotADirectory =>
          return Err(Unreadable), i;
        case Found(node) =>
          if !NodeMatches(hash, e, node) {
            return Ok(false), i;
          }
      }
      i := i + 1;
    }
    r, first := Ok(true), i;
  }
}
