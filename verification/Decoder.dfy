/** The mutable decoder: member by member into the index and the output tree, then the links. */
module Decoding {
  import opened Wrappers
  import opened Paths
  import opened Links
  import opened FileTree
  import opened Distribution

  // ----- what the output tree must look like -----

  /** A node carries what its index entry says; directory modes are settled last. */
  predicate Fits(hash: seq<byte> -> string, e: Entry, node: Node)
  {
    match e.kind
    case File => node.FileNode? && |node.content| == e.size && hash(node.content) == e.digest && node.mode == e.mode
    case Hardlink => node.FileNode? && |node.content| == e.size && hash(node.content) == e.digest && node.mode == e.mode
    case Directory => node.DirNode?
    case Symlink => node.LinkNode? && e.target == Some(node.target)
    case Special => false
  }

  /** Entries to be found in the tree. */
  type Plan = Index

  ghost predicate Covered(plan: Plan, p: Path)
  {
    p != [] && exists q :: q in plan && p <= q
  }

  /** The tree holds the planned entries with their parent directories, and nothing else. */
  ghost predicate Mirrors(hash: seq<byte> -> string, t: Tree, plan: Plan)
  {
    && [] !in plan
    && (forall p {:trigger Covered(plan, p)} :: p in t <==> Covered(plan, p))
    && (forall p :: p in plan ==> p in t && Fits(hash, plan[p], t[p]))
    && (forall p :: p in t && p !in plan ==> t[p].DirNode?)
  }

  /** Nothing that was there has changed. */
  ghost predicate Keeping(t: Tree, t': Tree)
  {
    forall q {:trigger t'[q]} {:trigger q in t'} {:trigger t[q]} :: q in t ==> q in t' && t'[q] == t[q]
  }

  // ----- the data behind the nodes -----

  /** File data by key. */
  type Store = map<Path, seq<byte>>

  /** The tree's files hold the stored data. */
  ghost predicate Stores(t: Tree, store: Store)
  {
    forall k :: k in store ==> k in t && t[k].FileNode? && t[k].content == store[k]
  }

  ghost predicate Grows(store: Store, store': Store)
  {
    forall k :: k in store ==> k in store' && store'[k] == store[k]
  }

  /** The data of every file entry, and of every hard link not in `todo` that of the file it ends at. */
  ghost predicate Stocked(m: Index, store: Store, todo: set<Path>)
  {
    && (forall k :: k in store <==> k in m && (m[k].kind.File? || (m[k].kind.Hardlink? && k !in todo)))
    && (forall k, q {:trigger EndsAt(m, k, q)} ::
          EndsAt(m, k, q) && m[k].kind.Hardlink? && k !in todo ==> store[k] == store[q])
  }

  function WithData(store: Store, x: Keyed, data: seq<byte>): Store
  {
    if x.entry.kind.File? then store[x.key := data] else store
  }

  lemma StockedMore(m: Index, store: Store, x: Keyed, data: seq<byte>)
    requires Stocked(m, store, LinkKeys(m)) && x.key !in m
    ensures Stocked(m[x.key := x.entry], WithData(store, x, data), LinkKeys(m[x.key := x.entry]))
  {
  }

  lemma DataKept(m: Index, store: Store, x: Keyed, data: seq<byte>)
    requires Stocked(m, store, LinkKeys(m)) && x.key !in m
    ensures Grows(store, WithData(store, x, data))
    ensures x.entry.kind.File? ==> HasData(WithData(store, x, data), x.key, data)
  {
  }

  predicate HasData(store: Store, key: Path, data: seq<byte>)
  {
    key in store && store[key] == data
  }

  lemma StockedStep(m: Index, store: Store, todo: set<Path>, k: Path, q: Path)
    requires Stocked(m, store, todo) && k in todo && EndsAt(m, k, q)
    requires forall p :: p in todo ==> p in m && IsLink(m[p])
    ensures m[k].kind.Hardlink? ==>
              q in store && Stocked(m, store[k := store[q]], todo - {k}) && Grows(store, store[k := store[q]])
    ensures !m[k].kind.Hardlink? ==> Stocked(m, store, todo - {k}) && Grows(store, store)
  {
    if m[k].kind.Hardlink? {
      var store' := store[k := store[q]];
      forall p, r | EndsAt(m, p, r) && m[p].kind.Hardlink? && p !in todo - {k}
        ensures store'[p] == store'[r]
      {
        if p == k {
          EndsOnce(m, k, q, r);
        }
      }
    }
  }

  lemma StoresMore(t: Tree, t': Tree, store: Store, k: Path, node: Node)
    requires Stores(t, store) && Keeping(t, t') && k in t' && t'[k] == node && node.FileNode?
    ensures Stores(t', store) && Stores(t', store[k := node.content])
  {
  }

  /** `t'` is `t` with the missing directories on the way to `p`. */
  ghost predicate DirsAdded(t: Tree, t': Tree, p: Path)
  {
    && Keeping(t, t')
    && (forall q :: q in t' <==> q in t || (q != [] && q <= p))
    && (forall q :: q in t' && q !in t ==> t'[q].DirNode?)
  }

  lemma DirsOnTheWay(hash: seq<byte> -> string, t: Tree, plan: Plan, p: Path, mode: nat)
    requires Mirrors(hash, t, plan)
    requires forall a :: a in plan && a <= p ==> plan[a].kind.Directory?
    ensures MakeDirs(t, p, mode).Some? && DirsAdded(t, MakeDirs(t, p, mode).value, p)
  {
    PrefixesAre(p);
    forall q | q in Prefixes(p) && q in t
      ensures t[q].DirNode?
    {
      if q in plan {
        assert Fits(hash, plan[q], t[q]);
      }
    }
  }

  lemma CoveredMore(plan: Plan, p: Path, e: Entry)
    ensures forall q :: Covered(plan[p := e], q) <==> Covered(plan, q) || (q != [] && q <= p)
  {
    forall q
      ensures Covered(plan[p := e], q) <==> Covered(plan, q) || (q != [] && q <= p)
    {
      if Covered(plan, q) {
        var x :| x in plan && q <= x;
        assert x in plan[p := e];
      }
      if q != [] && q <= p {
        assert p in plan[p := e];
      }
    }
  }

  /** Writing a file or a link never meets an existing node and never passes through a link. */
  lemma PlaceLeaf(hash: seq<byte> -> string, t: Tree, plan: Plan, p: Path, e: Entry, node: Node, mode: nat)
    requires Mirrors(hash, t, plan)
    requires p != [] && p !in plan && Fits(hash, e, node)
    requires forall a :: a in plan && a < p ==> plan[a].kind.Directory?
    requires forall b :: b in plan ==> !(p < b)
    ensures MakeDirs(t, ParentOf(p), mode).Some?
    ensures p !in MakeDirs(t, ParentOf(p), mode).value
    ensures Mirrors(hash, MakeDirs(t, ParentOf(p), mode).value[p := node], plan[p := e])
    ensures Keeping(t, MakeDirs(t, ParentOf(p), mode).value[p := node])
  {
    DirsOnTheWay(hash, t, plan, ParentOf(p), mode);
    LeafAdded(hash, t, MakeDirs(t, ParentOf(p), mode).value, plan, p, e, node);
  }

  lemma LeafAdded(hash: seq<byte> -> string, t: Tree, t1: Tree, plan: Plan, p: Path, e: Entry, node: Node)
    requires Mirrors(hash, t, plan)
    requires p != [] && p !in plan && Fits(hash, e, node)
    requires forall b :: b in plan ==> !(p < b)
    requires DirsAdded(t, t1, ParentOf(p))
    ensures p !in t1 && Keeping(t, t1[p := node]) && Mirrors(hash, t1[p := node], plan[p := e])
  {
    assert !Covered(plan, p) by {
      forall b | b in plan && p <= b
        ensures false
      {
        ProperPrefix(p, b);
      }
    }
    var t2 := t1[p := node];
    CoveredMore(plan, p, e);
    forall q
      ensures q in t2 <==> Covered(plan[p := e], q)
    {
      assert q in t <==> Covered(plan, q);
      if q != [] && q <= p && q != p {
        assert q <= ParentOf(p);
      }
    }
  }

  lemma PlaceDir(hash: seq<byte> -> string, t: Tree, plan: Plan, p: Path, e: Entry, mode: nat)
    requires Mirrors(hash, t, plan)
    requires p != [] && p !in plan && e.kind.Directory?
    requires forall a :: a in plan && a < p ==> plan[a].kind.Directory?
    ensures MakeDirs(t, p, mode).Some?
    ensures Mirrors(hash, MakeDirs(t, p, mode).value, plan[p := e])
    ensures Keeping(t, MakeDirs(t, p, mode).value)
  {
    forall a | a in plan && a <= p
      ensures a < p
    {
      ProperPrefix(a, p);
    }
    DirsOnTheWay(hash, t, plan, p, mode);
    DirAdded(hash, t, MakeDirs(t, p, mode).value, plan, p, e);
  }

  lemma DirAdded(hash: seq<byte> -> string, t: Tree, t1: Tree, plan: Plan, p: Path, e: Entry)
    requires Mirrors(hash, t, plan)
    requires p != [] && p !in plan && e.kind.Directory? && DirsAdded(t, t1, p)
    ensures Mirrors(hash, t1, plan[p := e])
  {
    CoveredMore(plan, p, e);
    forall q
      ensures q in t1 <==> Covered(plan[p := e], q)
    {
      assert q in t <==> Covered(plan, q);
    }
    assert t1[p].DirNode?;
  }

  lemma MirrorsWellFormed(hash: seq<byte> -> string, t: Tree, plan: Plan)
    requires Mirrors(hash, t, plan) && TreeShaped(plan)
    ensures WellFormed(t)
  {
    forall p | p in t
      ensures p != [] && IsDir(t, ParentOf(p))
    {
      assert Covered(plan, p);
      var q :| q in plan && p <= q;
      var d := ParentOf(p);
      if d != [] {
        assert d <= q && d != q;
        assert Covered(plan, d);
        if d in plan {
          assert Fits(hash, plan[d], t[d]);
        }
      }
    }
  }

  // ----- settled links -----

  /** Every link chain ends at a present entry that is no link, and a hard link's at a file. */
  ghost predicate Resolvable(m: Index)
  {
    forall k {:trigger HasEnd(m, k)} :: k in m && IsLink(m[k]) ==> HasEnd(m, k)
  }

  ghost predicate EndsAt(m: Index, k: Path, q: Path)
  {
    k in m && q in m && Reaches(LinkGraph(m), k, q) && (m[k].kind.Hardlink? ==> m[q].kind.File?)
  }

  function Settle(e: Entry, source: Entry): Entry
  {
    e.(size := source.size, digest := source.digest, mode := source.mode)
  }

  lemma EndsOnce(m: Index, k: Path, q: Path, r: Path)
    requires EndsAt(m, k, q) && EndsAt(m, k, r)
    ensures q == r
  {
    ReachesOne(LinkGraph(m), k, q, r);
  }

  /** Hard links carry the size, digest and mode of the file at the end of their chain. */
  ghost function Final(m: Index): (f: Index)
    ensures f.Keys == m.Keys
    ensures forall k :: k in m ==> f[k].kind == m[k].kind && f[k].path == m[k].path && f[k].target == m[k].target
    ensures forall k :: k in m && !m[k].kind.Hardlink? ==> f[k] == m[k]
  {
    map k | k in m ::
      if m[k].kind.Hardlink? && exists q :: EndsAt(m, k, q) then
        var q :| EndsAt(m, k, q);
        Settle(m[k], m[q])
      else m[k]
  }

  /** `f` is `m` with its hard links filled in; every chain end decides the same contents. */
  ghost predicate Settled(m: Index, f: Index)
  {
    && f.Keys == m.Keys
    && (forall k :: k in m ==> f[k].kind == m[k].kind && f[k].path == m[k].path && f[k].target == m[k].target)
    && (forall k :: k in m && !m[k].kind.Hardlink? ==> f[k] == m[k])
    && (forall k, q {:trigger EndsAt(m, k, q)} :: EndsAt(m, k, q) && m[k].kind.Hardlink? ==> f[k] == Settle(m[k], m[q]))
  }

  lemma FinalSettles(m: Index)
    ensures Settled(m, Final(m))
  {
    var f := Final(m);
    forall k, q | EndsAt(m, k, q) && m[k].kind.Hardlink?
      ensures f[k] == Settle(m[k], m[q])
    {
      var r :| EndsAt(m, k, r) && f[k] == Settle(m[k], m[r]);
      EndsOnce(m, k, q, r);
    }
  }

  /** The returned index: the entries in the byte order of their paths. */
  ghost function Values(m: Index): (es: seq<Entry>)
    requires AllGood(m.Keys)
    ensures |es| == |m|
    ensures forall i :: 0 <= i < |m| ==> Sorted(m.Keys)[i] in m && es[i] == m[Sorted(m.Keys)[i]]
  {
    var ks := Sorted(m.Keys);
    assert forall i :: 0 <= i < |ks| ==> ks[i] in ks;
    seq(|ks|, i requires 0 <= i < |ks| => m[ks[i]])
  }

  /** Reads a member in pieces of at most 64 KiB; short or long data is an error. */
  method CopyData(data: seq<byte>, size: nat) returns (copied: Option<seq<byte>>)
    ensures copied == if |data| == size then Some(data) else None
  {
    var count := 0;
    var content: seq<byte> := [];
    while count < |data|
      invariant 0 <= count <= |data| && count <= size
      invariant content == data[..count]
    {
      var read :| 1 <= read <= 65536 && count + read <= |data|;
      content := content + data[count..count + read];
      count := count + read;
      if count > size {
        return None;
      }
    }
    assert data[..count] == data;
    copied := if count == size then Some(content) else None;
  }

  function Ordinary(m: Index): Plan
  {
    map k | k in m && !IsLink(m[k]) :: m[k]
  }

  lemma OrdinaryMore(m: Index, x: Keyed)
    requires x.key !in m
    ensures Ordinary(m[x.key := x.entry]) == if IsLink(x.entry) then Ordinary(m) else Ordinary(m)[x.key := x.entry]
  {
  }

  // ----- settling links, key by key -----

  function LinkKeys(m: Index): set<Path>
  {
    set k | k in m && IsLink(m[k])
  }

  /** What the output must hold while the links `todo` are still missing. */
  ghost function Partial(m: Index, f: Index, todo: set<Path>): Plan
    requires f.Keys == m.Keys
  {
    map k | k in m && k !in todo :: f[k]
  }

  lemma PartialEnds(m: Index, f: Index)
    requires Settled(m, f)
    ensures Partial(m, f, LinkKeys(m)) == Ordinary(m)
    ensures Partial(m, f, {}) == f
  {
  }

  lemma PartialStep(m: Index, f: Index, todo: set<Path>, k: Path)
    requires f.Keys == m.Keys && todo <= m.Keys && k in todo
    ensures Partial(m, f, todo - {k}) == Partial(m, f, todo)[k := f[k]]
  {
  }

  /** A link resolved from its destination ends where its own chain ends. */
  lemma FromDestination(m: Index, k: Path)
    requires LinksParse(m) && k in m && IsLink(m[k])
    ensures forall q :: Reaches(LinkGraph(m), k, q) <==> Reaches(LinkGraph(m), Next(k, m[k]).value, q)
  {
    ReachesNext(LinkGraph(m), k);
  }

  ghost predicate HasEnd(m: Index, k: Path)
  {
    exists q :: EndsAt(m, k, q)
  }

  /** Every link settled so far has an end, and exactly the hard links among them have contents. */
  ghost predicate Progress(m: Index, f: Index, todo: set<Path>, contents: map<Path, Entry>)
    requires f.Keys == m.Keys
  {
    && (forall k {:trigger HasEnd(m, k)} :: k in m && IsLink(m[k]) && k !in todo ==> HasEnd(m, k))
    && (forall k :: k in contents <==> k in m && m[k].kind.Hardlink? && k !in todo)
    && (forall k :: k in contents ==> contents[k] == f[k])
  }

  lemma ProgressStep(m: Index, f: Index, todo: set<Path>, contents: map<Path, Entry>, k: Path, content: Option<Entry>)
    requires f.Keys == m.Keys && Progress(m, f, todo, contents)
    requires k in todo && k in m && HasEnd(m, k)
    requires content == if m[k].kind.Hardlink? then Some(f[k]) else None
    ensures Progress(m, f, todo - {k}, if content.Some? then contents[k := content.value] else contents)
  {
  }

  lemma ProgressDone(m: Index, f: Index, contents: map<Path, Entry>)
    requires Settled(m, f) && Progress(m, f, {}, contents)
    ensures m + contents == f && Resolvable(m)
  {
  }

  /** The output, if there is one, holds the planned entries with the stored data. */
  ghost predicate Holding(hash: seq<byte> -> string, tree: Option<Tree>, plan: Plan, store: Store)
  {
    tree.Some? ==> Mirrors(hash, tree.value, plan) && Stores(tree.value, store)
  }

  lemma HoldingMore(hash: seq<byte> -> string, tree: Option<Tree>, m: Index, store: Store, x: Keyed, data: seq<byte>)
    requires x.key !in m
    requires Holding(hash, tree, if IsLink(x.entry) then Ordinary(m) else Ordinary(m)[x.key := x.entry], WithData(store, x, data))
    ensures Holding(hash, tree, Ordinary(m[x.key := x.entry]), WithData(store, x, data))
  {
    OrdinaryMore(m, x);
  }

  /** The key and data of a file below the archive root. */
  function FileKey(raw: Raw): Option<Path>
  {
    if raw.kind.File? && Strip(raw.name).Some? then Strip(raw.name).value.key else None
  }

  predicate KeepsData(store: Store, raw: Raw)
  {
    FileKey(raw).Some? ==> HasData(store, FileKey(raw).value, raw.data)
  }

  ghost predicate Complete(hash: seq<byte> -> string, t: Tree, m: Index)
  {
    && Mirrors(hash, t, m)
    && forall k :: k in m && m[k].kind.Directory? ==> t[k] == DirNode(m[k].mode)
  }

  ghost function InsertOption(s: State, item: Option<Item>): Option<State>
  {
    if item.None? then None else Insert(s, item.value)
  }

  lemma ItemAt(hash: seq<byte> -> string, s: State, raw: Raw, target: Option<string>, root: string, key: Path)
    requires Strip(raw.name) == Some(Stripped(root, Some(key)))
    requires s.root.Some? ==> s.root.value == root
    ensures var e := MakeEntry(hash, key, raw, target);
            InsertOption(s, ItemFor(hash, raw, target)) ==
            if GoodBody(key, raw, target) && |s.entries| < MAX_ENTRIES && Fresh(s.entries, Keyed(key, e)) && s.bytes + e.size <= MAX_BYTES
            then Some(State(s.entries[key := e], Some(root), s.bytes + e.size)) else None
  {
    var e := MakeEntry(hash, key, raw, target);
    assert ItemFor(hash, raw, target) == if GoodBody(key, raw, target) then Some(Item(root, Some(Keyed(key, e)))) else None;
    EntryInserted(s, root, Keyed(key, e));
  }

  lemma MadeKeyed(hash: seq<byte> -> string, key: Path, raw: Raw, target: Option<string>)
    requires GoodNames(key) && GoodBody(key, raw, target)
    ensures GoodKeyed(Keyed(key, MakeEntry(hash, key, raw, target)))
  {
  }

  lemma EntryInserted(s: State, root: string, x: Keyed)
    requires s.root.Some? ==> s.root.value == root
    ensures Insert(s, Item(root, Some(x))) ==
            if |s.entries| < MAX_ENTRIES && Fresh(s.entries, x) && s.bytes + x.entry.size <= MAX_BYTES
            then Some(State(s.entries[x.key := x.entry], Some(root), s.bytes + x.entry.size)) else None
  {
  }

  lemma RootFirst(s: State, item: Item, root: string)
    ensures Insert(s.(root := Some(root)), item) ==
            if item.root != root then None
            else if s.root.Some? && s.root.value != root then Insert(s.(root := None), item)
            else Insert(s, item)
  {
  }

  lemma ParseHardlink(hash: seq<byte> -> string, raw: Raw, link: Stripped)
    requires raw.kind.Hardlink? && Strip(if raw.target.Some? then raw.target.value else "") == Some(link)
    ensures link.key.None? ==> Parse(hash, raw).None?
    ensures link.key.Some? ==>
              var item := ItemFor(hash, raw, Some(Join(link.key.value)));
              Parse(hash, raw) == if item.Some? && item.value.root == link.root then item else None
  {
    var name := Strip(raw.name);
    if name.Some? {
      assert StripTarget(raw, name.value.root) ==
             if link.root == name.value.root && link.key.Some? then Some(Some(Join(link.key.value))) else None;
    }
  }

  lemma PlainStep(hash: seq<byte> -> string, s: State, raw: Raw)
    ensures !raw.kind.Hardlink? ==> Step(Parser(hash), Some(s), raw) == InsertOption(s, ItemFor(hash, raw, raw.target))
    ensures raw.kind.Hardlink? && Strip(if raw.target.Some? then raw.target.value else "").None? ==>
              Step(Parser(hash), Some(s), raw).None?
  {
    var parsed := Parse(hash, raw);
    assert Parser(hash)(raw) == parsed;
  }

  /** Stripping a hard link's target first is the same as requiring its root to agree with the name's. */
  lemma HardlinkStep(hash: seq<byte> -> string, s: State, raw: Raw, link: Stripped)
    requires raw.kind.Hardlink? && Strip(if raw.target.Some? then raw.target.value else "") == Some(link)
    ensures Step(Parser(hash), Some(s), raw) ==
            if (s.root.Some? && s.root.value != link.root) || link.key.None? then None
            else InsertOption(s.(root := Some(link.root)), ItemFor(hash, raw, Some(Join(link.key.value))))
  {
    ParseHardlink(hash, raw, link);
    var parsed := Parse(hash, raw);
    assert Parser(hash)(raw) == parsed;
    if link.key.Some? {
      var item := ItemFor(hash, raw, Some(Join(link.key.value)));
      if item.Some? {
        RootFirst(s, item.value, link.root);
      }
    }
  }

  method Pick(m: Index, ks: seq<Path>, ghost all: seq<Links.Entry>) returns (index: seq<Links.Entry>)
    requires |ks| == |all| && forall i :: 0 <= i < |ks| ==> ks[i] in m && m[ks[i]] == all[i]
    ensures index == all
  {
    index := [];
    for i := 0 to |ks|
      invariant index == all[..i]
    {
      index := index + [m[ks[i]]];
    }
  }

  class Decoder {
    const hash: seq<byte> -> string
    const dirMode: nat
    var entries: Index
    var root: Option<string>
    var bytes: nat
    var output: Option<Tree>
    ghost var store: Store

    ghost function View(): State
      reads this
    {
      State(entries, root, bytes)
    }

    /** The index is a tree within its limits, and the output holds its files and directories. */
    ghost predicate Valid()
      reads this
    {
      && Shape(entries) && |entries| <= MAX_ENTRIES && bytes <= MAX_BYTES
      && Holding(hash, output, Ordinary(entries), store) && Stocked(entries, store, LinkKeys(entries))
    }

    constructor (hash: seq<byte> -> string, dirMode: nat, extract: bool)
      ensures Valid() && View() == EMPTY && this.hash == hash && this.dirMode == dirMode
      ensures output == if extract then Some(map[]) else None
    {
      this.hash := hash;
      this.dirMode := dirMode;
      entries := map[];
      root := None;
      bytes := 0;
      output := if extract then Some(map[]) else None;
      store := map[];
    }

    /** The ancestor check: no indexed proper ancestor may be anything but a directory. */
    method AncestorsAllow(key: Path) returns (ok: bool)
      ensures ok <==> forall a :: a in entries && a != [] && a < key ==> entries[a].kind.Directory?
    {
      var i := |key| - 1;
      while i > 0
        invariant i < |key|
        invariant forall j :: 0 < j && i < j < |key| && key[..j] in entries ==> entries[key[..j]].kind.Directory?
      {
        if key[..i] in entries && !entries[key[..i]].kind.Directory? {
          assert key[..i] < key;
          return false;
        }
        i := i - 1;
      }
      forall a | a in entries && a != [] && a < key
        ensures entries[a].kind.Directory?
      {
        assert a == key[..|a|];
      }
      ok := true;
    }

    /** The descendant check, as the source makes it: a string prefix test on every key. */
    method NothingBeneath(key: Path) returns (ok: bool)
      requires GoodNames(key) && AllGood(entries.Keys)
      ensures ok <==> forall b :: b in entries ==> !(key < b)
    {
      ok := !exists b :: b in entries && Join(key) + "/" <= Join(b);
      forall b | b in entries
        ensures Join(key) + "/" <= Join(b) <==> key < b
      {
        DescendantTest(key, b);
      }
    }

    /** Adds a checked entry; `output` already holds it unless it is a link. */
    method Record(x: Keyed, ghost data: seq<byte>)
      requires Shape(entries) && |entries| < MAX_ENTRIES && bytes <= MAX_BYTES
      requires Fresh(entries, x) && GoodKeyed(x)
      requires Stocked(entries, store, LinkKeys(entries))
      requires Holding(hash, output, if IsLink(x.entry) then Ordinary(entries) else Ordinary(entries)[x.key := x.entry],
                       WithData(store, x, data))
      modifies this`entries, this`store
      ensures entries == old(entries)[x.key := x.entry] && Valid()
      ensures Grows(old(store), store) && (x.entry.kind.File? ==> HasData(store, x.key, data))
    {
      ShapeMore(entries, x);
      HoldingMore(hash, output, entries, store, x, data);
      StockedMore(entries, store, x, data);
      DataKept(entries, store, x, data);
      entries := entries[x.key := x.entry];
      store := WithData(store, x, data);
    }

    /** Writes a file or directory below the output root; no step of it can fail. */
    method Write(x: Keyed, content: seq<byte>)
      requires output.Some? && Holding(hash, output, Ordinary(entries), store)
      requires Fresh(entries, x) && x.key != []
      requires x.entry.kind.Directory? || (x.entry.kind.File? && Fits(hash, x.entry, FileNode(content, x.entry.mode)))
      modifies this`output
      ensures output.Some? && Holding(hash, output, Ordinary(entries)[x.key := x.entry], WithData(store, x, content))
    {
      ghost var t := output.value;
      ghost var plan := Ordinary(entries);
      if x.entry.kind.Directory? {
        PlaceDir(hash, output.value, plan, x.key, x.entry, dirMode);
        output := MakeDirs(output.value, x.key, dirMode);
      } else {
        var node := FileNode(content, x.entry.mode);
        PlaceLeaf(hash, output.value, plan, x.key, x.entry, node, dirMode);
        var dirs := MakeDirs(output.value, ParentOf(x.key), dirMode);
        output := Some(dirs.value[x.key := node]);
        StoresMore(t, output.value, store, x.key, node);
      }
    }

    /** One archive member, in the order of the source's checks. */
    method Entry(raw: Raw, target: Option<string>) returns (ok: bool)
      requires Valid()
      modifies this
      ensures ok <==> InsertOption(old(View()), ItemFor(hash, raw, target)).Some?
      ensures ok ==> Valid() && View() == InsertOption(old(View()), ItemFor(hash, raw, target)).value
      ensures ok ==> output.Some? == old(output).Some? && Grows(old(store), store) && KeepsData(store, raw)
    {
      var name := Strip(raw.name);
      if name.None? || (root.Some? && root.value != name.value.root) {
        return false;
      }
      root := Some(name.value.root);
      if name.value.key.None? {
        return raw.kind.Directory?;
      }
      StripGivesKeys(raw.name);
      var key := name.value.key.value;
      ItemAt(hash, old(View()), raw, target, name.value.root, key);
      ok := EntryAt(Keyed(key, MakeEntry(hash, key, raw, target)), raw, target);
    }

    /** Limit, duplicate, ancestor and descendant checks. */
    method Admits(key: Path, directory: bool) returns (ok: bool)
      requires AllGood(entries.Keys) && GoodNames(key)
      ensures ok <==>
                && |entries| < MAX_ENTRIES && key !in entries
                && (forall a :: a in entries && a < key ==> entries[a].kind.Directory?)
                && (!directory ==> forall b :: b in entries ==> !(key < b))
    {
      if |entries| >= MAX_ENTRIES || key in entries {
        return false;
      }
      var allowed := AncestorsAllow(key);
      if !allowed {
        return false;
      }
      ok := true;
      if !directory {
        ok := NothingBeneath(key);
      }
    }

    /** The part of `entry` that depends on the kind: sizes and data, or the link target. */
    method Content(x: Keyed, raw: Raw, target: Option<string>) returns (ok: bool)
      requires Holding(hash, output, Ordinary(entries), store) && bytes <= MAX_BYTES
      requires Fresh(entries, x) && x.key != [] && x.entry == MakeEntry(hash, x.key, raw, target)
      modifies this`bytes, this`output
      ensures ok <==> GoodBody(x.key, raw, target) && old(bytes) + x.entry.size <= MAX_BYTES
      ensures output.Some? == old(output).Some?
      ensures ok ==> bytes == old(bytes) + x.entry.size
      ensures ok ==> Holding(hash, output, if IsLink(x.entry) then Ordinary(entries) else Ordinary(entries)[x.key := x.entry],
                             WithData(store, x, raw.data))
    {
      if raw.kind.File? {
        if bytes + raw.size >= U64_LIMIT {
          return false;
        }
        bytes := bytes + raw.size;
        if bytes > MAX_BYTES {
          return false;
        }
        var copied := CopyData(raw.data, raw.size);
        if copied.None? {
          return false;
        }
        if output.Some? {
          Write(x, copied.value);
        }
      } else if raw.kind.Directory? {
        if output.Some? {
          Write(x, []);
        }
      } else if raw.kind.Symlink? || raw.kind.Hardlink? {
        if target.None? {
          return false;
        }
        var d := LinkDestination(x.key, target.value, raw.kind.Hardlink?);
        if d.None? {
          return false;
        }
      } else {
        return false;
      }
      ok := true;
    }

    method EntryAt(x: Keyed, raw: Raw, target: Option<string>) returns (ok: bool)
      requires Valid() && GoodNames(x.key) && x.entry == MakeEntry(hash, x.key, raw, target)
      modifies this
      ensures ok <==>
                && GoodBody(x.key, raw, target)
                && old(|entries|) < MAX_ENTRIES
                && Fresh(old(entries), x)
                && old(bytes) + x.entry.size <= MAX_BYTES
      ensures ok ==> Valid() && root == old(root) && output.Some? == old(output).Some?
      ensures ok ==> entries == old(entries)[x.key := x.entry] && bytes == old(bytes) + x.entry.size
      ensures ok ==> Grows(old(store), store) && (x.entry.kind.File? ==> HasData(store, x.key, raw.data))
    {
      ShapeFacts(entries);
      var allowed := Admits(x.key, raw.kind.Directory?);
      if !allowed {
        return false;
      }
      var good := Content(x, raw, target);
      if !good {
        return false;
      }
      MadeKeyed(hash, x.key, raw, target);
      Record(x, raw.data);
      ok := true;
    }

    /** Creates one settled link in the output tree; its place is free and its parents are directories. */
    method PlaceLink(t: Tree, k: Path, resolved: Path, ghost plan: Plan, ghost e: Entry, ghost data: Store)
      returns (t': Tree)
      requires TreeShaped(entries) && k in entries && k != [] && IsLink(entries[k]) && entries[k].target.Some?
      requires Mirrors(hash, t, plan) && Stores(t, data)
      requires k !in plan && plan.Keys <= entries.Keys
      requires forall a :: a in plan ==> plan[a].kind == entries[a].kind
      requires e.kind == entries[k].kind && e.target == entries[k].target
      requires e.kind.Hardlink? ==>
                 && resolved in plan && plan[resolved].kind.File?
                 && e == Settle(entries[k], plan[resolved])
                 && resolved in data
      ensures Mirrors(hash, t', plan[k := e])
      ensures Stores(t', if e.kind.Hardlink? then data[k := data[resolved]] else data)
    {
      var node: Node;
      if entries[k].kind.Hardlink? {
        assert Fits(hash, plan[resolved], t[resolved]);
        node := t[resolved];
      } else {
        node := LinkNode(entries[k].target.value);
      }
      assert forall a :: a in plan && a < k ==> a in entries;
      PlaceLeaf(hash, t, plan, k, e, node, dirMode);
      var dirs := MakeDirs(t, ParentOf(k), dirMode);
      t' := dirs.value[k := node];
      if node.FileNode? {
        StoresMore(t, t', data, k, node);
      }
    }

    /** Where a link's chain ends, or None when it ends nowhere acceptable. */
    method EndOf(k: Path) returns (end: Option<Path>)
      requires LinksParse(entries) && k in entries && IsLink(entries[k])
      ensures end.Some? ==> EndsAt(entries, k, end.value)
      ensures end.None? ==> forall q :: !EndsAt(entries, k, q)
    {
      FromDestination(entries, k);
      var destination := LinkDestination(k, entries[k].target.value, entries[k].kind.Hardlink?);
      var resolved := Resolve(entries, destination.value);
      if resolved.Err? {
        return None;
      }
      if entries[k].kind.Hardlink? && !entries[resolved.value].kind.File? {
        OnlyEnd(entries, k, resolved.value);
        return None;
      }
      end := Some(resolved.value);
    }

    /** One link: resolve its chain, create it, and report a hard link's contents. */
    method SettleOne(tree: Option<Tree>, k: Path, ghost todo: set<Path>, ghost f: Index, ghost data: Store)
      returns (ok: bool, content: Option<Entry>, tree': Option<Tree>, ghost data': Store)
      requires TreeShaped(entries) && LinksParse(entries) && Settled(entries, f)
      requires todo <= entries.Keys && k in todo && k != [] && IsLink(entries[k])
      requires forall q :: q in todo ==> IsLink(entries[q])
      requires Holding(hash, tree, Partial(entries, f, todo), data) && Stocked(entries, data, todo)
      ensures ok <==> HasEnd(entries, k)
      ensures tree'.Some? == tree.Some?
      ensures ok ==> content == if entries[k].kind.Hardlink? then Some(f[k]) else None
      ensures ok ==> Holding(hash, tree', Partial(entries, f, todo - {k}), data')
      ensures ok ==> Stocked(entries, data', todo - {k}) && Grows(data, data')
    {
      PartialStep(entries, f, todo, k);
      content, tree', data' := None, tree, data;
      var end := EndOf(k);
      if end.None? {
        return false, None, tree, data;
      }
      assert EndsAt(entries, k, end.value);
      StockedStep(entries, data, todo, k, end.value);
      if entries[k].kind.Hardlink? {
        content := Some(Settle(entries[k], entries[end.value]));
        data' := data[k := data[end.value]];
      }
      if tree.Some? {
        var t := PlaceLink(tree.value, k, end.value, Partial(entries, f, todo), f[k], data);
        tree' := Some(t);
      }
      ok := true;
    }

    /** The loop over the links in key order: resolves every chain and collects the hard links' contents. */
    method SettleLinks(ghost f: Index) returns (r: Option<map<Path, Entry>>, tree: Option<Tree>, ghost data: Store)
      requires TreeShaped(entries) && LinksParse(entries) && AllGood(LinkKeys(entries)) && Settled(entries, f)
      requires Holding(hash, output, Partial(entries, f, LinkKeys(entries)), store)
      requires Stocked(entries, store, LinkKeys(entries))
      ensures r.Some? <==> Resolvable(entries)
      ensures tree.Some? == output.Some?
      ensures r.Some? ==> entries + r.value == f
      ensures r.Some? ==> Holding(hash, tree, Partial(entries, f, {}), data)
      ensures r.Some? ==> Stocked(entries, data, {}) && Grows(store, data)
    {
      var contents: map<Path, Entry> := map[];
      var todo := LinkKeys(entries);
      tree, data := output, store;
      while todo != {}
        invariant todo <= LinkKeys(entries)
        invariant tree.Some? == output.Some?
        invariant Progress(entries, f, todo, contents)
        invariant Holding(hash, tree, Partial(entries, f, todo), data)
        invariant Stocked(entries, data, todo) && Grows(store, data)
        decreases todo
      {
        var k := TakeLeast(todo);
        var ok, content, tree';
        ghost var data';
        ok, content, tree', data' := SettleOne(tree, k, todo, f, data);
        if !ok {
          return None, tree, data;
        }
        ProgressStep(entries, f, todo, contents, k, content);
        if content.Some? {
          contents := contents[k := content.value];
        }
        tree, data := tree', data';
        todo := todo - {k};
      }
      ProgressDone(entries, f, contents);
      r := Some(contents);
    }

    /** Directory modes, deepest keys first. */
    method SetModes(ks: seq<Path>)
      requires output.Some? && Holding(hash, output, entries, store) && forall k :: k in ks <==> k in entries
      modifies this`output
      ensures output.Some? && Complete(hash, output.value, entries) && Stores(output.value, store)
    {
      var i := |ks|;
      while i > 0
        invariant 0 <= i <= |ks|
        invariant output.Some? && Holding(hash, output, entries, store)
        invariant forall j :: i <= j < |ks| && entries[ks[j]].kind.Directory? ==> output.value[ks[j]] == DirNode(entries[ks[j]].mode)
      {
        i := i - 1;
        var k := ks[i];
        assert k in ks;
        if entries[k].kind.Directory? {
          ghost var t := output.value;
          output := Some(output.value[k := DirNode(entries[k].mode)]);
          ModeChange(hash, t, entries, k);
        }
      }
    }

    /** A tar member: a hard link's target loses the archive root first. */
    method Member(raw: Raw) returns (ok: bool)
      requires Valid()
      modifies this
      ensures ok <==> Step(Parser(hash), Some(old(View())), raw).Some?
      ensures ok ==> Valid() && View() == Step(Parser(hash), Some(old(View())), raw).value
      ensures ok ==> output.Some? == old(output).Some? && Grows(old(store), store) && KeepsData(store, raw)
    {
      var target := raw.target;
      PlainStep(hash, View(), raw);
      if raw.kind.Hardlink? {
        var link := Strip(if raw.target.Some? then raw.target.value else "");
        if link.None? {
          return false;
        }
        HardlinkStep(hash, View(), raw, link.value);
        if root.Some? && root.value != link.value.root {
          return false;
        }
        root := Some(link.value.root);
        if link.value.key.None? {
          return false;
        }
        target := Some(Join(link.value.key.value));
      }
      ok := Entry(raw, target);
    }

    method Collect(ks: seq<Path>) returns (index: seq<Links.Entry>)
      requires AllGood(entries.Keys) && ks == Sorted(entries.Keys)
      ensures index == Values(entries)
    {
      ghost var all := Values(entries);
      assert forall i :: 0 <= i < |ks| ==> ks[i] in ks;
      index := Pick(entries, ks, all);
    }

    method Finish() returns (r: Option<seq<Links.Entry>>)
      requires Valid()
      modifies this
      ensures r.Some? <==> Resolvable(old(entries))
      ensures r.Some? ==> entries == Final(old(entries)) && AllGood(entries.Keys) && r.value == Values(entries)
      ensures r.Some? ==> output.Some? == old(output).Some?
      ensures r.Some? && output.Some? ==> Complete(hash, output.value, entries) && Stores(output.value, store)
      ensures r.Some? ==> Stocked(old(entries), store, {}) && Grows(old(store), store)
    {
      ShapeFacts(entries);
      var ks := KeyOrder(entries.Keys);
      ghost var f := Final(entries);
      FinalSettles(entries);
      PartialEnds(entries, f);
      var contents, tree;
      ghost var data;
      contents, tree, data := SettleLinks(f);
      if contents.None? {
        return None;
      }
      output, store := tree, data;
      entries := entries + contents.value;
      if output.Some? {
        SetModes(ks);
      }
      var index := Collect(ks);
      r := Some(index);
    }
  }

  lemma OnlyEnd(m: Index, k: Path, q: Path)
    requires k in m && m[k].kind.Hardlink? && Reaches(LinkGraph(m), k, q) && !m[q].kind.File?
    ensures forall r :: !EndsAt(m, k, r)
  {
    forall r
      ensures !EndsAt(m, k, r)
    {
      if EndsAt(m, k, r) {
        ReachesOne(LinkGraph(m), k, q, r);
      }
    }
  }

  lemma ModeChange(hash: seq<byte> -> string, t: Tree, plan: Plan, k: Path)
    requires Mirrors(hash, t, plan) && k in plan && plan[k].kind.Directory?
    ensures Mirrors(hash, t[k := DirNode(plan[k].mode)], plan)
    ensures forall store :: Stores(t, store) ==> Stores(t[k := DirNode(plan[k].mode)], store)
  {
    var t' := t[k := DirNode(plan[k].mode)];
    assert t'.Keys == t.Keys;
  }
}
