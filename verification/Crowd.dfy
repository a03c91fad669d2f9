/** An archive within every limit of decoding whose tree is too large to be validated. */
module Crowds {
  import opened Wrappers
  import opened Paths
  import opened Links
  import opened FileTree
  import opened Distribution
  import opened Decoding
  import opened Archives
  import opened RoundTrip

  predicate Distinct(names: seq<string>)
  {
    forall i, j :: 0 <= i < j < |names| ==> names[i] != names[j]
  }

  /** An empty file `f` in each of these directories, none of which is a member itself. */
  function Crowd(dirs: seq<string>): seq<Raw>
  {
    seq(|dirs|, i requires 0 <= i < |dirs| => Raw(Join(["r", dirs[i], "f"]), File, 420, 0, None, []))
  }

  /** An empty file `f` directly in this directory. */
  predicate IsFile(e: Keyed, dir: string)
  {
    e.key == [dir, "f"] && e.entry.kind.File? && e.entry.size == 0
  }

  predicate FileItem(item: Option<Item>, dir: string)
  {
    item.Some? && item.value.root == "r" && item.value.entry.Some? && IsFile(item.value.entry.value, dir)
  }

  lemma {:induction false} JoinLast(ns: seq<string>)
    requires ns != [] && ns[|ns| - 1] != ""
    ensures Join(ns) != "" && Join(ns)[|Join(ns)| - 1] == ns[|ns| - 1][|ns[|ns| - 1]| - 1]
  {
    if |ns| > 1 {
      JoinLast(ns[1..]);
    }
  }

  lemma StripPath(dir: string)
    requires GoodName(dir)
    ensures Strip(Join(["r", dir, "f"])) == Some(Stripped("r", Some([dir, "f"])))
  {
    var names := ["r", dir, "f"];
    PortableKey(names);
    JoinLast(names);
    assert TrimEnd(Join(names)) == Join(names);
    assert names[1..] == [dir, "f"];
  }

  lemma CrowdParses(hash: seq<byte> -> string, dirs: seq<string>, i: nat)
    requires i < |dirs| && GoodName(dirs[i])
    ensures FileItem(Parser(hash)(Crowd(dirs)[i]), dirs[i])
  {
    StripPath(dirs[i]);
    FileParses(hash, Crowd(dirs)[i], [dirs[i], "f"]);
  }

  lemma FileParses(hash: seq<byte> -> string, raw: Raw, key: Path)
    requires raw.kind.File? && raw.data == [] && raw.size == 0 && raw.target.None?
    requires Strip(raw.name) == Some(Stripped("r", Some(key)))
    ensures var item := Parser(hash)(raw);
            && item.Some? && item.value.root == "r" && item.value.entry.Some?
            && item.value.entry.value.key == key && item.value.entry.value.entry.kind.File? && item.value.entry.value.entry.size == 0
  {
    assert Parse(hash, raw) == ItemFor(hash, raw, None);
  }

  /** When every item brings an entry, the entries are these in order. */
  lemma {:induction false} AllPresent(items: seq<Item>)
    requires forall i :: 0 <= i < |items| ==> items[i].entry.Some?
    ensures |EntriesOf(items)| == |items| && forall i :: 0 <= i < |items| ==> EntriesOf(items)[i] == items[i].entry.value
    decreases |items|
  {
    if items != [] {
      AllPresent(items[..|items| - 1]);
    }
  }

  lemma {:induction false} NoSize(es: seq<Keyed>)
    requires forall i :: 0 <= i < |es| ==> es[i].entry.size == 0
    ensures TotalSize(es) == 0
    decreases |es|
  {
    if es != [] {
      NoSize(es[..|es| - 1]);
    }
  }

  ghost predicate AllFiles(es: seq<Keyed>, dirs: seq<string>)
  {
    |es| == |dirs| && forall i {:trigger IsFile(es[i], dirs[i])} :: 0 <= i < |dirs| ==> IsFile(es[i], dirs[i])
  }

  lemma FilesFit(es: seq<Keyed>, dirs: seq<string>)
    requires AllFiles(es, dirs) && Distinct(dirs) && |dirs| <= MAX_ENTRIES
    ensures Bounded(es)
  {
    forall i | 0 <= i < |es|
      ensures es[i].entry.size == 0
    {
      assert IsFile(es[i], dirs[i]);
    }
    NoSize(es);
    forall i, j | 0 <= i < j < |es|
      ensures Compatible(es[i], es[j])
    {
      assert IsFile(es[i], dirs[i]) && IsFile(es[j], dirs[j]);
      assert es[i].key[0] != es[j].key[0];
    }
  }

  lemma CrowdAccepted<T>(parse: T -> Option<Item>, raws: seq<T>, dirs: seq<string>)
    requires |raws| == |dirs| <= MAX_ENTRIES && Distinct(dirs)
    requires forall i :: 0 <= i < |dirs| ==> FileItem(parse(raws[i]), dirs[i])
    ensures Accepts(parse, raws) && AllFiles(EntriesOf(Items(parse, raws)), dirs)
  {
    var items := Items(parse, raws);
    AllPresent(items);
    forall i | 0 <= i < |dirs|
      ensures IsFile(EntriesOf(items)[i], dirs[i])
    {
      assert FileItem(parse(raws[i]), dirs[i]);
    }
    FilesFit(EntriesOf(items), dirs);
  }

  function Tops(dirs: seq<string>): set<Path>
  {
    set i | 0 <= i < |dirs| :: [dirs[i]]
  }

  lemma {:induction false} TopsCount(dirs: seq<string>)
    requires Distinct(dirs)
    ensures |Tops(dirs)| == |dirs|
  {
    if dirs != [] {
      var n := |dirs| - 1;
      TopsCount(dirs[..n]);
      assert Tops(dirs) == Tops(dirs[..n]) + {[dirs[n]]};
    }
  }

  /** The keys are exactly those of such files. */
  ghost predicate OnePerDir(keys: set<Path>, dirs: seq<string>)
  {
    && (forall k :: k in keys ==> exists i :: 0 <= i < |dirs| && k == [dirs[i], "f"])
    && (forall i :: 0 <= i < |dirs| ==> [dirs[i], "f"] in keys)
  }

  lemma NodeOfCrowd(keys: set<Path>, dirs: seq<string>, p: Path)
    requires OnePerDir(keys, dirs) && p in Nodes(keys)
    ensures p in keys || p in Tops(dirs)
  {
    var k, n :| k in keys && 0 < n <= |k| && p == k[..n];
    var i :| 0 <= i < |dirs| && k == [dirs[i], "f"];
    if n == 1 {
      assert p == [dirs[i]];
    } else {
      assert p == k;
    }
  }

  lemma CrowdHasNode(keys: set<Path>, dirs: seq<string>, p: Path)
    requires OnePerDir(keys, dirs) && (p in keys || p in Tops(dirs))
    ensures p in Nodes(keys)
  {
    if p in keys {
      assert |p| == 2 && p == p[..2];
    } else {
      var i :| 0 <= i < |dirs| && p == [dirs[i]];
      var k: Path := [dirs[i], "f"];
      assert k in keys && k[..1] == p;
    }
  }

  lemma NoTopIsKey(keys: set<Path>, dirs: seq<string>)
    requires OnePerDir(keys, dirs)
    ensures keys !! Tops(dirs)
  {
    assert forall k :: k in keys ==> |k| == 2;
    assert forall k :: k in Tops(dirs) ==> |k| == 1;
  }

  /** `n` such files make `2 * n` nodes. */
  lemma CrowdNodes(keys: set<Path>, dirs: seq<string>)
    requires Distinct(dirs) && |keys| == |dirs| && OnePerDir(keys, dirs)
    ensures |Nodes(keys)| == 2 * |dirs|
  {
    TopsCount(dirs);
    NoTopIsKey(keys, dirs);
    NodesWithin(keys, dirs);
    NodesCover(keys, dirs);
    UnionSize(Nodes(keys), keys, Tops(dirs));
  }

  lemma UnionSize(all: set<Path>, a: set<Path>, b: set<Path>)
    requires a !! b && all <= a + b && a + b <= all
    ensures |all| == |a| + |b|
  {
    assert all == a + b;
  }

  lemma NodesWithin(keys: set<Path>, dirs: seq<string>)
    requires OnePerDir(keys, dirs)
    ensures Nodes(keys) <= keys + Tops(dirs)
  {
    forall p | p in Nodes(keys)
      ensures p in keys + Tops(dirs)
    {
      NodeOfCrowd(keys, dirs, p);
    }
  }

  lemma NodesCover(keys: set<Path>, dirs: seq<string>)
    requires OnePerDir(keys, dirs)
    ensures keys + Tops(dirs) <= Nodes(keys)
  {
    forall p | p in keys + Tops(dirs)
      ensures p in Nodes(keys)
    {
      CrowdHasNode(keys, dirs, p);
    }
  }

  /** Enough files in directories of their own decode, within every limit, and never validate. */
  lemma CrowdNeverValidates(hash: seq<byte> -> string, dirs: seq<string>, metadata: seq<string>)
    requires Distinct(dirs) && (forall d :: d in dirs ==> GoodName(d)) && |dirs| <= MAX_ENTRIES
    requires 2 * |dirs| > MAX_ENTRIES + |metadata|
    ensures Decoded(hash, TarGz(Crowd(dirs))).Some?
    ensures |Nodes(Collected(hash, TarGz(Crowd(dirs))).value.entries.Keys)| > MAX_ENTRIES + |metadata|
  {
    var s, es := CrowdCollected(hash, dirs);
    CrowdKeys(s.entries, es, dirs);
    CrowdNodes(s.entries.Keys, dirs);
  }

  lemma CrowdCollected(hash: seq<byte> -> string, dirs: seq<string>) returns (s: State, es: seq<Keyed>)
    requires Distinct(dirs) && (forall d :: d in dirs ==> GoodName(d)) && |dirs| <= MAX_ENTRIES
    ensures Collected(hash, TarGz(Crowd(dirs))) == Some(s) && Holds(s, es) && AllFiles(es, dirs)
  {
    forall i | 0 <= i < |dirs|
      ensures FileItem(Parser(hash)(Crowd(dirs)[i]), dirs[i])
    {
      CrowdParses(hash, dirs, i);
    }
    CrowdAccepted(Parser(hash), Crowd(dirs), dirs);
    FeedExact(Parser(hash), Crowd(dirs));
    s := Feed(Parser(hash), Some(EMPTY), Crowd(dirs)).value;
    es := EntriesOf(Items(Parser(hash), Crowd(dirs)));
  }

  lemma CrowdKeys(m: Index, es: seq<Keyed>, dirs: seq<string>)
    requires |m| == |es| && HasAll(m, es) && HasOnly(m, es) && AllFiles(es, dirs)
    ensures Resolvable(m) && |m.Keys| == |dirs|
    ensures OnePerDir(m.Keys, dirs)
  {
    forall k | k in m
      ensures m[k].kind.File? && exists i :: 0 <= i < |dirs| && k == [dirs[i], "f"]
    {
      var e := Keyed(k, m[k]);
      assert e in es;
      var i :| 0 <= i < |es| && es[i] == e;
      assert IsFile(es[i], dirs[i]);
    }
    forall i | 0 <= i < |dirs|
      ensures [dirs[i], "f"] in m
    {
      assert es[i] in es && IsFile(es[i], dirs[i]);
    }
    assert |m.Keys| == |m|;
  }

  /** There are such names: here words of different length. */
  lemma CrowdExists(n: nat) returns (dirs: seq<string>)
    ensures |dirs| == n && Distinct(dirs) && forall d :: d in dirs ==> GoodName(d)
  {
    dirs := seq(n, i requires 0 <= i < n => seq(i + 1, _ => 'a'));
    forall d | d in dirs
      ensures GoodName(d)
    {
      var i :| 0 <= i < n && dirs[i] == d;
      assert d[0] == 'a';
    }
    forall i, j | 0 <= i < j < n
      ensures dirs[i] != dirs[j]
    {
      assert |dirs[i]| != |dirs[j]|;
    }
  }
}
