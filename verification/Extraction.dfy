/** What decoding makes of each archive member: its index entry and its node, told from the member alone. */
module Extraction {
  import opened Wrappers
  import opened Paths
  import opened Links
  import opened FileTree
  import opened Distribution
  import opened Decoding
  import opened Archives

  // ----- the entry a member asks for -----

  /** The permission bits of a header mode: what is dropped is a multiple of 512. */
  predicate SameBits(mode: nat, header: nat)
  {
    mode < 512 && mode <= header && (header - mode) % 512 == 0
  }

  /** A tar hard link names its target below the same root; every other target is kept as it is. */
  predicate TargetOf(raw: Raw, root: string, target: Option<string>)
  {
    if raw.kind.Hardlink? then
      && raw.target.Some? && Strip(raw.target.value).Some?
      && var link := Strip(raw.target.value).value;
      link.root == root && link.key.Some? && target == Some(Join(link.key.value))
    else
      target == raw.target
  }

  /** The entry says of the member what can be said before links are settled. */
  predicate Describes(hash: seq<byte> -> string, raw: Raw, root: string, key: Path, e: Entry)
  {
    && e.path == Join(key) && e.kind == raw.kind && TargetOf(raw, root, e.target)
    && match raw.kind
       case File => |raw.data| == raw.size == e.size && e.digest == hash(raw.data) && SameBits(e.mode, raw.mode)
       case Directory => e.size == 0 && e.digest == "" && SameBits(e.mode, raw.mode)
       case Symlink => raw.target.Some? && e.size == 0 && e.digest == "" && e.mode == 511
       case Hardlink => true
       case Special => false
  }

  predicate Below(raw: Raw, root: string, key: Path)
  {
    Strip(raw.name) == Some(Stripped(root, Some(key)))
  }

  lemma ModeBits(header: nat)
    ensures SameBits(header % 512, header)
  {
    assert header == 512 * (header / 512) + header % 512;
    assert (512 * (header / 512)) % 512 == 0;
  }

  lemma BodyDescribes(hash: seq<byte> -> string, raw: Raw, root: string, key: Path, target: Option<string>)
    requires TargetOf(raw, root, target) && GoodBody(key, raw, target)
    ensures Describes(hash, raw, root, key, MakeEntry(hash, key, raw, target))
  {
    ModeBits(raw.mode);
  }

  lemma TargetStripped(raw: Raw, root: string)
    requires StripTarget(raw, root).Some?
    ensures TargetOf(raw, root, StripTarget(raw, root).value)
  {
    assert TrimEnd("") == "";
  }

  lemma ParseDescribes(hash: seq<byte> -> string, raw: Raw, root: string, key: Path)
    requires Parse(hash, raw).Some? && Below(raw, root, key)
    ensures var item := Parse(hash, raw).value;
            item.entry.Some? && item.entry.value.key == key && Describes(hash, raw, root, key, item.entry.value.entry)
  {
    var target := StripTarget(raw, root);
    TargetStripped(raw, root);
    BodyDescribes(hash, raw, root, key, target.value);
  }

  // ----- members and entries -----

  lemma MemberCollected(hash: seq<byte> -> string, a: Archive, raw: Raw)
    requires Collected(hash, a).Some? && HasMember(a, raw)
    ensures Parse(hash, raw).Some?
    ensures Parse(hash, raw).value.entry.Some? ==>
              var m, x := Collected(hash, a).value.entries, Parse(hash, raw).value.entry.value;
              x.key in m && m[x.key] == x.entry
  {
    match a {
      case TarGz(tar) =>
        var i :| 0 <= i < |tar| && tar[i] == raw;
        FedHas(Parser(hash), tar, i);
        assert Parser(hash)(raw) == Parse(hash, raw);
      case Zip(zip) =>
        var z :| z in zip && ReadsAs(z, raw);
        var i :| 0 <= i < |zip| && zip[i] == z;
        FedHas(ZipParser(hash), zip, i);
        assert ZipParser(hash)(z) == Parse(hash, raw);
      case Unsupported =>
    }
  }

  lemma CollectedMember(hash: seq<byte> -> string, a: Archive, k: Path) returns (raw: Raw)
    requires Collected(hash, a).Some? && k in Collected(hash, a).value.entries
    ensures HasMember(a, raw) && Parse(hash, raw).Some?
    ensures Parse(hash, raw).value.entry == Some(Keyed(k, Collected(hash, a).value.entries[k]))
  {
    match a {
      case TarGz(tar) =>
        var i := FedFrom(Parser(hash), tar, k);
        raw := tar[i];
        assert Parser(hash)(raw) == Parse(hash, raw);
      case Zip(zip) =>
        var i := FedFrom(ZipParser(hash), zip, k);
        raw := ZipRaw(zip[i]).value;
        assert ZipParser(hash)(zip[i]) == Parse(hash, raw);
        assert ReadsAs(zip[i], raw);
    }
  }

  /** What is indexed before and after the links are settled. */
  ghost function Unsettled(hash: seq<byte> -> string, a: Archive): Index
    requires Collected(hash, a).Some?
  {
    Collected(hash, a).value.entries
  }

  /** A hard link's entry has the size, digest and mode of the file at the end of its chain. */
  ghost predicate TakesAfter(m: Index, f: Index, key: Path)
  {
    exists q {:trigger EndsAt(m, key, q)} ::
      EndsAt(m, key, q) && key in f && q in f && f[q].kind.File?
      && f[key].size == f[q].size && f[key].digest == f[q].digest && f[key].mode == f[q].mode
  }

  lemma SettledDescribes(hash: seq<byte> -> string, m: Index, raw: Raw, root: string, key: Path)
    requires Resolvable(m) && key in m && Describes(hash, raw, root, key, m[key])
    ensures Describes(hash, raw, root, key, Final(m)[key])
    ensures raw.kind.Hardlink? ==> TakesAfter(m, Final(m), key)
  {
    FinalSettles(m);
    if raw.kind.Hardlink? {
      assert HasEnd(m, key);
      var q :| EndsAt(m, key, q);
      assert Final(m)[key] == Settle(m[key], m[q]);
    }
  }

  lemma ListedValue(m: Index, k: Path)
    requires AllGood(m.Keys) && k in m
    ensures m[k] in Values(m)
  {
    var ks := Sorted(m.Keys);
    assert k in ks;
    var i :| 0 <= i < |ks| && ks[i] == k;
    assert Values(m)[i] == m[k];
  }

  /** Every member below the root is listed, as what it is. */
  lemma MemberListed(hash: seq<byte> -> string, a: Archive, raw: Raw, root: string, key: Path)
    requires Decoded(hash, a).Some? && HasMember(a, raw) && Below(raw, root, key)
    ensures var m := Unsettled(hash, a);
            && key in m && Final(m)[key] in Decoded(hash, a).value
            && Describes(hash, raw, root, key, Final(m)[key])
            && (raw.kind.Hardlink? ==> TakesAfter(m, Final(m), key))
  {
    var m := Unsettled(hash, a);
    MemberCollected(hash, a, raw);
    ParseDescribes(hash, raw, root, key);
    SettledDescribes(hash, m, raw, root, key);
    ListedValue(Final(m), key);
  }

  lemma ParseBelow(hash: seq<byte> -> string, raw: Raw, x: Keyed)
    requires Parse(hash, raw).Some? && Parse(hash, raw).value.entry == Some(x)
    ensures Strip(raw.name).Some? && Below(raw, Strip(raw.name).value.root, x.key)
  {
  }

  /** Nothing is listed that no member asks for. */
  lemma ListedMember(hash: seq<byte> -> string, a: Archive, e: Entry) returns (raw: Raw, root: string, key: Path)
    requires Decoded(hash, a).Some? && e in Decoded(hash, a).value
    ensures HasMember(a, raw) && Below(raw, root, key) && Describes(hash, raw, root, key, e)
  {
    var m := Unsettled(hash, a);
    var f := Final(m);
    var i :| 0 <= i < |f| && Values(f)[i] == e;
    key := Sorted(f.Keys)[i];
    raw := CollectedMember(hash, a, key);
    ParseBelow(hash, raw, Keyed(key, m[key]));
    root := Strip(raw.name).value.root;
    MemberListed(hash, a, raw, root, key);
  }

  // ----- members and nodes -----

  /** The node a member leaves behind. */
  ghost predicate LeavesNode(m: Index, t: Tree, raw: Raw, key: Path)
  {
    && key in t
    && match raw.kind
       case File => t[key].FileNode? && t[key].content == raw.data && SameBits(t[key].mode, raw.mode)
       case Directory => t[key].DirNode? && SameBits(t[key].mode, raw.mode)
       case Symlink => t[key].LinkNode? && raw.target == Some(t[key].target)
       case Hardlink => exists q {:trigger EndsAt(m, key, q)} :: EndsAt(m, key, q) && q in t && t[q].FileNode? && t[key] == t[q]
       case Special => false
  }

  lemma MemberLeavesNode(hash: seq<byte> -> string, a: Archive, t: Tree, raw: Raw, root: string, key: Path)
    requires Decoded(hash, a).Some? && HasMember(a, raw) && Below(raw, root, key)
    requires Complete(hash, t, Final(Unsettled(hash, a))) && Extracted(a, t) && LinksCopied(Unsettled(hash, a), t)
    ensures LeavesNode(Unsettled(hash, a), t, raw, key)
  {
    var m := Unsettled(hash, a);
    var f := Final(m);
    MemberListed(hash, a, raw, root, key);
    NodeOf(hash, m, f, t, raw, root, key);
    if raw.kind.File? {
      assert FileKey(raw) == Some(key);
    }
  }

  lemma NodeOf(hash: seq<byte> -> string, m: Index, f: Index, t: Tree, raw: Raw, root: string, key: Path)
    requires key in f && Describes(hash, raw, root, key, f[key])
    requires raw.kind.Hardlink? ==> TakesAfter(m, f, key)
    requires Complete(hash, t, f) && LinksCopied(m, t)
    requires key in m && m[key].kind == f[key].kind
    ensures key in t
    ensures !raw.kind.File? ==> LeavesNode(m, t, raw, key)
    ensures raw.kind.File? ==> t[key].FileNode? && SameBits(t[key].mode, raw.mode)
  {
    assert Fits(hash, f[key], t[key]);
    if raw.kind.Hardlink? {
      var q :| EndsAt(m, key, q) && q in f && f[q].kind.File? && f[key].mode == f[q].mode;
      assert Fits(hash, f[q], t[q]);
      assert HoldsData(t, key, t[q].content);
    }
  }

  /** Decoding into an output directory: every member is listed as itself and leaves its own node behind. */
  method Extract(hash: seq<byte> -> string, dirMode: nat, a: Archive) returns (index: Option<seq<Entry>>, tree: Tree)
    ensures index == Decoded(hash, a)
    ensures index.Some? ==>
              forall raw, root, key :: HasMember(a, raw) && Below(raw, root, key) ==>
                && key in Unsettled(hash, a) && Final(Unsettled(hash, a))[key] in index.value
                && Describes(hash, raw, root, key, Final(Unsettled(hash, a))[key])
                && LeavesNode(Unsettled(hash, a), tree, raw, key)
  {
    var out: Option<Tree>;
    tree := map[];
    index, out := Decode(hash, dirMode, a, true);
    if index.Some? {
      tree := out.value;
      forall raw, root, key | HasMember(a, raw) && Below(raw, root, key)
        ensures && key in Unsettled(hash, a) && Final(Unsettled(hash, a))[key] in index.value
                && Describes(hash, raw, root, key, Final(Unsettled(hash, a))[key])
                && LeavesNode(Unsettled(hash, a), tree, raw, key)
      {
        MemberListed(hash, a, raw, root, key);
        MemberLeavesNode(hash, a, tree, raw, root, key);
      }
    }
  }
}
