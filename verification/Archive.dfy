/** Whole archives: tar and zip members into one index, whatever their order. */
module Archives {
  import opened Wrappers
  import opened Paths
  import opened Links
  import opened FileTree
  import opened Distribution
  import opened Decoding

  /** A zip member; `text` is its content when that is UTF-8. */
  datatype ZipMember = ZipMember(name: string, unixMode: Option<nat>, directory: bool, size: nat,
                                 text: Option<string>, data: seq<byte>)

  datatype Archive = TarGz(tar: seq<Raw>) | Zip(zip: seq<ZipMember>) | Unsupported

  function ZipRaw(z: ZipMember): Option<Raw>
  {
    var mode := if z.unixMode.Some? then z.unixMode.value else if z.directory then 493 else 420;
    var form := (mode / 4096) % 16;
    if form != 0 && form != 8 && form != 4 && form != 10 then None
    else if z.directory then Some(Raw(z.name, Directory, mode, z.size, None, z.data))
    else if form == 10 then
      if z.size > 4096 || z.text.None? then None else Some(Raw(z.name, Symlink, mode, z.size, z.text, z.data))
    else Some(Raw(z.name, File, mode, z.size, None, z.data))
  }

  /** What a zip member is, by the file type in its external attributes: 0, 4, 8 and 10 are known. */
  lemma ZipForms(z: ZipMember, high: nat, form: nat, permissions: nat)
    requires form < 16 && permissions < 4096 && z.unixMode == Some(65536 * high + 4096 * form + permissions)
    ensures ZipRaw(z).Some? <==> form in {0, 4, 8, 10} && (z.directory || form != 10 || (z.size <= 4096 && z.text.Some?))
    ensures ZipRaw(z).Some? ==> ZipRaw(z) == Some(
                                  if z.directory then Raw(z.name, Directory, z.unixMode.value, z.size, None, z.data)
                                  else if form == 10 then Raw(z.name, Symlink, z.unixMode.value, z.size, z.text, z.data)
                                  else Raw(z.name, File, z.unixMode.value, z.size, None, z.data))
  {
    var mode := z.unixMode.value;
    assert mode / 4096 == 16 * high + form;
  }

  ghost function ZipParser(hash: seq<byte> -> string): ZipMember -> Option<Item>
  {
    z => if ZipRaw(z).None? then None else Parse(hash, ZipRaw(z).value)
  }

  /** The state after all members, or None when one of them is refused. */
  ghost function Collected(hash: seq<byte> -> string, a: Archive): (s: Option<State>)
    ensures s.Some? ==> Shape(s.value.entries) && AllGood(s.value.entries.Keys) && |s.value.entries| <= MAX_ENTRIES
  {
    match a
    case TarGz(tar) =>
      if |tar| > MAX_ENTRIES then None else
        var s := Feed(Parser(hash), Some(EMPTY), tar);
        assert s.Some? ==> Shape(s.value.entries) && AllGood(s.value.entries.Keys) && |s.value.entries| <= MAX_ENTRIES by {
          if s.Some? {
            forall r | r in tar ensures GoodItem(Parser(hash)(r)) { ParseGivesShape(hash, r); }
            FeedKeepsShape(Parser(hash), tar);
            ShapeFacts(s.value.entries);
          }
        }
        s
    case Zip(zip) =>
      if |zip| > MAX_ENTRIES then None else
        var s := Feed(ZipParser(hash), Some(EMPTY), zip);
        assert s.Some? ==> Shape(s.value.entries) && AllGood(s.value.entries.Keys) && |s.value.entries| <= MAX_ENTRIES by {
          if s.Some? {
            forall z | z in zip ensures GoodItem(ZipParser(hash)(z)) {
              if ZipRaw(z).Some? { ParseGivesShape(hash, ZipRaw(z).value); }
            }
            FeedKeepsShape(ZipParser(hash), zip);
            ShapeFacts(s.value.entries);
          }
        }
        s
    case Unsupported => None
  }

  ghost function IndexOf(m: Index): Option<seq<Entry>>
    requires AllGood(m.Keys)
  {
    if Resolvable(m) then Some(Values(Final(m))) else None
  }

  /** The sorted index of an archive, or None when decoding fails. */
  ghost function Decoded(hash: seq<byte> -> string, a: Archive): Option<seq<Entry>>
  {
    var s := Collected(hash, a);
    if s.None? then None else IndexOf(s.value.entries)
  }

  ghost predicate SameMembers(a: Archive, b: Archive)
  {
    match a
    case TarGz(xs) => b.TarGz? && multiset(xs) == multiset(b.tar)
    case Zip(xs) => b.Zip? && multiset(xs) == multiset(b.zip)
    case Unsupported => b.Unsupported?
  }

  lemma CollectedPermutation(hash: seq<byte> -> string, a: Archive, b: Archive)
    requires SameMembers(a, b)
    ensures Collected(hash, a) == Collected(hash, b)
  {
    match a {
      case TarGz(xs) =>
        FeedPermutation(Parser(hash), Some(EMPTY), xs, b.tar);
        assert |multiset(xs)| == |multiset(b.tar)|;
      case Zip(xs) =>
        FeedPermutation(ZipParser(hash), Some(EMPTY), xs, b.zip);
        assert |multiset(xs)| == |multiset(b.zip)|;
      case Unsupported =>
    }
  }

  /** Archive order does not matter: both orders fail, or both give the identical sorted index. */
  lemma DecodePermutation(hash: seq<byte> -> string, a: Archive, b: Archive)
    requires SameMembers(a, b)
    ensures Decoded(hash, a) == Decoded(hash, b)
  {
    CollectedPermutation(hash, a, b);
  }

  // ----- the data of the members -----

  ghost predicate HasMember(a: Archive, raw: Raw)
  {
    match a
    case TarGz(tar) => raw in tar
    case Zip(zip) => exists z {:trigger ReadsAs(z, raw)} :: z in zip && ReadsAs(z, raw)
    case Unsupported => false
  }

  predicate ReadsAs(z: ZipMember, raw: Raw)
  {
    ZipRaw(z) == Some(raw)
  }

  ghost predicate KeepsMembers(store: Store, a: Archive)
  {
    forall raw {:trigger HasMember(a, raw)} :: HasMember(a, raw) ==> KeepsData(store, raw)
  }

  /** The tree's files hold the very data of the archive's file members. */
  ghost predicate Extracted(a: Archive, t: Tree)
  {
    forall raw {:trigger HasMember(a, raw)} :: HasMember(a, raw) && FileKey(raw).Some? ==>
      HoldsData(t, FileKey(raw).value, raw.data)
  }

  predicate HoldsData(t: Tree, k: Path, data: seq<byte>)
  {
    k in t && t[k].FileNode? && t[k].content == data
  }

  /** A hard link's node holds the data of the file at the end of its chain. */
  ghost predicate LinksCopied(m: Index, t: Tree)
  {
    forall k, q {:trigger EndsAt(m, k, q)} :: EndsAt(m, k, q) && m[k].kind.Hardlink? ==>
      q in t && t[q].FileNode? && HoldsData(t, k, t[q].content)
  }

  lemma DataStays(store: Store, store': Store, raw: Raw)
    requires KeepsData(store, raw) && Grows(store, store')
    ensures KeepsData(store', raw)
  {
  }

  lemma MembersMore(store: Store, store': Store, a: Archive, b: Archive, raw: Raw)
    requires KeepsMembers(store, a) && Grows(store, store') && KeepsData(store', raw)
    requires forall r {:trigger HasMember(b, r)} :: HasMember(b, r) ==> HasMember(a, r) || r == raw
    ensures KeepsMembers(store', b)
  {
    forall r | HasMember(b, r)
      ensures KeepsData(store', r)
    {
      if HasMember(a, r) {
        DataStays(store, store', r);
      }
    }
  }

  lemma TarMore(store: Store, store': Store, tar: seq<Raw>, i: nat)
    requires i < |tar| && KeepsMembers(store, TarGz(tar[..i])) && Grows(store, store') && KeepsData(store', tar[i])
    ensures KeepsMembers(store', TarGz(tar[..i + 1]))
  {
    assert tar[..i + 1] == tar[..i] + [tar[i]];
    MembersMore(store, store', TarGz(tar[..i]), TarGz(tar[..i + 1]), tar[i]);
  }

  lemma ZipMore(store: Store, store': Store, zip: seq<ZipMember>, i: nat)
    requires i < |zip| && ZipRaw(zip[i]).Some? && KeepsMembers(store, Zip(zip[..i]))
    requires Grows(store, store') && KeepsData(store', ZipRaw(zip[i]).value)
    ensures KeepsMembers(store', Zip(zip[..i + 1]))
  {
    var a, b := Zip(zip[..i]), Zip(zip[..i + 1]);
    assert zip[..i + 1] == zip[..i] + [zip[i]];
    forall r | HasMember(b, r)
      ensures HasMember(a, r) || r == ZipRaw(zip[i]).value
    {
      var z :| z in b.zip && ReadsAs(z, r);
      assert z in a.zip || z == zip[i];
    }
    MembersMore(store, store', a, b, ZipRaw(zip[i]).value);
  }

  lemma ExtractedFrom(t: Tree, store: Store, store': Store, a: Archive, m: Index)
    requires KeepsMembers(store, a) && Grows(store, store') && Stores(t, store') && Stocked(m, store', {})
    ensures Extracted(a, t) && LinksCopied(m, t)
  {
    forall raw | HasMember(a, raw) && FileKey(raw).Some?
      ensures HoldsData(t, FileKey(raw).value, raw.data)
    {
      DataStays(store, store', raw);
    }
    forall k, q | EndsAt(m, k, q) && m[k].kind.Hardlink?
      ensures q in t && t[q].FileNode? && HoldsData(t, k, t[q].content)
    {
      assert k in store' && q in store';
    }
  }

  /** The first `i` members are in the decoder and the rest decide the outcome. */
  ghost predicate TarFed(d: Decoder, tar: seq<Raw>, i: nat)
    requires i <= |tar|
    reads d
  {
    && d.Valid()
    && Feed(Parser(d.hash), Some(EMPTY), tar) == Feed(Parser(d.hash), Some(d.View()), tar[i..])
    && KeepsMembers(d.store, TarGz(tar[..i]))
  }

  method FeedMember(d: Decoder, tar: seq<Raw>, i: nat) returns (ok: bool)
    requires i < |tar| && TarFed(d, tar, i)
    modifies d
    ensures ok ==> TarFed(d, tar, i + 1) && d.output.Some? == old(d.output).Some?
    ensures !ok ==> Feed(Parser(d.hash), Some(EMPTY), tar).None?
  {
    FeedTail(Parser(d.hash), Some(d.View()), tar, i);
    ok := d.Member(tar[i]);
    if ok {
      TarMore(old(d.store), d.store, tar, i);
    }
  }

  method FeedTar(d: Decoder, tar: seq<Raw>) returns (ok: bool)
    requires d.Valid() && d.View() == EMPTY
    modifies d
    ensures ok <==> |tar| <= MAX_ENTRIES && Feed(Parser(d.hash), Some(EMPTY), tar).Some?
    ensures ok ==> d.Valid() && Some(d.View()) == Feed(Parser(d.hash), Some(EMPTY), tar)
    ensures ok ==> d.output.Some? == old(d.output).Some? && KeepsMembers(d.store, TarGz(tar))
  {
    var i := 0;
    while i < |tar|
      invariant 0 <= i <= |tar| && i <= MAX_ENTRIES && TarFed(d, tar, i) && d.output.Some? == old(d.output).Some?
    {
      if i >= MAX_ENTRIES {
        return false;
      }
      var ok' := FeedMember(d, tar, i);
      if !ok' {
        return false;
      }
      i := i + 1;
    }
    assert tar[..i] == tar;
    ok := true;
  }

  /** The first `i` members are in the decoder and the rest decide the outcome. */
  ghost predicate ZipFed(d: Decoder, zip: seq<ZipMember>, i: nat)
    requires i <= |zip|
    reads d
  {
    && d.Valid()
    && Feed(ZipParser(d.hash), Some(EMPTY), zip) == Feed(ZipParser(d.hash), Some(d.View()), zip[i..])
    && KeepsMembers(d.store, Zip(zip[..i]))
  }

  method FeedOne(d: Decoder, zip: seq<ZipMember>, i: nat) returns (ok: bool)
    requires i < |zip| && ZipFed(d, zip, i)
    modifies d
    ensures ok ==> ZipFed(d, zip, i + 1) && d.output.Some? == old(d.output).Some?
    ensures !ok ==> Feed(ZipParser(d.hash), Some(EMPTY), zip).None?
  {
    FeedTail(ZipParser(d.hash), Some(d.View()), zip, i);
    ZipStep(d.hash, d.View(), zip[i]);
    var raw := ZipRaw(zip[i]);
    if raw.None? {
      return false;
    }
    ok := d.Entry(raw.value, raw.value.target);
    if ok {
      ZipMore(old(d.store), d.store, zip, i);
    }
  }

  method FeedZip(d: Decoder, zip: seq<ZipMember>) returns (ok: bool)
    requires d.Valid() && d.View() == EMPTY
    modifies d
    ensures ok <==> |zip| <= MAX_ENTRIES && Feed(ZipParser(d.hash), Some(EMPTY), zip).Some?
    ensures ok ==> d.Valid() && Some(d.View()) == Feed(ZipParser(d.hash), Some(EMPTY), zip)
    ensures ok ==> d.output.Some? == old(d.output).Some? && KeepsMembers(d.store, Zip(zip))
  {
    if |zip| > MAX_ENTRIES {
      return false;
    }
    var i := 0;
    while i < |zip|
      invariant 0 <= i <= |zip| && ZipFed(d, zip, i) && d.output.Some? == old(d.output).Some?
    {
      var ok' := FeedOne(d, zip, i);
      if !ok' {
        return false;
      }
      i := i + 1;
    }
    assert zip[..i] == zip;
    ok := true;
  }

  method Decode(hash: seq<byte> -> string, dirMode: nat, a: Archive, extract: bool)
    returns (r: Option<seq<Entry>>, tree: Option<Tree>)
    ensures r == Decoded(hash, a)
    ensures r.Some? && extract ==> tree.Some? && Complete(hash, tree.value, Final(Collected(hash, a).value.entries))
    ensures r.Some? && extract ==> Extracted(a, tree.value) && LinksCopied(Collected(hash, a).value.entries, tree.value)
  {
    tree := None;
    var d := new Decoder(hash, dirMode, extract);
    var ok := false;
    match a {
      case TarGz(tar) => ok := FeedTar(d, tar);
      case Zip(zip) => ok := FeedZip(d, zip);
      case Unsupported =>
    }
    if !ok {
      return None, None;
    }
    ghost var before := d.store;
    r := d.Finish();
    tree := d.output;
    if r.Some? && extract {
      ExtractedFrom(tree.value, before, d.store, a, Collected(hash, a).value.entries);
    }
  }

  lemma FeedTail<T>(parse: T -> Option<Item>, s: Option<State>, raws: seq<T>, i: nat)
    requires i < |raws|
    ensures Feed(parse, s, raws[i..]) == Feed(parse, Step(parse, s, raws[i]), raws[i + 1..])
    ensures Step(parse, s, raws[i]).None? ==> Feed(parse, s, raws[i..]).None?
  {
    assert raws[i..][1..] == raws[i + 1..];
    if Step(parse, s, raws[i]).None? {
      FeedNone(parse, raws[i + 1..]);
    }
  }

  lemma {:induction false} FeedNone<T>(parse: T -> Option<Item>, raws: seq<T>)
    ensures Feed(parse, None, raws).None?
    decreases |raws|
  {
    if raws != [] {
      FeedNone(parse, raws[1..]);
    }
  }

  lemma ZipStep(hash: seq<byte> -> string, s: State, z: ZipMember)
    ensures Step(ZipParser(hash), Some(s), z) ==
            if ZipRaw(z).None? then None else InsertOption(s, ItemFor(hash, ZipRaw(z).value, ZipRaw(z).value.target))
  {
    if ZipRaw(z).Some? {
      var raw := ZipRaw(z).value;
      assert ZipParser(hash)(z) == Parse(hash, raw);
      PlainStep(hash, s, raw);
      assert Parser(hash)(raw) == Parse(hash, raw);
    }
  }
}
