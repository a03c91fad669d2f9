/**
 The archive decoder: entries arrive in any order, are checked against those already
 indexed, and are written below the output root; links are settled at the end.
 */
module Distribution {
  import opened Wrappers
  import opened Paths
  import opened Links
  import opened FileTree

  const MAX_ENTRIES: nat := 32768
  const MAX_BYTES: nat := 805306368
  const U64_LIMIT: nat := 0x1_0000_0000_0000_0000

  /** One archive member as handed to `entry`; a tar hard link still names its unstripped target. */
  datatype Raw = Raw(name: string, kind: Kind, mode: nat, size: nat, target: Option<string>, data: seq<byte>)

  /** An entry under its index key. */
  datatype Keyed = Keyed(key: Path, entry: Entry)

  /** What one member contributes: its archive root, and an entry unless it is the root itself. */
  datatype Item = Item(root: string, entry: Option<Keyed>)

  datatype State = State(entries: Index, root: Option<string>, bytes: nat)

  const EMPTY: State := State(map[], None, 0)

  // ----- the part of a member that does not depend on earlier ones -----

  /** The link target after stripping; only tar hard links are stripped. */
  function StripTarget(raw: Raw, root: string): Option<Option<string>>
  {
    if raw.kind.Hardlink? then
      var link := Strip(if raw.target.Some? then raw.target.value else "");
      if link.Some? && link.value.root == root && link.value.key.Some? then Some(Some(Join(link.value.key.value))) else None
    else
      Some(raw.target)
  }

  predicate GoodBody(key: Path, raw: Raw, target: Option<string>)
  {
    match raw.kind
    case File => |raw.data| == raw.size
    case Directory => true
    case Symlink => target.Some? && Destination(key, target.value, false).Some?
    case Hardlink => target.Some? && Destination(key, target.value, true).Some?
    case Special => false
  }

  function MakeEntry(hash: seq<byte> -> string, key: Path, raw: Raw, target: Option<string>): Entry
  {
    Entry(Join(key), raw.kind,
          if raw.kind.Symlink? then 511 else raw.mode % 512,
          if raw.kind.File? then raw.size else 0,
          if raw.kind.File? then hash(raw.data) else "",
          target)
  }

  /** A member whose link target is already stripped. */
  function ItemFor(hash: seq<byte> -> string, raw: Raw, target: Option<string>): Option<Item>
  {
    var name := Strip(raw.name);
    if name.None? then None
    else if name.value.key.None? then
      if raw.kind.Directory? then Some(Item(name.value.root, None)) else None
    else if GoodBody(name.value.key.value, raw, target) then
      Some(Item(name.value.root, Some(Keyed(name.value.key.value, MakeEntry(hash, name.value.key.value, raw, target)))))
    else None
  }

  function Parse(hash: seq<byte> -> string, raw: Raw): Option<Item>
  {
    var name := Strip(raw.name);
    if name.None? || StripTarget(raw, name.value.root).None? then None
    else ItemFor(hash, raw, StripTarget(raw, name.value.root).value)
  }

  // ----- the checks against earlier members -----

  ghost predicate Fresh(m: Index, x: Keyed)
  {
    && x.key !in m
    && (forall a :: a in m && a < x.key ==> m[a].kind.Directory?)
    && (!x.entry.kind.Directory? ==> forall b :: b in m ==> !(x.key < b))
  }

  ghost function Insert(s: State, item: Item): Option<State>
  {
    if s.root.Some? && s.root.value != item.root then None
    else if item.entry.None? then Some(s.(root := Some(item.root)))
    else
      var x := item.entry.value;
      if |s.entries| < MAX_ENTRIES && Fresh(s.entries, x) && s.bytes + x.entry.size <= MAX_BYTES then
        Some(State(s.entries[x.key := x.entry], Some(item.root), s.bytes + x.entry.size))
      else None
  }

  /** Reading a member with a given hash function. */
  ghost function Parser(hash: seq<byte> -> string): Raw -> Option<Item>
  {
    raw => Parse(hash, raw)
  }

  ghost function Step<T>(parse: T -> Option<Item>, s: Option<State>, raw: T): Option<State>
  {
    if s.None? || parse(raw).None? then None else Insert(s.value, parse(raw).value)
  }

  ghost function Feed<T>(parse: T -> Option<Item>, s: Option<State>, raws: seq<T>): Option<State>
    decreases |raws|
  {
    if raws == [] then s else Feed(parse, Step(parse, s, raws[0]), raws[1..])
  }

  // ----- order independence -----

  ghost function Insert2(s: State, a: Item, b: Item): Option<State>
  {
    if Insert(s, a).None? then None else Insert(Insert(s, a).value, b)
  }

  lemma InsertsCommute(s: State, a: Item, b: Item)
    ensures Insert2(s, a, b) == Insert2(s, b, a)
  {
    if a.entry.Some? && b.entry.Some? {
      var x, y := a.entry.value, b.entry.value;
      if x.key != y.key {
        assert s.entries[x.key := x.entry][y.key := y.entry] == s.entries[y.key := y.entry][x.key := x.entry];
        BothFresh(s.entries, x, y);
        BothFresh(s.entries, y, x);
        assert Insert2(s, a, b).Some? <==> Insert2(s, b, a).Some?;
      }
    }
  }

  /** Conflicts between two entries are seen whichever of them comes first. */
  lemma BothFresh(m: Index, x: Keyed, y: Keyed)
    requires x.key != y.key
    ensures Fresh(m, x) && Fresh(m[x.key := x.entry], y) <==> Fresh(m, x) && Fresh(m, y) && Compatible(x, y)
  {
    var m' := m[x.key := x.entry];
    assert x.key in m';
    assert forall a :: a in m ==> a in m';
    if Fresh(m, x) && Fresh(m, y) && Compatible(x, y) {
      assert Fresh(m', y);
    }
  }

  predicate Compatible(x: Keyed, y: Keyed)
  {
    && x.key != y.key
    && (x.key < y.key ==> x.entry.kind.Directory?)
    && (y.key < x.key ==> y.entry.kind.Directory?)
  }

  lemma StepsCommute<T>(parse: T -> Option<Item>, s: Option<State>, a: T, b: T)
    ensures Step(parse, Step(parse, s, a), b) == Step(parse, Step(parse, s, b), a)
  {
    if s.Some? && parse(a).Some? && parse(b).Some? {
      InsertsCommute(s.value, parse(a).value, parse(b).value);
    }
  }

  lemma {:induction false} FeedBringForward<T>(parse: T -> Option<Item>, s: Option<State>, raws: seq<T>, i: nat)
    requires i < |raws|
    ensures Feed(parse, s, raws) == Feed(parse, Step(parse, s, raws[i]), raws[..i] + raws[i + 1..])
    decreases i
  {
    if i == 0 {
      assert raws[..0] + raws[1..] == raws[1..];
    } else {
      FeedBringForward(parse, Step(parse, s, raws[0]), raws[1..], i - 1);
      StepsCommute(parse, s, raws[0], raws[i]);
      var moved := raws[..i] + raws[i + 1..];
      assert moved[1..] == raws[1..][..i - 1] + raws[1..][i..];
    }
  }

  lemma RemoveAt<T>(xs: seq<T>, i: nat)
    requires i < |xs|
    ensures multiset(xs[..i] + xs[i + 1..]) == multiset(xs) - multiset{xs[i]}
  {
    assert xs == xs[..i] + [xs[i]] + xs[i + 1..];
  }

  lemma FindHead<T>(xs: seq<T>, ys: seq<T>) returns (i: nat)
    requires xs != [] && multiset(xs) == multiset(ys)
    ensures i < |ys| && ys[i] == xs[0] && multiset(xs[1..]) == multiset(ys[..i] + ys[i + 1..])
  {
    assert xs[0] in multiset(ys);
    i :| 0 <= i < |ys| && ys[i] == xs[0];
    RemoveAt(ys, i);
    RemoveHead(xs);
  }

  lemma RemoveHead<T>(xs: seq<T>)
    requires xs != []
    ensures multiset(xs[1..]) == multiset(xs) - multiset{xs[0]}
  {
    RemoveAt(xs, 0);
    assert xs[..0] + xs[1..] == xs[1..];
  }

  /** Reordering the members never changes whether they are accepted, nor the resulting state. */
  lemma {:induction false} FeedPermutation<T>(parse: T -> Option<Item>, s: Option<State>, xs: seq<T>, ys: seq<T>)
    requires multiset(xs) == multiset(ys)
    ensures Feed(parse, s, xs) == Feed(parse, s, ys)
    decreases |xs|
  {
    if xs == [] {
      assert |ys| == |multiset(ys)|;
    } else {
      var i := FindHead(xs, ys);
      FeedBringForward(parse, s, ys, i);
      FeedPermutation(parse, Step(parse, s, xs[0]), xs[1..], ys[..i] + ys[i + 1..]);
    }
  }

  // ----- exactly which member lists are accepted -----

  ghost predicate AllParse<T>(parse: T -> Option<Item>, raws: seq<T>)
  {
    forall i :: 0 <= i < |raws| ==> parse(raws[i]).Some?
  }

  ghost function Items<T>(parse: T -> Option<Item>, raws: seq<T>): (items: seq<Item>)
    requires AllParse(parse, raws)
    ensures |items| == |raws| && forall i :: 0 <= i < |raws| ==> items[i] == parse(raws[i]).value
  {
    seq(|raws|, i requires 0 <= i < |raws| => parse(raws[i]).value)
  }

  ghost function InsertAll(s: Option<State>, items: seq<Item>): Option<State>
    decreases |items|
  {
    if items == [] then s
    else
      var front := InsertAll(s, items[..|items| - 1]);
      if front.None? then None else Insert(front.value, items[|items| - 1])
  }

  function Added(item: Item): seq<Keyed>
  {
    if item.entry.Some? then [item.entry.value] else []
  }

  /** The entries a list of members contributes, in archive order. */
  function EntriesOf(items: seq<Item>): seq<Keyed>
  {
    if items == [] then [] else EntriesOf(items[..|items| - 1]) + Added(items[|items| - 1])
  }

  function TotalSize(es: seq<Keyed>): nat
  {
    if es == [] then 0 else TotalSize(es[..|es| - 1]) + es[|es| - 1].entry.size
  }

  ghost predicate PairwiseCompatible(es: seq<Keyed>)
  {
    forall i, j :: 0 <= i < j < |es| ==> Compatible(es[i], es[j])
  }

  ghost predicate Bounded(es: seq<Keyed>)
  {
    PairwiseCompatible(es) && |es| <= MAX_ENTRIES && TotalSize(es) <= MAX_BYTES
  }

  ghost predicate OneRoot(items: seq<Item>)
  {
    forall i, j :: 0 <= i < j < |items| ==> items[i].root == items[j].root
  }

  /** One root, no duplicate, no entry beneath a non-directory, and both limits respected. */
  ghost predicate Accepts<T>(parse: T -> Option<Item>, raws: seq<T>)
  {
    AllParse(parse, raws) && OneRoot(Items(parse, raws)) && Bounded(EntriesOf(Items(parse, raws)))
  }

  /** The state indexes exactly these entries, and `bytes` is the sum of their sizes. */
  ghost predicate Holds(s: State, es: seq<Keyed>)
  {
    && |s.entries| == |es|
    && HasAll(s.entries, es)
    && HasOnly(s.entries, es)
    && s.bytes == TotalSize(es)
  }

  lemma PairwiseSnoc(fs: seq<Keyed>, e: Keyed)
    ensures PairwiseCompatible(fs + [e]) <==> PairwiseCompatible(fs) && forall f :: f in fs ==> Compatible(f, e)
  {
    var es := fs + [e];
    if PairwiseCompatible(es) {
      forall i, j | 0 <= i < j < |fs|
        ensures Compatible(fs[i], fs[j])
      {
        assert Compatible(es[i], es[j]);
      }
      forall f | f in fs
        ensures Compatible(f, e)
      {
        var i :| 0 <= i < |fs| && fs[i] == f;
        assert Compatible(es[i], es[|es| - 1]);
      }
    }
  }

  lemma BoundedFront(fs: seq<Keyed>, item: Item)
    requires Bounded(fs + Added(item))
    ensures Bounded(fs)
  {
    var es := fs + Added(item);
    if item.entry.Some? {
      PairwiseSnoc(fs, item.entry.value);
      assert es[..|es| - 1] == fs;
    } else {
      assert es == fs;
    }
  }

  lemma FreshAgainst(s: State, fs: seq<Keyed>, e: Keyed)
    requires Holds(s, fs)
    ensures Fresh(s.entries, e) <==> forall f :: f in fs ==> Compatible(f, e)
  {
    if forall f :: f in fs ==> Compatible(f, e) {
      forall a | a in s.entries
        ensures a != e.key && (a < e.key ==> s.entries[a].kind.Directory?) && (e.key < a ==> e.entry.kind.Directory?)
      {
        assert Compatible(Keyed(a, s.entries[a]), e);
      }
    }
    if Fresh(s.entries, e) {
      forall f | f in fs
        ensures Compatible(f, e)
      {
        assert f.key in s.entries;
      }
    }
  }

  ghost predicate HasAll(m: Index, es: seq<Keyed>)
  {
    forall e :: e in es ==> e.key in m && m[e.key] == e.entry
  }

  ghost predicate HasOnly(m: Index, es: seq<Keyed>)
  {
    forall k :: k in m ==> Keyed(k, m[k]) in es
  }

  lemma HasAllMore(m: Index, fs: seq<Keyed>, e: Keyed)
    requires HasAll(m, fs) && e.key !in m
    ensures HasAll(m[e.key := e.entry], fs + [e])
  {
    var m', es := m[e.key := e.entry], fs + [e];
    forall x | x in es
      ensures x.key in m' && m'[x.key] == x.entry
    {
      if x in fs {
        assert x.key in m;
      }
    }
  }

  lemma HasOnlyMore(m: Index, fs: seq<Keyed>, e: Keyed)
    requires HasOnly(m, fs)
    ensures HasOnly(m[e.key := e.entry], fs + [e])
  {
    var m', es := m[e.key := e.entry], fs + [e];
    forall k | k in m'
      ensures Keyed(k, m'[k]) in es
    {
      if k == e.key {
        assert es[|es| - 1] == e;
      } else {
        assert Keyed(k, m[k]) in fs;
      }
    }
  }

  lemma HoldsMore(s: State, fs: seq<Keyed>, e: Keyed)
    requires Holds(s, fs) && e.key !in s.entries
    ensures Holds(State(s.entries[e.key := e.entry], s.root, s.bytes + e.entry.size), fs + [e])
  {
    var es := fs + [e];
    assert es[..|es| - 1] == fs;
    assert s.entries[e.key := e.entry].Keys == s.entries.Keys + {e.key};
    HasAllMore(s.entries, fs, e);
    HasOnlyMore(s.entries, fs, e);
  }

  lemma InsertExact(s: State, fs: seq<Keyed>, item: Item)
    requires Holds(s, fs) && Bounded(fs)
    ensures Insert(s, item).Some? <==> (s.root.Some? ==> s.root.value == item.root) && Bounded(fs + Added(item))
    ensures Insert(s, item).Some? ==> Holds(Insert(s, item).value, fs + Added(item)) && Insert(s, item).value.root == Some(item.root)
  {
    var es := fs + Added(item);
    if item.entry.Some? {
      var e := item.entry.value;
      assert es[..|es| - 1] == fs;
      FreshAgainst(s, fs, e);
      PairwiseSnoc(fs, e);
      if Insert(s, item).Some? {
        HoldsMore(s, fs, e);
      }
    } else {
      assert es == fs;
    }
  }

  lemma OneRootSnoc(items: seq<Item>)
    requires items != []
    ensures OneRoot(items) <==>
            && OneRoot(items[..|items| - 1])
            && (|items| > 1 ==> items[0].root == items[|items| - 1].root)
  {
    var front := items[..|items| - 1];
    if OneRoot(front) && |items| > 1 && items[0].root == items[|items| - 1].root {
      forall i, j | 0 <= i < j < |items|
        ensures items[i].root == items[j].root
      {
        assert i > 0 ==> front[0].root == front[i].root;
        assert 0 < j < |front| ==> front[0].root == front[j].root;
      }
    }
  }

  lemma {:induction false} InsertAllExact(items: seq<Item>)
    ensures InsertAll(Some(EMPTY), items).Some? <==> OneRoot(items) && Bounded(EntriesOf(items))
    ensures InsertAll(Some(EMPTY), items).Some? ==>
              && Holds(InsertAll(Some(EMPTY), items).value, EntriesOf(items))
              && InsertAll(Some(EMPTY), items).value.root == if items == [] then None else Some(items[0].root)
    decreases |items|
  {
    if items != [] {
      var front, last := items[..|items| - 1], items[|items| - 1];
      InsertAllExact(front);
      OneRootSnoc(items);
      if InsertAll(Some(EMPTY), front).Some? {
        InsertExact(InsertAll(Some(EMPTY), front).value, EntriesOf(front), last);
      }
      if OneRoot(items) && Bounded(EntriesOf(items)) {
        BoundedFront(EntriesOf(front), last);
      }
    }
  }

  lemma {:induction false} FeedSnoc<T>(parse: T -> Option<Item>, s: Option<State>, raws: seq<T>)
    requires raws != []
    ensures Feed(parse, s, raws) == Step(parse, Feed(parse, s, raws[..|raws| - 1]), raws[|raws| - 1])
    decreases |raws|
  {
    if |raws| == 1 {
      assert raws[1..] == [];
    } else {
      FeedSnoc(parse, Step(parse, s, raws[0]), raws[1..]);
      assert raws[1..][..|raws| - 2] == raws[..|raws| - 1][1..];
    }
  }

  lemma ParseSnoc<T>(parse: T -> Option<Item>, raws: seq<T>)
    requires raws != []
    ensures AllParse(parse, raws) <==> AllParse(parse, raws[..|raws| - 1]) && parse(raws[|raws| - 1]).Some?
    ensures AllParse(parse, raws) ==>
              && Items(parse, raws)[..|raws| - 1] == Items(parse, raws[..|raws| - 1])
              && Items(parse, raws)[|raws| - 1] == parse(raws[|raws| - 1]).value
  {
    var front := raws[..|raws| - 1];
    if AllParse(parse, front) && parse(raws[|raws| - 1]).Some? {
      forall i | 0 <= i < |raws|
        ensures parse(raws[i]).Some?
      {
        assert i < |front| ==> front[i] == raws[i];
      }
    }
    if AllParse(parse, raws) {
      assert Items(parse, raws)[..|raws| - 1] == Items(parse, front);
    }
  }

  lemma {:induction false} FeedIsInsertAll<T>(parse: T -> Option<Item>, s: Option<State>, raws: seq<T>)
    ensures AllParse(parse, raws) ==> Feed(parse, s, raws) == InsertAll(s, Items(parse, raws))
    ensures !AllParse(parse, raws) ==> Feed(parse, s, raws).None?
    decreases |raws|
  {
    if raws != [] {
      var front, last := raws[..|raws| - 1], raws[|raws| - 1];
      FeedSnoc(parse, s, raws);
      FeedIsInsertAll(parse, s, front);
      ParseSnoc(parse, raws);
    }
  }

  /** The running checks accept a list exactly when the order-free condition holds of it. */
  lemma FeedExact<T>(parse: T -> Option<Item>, raws: seq<T>)
    ensures Feed(parse, Some(EMPTY), raws).Some? <==> Accepts(parse, raws)
    ensures Accepts(parse, raws) ==> Holds(Feed(parse, Some(EMPTY), raws).value, EntriesOf(Items(parse, raws)))
  {
    FeedIsInsertAll(parse, Some(EMPTY), raws);
    if AllParse(parse, raws) {
      InsertAllExact(Items(parse, raws));
    }
  }

  lemma {:induction false} EntriesOfHas(items: seq<Item>, i: nat)
    requires i < |items| && items[i].entry.Some?
    ensures items[i].entry.value in EntriesOf(items)
  {
    if i < |items| - 1 {
      EntriesOfHas(items[..|items| - 1], i);
    }
  }

  lemma {:induction false} EntriesOfFrom(items: seq<Item>, x: Keyed) returns (i: nat)
    requires x in EntriesOf(items)
    ensures i < |items| && items[i].entry == Some(x)
  {
    var front := items[..|items| - 1];
    if x in EntriesOf(front) {
      i := EntriesOfFrom(front, x);
    } else {
      i := |items| - 1;
    }
  }

  /** An accepted member's entry stays in the index. */
  lemma FedHas<T>(parse: T -> Option<Item>, raws: seq<T>, i: nat)
    requires Feed(parse, Some(EMPTY), raws).Some? && i < |raws|
    ensures parse(raws[i]).Some?
    ensures parse(raws[i]).value.entry.Some? ==>
              var m, x := Feed(parse, Some(EMPTY), raws).value.entries, parse(raws[i]).value.entry.value;
              x.key in m && m[x.key] == x.entry
  {
    FeedExact(parse, raws);
    var items := Items(parse, raws);
    if items[i].entry.Some? {
      EntriesOfHas(items, i);
    }
  }

  /** Every indexed entry comes from a member. */
  lemma FedFrom<T>(parse: T -> Option<Item>, raws: seq<T>, k: Path) returns (i: nat)
    requires Feed(parse, Some(EMPTY), raws).Some? && k in Feed(parse, Some(EMPTY), raws).value.entries
    ensures i < |raws| && parse(raws[i]).Some?
    ensures parse(raws[i]).value.entry == Some(Keyed(k, Feed(parse, Some(EMPTY), raws).value.entries[k]))
  {
    FeedExact(parse, raws);
    var items := Items(parse, raws);
    i := EntriesOfFrom(items, Keyed(k, Feed(parse, Some(EMPTY), raws).value.entries[k]));
  }

  // ----- tree shape -----

  /** Indexed proper ancestors are directories. */
  ghost predicate TreeShaped(m: Index)
  {
    forall a, b :: a in m && b in m && a < b ==> m[a].kind.Directory?
  }

  /** A tree whose keys are plain relative paths and whose links all parse. */
  ghost predicate Shape(m: Index)
  {
    TreeShaped(m) && forall k :: k in m ==> GoodKeyed(Keyed(k, m[k]))
  }

  predicate GoodKeyed(x: Keyed)
  {
    && GoodNames(x.key) && x.entry.path == Join(x.key) && !x.entry.kind.Special? && x.entry.mode < 512
    && (IsLink(x.entry) ==> Next(x.key, x.entry).Some?)
  }

  predicate GoodItem(item: Option<Item>)
  {
    item.Some? && item.value.entry.Some? ==> GoodKeyed(item.value.entry.value)
  }

  lemma ParseGivesShape(hash: seq<byte> -> string, raw: Raw)
    ensures GoodItem(Parse(hash, raw))
  {
    if Strip(raw.name).Some? && Strip(raw.name).value.key.Some? {
      StripGivesKeys(raw.name);
    }
  }

  lemma ShapeFacts(m: Index)
    requires Shape(m)
    ensures LinksParse(m) && AllGood(m.Keys)
  {
    forall k | k in m
      ensures GoodNames(k) && (IsLink(m[k]) ==> Next(k, m[k]).Some?)
    {
      assert GoodKeyed(Keyed(k, m[k]));
    }
  }

  lemma ShapeMore(m: Index, x: Keyed)
    requires Shape(m) && Fresh(m, x) && GoodKeyed(x)
    ensures Shape(m[x.key := x.entry]) && |m[x.key := x.entry]| == |m| + 1
  {
    var m' := m[x.key := x.entry];
    assert m'.Keys == m.Keys + {x.key};
    forall k | k in m'
      ensures GoodKeyed(Keyed(k, m'[k]))
    {
      if k == x.key {
        assert Keyed(k, m'[k]) == x;
      } else {
        assert GoodKeyed(Keyed(k, m[k]));
      }
    }
    TreeMore(m, x);
  }

  lemma TreeMore(m: Index, x: Keyed)
    requires TreeShaped(m) && Fresh(m, x)
    ensures TreeShaped(m[x.key := x.entry])
  {
  }

  /** After any accepted members the index is a tree and `bytes` stays within its limit. */
  lemma {:induction false} FeedKeepsShape<T>(parse: T -> Option<Item>, raws: seq<T>)
    requires forall r :: r in raws ==> GoodItem(parse(r))
    requires Feed(parse, Some(EMPTY), raws).Some?
    ensures var s := Feed(parse, Some(EMPTY), raws).value;
            Shape(s.entries) && |s.entries| <= MAX_ENTRIES && s.bytes <= MAX_BYTES
    decreases |raws|
  {
    if raws != [] {
      var front, last := raws[..|raws| - 1], raws[|raws| - 1];
      FeedSnoc(parse, Some(EMPTY), raws);
      FeedKeepsShape(parse, front);
      assert GoodItem(parse(last));
      var s, item := Feed(parse, Some(EMPTY), front).value, parse(last).value;
      if item.entry.Some? {
        ShapeMore(s.entries, item.entry.value);
      }
    }
  }
}
