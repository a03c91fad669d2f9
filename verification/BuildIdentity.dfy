/**
 The system-execution build identity: which repository files are fed to the digest, in which
 order, and why equal streams mean equal fingerprinted files.
 */
module BuildIdentity {
  import opened Wrappers
  import opened SourceTree
  import Paths
  import S = IdentityStream

  // ----- which files -----

  /** Position of the last dot, if any. */
  function LastDot(n: string): (r: Option<nat>)
    ensures r.Some? ==> r.value < |n| && n[r.value] == '.' && '.' !in n[r.value + 1..]
    ensures r.None? ==> '.' !in n
  {
    if n == "" then None
    else if n[|n| - 1] == '.' then Some(|n| - 1)
    else LastDot(n[..|n| - 1])
  }

  /** A leading dot does not start an extension. */
  function Extension(n: string): Option<string>
  {
    var dot := LastDot(n);
    if dot.None? || dot.value == 0 then None else Some(n[dot.value + 1..])
  }

  predicate Matching(n: string)
  {
    Extension(n) in {Some("rs"), Some("swift"), Some("toml"), Some("plist")}
  }

  lemma {:induction false} LastDotIs(n: string, i: nat)
    requires i < |n| && n[i] == '.' && forall j :: i < j < |n| ==> n[j] != '.'
    ensures LastDot(n) == Some(i)
  {
    if i < |n| - 1 {
      LastDotIs(n[..|n| - 1], i);
    }
  }

  /** A fingerprinted file has a name before its last dot and one of four endings after it. */
  lemma MatchingNames(stem: string, ending: string)
    requires '.' !in ending
    ensures Matching(stem + "." + ending) <==> stem != "" && ending in {"rs", "swift", "toml", "plist"}
    ensures !Matching(ending)
  {
    ExtensionOf(stem, ending);
    assert LastDot(ending).None?;
  }

  lemma ExtensionOf(stem: string, ending: string)
    requires '.' !in ending
    ensures Extension(stem + "." + ending) == if stem == "" then None else Some(ending)
  {
    var n := stem + "." + ending;
    LastDotIs(n, |stem|);
    assert n[|stem| + 1..] == ending;
  }

  ghost function Inventory(path: seq<Name>, t: Tree): seq<Source>
    requires t.Folder?
    decreases t, 1, 0
  {
    Listing(path, t, InOrder(t.children.Keys))
  }

  ghost function Listing(path: seq<Name>, t: Tree, names: seq<Name>): seq<Source>
    requires t.Folder? && forall n :: n in names ==> n in t.children
    decreases t, 0, |names|
  {
    if names == [] then []
    else
      var n := names[|names| - 1];
      Listing(path, t, names[..|names| - 1]) + Child(path, n, t.children[n])
  }

  ghost function Child(path: seq<Name>, n: Name, t: Tree): seq<Source>
    decreases t, 2, 0
  {
    if t.Folder? then Inventory(path + [n], t)
    else if Matching(n) then [Source(path + [n], t.bytes)]
    else []
  }

  /** The file at `s.path`, below `path` where `t` stands, with a fingerprinted extension. */
  predicate Wanted(path: seq<Name>, t: Tree, s: Source)
  {
    && path < s.path
    && Lookup(t, s.path[|path|..]) == Some(File(s.bytes))
    && Matching(s.path[|s.path| - 1])
  }

  /** The inventory lists exactly the matching files below the folder, at any depth. */
  lemma {:induction false} InventoryExact(path: seq<Name>, t: Tree, s: Source)
    requires t.Folder?
    ensures s in Inventory(path, t) <==> Wanted(path, t, s)
    decreases t, 1, 0
  {
    var names := InOrder(t.children.Keys);
    ListingExact(path, t, names, s);
  }

  lemma {:induction false} ListingExact(path: seq<Name>, t: Tree, names: seq<Name>, s: Source)
    requires t.Folder? && forall n :: n in names ==> n in t.children
    ensures s in Listing(path, t, names) <==> Wanted(path, t, s) && s.path[|path|] in names
    decreases t, 0, |names|
  {
    if names != [] {
      var rest, n := names[..|names| - 1], names[|names| - 1];
      ListingExact(path, t, rest, s);
      ChildExact(path, n, t.children[n], t, s);
    }
  }

  lemma {:induction false} ChildExact(path: seq<Name>, n: Name, c: Tree, t: Tree, s: Source)
    requires t.Folder? && n in t.children && t.children[n] == c
    ensures s in Child(path, n, c) <==> Wanted(path, t, s) && s.path[|path|] == n
    decreases c, 2, 0
  {
    var deeper := path + [n];
    if c.Folder? {
      InventoryExact(deeper, c, s);
    }
    if path < s.path && s.path[|path|] == n {
      var rel := s.path[|path|..];
      assert rel[1..] == s.path[|path| + 1..];
      if |rel| > 1 {
        assert deeper < s.path && s.path[|deeper|..] == rel[1..];
        assert Lookup(t, rel) == Lookup(c, rel[1..]);
        assert c.File? ==> Lookup(c, rel[1..]) == None;
      } else {
        assert s.path == deeper && rel[1..] == [];
        assert Lookup(t, rel) == Some(c);
      }
    }
  }

  predicate OncePerPath(list: seq<Source>)
  {
    forall i, j :: 0 <= i < j < |list| ==> list[i].path != list[j].path
  }

  lemma OnceAppend(a: seq<Source>, b: seq<Source>)
    requires OncePerPath(a) && OncePerPath(b)
    requires forall x, y :: x in a && y in b ==> x.path != y.path
    ensures OncePerPath(a + b)
  {
    var list := a + b;
    forall i, j | 0 <= i < j < |list|
      ensures list[i].path != list[j].path
    {
      if i < |a| <= j {
        assert list[i] in a && list[j] in b;
      }
    }
  }

  /** No file is fed twice. */
  lemma {:induction false} InventoryOnce(path: seq<Name>, t: Tree)
    requires t.Folder?
    ensures OncePerPath(Inventory(path, t))
    decreases t, 1, 0
  {
    InOrderDistinct(t.children.Keys);
    ListingOnce(path, t, InOrder(t.children.Keys));
  }

  lemma {:induction false} InOrderDistinct(s: set<Name>)
    ensures Distinct(InOrder(s))
  {
    if s != {} {
      var n := FirstExists(s);
      InOrderStep(s, n);
      InOrderDistinct(s - {n});
      assert n !in InOrder(s - {n});
    }
  }

  lemma {:induction false} ListingOnce(path: seq<Name>, t: Tree, names: seq<Name>)
    requires t.Folder? && Distinct(names) && forall n :: n in names ==> n in t.children
    ensures OncePerPath(Listing(path, t, names))
    decreases t, 0, |names|
  {
    if names != [] {
      var rest, n := names[..|names| - 1], names[|names| - 1];
      var c := t.children[n];
      ListingOnce(path, t, rest);
      if c.Folder? {
        InventoryOnce(path + [n], c);
      }
      forall x, y | x in Listing(path, t, rest) && y in Child(path, n, c)
        ensures x.path != y.path
      {
        ListingExact(path, t, rest, x);
        ChildExact(path, n, c, t, y);
        assert n !in rest;
      }
      OnceAppend(Listing(path, t, rest), Child(path, n, c));
    }
  }

  // ----- the hash state -----

  /** What is fed for a file: its repository path joined with '/', in some encoding. */
  function Items(encode: string -> seq<byte>, list: seq<Source>): (r: seq<S.Item>)
    ensures |r| == |list|
  {
    seq(|list|, i requires 0 <= i < |list| => S.Item(encode(Paths.Join(list[i].path)), list[i].bytes))
  }

  lemma FeedAppend(encode: string -> seq<byte>, a: seq<Source>, b: seq<Source>)
    ensures S.Body(Items(encode, a + b)) == S.Body(Items(encode, a)) + S.Body(Items(encode, b))
  {
    assert Items(encode, a + b) == Items(encode, a) + Items(encode, b);
    S.BodyAppend(Items(encode, a), Items(encode, b));
  }

  class Hasher {
    const encode: string -> seq<byte>
    var stream: seq<byte>

    constructor (encode: string -> seq<byte>)
      ensures this.encode == encode && stream == []
    {
      this.encode, stream := encode, [];
    }

    method Update(bytes: seq<byte>)
      modifies this
      ensures stream == old(stream) + bytes
    {
      stream := stream + bytes;
    }

    method HashFile(path: seq<Name>, bytes: seq<byte>)
      modifies this
      ensures stream == old(stream) + S.Body(Items(encode, [Source(path, bytes)]))
    {
      var name := encode(Paths.Join(path));
      Update(S.U64(|name|));
      Update(name);
      Update(S.U64(|bytes|));
      Update(bytes);
      Single(encode, Source(path, bytes), old(stream));
    }

    /** Whatever order the directories are listed in, what is fed is a function of the tree. */
    method HashSources(path: seq<Name>, t: Tree)
      requires t.Folder?
      modifies this
      ensures stream == old(stream) + S.Body(Items(encode, Inventory(path, t)))
      decreases t
    {
      var children := ReadDir(t.children.Keys);
      SortNames(children);
      ghost var names := InOrder(t.children.Keys);
      var i := 0;
      Nothing(encode, stream);
      while i < children.Length
        invariant 0 <= i <= children.Length && children[..] == names
        invariant stream == old(stream) + S.Body(Items(encode, Listing(path, t, names[..i])))
      {
        var n := children[i];
        assert n == names[i] && n in names;
        var c := t.children[n];
        ghost var fed := stream;
        if c.Folder? {
          HashSources(path + [n], c);
        } else if Matching(n) {
          HashFile(path + [n], c.bytes);
        } else {
          Nothing(encode, stream);
        }
        Grown(encode, path, t, names, i, old(stream), fed, stream);
        i := i + 1;
      }
      assert names[..i] == names;
    }
  }

  lemma Nothing(encode: string -> seq<byte>, stream: seq<byte>)
    ensures stream == stream + S.Body(Items(encode, []))
  {
  }

  lemma Single(encode: string -> seq<byte>, s: Source, before: seq<byte>)
    ensures var name := encode(Paths.Join(s.path));
            before + S.U64(|name|) + name + S.U64(|s.bytes|) + s.bytes == before + S.Body(Items(encode, [s]))
  {
    var name := encode(Paths.Join(s.path));
    assert Items(encode, [s]) == [S.Item(name, s.bytes)] + [];
    S.BodyCons(S.Item(name, s.bytes), []);
  }

  lemma Grown(encode: string -> seq<byte>, path: seq<Name>, t: Tree, names: seq<Name>, i: nat,
              start: seq<byte>, before: seq<byte>, after: seq<byte>)
    requires t.Folder? && i < |names| && forall n :: n in names ==> n in t.children
    requires before == start + S.Body(Items(encode, Listing(path, t, names[..i])))
    requires after == before + S.Body(Items(encode, Child(path, names[i], t.children[names[i]])))
    ensures after == start + S.Body(Items(encode, Listing(path, t, names[..i + 1])))
  {
    var a, b := Listing(path, t, names[..i]), Child(path, names[i], t.children[names[i]]);
    assert names[..i + 1][..i] == names[..i];
    assert Listing(path, t, names[..i + 1]) == a + b;
    FeedAppend(encode, a, b);
    S.Associate(start, S.Body(Items(encode, a)), S.Body(Items(encode, b)));
  }

  /** A directory listing: each name once, in no particular order. */
  method ReadDir(names: set<Name>) returns (a: array<Name>)
    ensures fresh(a) && Distinct(a[..]) && Elements(a[..]) == names
  {
    var listed: seq<Name> := [];
    var rest := names;
    while rest != {}
      invariant Distinct(listed) && rest !! Elements(listed) && rest + Elements(listed) == names
      decreases |rest|
    {
      var n :| n in rest;
      assert n !in Elements(listed);
      assert Elements(listed + [n]) == Elements(listed) + {n};
      listed, rest := listed + [n], rest - {n};
    }
    a := new Name[|listed|](i requires 0 <= i < |listed| => listed[i]);
    assert a[..] == listed;
  }

  // ----- the whole stream -----

  datatype Feed = Fixed(relative: string) | Sources(relative: string)

  function Plan(platform: string): seq<Feed>
  {
    [ Fixed("Cargo.toml"),
      Fixed("Cargo.lock"),
      Fixed("crates/shared/nomi-system-execution/Cargo.toml"),
      Fixed("crates/shared/nomi-process-runtime/Cargo.toml"),
      Fixed("crates/shared/nomi-native-files/Cargo.toml"),
      Fixed("apps/desktop/linux-system-execution/com.nomifun.system-execution.policy"),
      Fixed("apps/desktop/linux-system-execution/install.sh"),
      Fixed("crates/shared/nomi-system-execution/build.rs"),
      Sources("crates/shared/nomi-system-execution/src"),
      Sources("crates/shared/nomi-process-runtime/src"),
      Sources("crates/shared/nomi-native-files/src"),
      Sources("apps/desktop/macos-system-execution") ]
    + if platform == "windows" then
        [ Fixed("apps/desktop/src/main.rs"),
          Fixed("apps/web/src/main.rs"),
          Fixed("crates/backend/nomifun-app/src/main.rs"),
          Fixed("crates/backend/nomifun-app/src/lib.rs"),
          Fixed("crates/backend/nomifun-app/Cargo.toml") ]
      else []
  }

  function At(relative: string): (path: seq<Name>)
    ensures |path| >= 1
  {
    Paths.Split(relative)
  }

  /** What one entry of the plan contributes; `None` where the build script panics. */
  ghost function Fed(repo: Tree, f: Feed): Option<seq<Source>>
  {
    var found := Lookup(repo, At(f.relative));
    if f.Fixed? && found.Some? && found.value.File? then Some([Source(At(f.relative), found.value.bytes)])
    else if f.Sources? && found.Some? && found.value.Folder? then Some(Inventory(At(f.relative), found.value))
    else None
  }

  ghost function Inputs(repo: Tree, plan: seq<Feed>): Option<seq<Source>>
  {
    if plan == [] then Some([])
    else
      var rest, last := Inputs(repo, plan[..|plan| - 1]), Fed(repo, plan[|plan| - 1]);
      if rest.Some? && last.Some? then Some(rest.value + last.value) else None
  }

  datatype Outcome = Skipped | Panicked | Identity(digest: string)

  method FeedOne(hasher: Hasher, repo: Tree, f: Feed) returns (ok: bool)
    modifies hasher
    ensures ok <==> Fed(repo, f).Some?
    ensures ok ==> hasher.stream == old(hasher.stream) + S.Body(Items(hasher.encode, Fed(repo, f).value))
  {
    var found := Lookup(repo, At(f.relative));
    if f.Fixed? && found.Some? && found.value.File? {
      hasher.HashFile(At(f.relative), found.value.bytes);
      return true;
    }
    if f.Sources? && found.Some? && found.value.Folder? {
      hasher.HashSources(At(f.relative), found.value);
      return true;
    }
    return false;
  }

  lemma FedNext(encode: string -> seq<byte>, repo: Tree, plan: seq<Feed>, i: nat)
    requires i < |plan| && Inputs(repo, plan[..i]).Some?
    ensures Fed(repo, plan[i]).None? ==> Inputs(repo, plan).None?
    ensures Fed(repo, plan[i]).Some? ==>
              && Inputs(repo, plan[..i + 1]).Some?
              && S.Body(Items(encode, Inputs(repo, plan[..i + 1]).value)) ==
                 S.Body(Items(encode, Inputs(repo, plan[..i]).value)) + S.Body(Items(encode, Fed(repo, plan[i]).value))
  {
    assert plan[..i + 1][..i] == plan[..i];
    if Fed(repo, plan[i]).None? {
      PanicStays(repo, plan, i + 1);
    } else {
      FeedAppend(encode, Inputs(repo, plan[..i]).value, Fed(repo, plan[i]).value);
    }
  }

  method FeedAll(hasher: Hasher, repo: Tree, plan: seq<Feed>) returns (ok: bool)
    requires hasher.stream == []
    modifies hasher
    ensures ok <==> Inputs(repo, plan).Some?
    ensures ok ==> hasher.stream == S.Body(Items(hasher.encode, Inputs(repo, plan).value))
  {
    var i := 0;
    while i < |plan|
      invariant 0 <= i <= |plan|
      invariant Inputs(repo, plan[..i]).Some?
      invariant hasher.stream == S.Body(Items(hasher.encode, Inputs(repo, plan[..i]).value))
    {
      ok := FeedOne(hasher, repo, plan[i]);
      FedNext(hasher.encode, repo, plan, i);
      if !ok {
        return;
      }
      i := i + 1;
    }
    assert plan[..i] == plan;
    ok := true;
  }

  /** The build identity is the digest of exactly the stream of the plan's inputs. */
  method Identify(repo: Tree, platform: string, target: seq<byte>, version: seq<byte>,
                  encode: string -> seq<byte>, digest: seq<byte> -> string) returns (r: Outcome)
    ensures r == Skipped <==> platform !in {"macos", "windows", "linux"}
    ensures r == Panicked <==> r != Skipped && Inputs(repo, Plan(platform)).None?
    ensures r.Identity? ==> r.digest == digest(S.Stream(Items(encode, Inputs(repo, Plan(platform)).value), target + version))
  {
    if platform !in {"macos", "windows", "linux"} {
      return Skipped;
    }
    var hasher := new Hasher(encode);
    var ok := FeedAll(hasher, repo, Plan(platform));
    if !ok {
      return Panicked;
    }
    hasher.Update(target);
    hasher.Update(version);
    S.Associate(S.Body(Items(encode, Inputs(repo, Plan(platform)).value)), target, version);
    return Identity(digest(hasher.stream));
  }

  lemma {:induction false} PanicStays(repo: Tree, plan: seq<Feed>, i: nat)
    requires i <= |plan| && Inputs(repo, plan[..i]).None?
    ensures Inputs(repo, plan).None?
    decreases |plan|
  {
    if i == |plan| {
      assert plan[..i] == plan;
    } else {
      assert plan[..|plan| - 1][..i] == plan[..i];
      PanicStays(repo, plan[..|plan| - 1], i);
    }
  }

  // ----- what equal streams mean -----

  ghost predicate Injective(encode: string -> seq<byte>)
  {
    forall a, b {:trigger encode(a), encode(b)} :: encode(a) == encode(b) ==> a == b
  }

  ghost predicate Rooted(list: seq<Source>)
  {
    forall i {:trigger list[i]} :: 0 <= i < |list| ==> list[i].path != []
  }

  lemma ItemsInjective(encode: string -> seq<byte>, a: seq<Source>, b: seq<Source>)
    requires Injective(encode) && Rooted(a) && Rooted(b)
    requires Items(encode, a) == Items(encode, b)
    ensures a == b
  {
    assert |a| == |Items(encode, a)| == |b|;
    forall i | 0 <= i < |a|
      ensures a[i] == b[i]
    {
      assert Items(encode, a)[i] == Items(encode, b)[i];
      Paths.SplitOfJoin(a[i].path);
      Paths.SplitOfJoin(b[i].path);
    }
  }

  lemma {:induction false} LookupFurther(t: Tree, a: seq<Name>, b: seq<Name>)
    ensures Lookup(t, a + b) == if Lookup(t, a).Some? then Lookup(Lookup(t, a).value, b) else None
  {
    if a == [] {
      assert a + b == b;
    } else if t.Folder? && a[0] in t.children {
      assert (a + b)[1..] == a[1..] + b;
      LookupFurther(t.children[a[0]], a[1..], b);
    }
  }

  lemma FedExact(repo: Tree, f: Feed, s: Source)
    requires Fed(repo, f).Some?
    ensures s in Fed(repo, f).value <==> Lookup(repo, s.path) == Some(File(s.bytes)) && Covers(f, s.path)
  {
    if f.Sources? {
      SourcesExact(repo, At(f.relative), Lookup(repo, At(f.relative)).value, s);
    }
  }

  lemma SourcesExact(repo: Tree, path: seq<Name>, t: Tree, s: Source)
    requires Lookup(repo, path) == Some(t) && t.Folder?
    ensures s in Inventory(path, t) <==>
            Lookup(repo, s.path) == Some(File(s.bytes)) && path < s.path && Matching(s.path[|s.path| - 1])
  {
    InventoryExact(path, t, s);
    if path < s.path {
      assert s.path == path + s.path[|path|..];
      LookupFurther(repo, path, s.path[|path|..]);
    }
  }

  /** Whether the plan's entry fingerprints a file at `path`. */
  predicate Covers(f: Feed, path: seq<Name>)
  {
    match f
    case Fixed(relative) => path == At(relative)
    case Sources(relative) => At(relative) < path && Matching(path[|path| - 1])
  }

  /** The inputs are exactly the files of the repository that the plan covers. */
  lemma {:induction false} InputsExact(repo: Tree, plan: seq<Feed>, s: Source)
    requires Inputs(repo, plan).Some?
    ensures s in Inputs(repo, plan).value <==>
            Lookup(repo, s.path) == Some(File(s.bytes)) && exists f :: f in plan && Covers(f, s.path)
    decreases |plan|
  {
    if plan != [] {
      var rest, f := plan[..|plan| - 1], plan[|plan| - 1];
      InputsExact(repo, rest, s);
      FedExact(repo, f, s);
      CoveredLast(plan, s.path);
    }
  }

  lemma CoveredLast(plan: seq<Feed>, path: seq<Name>)
    requires plan != []
    ensures (exists f :: f in plan && Covers(f, path)) <==>
            (exists f :: f in plan[..|plan| - 1] && Covers(f, path)) || Covers(plan[|plan| - 1], path)
  {
    assert plan == plan[..|plan| - 1] + [plan[|plan| - 1]];
  }

  lemma InputsRooted(repo: Tree, plan: seq<Feed>)
    requires Inputs(repo, plan).Some?
    ensures Rooted(Inputs(repo, plan).value)
  {
    var list := Inputs(repo, plan).value;
    forall i | 0 <= i < |list|
      ensures list[i].path != []
    {
      assert list[i] in list;
      InputsExact(repo, plan, list[i]);
    }
  }

  /** Equal streams: the same inputs, and the same target and version written together. */
  lemma StreamDeterminesInputs(repo: Tree, other: Tree, plan: seq<Feed>, plan2: seq<Feed>, encode: string -> seq<byte>,
                               tail: seq<byte>, tail2: seq<byte>)
    requires Inputs(repo, plan).Some? && Inputs(other, plan2).Some?
    requires Injective(encode) && !S.Spells(tail) && !S.Spells(tail2)
    requires S.Storable(Items(encode, Inputs(repo, plan).value)) && S.Storable(Items(encode, Inputs(other, plan2).value))
    requires S.Stream(Items(encode, Inputs(repo, plan).value), tail) == S.Stream(Items(encode, Inputs(other, plan2).value), tail2)
    ensures Inputs(repo, plan) == Inputs(other, plan2) && tail == tail2
  {
    var a, b := Inputs(repo, plan).value, Inputs(other, plan2).value;
    S.Injective(Items(encode, a), Items(encode, b), tail, tail2);
    InputsRooted(repo, plan);
    InputsRooted(other, plan2);
    ItemsInjective(encode, a, b);
  }

  /** Equal inputs: the two repositories hold the same file at every covered path, or both none. */
  lemma InputsDetermineFiles(repo: Tree, other: Tree, plan: seq<Feed>, f: Feed, path: seq<Name>, bytes: seq<byte>)
    requires Inputs(repo, plan).Some? && Inputs(repo, plan) == Inputs(other, plan)
    requires f in plan && Covers(f, path)
    ensures Lookup(repo, path) == Some(File(bytes)) <==> Lookup(other, path) == Some(File(bytes))
  {
    InputsExact(repo, plan, Source(path, bytes));
    InputsExact(other, plan, Source(path, bytes));
  }
}
