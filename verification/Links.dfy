/**
 Index entries and their links: the lexical destination of a link target and the
 chain of links that `finish` walks with a set of keys already seen.
 */
module Links {
  import opened Wrappers
  import opened Paths
  import opened FileTree

  datatype Kind = File | Directory | Symlink | Hardlink | Special

  datatype Entry = Entry(path: string, kind: Kind, mode: nat, size: nat, digest: string, target: Option<string>)

  predicate IsLink(e: Entry)
  {
    e.kind.Symlink? || e.kind.Hardlink?
  }

  /** The sorted map of entries; a key string is represented by its component list. */
  type Index = map<Path, Entry>

  // ----- lexical destination -----

  /** Walks `cs` from directory `base`; None as soon as the walk would leave the root. */
  function Walk(base: seq<string>, cs: seq<Component>): Option<seq<string>>
    decreases |cs|
  {
    if cs == [] then Some(base)
    else match cs[0]
      case CurDir => Walk(base, cs[1..])
      case Normal(n) => Walk(base + [n], cs[1..])
      case ParentDir => if base == [] then None else Walk(base[..|base| - 1], cs[1..])
      case RootDir => None
  }

  /** Names pushed minus names popped. */
  function Balance(cs: seq<Component>): int
  {
    if cs == [] then 0
    else (match cs[0] case Normal(_) => 1 case ParentDir => -1 case _ => 0) + Balance(cs[1..])
  }

  /** Confinement: a walk stays inside exactly when no prefix of the target climbs above the root. */
  lemma {:induction false} WalkStaysInside(base: seq<string>, cs: seq<Component>)
    ensures Walk(base, cs).Some? <==>
            RootDir !in cs && forall i :: 0 <= i <= |cs| ==> |base| + Balance(cs[..i]) >= 0
    ensures Walk(base, cs).Some? ==> |Walk(base, cs).value| == |base| + Balance(cs)
    decreases |cs|
  {
    if cs == [] {
    } else if cs[0].RootDir? {
    } else {
      var d := match cs[0] case Normal(_) => 1 case ParentDir => -1 case _ => 0;
      forall i | 1 <= i <= |cs|
        ensures Balance(cs[..i]) == d + Balance(cs[1..][..i - 1])
      {
        assert cs[..i][1..] == cs[1..][..i - 1];
      }
      if d == -1 && base == [] {
        assert |base| + Balance(cs[..1]) < 0;
      } else {
        var next := match cs[0] case Normal(n) => base + [n] case ParentDir => base[..|base| - 1] case _ => base;
        WalkStaysInside(next, cs[1..]);
        if Walk(base, cs).Some? {
          forall i | 0 <= i <= |cs|
            ensures |base| + Balance(cs[..i]) >= 0
          {
            if i > 0 {
              assert |next| + Balance(cs[1..][..i - 1]) >= 0;
            }
          }
        } else if RootDir !in cs {
          var i :| 0 <= i <= |cs[1..]| && |next| + Balance(cs[1..][..i]) < 0;
          assert |base| + Balance(cs[..i + 1]) < 0;
        }
      }
    }
  }

  lemma {:induction false} WalkKeepsNames(base: seq<string>, cs: seq<Component>)
    requires Walk(base, cs).Some?
    ensures forall n :: n in Walk(base, cs).value ==> n in base || Normal(n) in cs
    decreases |cs|
  {
    if cs != [] {
      var next := match cs[0] case Normal(n) => base + [n] case ParentDir => base[..|base| - 1] case _ => base;
      WalkKeepsNames(next, cs[1..]);
    }
  }

  function Base(key: Path, hard: bool): Path
  {
    if hard || key == [] then [] else ParentOf(key)
  }

  /** The index key a link names, or None when its target is malformed or leaves the root. */
  function Destination(key: Path, target: string, hard: bool): Option<Path>
  {
    if target == "" || !Clean(target) || target[0] == '/' then None
    else
      var w := Walk(Base(key, hard), Components(target));
      if w.None? || w.value == [] then None else w
  }

  /** A link is confined: its destination is again a key below the root. */
  lemma DestinationIsKey(key: Path, target: string, hard: bool)
    requires GoodNames(key)
    requires Destination(key, target, hard).Some?
    ensures GoodNames(Destination(key, target, hard).value)
  {
    var base := Base(key, hard);
    var cs := Components(target);
    WalkKeepsNames(base, cs);
    CleanPieces(target);
    var w := Walk(base, cs).value;
    forall n | n in w
      ensures GoodName(n)
    {
      if n in base {
        assert n in key;
      } else {
        assert Normal(n) in cs;
      }
    }
  }

  /** The push-and-pop loop of `link_destination`. */
  method LinkDestination(key: Path, target: string, hard: bool) returns (r: Option<Path>)
    ensures r == Destination(key, target, hard)
  {
    if target == "" || !Clean(target) || target[0] == '/' {
      return None;
    }
    var parts := Base(key, hard);
    var cs := Components(target);
    var i := 0;
    while i < |cs|
      invariant 0 <= i <= |cs|
      invariant Walk(parts, cs[i..]) == Walk(Base(key, hard), cs)
    {
      assert cs[i..][1..] == cs[i + 1..];
      match cs[i] {
        case CurDir =>
        case Normal(n) => parts := parts + [n];
        case ParentDir =>
          if parts == [] {
            return None;
          }
          parts := parts[..|parts| - 1];
        case RootDir =>
          return None;
      }
      i := i + 1;
    }
    if parts == [] {
      return None;
    }
    r := Some(parts);
  }

  // ----- where a link leads -----

  function Ups(j: nat): seq<string>
  {
    seq(j, _ => "..")
  }

  function Climb(j: nat): seq<Component>
  {
    seq(j, _ => ParentDir)
  }

  function Descend(ns: seq<string>): seq<Component>
  {
    seq(|ns|, i requires 0 <= i < |ns| => Normal(ns[i]))
  }

  lemma {:induction false} PiecesOfNames(ns: seq<string>)
    requires forall n :: n in ns ==> GoodName(n)
    ensures Pieces(ns) == Descend(ns)
  {
    if ns != [] {
      assert GoodName(ns[0]);
      PiecesOfNames(ns[1..]);
      assert Descend(ns) == [Normal(ns[0])] + Descend(ns[1..]);
    }
  }

  lemma {:induction false} PiecesOfClimb(j: nat, ns: seq<string>)
    requires forall n :: n in ns ==> GoodName(n)
    ensures Pieces(Ups(j) + ns) == Climb(j) + Descend(ns)
    decreases j
  {
    if j == 0 {
      assert Ups(0) + ns == ns && Climb(0) + Descend(ns) == Descend(ns);
      PiecesOfNames(ns);
    } else {
      var parts := Ups(j) + ns;
      assert parts[0] == ".." && parts[1..] == Ups(j - 1) + ns;
      PiecesOfClimb(j - 1, ns);
      assert Climb(j) + Descend(ns) == [ParentDir] + (Climb(j - 1) + Descend(ns));
    }
  }

  lemma {:induction false} WalkDown(base: Path, ns: seq<string>)
    ensures Walk(base, Descend(ns)) == Some(base + ns)
    decreases |ns|
  {
    if ns == [] {
      assert base + ns == base;
    } else {
      assert Descend(ns)[1..] == Descend(ns[1..]);
      WalkDown(base + [ns[0]], ns[1..]);
      assert base + [ns[0]] + ns[1..] == base + ns;
    }
  }

  lemma {:induction false} WalkClimb(d: Path, j: nat, ns: seq<string>)
    ensures Walk(d, Climb(j) + Descend(ns)) == if j <= |d| then Some(d[..|d| - j] + ns) else None
    decreases j
  {
    var cs := Climb(j) + Descend(ns);
    if j == 0 {
      assert cs == Descend(ns) && d[..|d|] == d;
      WalkDown(d, ns);
    } else {
      assert cs[0] == ParentDir && cs[1..] == Climb(j - 1) + Descend(ns);
      if d != [] {
        WalkClimb(d[..|d| - 1], j - 1, ns);
        assert j <= |d| ==> d[..|d| - 1][..|d| - j] == d[..|d| - j];
      }
    }
  }

  predicate PlainNames(ns: Path)
  {
    forall n :: n in ns ==> GoodName(n)
  }

  lemma JoinStarts(parts: seq<string>)
    requires |parts| > 0 && parts[0] != "" && parts[0][0] != '/'
    ensures Join(parts) != "" && Join(parts)[0] != '/'
  {
  }

  lemma TargetParts(j: nat, ns: Path, p: string)
    requires PlainNames(ns) && p in Ups(j) + ns
    ensures '/' !in p && Clean(p) && p != "" && p != "."
  {
    var parts := Ups(j) + ns;
    var i :| 0 <= i < |parts| && parts[i] == p;
    if i >= j {
      assert p == ns[i - j] && p in ns;
    }
  }

  lemma TargetComponents(j: nat, ns: Path)
    requires PlainNames(ns) && j + |ns| > 0
    ensures var target := Join(Ups(j) + ns);
            target != "" && Clean(target) && target[0] != '/' && Components(target) == Climb(j) + Descend(ns)
  {
    var parts := Ups(j) + ns;
    forall p | p in parts
      ensures '/' !in p && Clean(p) && p != "" && p != "."
    {
      TargetParts(j, ns, p);
    }
    assert parts[0] in parts;
    JoinStarts(parts);
    SplitOfJoin(parts);
    CleanJoin(parts);
    PiecesOfClimb(j, ns);
  }

  /**
   A symbolic link in directory `d` climbs `j` times from `d` and then descends; it is refused
   exactly when it climbs too far or ends at the root itself.
   */
  lemma SymlinkLeads(d: Path, n: string, j: nat, ns: Path)
    requires PlainNames(ns) && j + |ns| > 0
    ensures Destination(d + [n], Join(Ups(j) + ns), false) ==
            if j <= |d| && d[..|d| - j] + ns != [] then Some(d[..|d| - j] + ns) else None
  {
    TargetComponents(j, ns);
    assert ParentOf(d + [n]) == d;
    WalkClimb(d, j, ns);
  }

  /** A hard link names its file from the root, whatever directory it lies in. */
  lemma HardlinkLeads(key: Path, ns: Path)
    requires GoodNames(ns)
    ensures Destination(key, Join(ns), true) == Some(ns)
  {
    TargetComponents(0, ns);
    assert Ups(0) + ns == ns;
    WalkClimb([], 0, ns);
    assert [] + ns == ns;
  }

  // ----- link chains -----

  /** The key a link entry points at, when its target parses. */
  function Next(key: Path, e: Entry): Option<Path>
  {
    if e.target.None? then None else Destination(key, e.target.value, e.kind.Hardlink?)
  }

  /** Every link carries a target that parses; `entry` admits no other. */
  predicate LinksParse(m: Index)
  {
    forall k :: k in m && IsLink(m[k]) ==> Next(k, m[k]).Some?
  }

  /** Present keys; a link maps to the key it points at, any other entry to None. */
  type Graph = map<Path, Option<Path>>

  ghost function LinkGraph(m: Index): (g: Graph)
    ensures g.Keys == m.Keys
    ensures LinksParse(m) ==> forall k :: k in m ==> (g[k].Some? <==> IsLink(m[k]))
  {
    map k | k in m :: if IsLink(m[k]) then Next(k, m[k]) else None
  }

  /** The key after following `n` links from `p`, or None when the chain stops earlier. */
  ghost function Chase(g: Graph, p: Path, n: nat): Option<Path>
    decreases n
  {
    if n == 0 then Some(p)
    else if p in g && g[p].Some? then Chase(g, g[p].value, n - 1)
    else None
  }

  /** Some number of links leads from `p` to the present entry `q`, which is no link. */
  ghost predicate Reaches(g: Graph, p: Path, q: Path)
  {
    q in g && g[q].None? && exists n: nat :: Chase(g, p, n) == Some(q)
  }

  lemma ReachesSelf(g: Graph, p: Path)
    requires p in g && g[p].None?
    ensures forall q :: Reaches(g, p, q) <==> q == p
  {
    assert Chase(g, p, 0) == Some(p);
  }

  lemma ReachesNext(g: Graph, p: Path)
    requires p in g && g[p].Some?
    ensures forall q :: Reaches(g, p, q) <==> Reaches(g, g[p].value, q)
  {
    var next := g[p].value;
    forall q
      ensures Reaches(g, p, q) <==> Reaches(g, next, q)
    {
      if Reaches(g, p, q) {
        var n: nat :| Chase(g, p, n) == Some(q);
        assert Chase(g, next, n - 1) == Some(q);
      }
      if Reaches(g, next, q) {
        var n: nat :| Chase(g, next, n) == Some(q);
        assert Chase(g, p, n + 1) == Some(q);
      }
    }
  }

  lemma {:induction false} ChaseStops(g: Graph, p: Path, i: nat, j: nat)
    requires i <= j
    requires Chase(g, p, i).Some? && Chase(g, p, j).Some?
    requires Chase(g, p, i).value in g && g[Chase(g, p, i).value].None?
    ensures i == j
    decreases i
  {
    if i > 0 {
      ChaseStops(g, g[p].value, i - 1, j - 1);
    }
  }

  /** A chain has at most one end. */
  lemma ReachesOne(g: Graph, p: Path, q: Path, r: Path)
    requires Reaches(g, p, q) && Reaches(g, p, r)
    ensures q == r
  {
    var i: nat :| Chase(g, p, i) == Some(q);
    var j: nat :| Chase(g, p, j) == Some(r);
    if i <= j { ChaseStops(g, p, i, j); } else { ChaseStops(g, p, j, i); }
  }

  /** A set of links whose successors stay in the set is a trap. */
  lemma {:induction false} ClosedChase(g: Graph, s: set<Path>, p: Path, n: nat)
    requires p in s
    requires forall x :: x in s ==> x in g && g[x].Some? && g[x].value in s
    ensures Chase(g, p, n).Some? && Chase(g, p, n).value in s
    decreases n
  {
    if n > 0 {
      ClosedChase(g, s, g[p].value, n - 1);
    }
  }

  lemma {:induction false} ChaseOnward(g: Graph, p: Path, n: nat)
    requires Chase(g, p, n).Some?
    requires Chase(g, p, n).value in g && g[Chase(g, p, n).value].Some?
    ensures Chase(g, p, n + 1) == g[Chase(g, p, n).value]
    decreases n
  {
    if n == 0 {
      assert Chase(g, p, 1) == Chase(g, g[p].value, 0);
    } else {
      ChaseOnward(g, g[p].value, n - 1);
    }
  }

  datatype LinkFault = Cyclic | Absent

  /**
   The inner loop of `finish`. It always ends (the keys not yet seen shrink), and it
   succeeds exactly when the chain reaches a present entry that is not a link.
   */
  method Resolve(m: Index, start: Path) returns (r: Result<Path, LinkFault>)
    requires LinksParse(m)
    ensures r.Ok? ==> Reaches(LinkGraph(m), start, r.value)
    ensures r.Err? ==> forall q :: !Reaches(LinkGraph(m), start, q)
    ensures r == Err(Cyclic) ==> forall n: nat :: Chase(LinkGraph(m), start, n).Some?
    ensures r == Err(Absent) ==> exists n: nat :: Chase(LinkGraph(m), start, n).Some? && Chase(LinkGraph(m), start, n).value !in m
  {
    GraphDepicts(m);
    r := Follow(m, LinkGraph(m), start);
  }

  /** `g` sends each link to its destination and leaves the other entries where they are. */
  ghost predicate Depicts(g: Graph, m: Index)
  {
    && g.Keys == m.Keys
    && forall p {:trigger Onward(g, m, p)} :: p in m && p in g ==> Onward(g, m, p)
  }

  ghost predicate Onward(g: Graph, m: Index, p: Path)
    requires p in m && p in g
  {
    if IsLink(m[p]) then g[p].Some? && g[p] == Next(p, m[p]) else g[p].None?
  }

  lemma GraphDepicts(m: Index)
    requires LinksParse(m)
    ensures Depicts(LinkGraph(m), m)
  {
  }

  lemma NowhereAbsent(g: Graph, p: Path)
    requires p !in g
    ensures forall q :: !Reaches(g, p, q)
  {
    forall q, n: nat
      ensures Chase(g, p, n) == Some(q) ==> q == p
    {
    }
  }

  /** The links seen so far lead to one another or to the present place. */
  ghost predicate Trail(g: Graph, seen: set<Path>, resolved: Path)
  {
    forall x {:trigger x in seen} :: x in seen ==> x in g && g[x].Some? && (g[x].value in seen || g[x].value == resolved)
  }

  lemma TrailOn(g: Graph, seen: set<Path>, resolved: Path)
    requires Trail(g, seen, resolved) && resolved in g && g[resolved].Some?
    ensures Trail(g, seen + {resolved}, g[resolved].value)
  {
  }

  lemma TrailCloses(g: Graph, seen: set<Path>, start: Path, resolved: Path)
    requires Trail(g, seen, resolved) && resolved in seen && start in seen
    ensures forall n: nat :: Chase(g, start, n).Some?
    ensures forall q :: !Reaches(g, start, q)
  {
    forall k: nat
      ensures Chase(g, start, k).Some? && Chase(g, start, k).value in seen
    {
      ClosedChase(g, seen, start, k);
    }
    forall q
      ensures !Reaches(g, start, q)
    {
      assert q in seen ==> g[q].Some?;
    }
  }

  ghost predicate SameEnds(g: Graph, p: Path, q: Path)
  {
    forall r {:trigger Reaches(g, p, r)} {:trigger Reaches(g, q, r)} :: Reaches(g, p, r) <==> Reaches(g, q, r)
  }

  method Follow(m: Index, ghost g: Graph, start: Path) returns (r: Result<Path, LinkFault>)
    requires Depicts(g, m)
    ensures r.Ok? ==> Reaches(g, start, r.value)
    ensures r.Err? ==> forall q :: !Reaches(g, start, q)
    ensures r == Err(Cyclic) ==> forall n: nat :: Chase(g, start, n).Some?
    ensures r == Err(Absent) ==> exists n: nat :: Chase(g, start, n).Some? && Chase(g, start, n).value !in m
  {
    var resolved := start;
    var seen: set<Path> := {};
    ghost var n: nat := 0;
    while true
      invariant Trail(g, seen, resolved)
      invariant if seen == {} then resolved == start else start in seen
      invariant Chase(g, start, n) == Some(resolved)
      invariant SameEnds(g, start, resolved)
      decreases m.Keys - seen
    {
      if resolved in seen {
        TrailCloses(g, seen, start, resolved);
        return Err(Cyclic);
      }
      if resolved !in m {
        NowhereAbsent(g, resolved);
        return Err(Absent);
      }
      assert Onward(g, m, resolved);
      if !IsLink(m[resolved]) {
        ReachesSelf(g, resolved);
        return Ok(resolved);
      }
      ReachesNext(g, resolved);
      ChaseOnward(g, start, n);
      TrailOn(g, seen, resolved);
      var next := LinkDestination(resolved, m[resolved].target.value, m[resolved].kind.Hardlink?);
      seen := seen + {resolved};
      resolved := next.value;
      n := n + 1;
    }
  }
}
