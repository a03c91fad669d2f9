/**
 Path strings as the archive contract reads them: splitting at '/', the component
 classification of `std::path::Path` on Unix, and the joined form used as an index key.
 */
module Paths {
  import opened Wrappers

  // ----- splitting and joining -----

  function Split(s: string): (parts: seq<string>)
    ensures |parts| >= 1
    ensures forall p :: p in parts ==> '/' !in p
  {
    if s == "" then [""]
    else if s[0] == '/' then [""] + Split(s[1..])
    else
      var rest := Split(s[1..]);
      [[s[0]] + rest[0]] + rest[1..]
  }

  function Join(parts: seq<string>): string
  {
    if |parts| == 0 then ""
    else if |parts| == 1 then parts[0]
    else parts[0] + "/" + Join(parts[1..])
  }

  lemma {:induction false} JoinOfSplit(s: string)
    ensures Join(Split(s)) == s
  {
    if s == "" {
    } else if s[0] == '/' {
      JoinOfSplit(s[1..]);
      assert Split(s)[1..] == Split(s[1..]);
    } else {
      JoinOfSplit(s[1..]);
      var rest := Split(s[1..]);
      assert Split(s)[1..] == rest[1..];
      assert s == [s[0]] + s[1..];
      if |rest| > 1 {
        assert Join(Split(s)) == [s[0]] + rest[0] + "/" + Join(rest[1..]);
        assert [s[0]] + rest[0] + "/" + Join(rest[1..]) == [s[0]] + (rest[0] + "/" + Join(rest[1..]));
      }
    }
  }

  lemma {:induction false} SplitAtSlash(a: string, b: string)
    ensures Split(a + "/" + b) == Split(a) + Split(b)
  {
    var s := a + "/" + b;
    if a == "" {
      assert s[1..] == b;
    } else {
      assert s[1..] == a[1..] + "/" + b;
      SplitAtSlash(a[1..], b);
    }
  }

  lemma {:induction false} SplitWithoutSlash(s: string)
    requires '/' !in s
    ensures Split(s) == [s]
  {
    if s != "" {
      SplitWithoutSlash(s[1..]);
      assert s == [s[0]] + s[1..];
    }
  }

  lemma {:induction false} SplitOfJoin(parts: seq<string>)
    requires |parts| >= 1
    requires forall p :: p in parts ==> '/' !in p
    ensures Split(Join(parts)) == parts
  {
    SplitWithoutSlash(parts[0]);
    if |parts| > 1 {
      SplitOfJoin(parts[1..]);
      SplitAtSlash(parts[0], Join(parts[1..]));
      assert parts == [parts[0]] + parts[1..];
    }
  }

  lemma {:induction false} JoinAppend(a: seq<string>, b: seq<string>)
    requires |a| >= 1 && |b| >= 1
    ensures Join(a + b) == Join(a) + "/" + Join(b)
  {
    if |a| == 1 {
      assert (a + b)[1..] == b;
    } else {
      JoinAppend(a[1..], b);
      assert (a + b)[1..] == a[1..] + b;
      calc {
        Join(a + b);
        a[0] + "/" + (Join(a[1..]) + "/" + Join(b));
        (a[0] + "/" + Join(a[1..])) + "/" + Join(b);
      }
    }
  }

  // ----- components -----

  datatype Component = RootDir | CurDir | ParentDir | Normal(name: string)

  // Everywhere but at the front, empty pieces and "." vanish.
  function Pieces(parts: seq<string>): (cs: seq<Component>)
    ensures forall c :: c in cs ==> c.ParentDir? || (c.Normal? && c.name in parts && c.name != "" && c.name != "." && c.name != "..")
  {
    if parts == [] then []
    else
      var head :=
        if parts[0] == "" || parts[0] == "." then []
        else if parts[0] == ".." then [ParentDir]
        else [Normal(parts[0])];
      head + Pieces(parts[1..])
  }

  function Components(s: string): seq<Component>
  {
    var parts := Split(s);
    if s != "" && s[0] == '/' then [RootDir] + Pieces(parts)
    else if parts[0] == "." then [CurDir] + Pieces(parts[1..])
    else Pieces(parts)
  }

  predicate AllNormal(cs: seq<Component>)
  {
    forall c :: c in cs ==> c.Normal?
  }

  function Names(cs: seq<Component>): (ns: seq<string>)
    requires AllNormal(cs)
    ensures |ns| == |cs| && forall i :: 0 <= i < |cs| ==> ns[i] == cs[i].name
  {
    seq(|cs|, i requires 0 <= i < |cs| => cs[i].name)
  }

  // ----- portable paths and index keys -----

  predicate Clean(s: string)
  {
    '\\' !in s && ':' !in s && '\0' !in s
  }

  predicate GoodName(n: string)
  {
    n != "" && n != "." && n != ".." && '/' !in n && Clean(n)
  }

  predicate GoodNames(ns: seq<string>)
  {
    |ns| >= 1 && forall n :: n in ns ==> GoodName(n)
  }

  /** The names of a relative path made of normal components only, or None when it is refused. */
  function PortablePath(value: string): Option<seq<string>>
  {
    if value == "" || !Clean(value) then None
    else if AllNormal(Components(value)) then Some(Names(Components(value)))
    else None
  }

  lemma {:induction false} CleanPieces(s: string)
    requires Clean(s)
    ensures forall p :: p in Split(s) ==> Clean(p)
  {
    if s != "" {
      CleanPieces(s[1..]);
      if s[0] != '/' {
        var rest := Split(s[1..]);
        assert rest[0] in rest;
        assert Split(s) == [[s[0]] + rest[0]] + rest[1..];
      }
    }
  }

  /** A portable path always has at least one name, and every name is a plain file name. */
  lemma PortableNames(value: string)
    requires PortablePath(value).Some?
    ensures GoodNames(PortablePath(value).value)
  {
    CleanPieces(value);
    var parts := Split(value);
    var ns := PortablePath(value).value;
    assert Components(value) == Pieces(parts) by {
      if Components(value) != [] {
        assert Components(value)[0] in Components(value);
      }
    }
    assert parts[0] != "";
    assert |ns| >= 1;
    forall n | n in ns
      ensures GoodName(n)
    {
      var i :| 0 <= i < |ns| && ns[i] == n;
      var cs := Pieces(parts);
      assert cs[i] in cs;
      assert ns == Names(cs);
      assert cs[i].Normal? && cs[i].name == n;
    }
  }

  /** Joining plain names loses nothing: an index key string and its component list determine each other. */
  lemma KeyOfNames(ns: seq<string>)
    requires GoodNames(ns)
    ensures Split(Join(ns)) == ns
  {
    SplitOfJoin(ns);
  }

  lemma {:induction false} PiecesOfGoodNames(ns: seq<string>)
    requires forall n :: n in ns ==> GoodName(n)
    ensures AllNormal(Pieces(ns)) && Names(Pieces(ns)) == ns
  {
    if ns != [] {
      PiecesOfGoodNames(ns[1..]);
      assert GoodName(ns[0]);
      var rest := Pieces(ns[1..]);
      assert Pieces(ns) == [Normal(ns[0])] + rest;
      forall i | 0 <= i < |ns|
        ensures Pieces(ns)[i] == Normal(ns[i])
      {
        assert i > 0 ==> rest[i - 1] in rest && Names(rest)[i - 1] == ns[1..][i - 1];
      }
    }
  }

  lemma {:induction false} CleanJoin(ns: seq<string>)
    requires forall n :: n in ns ==> Clean(n)
    ensures Clean(Join(ns))
  {
    if |ns| == 1 {
      assert ns[0] in ns;
    } else if |ns| > 1 {
      assert ns[0] in ns;
      CleanJoin(ns[1..]);
    }
  }

  /** Re-reading an index key as a path yields exactly its names. */
  lemma PortableKey(ns: seq<string>)
    requires GoodNames(ns)
    ensures PortablePath(Join(ns)) == Some(ns)
  {
    KeyOfNames(ns);
    CleanJoin(ns);
    PiecesOfGoodNames(ns);
    assert ns[0] in ns;
  }

  lemma SlashPrefixIsAncestor(a: seq<string>, b: seq<string>, rest: string)
    requires GoodNames(a) && GoodNames(b) && Join(b) == Join(a) + "/" + rest
    ensures a < b
  {
    KeyOfNames(a);
    KeyOfNames(b);
    SplitAtSlash(Join(a), rest);
  }

  /** `existing.starts_with(path + "/")` is exactly proper ancestry of component lists. */
  lemma DescendantTest(a: seq<string>, b: seq<string>)
    requires GoodNames(a) && GoodNames(b)
    ensures Join(a) + "/" <= Join(b) <==> a < b
  {
    var s, t := Join(a), Join(b);
    if s + "/" <= t {
      assert t == s + "/" + t[|s| + 1..];
      SlashPrefixIsAncestor(a, b, t[|s| + 1..]);
    }
    if a < b {
      assert b == a + b[|a|..];
      JoinAppend(a, b[|a|..]);
    }
  }

  // ----- archive names -----

  function TrimEnd(s: string): string
  {
    if s != "" && s[|s| - 1] == '/' then TrimEnd(s[..|s| - 1]) else s
  }

  /** Archive root name and the key below it (None for the root itself). */
  datatype Stripped = Stripped(root: string, key: Option<seq<string>>)

  function Strip(value: string): Option<Stripped>
  {
    var p := PortablePath(TrimEnd(value));
    if p.None? then None
    else if |p.value| == 0 then None
    else if |p.value| == 1 then Some(Stripped(p.value[0], None))
    else Some(Stripped(p.value[0], Some(p.value[1..])))
  }

  lemma StripGivesKeys(value: string)
    requires Strip(value).Some? && Strip(value).value.key.Some?
    ensures GoodNames(Strip(value).value.key.value)
  {
    PortableNames(TrimEnd(value));
  }

  /** The pieces of a path that name something. */
  function Meaningful(parts: seq<string>): seq<string>
  {
    if parts == [] then []
    else (if parts[0] == "" || parts[0] == "." then [] else [parts[0]]) + Meaningful(parts[1..])
  }

  lemma {:induction false} PiecesMeaningful(parts: seq<string>)
    ensures AllNormal(Pieces(parts)) <==> ".." !in parts
    ensures AllNormal(Pieces(parts)) ==> Names(Pieces(parts)) == Meaningful(parts)
  {
    if parts != [] {
      PiecesMeaningful(parts[1..]);
      assert parts == [parts[0]] + parts[1..];
      var rest := Pieces(parts[1..]);
      if parts[0] == ".." {
        assert Pieces(parts) == [ParentDir] + rest;
        assert ParentDir in Pieces(parts);
      } else if parts[0] != "" && parts[0] != "." {
        assert Pieces(parts) == [Normal(parts[0])] + rest;
        NormalCons(parts[0], rest);
      } else {
        assert Pieces(parts) == rest;
      }
    }
  }

  lemma NormalCons(name: string, cs: seq<Component>)
    ensures AllNormal([Normal(name)] + cs) <==> AllNormal(cs)
    ensures AllNormal(cs) ==> Names([Normal(name)] + cs) == [name] + Names(cs)
  {
    var all := [Normal(name)] + cs;
    assert forall c :: c in all <==> c == Normal(name) || c in cs;
    assert all[1..] == cs;
  }

  /** Exactly the clean relative paths that neither start with "." nor contain ".." are accepted, for their named pieces. */
  lemma PortableExact(value: string)
    ensures PortablePath(value).Some? <==>
            value != "" && Clean(value) && value[0] != '/' && Split(value)[0] != "." && ".." !in Split(value)
    ensures PortablePath(value).Some? ==> PortablePath(value).value == Meaningful(Split(value))
  {
    var parts := Split(value);
    PiecesMeaningful(parts);
    if value != "" && value[0] == '/' {
      assert Components(value)[0] == RootDir && RootDir in Components(value);
    } else if parts[0] == "." {
      assert Components(value)[0] == CurDir && CurDir in Components(value);
    } else {
      assert Components(value) == Pieces(parts);
    }
  }

  function Slashes(n: nat): string
  {
    seq(n, _ => '/')
  }

  lemma {:induction false} TrimSlashes(s: string, n: nat)
    requires s != "" && s[|s| - 1] != '/'
    ensures TrimEnd(s + Slashes(n)) == s
  {
    if n == 0 {
      assert s + Slashes(0) == s;
    } else {
      var full := s + Slashes(n);
      assert full[..|full| - 1] == s + Slashes(n - 1);
      TrimSlashes(s, n - 1);
    }
  }

  lemma {:induction false} JoinEnds(ns: seq<string>)
    requires GoodNames(ns)
    ensures Join(ns) != "" && Join(ns)[|Join(ns)| - 1] != '/'
  {
    assert ns[0] in ns && ns[|ns| - 1] in ns;
    if |ns| > 1 {
      JoinEnds(ns[1..]);
    }
  }

  lemma TrimmedPath(value: string, ns: seq<string>, n: nat)
    requires GoodNames(ns) && value == Join(ns) + Slashes(n)
    ensures PortablePath(TrimEnd(value)) == Some(ns)
  {
    var trimmed := TrimEnd(value);
    assert trimmed == Join(ns) by {
      JoinEnds(ns);
      TrimSlashes(Join(ns), n);
    }
    PortableKey(ns);
  }

  /** An archive name is its root and the rest, whatever slashes end it. */
  lemma StripExact(value: string, ns: seq<string>, n: nat)
    requires GoodNames(ns) && value == Join(ns) + Slashes(n)
    ensures Strip(value) == Some(Stripped(ns[0], if |ns| == 1 then None else Some(ns[1..])))
  {
    TrimmedPath(value, ns, n);
  }

  // ----- the byte order of keys -----

  predicate Below(a: string, b: string)
  {
    if b == "" then false
    else if a == "" then true
    else a[0] < b[0] || (a[0] == b[0] && Below(a[1..], b[1..]))
  }

  lemma {:induction false} BelowTotal(a: string, b: string)
    ensures a == b || Below(a, b) || Below(b, a)
    ensures !(Below(a, b) && Below(b, a)) && !Below(a, a)
  {
    if a != "" && b != "" {
      BelowTotal(a[1..], b[1..]);
      BelowTotal(a[1..], a[1..]);
      assert a == [a[0]] + a[1..] && b == [b[0]] + b[1..];
    } else if a != "" {
      BelowTotal(a[1..], a[1..]);
    }
  }

  lemma {:induction false} BelowTransitive(a: string, b: string, c: string)
    requires Below(a, b) && Below(b, c)
    ensures Below(a, c)
  {
    if a != "" && a[0] == b[0] && b[0] == c[0] {
      BelowTransitive(a[1..], b[1..], c[1..]);
    }
  }

  ghost predicate AllGood(s: set<seq<string>>)
  {
    forall k :: k in s ==> GoodNames(k)
  }

  ghost predicate IsLeast(m: seq<string>, s: set<seq<string>>)
  {
    m in s && forall x :: x in s && x != m ==> Below(Join(m), Join(x))
  }

  lemma {:induction false} LeastExists(s: set<seq<string>>) returns (m: seq<string>)
    requires s != {} && AllGood(s)
    ensures IsLeast(m, s)
  {
    var x :| x in s;
    if s == {x} {
      m := x;
    } else {
      var r := LeastExists(s - {x});
      BelowTotal(Join(x), Join(r));
      KeyOfNames(x);
      KeyOfNames(r);
      m := if Below(Join(x), Join(r)) then x else r;
      forall y | y in s && y != m
        ensures Below(Join(m), Join(y))
      {
        if m == x && y != r {
          BelowTransitive(Join(x), Join(r), Join(y));
        }
      }
    }
  }

  lemma LeastUnique(a: seq<string>, b: seq<string>, s: set<seq<string>>)
    requires IsLeast(a, s) && IsLeast(b, s)
    ensures a == b
  {
    BelowTotal(Join(a), Join(b));
  }

  ghost predicate StrictlySorted(ks: seq<seq<string>>)
  {
    forall i, j :: 0 <= i < j < |ks| ==> Below(Join(ks[i]), Join(ks[j]))
  }

  /** The keys of a set in increasing byte order of their joined form. */
  ghost function Sorted(s: set<seq<string>>): (ks: seq<seq<string>>)
    requires AllGood(s)
    ensures forall k :: k in ks <==> k in s
    ensures StrictlySorted(ks)
    ensures |ks| == |s|
  {
    if s == {} then []
    else
      assert exists m :: IsLeast(m, s) by { var m := LeastExists(s); }
      var m :| IsLeast(m, s);
      var rest := Sorted(s - {m});
      assert s == (s - {m}) + {m};
      [m] + rest
  }

  method TakeLeast(s: set<seq<string>>) returns (k: seq<string>)
    requires s != {} && AllGood(s)
    ensures IsLeast(k, s)
  {
    ghost var g := LeastExists(s);
    k :| k in s && forall x :: x in s && x != k ==> Below(Join(k), Join(x));
  }

  /** Repeatedly taking the least remaining key, as iterating a `BTreeMap` does. */
  method KeyOrder(s: set<seq<string>>) returns (ks: seq<seq<string>>)
    requires AllGood(s)
    ensures ks == Sorted(s)
    decreases s
  {
    if s == {} {
      return [];
    }
    var k := TakeLeast(s);
    SortedStep(s, k);
    var rest := KeyOrder(s - {k});
    ks := [k] + rest;
  }

  lemma SortedStep(s: set<seq<string>>, k: seq<string>)
    requires AllGood(s) && IsLeast(k, s)
    ensures Sorted(s) == [k] + Sorted(s - {k})
  {
    var m := Sorted(s)[0];
    assert IsLeast(m, s) by {
      assert m in Sorted(s);
      forall x | x in s && x != m
        ensures Below(Join(m), Join(x))
      {
        var i :| 0 <= i < |s| && Sorted(s)[i] == x;
      }
    }
    LeastUnique(m, k, s);
  }
}
