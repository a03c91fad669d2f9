/**
 Source trees as the build script walks them: directory listings in any order, sorted in
 place, folders entered and matching files taken. The inventory is a function of the tree.
 */
module SourceTree {
  import opened Wrappers
  import Paths

  type Name = s: string | '/' !in s witness ""

  datatype Tree = File(bytes: seq<byte>) | Folder(children: map<Name, Tree>)

  datatype Source = Source(path: seq<Name>, bytes: seq<byte>)

  function Lookup(t: Tree, path: seq<Name>): Option<Tree>
  {
    if path == [] then Some(t)
    else if t.Folder? && path[0] in t.children then Lookup(t.children[path[0]], path[1..])
    else None
  }

  // ----- names in order -----

  ghost predicate IsFirst(n: Name, s: set<Name>)
  {
    n in s && forall x :: x in s && x != n ==> Paths.Below(n, x)
  }

  lemma {:induction false} FirstExists(s: set<Name>) returns (n: Name)
    requires s != {}
    ensures IsFirst(n, s)
    decreases |s|
  {
    var x :| x in s;
    if s == {x} {
      n := x;
    } else {
      var r := FirstExists(s - {x});
      Paths.BelowTotal(x, r);
      n := if Paths.Below(x, r) then x else r;
      forall y | y in s && y != n
        ensures Paths.Below(n, y)
      {
        if n == x && y != r {
          Paths.BelowTransitive(x, r, y);
        }
      }
    }
  }

  lemma FirstUnique(a: Name, b: Name, s: set<Name>)
    requires IsFirst(a, s) && IsFirst(b, s)
    ensures a == b
  {
    Paths.BelowTotal(a, b);
  }

  /** The names of a folder in increasing order. */
  ghost function InOrder(s: set<Name>): (ns: seq<Name>)
    ensures forall n :: n in ns <==> n in s
    ensures |ns| == |s|
  {
    if s == {} then []
    else
      assert exists n :: IsFirst(n, s) by { var n := FirstExists(s); }
      var n :| IsFirst(n, s);
      assert s == (s - {n}) + {n};
      [n] + InOrder(s - {n})
  }

  lemma InOrderStep(s: set<Name>, n: Name)
    requires IsFirst(n, s)
    ensures InOrder(s) == [n] + InOrder(s - {n})
  {
    var m :| IsFirst(m, s) && InOrder(s) == [m] + InOrder(s - {m});
    FirstUnique(n, m, s);
  }

  function Elements(s: seq<Name>): set<Name>
  {
    set n | n in s
  }

  predicate Distinct(s: seq<Name>)
  {
    forall i, j :: 0 <= i < j < |s| ==> s[i] != s[j]
  }

  /** Position of the smallest of the names from `from` on. */
  method FirstIndex(a: array<Name>, from: nat) returns (k: nat)
    requires from < a.Length && Distinct(a[..])
    ensures from <= k < a.Length && IsFirst(a[k], Elements(a[from..]))
  {
    k := from;
    var j := from + 1;
    while j < a.Length
      invariant from <= k < j <= a.Length
      invariant forall i :: from <= i < j && i != k ==> Paths.Below(a[k], a[i])
    {
      Paths.BelowTotal(a[j], a[k]);
      assert a[..][j] != a[..][k];
      if Paths.Below(a[j], a[k]) {
        forall i | from <= i < j && i != k
          ensures Paths.Below(a[j], a[i])
        {
          Paths.BelowTransitive(a[j], a[k], a[i]);
        }
        k := j;
      }
      j := j + 1;
    }
    forall x | x in Elements(a[from..]) && x != a[k]
      ensures Paths.Below(a[k], x)
    {
      var i :| 0 <= i < |a[from..]| && a[from..][i] == x;
      assert a[from + i] == x;
    }
    assert a[from..][k - from] == a[k];
  }

  lemma SwapOut(s: seq<Name>, r: seq<Name>, k: nat)
    requires k < |s| && Distinct(s) && |r| == |s|
    requires r == s[k := s[0]][0 := s[k]]
    ensures Elements(r[1..]) == Elements(s) - {s[k]}
  {
    forall n | n in Elements(s) - {s[k]}
      ensures n in r[1..]
    {
      var i :| 0 <= i < |s| && s[i] == n;
      var j := if i == 0 then k else i;
      assert r[1..][j - 1] == n;
    }
    forall n | n in r[1..]
      ensures n in s && n != s[k]
    {
      var i :| 0 <= i < |r[1..]| && r[1..][i] == n;
      assert n == r[i + 1];
    }
  }

  lemma SwapDistinct(s: seq<Name>, r: seq<Name>, i: nat, k: nat)
    requires i < |s| && k < |s| && Distinct(s) && r == s[i := s[k]][k := s[i]]
    ensures Distinct(r)
  {
  }

  /** The first `i` names are in place and the rest is still to be sorted. */
  ghost predicate Sorting(s: seq<Name>, i: nat, all: set<Name>)
    requires i <= |s|
  {
    Distinct(s) && s[..i] + InOrder(Elements(s[i..])) == InOrder(all)
  }

  lemma SelectParts(s: seq<Name>, i: nat, k: nat, r: seq<Name>)
    requires i <= k < |s| && Distinct(s) && r == s[i := s[k]][k := s[i]]
    ensures Distinct(r) && r[..i + 1] == s[..i] + [s[k]]
    ensures Elements(r[i + 1..]) == Elements(s[i..]) - {s[k]}
  {
    SwapDistinct(s, r, i, k);
    SwapOut(s[i..], r[i..], k - i);
    assert r[i..][1..] == r[i + 1..];
  }

  lemma Shift(head: seq<Name>, n: Name, rest: seq<Name>)
    ensures head + ([n] + rest) == (head + [n]) + rest
  {
  }

  lemma Select(s: seq<Name>, i: nat, k: nat, all: set<Name>, r: seq<Name>)
    requires i <= k < |s| && Sorting(s, i, all) && IsFirst(s[k], Elements(s[i..]))
    requires r == s[i := s[k]][k := s[i]]
    ensures Sorting(r, i + 1, all)
  {
    SelectParts(s, i, k, r);
    InOrderStep(Elements(s[i..]), s[k]);
    Shift(s[..i], s[k], InOrder(Elements(r[i + 1..])));
  }

  /** Sorts a listing in place; what it leaves depends only on the set of names. */
  method SortNames(a: array<Name>)
    requires Distinct(a[..])
    modifies a
    ensures a[..] == InOrder(Elements(old(a[..])))
  {
    ghost var all := Elements(a[..]);
    var i := 0;
    assert a[..][0..] == a[..];
    while i < a.Length
      invariant 0 <= i <= a.Length
      invariant Sorting(a[..], i, all)
    {
      var k := FirstIndex(a, i);
      assert a[..][i..] == a[i..];
      ghost var s := a[..];
      a[i], a[k] := a[k], a[i];
      Select(s, i, k, all, a[..]);
      i := i + 1;
    }
    Finished(a[..], all);
  }

  lemma Finished(s: seq<Name>, all: set<Name>)
    requires Sorting(s, |s|, all)
    ensures s == InOrder(all)
  {
    assert Elements(s[|s|..]) == {};
  }
}
