/**
 The byte stream behind the system-execution build identity: length-prefixed labels and
 contents, then an unframed tail. It determines the files although their number is not written.
 */
module IdentityStream {
  import opened Wrappers
  import opened Endian

  datatype Item = Item(name: seq<byte>, bytes: seq<byte>)

  function U64(n: nat): seq<byte>
  {
    LittleEndian(n, 8)
  }

  function Frame(i: Item): seq<byte>
  {
    U64(|i.name|) + i.name + U64(|i.bytes|) + i.bytes
  }

  function Body(items: seq<Item>): seq<byte>
  {
    if items == [] then [] else Frame(items[0]) + Body(items[1..])
  }

  function Stream(items: seq<Item>, tail: seq<byte>): seq<byte>
  {
    Body(items) + tail
  }

  /** No file or label reaches 2^61 bytes. */
  predicate Storable(items: seq<Item>)
  {
    forall i :: 0 <= i < |items| ==> |items[i].name| < 0x2000_0000_0000_0000 && |items[i].bytes| < 0x2000_0000_0000_0000
  }

  predicate Printable(tail: seq<byte>)
  {
    forall i :: 0 <= i < |tail| ==> tail[i] >= 0x20
  }

  /** The tail itself begins with what would be read as a file. */
  ghost predicate Spells(tail: seq<byte>)
  {
    exists f, t :: Storable([f]) && tail == Frame(f) + t
  }

  lemma Bounds()
    ensures Bound(7) == 0x100_0000_0000_0000 && Bound(8) == 0x1_0000_0000_0000_0000
  {
    assert Bound(4) == 0x1_0000_0000;
  }

  lemma U64Facts(n: nat, m: nat)
    requires n < 0x2000_0000_0000_0000 && m < 0x2000_0000_0000_0000
    ensures U64(n) == U64(m) ==> n == m
    ensures U64(n)[7] < 0x20
  {
    Bounds();
    LengthFacts(n, m, 8);
  }

  lemma Peel(a: seq<byte>, x: seq<byte>, b: seq<byte>, y: seq<byte>)
    requires |a| == |b| && a + x == b + y
    ensures a == b && x == y
  {
    assert a == (a + x)[..|a|] && b == (b + y)[..|b|];
    assert x == (a + x)[|a|..] && y == (b + y)[|b|..];
  }

  /** One length-prefixed field can be read back whatever follows it. */
  lemma Field(a: seq<byte>, x: seq<byte>, b: seq<byte>, y: seq<byte>)
    requires |a| < 0x2000_0000_0000_0000 && |b| < 0x2000_0000_0000_0000
    requires U64(|a|) + (a + x) == U64(|b|) + (b + y)
    ensures a == b && x == y
  {
    Peel(U64(|a|), a + x, U64(|b|), b + y);
    U64Facts(|a|, |b|);
    Peel(a, x, b, y);
  }

  lemma Regroup(i: Item, rest: seq<byte>)
    ensures Frame(i) + rest == U64(|i.name|) + (i.name + (U64(|i.bytes|) + (i.bytes + rest)))
  {
  }

  /** Equal streams come from equal file lists, of whatever number, and equal tails. */
  lemma {:induction false} Injective(fs: seq<Item>, gs: seq<Item>, tail: seq<byte>, end: seq<byte>)
    requires Storable(fs) && Storable(gs) && !Spells(tail) && !Spells(end)
    requires Stream(fs, tail) == Stream(gs, end)
    ensures fs == gs && tail == end
    decreases |fs| + |gs|
  {
    if fs == [] && gs == [] {
      assert Stream(fs, tail) == tail && Stream(gs, end) == end;
    } else if fs == [] {
      NoFrame(gs, tail, end);
    } else if gs == [] {
      NoFrame(fs, end, tail);
    } else {
      var f, g := fs[0], gs[0];
      var x, y := Stream(fs[1..], tail), Stream(gs[1..], end);
      Unroll(fs, tail);
      Unroll(gs, end);
      Regroup(f, x);
      Regroup(g, y);
      Field(f.name, U64(|f.bytes|) + (f.bytes + x), g.name, U64(|g.bytes|) + (g.bytes + y));
      Field(f.bytes, x, g.bytes, y);
      Injective(fs[1..], gs[1..], tail, end);
      assert fs == [f] + fs[1..] && gs == [g] + gs[1..];
    }
  }

  lemma Unroll(items: seq<Item>, tail: seq<byte>)
    requires items != []
    ensures Stream(items, tail) == Frame(items[0]) + Stream(items[1..], tail)
  {
  }

  lemma NoFrame(items: seq<Item>, tail: seq<byte>, end: seq<byte>)
    requires items != [] && Storable(items) && !Spells(tail)
    ensures Stream([], tail) != Stream(items, end)
  {
    Unroll(items, end);
    assert Storable([items[0]]);
    assert Stream([], tail) == tail;
  }

  /** A printable tail spells no file: the eighth byte of a length is below 0x20. */
  lemma PrintableSpellsNothing(tail: seq<byte>)
    requires Printable(tail)
    ensures !Spells(tail)
  {
    forall f, t | Storable([f])
      ensures tail != Frame(f) + t
    {
      assert [f][0] == f;
      U64Facts(|f.name|, 0);
      Regroup(f, t);
      assert (Frame(f) + t)[7] == U64(|f.name|)[7];
    }
  }

  /** Every tail is some files followed by a tail that spells none. */
  lemma {:induction false} Unspell(tail: seq<byte>) returns (gs: seq<Item>, end: seq<byte>)
    ensures Storable(gs) && !Spells(end) && Stream(gs, end) == Stream([], tail)
    ensures Spells(tail) ==> gs != []
    decreases |tail|
  {
    assert Stream([], tail) == tail;
    if Spells(tail) {
      var f, t :| Storable([f]) && tail == Frame(f) + t;
      var rest, e := Unspell(t);
      gs, end := [f] + rest, e;
      assert [f][0] == f;
      assert Stream([], t) == t && gs[1..] == rest;
      Unroll(gs, end);
    } else {
      gs, end := [], tail;
    }
  }

  /** No other files and clear tail give the same stream as files in front of this tail. */
  ghost predicate Unambiguous(tail: seq<byte>)
  {
    forall fs, gs, end :: Storable(fs) && Storable(gs) && !Spells(end) && Stream(fs, tail) == Stream(gs, end) ==>
      fs == gs && tail == end
  }

  /** The framing is unambiguous exactly for tails that spell no file. */
  lemma UnambiguousExactly(tail: seq<byte>)
    ensures Unambiguous(tail) <==> !Spells(tail)
  {
    if Spells(tail) {
      var gs, end := Unspell(tail);
      assert Storable([]) && [] != gs;
    } else {
      forall fs, gs, end | Storable(fs) && Storable(gs) && !Spells(end) && Stream(fs, tail) == Stream(gs, end)
        ensures fs == gs && tail == end
      {
        Injective(fs, gs, tail, end);
      }
    }
  }

  lemma Associate(a: seq<byte>, b: seq<byte>, c: seq<byte>)
    ensures a + (b + c) == (a + b) + c
  {
  }

  lemma BodyCons(f: Item, rest: seq<Item>)
    ensures Body([f] + rest) == Frame(f) + Body(rest)
  {
  }

  lemma Rotate(fs: seq<Item>, gs: seq<Item>)
    requires fs != []
    ensures fs + gs == [fs[0]] + (fs[1..] + gs) && fs == [fs[0]] + fs[1..]
  {
  }

  lemma BodyJoin(f: Item, rest: seq<Item>, gs: seq<Item>)
    requires Body(rest + gs) == Body(rest) + Body(gs)
    ensures Body([f] + (rest + gs)) == Body([f] + rest) + Body(gs)
  {
    BodyCons(f, rest + gs);
    BodyCons(f, rest);
    Associate(Frame(f), Body(rest), Body(gs));
  }

  lemma {:induction false} BodyAppend(fs: seq<Item>, gs: seq<Item>)
    ensures Body(fs + gs) == Body(fs) + Body(gs)
  {
    if fs == [] {
      assert fs + gs == gs;
    } else {
      BodyAppend(fs[1..], gs);
      Rotate(fs, gs);
      BodyJoin(fs[0], fs[1..], gs);
    }
  }
}
