/** Little-endian numbers of a fixed width, and reading them back. */
module Endian {
  import opened Wrappers

  function LittleEndian(n: nat, k: nat): (r: seq<byte>)
    ensures |r| == k
  {
    if k == 0 then [] else [n % 256] + LittleEndian(n / 256, k - 1)
  }

  function Bound(k: nat): (r: nat)
    ensures r > 0
  {
    if k == 0 then 1 else 256 * Bound(k - 1)
  }

  function Value(bs: seq<byte>): (n: nat)
    ensures n < Bound(|bs|)
  {
    if bs == [] then 0 else bs[0] + 256 * Value(bs[1..])
  }

  lemma {:induction false} ValueOfLittleEndian(n: nat, k: nat)
    requires n < Bound(k)
    ensures Value(LittleEndian(n, k)) == n
  {
    if k > 0 {
      ValueOfLittleEndian(n / 256, k - 1);
      assert LittleEndian(n, k)[1..] == LittleEndian(n / 256, k - 1);
    }
  }

  lemma {:induction false} LittleEndianOfValue(bs: seq<byte>)
    ensures LittleEndian(Value(bs), |bs|) == bs
  {
    if bs != [] {
      LittleEndianOfValue(bs[1..]);
      assert Value(bs) / 256 == Value(bs[1..]) && Value(bs) % 256 == bs[0];
      assert bs == [bs[0]] + bs[1..];
    }
  }

  lemma LittleEndianInjective(n: nat, m: nat, k: nat)
    requires n < Bound(k) && m < Bound(k)
    requires LittleEndian(n, k) == LittleEndian(m, k)
    ensures n == m
  {
    ValueOfLittleEndian(n, k);
    ValueOfLittleEndian(m, k);
  }

  lemma {:induction false} TopByte(n: nat, k: nat)
    requires k > 0 && n < 0x20 * Bound(k - 1)
    ensures LittleEndian(n, k)[k - 1] < 0x20
  {
    if k > 1 {
      TopByte(n / 256, k - 1);
    }
  }

  lemma LengthFacts(n: nat, m: nat, k: nat)
    requires k > 0 && n < 0x20 * Bound(k - 1) && m < 0x20 * Bound(k - 1)
    ensures LittleEndian(n, k) == LittleEndian(m, k) ==> n == m
    ensures LittleEndian(n, k)[k - 1] < 0x20
  {
    TopByte(n, k);
    if LittleEndian(n, k) == LittleEndian(m, k) {
      LittleEndianInjective(n, m, k);
    }
  }
}
