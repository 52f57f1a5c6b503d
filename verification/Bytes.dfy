/** Little-endian integers and slices of concatenations. */
module Bytes {
  import opened Widths

  function Pow256(n: nat): (p: nat)
    ensures p > 0
  {
    if n == 0 then 1 else 256 * Pow256(n - 1)
  }

  /** `v` as `n` little-endian bytes. */
  function LE(n: nat, v: nat): (bs: seq<byte>)
    ensures |bs| == n
  {
    if n == 0 then [] else [v % 256] + LE(n - 1, v / 256)
  }

  function FromLE(bs: seq<byte>): nat {
    if bs == [] then 0 else bs[0] + 256 * FromLE(bs[1..])
  }

  lemma {:induction false} FromToLE(n: nat, v: nat)
    requires v < Pow256(n)
    ensures FromLE(LE(n, v)) == v
  {
    if n > 0 {
      FromToLE(n - 1, v / 256);
      assert LE(n, v)[1..] == LE(n - 1, v / 256);
    }
  }

  lemma {:induction false} ToFromLE(bs: seq<byte>)
    ensures LE(|bs|, FromLE(bs)) == bs
    ensures FromLE(bs) < Pow256(|bs|)
  {
    if bs != [] {
      ToFromLE(bs[1..]);
      assert (bs[0] + 256 * FromLE(bs[1..])) % 256 == bs[0];
      assert (bs[0] + 256 * FromLE(bs[1..])) / 256 == FromLE(bs[1..]);
      assert bs == [bs[0]] + bs[1..];
    }
  }

  lemma {:induction false} Powers()
    ensures Pow256(2) == MAX_U16 + 1
    ensures Pow256(4) == MAX_U32 + 1
    ensures Pow256(8) == MAX_U64 + 1
  {
    assert Pow256(1) == 256;
    assert Pow256(2) == 65536;
    assert Pow256(3) == 16777216;
    assert Pow256(4) == 4294967296;
    assert Pow256(5) == 1099511627776;
    assert Pow256(6) == 281474976710656;
    assert Pow256(7) == 72057594037927936;
  }

  function Enc16(v: u16): (bs: seq<byte>)
    ensures |bs| == 2
  {
    LE(2, v)
  }

  function Enc32(v: u32): (bs: seq<byte>)
    ensures |bs| == 4
  {
    LE(4, v)
  }

  function Enc64(v: u64): (bs: seq<byte>)
    ensures |bs| == 8
  {
    LE(8, v)
  }

  function Dec16(bs: seq<byte>): (v: u16)
    requires |bs| == 2
    ensures Enc16(v) == bs
  {
    Powers(); ToFromLE(bs); FromLE(bs)
  }

  function Dec32(bs: seq<byte>): (v: u32)
    requires |bs| == 4
    ensures Enc32(v) == bs
  {
    Powers(); ToFromLE(bs); FromLE(bs)
  }

  function Dec64(bs: seq<byte>): (v: u64)
    requires |bs| == 8
    ensures Enc64(v) == bs
  {
    Powers(); ToFromLE(bs); FromLE(bs)
  }

  lemma {:induction false} DecEnc16(v: u16)
    ensures Dec16(Enc16(v)) == v
  {
    Powers(); FromToLE(2, v);
  }

  lemma {:induction false} DecEnc32(v: u32)
    ensures Dec32(Enc32(v)) == v
  {
    Powers(); FromToLE(4, v);
  }

  lemma {:induction false} DecEnc64(v: u64)
    ensures Dec64(Enc64(v)) == v
  {
    Powers(); FromToLE(8, v);
  }

  function Zeros(n: nat): (bs: seq<byte>)
    ensures |bs| == n
  {
    seq(n, _ => 0)
  }
}
