/** Bytes and big-endian integer encodings. */
module Bytes {

  /** One octet, as Python's `bytes` and `array('B')` hold it. */
  type byte = x: int | 0 <= x < 256

  /** 256 to the power `n`: the number of values `n` bytes can hold. */
  function Pow256(n: nat): (r: nat)
    ensures r >= 1
  {
    if n == 0 then 1 else 256 * Pow256(n - 1)
  }

  /** The value of a big-endian byte string. */
  function FromBigEndian(bs: seq<byte>): (r: nat)
    ensures r < Pow256(|bs|)
  {
    if bs == [] then 0
    else FromBigEndian(bs[..|bs| - 1]) * 256 + bs[|bs| - 1]
  }

  /** `v` written as `n` big-endian bytes: Python's `v.to_bytes(n, 'big')` for a `v` that fits. */
  function ToBigEndian(v: nat, n: nat): (r: seq<byte>)
    requires v < Pow256(n)
    ensures |r| == n
  {
    if n == 0 then [] else ToBigEndian(v / 256, n - 1) + [v % 256]
  }

  /** Encoding and then decoding a value gives the value back. */
  lemma {:induction false} BigEndianRoundTrip(v: nat, n: nat)
    requires v < Pow256(n)
    ensures FromBigEndian(ToBigEndian(v, n)) == v
  {
    if n > 0 {
      var r := ToBigEndian(v, n);
      assert r[..n - 1] == ToBigEndian(v / 256, n - 1);
      BigEndianRoundTrip(v / 256, n - 1);
    }
  }

  /** Decoding and then encoding a byte string gives the byte string back. */
  lemma {:induction false} BigEndianInverse(bs: seq<byte>)
    ensures ToBigEndian(FromBigEndian(bs), |bs|) == bs
  {
    if bs != [] {
      var p := bs[..|bs| - 1];
      BigEndianInverse(p);
      var v := FromBigEndian(bs);
      assert v / 256 == FromBigEndian(p);
      assert v % 256 == bs[|bs| - 1];
      assert p + [bs[|bs| - 1]] == bs;
    }
  }

  /** Two big-endian bytes hold `hi * 256 + lo`. */
  lemma {:induction false} TwoByteValue(hi: byte, lo: byte)
    ensures FromBigEndian([hi, lo]) == hi * 256 + lo
  {
    assert [hi, lo][..1] == [hi];
    assert [hi][..0] == [];
  }

  /** `n` copies of `x`. */
  function Fill<T>(x: T, n: nat): (r: seq<T>)
    ensures |r| == n
    ensures forall k :: 0 <= k < n ==> r[k] == x
  {
    if n == 0 then [] else [x] + Fill(x, n - 1)
  }
}
