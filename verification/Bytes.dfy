// Bytes, and numbers in bytes as `struct` packs them.
module Bytes {
  type Byte = n: int | 0 <= n < 256

  /** The value of bytes in little-endian order. */
  function Little(bytes: seq<Byte>): nat {
    if bytes == [] then 0 else bytes[0] + 256 * Little(bytes[1..])
  }

  function Pack(n: nat, k: nat): (r: seq<Byte>)
    ensures |r| == k
  {
    if k == 0 then [] else [n % 256] + Pack(n / 256, k - 1)
  }

  function Limit(k: nat): nat {
    if k == 0 then 1 else 256 * Limit(k - 1)
  }

  lemma {:induction false} LittlePack(n: nat, k: nat)
    requires n < Limit(k)
    ensures Little(Pack(n, k)) == n
  {
    if k > 0 {
      LittlePack(n / 256, k - 1);
      assert Pack(n, k)[1..] == Pack(n / 256, k - 1);
    }
  }

  lemma {:induction false} PackLittle(bytes: seq<Byte>)
    ensures Little(bytes) < Limit(|bytes|) && Pack(Little(bytes), |bytes|) == bytes
  {
    if bytes != [] {
      PackLittle(bytes[1..]);
      assert Little(bytes) / 256 == Little(bytes[1..]) && Little(bytes) % 256 == bytes[0];
      assert bytes == [bytes[0]] + bytes[1..];
    }
  }

  function Zeros(n: nat): (r: seq<Byte>)
    ensures |r| == n && forall i | 0 <= i < n :: r[i] == 0
  {
    seq(n, i => 0)
  }
}
