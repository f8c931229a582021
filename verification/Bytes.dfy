/** Bytes, big-endian words and the 160-bit and 256-bit widths the EVM works with. */
module Bytes {

  type Byte = x: int | 0 <= x < 256

  const TWO_64: nat := 0x1_0000_0000_0000_0000

  const TWO_160: nat := 0x1_0000000000_0000000000_0000000000_0000000000

  type Address = x: nat | x < TWO_160

  function Pow256(n: nat): nat {
    if n == 0 then 1 else 256 * Pow256(n - 1)
  }

  /** The big-endian value of a byte string. */
  function Word(bs: seq<Byte>): nat {
    if bs == [] then 0 else 256 * Word(bs[..|bs| - 1]) + bs[|bs| - 1]
  }

  /** The low `len` bytes of n, most significant first. */
  function ToBytes(n: nat, len: nat): (bs: seq<Byte>)
    ensures |bs| == len
    decreases len, n
  {
    if len == 0 then [] else ToBytes(n / 256, len - 1) + [n % 256]
  }

  function Zeros(n: nat): (z: seq<Byte>)
    ensures |z| == n && forall i :: 0 <= i < n ==> z[i] == 0
  {
    seq(n, _ => 0)
  }

  /** Reading back a word that fits gives the word. */
  lemma {:induction false} WordToBytes(n: nat, len: nat)
    requires n < Pow256(len)
    ensures Word(ToBytes(n, len)) == n
  {
    if len > 0 {
      WordToBytes(n / 256, len - 1);
      assert ToBytes(n, len)[..len - 1] == ToBytes(n / 256, len - 1);
    }
  }

  lemma {:induction false} Pow256Grows(m: nat, n: nat)
    requires m <= n
    ensures Pow256(m) <= Pow256(n)
  {
    if m < n {
      Pow256Grows(m, n - 1);
    }
  }

  lemma Uint64FitsWord(n: nat)
    requires n < TWO_64
    ensures Word(ToBytes(n, 32)) == n
  {
    assert Pow256(8) == TWO_64;
    Pow256Grows(8, 32);
    WordToBytes(n, 32);
  }

  /** Two bytes hold a length exactly when it is below 2^16; otherwise the high bits are dropped. */
  lemma TwoBytes(n: nat)
    ensures ToBytes(n, 2) == [(n / 256) % 256, n % 256]
    ensures Word(ToBytes(n, 2)) == n % 0x1_0000
  {
    assert ToBytes(n, 2) == ToBytes(n / 256, 1) + [n % 256];
    assert ToBytes(n / 256, 1) == ToBytes(n / 256 / 256, 0) + [(n / 256) % 256];
    var bs := ToBytes(n, 2);
    assert bs[..1] == [(n / 256) % 256];
    assert bs[..1][..0] == [];
    assert Word(bs[..1]) == (n / 256) % 256;
  }
}
