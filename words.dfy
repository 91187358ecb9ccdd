/** Machine words and bytes of a 64-bit RISC-V hart, and the little-endian
    packing of eight bytes into one word that the PMP configuration
    registers use (entry 8*g + k sits in byte k of word g). */
module Words {

  const WordModulus: int := 0x1_0000_0000_0000_0000
  /** Number of bytes in one register of XLEN = 64 bits. */
  const WordBytes: nat := 8

  type Byte = x: int | 0 <= x < 0x100
  type Word = x: int | 0 <= x < 0x1_0000_0000_0000_0000

  function Pow256(n: nat): (r: nat)
    ensures r >= 1
  {
    if n == 0 then 1 else 256 * Pow256(n - 1)
  }

  /** Unsigned 64-bit addition and subtraction, wrapping around as C does. */
  function Add64(a: Word, b: Word): (r: Word)
    ensures a + b < WordModulus ==> r == a + b
    ensures a + b >= WordModulus ==> r == a + b - WordModulus
  {
    (a + b) % WordModulus
  }

  function Sub64(a: Word, b: Word): (r: Word)
    ensures b <= a ==> r == a - b
    ensures a < b ==> r == a - b + WordModulus
  {
    (a - b) % WordModulus
  }

  /** Little-endian value of a byte sequence: bs[0] is the least significant byte. */
  function Pack(bs: seq<Byte>): (w: nat)
    ensures w < Pow256(|bs|)
  {
    if bs == [] then 0 else bs[0] + 256 * Pack(bs[1..])
  }

  /** The n least significant bytes of w, least significant first. */
  function Unpack(w: nat, n: nat): (bs: seq<Byte>)
    ensures |bs| == n
  {
    if n == 0 then [] else [w % 256] + Unpack(w / 256, n - 1)
  }

  lemma {:induction false} UnpackPack(bs: seq<Byte>)
    ensures Unpack(Pack(bs), |bs|) == bs
  {
    if bs != [] {
      var w := Pack(bs);
      assert w == bs[0] + 256 * Pack(bs[1..]);
      assert w % 256 == bs[0];
      assert w / 256 == Pack(bs[1..]);
      UnpackPack(bs[1..]);
      assert Unpack(w, |bs|) == [bs[0]] + bs[1..];
    }
  }

  lemma {:induction false} PackUnpack(w: nat, n: nat)
    requires w < Pow256(n)
    ensures Pack(Unpack(w, n)) == w
  {
    if n > 0 {
      assert w / 256 < Pow256(n - 1);
      PackUnpack(w / 256, n - 1);
      assert Unpack(w, n)[1..] == Unpack(w / 256, n - 1);
    }
  }

  lemma WordModulusIsPow256()
    ensures Pow256(WordBytes) == WordModulus
  {
  }

  /** The eight bytes of a register, least significant first. */
  function BytesOf(w: Word): (bs: seq<Byte>)
    ensures |bs| == WordBytes
  {
    Unpack(w, WordBytes)
  }

  /** The register whose bytes are bs. */
  function WordOf(bs: seq<Byte>): (w: Word)
    requires |bs| == WordBytes
    ensures BytesOf(w) == bs
  {
    WordModulusIsPow256();
    UnpackPack(bs);
    Pack(bs)
  }

  lemma {:induction false} WordOfBytesOf(w: Word)
    ensures WordOf(BytesOf(w)) == w
  {
    WordModulusIsPow256();
    PackUnpack(w, WordBytes);
  }

  /** Two registers with the same bytes are the same register. */
  lemma BytesOfInjective(v: Word, w: Word)
    requires BytesOf(v) == BytesOf(w)
    ensures v == w
  {
    WordOfBytesOf(v);
    WordOfBytesOf(w);
  }

  /** Byte k of a register (bits 8k .. 8k+7). */
  function ByteOf(w: Word, k: nat): Byte
    requires k < WordBytes
  {
    BytesOf(w)[k]
  }
}
