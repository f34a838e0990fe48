/** The 32-bit words and the bytes of the hash code, with the word functions of
    FIPS 180-4, section 4.1.2, and the byte-order helpers of src/sha256d.c.

    A word is an integer in range. Only the functions that act bit by bit pass
    through bit vectors; proofs about compressors hide those functions and use
    nothing of them but that equal arguments give equal results. */
module Words {
  type Word = x: int | 0 <= x < 0x1_0000_0000
  type Byte = x: int | 0 <= x < 0x100

  /** A word in each of two lanes. */
  datatype Pair = Pair(s0: Word, s1: Word)

  /** uint32_t addition. */
  function Add(x: Word, y: Word): Word { (x + y) % 0x1_0000_0000 }

  lemma AddComm(x: Word, y: Word)
    ensures Add(x, y) == Add(y, x)
  {
  }

  lemma AddAssoc(x: Word, y: Word, z: Word)
    ensures Add(Add(x, y), z) == Add(x, Add(y, z))
  {
    WrapFirst(x + y, z);
    WrapFirst(y + z, x);
  }

  lemma WrapFirst(s: nat, z: Word)
    requires s < 0x2_0000_0000
    ensures (s % 0x1_0000_0000 + z) % 0x1_0000_0000 == (s + z) % 0x1_0000_0000
  {
    if s >= 0x1_0000_0000 {
      assert s % 0x1_0000_0000 == s - 0x1_0000_0000;
    }
  }

  /** Exchanges the last two terms of a sum. */
  lemma AddSwap(x: Word, y: Word, z: Word)
    ensures Add(Add(x, y), z) == Add(Add(x, z), y)
  {
    AddAssoc(x, y, z);
    AddComm(y, z);
    AddAssoc(x, z, y);
  }

  function FromBits(b: bv32): Word { b as int }

  function BigSigma0(x: Word): Word {
    var b := x as bv32;
    FromBits(b.RotateRight(2) ^ b.RotateRight(13) ^ b.RotateRight(22))
  }

  function BigSigma1(x: Word): Word {
    var b := x as bv32;
    FromBits(b.RotateRight(6) ^ b.RotateRight(11) ^ b.RotateRight(25))
  }

  function SmallSigma0(x: Word): Word {
    var b := x as bv32;
    FromBits(b.RotateRight(7) ^ b.RotateRight(18) ^ (b >> 3))
  }

  function SmallSigma1(x: Word): Word {
    var b := x as bv32;
    FromBits(b.RotateRight(17) ^ b.RotateRight(19) ^ (b >> 10))
  }

  function Ch(x: Word, y: Word, z: Word): Word { FromBits(ChBits(x as bv32, y as bv32, z as bv32)) }

  function ChBits(x: bv32, y: bv32, z: bv32): bv32 { (x & y) ^ (!x & z) }

  function Maj(x: Word, y: Word, z: Word): Word { FromBits(MajBits(x as bv32, y as bv32, z as bv32)) }

  function MajBits(x: bv32, y: bv32, z: bv32): bv32 { (x & y) ^ (x & z) ^ (y & z) }

  /** load_be32: four bytes, most significant first. */
  function LoadBE(b0: Byte, b1: Byte, b2: Byte, b3: Byte): Word {
    b0 * 0x100_0000 + b1 * 0x1_0000 + b2 * 0x100 + b3
  }

  /** put_be32. */
  function PutBE(v: Word): seq<Byte> {
    [v / 0x100_0000, v / 0x1_0000 % 0x100, v / 0x100 % 0x100, v % 0x100]
  }

  /** bswap32: the four bytes of a word in the opposite order. */
  function Bswap(v: Word): Word {
    LoadBE(v % 0x100, v / 0x100 % 0x100, v / 0x1_0000 % 0x100, v / 0x100_0000)
  }

  lemma Quotients(b0: Byte, b1: Byte, b2: Byte, b3: Byte)
    ensures LoadBE(b0, b1, b2, b3) % 0x100 == b3
    ensures LoadBE(b0, b1, b2, b3) / 0x100 == b0 * 0x1_0000 + b1 * 0x100 + b2
    ensures LoadBE(b0, b1, b2, b3) / 0x1_0000 == b0 * 0x100 + b1
    ensures LoadBE(b0, b1, b2, b3) / 0x100_0000 == b0
  {
  }

  lemma PutLoad(b0: Byte, b1: Byte, b2: Byte, b3: Byte)
    ensures PutBE(LoadBE(b0, b1, b2, b3)) == [b0, b1, b2, b3]
    ensures Bswap(LoadBE(b0, b1, b2, b3)) == LoadBE(b3, b2, b1, b0)
  {
    hide LoadBE;
    Quotients(b0, b1, b2, b3);
    LowDigit(b0, b1);
    LowDigit(b0 * 0x100 + b1, b2);
  }

  lemma LowDigit(high: nat, low: Byte)
    ensures (high * 0x100 + low) % 0x100 == low
  {
  }

  lemma LoadPut(v: Word)
    ensures var p := PutBE(v); |p| == 4 && LoadBE(p[0], p[1], p[2], p[3]) == v
  {
    assert v / 0x100 / 0x100 == v / 0x1_0000;
    assert v / 0x1_0000 / 0x100 == v / 0x100_0000;
  }
}
