/** SHA-256 of byte strings, FIPS 180-4 sections 5.1.1, 5.2.1 and 6.2.2, and the
    double hash of an 80-byte block header. */
module FipsHash {
  import opened Words
  import opened Fips180

  function Zeros(n: nat): (z: seq<Byte>)
    ensures |z| == n && forall i :: 0 <= i < n ==> z[i] == 0
  {
    if n == 0 then [] else [0] + Zeros(n - 1)
  }

  /** A 64-bit length, most significant byte first. */
  function PutBE64(n: nat): (b: seq<Byte>)
    ensures |b| == 8
  {
    PutBE(n / 0x1_0000_0000 % 0x1_0000_0000) + PutBE(n % 0x1_0000_0000)
  }

  /** The number of zero bytes after the 0x80 byte. */
  function PadZeros(n: nat): (z: nat)
    ensures (n + 1 + z + 8) % 64 == 0
  {
    PadZerosFit(n, n / 64, n % 64);
    (119 - n % 64) % 64
  }

  lemma PadZerosFit(n: nat, q: nat, r: nat)
    requires n == 64 * q + r && r < 64
    ensures (n + 1 + (119 - r) % 64 + 8) % 64 == 0
  {
    if r <= 55 {
      assert (119 - r) % 64 == 55 - r && n + 1 + (55 - r) + 8 == 64 * (q + 1);
    } else {
      assert (119 - r) % 64 == 119 - r && n + 1 + (119 - r) + 8 == 64 * (q + 2);
    }
  }

  /** Section 5.1.1. */
  function Pad(m: seq<Byte>): (p: seq<Byte>)
    ensures |p| % 64 == 0
  {
    m + [0x80] + Zeros(PadZeros(|m|)) + PutBE64(8 * |m|)
  }

  function WordAt(b: seq<Byte>, i: nat): Word
    requires 4 * i + 4 <= |b|
  {
    LoadBE(b[4 * i], b[4 * i + 1], b[4 * i + 2], b[4 * i + 3])
  }

  /** n words from word number i on. */
  function WordsFrom(b: seq<Byte>, i: nat, n: nat): (w: seq<Word>)
    requires 4 * (i + n) <= |b|
    ensures |w| == n && forall k :: 0 <= k < n ==> w[k] == WordAt(b, i + k)
  {
    if n == 0 then [] else WordsFrom(b, i, n - 1) + [WordAt(b, i + n - 1)]
  }

  /** Section 5.2.1: block number i. */
  function BlockAt(b: seq<Byte>, i: nat): Block
    requires 64 * i + 64 <= |b|
  {
    WordsFrom(b, 16 * i, 16)
  }

  function HashBlocks(b: seq<Byte>, n: nat): State
    requires 64 * n <= |b|
  {
    if n == 0 then INITIAL else Compress(HashBlocks(b, n - 1), BlockAt(b, n - 1))
  }

  function StateBytes(s: State): (b: seq<Byte>)
    ensures |b| == 32
  {
    PutBE(s.a) + PutBE(s.b) + PutBE(s.c) + PutBE(s.d) + PutBE(s.e) + PutBE(s.f) + PutBE(s.g) + PutBE(s.h)
  }

  function Sha256(m: seq<Byte>): (d: seq<Byte>)
    ensures |d| == 32
  {
    StateBytes(HashBlocks(Pad(m), |Pad(m)| / 64))
  }

  function Sha256d(m: seq<Byte>): (d: seq<Byte>)
    ensures |d| == 32
  {
    Sha256(Sha256(m))
  }

  // ---- The two blocks that remain of a header once its midstate is known ----

  function FirstTail(t0: Word, t1: Word, t2: Word, t3: Word): Block {
    [t0, t1, t2, t3, 0x8000_0000, 0, 0, 0, 0, 0, 0, 0, 0, 0, 0, 640]
  }

  function SecondBlock(s: State): Block {
    [s.a, s.b, s.c, s.d, s.e, s.f, s.g, s.h, 0x8000_0000, 0, 0, 0, 0, 0, 0, 256]
  }

  /** What every backend computes from a midstate and the last four header words. */
  function DoubleHash(mid: State, t0: Word, t1: Word, t2: Word, t3: Word): State {
    Compress(INITIAL, SecondBlock(Compress(mid, FirstTail(t0, t1, t2, t3))))
  }

  lemma WordsDetermine(b: seq<Byte>, i: nat, m: Block)
    requires 64 * i + 64 <= |b|
    requires forall k :: 0 <= k < 16 ==> WordAt(b, 16 * i + k) == m[k]
    ensures BlockAt(b, i) == m
  {
    hide WordAt;
  }

  /** The bytes after a message of n bytes padded to k blocks. */
  ghost predicate Padding(p: seq<Byte>, n: nat, k: nat, len: seq<Byte>) {
    && |len| == 8 && |p| == 64 * k && n % 4 == 0 && n + 12 <= |p|
    && p[n] == 0x80
    && (forall i :: n < i < |p| - 8 ==> p[i] == 0)
    && p[|p| - 8..] == len
  }

  lemma PaddingBit(p: seq<Byte>, n: nat, k: nat, len: seq<Byte>)
    requires Padding(p, n, k, len)
    ensures WordAt(p, n / 4) == 0x8000_0000
  {
    assert 4 * (n / 4) == n;
  }

  lemma PaddingZero(p: seq<Byte>, n: nat, k: nat, len: seq<Byte>, w: nat)
    requires Padding(p, n, k, len) && n / 4 < w < 16 * k - 2
    ensures WordAt(p, w) == 0
  {
  }

  lemma PaddingLength(p: seq<Byte>, n: nat, k: nat, len: seq<Byte>)
    requires Padding(p, n, k, len)
    ensures WordAt(p, 16 * k - 2) == WordAt(len, 0) && WordAt(p, 16 * k - 1) == WordAt(len, 1)
  {
    var e := p[|p| - 8..];
    assert e[0] == len[0] && e[1] == len[1] && e[2] == len[2] && e[3] == len[3];
    assert e[4] == len[4] && e[5] == len[5] && e[6] == len[6] && e[7] == len[7];
  }

  lemma PaddingParts(m: seq<Byte>, z: seq<Byte>, len: seq<Byte>, p: seq<Byte>, k: nat)
    requires p == m + [0x80] + z + len && |len| == 8 && (forall i :: 0 <= i < |z| ==> z[i] == 0)
    requires |m| % 4 == 0 && |m| + |z| + 9 == 64 * k && |z| >= 3
    ensures p[..|m|] == m && Padding(p, |m|, k, len)
  {
  }

  lemma PadZerosOf()
    ensures PadZeros(80) == 39 && PadZeros(32) == 23
  {
  }

  lemma PadIs(m: seq<Byte>, z: nat, len: seq<Byte>)
    requires z == PadZeros(|m|) && len == PutBE64(8 * |m|)
    ensures Pad(m) == m + [0x80] + Zeros(z) + len
  {
    hide PadZeros, PutBE64, Zeros;
  }

  lemma PaddedTo(m: seq<Byte>, z: nat, len: seq<Byte>, k: nat)
    requires z == PadZeros(|m|) && len == PutBE64(8 * |m|)
    requires |m| % 4 == 0 && |m| + z + 9 == 64 * k && z >= 3
    ensures Pad(m)[..|m|] == m && Padding(Pad(m), |m|, k, len)
  {
    hide Padding, PutBE64, Pad, PadZeros, Zeros;
    PadIs(m, z, len);
    PaddingParts(m, Zeros(z), len, Pad(m), k);
  }

  /** The padded form of a message of 80 or 32 bytes. */
  lemma PaddedShape(m: seq<Byte>, len: seq<Byte>)
    requires |m| == 80 || |m| == 32
    requires len == PutBE64(8 * |m|)
    ensures Pad(m)[..|m|] == m && Padding(Pad(m), |m|, if |m| == 80 then 2 else 1, len)
  {
    hide Padding, PutBE64, Pad, PadZeros;
    PadZerosOf();
    if |m| == 80 {
      PaddedTo(m, 39, len, 2);
    } else {
      PaddedTo(m, 23, len, 1);
    }
  }

  lemma WordPrefix(p: seq<Byte>, m: seq<Byte>, k: nat)
    requires |m| <= |p| && p[..|m|] == m && 4 * k + 4 <= |m|
    ensures WordAt(p, k) == WordAt(m, k)
  {
    assert forall i :: 0 <= i < |m| ==> p[..|m|][i] == p[i];
  }

  lemma PaddedSizes(p: seq<Byte>, n: nat, k: nat, len: seq<Byte>)
    requires Padding(p, n, k, len)
    ensures |p| == 64 * k
  {
  }

  lemma LengthWords(n: nat)
    requires n < 0x1_0000_0000
    ensures WordAt(PutBE64(n), 0) == 0 && WordAt(PutBE64(n), 1) == n
  {
    hide PutBE, LoadBE;
    LoadPut(0);
    LoadPut(n);
    PutLengths(n);
    var hi, lo := PutBE(0), PutBE(n);
    assert PutBE64(n) == hi + lo;
  }

  lemma PutLengths(n: Word)
    ensures |PutBE(n)| == 4
  {
  }

  lemma PaddedHeader(header: seq<Byte>)
    requires |header| == 80
    ensures |Pad(header)| == 128 && BlockAt(Pad(header), 0) == BlockAt(header, 0)
    ensures BlockAt(Pad(header), 1)
         == FirstTail(WordAt(header, 16), WordAt(header, 17), WordAt(header, 18), WordAt(header, 19))
  {
    hide WordAt, Pad, Padding;
    var p, len := Pad(header), PutBE64(640);
    PaddedShape(header, len);
    PaddedSizes(p, 80, 2, len);
    LengthWords(640);
    PaddingBit(p, 80, 2, len);
    PaddingLength(p, 80, 2, len);
    forall k | 20 < k < 30
      ensures WordAt(p, k) == 0
    {
      PaddingZero(p, 80, 2, len, k);
    }
    forall k | 0 <= k < 20
      ensures WordAt(p, k) == WordAt(header, k)
    {
      WordPrefix(p, header, k);
    }
    WordsDetermine(p, 0, BlockAt(header, 0));
    WordsDetermine(p, 1, FirstTail(WordAt(header, 16), WordAt(header, 17), WordAt(header, 18), WordAt(header, 19)));
  }

  /** The words of a digest are the words of the state it came from. */
  lemma DigestWords(s: State)
    ensures WordsFrom(StateBytes(s), 0, 8) == [s.a, s.b, s.c, s.d, s.e, s.f, s.g, s.h]
  {
    hide PutBE, LoadBE;
    LoadPut(s.a);
    LoadPut(s.b);
    LoadPut(s.c);
    LoadPut(s.d);
    LoadPut(s.e);
    LoadPut(s.f);
    LoadPut(s.g);
    LoadPut(s.h);
    assert WordsFrom(StateBytes(s), 0, 8) == [WordAt(StateBytes(s), 0), WordAt(StateBytes(s), 1), WordAt(StateBytes(s), 2),
      WordAt(StateBytes(s), 3), WordAt(StateBytes(s), 4), WordAt(StateBytes(s), 5), WordAt(StateBytes(s), 6), WordAt(StateBytes(s), 7)];
  }

  lemma PaddedDigest(s: State)
    ensures |Pad(StateBytes(s))| == 64 && BlockAt(Pad(StateBytes(s)), 0) == SecondBlock(s)
  {
    hide WordAt, Pad, Padding, StateBytes;
    var d := StateBytes(s);
    var p, len := Pad(d), PutBE64(256);
    PaddedShape(d, len);
    PaddedSizes(p, 32, 1, len);
    LengthWords(256);
    PaddingBit(p, 32, 1, len);
    PaddingLength(p, 32, 1, len);
    forall k | 8 < k < 14
      ensures WordAt(p, k) == 0
    {
      PaddingZero(p, 32, 1, len, k);
    }
    DigestWords(s);
    forall k | 0 <= k < 8
      ensures WordAt(p, k) == WordsFrom(d, 0, 8)[k]
    {
      WordPrefix(p, d, k);
    }
    WordsDetermine(p, 0, SecondBlock(s));
  }

  function MidstateOf(header: seq<Byte>): State
    requires |header| >= 64
  {
    Compress(INITIAL, BlockAt(header, 0))
  }

  /** The midstate shortcut computes the FIPS 180-4 double hash of the header. */
  lemma MidstateShortcut(header: seq<Byte>)
    requires |header| == 80
    ensures Sha256d(header)
         == StateBytes(DoubleHash(MidstateOf(header), WordAt(header, 16), WordAt(header, 17), WordAt(header, 18), WordAt(header, 19)))
  {
    hide Compress, Pad, BlockAt, WordAt, StateBytes;
    PaddedHeader(header);
    assert HashBlocks(Pad(header), 1) == MidstateOf(header);
    var first := HashBlocks(Pad(header), 2);
    PaddedDigest(first);
    assert HashBlocks(Pad(StateBytes(first)), 1) == Compress(INITIAL, SecondBlock(first));
  }
}
