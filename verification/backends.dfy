/** The double hash of a header's last four words, as every backend of
    src/sha256d.c, src/sha256d_x86_sha_ni.c, src/sha256d_arm_sha2.c and the GPU
    kernels computes it from a prepared midstate. */
module Backends {
  import opened Words
  import opened Fips180
  import opened FipsHash
  import opened Vectors
  import FastC
  import Ring
  import Unrolled
  import ShaNi
  import ArmSha2

  /** sha256_midstate_t: two OpenSSL contexts and the portable state. */
  datatype Midstate = Midstate(ctx: State, secondCtx: State, fastState: State)

  predicate Prepared(mid: Midstate) {
    mid.ctx == mid.fastState && mid.secondCtx == INITIAL
  }

  function StateWords(s: State): (w: seq<Word>)
    ensures |w| == 8 && FastC.StateOf(w) == s
  {
    [s.a, s.b, s.c, s.d, s.e, s.f, s.g, s.h]
  }

  method FromState(s: State) returns (a: array<Word>)
    ensures fresh(a) && a.Length == 8 && a[..] == StateWords(s)
  {
    a := new Word[8];
    a[0], a[1], a[2], a[3] := s.a, s.b, s.c, s.d;
    a[4], a[5], a[6], a[7] := s.e, s.f, s.g, s.h;
  }

  method FromBlock(m: Block, length: nat) returns (w: array<Word>)
    requires length >= 16
    ensures fresh(w) && w.Length == length && w[..16] == m
  {
    w := new Word[length];
    for i := 0 to 16
      invariant w[..i] == m[..i]
    {
      w[i] := m[i];
    }
  }

  /** sha256d_80_midstate_prepare; the OpenSSL contexts have absorbed the same block. */
  method Prepare(first64: seq<Byte>) returns (mid: Midstate)
    requires |first64| == 64
    ensures Prepared(mid) && mid.fastState == MidstateOf(first64)
  {
    hide Compress;
    var state := FromState(INITIAL);
    var w := FromBlock(BlockAt(first64, 0), 64);
    FastC.CompressWords(state, w);
    var fast := FastC.StateOf(state[..]);
    mid := Midstate(Compress(INITIAL, BlockAt(first64, 0)), INITIAL, fast);
  }

  /** sha256d_80_midstate_hash_openssl: the two blocks are laid out as bytes. */
  method HashOpenSsl(mid: Midstate, t0: Word, t1: Word, t2: Word, t3: Word) returns (r: State)
    requires Prepared(mid)
    ensures r == DoubleHash(mid.fastState, t0, t1, t2, t3)
  {
    hide Compress, WordAt, PutBE, PutBE64;
    var firstBlock := TailBytes([t0, t1, t2, t3]) + [0x80] + Zeros(39) + PutBE64(640);
    TailLayout([t0, t1, t2, t3], firstBlock, 640);
    WordsDetermine(firstBlock, 0, FirstTail(t0, t1, t2, t3));
    var ctx := Compress(mid.ctx, BlockAt(firstBlock, 0));
    var secondBlock := TailBytes(StateWords(ctx)) + [0x80] + Zeros(23) + PutBE64(256);
    TailLayout(StateWords(ctx), secondBlock, 256);
    WordsDetermine(secondBlock, 0, SecondBlock(ctx));
    r := Compress(mid.secondCtx, BlockAt(secondBlock, 0));
  }

  function TailBytes(w: seq<Word>): (b: seq<Byte>)
    ensures |b| == 4 * |w|
  {
    if w == [] then [] else TailBytes(w[..|w| - 1]) + PutBE(w[|w| - 1])
  }

  lemma {:induction false} TailBytesWords(w: seq<Word>, k: nat)
    requires k < |w|
    ensures WordAt(TailBytes(w), k) == w[k]
  {
    var n := |w| - 1;
    if k == n {
      hide PutBE, LoadBE;
      LoadPut(w[n]);
      PutLengths(w[n]);
    } else {
      hide PutBE, LoadBE;
      TailBytesWords(w[..n], k);
    }
  }

  /** A block made of w, the 0x80 byte, zeros and a 64-bit length. */
  lemma TailLayout(w: seq<Word>, block: seq<Byte>, bits: nat)
    requires |w| == 4 || |w| == 8
    requires bits < 0x1_0000_0000
    requires block == TailBytes(w) + [0x80] + Zeros(55 - 4 * |w|) + PutBE64(bits)
    ensures |block| == 64
    ensures forall k :: 0 <= k < |w| ==> WordAt(block, k) == w[k]
    ensures WordAt(block, |w|) == 0x8000_0000
    ensures forall k :: |w| < k < 15 ==> WordAt(block, k) == 0
    ensures WordAt(block, 15) == bits
  {
    hide WordAt, PutBE64, Padding, TailBytes, Zeros;
    var m, len := TailBytes(w), PutBE64(bits);
    PaddingParts(m, Zeros(55 - 4 * |w|), len, block, 1);
    PaddedSizes(block, |m|, 1, len);
    forall k | 0 <= k < |w|
      ensures WordAt(block, k) == w[k]
    {
      TailBytesWords(w, k);
      WordPrefix(block, m, k);
    }
    PaddingBit(block, |m|, 1, len);
    PaddingLength(block, |m|, 1, len);
    LengthWords(bits);
    forall k | |w| < k < 14
      ensures WordAt(block, k) == 0
    {
      PaddingZero(block, |m|, 1, len, k);
    }
  }

  /** sha256d_80_midstate_hash_fast_c: one array w serves both compressions. */
  method HashFastC(mid: Midstate, t0: Word, t1: Word, t2: Word, t3: Word) returns (r: State)
    ensures r == DoubleHash(mid.fastState, t0, t1, t2, t3)
  {
    hide Compress;
    var firstState := FromState(mid.fastState);
    var w := FromBlock(FirstTail(t0, t1, t2, t3), 64);
    FastC.CompressWords(firstState, w);
    var secondState := FromState(INITIAL);
    FillSecond(firstState, w);
    FastC.CompressWords(secondState, w);
    r := FastC.StateOf(secondState[..]);
  }

  /** Lays out the second block over the used schedule array. */
  method FillSecond(firstState: array<Word>, w: array<Word>)
    requires firstState.Length == 8 && w.Length == 64 && firstState != w
    modifies w
    ensures w[..16] == SecondBlock(FastC.StateOf(firstState[..]))
  {
    for i := 0 to 8
      invariant forall j :: 0 <= j < i ==> w[j] == firstState[j]
    {
      w[i] := firstState[i];
    }
    w[8] := 0x8000_0000;
    for i := 9 to 15
      invariant forall j :: 0 <= j < 8 ==> w[j] == firstState[j]
      invariant w[8] == 0x8000_0000 && forall j :: 9 <= j < i ==> w[j] == 0
    {
      w[i] := 0;
    }
    w[15] := 256;
  }

  /** sha256d_hash_tail_words_x86_raw. */
  method HashShaNi(mid: Midstate, t0: Word, t1: Word, t2: Word, t3: Word) returns (r: State)
    ensures r == DoubleHash(mid.fastState, t0, t1, t2, t3)
  {
    hide Compress;
    var first := ShaNi.CompressVec(mid.fastState, Vec(t0, t1, t2, t3), Vec(0x8000_0000, 0, 0, 0), Vec(0, 0, 0, 0), Vec(0, 0, 0, 640));
    r := ShaNi.CompressVec(INITIAL, Vec(first.a, first.b, first.c, first.d), Vec(first.e, first.f, first.g, first.h),
                           Vec(0x8000_0000, 0, 0, 0), Vec(0, 0, 0, 256));
  }

  /** sha256d_hash_nonce_pair_x86_raw. */
  method HashPairShaNi(mid: Midstate, t0: Word, t1: Word, t2: Word, nonceA: Word, nonceB: Word) returns (ra: State, rb: State)
    ensures ra == DoubleHash(mid.fastState, t0, t1, t2, Bswap(nonceA))
    ensures rb == DoubleHash(mid.fastState, t0, t1, t2, Bswap(nonceB))
  {
    hide Compress, Bswap;
    var pad, none := Vec(0x8000_0000, 0, 0, 0), Vec(0, 0, 0, 0);
    var firstA, firstB := ShaNi.CompressVec2(mid.fastState, mid.fastState,
      Both(Vec(t0, t1, t2, Bswap(nonceA)), Vec(t0, t1, t2, Bswap(nonceB))),
      Both(pad, pad), Both(none, none), Both(Vec(0, 0, 0, 640), Vec(0, 0, 0, 640)));
    ra, rb := ShaNi.CompressVec2(INITIAL, INITIAL,
      Both(Vec(firstA.a, firstA.b, firstA.c, firstA.d), Vec(firstB.a, firstB.b, firstB.c, firstB.d)),
      Both(Vec(firstA.e, firstA.f, firstA.g, firstA.h), Vec(firstB.e, firstB.f, firstB.g, firstB.h)),
      Both(pad, pad), Both(Vec(0, 0, 0, 256), Vec(0, 0, 0, 256)));
  }

  /** sha256d_hash_tail_words_arm_raw. */
  method HashArm(mid: Midstate, t0: Word, t1: Word, t2: Word, t3: Word) returns (r: State)
    ensures r == DoubleHash(mid.fastState, t0, t1, t2, t3)
  {
    hide Compress;
    var s := mid.fastState;
    var firstAbcd, firstEfgh := ArmSha2.CompressTail(ArmSha2.Abcd(s), ArmSha2.Efgh(s), Vec(t0, t1, t2, t3), s);
    var abcd, efgh := ArmSha2.CompressSecond(firstAbcd, firstEfgh);
    r := State(abcd.x0, abcd.x1, abcd.x2, abcd.x3, efgh.x0, efgh.x1, efgh.x2, efgh.x3);
  }

  /** sha256d_hash_nonce_pair_arm_raw. */
  method HashPairArm(mid: Midstate, t0: Word, t1: Word, t2: Word, nonceA: Word, nonceB: Word) returns (ra: State, rb: State)
    ensures ra == DoubleHash(mid.fastState, t0, t1, t2, Bswap(nonceA))
    ensures rb == DoubleHash(mid.fastState, t0, t1, t2, Bswap(nonceB))
  {
    hide Compress, Bswap;
    var s := mid.fastState;
    var firstAbcd, firstEfgh := ArmSha2.CompressTail2(ArmSha2.Abcd(s), ArmSha2.Efgh(s),
      Vec(t0, t1, t2, Bswap(nonceA)), Vec(t0, t1, t2, Bswap(nonceB)), s);
    var abcd, efgh := ArmSha2.CompressSecond2(firstAbcd, firstEfgh);
    ra := State(abcd.a.x0, abcd.a.x1, abcd.a.x2, abcd.a.x3, efgh.a.x0, efgh.a.x1, efgh.a.x2, efgh.a.x3);
    rb := State(abcd.b.x0, abcd.b.x1, abcd.b.x2, abcd.b.x3, efgh.b.x0, efgh.b.x1, efgh.b.x2, efgh.b.x3);
  }

  /** scan_one_nonce of the OpenCL compact kernel, up to the comparison. */
  method HashCompactKernel(mid: Midstate, t0: Word, t1: Word, t2: Word, nonce: Word) returns (r: State)
    ensures r == DoubleHash(mid.fastState, t0, t1, t2, Bswap(nonce))
  {
    hide Compress, Bswap, Ring.Window;
    var st := FromState(mid.fastState);
    var w := FromBlock(FirstTail(t0, t1, t2, Bswap(nonce)), 16);
    assert w[..] == w[..16];
    Ring.Compress16(st, w);
    var first := FastC.StateOf(st[..]);
    var out := FromState(INITIAL);
    w := FromBlock(SecondBlock(first), 16);
    assert w[..] == w[..16];
    Ring.Compress16(out, w);
    r := FastC.StateOf(out[..]);
  }

  /** scan_one_nonce and scan_one_nonce_lop3 of the unrolled kernels. */
  method HashUnrolledKernel(lop3: bool, mid: Midstate, t0: Word, t1: Word, t2: Word, nonce: Word) returns (r: State)
    ensures r == DoubleHash(mid.fastState, t0, t1, t2, Bswap(nonce))
  {
    hide Compress, Bswap;
    var first := Unrolled.CompressUnrolled(lop3, mid.fastState, FirstTail(t0, t1, t2, Bswap(nonce)));
    r := Unrolled.CompressUnrolled(lop3, INITIAL, SecondBlock(first));
  }

  /** scan_two_nonces of the CUDA kernel. */
  method HashDualKernel(mid: Midstate, t0: Word, t1: Word, t2: Word, nonce0: Word, nonce1: Word) returns (ra: State, rb: State)
    ensures ra == DoubleHash(mid.fastState, t0, t1, t2, Bswap(nonce0))
    ensures rb == DoubleHash(mid.fastState, t0, t1, t2, Bswap(nonce1))
  {
    hide Compress, Bswap;
    var s := mid.fastState;
    var a, b := Unrolled.CompressDual(s, FirstTail(t0, t1, t2, Bswap(nonce0)), s, FirstTail(t0, t1, t2, Bswap(nonce1)));
    ra, rb := Unrolled.CompressDual(INITIAL, SecondBlock(a), INITIAL, SecondBlock(b));
  }

  /** scan_two_nonces_vec of the OpenCL register-heavy kernel. */
  method HashVectorKernel(mid: Midstate, t0: Word, t1: Word, t2: Word, nonce0: Word) returns (ra: State, rb: State)
    ensures ra == DoubleHash(mid.fastState, t0, t1, t2, Bswap(nonce0))
    ensures rb == DoubleHash(mid.fastState, t0, t1, t2, Bswap(Add(nonce0, 1)))
  {
    hide Compress, Bswap;
    var s := mid.fastState;
    var st := PairState(s, s);
    var w := PairBlock(FirstTail(t0, t1, t2, Bswap(nonce0)), FirstTail(t0, t1, t2, Bswap(Add(nonce0, 1))));
    Ring.CompressVec2(st, w);
    var a, b := FastC.StateOf(Ring.First(st[..])), FastC.StateOf(Ring.Second(st[..]));
    var h := PairState(INITIAL, INITIAL);
    w := PairBlock(SecondBlock(a), SecondBlock(b));
    Ring.CompressVec2(h, w);
    ra, rb := FastC.StateOf(Ring.First(h[..])), FastC.StateOf(Ring.Second(h[..]));
  }

  method PairState(s: State, q: State) returns (a: array<Pair>)
    ensures fresh(a) && a.Length == 8
    ensures Ring.First(a[..]) == StateWords(s) && Ring.Second(a[..]) == StateWords(q)
  {
    var v, w := StateWords(s), StateWords(q);
    a := new Pair[8](i requires 0 <= i < 8 => Pair(v[i], w[i]));
  }

  method PairBlock(m: Block, n: Block) returns (a: array<Pair>)
    ensures fresh(a) && a.Length == 16
    ensures Ring.First(a[..]) == m && Ring.Second(a[..]) == n
  {
    a := new Pair[16](i requires 0 <= i < 16 => Pair(m[i], n[i]));
  }
}
