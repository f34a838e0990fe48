/** The ARM SHA2 backend of src/sha256d_arm_sha2.c. The instructions are defined
    as in the Arm Architecture Reference Manual (SHA256H, SHA256H2, SHA256SU0,
    SHA256SU1 and their shared pseudocode SHA256hash). */
module ArmSha2 {
  import opened Words
  import opened Fips180
  import opened Vectors

  // ---- The instructions ----

  function ShaChoose(x: Word, y: Word, z: Word): Word { FromBits(ChooseBits(x as bv32, y as bv32, z as bv32)) }

  function ChooseBits(x: bv32, y: bv32, z: bv32): bv32 { ((y ^ z) & x) ^ z }

  function ShaMajority(x: Word, y: Word, z: Word): Word { FromBits(MajorityBits(x as bv32, y as bv32, z as bv32)) }

  function MajorityBits(x: bv32, y: bv32, z: bv32): bv32 { (x & y) | ((x | y) & z) }

  /** One iteration of the loop of SHA256hash: x holds a..d, y holds e..h, and both
      are rotated left by one lane at the end. */
  function HashStep(x: Vec, y: Vec, w: Word): (Vec, Vec) {
    var t := Add(Add(Add(y.x3, BigSigma1(y.x0)), ShaChoose(y.x0, y.x1, y.x2)), w);
    var x3 := Add(t, x.x3);
    var y3 := Add(Add(t, BigSigma0(x.x0)), ShaMajority(x.x0, x.x1, x.x2));
    (Vec(y3, x.x0, x.x1, x.x2), Vec(x3, y.x0, y.x1, y.x2))
  }

  function Sha256Hash(x: Vec, y: Vec, w: Vec): (Vec, Vec) {
    var r0 := HashStep(x, y, w.x0);
    var r1 := HashStep(r0.0, r0.1, w.x1);
    var r2 := HashStep(r1.0, r1.1, w.x2);
    HashStep(r2.0, r2.1, w.x3)
  }

  /** vsha256hq_u32. */
  function Sha256H(abcd: Vec, efgh: Vec, wk: Vec): Vec { Sha256Hash(abcd, efgh, wk).0 }

  /** vsha256h2q_u32: its first operand is efgh. */
  function Sha256H2(efgh: Vec, abcd: Vec, wk: Vec): Vec { Sha256Hash(abcd, efgh, wk).1 }

  function Sha256Su0(v: Vec, w: Vec): Vec {
    Vec(Add(SmallSigma0(v.x1), v.x0), Add(SmallSigma0(v.x2), v.x1), Add(SmallSigma0(v.x3), v.x2), Add(SmallSigma0(w.x0), v.x3))
  }

  function Sha256Su1(v: Vec, n: Vec, m: Vec): Vec {
    var r0 := Add(Add(SmallSigma1(m.x2), v.x0), n.x1);
    var r1 := Add(Add(SmallSigma1(m.x3), v.x1), n.x2);
    Vec(r0, r1, Add(Add(SmallSigma1(r0), v.x2), n.x3), Add(Add(SmallSigma1(r1), v.x3), m.x0))
  }

  // ---- What the instructions mean for FIPS 180-4 ----

  lemma ChooseIsCh(x: bv32, y: bv32, z: bv32)
    ensures ((y ^ z) & x) ^ z == ChBits(x, y, z)
  {
  }

  lemma MajorityIsMaj(x: bv32, y: bv32, z: bv32)
    ensures (x & y) | ((x | y) & z) == MajBits(x, y, z)
  {
  }

  lemma BitForms(x: bv32, y: bv32, z: bv32)
    ensures ChooseBits(x, y, z) == ChBits(x, y, z) && MajorityBits(x, y, z) == MajBits(x, y, z)
  {
    hide ChBits, MajBits;
    ChooseIsCh(x, y, z);
    MajorityIsMaj(x, y, z);
  }

  lemma WordForms(x: Word, y: Word, z: Word)
    ensures ShaChoose(x, y, z) == Ch(x, y, z) && ShaMajority(x, y, z) == Maj(x, y, z)
  {
    hide ChooseBits, ChBits, MajorityBits, MajBits, FromBits;
    BitForms(x as bv32, y as bv32, z as bv32);
  }

  function Abcd(s: State): Vec { Vec(s.a, s.b, s.c, s.d) }

  function Efgh(s: State): Vec { Vec(s.e, s.f, s.g, s.h) }

  lemma HashStepIsRound(s: State, k: Word, w: Word)
    ensures HashStep(Abcd(s), Efgh(s), Add(w, k)) == (Abcd(Round(s, k, w)), Efgh(Round(s, k, w)))
  {
    hide Ch, Maj, BigSigma0, BigSigma1, Add, ShaChoose, ShaMajority;
    WordForms(s.e, s.f, s.g);
    WordForms(s.a, s.b, s.c);
    var h3 := Add(Add(s.h, BigSigma1(s.e)), Ch(s.e, s.f, s.g));
    var t1 := Add(Add(h3, k), w);
    AddComm(w, k);
    AddAssoc(h3, k, w);
    AddComm(t1, s.d);
    AddAssoc(t1, BigSigma0(s.a), Maj(s.a, s.b, s.c));
  }

  /** The operand of SHA256H may hold W+K folded beforehand. */
  lemma HashIsFourRounds(s: State, t: nat, w: Vec, wk: Vec)
    requires t <= 60 && wk == AddVec(w, KVec(t))
    ensures Sha256H(Abcd(s), Efgh(s), wk) == Abcd(FourRounds(s, t, w))
    ensures Sha256H2(Efgh(s), Abcd(s), wk) == Efgh(FourRounds(s, t, w))
  {
    hide HashStep, Round, Add, K, Abcd, Efgh;
    var r0 := Round(s, K(t), w.x0);
    var r1 := Round(r0, K(t + 1), w.x1);
    var r2 := Round(r1, K(t + 2), w.x2);
    HashStepIsRound(s, K(t), w.x0);
    HashStepIsRound(r0, K(t + 1), w.x1);
    HashStepIsRound(r1, K(t + 2), w.x2);
    HashStepIsRound(r2, K(t + 3), w.x3);
  }

  lemma ScheduleIsNextVec(v0: Vec, v1: Vec, v2: Vec, v3: Vec)
    ensures Sha256Su1(Sha256Su0(v0, v1), v2, v3) == NextVec(v0, v1, v2, v3)
  {
    hide Add, SmallSigma0, SmallSigma1;
    var n0 := NextWord(v0.x0, v0.x1, v2.x1, v3.x2);
    var n1 := NextWord(v0.x1, v0.x2, v2.x2, v3.x3);
    SumForm(SmallSigma1(v3.x2), SmallSigma0(v0.x1), v0.x0, v2.x1);
    SumForm(SmallSigma1(v3.x3), SmallSigma0(v0.x2), v0.x1, v2.x2);
    SumForm(SmallSigma1(n0), SmallSigma0(v0.x3), v0.x2, v2.x3);
    SumForm(SmallSigma1(n1), SmallSigma0(v1.x0), v0.x3, v3.x0);
  }

  lemma SumForm(s1: Word, s0: Word, w0: Word, w9: Word)
    ensures Add(Add(s1, Add(s0, w0)), w9) == Add(Add(Add(s1, w9), s0), w0)
  {
    hide Add;
    AddSwap(s1, Add(s0, w0), w9);
    AddAssoc(Add(s1, w9), s0, w0);
  }

  // ---- The compressors ----

  /** BTC_SHA256_ARM_ROUND4_WK. */
  method Round4Wk(ghost s: State, ghost t: nat, ghost w: Vec, abcdVar: Vec, efghVar: Vec, wk: Vec)
    returns (abcd: Vec, efgh: Vec)
    requires t <= 60 && abcdVar == Abcd(s) && efghVar == Efgh(s) && wk == AddVec(w, KVec(t))
    ensures abcd == Abcd(FourRounds(s, t, w)) && efgh == Efgh(FourRounds(s, t, w))
  {
    hide Sha256H, Sha256H2, FourRounds, AddVec, KVec, Abcd, Efgh;
    HashIsFourRounds(s, t, w, wk);
    var abcdPrev := abcdVar;
    abcd := Sha256H(abcdPrev, efghVar, wk);
    efgh := Sha256H2(efghVar, abcdPrev, wk);
  }

  /** BTC_SHA256_ARM_ROUND4. */
  method Round4(ghost s: State, abcdVar: Vec, efghVar: Vec, schedule: Vec, offset: nat)
    returns (abcd: Vec, efgh: Vec)
    requires offset <= 60 && abcdVar == Abcd(s) && efghVar == Efgh(s)
    ensures abcd == Abcd(FourRounds(s, offset, schedule)) && efgh == Efgh(FourRounds(s, offset, schedule))
  {
    hide FourRounds, AddVec, KVec, Abcd, Efgh;
    var wk := AddVec(schedule, KVec(offset));
    abcd, efgh := Round4Wk(s, offset, schedule, abcdVar, efghVar, wk);
  }

  /** The four schedule registers hold the sixteen words before number t. */
  ghost predicate Holds(m: Block, t: nat, s0: Vec, s1: Vec, s2: Vec, s3: Vec)
    requires t >= 16
  {
    s0 == VecAt(m, t - 16) && s1 == VecAt(m, t - 12) && s2 == VecAt(m, t - 8) && s3 == VecAt(m, t - 4)
  }

  /** BTC_SHA256_ARM_ROUNDS16. */
  method Rounds16(ghost s: State, ghost m: Block, abcdVar: Vec, efghVar: Vec, s0: Vec, s1: Vec, s2: Vec, s3: Vec, offset: nat)
    returns (abcd: Vec, efgh: Vec, sched0: Vec, sched1: Vec, sched2: Vec, sched3: Vec)
    requires 16 <= offset <= 48 && Holds(m, offset, s0, s1, s2, s3)
    requires abcdVar == Abcd(Rounds(s, m, offset)) && efghVar == Efgh(Rounds(s, m, offset))
    ensures abcd == Abcd(Rounds(s, m, offset + 16)) && efgh == Efgh(Rounds(s, m, offset + 16))
    ensures Holds(m, offset + 16, sched0, sched1, sched2, sched3)
  {
    hide Rounds, FourRounds, VecAt, NextVec, Sha256Su0, Sha256Su1, Abcd, Efgh;
    ghost var chain := FourRoundChain(s, m, offset);
    ghost var v := VecChain(m, offset);
    assert s0 == v[0] && s1 == v[1] && s2 == v[2] && s3 == v[3];
    abcd, efgh := abcdVar, efghVar;

    sched0 := Sha256Su1(Sha256Su0(s0, s1), s2, s3);
    ScheduleIsNextVec(s0, s1, s2, s3);
    assert sched0 == v[4];
    abcd, efgh := Round4(chain[0], abcd, efgh, sched0, offset);
    sched1 := Sha256Su1(Sha256Su0(s1, s2), s3, sched0);
    ScheduleIsNextVec(s1, s2, s3, sched0);
    assert sched1 == v[5];
    abcd, efgh := Round4(chain[1], abcd, efgh, sched1, offset + 4);
    sched2 := Sha256Su1(Sha256Su0(s2, s3), sched0, sched1);
    ScheduleIsNextVec(s2, s3, sched0, sched1);
    assert sched2 == v[6];
    abcd, efgh := Round4(chain[2], abcd, efgh, sched2, offset + 8);
    sched3 := Sha256Su1(Sha256Su0(s3, sched0), sched1, sched2);
    ScheduleIsNextVec(s3, sched0, sched1, sched2);
    assert sched3 == v[7];
    abcd, efgh := Round4(chain[3], abcd, efgh, sched3, offset + 12);
  }

  // k_first_tail_wk1 .. wk3 and k_second_hash_wk2, wk3.
  const FIRST_TAIL_WK1: Vec := Vec(0xb956c25b, 0x59f111f1, 0x923f82a4, 0xab1c5ed5)
  const FIRST_TAIL_WK2: Vec := Vec(0xd807aa98, 0x12835b01, 0x243185be, 0x550c7dc3)
  const FIRST_TAIL_WK3: Vec := Vec(0x72be5d74, 0x80deb1fe, 0x9bdc06a7, 0xc19bf3f4)
  const SECOND_HASH_WK2: Vec := Vec(0x5807aa98, 0x12835b01, 0x243185be, 0x550c7dc3)
  const SECOND_HASH_WK3: Vec := Vec(0x72be5d74, 0x80deb1fe, 0x9bdc06a7, 0xc19bf274)

  const PAD_BIT: Vec := Vec(0x8000_0000, 0, 0, 0)
  const NO_WORDS: Vec := Vec(0, 0, 0, 0)
  const LENGTH_80: Vec := Vec(0, 0, 0, 640)
  const LENGTH_32: Vec := Vec(0, 0, 0, 256)

  lemma RoundConstants4To7()
    ensures KVec(4) == Vec(0x3956c25b, 0x59f111f1, 0x923f82a4, 0xab1c5ed5)
  {
  }

  lemma RoundConstants8To11()
    ensures KVec(8) == Vec(0xd807aa98, 0x12835b01, 0x243185be, 0x550c7dc3)
  {
  }

  lemma RoundConstants12To15()
    ensures KVec(12) == Vec(0x72be5d74, 0x80deb1fe, 0x9bdc06a7, 0xc19bf174)
  {
  }

  /** The folded tables are the padding words plus the round constants. */
  lemma FoldedTables()
    ensures FIRST_TAIL_WK1 == AddVec(PAD_BIT, KVec(4))
    ensures FIRST_TAIL_WK2 == AddVec(NO_WORDS, KVec(8))
    ensures FIRST_TAIL_WK3 == AddVec(LENGTH_80, KVec(12))
    ensures SECOND_HASH_WK2 == AddVec(PAD_BIT, KVec(8))
    ensures SECOND_HASH_WK3 == AddVec(LENGTH_32, KVec(12))
  {
    hide KVec, K;
    RoundConstants4To7();
    RoundConstants8To11();
    RoundConstants12To15();
  }

  lemma BlockVectors(m0: Vec, m1: Vec, m2: Vec, m3: Vec)
    ensures var m := BlockOf(m0, m1, m2, m3); Holds(m, 16, m0, m1, m2, m3)
  {
  }

  /** sha256_arm_compress_btc_tail. */
  method CompressTail(startAbcd: Vec, startEfgh: Vec, s0: Vec, ghost s: State) returns (outAbcd: Vec, outEfgh: Vec)
    requires startAbcd == Abcd(s) && startEfgh == Efgh(s)
    ensures outAbcd == Abcd(Compress(s, BlockOf(s0, PAD_BIT, NO_WORDS, LENGTH_80)))
    ensures outEfgh == Efgh(Compress(s, BlockOf(s0, PAD_BIT, NO_WORDS, LENGTH_80)))
  {
    hide Rounds, FourRounds, VecAt, Add, FIRST_TAIL_WK1, FIRST_TAIL_WK2, FIRST_TAIL_WK3, K;
    ghost var m := BlockOf(s0, PAD_BIT, NO_WORDS, LENGTH_80);
    BlockVectors(s0, PAD_BIT, NO_WORDS, LENGTH_80);
    FoldedTables();
    NoRounds(s, m);
    ghost var chain := FourRoundChain(s, m, 0);
    var abcd, efgh := startAbcd, startEfgh;
    var sched0, sched1, sched2, sched3 := s0, PAD_BIT, NO_WORDS, LENGTH_80;
    abcd, efgh := Round4(chain[0], abcd, efgh, sched0, 0);
    abcd, efgh := Round4Wk(chain[1], 4, sched1, abcd, efgh, FIRST_TAIL_WK1);
    abcd, efgh := Round4Wk(chain[2], 8, sched2, abcd, efgh, FIRST_TAIL_WK2);
    abcd, efgh := Round4Wk(chain[3], 12, sched3, abcd, efgh, FIRST_TAIL_WK3);
    abcd, efgh, sched0, sched1, sched2, sched3 := Rounds16(s, m, abcd, efgh, sched0, sched1, sched2, sched3, 16);
    abcd, efgh, sched0, sched1, sched2, sched3 := Rounds16(s, m, abcd, efgh, sched0, sched1, sched2, sched3, 32);
    abcd, efgh, sched0, sched1, sched2, sched3 := Rounds16(s, m, abcd, efgh, sched0, sched1, sched2, sched3, 48);
    outAbcd, outEfgh := AddVec(abcd, startAbcd), AddVec(efgh, startEfgh);
    AddStatesComm(s, Rounds(s, m, 64));
  }

  /** sha256_arm_compress_second_hash. */
  method CompressSecond(s0: Vec, s1: Vec) returns (outAbcd: Vec, outEfgh: Vec)
    ensures outAbcd == Abcd(Compress(INITIAL, BlockOf(s0, s1, PAD_BIT, LENGTH_32)))
    ensures outEfgh == Efgh(Compress(INITIAL, BlockOf(s0, s1, PAD_BIT, LENGTH_32)))
  {
    hide Rounds, FourRounds, VecAt, Add, SECOND_HASH_WK2, SECOND_HASH_WK3, K;
    ghost var m := BlockOf(s0, s1, PAD_BIT, LENGTH_32);
    BlockVectors(s0, s1, PAD_BIT, LENGTH_32);
    FoldedTables();
    NoRounds(INITIAL, m);
    ghost var chain := FourRoundChain(INITIAL, m, 0);
    var abcd, efgh := Abcd(INITIAL), Efgh(INITIAL);
    var sched0, sched1, sched2, sched3 := s0, s1, PAD_BIT, LENGTH_32;
    var abcdOrig, efghOrig := abcd, efgh;
    abcd, efgh := Round4(chain[0], abcd, efgh, sched0, 0);
    abcd, efgh := Round4(chain[1], abcd, efgh, sched1, 4);
    abcd, efgh := Round4Wk(chain[2], 8, sched2, abcd, efgh, SECOND_HASH_WK2);
    abcd, efgh := Round4Wk(chain[3], 12, sched3, abcd, efgh, SECOND_HASH_WK3);
    abcd, efgh, sched0, sched1, sched2, sched3 := Rounds16(INITIAL, m, abcd, efgh, sched0, sched1, sched2, sched3, 16);
    abcd, efgh, sched0, sched1, sched2, sched3 := Rounds16(INITIAL, m, abcd, efgh, sched0, sched1, sched2, sched3, 32);
    abcd, efgh, sched0, sched1, sched2, sched3 := Rounds16(INITIAL, m, abcd, efgh, sched0, sched1, sched2, sched3, 48);
    outAbcd, outEfgh := AddVec(abcd, abcdOrig), AddVec(efgh, efghOrig);
    AddStatesComm(INITIAL, Rounds(INITIAL, m, 64));
  }

  // ---- Two lanes ----

  function BothAbcd(s: State, q: State): Both { Both(Abcd(s), Abcd(q)) }

  function BothEfgh(s: State, q: State): Both { Both(Efgh(s), Efgh(q)) }

  /** BTC_SHA256_ARM_ROUND4_WK_PAIR, and the second part of BTC_SHA256_ARM_ROUND4_PAIR. */
  method Round4WkBoth(ghost s: State, ghost q: State, ghost t: nat, ghost w: Both, abcdVar: Both, efghVar: Both, wk: Both)
    returns (abcd: Both, efgh: Both)
    requires t <= 60 && abcdVar == BothAbcd(s, q) && efghVar == BothEfgh(s, q)
    requires wk == Both(AddVec(w.a, KVec(t)), AddVec(w.b, KVec(t)))
    ensures abcd == BothAbcd(FourRounds(s, t, w.a), FourRounds(q, t, w.b))
    ensures efgh == BothEfgh(FourRounds(s, t, w.a), FourRounds(q, t, w.b))
  {
    hide Sha256H, Sha256H2, FourRounds, AddVec, KVec, Abcd, Efgh;
    HashIsFourRounds(s, t, w.a, wk.a);
    HashIsFourRounds(q, t, w.b, wk.b);
    var aAbcdPrev, bAbcdPrev := abcdVar.a, abcdVar.b;
    abcd := Both(Sha256H(aAbcdPrev, efghVar.a, wk.a), Sha256H(bAbcdPrev, efghVar.b, wk.b));
    efgh := Both(Sha256H2(efghVar.a, aAbcdPrev, wk.a), Sha256H2(efghVar.b, bAbcdPrev, wk.b));
  }

  /** BTC_SHA256_ARM_ROUND4_PAIR. */
  method Round4Both(ghost s: State, ghost q: State, abcdVar: Both, efghVar: Both, schedule: Both, offset: nat)
    returns (abcd: Both, efgh: Both)
    requires offset <= 60 && abcdVar == BothAbcd(s, q) && efghVar == BothEfgh(s, q)
    ensures abcd == BothAbcd(FourRounds(s, offset, schedule.a), FourRounds(q, offset, schedule.b))
    ensures efgh == BothEfgh(FourRounds(s, offset, schedule.a), FourRounds(q, offset, schedule.b))
  {
    hide FourRounds, AddVec, KVec, BothAbcd, BothEfgh;
    var k := KVec(offset);
    var wk := Both(AddVec(schedule.a, k), AddVec(schedule.b, k));
    abcd, efgh := Round4WkBoth(s, q, offset, schedule, abcdVar, efghVar, wk);
  }

  ghost predicate HoldsBoth(m: Block, n: Block, t: nat, s0: Both, s1: Both, s2: Both, s3: Both)
    requires t >= 16
  {
    s0 == BothAt(m, n, t - 16) && s1 == BothAt(m, n, t - 12) && s2 == BothAt(m, n, t - 8) && s3 == BothAt(m, n, t - 4)
  }

  function Su(v0: Both, v1: Both, v2: Both, v3: Both): Both {
    Both(Sha256Su1(Sha256Su0(v0.a, v1.a), v2.a, v3.a), Sha256Su1(Sha256Su0(v0.b, v1.b), v2.b, v3.b))
  }

  lemma SuIsNextBoth(v0: Both, v1: Both, v2: Both, v3: Both)
    ensures Su(v0, v1, v2, v3) == NextBoth(v0, v1, v2, v3)
  {
    hide Sha256Su0, Sha256Su1, NextVec;
    ScheduleIsNextVec(v0.a, v1.a, v2.a, v3.a);
    ScheduleIsNextVec(v0.b, v1.b, v2.b, v3.b);
  }

  /** BTC_SHA256_ARM_ROUNDS16_PAIR. */
  method Rounds16Both(ghost s: State, ghost q: State, ghost m: Block, ghost n: Block, abcdVar: Both, efghVar: Both,
                      s0: Both, s1: Both, s2: Both, s3: Both, offset: nat)
    returns (abcd: Both, efgh: Both, sched0: Both, sched1: Both, sched2: Both, sched3: Both)
    requires 16 <= offset <= 48 && HoldsBoth(m, n, offset, s0, s1, s2, s3)
    requires abcdVar == BothAbcd(Rounds(s, m, offset), Rounds(q, n, offset))
    requires efghVar == BothEfgh(Rounds(s, m, offset), Rounds(q, n, offset))
    ensures abcd == BothAbcd(Rounds(s, m, offset + 16), Rounds(q, n, offset + 16))
    ensures efgh == BothEfgh(Rounds(s, m, offset + 16), Rounds(q, n, offset + 16))
    ensures HoldsBoth(m, n, offset + 16, sched0, sched1, sched2, sched3)
  {
    hide Rounds, FourRounds, VecAt, NextBoth, Su, BothAbcd, BothEfgh;
    ghost var c := FourRoundChain(s, m, offset);
    ghost var d := FourRoundChain(q, n, offset);
    ghost var v := BothChain(m, n, offset);
    assert s0 == v[0] && s1 == v[1] && s2 == v[2] && s3 == v[3];
    abcd, efgh := abcdVar, efghVar;

    sched0 := Su(s0, s1, s2, s3);
    SuIsNextBoth(s0, s1, s2, s3);
    assert sched0 == v[4];
    abcd, efgh := Round4Both(c[0], d[0], abcd, efgh, sched0, offset);
    sched1 := Su(s1, s2, s3, sched0);
    SuIsNextBoth(s1, s2, s3, sched0);
    assert sched1 == v[5];
    abcd, efgh := Round4Both(c[1], d[1], abcd, efgh, sched1, offset + 4);
    sched2 := Su(s2, s3, sched0, sched1);
    SuIsNextBoth(s2, s3, sched0, sched1);
    assert sched2 == v[6];
    abcd, efgh := Round4Both(c[2], d[2], abcd, efgh, sched2, offset + 8);
    sched3 := Su(s3, sched0, sched1, sched2);
    SuIsNextBoth(s3, sched0, sched1, sched2);
    assert sched3 == v[7];
    abcd, efgh := Round4Both(c[3], d[3], abcd, efgh, sched3, offset + 12);
  }

  /** sha256_arm_compress_btc_tail2: both lanes start from the same state. */
  method CompressTail2(startAbcd: Vec, startEfgh: Vec, aSched0: Vec, bSched0: Vec, ghost s: State)
    returns (outAbcd: Both, outEfgh: Both)
    requires startAbcd == Abcd(s) && startEfgh == Efgh(s)
    ensures var ra, rb := Compress(s, BlockOf(aSched0, PAD_BIT, NO_WORDS, LENGTH_80)),
                          Compress(s, BlockOf(bSched0, PAD_BIT, NO_WORDS, LENGTH_80));
      outAbcd == BothAbcd(ra, rb) && outEfgh == BothEfgh(ra, rb)
  {
    hide Rounds, FourRounds, VecAt, Add, FIRST_TAIL_WK1, FIRST_TAIL_WK2, FIRST_TAIL_WK3, K;
    ghost var m, n := BlockOf(aSched0, PAD_BIT, NO_WORDS, LENGTH_80), BlockOf(bSched0, PAD_BIT, NO_WORDS, LENGTH_80);
    BlockVectors(aSched0, PAD_BIT, NO_WORDS, LENGTH_80);
    BlockVectors(bSched0, PAD_BIT, NO_WORDS, LENGTH_80);
    FoldedTables();
    NoRounds(s, m);
    NoRounds(s, n);
    ghost var c := FourRoundChain(s, m, 0);
    ghost var d := FourRoundChain(s, n, 0);
    var abcd, efgh := Both(startAbcd, startAbcd), Both(startEfgh, startEfgh);
    var sched0, sched1 := Both(aSched0, bSched0), Both(PAD_BIT, PAD_BIT);
    var sched2, sched3 := Both(NO_WORDS, NO_WORDS), Both(LENGTH_80, LENGTH_80);
    abcd, efgh := Round4Both(c[0], d[0], abcd, efgh, sched0, 0);
    abcd, efgh := Round4WkBoth(c[1], d[1], 4, sched1, abcd, efgh, Both(FIRST_TAIL_WK1, FIRST_TAIL_WK1));
    abcd, efgh := Round4WkBoth(c[2], d[2], 8, sched2, abcd, efgh, Both(FIRST_TAIL_WK2, FIRST_TAIL_WK2));
    abcd, efgh := Round4WkBoth(c[3], d[3], 12, sched3, abcd, efgh, Both(FIRST_TAIL_WK3, FIRST_TAIL_WK3));
    abcd, efgh, sched0, sched1, sched2, sched3 := Rounds16Both(s, s, m, n, abcd, efgh, sched0, sched1, sched2, sched3, 16);
    abcd, efgh, sched0, sched1, sched2, sched3 := Rounds16Both(s, s, m, n, abcd, efgh, sched0, sched1, sched2, sched3, 32);
    abcd, efgh, sched0, sched1, sched2, sched3 := Rounds16Both(s, s, m, n, abcd, efgh, sched0, sched1, sched2, sched3, 48);
    outAbcd := Both(AddVec(abcd.a, startAbcd), AddVec(abcd.b, startAbcd));
    outEfgh := Both(AddVec(efgh.a, startEfgh), AddVec(efgh.b, startEfgh));
    AddStatesComm(s, Rounds(s, m, 64));
    AddStatesComm(s, Rounds(s, n, 64));
  }

  /** sha256_arm_compress_second_hash2. */
  method CompressSecond2(first: Both, second: Both) returns (outAbcd: Both, outEfgh: Both)
    ensures var ra, rb := Compress(INITIAL, BlockOf(first.a, second.a, PAD_BIT, LENGTH_32)),
                          Compress(INITIAL, BlockOf(first.b, second.b, PAD_BIT, LENGTH_32));
      outAbcd == BothAbcd(ra, rb) && outEfgh == BothEfgh(ra, rb)
  {
    hide Rounds, FourRounds, VecAt, Add, SECOND_HASH_WK2, SECOND_HASH_WK3, K;
    ghost var m, n := BlockOf(first.a, second.a, PAD_BIT, LENGTH_32), BlockOf(first.b, second.b, PAD_BIT, LENGTH_32);
    BlockVectors(first.a, second.a, PAD_BIT, LENGTH_32);
    BlockVectors(first.b, second.b, PAD_BIT, LENGTH_32);
    FoldedTables();
    NoRounds(INITIAL, m);
    NoRounds(INITIAL, n);
    ghost var c := FourRoundChain(INITIAL, m, 0);
    ghost var d := FourRoundChain(INITIAL, n, 0);
    var initialAbcd, initialEfgh := Abcd(INITIAL), Efgh(INITIAL);
    var abcd, efgh := Both(initialAbcd, initialAbcd), Both(initialEfgh, initialEfgh);
    var sched0, sched1, sched2, sched3 := first, second, Both(PAD_BIT, PAD_BIT), Both(LENGTH_32, LENGTH_32);
    abcd, efgh := Round4Both(c[0], d[0], abcd, efgh, sched0, 0);
    abcd, efgh := Round4Both(c[1], d[1], abcd, efgh, sched1, 4);
    abcd, efgh := Round4WkBoth(c[2], d[2], 8, sched2, abcd, efgh, Both(SECOND_HASH_WK2, SECOND_HASH_WK2));
    abcd, efgh := Round4WkBoth(c[3], d[3], 12, sched3, abcd, efgh, Both(SECOND_HASH_WK3, SECOND_HASH_WK3));
    abcd, efgh, sched0, sched1, sched2, sched3 := Rounds16Both(INITIAL, INITIAL, m, n, abcd, efgh, sched0, sched1, sched2, sched3, 16);
    abcd, efgh, sched0, sched1, sched2, sched3 := Rounds16Both(INITIAL, INITIAL, m, n, abcd, efgh, sched0, sched1, sched2, sched3, 32);
    abcd, efgh, sched0, sched1, sched2, sched3 := Rounds16Both(INITIAL, INITIAL, m, n, abcd, efgh, sched0, sched1, sched2, sched3, 48);
    outAbcd := Both(AddVec(abcd.a, initialAbcd), AddVec(abcd.b, initialAbcd));
    outEfgh := Both(AddVec(efgh.a, initialEfgh), AddVec(efgh.b, initialEfgh));
    AddStatesComm(INITIAL, Rounds(INITIAL, m, 64));
    AddStatesComm(INITIAL, Rounds(INITIAL, n, 64));
  }
}
