/** The SHA-NI backend of src/sha256d_x86_sha_ni.c. The instructions are defined
    as in Intel's Software Developer's Manual, volume 2 (entries PSHUFD, PALIGNR,
    PBLENDW, SHA256RNDS2, SHA256MSG1 and SHA256MSG2). */
module ShaNi {
  import opened Words
  import opened Fips180
  import opened Vectors

  // ---- The instructions ----

  function Lane(v: Vec, i: nat): Word
    requires i < 4
  {
    if i == 0 then v.x0 else if i == 1 then v.x1 else if i == 2 then v.x2 else v.x3
  }

  /** _mm_shuffle_epi32: two bits of imm choose each lane. */
  function Shuffle(v: Vec, imm: Byte): Vec {
    Vec(Lane(v, imm % 4), Lane(v, imm / 4 % 4), Lane(v, imm / 16 % 4), Lane(v, imm / 64))
  }

  /** _mm_alignr_epi8(hi, lo, 4 * lanes). */
  function AlignR(hi: Vec, lo: Vec, lanes: nat): Vec
    requires lanes <= 4
  {
    var all := [lo.x0, lo.x1, lo.x2, lo.x3, hi.x0, hi.x1, hi.x2, hi.x3];
    Vec(all[lanes], all[lanes + 1], all[lanes + 2], all[lanes + 3])
  }

  /** _mm_blend_epi16(x, y, 0xf0): the upper half comes from y. */
  function BlendF0(x: Vec, y: Vec): Vec { Vec(x.x0, x.x1, y.x2, y.x3) }

  /** SHA256RNDS2: two rounds on C,D,G,H (cdgh) and A,B,E,F (abef); the sums W+K
      are the two low lanes of wk. The result is the new A,B,E,F. */
  function Rnds2(cdgh: Vec, abef: Vec, wk: Vec): Vec {
    var r1 := OneRound(abef.x3, abef.x2, cdgh.x3, cdgh.x2, abef.x1, abef.x0, cdgh.x1, cdgh.x0, wk.x0);
    var r2 := OneRound(r1.a, r1.b, r1.c, r1.d, r1.e, r1.f, r1.g, r1.h, wk.x1);
    Vec(r2.f, r2.e, r2.b, r2.a)
  }

  function OneRound(a: Word, b: Word, c: Word, d: Word, e: Word, f: Word, g: Word, h: Word, wk: Word): State {
    var t := Add(Add(Add(Ch(e, f, g), BigSigma1(e)), wk), h);
    State(Add(Add(t, Maj(a, b, c)), BigSigma0(a)), a, b, c, Add(t, d), e, f, g)
  }

  function Msg1(v: Vec, w: Vec): Vec {
    Vec(Add(v.x0, SmallSigma0(v.x1)), Add(v.x1, SmallSigma0(v.x2)), Add(v.x2, SmallSigma0(v.x3)), Add(v.x3, SmallSigma0(w.x0)))
  }

  function Msg2(v: Vec, w: Vec): Vec {
    var w16 := Add(v.x0, SmallSigma1(w.x2));
    var w17 := Add(v.x1, SmallSigma1(w.x3));
    Vec(w16, w17, Add(v.x2, SmallSigma1(w16)), Add(v.x3, SmallSigma1(w17)))
  }

  // ---- What the instructions mean for FIPS 180-4 ----

  function Abef(s: State): Vec { Vec(s.f, s.e, s.b, s.a) }

  function Cdgh(s: State): Vec { Vec(s.h, s.g, s.d, s.c) }

  lemma OneRoundIsRound(s: State, k: Word, w: Word)
    ensures OneRound(s.a, s.b, s.c, s.d, s.e, s.f, s.g, s.h, Add(w, k)) == Round(s, k, w)
  {
    hide Ch, Maj, BigSigma0, BigSigma1, Add;
    var ch, s1, s0, mj := Ch(s.e, s.f, s.g), BigSigma1(s.e), BigSigma0(s.a), Maj(s.a, s.b, s.c);
    var t1 := Add(Add(Add(Add(s.h, s1), ch), k), w);
    assert Add(Add(Add(ch, s1), Add(w, k)), s.h) == t1 by {
      AddComm(ch, s1);
      AddSwap(Add(s1, ch), Add(w, k), s.h);
      AddComm(Add(s1, ch), s.h);
      AddAssoc(s.h, s1, ch);
      AddComm(w, k);
      AddAssoc(Add(Add(s.h, s1), ch), k, w);
    }
    AddSwap(t1, mj, s0);
    AddAssoc(t1, s0, mj);
    AddComm(t1, s.d);
  }

  lemma Rnds2IsTwoRounds(s: State, k0: Word, w0: Word, k1: Word, w1: Word, wk: Vec)
    requires wk.x0 == Add(w0, k0) && wk.x1 == Add(w1, k1)
    ensures var r := Round(Round(s, k0, w0), k1, w1);
      Rnds2(Cdgh(s), Abef(s), wk) == Abef(r) && Abef(s) == Cdgh(r)
  {
    hide OneRound, Add, Ch, Maj, BigSigma0, BigSigma1;
    OneRoundIsRound(s, k0, w0);
    OneRoundIsRound(Round(s, k0, w0), k1, w1);
  }

  /** MSG1 and MSG2 together produce the next schedule vector. */
  lemma MsgIsNextVec(v0: Vec, v1: Vec, v2: Vec, v3: Vec)
    ensures Msg2(AddVec(Msg1(v0, v1), AlignR(v3, v2, 1)), v3) == NextVec(v0, v1, v2, v3)
  {
    hide Add, SmallSigma0, SmallSigma1;
    var n0 := NextWord(v0.x0, v0.x1, v2.x1, v3.x2);
    var n1 := NextWord(v0.x1, v0.x2, v2.x2, v3.x3);
    SumReversed(v0.x0, SmallSigma0(v0.x1), v2.x1, SmallSigma1(v3.x2));
    SumReversed(v0.x1, SmallSigma0(v0.x2), v2.x2, SmallSigma1(v3.x3));
    SumReversed(v0.x2, SmallSigma0(v0.x3), v2.x3, SmallSigma1(n0));
    SumReversed(v0.x3, SmallSigma0(v1.x0), v3.x0, SmallSigma1(n1));
  }

  // ---- The compressor ----

  /** sha256_x86_load_state_vec. */
  method LoadState(s: State) returns (state0: Vec, state1: Vec)
    ensures state0 == Abef(s) && state1 == Cdgh(s)
  {
    var tmp := Vec(s.a, s.b, s.c, s.d);
    state1 := Vec(s.e, s.f, s.g, s.h);
    tmp := Shuffle(tmp, 0xb1);
    state1 := Shuffle(state1, 0x1b);
    state0 := AlignR(tmp, state1, 2);
    state1 := BlendF0(state1, tmp);
  }

  /** sha256_x86_store_state_vec: undoes LoadState. */
  method StoreState(state0: Vec, state1: Vec) returns (s: State)
    ensures state0 == Abef(s) && state1 == Cdgh(s)
  {
    var tmp := Shuffle(state0, 0x1b);
    var st1 := Shuffle(state1, 0xb1);
    var st0 := BlendF0(tmp, st1);
    st1 := AlignR(st1, tmp, 2);
    s := State(st0.x0, st0.x1, st0.x2, st0.x3, st1.x0, st1.x1, st1.x2, st1.x3);
  }

  /** BTC_SHA256_X86_ROUND4_MSG. */
  method Round4(ghost s: State, state0: Vec, state1: Vec, msgVar: Vec, offset: nat) returns (new0: Vec, new1: Vec)
    requires offset <= 60 && state0 == Abef(s) && state1 == Cdgh(s)
    ensures new0 == Abef(FourRounds(s, offset, msgVar)) && new1 == Cdgh(FourRounds(s, offset, msgVar))
  {
    hide FourRounds, Abef, Cdgh, Rnds2, AddVec, Shuffle, K;
    var msg := AddVec(msgVar, KVec(offset));
    new1 := Rnds2(state1, state0, msg);
    msg := Shuffle(msg, 0x0e);
    new0 := Rnds2(state0, new1, msg);
    Round4IsFourRounds(s, state0, state1, msgVar, offset);
  }

  lemma Round4IsFourRounds(s: State, state0: Vec, state1: Vec, msgVar: Vec, offset: nat)
    requires offset <= 60 && state0 == Abef(s) && state1 == Cdgh(s)
    ensures var msg := AddVec(msgVar, KVec(offset));
      var new1 := Rnds2(state1, state0, msg);
      && new1 == Cdgh(FourRounds(s, offset, msgVar))
      && Rnds2(state0, new1, Shuffle(msg, 0x0e)) == Abef(FourRounds(s, offset, msgVar))
  {
    hide Round, Rnds2, Add, K;
    var msg := AddVec(msgVar, KVec(offset));
    var mid := Round(Round(s, K(offset), msgVar.x0), K(offset + 1), msgVar.x1);
    Rnds2IsTwoRounds(s, K(offset), msgVar.x0, K(offset + 1), msgVar.x1, msg);
    Rnds2IsTwoRounds(mid, K(offset + 2), msgVar.x2, K(offset + 3), msgVar.x3, Shuffle(msg, 0x0e));
  }

  /** BTC_SHA256_X86_MSG2. */
  method ScheduleStep(ghost v0: Vec, ghost v1: Vec, dst: Vec, prev: Vec, last: Vec) returns (r: Vec)
    requires dst == Msg1(v0, v1)
    ensures r == NextVec(v0, v1, prev, last)
  {
    MsgIsNextVec(v0, v1, prev, last);
    var tmp := AlignR(last, prev, 1);
    r := AddVec(dst, tmp);
    r := Msg2(r, last);
  }

  /** Rounds 0 .. 15, with the schedule pipeline filling behind them. */
  method FirstRounds(s: State, state0: Vec, state1: Vec, m0: Vec, m1: Vec, m2: Vec, m3: Vec, ghost m: Block, t: nat)
    returns (new0: Vec, new1: Vec, msg0: Vec, msg1: Vec, msg2: Vec, msg3: Vec)
    requires t == 0 && state0 == Abef(s) && state1 == Cdgh(s)
    requires m0 == VecAt(m, t) && m1 == VecAt(m, t + 4) && m2 == VecAt(m, t + 8) && m3 == VecAt(m, t + 12)
    ensures new0 == Abef(Rounds(s, m, t + 16)) && new1 == Cdgh(Rounds(s, m, t + 16))
    ensures Pipeline(m, t + 16, msg0, msg1, msg2, msg3)
  {
    hide Rounds, FourRounds, VecAt, NextVec, Msg1, Msg2, Abef, Cdgh, K;
    NoRounds(s, m);
    ghost var chain := FourRoundChain(s, m, t);
    ghost var v := VecChain(m, t + 16);
    new0, new1, msg0, msg1, msg2, msg3 := state0, state1, m0, m1, m2, m3;
    assert msg0 == v[0] && msg1 == v[1] && msg2 == v[2] && msg3 == v[3];

    new0, new1 := Round4(chain[0], new0, new1, msg0, t);
    new0, new1 := Round4(chain[1], new0, new1, msg1, t + 4);
    msg0 := Msg1(msg0, msg1);
    new0, new1 := Round4(chain[2], new0, new1, msg2, t + 8);
    msg1 := Msg1(msg1, msg2);
    new0, new1 := Round4(chain[3], new0, new1, msg3, t + 12);
    msg0 := ScheduleStep(v[0], v[1], msg0, msg2, msg3);
    msg2 := Msg1(msg2, msg3);
    assert msg0 == v[4] && msg1 == Msg1(v[1], v[2]) && msg2 == Msg1(v[2], v[3]) && msg3 == v[3];
  }

  /** Where the schedule pipeline stands before round t: one vector is ready, two
      wait for MSG2, and the last one still holds the vector before. */
  ghost predicate Pipeline(m: Block, t: nat, msg0: Vec, msg1: Vec, msg2: Vec, msg3: Vec)
    requires t >= 16
  {
    && msg0 == VecAt(m, t)
    && msg1 == Msg1(VecAt(m, t - 12), VecAt(m, t - 8))
    && msg2 == Msg1(VecAt(m, t - 8), VecAt(m, t - 4))
    && msg3 == VecAt(m, t - 4)
  }

  /** Rounds t .. t+15; the source repeats this text for t = 16 and 32. */
  method MiddleRounds(ghost s: State, state0: Vec, state1: Vec, m0: Vec, m1: Vec, m2: Vec, m3: Vec, ghost m: Block, t: nat)
    returns (new0: Vec, new1: Vec, msg0: Vec, msg1: Vec, msg2: Vec, msg3: Vec)
    requires 16 <= t <= 32 && Pipeline(m, t, m0, m1, m2, m3)
    requires state0 == Abef(Rounds(s, m, t)) && state1 == Cdgh(Rounds(s, m, t))
    ensures new0 == Abef(Rounds(s, m, t + 16)) && new1 == Cdgh(Rounds(s, m, t + 16))
    ensures Pipeline(m, t + 16, msg0, msg1, msg2, msg3)
  {
    hide Rounds, FourRounds, VecAt, NextVec, Msg1, Msg2, Abef, Cdgh, K;
    ghost var chain := FourRoundChain(s, m, t);
    ghost var v := VecChain(m, t);
    new0, new1, msg0, msg1, msg2, msg3 := state0, state1, m0, m1, m2, m3;
    assert msg0 == v[4] && msg1 == Msg1(v[1], v[2]) && msg2 == Msg1(v[2], v[3]) && msg3 == v[3];

    new0, new1 := Round4(chain[0], new0, new1, msg0, t);
    msg1 := ScheduleStep(v[1], v[2], msg1, msg3, msg0);
    assert msg1 == v[5];
    msg3 := Msg1(msg3, msg0);
    new0, new1 := Round4(chain[1], new0, new1, msg1, t + 4);
    msg2 := ScheduleStep(v[2], v[3], msg2, msg0, msg1);
    assert msg2 == v[6];
    msg0 := Msg1(msg0, msg1);
    new0, new1 := Round4(chain[2], new0, new1, msg2, t + 8);
    msg3 := ScheduleStep(v[3], v[4], msg3, msg1, msg2);
    assert msg3 == v[7];
    msg1 := Msg1(msg1, msg2);
    new0, new1 := Round4(chain[3], new0, new1, msg3, t + 12);
    msg0 := ScheduleStep(v[4], v[5], msg0, msg2, msg3);
    msg2 := Msg1(msg2, msg3);
    assert msg0 == v[8] && msg1 == Msg1(v[5], v[6]) && msg2 == Msg1(v[6], v[7]) && msg3 == v[7];
  }

  /** Rounds 48 .. 63, where the pipeline drains. */
  method LastRounds(ghost s: State, state0: Vec, state1: Vec, m0: Vec, m1: Vec, m2: Vec, m3: Vec, ghost m: Block, t: nat)
    returns (new0: Vec, new1: Vec)
    requires t == 48 && Pipeline(m, t, m0, m1, m2, m3)
    requires state0 == Abef(Rounds(s, m, t)) && state1 == Cdgh(Rounds(s, m, t))
    ensures new0 == Abef(Rounds(s, m, t + 16)) && new1 == Cdgh(Rounds(s, m, t + 16))
  {
    hide Rounds, FourRounds, VecAt, NextVec, Msg1, Msg2, Abef, Cdgh, K;
    ghost var chain := FourRoundChain(s, m, t);
    ghost var v := VecChain(m, t);
    var msg0, msg1, msg2, msg3 := m0, m1, m2, m3;
    new0, new1 := state0, state1;
    assert msg0 == v[4] && msg1 == Msg1(v[1], v[2]) && msg2 == Msg1(v[2], v[3]) && msg3 == v[3];

    new0, new1 := Round4(chain[0], new0, new1, msg0, t);
    msg1 := ScheduleStep(v[1], v[2], msg1, msg3, msg0);
    assert msg1 == v[5];
    msg3 := Msg1(msg3, msg0);
    new0, new1 := Round4(chain[1], new0, new1, msg1, t + 4);
    msg2 := ScheduleStep(v[2], v[3], msg2, msg0, msg1);
    assert msg2 == v[6];
    new0, new1 := Round4(chain[2], new0, new1, msg2, t + 8);
    msg3 := ScheduleStep(v[3], v[4], msg3, msg1, msg2);
    assert msg3 == v[7];
    new0, new1 := Round4(chain[3], new0, new1, msg3, t + 12);
  }

  /** The message vectors of a block. */
  lemma BlockVectors(m: Block)
    ensures VecAt(m, 0) == Vec(m[0], m[1], m[2], m[3]) && VecAt(m, 4) == Vec(m[4], m[5], m[6], m[7])
    ensures VecAt(m, 8) == Vec(m[8], m[9], m[10], m[11]) && VecAt(m, 12) == Vec(m[12], m[13], m[14], m[15])
  {
  }

  /** sha256_x86_compress_vec. */
  method CompressVec(state: State, msg0: Vec, msg1: Vec, msg2: Vec, msg3: Vec) returns (r: State)
    ensures r == Compress(state, BlockOf(msg0, msg1, msg2, msg3))
  {
    hide Rounds, VecAt, Pipeline, Add;
    ghost var m := BlockOf(msg0, msg1, msg2, msg3);
    BlockVectors(m);
    var state0, state1 := LoadState(state);
    var abefSave, cdghSave := state0, state1;
    var v0, v1, v2, v3;
    state0, state1, v0, v1, v2, v3 := FirstRounds(state, state0, state1, msg0, msg1, msg2, msg3, m, 0);
    state0, state1, v0, v1, v2, v3 := MiddleRounds(state, state0, state1, v0, v1, v2, v3, m, 16);
    state0, state1, v0, v1, v2, v3 := MiddleRounds(state, state0, state1, v0, v1, v2, v3, m, 32);
    state0, state1 := LastRounds(state, state0, state1, v0, v1, v2, v3, m, 48);
    state0 := AddVec(state0, abefSave);
    state1 := AddVec(state1, cdghSave);
    r := StoreState(state0, state1);
    AddStatesComm(state, Rounds(state, m, 64));
  }

  // ---- Two lanes ----

  function BothAbef(s: State, q: State): Both { Both(Abef(s), Abef(q)) }

  function BothCdgh(s: State, q: State): Both { Both(Cdgh(s), Cdgh(q)) }

  function Msg1Both(v: Both, w: Both): Both { Both(Msg1(v.a, w.a), Msg1(v.b, w.b)) }

  /** BTC_SHA256_X86_ROUND4_MSG2: the instructions of the two lanes alternate. */
  method Round4Both(ghost s: State, ghost q: State, state0: Both, state1: Both, msgVar: Both, offset: nat)
    returns (new0: Both, new1: Both)
    requires offset <= 60 && state0 == BothAbef(s, q) && state1 == BothCdgh(s, q)
    ensures new0 == BothAbef(FourRounds(s, offset, msgVar.a), FourRounds(q, offset, msgVar.b))
    ensures new1 == BothCdgh(FourRounds(s, offset, msgVar.a), FourRounds(q, offset, msgVar.b))
  {
    hide FourRounds, Abef, Cdgh, Round, Rnds2, Add, K, AddVec, Shuffle;
    var k := KVec(offset);
    var aMsg, bMsg := AddVec(msgVar.a, k), AddVec(msgVar.b, k);
    var aState1 := Rnds2(state1.a, state0.a, aMsg);
    var bState1 := Rnds2(state1.b, state0.b, bMsg);
    aMsg := Shuffle(aMsg, 0x0e);
    bMsg := Shuffle(bMsg, 0x0e);
    var aState0 := Rnds2(state0.a, aState1, aMsg);
    var bState0 := Rnds2(state0.b, bState1, bMsg);
    Round4IsFourRounds(s, state0.a, state1.a, msgVar.a, offset);
    Round4IsFourRounds(q, state0.b, state1.b, msgVar.b, offset);
    new0, new1 := Both(aState0, bState0), Both(aState1, bState1);
  }

  /** BTC_SHA256_X86_MSG2_PAIR. */
  method ScheduleBoth(ghost v0: Both, ghost v1: Both, dst: Both, prev: Both, last: Both) returns (r: Both)
    requires dst == Msg1Both(v0, v1)
    ensures r == NextBoth(v0, v1, prev, last)
  {
    hide NextVec, Msg1, Msg2, AddVec, AlignR;
    var aTmp, bTmp := AlignR(last.a, prev.a, 1), AlignR(last.b, prev.b, 1);
    var aDst, bDst := AddVec(dst.a, aTmp), AddVec(dst.b, bTmp);
    r := Both(Msg2(aDst, last.a), Msg2(bDst, last.b));
    MsgIsNextVec(v0.a, v1.a, prev.a, last.a);
    MsgIsNextVec(v0.b, v1.b, prev.b, last.b);
  }

  ghost predicate PipelineBoth(m: Block, n: Block, t: nat, msg0: Both, msg1: Both, msg2: Both, msg3: Both)
    requires t >= 16
  {
    && msg0 == BothAt(m, n, t)
    && msg1 == Msg1Both(BothAt(m, n, t - 12), BothAt(m, n, t - 8))
    && msg2 == Msg1Both(BothAt(m, n, t - 8), BothAt(m, n, t - 4))
    && msg3 == BothAt(m, n, t - 4)
  }

  method FirstRoundsBoth(s: State, q: State, state0: Both, state1: Both, m0: Both, m1: Both, m2: Both, m3: Both,
                         ghost m: Block, ghost n: Block, t: nat)
    returns (new0: Both, new1: Both, msg0: Both, msg1: Both, msg2: Both, msg3: Both)
    requires t == 0 && state0 == BothAbef(s, q) && state1 == BothCdgh(s, q)
    requires m0 == BothAt(m, n, t) && m1 == BothAt(m, n, t + 4) && m2 == BothAt(m, n, t + 8) && m3 == BothAt(m, n, t + 12)
    ensures new0 == BothAbef(Rounds(s, m, t + 16), Rounds(q, n, t + 16))
    ensures new1 == BothCdgh(Rounds(s, m, t + 16), Rounds(q, n, t + 16))
    ensures PipelineBoth(m, n, t + 16, msg0, msg1, msg2, msg3)
  {
    hide Rounds, FourRounds, VecAt, NextBoth, Msg1Both, BothAbef, BothCdgh, K;
    NoRounds(s, m);
    NoRounds(q, n);
    ghost var c := FourRoundChain(s, m, t);
    ghost var d := FourRoundChain(q, n, t);
    ghost var v := BothChain(m, n, t + 16);
    new0, new1, msg0, msg1, msg2, msg3 := state0, state1, m0, m1, m2, m3;
    assert msg0 == v[0] && msg1 == v[1] && msg2 == v[2] && msg3 == v[3];

    new0, new1 := Round4Both(c[0], d[0], new0, new1, msg0, t);
    new0, new1 := Round4Both(c[1], d[1], new0, new1, msg1, t + 4);
    msg0 := Msg1Both(msg0, msg1);
    new0, new1 := Round4Both(c[2], d[2], new0, new1, msg2, t + 8);
    msg1 := Msg1Both(msg1, msg2);
    new0, new1 := Round4Both(c[3], d[3], new0, new1, msg3, t + 12);
    msg0 := ScheduleBoth(v[0], v[1], msg0, msg2, msg3);
    msg2 := Msg1Both(msg2, msg3);
    assert msg0 == v[4] && msg1 == Msg1Both(v[1], v[2]) && msg2 == Msg1Both(v[2], v[3]) && msg3 == v[3];
  }

  method MiddleRoundsBoth(ghost s: State, ghost q: State, state0: Both, state1: Both, m0: Both, m1: Both, m2: Both, m3: Both,
                          ghost m: Block, ghost n: Block, t: nat)
    returns (new0: Both, new1: Both, msg0: Both, msg1: Both, msg2: Both, msg3: Both)
    requires 16 <= t <= 32 && PipelineBoth(m, n, t, m0, m1, m2, m3)
    requires state0 == BothAbef(Rounds(s, m, t), Rounds(q, n, t)) && state1 == BothCdgh(Rounds(s, m, t), Rounds(q, n, t))
    ensures new0 == BothAbef(Rounds(s, m, t + 16), Rounds(q, n, t + 16))
    ensures new1 == BothCdgh(Rounds(s, m, t + 16), Rounds(q, n, t + 16))
    ensures PipelineBoth(m, n, t + 16, msg0, msg1, msg2, msg3)
  {
    hide Rounds, FourRounds, VecAt, NextBoth, Msg1Both, BothAbef, BothCdgh, K;
    ghost var c := FourRoundChain(s, m, t);
    ghost var d := FourRoundChain(q, n, t);
    ghost var v := BothChain(m, n, t);
    new0, new1, msg0, msg1, msg2, msg3 := state0, state1, m0, m1, m2, m3;
    assert msg0 == v[4] && msg1 == Msg1Both(v[1], v[2]) && msg2 == Msg1Both(v[2], v[3]) && msg3 == v[3];

    new0, new1 := Round4Both(c[0], d[0], new0, new1, msg0, t);
    msg1 := ScheduleBoth(v[1], v[2], msg1, msg3, msg0);
    assert msg1 == v[5];
    msg3 := Msg1Both(msg3, msg0);
    new0, new1 := Round4Both(c[1], d[1], new0, new1, msg1, t + 4);
    msg2 := ScheduleBoth(v[2], v[3], msg2, msg0, msg1);
    assert msg2 == v[6];
    msg0 := Msg1Both(msg0, msg1);
    new0, new1 := Round4Both(c[2], d[2], new0, new1, msg2, t + 8);
    msg3 := ScheduleBoth(v[3], v[4], msg3, msg1, msg2);
    assert msg3 == v[7];
    msg1 := Msg1Both(msg1, msg2);
    new0, new1 := Round4Both(c[3], d[3], new0, new1, msg3, t + 12);
    msg0 := ScheduleBoth(v[4], v[5], msg0, msg2, msg3);
    msg2 := Msg1Both(msg2, msg3);
    assert msg0 == v[8] && msg1 == Msg1Both(v[5], v[6]) && msg2 == Msg1Both(v[6], v[7]) && msg3 == v[7];
  }

  method LastRoundsBoth(ghost s: State, ghost q: State, state0: Both, state1: Both, m0: Both, m1: Both, m2: Both, m3: Both,
                        ghost m: Block, ghost n: Block, t: nat)
    returns (new0: Both, new1: Both)
    requires t == 48 && PipelineBoth(m, n, t, m0, m1, m2, m3)
    requires state0 == BothAbef(Rounds(s, m, t), Rounds(q, n, t)) && state1 == BothCdgh(Rounds(s, m, t), Rounds(q, n, t))
    ensures new0 == BothAbef(Rounds(s, m, t + 16), Rounds(q, n, t + 16))
    ensures new1 == BothCdgh(Rounds(s, m, t + 16), Rounds(q, n, t + 16))
  {
    hide Rounds, FourRounds, VecAt, NextBoth, Msg1Both, BothAbef, BothCdgh, K;
    ghost var c := FourRoundChain(s, m, t);
    ghost var d := FourRoundChain(q, n, t);
    ghost var v := BothChain(m, n, t);
    var msg0, msg1, msg2, msg3 := m0, m1, m2, m3;
    new0, new1 := state0, state1;
    assert msg0 == v[4] && msg1 == Msg1Both(v[1], v[2]) && msg2 == Msg1Both(v[2], v[3]) && msg3 == v[3];

    new0, new1 := Round4Both(c[0], d[0], new0, new1, msg0, t);
    msg1 := ScheduleBoth(v[1], v[2], msg1, msg3, msg0);
    assert msg1 == v[5];
    msg3 := Msg1Both(msg3, msg0);
    new0, new1 := Round4Both(c[1], d[1], new0, new1, msg1, t + 4);
    msg2 := ScheduleBoth(v[2], v[3], msg2, msg0, msg1);
    assert msg2 == v[6];
    new0, new1 := Round4Both(c[2], d[2], new0, new1, msg2, t + 8);
    msg3 := ScheduleBoth(v[3], v[4], msg3, msg1, msg2);
    assert msg3 == v[7];
    new0, new1 := Round4Both(c[3], d[3], new0, new1, msg3, t + 12);
  }

  /** sha256_x86_compress_vec2. */
  method CompressVec2(stateA: State, stateB: State, msg0: Both, msg1: Both, msg2: Both, msg3: Both)
    returns (ra: State, rb: State)
    ensures ra == Compress(stateA, BlockOf(msg0.a, msg1.a, msg2.a, msg3.a))
    ensures rb == Compress(stateB, BlockOf(msg0.b, msg1.b, msg2.b, msg3.b))
  {
    hide Rounds, VecAt, PipelineBoth, Add;
    ghost var m, n := BlockOf(msg0.a, msg1.a, msg2.a, msg3.a), BlockOf(msg0.b, msg1.b, msg2.b, msg3.b);
    BlockVectors(m);
    BlockVectors(n);
    var a0, a1 := LoadState(stateA);
    var b0, b1 := LoadState(stateB);
    var state0, state1 := Both(a0, b0), Both(a1, b1);
    var v0, v1, v2, v3;
    state0, state1, v0, v1, v2, v3 := FirstRoundsBoth(stateA, stateB, state0, state1, msg0, msg1, msg2, msg3, m, n, 0);
    state0, state1, v0, v1, v2, v3 := MiddleRoundsBoth(stateA, stateB, state0, state1, v0, v1, v2, v3, m, n, 16);
    state0, state1, v0, v1, v2, v3 := MiddleRoundsBoth(stateA, stateB, state0, state1, v0, v1, v2, v3, m, n, 32);
    state0, state1 := LastRoundsBoth(stateA, stateB, state0, state1, v0, v1, v2, v3, m, n, 48);
    ra := StoreState(AddVec(state0.a, a0), AddVec(state1.a, a1));
    rb := StoreState(AddVec(state0.b, b0), AddVec(state1.b, b1));
    AddStatesComm(stateA, Rounds(stateA, m, 64));
    AddStatesComm(stateB, Rounds(stateB, n, 64));
  }
}
