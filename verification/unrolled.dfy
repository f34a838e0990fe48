/** The fully unrolled compressors of src/cuda_sha256d_kernel.cu and
    src/opencl_miner.c: registers change roles instead of moving, and a window of
    sixteen words is overwritten in place. */
module Unrolled {
  import opened Words
  import opened Fips180

  /** The PTX instruction lop3.b32: bit j of the result is the bit of lut whose
      index is made of bit j of x, y and z, x being the most significant. */
  function Lop3(x: Word, y: Word, z: Word, lut: bv8): Word {
    FromBits(Lop3Bits(x as bv32, y as bv32, z as bv32, lut))
  }

  function Lop3Bits(x: bv32, y: bv32, z: bv32, lut: bv8): bv32 {
    Minterm(lut & 0x01 != 0, !x, !y, !z) | Minterm(lut & 0x02 != 0, !x, !y, z) |
    Minterm(lut & 0x04 != 0, !x, y, !z) | Minterm(lut & 0x08 != 0, !x, y, z) |
    Minterm(lut & 0x10 != 0, x, !y, !z) | Minterm(lut & 0x20 != 0, x, !y, z) |
    Minterm(lut & 0x40 != 0, x, y, !z) | Minterm(lut & 0x80 != 0, x, y, z)
  }

  function Minterm(on: bool, x: bv32, y: bv32, z: bv32): bv32 {
    if on then x & y & z else 0
  }

  /** CH and MAJ as the kernel defines them, with or without the lop3 redefinition. */
  function ChMacro(lop3: bool, x: Word, y: Word, z: Word): Word {
    if lop3 then Lop3(x, y, z, 0xca) else Ch(x, y, z)
  }

  function MajMacro(lop3: bool, x: Word, y: Word, z: Word): Word {
    if lop3 then Lop3(x, y, z, 0xe8) else Maj(x, y, z)
  }

  lemma Lop3BitTables(x: bv32, y: bv32, z: bv32)
    ensures Lop3Bits(x, y, z, 0xca) == ChBits(x, y, z)
    ensures Lop3Bits(x, y, z, 0xe8) == MajBits(x, y, z)
  {
    hide Lop3Bits, ChBits, MajBits;
    TableCa(x, y, z);
    ChMinterms(x, y, z);
    TableE8(x, y, z);
    MajMinterms(x, y, z);
  }

  lemma TableCa(x: bv32, y: bv32, z: bv32)
    ensures Lop3Bits(x, y, z, 0xca) == (!x & !y & z) | (!x & y & z) | (x & y & !z) | (x & y & z)
  {
  }

  lemma TableE8(x: bv32, y: bv32, z: bv32)
    ensures Lop3Bits(x, y, z, 0xe8) == (!x & y & z) | (x & !y & z) | (x & y & !z) | (x & y & z)
  {
  }

  lemma ChMinterms(x: bv32, y: bv32, z: bv32)
    ensures (!x & !y & z) | (!x & y & z) | (x & y & !z) | (x & y & z) == ChBits(x, y, z)
  {
  }

  lemma MajMinterms(x: bv32, y: bv32, z: bv32)
    ensures (!x & y & z) | (x & !y & z) | (x & y & !z) | (x & y & z) == MajBits(x, y, z)
  {
  }

  /** Truth tables 0xca and 0xe8 are Ch and Maj, so both forms of the macros agree. */
  lemma Lop3Tables(lop3: bool, x: Word, y: Word, z: Word)
    ensures ChMacro(lop3, x, y, z) == Ch(x, y, z)
    ensures MajMacro(lop3, x, y, z) == Maj(x, y, z)
  {
    hide Lop3Bits, ChBits, MajBits, FromBits;
    Lop3BitTables(x as bv32, y as bv32, z as bv32);
  }

  /** ROUND: only the registers in roles d and h are written; after it the roles
      have rotated by one. */
  method RoundMacro(lop3: bool, a: Word, b: Word, c: Word, d: Word, e: Word, f: Word, g: Word, h: Word, w: Word, k: Word)
    returns (newD: Word, newH: Word)
    ensures State(newH, a, b, c, newD, e, f, g) == Round(State(a, b, c, d, e, f, g, h), k, w)
  {
    hide BigSigma0, BigSigma1, Ch, Maj, Add, ChMacro, MajMacro;
    Lop3Tables(lop3, e, f, g);
    Lop3Tables(lop3, a, b, c);
    var t1 := Add(Add(Add(Add(h, BigSigma1(e)), ChMacro(lop3, e, f, g)), k), w);
    var t2 := Add(BigSigma0(a), MajMacro(lop3, a, b, c));
    newD := Add(d, t1);
    newH := Add(t1, t2);
  }

  /** MSG: (w0) += SS0(w1) + (w9) + SS1(w14). */
  method MsgMacro(w0: Word, w1: Word, w9: Word, w14: Word) returns (r: Word)
    ensures r == NextWord(w0, w1, w9, w14)
  {
    hide SmallSigma0, SmallSigma1, Add;
    var s0, s1 := SmallSigma0(w1), SmallSigma1(w14);
    r := Add(w0, Add(Add(s0, w9), s1));
    AddAssoc(w0, Add(s0, w9), s1);
    AddAssoc(w0, s0, w9);
    SumReversed(w0, s0, w9, s1);
  }

  /** The first sixteen lines of the macro: no MSG yet. */
  method FirstSixteen(lop3: bool, t: nat, v: State, w: Block) returns (r: State)
    requires t == 0
    ensures r == Rounds(v, w, t + 16)
  {
    hide Schedule, Rounds, Round, K, ScheduleWindow;
    NoRounds(v, w);
    FirstWindow(w);
    ghost var chain := RoundChain(v, w, t);
    var a, b, c, d := v.a, v.b, v.c, v.d;
    var e, f, g, h := v.e, v.f, v.g, v.h;
    var w0, w1, w2, w3 := w[0], w[1], w[2], w[3];
    var w4, w5, w6, w7 := w[4], w[5], w[6], w[7];
    var w8, w9, w10, w11 := w[8], w[9], w[10], w[11];
    var w12, w13, w14, w15 := w[12], w[13], w[14], w[15];
    d, h := RoundMacro(lop3, a, b, c, d, e, f, g, h, w0, K(t));
    c, g := RoundMacro(lop3, h, a, b, c, d, e, f, g, w1, K(t + 1));
    b, f := RoundMacro(lop3, g, h, a, b, c, d, e, f, w2, K(t + 2));
    a, e := RoundMacro(lop3, f, g, h, a, b, c, d, e, w3, K(t + 3));
    h, d := RoundMacro(lop3, e, f, g, h, a, b, c, d, w4, K(t + 4));
    g, c := RoundMacro(lop3, d, e, f, g, h, a, b, c, w5, K(t + 5));
    f, b := RoundMacro(lop3, c, d, e, f, g, h, a, b, w6, K(t + 6));
    e, a := RoundMacro(lop3, b, c, d, e, f, g, h, a, w7, K(t + 7));
    d, h := RoundMacro(lop3, a, b, c, d, e, f, g, h, w8, K(t + 8));
    c, g := RoundMacro(lop3, h, a, b, c, d, e, f, g, w9, K(t + 9));
    b, f := RoundMacro(lop3, g, h, a, b, c, d, e, f, w10, K(t + 10));
    a, e := RoundMacro(lop3, f, g, h, a, b, c, d, e, w11, K(t + 11));
    h, d := RoundMacro(lop3, e, f, g, h, a, b, c, d, w12, K(t + 12));
    g, c := RoundMacro(lop3, d, e, f, g, h, a, b, c, w13, K(t + 13));
    f, b := RoundMacro(lop3, c, d, e, f, g, h, a, b, w14, K(t + 14));
    e, a := RoundMacro(lop3, b, c, d, e, f, g, h, a, w15, K(t + 15));
    r := State(a, b, c, d, e, f, g, h);
    assert r == chain[16];
  }

  lemma SecondHalf(words: seq<Word>, w0: Word, w1: Word, w2: Word, w3: Word, w4: Word, w5: Word, w6: Word, w7: Word,
                   w8: Word, w9: Word, w10: Word, w11: Word, w12: Word, w13: Word, w14: Word, w15: Word)
    requires |words| == 32
    requires w0 == words[16] && w1 == words[17] && w2 == words[18] && w3 == words[19] && w4 == words[20] && w5 == words[21] && w6 == words[22] && w7 == words[23]
    requires w8 == words[24] && w9 == words[25] && w10 == words[26] && w11 == words[27] && w12 == words[28] && w13 == words[29] && w14 == words[30] && w15 == words[31]
    ensures [w0, w1, w2, w3, w4, w5, w6, w7, w8, w9, w10, w11, w12, w13, w14, w15] == words[16..]
  {
  }

  /** Sixteen lines with MSG; the source repeats this text for t = 16, 32, 48. */
  method MixedSixteen(lop3: bool, ghost start: State, ghost m: Block, t: nat, v: State, w: Block)
    returns (r: State, w': Block)
    requires 16 <= t <= 48 && v == Rounds(start, m, t) && w == ScheduleWindow(m, t - 16)
    ensures r == Rounds(start, m, t + 16) && w' == ScheduleWindow(m, t)
  {
    hide Schedule, Rounds, Round, K, NextWord, ScheduleWindow;
    ghost var chain := RoundChain(start, m, t);
    ghost var words := WordChain(m, t);
    var a, b, c, d := v.a, v.b, v.c, v.d;
    var e, f, g, h := v.e, v.f, v.g, v.h;
    var w0, w1, w2, w3 := w[0], w[1], w[2], w[3];
    var w4, w5, w6, w7 := w[4], w[5], w[6], w[7];
    var w8, w9, w10, w11 := w[8], w[9], w[10], w[11];
    var w12, w13, w14, w15 := w[12], w[13], w[14], w[15];
    w0 := MsgMacro(w0, w1, w9, w14);
    d, h := RoundMacro(lop3, a, b, c, d, e, f, g, h, w0, K(t));
    w1 := MsgMacro(w1, w2, w10, w15);
    c, g := RoundMacro(lop3, h, a, b, c, d, e, f, g, w1, K(t + 1));
    w2 := MsgMacro(w2, w3, w11, w0);
    b, f := RoundMacro(lop3, g, h, a, b, c, d, e, f, w2, K(t + 2));
    w3 := MsgMacro(w3, w4, w12, w1);
    a, e := RoundMacro(lop3, f, g, h, a, b, c, d, e, w3, K(t + 3));
    w4 := MsgMacro(w4, w5, w13, w2);
    h, d := RoundMacro(lop3, e, f, g, h, a, b, c, d, w4, K(t + 4));
    w5 := MsgMacro(w5, w6, w14, w3);
    g, c := RoundMacro(lop3, d, e, f, g, h, a, b, c, w5, K(t + 5));
    w6 := MsgMacro(w6, w7, w15, w4);
    f, b := RoundMacro(lop3, c, d, e, f, g, h, a, b, w6, K(t + 6));
    w7 := MsgMacro(w7, w8, w0, w5);
    e, a := RoundMacro(lop3, b, c, d, e, f, g, h, a, w7, K(t + 7));
    w8 := MsgMacro(w8, w9, w1, w6);
    d, h := RoundMacro(lop3, a, b, c, d, e, f, g, h, w8, K(t + 8));
    w9 := MsgMacro(w9, w10, w2, w7);
    c, g := RoundMacro(lop3, h, a, b, c, d, e, f, g, w9, K(t + 9));
    w10 := MsgMacro(w10, w11, w3, w8);
    b, f := RoundMacro(lop3, g, h, a, b, c, d, e, f, w10, K(t + 10));
    w11 := MsgMacro(w11, w12, w4, w9);
    a, e := RoundMacro(lop3, f, g, h, a, b, c, d, e, w11, K(t + 11));
    w12 := MsgMacro(w12, w13, w5, w10);
    h, d := RoundMacro(lop3, e, f, g, h, a, b, c, d, w12, K(t + 12));
    w13 := MsgMacro(w13, w14, w6, w11);
    g, c := RoundMacro(lop3, d, e, f, g, h, a, b, c, w13, K(t + 13));
    w14 := MsgMacro(w14, w15, w7, w12);
    f, b := RoundMacro(lop3, c, d, e, f, g, h, a, b, w14, K(t + 14));
    w15 := MsgMacro(w15, w0, w8, w13);
    e, a := RoundMacro(lop3, b, c, d, e, f, g, h, a, w15, K(t + 15));
    r := State(a, b, c, d, e, f, g, h);
    w' := [w0, w1, w2, w3, w4, w5, w6, w7, w8, w9, w10, w11, w12, w13, w14, w15];
    assert r == chain[16];
    SecondHalf(words, w0, w1, w2, w3, w4, w5, w6, w7, w8, w9, w10, w11, w12, w13, w14, w15);
  }

  /** SHA256_COMPRESS. */
  method CompressUnrolled(lop3: bool, s: State, w: Block) returns (r: State)
    ensures r == Compress(s, w)
  {
    hide Schedule, Rounds, Round, K, Add, ScheduleWindow;
    FirstWindow(w);
    var v := FirstSixteen(lop3, 0, s, w);
    var window;
    v, window := MixedSixteen(lop3, s, w, 16, v, w);
    v, window := MixedSixteen(lop3, s, w, 32, v, window);
    v, window := MixedSixteen(lop3, s, w, 48, v, window);
    r := AddStates(s, v);
  }

  function Lane0(a: Pair, b: Pair, c: Pair, d: Pair, e: Pair, f: Pair, g: Pair, h: Pair): State {
    State(a.s0, b.s0, c.s0, d.s0, e.s0, f.s0, g.s0, h.s0)
  }

  function Lane1(a: Pair, b: Pair, c: Pair, d: Pair, e: Pair, f: Pair, g: Pair, h: Pair): State {
    State(a.s1, b.s1, c.s1, d.s1, e.s1, f.s1, g.s1, h.s1)
  }

  /** ROUND_PAIR: ROUND on one lane, then ROUND on the other. */
  method RoundPair(a: Pair, b: Pair, c: Pair, d: Pair, e: Pair, f: Pair, g: Pair, h: Pair, w: Pair, k: Word)
    returns (newD: Pair, newH: Pair)
    ensures Lane0(newH, a, b, c, newD, e, f, g) == Round(Lane0(a, b, c, d, e, f, g, h), k, w.s0)
    ensures Lane1(newH, a, b, c, newD, e, f, g) == Round(Lane1(a, b, c, d, e, f, g, h), k, w.s1)
  {
    hide Round;
    var d0, h0 := RoundMacro(false, a.s0, b.s0, c.s0, d.s0, e.s0, f.s0, g.s0, h.s0, w.s0, k);
    var d1, h1 := RoundMacro(false, a.s1, b.s1, c.s1, d.s1, e.s1, f.s1, g.s1, h.s1, w.s1, k);
    newD, newH := Pair(d0, d1), Pair(h0, h1);
  }

  method MsgPair(w0: Pair, w1: Pair, w9: Pair, w14: Pair) returns (r: Pair)
    ensures r == Pair(NextWord(w0.s0, w1.s0, w9.s0, w14.s0), NextWord(w0.s1, w1.s1, w9.s1, w14.s1))
  {
    hide NextWord;
    var r0 := MsgMacro(w0.s0, w1.s0, w9.s0, w14.s0);
    var r1 := MsgMacro(w0.s1, w1.s1, w9.s1, w14.s1);
    r := Pair(r0, r1);
  }

  method FirstSixteenDual(t: nat, v: State, w: Block, q: State, x: Block) returns (r: State, p: State)
    requires t == 0
    ensures r == Rounds(v, w, t + 16) && p == Rounds(q, x, t + 16)
  {
    hide Schedule, Rounds, Round, K, ScheduleWindow;
    NoRounds(v, w);
    NoRounds(q, x);
    FirstWindow(w);
    FirstWindow(x);
    ghost var chain0 := RoundChain(v, w, t);
    ghost var chain1 := RoundChain(q, x, t);
    var a, b, c, d := Pair(v.a, q.a), Pair(v.b, q.b), Pair(v.c, q.c), Pair(v.d, q.d);
    var e, f, g, h := Pair(v.e, q.e), Pair(v.f, q.f), Pair(v.g, q.g), Pair(v.h, q.h);
    var w0, w1, w2, w3 := Pair(w[0], x[0]), Pair(w[1], x[1]), Pair(w[2], x[2]), Pair(w[3], x[3]);
    var w4, w5, w6, w7 := Pair(w[4], x[4]), Pair(w[5], x[5]), Pair(w[6], x[6]), Pair(w[7], x[7]);
    var w8, w9, w10, w11 := Pair(w[8], x[8]), Pair(w[9], x[9]), Pair(w[10], x[10]), Pair(w[11], x[11]);
    var w12, w13, w14, w15 := Pair(w[12], x[12]), Pair(w[13], x[13]), Pair(w[14], x[14]), Pair(w[15], x[15]);
    d, h := RoundPair(a, b, c, d, e, f, g, h, w0, K(t));
    c, g := RoundPair(h, a, b, c, d, e, f, g, w1, K(t + 1));
    b, f := RoundPair(g, h, a, b, c, d, e, f, w2, K(t + 2));
    a, e := RoundPair(f, g, h, a, b, c, d, e, w3, K(t + 3));
    h, d := RoundPair(e, f, g, h, a, b, c, d, w4, K(t + 4));
    g, c := RoundPair(d, e, f, g, h, a, b, c, w5, K(t + 5));
    f, b := RoundPair(c, d, e, f, g, h, a, b, w6, K(t + 6));
    e, a := RoundPair(b, c, d, e, f, g, h, a, w7, K(t + 7));
    d, h := RoundPair(a, b, c, d, e, f, g, h, w8, K(t + 8));
    c, g := RoundPair(h, a, b, c, d, e, f, g, w9, K(t + 9));
    b, f := RoundPair(g, h, a, b, c, d, e, f, w10, K(t + 10));
    a, e := RoundPair(f, g, h, a, b, c, d, e, w11, K(t + 11));
    h, d := RoundPair(e, f, g, h, a, b, c, d, w12, K(t + 12));
    g, c := RoundPair(d, e, f, g, h, a, b, c, w13, K(t + 13));
    f, b := RoundPair(c, d, e, f, g, h, a, b, w14, K(t + 14));
    e, a := RoundPair(b, c, d, e, f, g, h, a, w15, K(t + 15));
    r, p := Lane0(a, b, c, d, e, f, g, h), Lane1(a, b, c, d, e, f, g, h);
    assert r == chain0[16] && p == chain1[16];
  }

  method MixedSixteenDual(ghost start0: State, ghost m0: Block, ghost start1: State, ghost m1: Block, t: nat,
                          v: State, w: Block, q: State, x: Block)
    returns (r: State, w': Block, p: State, x': Block)
    requires 16 <= t <= 48
    requires v == Rounds(start0, m0, t) && w == ScheduleWindow(m0, t - 16)
    requires q == Rounds(start1, m1, t) && x == ScheduleWindow(m1, t - 16)
    ensures r == Rounds(start0, m0, t + 16) && w' == ScheduleWindow(m0, t)
    ensures p == Rounds(start1, m1, t + 16) && x' == ScheduleWindow(m1, t)
  {
    hide Schedule, Rounds, Round, K, NextWord, ScheduleWindow;
    ghost var chain0 := RoundChain(start0, m0, t);
    ghost var words0 := WordChain(m0, t);
    ghost var chain1 := RoundChain(start1, m1, t);
    ghost var words1 := WordChain(m1, t);
    var a, b, c, d := Pair(v.a, q.a), Pair(v.b, q.b), Pair(v.c, q.c), Pair(v.d, q.d);
    var e, f, g, h := Pair(v.e, q.e), Pair(v.f, q.f), Pair(v.g, q.g), Pair(v.h, q.h);
    var w0, w1, w2, w3 := Pair(w[0], x[0]), Pair(w[1], x[1]), Pair(w[2], x[2]), Pair(w[3], x[3]);
    var w4, w5, w6, w7 := Pair(w[4], x[4]), Pair(w[5], x[5]), Pair(w[6], x[6]), Pair(w[7], x[7]);
    var w8, w9, w10, w11 := Pair(w[8], x[8]), Pair(w[9], x[9]), Pair(w[10], x[10]), Pair(w[11], x[11]);
    var w12, w13, w14, w15 := Pair(w[12], x[12]), Pair(w[13], x[13]), Pair(w[14], x[14]), Pair(w[15], x[15]);
    w0 := MsgPair(w0, w1, w9, w14);
    d, h := RoundPair(a, b, c, d, e, f, g, h, w0, K(t));
    w1 := MsgPair(w1, w2, w10, w15);
    c, g := RoundPair(h, a, b, c, d, e, f, g, w1, K(t + 1));
    w2 := MsgPair(w2, w3, w11, w0);
    b, f := RoundPair(g, h, a, b, c, d, e, f, w2, K(t + 2));
    w3 := MsgPair(w3, w4, w12, w1);
    a, e := RoundPair(f, g, h, a, b, c, d, e, w3, K(t + 3));
    w4 := MsgPair(w4, w5, w13, w2);
    h, d := RoundPair(e, f, g, h, a, b, c, d, w4, K(t + 4));
    w5 := MsgPair(w5, w6, w14, w3);
    g, c := RoundPair(d, e, f, g, h, a, b, c, w5, K(t + 5));
    w6 := MsgPair(w6, w7, w15, w4);
    f, b := RoundPair(c, d, e, f, g, h, a, b, w6, K(t + 6));
    w7 := MsgPair(w7, w8, w0, w5);
    e, a := RoundPair(b, c, d, e, f, g, h, a, w7, K(t + 7));
    w8 := MsgPair(w8, w9, w1, w6);
    d, h := RoundPair(a, b, c, d, e, f, g, h, w8, K(t + 8));
    w9 := MsgPair(w9, w10, w2, w7);
    c, g := RoundPair(h, a, b, c, d, e, f, g, w9, K(t + 9));
    w10 := MsgPair(w10, w11, w3, w8);
    b, f := RoundPair(g, h, a, b, c, d, e, f, w10, K(t + 10));
    w11 := MsgPair(w11, w12, w4, w9);
    a, e := RoundPair(f, g, h, a, b, c, d, e, w11, K(t + 11));
    w12 := MsgPair(w12, w13, w5, w10);
    h, d := RoundPair(e, f, g, h, a, b, c, d, w12, K(t + 12));
    w13 := MsgPair(w13, w14, w6, w11);
    g, c := RoundPair(d, e, f, g, h, a, b, c, w13, K(t + 13));
    w14 := MsgPair(w14, w15, w7, w12);
    f, b := RoundPair(c, d, e, f, g, h, a, b, w14, K(t + 14));
    w15 := MsgPair(w15, w0, w8, w13);
    e, a := RoundPair(b, c, d, e, f, g, h, a, w15, K(t + 15));
    r, p := Lane0(a, b, c, d, e, f, g, h), Lane1(a, b, c, d, e, f, g, h);
    w' := [w0.s0, w1.s0, w2.s0, w3.s0, w4.s0, w5.s0, w6.s0, w7.s0, w8.s0, w9.s0, w10.s0, w11.s0, w12.s0, w13.s0, w14.s0, w15.s0];
    x' := [w0.s1, w1.s1, w2.s1, w3.s1, w4.s1, w5.s1, w6.s1, w7.s1, w8.s1, w9.s1, w10.s1, w11.s1, w12.s1, w13.s1, w14.s1, w15.s1];
    assert r == chain0[16] && p == chain1[16];
    SecondHalf(words0, w0.s0, w1.s0, w2.s0, w3.s0, w4.s0, w5.s0, w6.s0, w7.s0, w8.s0, w9.s0, w10.s0, w11.s0, w12.s0, w13.s0, w14.s0, w15.s0);
    SecondHalf(words1, w0.s1, w1.s1, w2.s1, w3.s1, w4.s1, w5.s1, w6.s1, w7.s1, w8.s1, w9.s1, w10.s1, w11.s1, w12.s1, w13.s1, w14.s1, w15.s1);
  }

  /** SHA256_COMPRESS_DUAL: ROUND_PAIR runs one round of each lane in turn. */
  method CompressDual(s: State, w: Block, q: State, x: Block) returns (r: State, p: State)
    ensures r == Compress(s, w) && p == Compress(q, x)
  {
    hide Schedule, Rounds, Round, K, Add, ScheduleWindow;
    FirstWindow(w);
    FirstWindow(x);
    var v, u := FirstSixteenDual(0, s, w, q, x);
    var ww, xx;
    v, ww, u, xx := MixedSixteenDual(s, w, q, x, 16, v, w, u, x);
    v, ww, u, xx := MixedSixteenDual(s, w, q, x, 32, v, ww, u, xx);
    v, ww, u, xx := MixedSixteenDual(s, w, q, x, 48, v, ww, u, xx);
    r, p := AddStates(s, v), AddStates(q, u);
  }
}
