/** SHA-256 as FIPS 180-4 defines it, used as the meaning of every compressor. */
module Fips180 {
  import opened Words

  // Section 4.2.2.
  const ROUND_CONSTANTS: seq<seq<Word>> := [
    [0x428a2f98, 0x71374491, 0xb5c0fbcf, 0xe9b5dba5, 0x3956c25b, 0x59f111f1, 0x923f82a4, 0xab1c5ed5],
    [0xd807aa98, 0x12835b01, 0x243185be, 0x550c7dc3, 0x72be5d74, 0x80deb1fe, 0x9bdc06a7, 0xc19bf174],
    [0xe49b69c1, 0xefbe4786, 0x0fc19dc6, 0x240ca1cc, 0x2de92c6f, 0x4a7484aa, 0x5cb0a9dc, 0x76f988da],
    [0x983e5152, 0xa831c66d, 0xb00327c8, 0xbf597fc7, 0xc6e00bf3, 0xd5a79147, 0x06ca6351, 0x14292967],
    [0x27b70a85, 0x2e1b2138, 0x4d2c6dfc, 0x53380d13, 0x650a7354, 0x766a0abb, 0x81c2c92e, 0x92722c85],
    [0xa2bfe8a1, 0xa81a664b, 0xc24b8b70, 0xc76c51a3, 0xd192e819, 0xd6990624, 0xf40e3585, 0x106aa070],
    [0x19a4c116, 0x1e376c08, 0x2748774c, 0x34b0bcb5, 0x391c0cb3, 0x4ed8aa4a, 0x5b9cca4f, 0x682e6ff3],
    [0x748f82ee, 0x78a5636f, 0x84c87814, 0x8cc70208, 0x90befffa, 0xa4506ceb, 0xbef9a3f7, 0xc67178f2]
  ]

  function K(t: nat): Word
    requires t < 64
  {
    ROUND_CONSTANTS[t / 8][t % 8]
  }

  /** The eight working variables, and also a hash value. */
  datatype State = State(a: Word, b: Word, c: Word, d: Word, e: Word, f: Word, g: Word, h: Word)

  // Section 5.3.3.
  const INITIAL: State := State(0x6a09e667, 0xbb67ae85, 0x3c6ef372, 0xa54ff53a,
                                0x510e527f, 0x9b05688c, 0x1f83d9ab, 0x5be0cd19)

  type Block = m: seq<Word> | |m| == 16 witness [0, 0, 0, 0, 0, 0, 0, 0, 0, 0, 0, 0, 0, 0, 0, 0]

  /** Section 6.2.2, step 1: the message schedule. */
  function Schedule(m: Block, t: nat): Word {
    if t < 16 then m[t]
    else Add(Add(Add(SmallSigma1(Schedule(m, t - 2)), Schedule(m, t - 7)), SmallSigma0(Schedule(m, t - 15))), Schedule(m, t - 16))
  }

  /** Section 6.2.2, step 3: one round, with constant k and schedule word w. */
  function Round(s: State, k: Word, w: Word): State {
    var t1 := Add(Add(Add(Add(s.h, BigSigma1(s.e)), Ch(s.e, s.f, s.g)), k), w);
    var t2 := Add(BigSigma0(s.a), Maj(s.a, s.b, s.c));
    State(Add(t1, t2), s.a, s.b, s.c, Add(s.d, t1), s.e, s.f, s.g)
  }

  /** The working variables after the first t rounds. */
  function Rounds(s: State, m: Block, t: nat): State
    requires t <= 64
  {
    if t == 0 then s else Round(Rounds(s, m, t - 1), K(t - 1), Schedule(m, t - 1))
  }

  function AddStates(x: State, y: State): State {
    State(Add(x.a, y.a), Add(x.b, y.b), Add(x.c, y.c), Add(x.d, y.d),
          Add(x.e, y.e), Add(x.f, y.f), Add(x.g, y.g), Add(x.h, y.h))
  }

  /** Section 6.2.2: one block of the hash computation. */
  function Compress(s: State, m: Block): State {
    AddStates(s, Rounds(s, m, 64))
  }

  /** The order in which src/sha256d.c adds the four schedule terms. */
  lemma ScheduleReordered(m: Block, t: nat)
    requires t >= 16
    ensures Schedule(m, t)
         == Add(Add(Add(Schedule(m, t - 16), SmallSigma0(Schedule(m, t - 15))), Schedule(m, t - 7)), SmallSigma1(Schedule(m, t - 2)))
  {
    hide SmallSigma0, SmallSigma1, Add;
    SumReversed(SmallSigma1(Schedule(m, t - 2)), Schedule(m, t - 7), SmallSigma0(Schedule(m, t - 15)), Schedule(m, t - 16));
  }

  lemma SumReversed(w: Word, x: Word, y: Word, z: Word)
    ensures Add(Add(Add(w, x), y), z) == Add(Add(Add(z, y), x), w)
  {
    hide Add;
    AddComm(Add(Add(w, x), y), z);
    AddComm(Add(w, x), y);
    AddComm(w, x);
    AddAssoc(z, y, Add(x, w));
    AddAssoc(Add(z, y), x, w);
  }

  /** The schedule word that follows fifteen others, of which it uses four. */
  function NextWord(w0: Word, w1: Word, w9: Word, w14: Word): Word {
    Add(Add(Add(SmallSigma1(w14), w9), SmallSigma0(w1)), w0)
  }

  /** n schedule words from number t on. */
  function ScheduleWords(m: Block, t: nat, n: nat): (r: seq<Word>)
    ensures |r| == n
  {
    if n == 0 then [] else ScheduleWords(m, t, n - 1) + [Schedule(m, t + n - 1)]
  }

  function ScheduleWindow(m: Block, t: nat): Block {
    ScheduleWords(m, t, 16)
  }

  lemma {:induction false} ScheduleWordsAt(m: Block, t: nat, n: nat, i: nat)
    requires i < n
    ensures ScheduleWords(m, t, n)[i] == Schedule(m, t + i)
  {
    hide Schedule;
    if i < n - 1 {
      ScheduleWordsAt(m, t, n - 1, i);
    }
  }

  lemma FirstWindow(m: Block)
    ensures ScheduleWindow(m, 0) == m
  {
    forall i | 0 <= i < 16
      ensures ScheduleWindow(m, 0)[i] == m[i]
    {
      ScheduleWordsAt(m, 0, 16, i);
    }
  }

  lemma NoRounds(s: State, m: Block)
    ensures Rounds(s, m, 0) == s
  {
  }

  /** The states around rounds t .. t+15, each one round after the last. */
  lemma RoundChain(s: State, m: Block, t: nat) returns (chain: seq<State>)
    requires t <= 48
    ensures |chain| == 17 && chain[0] == Rounds(s, m, t) && chain[16] == Rounds(s, m, t + 16)
    ensures forall i {:trigger chain[i]} :: 1 <= i < 17 ==> chain[i] == Round(chain[i - 1], K(t + i - 1), ScheduleWindow(m, t)[i - 1])
  {
    hide Schedule, Round, K;
    chain := seq(17, i requires 0 <= i < 17 => Rounds(s, m, t + i));
    forall i | 1 <= i < 17
      ensures chain[i] == Round(chain[i - 1], K(t + i - 1), ScheduleWindow(m, t)[i - 1])
    {
      ScheduleWordsAt(m, t, 16, i - 1);
      assert chain[i] == Rounds(s, m, t + i) && chain[i - 1] == Rounds(s, m, t + i - 1);
    }
  }

  /** Thirty-two schedule words from number t - 16 on: each of the last sixteen
      comes from the four that MSG reads. */
  lemma WordChain(m: Block, t: nat) returns (words: seq<Word>)
    requires t >= 16
    ensures |words| == 32 && words[..16] == ScheduleWindow(m, t - 16) && words[16..] == ScheduleWindow(m, t)
    ensures forall i {:trigger words[i]} :: 16 <= i < 32 ==> words[i] == NextWord(words[i - 16], words[i - 15], words[i - 7], words[i - 2])
  {
    hide SmallSigma0, SmallSigma1, Add;
    words := ScheduleWindow(m, t - 16) + ScheduleWindow(m, t);
    forall i | 0 <= i < 32
      ensures words[i] == Schedule(m, t - 16 + i)
    {
      hide Schedule;
      if i < 16 { ScheduleWordsAt(m, t - 16, 16, i); } else { ScheduleWordsAt(m, t, 16, i - 16); }
    }
    forall i | 16 <= i < 32
      ensures words[i] == NextWord(words[i - 16], words[i - 15], words[i - 7], words[i - 2])
    {
      hide Schedule, NextWord;
      ScheduleNext(m, t - 16 + i);
    }
  }

  lemma ScheduleNext(m: Block, t: nat)
    requires t >= 16
    ensures Schedule(m, t) == NextWord(Schedule(m, t - 16), Schedule(m, t - 15), Schedule(m, t - 7), Schedule(m, t - 2))
  {
    hide SmallSigma0, SmallSigma1, Add;
  }
}
