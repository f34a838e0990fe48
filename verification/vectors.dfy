/** Vectors of four words, and the SHA-256 rounds taken four at a time. Both
    hardware backends work on these. */
module Vectors {
  import opened Words
  import opened Fips180

  /** Four 32-bit lanes, x0 the least significant. */
  datatype Vec = Vec(x0: Word, x1: Word, x2: Word, x3: Word)

  function AddVec(x: Vec, y: Vec): Vec {
    Vec(Add(x.x0, y.x0), Add(x.x1, y.x1), Add(x.x2, y.x2), Add(x.x3, y.x3))
  }

  /** Round constants t .. t+3. */
  function KVec(t: nat): Vec
    requires t <= 60
  {
    Vec(K(t), K(t + 1), K(t + 2), K(t + 3))
  }

  /** Schedule words t .. t+3. */
  function VecAt(m: Block, t: nat): Vec {
    Vec(Schedule(m, t), Schedule(m, t + 1), Schedule(m, t + 2), Schedule(m, t + 3))
  }

  /** Rounds t .. t+3 with schedule words w. */
  function FourRounds(s: State, t: nat, w: Vec): State
    requires t <= 60
  {
    Round(Round(Round(Round(s, K(t), w.x0), K(t + 1), w.x1), K(t + 2), w.x2), K(t + 3), w.x3)
  }

  /** The vector of schedule words that follows four others. */
  function NextVec(v0: Vec, v1: Vec, v2: Vec, v3: Vec): Vec {
    var n0 := NextWord(v0.x0, v0.x1, v2.x1, v3.x2);
    var n1 := NextWord(v0.x1, v0.x2, v2.x2, v3.x3);
    Vec(n0, n1, NextWord(v0.x2, v0.x3, v2.x3, n0), NextWord(v0.x3, v1.x0, v3.x0, n1))
  }

  lemma VecFollows(m: Block, t: nat)
    requires t >= 16
    ensures VecAt(m, t) == NextVec(VecAt(m, t - 16), VecAt(m, t - 12), VecAt(m, t - 8), VecAt(m, t - 4))
  {
    hide Schedule, NextWord;
    ScheduleNext(m, t);
    ScheduleNext(m, t + 1);
    ScheduleNext(m, t + 2);
    ScheduleNext(m, t + 3);
  }

  lemma RoundsFollow(s: State, m: Block, t: nat)
    requires t <= 60
    ensures Rounds(s, m, t + 4) == FourRounds(Rounds(s, m, t), t, VecAt(m, t))
  {
    hide Schedule, Round, K;
    RoundFollows(s, m, t);
    RoundFollows(s, m, t + 1);
    RoundFollows(s, m, t + 2);
    RoundFollows(s, m, t + 3);
  }

  lemma RoundFollows(s: State, m: Block, t: nat)
    requires t < 64
    ensures Rounds(s, m, t + 1) == Round(Rounds(s, m, t), K(t), Schedule(m, t))
  {
    hide Schedule, Round, K;
  }

  /** Schedule vectors t-16, t-12, .. and t+16. */
  lemma VecChain(m: Block, t: nat) returns (v: seq<Vec>)
    requires t >= 16
    ensures |v| == 9 && forall i {:trigger v[i]} :: 0 <= i < 9 ==> v[i] == VecAt(m, t - 16 + 4 * i)
    ensures forall i {:trigger v[i]} :: 4 <= i < 9 ==> v[i] == NextVec(v[i - 4], v[i - 3], v[i - 2], v[i - 1])
  {
    hide VecAt, NextVec;
    v := seq(9, i requires 0 <= i < 9 => VecAt(m, t - 16 + 4 * i));
    forall i | 4 <= i < 9
      ensures v[i] == NextVec(v[i - 4], v[i - 3], v[i - 2], v[i - 1])
    {
      VecFollows(m, t - 16 + 4 * i);
    }
  }

  /** The states around rounds t .. t+15 in groups of four. */
  lemma FourRoundChain(s: State, m: Block, t: nat) returns (chain: seq<State>)
    requires t <= 48
    ensures |chain| == 5 && chain[0] == Rounds(s, m, t) && chain[4] == Rounds(s, m, t + 16)
    ensures chain[1] == FourRounds(chain[0], t, VecAt(m, t))
    ensures chain[2] == FourRounds(chain[1], t + 4, VecAt(m, t + 4))
    ensures chain[3] == FourRounds(chain[2], t + 8, VecAt(m, t + 8))
    ensures chain[4] == FourRounds(chain[3], t + 12, VecAt(m, t + 12))
  {
    hide Rounds, FourRounds, VecAt;
    chain := [Rounds(s, m, t), Rounds(s, m, t + 4), Rounds(s, m, t + 8), Rounds(s, m, t + 12), Rounds(s, m, t + 16)];
    RoundsFollow(s, m, t);
    RoundsFollow(s, m, t + 4);
    RoundsFollow(s, m, t + 8);
    RoundsFollow(s, m, t + 12);
  }

  /** The block whose sixteen words fill four vectors. */
  function BlockOf(m0: Vec, m1: Vec, m2: Vec, m3: Vec): Block {
    [m0.x0, m0.x1, m0.x2, m0.x3, m1.x0, m1.x1, m1.x2, m1.x3, m2.x0, m2.x1, m2.x2, m2.x3, m3.x0, m3.x1, m3.x2, m3.x3]
  }

  lemma AddStatesComm(x: State, y: State)
    ensures AddStates(x, y) == AddStates(y, x)
  {
  }

  /** The same register in two independent lanes. */
  datatype Both = Both(a: Vec, b: Vec)

  function NextBoth(v0: Both, v1: Both, v2: Both, v3: Both): Both {
    Both(NextVec(v0.a, v1.a, v2.a, v3.a), NextVec(v0.b, v1.b, v2.b, v3.b))
  }

  function BothAt(m: Block, n: Block, t: nat): Both { Both(VecAt(m, t), VecAt(n, t)) }

  /** Schedule vectors t-16, t-12, .. and t+16 of both lanes. */
  lemma BothChain(m: Block, n: Block, t: nat) returns (v: seq<Both>)
    requires t >= 16
    ensures |v| == 9 && forall i {:trigger v[i]} :: 0 <= i < 9 ==> v[i] == BothAt(m, n, t - 16 + 4 * i)
    ensures forall i {:trigger v[i]} :: 4 <= i < 9 ==> v[i] == NextBoth(v[i - 4], v[i - 3], v[i - 2], v[i - 1])
  {
    hide VecAt, NextVec;
    v := seq(9, i requires 0 <= i < 9 => BothAt(m, n, t - 16 + 4 * i));
    forall i | 4 <= i < 9
      ensures v[i] == NextBoth(v[i - 4], v[i - 3], v[i - 2], v[i - 1])
    {
      VecFollows(m, t - 16 + 4 * i);
      VecFollows(n, t - 16 + 4 * i);
    }
  }
}
