/** From the pool's difficulty to the reported shares: job preparation, scan, comparison
    and reported difficulty together. */
module EndToEnd {
  import opened Words
  import opened Digits
  import opened Target
  import opened Scan

  /** The difficulty miner_hash_difficulty reports for the header with this nonce. */
  function NonceDifficulty(header: seq<Byte>, nonce: Word): Difficulty
    requires |header| == 80
  {
    DifficultyOf(Value(NonceHash(header, nonce), 0x100))
  }

  /** The callbacks earn the difficulty, and for a representable one no nonce clearly above
      it is missed. */
  ghost predicate Earns(trace: seq<Match>, header: seq<Byte>, d: real, start: int, count: int)
    requires |header| == 80 && d > 0.0
  {
    && (forall i :: 0 <= i < |trace| ==> AtLeast(NonceDifficulty(header, trace[i].nonce), d))
    && (Representable(d) ==> forall n: Word ::
      start <= n < start + count && AtLeast(NonceDifficulty(header, n), ClearlyEnough(d)) ==> Tried(trace, n))
  }

  /** A scan against the target of difficulty d calls back only for nonces that are
      reported with at least d, and, where the target is representable, misses none that
      exceeds d by one part in 2^15 (or none at all when the threshold is below 2^15). */
  lemma ScanEarnsDifficulty(trace: seq<Match>, header: seq<Byte>, target: seq<Byte>, d: real, start: Word, count: Word)
    requires |header| == 80 && |target| == 32 && d > 0.0
    requires Value(target, 0x100) == TargetOf(d)
    requires ExactTrace(trace, header, target, start, count)
    ensures Earns(trace, header, d, start, count)
  {
    hide NonceHash, TargetOf, ClearlyEnough, Representable, DifficultyOf, AtLeast, Value;
    forall n: Word
      ensures Tried(trace, n) ==> AtLeast(NonceDifficulty(header, n), d)
      ensures start <= n < start + count && !Tried(trace, n) && Representable(d) ==>
        !AtLeast(NonceDifficulty(header, n), ClearlyEnough(d))
    {
      ValueNonnegative(NonceHash(header, n), 0x100);
      MeetingHashHasDifficulty(d, Value(NonceHash(header, n), 0x100));
    }
    forall i | 0 <= i < |trace|
      ensures AtLeast(NonceDifficulty(header, trace[i].nonce), d)
    {
      assert Tried(trace, trace[i].nonce);
    }
  }

  /** A difficulty's target and one scan for it, as the miner runs them. */
  method ScanAtDifficulty(backend: Backend, header: seq<Byte>, difficulty: real, start: Word, count: Word)
      returns (trace: seq<Match>)
    requires |header| == 80 && start + count <= 0x1_0000_0000
    requires CastDefined(difficulty)
    ensures Earns(trace, header, if difficulty > 0.0 then difficulty else 1.0, start, count)
  {
    hide ExactTrace, TargetOf, NonceDifficulty, AtLeast, ClearlyEnough, Representable;
    var target := new Byte[32](_ => 0);
    TargetFromDifficulty(difficulty, target);
    trace := ScanJob(backend, header, target[..], start, count);
    ScanEarnsDifficulty(trace, header, target[..], if difficulty > 0.0 then difficulty else 1.0, start, count);
  }
}
