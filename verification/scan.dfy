/** Nonce scans of src/sha256d.c, src/sha256d_x86_sha_ni.c and
    src/sha256d_arm_sha2.c, and what their match callbacks mean. */
module Scan {
  import opened Words
  import opened Fips180
  import opened FipsHash
  import opened Digits
  import opened Backends

  /** One call of on_match. */
  datatype Match = Match(nonce: Word, hash: State)

  /** The hash words as hash_words_meet_target reads them. */
  function Swapped(s: State): (w: seq<Word>)
    ensures |w| == 8
  {
    [Bswap(s.a), Bswap(s.b), Bswap(s.c), Bswap(s.d), Bswap(s.e), Bswap(s.f), Bswap(s.g), Bswap(s.h)]
  }

  predicate Meets(s: State, target: seq<Word>) {
    Value(Swapped(s), 0x1_0000_0000) <= Value(target, 0x1_0000_0000)
  }

  /** hash_words_meet_target: compares 256-bit numbers word by word from the top. */
  method HashWordsMeetTarget(s: State, target: seq<Word>) returns (r: bool)
    requires |target| == 8
    ensures r == Meets(s, target)
  {
    hide Bswap, Value, Swapped, StateWords;
    SwappedAt(s);
    var words := StateWords(s);
    var i := 7;
    while i >= 0
      invariant -1 <= i <= 7
      invariant forall j :: i < j < 8 ==> Swapped(s)[j] == target[j]
    {
      var h := Bswap(words[i]);
      var t := target[i];
      if h < t {
        TopDigitDecides(Swapped(s), target, 0x1_0000_0000, i);
        return true;
      }
      if h > t {
        TopDigitDecides(target, Swapped(s), 0x1_0000_0000, i);
        return false;
      }
      i := i - 1;
    }
    assert Swapped(s) == target;
    return true;
  }

  lemma SwappedAt(s: State)
    ensures forall i :: 0 <= i < 8 ==> Swapped(s)[i] == Bswap(StateWords(s)[i])
  {
    hide Bswap;
  }

  /** The nonce tried at offset i of a range. */
  function NonceAt(start: Word, i: nat): Word {
    (start + i) % 0x1_0000_0000
  }

  function HashAt(fast: State, tail: seq<Word>, nonce: Word): State
    requires |tail| == 4
  {
    DoubleHash(fast, tail[0], tail[1], tail[2], Bswap(nonce))
  }

  /** The callbacks a scan of count nonces owes. */
  function Matches(fast: State, tail: seq<Word>, target: seq<Word>, start: Word, count: nat): seq<Match>
    requires |tail| == 4
  {
    if count == 0 then []
    else
      Matches(fast, tail, target, start, count - 1)
      + MatchAt(fast, tail, target, NonceAt(start, count - 1))
  }

  function MatchAt(fast: State, tail: seq<Word>, target: seq<Word>, nonce: Word): seq<Match>
    requires |tail| == 4
  {
    var hash := HashAt(fast, tail, nonce);
    if Meets(hash, target) then [Match(nonce, hash)] else []
  }

  datatype Backend = OpenSsl | FastPortable | X86ShaNi | ArmSha2Ext

  /** sha256d_tail_words_func. */
  method HashTailWords(backend: Backend, mid: Midstate, t0: Word, t1: Word, t2: Word, t3: Word) returns (r: State)
    requires Prepared(mid)
    ensures r == DoubleHash(mid.fastState, t0, t1, t2, t3)
  {
    match backend
    case OpenSsl => r := HashOpenSsl(mid, t0, t1, t2, t3);
    case FastPortable => r := HashFastC(mid, t0, t1, t2, t3);
    case X86ShaNi => r := HashShaNi(mid, t0, t1, t2, t3);
    case ArmSha2Ext => r := HashArm(mid, t0, t1, t2, t3);
  }

  /** sha256d_scan_nonce_range_generic. */
  method ScanGeneric(backend: Backend, mid: Midstate, baseTail: seq<Word>, target: seq<Word>, start: Word, count: Word)
    returns (trace: seq<Match>)
    requires Prepared(mid) && |baseTail| == 4 && |target| == 8
    ensures trace == Matches(mid.fastState, baseTail, target, start, count)
  {
    hide DoubleHash, Bswap, Meets;
    trace := [];
    var i := 0;
    while i < count
      invariant 0 <= i <= count
      invariant trace == Matches(mid.fastState, baseTail, target, start, i)
    {
      var nonce := Add(start, i);
      var hash := HashTailWords(backend, mid, baseTail[0], baseTail[1], baseTail[2], Bswap(nonce));
      var meets := HashWordsMeetTarget(hash, target);
      if meets {
        trace := trace + [Match(nonce, hash)];
      }
      i := i + 1;
    }
  }

  /** Two nonces side by side. */
  method TryPair(arm: bool, mid: Midstate, baseTail: seq<Word>, target: seq<Word>, nonceA: Word, nonceB: Word)
    returns (found: seq<Match>)
    requires |baseTail| == 4 && |target| == 8
    ensures found == MatchAt(mid.fastState, baseTail, target, nonceA) + MatchAt(mid.fastState, baseTail, target, nonceB)
  {
    hide DoubleHash, Bswap, Meets;
    var hashA, hashB;
    if arm {
      hashA, hashB := HashPairArm(mid, baseTail[0], baseTail[1], baseTail[2], nonceA, nonceB);
    } else {
      hashA, hashB := HashPairShaNi(mid, baseTail[0], baseTail[1], baseTail[2], nonceA, nonceB);
    }
    var meetsA := HashWordsMeetTarget(hashA, target);
    found := if meetsA then [Match(nonceA, hashA)] else [];
    var meetsB := HashWordsMeetTarget(hashB, target);
    if meetsB {
      found := found + [Match(nonceB, hashB)];
    }
  }

  method TryOne(arm: bool, mid: Midstate, baseTail: seq<Word>, target: seq<Word>, nonce: Word) returns (found: seq<Match>)
    requires |baseTail| == 4 && |target| == 8
    ensures found == MatchAt(mid.fastState, baseTail, target, nonce)
  {
    hide DoubleHash, Bswap, Meets;
    var hash;
    if arm {
      hash := HashArm(mid, baseTail[0], baseTail[1], baseTail[2], Bswap(nonce));
    } else {
      hash := HashShaNi(mid, baseTail[0], baseTail[1], baseTail[2], Bswap(nonce));
    }
    var meets := HashWordsMeetTarget(hash, target);
    found := if meets then [Match(nonce, hash)] else [];
  }

  /** sha256d_scan_nonce_range_x86_sha_ni (arm false) and
      sha256d_scan_nonce_range_arm_sha2 (arm true): nonces in pairs, then an odd one. */
  method ScanPaired(arm: bool, mid: Midstate, baseTail: seq<Word>, target: seq<Word>, start: Word, count: Word)
    returns (trace: seq<Match>)
    requires |baseTail| == 4 && |target| == 8
    ensures trace == Matches(mid.fastState, baseTail, target, start, count)
  {
    hide MatchAt;
    trace := [];
    var i := 0;
    var pairedCount := count - count % 2;
    while i < pairedCount
      invariant 0 <= i <= pairedCount && i % 2 == 0
      invariant trace == Matches(mid.fastState, baseTail, target, start, i)
    {
      hide Matches, Add;
      var nonceA := Add(start, i);
      var nonceB := Add(nonceA, 1);
      var found := TryPair(arm, mid, baseTail, target, nonceA, nonceB);
      TwoMatches(mid.fastState, baseTail, target, start, i);
      trace := trace + found;
      i := i + 2;
    }
    if i < count {
      var found := TryOne(arm, mid, baseTail, target, Add(start, i));
      trace := trace + found;
    }
  }

  lemma TwoMatches(fast: State, tail: seq<Word>, target: seq<Word>, start: Word, i: nat)
    requires |tail| == 4 && i + 2 < 0x1_0000_0000
    ensures Matches(fast, tail, target, start, i + 2) == Matches(fast, tail, target, start, i)
      + (MatchAt(fast, tail, target, Add(start, i)) + MatchAt(fast, tail, target, Add(Add(start, i), 1)))
  {
    hide MatchAt;
    assert NonceAt(start, i + 1) == Add(Add(start, i), 1);
    assert Matches(fast, tail, target, start, i + 1) ==
      Matches(fast, tail, target, start, i) + MatchAt(fast, tail, target, Add(start, i));
  }

  // ---- The meaning of the callbacks, in terms of FIPS 180-4 and integers ----

  /** A header with the nonce written, least significant byte first, at bytes 76 .. 79. */
  function WithNonce(header: seq<Byte>, nonce: Word): (h: seq<Byte>)
    requires |header| == 80
    ensures |h| == 80
  {
    header[..76] + [nonce % 0x100, nonce / 0x100 % 0x100, nonce / 0x1_0000 % 0x100, nonce / 0x100_0000]
  }

  /** The base tail words that miner_set_job loads from the header. */
  function TailWords(header: seq<Byte>): (t: seq<Word>)
    requires |header| == 80
    ensures |t| == 4
  {
    WordsFrom(header, 16, 4)
  }

  /** load_le32. */
  function LoadLE(b0: Byte, b1: Byte, b2: Byte, b3: Byte): Word { LoadBE(b3, b2, b1, b0) }

  /** The target words that miner_set_job loads from the 32 target bytes. */
  function TargetWords(target: seq<Byte>): (w: seq<Word>)
    requires |target| % 4 == 0
    ensures |w| == |target| / 4
  {
    if target == [] then [] else [LoadLE(target[0], target[1], target[2], target[3])] + TargetWords(target[4..])
  }

  /** Reading bytes or reading 32-bit words gives the same number. */
  lemma {:induction false} WordsValue(b: seq<Byte>)
    requires |b| % 4 == 0
    ensures Value(TargetWords(b), 0x1_0000_0000) == Value(b, 0x100)
  {
    if b != [] {
      WordsValue(b[4..]);
      ByteSteps(b);
      assert TargetWords(b)[1..] == TargetWords(b[4..]);
    }
  }

  lemma ByteSteps(b: seq<Byte>)
    requires |b| >= 4
    ensures Value(b, 0x100) == b[0] + 0x100 * b[1] + 0x1_0000 * b[2] + 0x100_0000 * b[3] + 0x1_0000_0000 * Value(b[4..], 0x100)
  {
    assert b[1..][1..] == b[2..] && b[2..][1..] == b[3..] && b[3..][1..] == b[4..];
    assert Value(b, 0x100) == b[0] + 0x100 * Value(b[1..], 0x100);
    assert Value(b[1..], 0x100) == b[1] + 0x100 * Value(b[2..], 0x100);
    assert Value(b[2..], 0x100) == b[2] + 0x100 * Value(b[3..], 0x100);
    assert Value(b[3..], 0x100) == b[3] + 0x100 * Value(b[4..], 0x100);
  }

  lemma {:induction false} TargetWordsAt(b: seq<Byte>, i: nat)
    requires |b| % 4 == 0 && i < |b| / 4
    ensures TargetWords(b)[i] == Bswap(WordAt(b, i))
  {
    hide Bswap, LoadBE, LoadLE;
    if i == 0 {
      LittleIsSwappedBig(b[0], b[1], b[2], b[3]);
    } else {
      TargetWordsAt(b[4..], i - 1);
    }
  }

  lemma LittleIsSwappedBig(b0: Byte, b1: Byte, b2: Byte, b3: Byte)
    ensures LoadLE(b0, b1, b2, b3) == Bswap(LoadBE(b0, b1, b2, b3))
  {
    PutLoad(b0, b1, b2, b3);
  }

  /** The byte-swapped hash words are the digest bytes read in little-endian words. */
  lemma SwappedIsDigest(s: State)
    ensures Swapped(s) == TargetWords(StateBytes(s))
  {
    hide Bswap, WordAt, StateBytes, TargetWords, Swapped;
    DigestWords(s);
    SwappedAt(s);
    forall i | 0 <= i < 8
      ensures Swapped(s)[i] == TargetWords(StateBytes(s))[i]
    {
      TargetWordsAt(StateBytes(s), i);
      assert WordsFrom(StateBytes(s), 0, 8)[i] == WordAt(StateBytes(s), i);
    }
  }

  /** Only the last word depends on the nonce, and it is the nonce byte-swapped. */
  lemma NonceWord(header: seq<Byte>, nonce: Word)
    requires |header| == 80
    ensures var h := WithNonce(header, nonce);
      && BlockAt(h, 0) == BlockAt(header, 0) && WordAt(h, 19) == Bswap(nonce)
      && WordAt(h, 16) == WordAt(header, 16) && WordAt(h, 17) == WordAt(header, 17) && WordAt(h, 18) == WordAt(header, 18)
  {
    hide WordAt;
    var h := WithNonce(header, nonce);
    forall k | 0 <= k < 19
      ensures WordAt(h, k) == WordAt(header, k)
    {
      WordPrefix(h, header[..76], k);
      WordPrefix(header, header[..76], k);
    }
    WordsDetermine(h, 0, BlockAt(header, 0));
    LastWord(header, nonce);
  }

  lemma LastWord(header: seq<Byte>, nonce: Word)
    requires |header| == 80
    ensures WordAt(WithNonce(header, nonce), 19) == Bswap(nonce)
  {
    hide LoadBE;
  }

  /** What one tried nonce hashes to, and what meeting the target says about it. */
  lemma HashMeaning(header: seq<Byte>, target: seq<Byte>, nonce: Word)
    requires |header| == 80 && |target| == 32
    ensures var hash := HashAt(MidstateOf(header), TailWords(header), nonce);
      && StateBytes(hash) == Sha256d(WithNonce(header, nonce))
      && (Meets(hash, TargetWords(target)) <==> Value(Sha256d(WithNonce(header, nonce)), 0x100) <= Value(target, 0x100))
  {
    hide DoubleHash, StateBytes, Swapped, TargetWords, WordAt, Sha256d, Bswap;
    NonceWord(header, nonce);
    MidstateShortcut(WithNonce(header, nonce));
    var hash := HashAt(MidstateOf(header), TailWords(header), nonce);
    SwappedIsDigest(hash);
    WordsValue(StateBytes(hash));
    WordsValue(target);
  }

  predicate Increasing(trace: seq<Match>) {
    forall i, j :: 0 <= i < j < |trace| ==> trace[i].nonce < trace[j].nonce
  }

  predicate Tried(trace: seq<Match>, nonce: int) {
    exists i :: 0 <= i < |trace| && trace[i].nonce == nonce
  }

  /** The trace has exactly the nonces of the range that meet the target, with their
      hashes. */
  ghost predicate Complete(trace: seq<Match>, fast: State, tail: seq<Word>, target: seq<Word>, start: int, end: int)
    requires |tail| == 4
  {
    && (forall i :: 0 <= i < |trace| ==>
      start <= trace[i].nonce < end && trace[i].hash == HashAt(fast, tail, trace[i].nonce))
    && forall n: Word :: start <= n < end ==> (Tried(trace, n) <==> Meets(HashAt(fast, tail, n), target))
  }

  lemma CompleteStep(trace: seq<Match>, fast: State, tail: seq<Word>, target: seq<Word>, start: int, last: Word)
    requires |tail| == 4 && start <= last && Complete(trace, fast, tail, target, start, last) && Increasing(trace)
    ensures var longer := trace + MatchAt(fast, tail, target, last);
      Complete(longer, fast, tail, target, start, last + 1) && Increasing(longer)
  {
    hide HashAt, Meets;
    var longer := trace + MatchAt(fast, tail, target, last);
    forall n: Word | start <= n < last + 1
      ensures Tried(longer, n) <==> Meets(HashAt(fast, tail, n), target)
    {
      var more := MatchAt(fast, tail, target, last);
      TriedMore(trace, more, n);
      assert Meets(HashAt(fast, tail, last), target) ==> more[0].nonce == last;
    }
  }

  lemma TriedMore(trace: seq<Match>, more: seq<Match>, n: int)
    ensures Tried(trace + more, n) <==> Tried(trace, n) || Tried(more, n)
  {
    var all := trace + more;
    if Tried(trace, n) {
      var i :| 0 <= i < |trace| && trace[i].nonce == n;
      assert all[i].nonce == n;
    }
    if Tried(more, n) {
      var i :| 0 <= i < |more| && more[i].nonce == n;
      assert all[|trace| + i].nonce == n;
    }
  }

  lemma NothingTried(fast: State, tail: seq<Word>, target: seq<Word>, start: Word)
    requires |tail| == 4
    ensures Increasing([]) && Complete([], fast, tail, target, start, start)
  {
    hide HashAt, Meets;
  }

  lemma {:induction false} MatchesShape(fast: State, tail: seq<Word>, target: seq<Word>, start: Word, count: nat)
    requires |tail| == 4 && start + count <= 0x1_0000_0000
    ensures var trace := Matches(fast, tail, target, start, count);
      Increasing(trace) && Complete(trace, fast, tail, target, start, start + count)
  {
    hide HashAt, Meets, MatchAt, Complete, Increasing;
    if count == 0 {
      NothingTried(fast, tail, target, start);
    } else {
      assert NonceAt(start, count - 1) == start + count - 1;
      MatchesShape(fast, tail, target, start, count - 1);
      CompleteStep(Matches(fast, tail, target, start, count - 1), fast, tail, target, start, start + count - 1);
    }
  }

  /** The callbacks a scan of a header owes: one for each nonce whose FIPS 180-4
      double hash, read as a little-endian number, is at most the target, once, in
      increasing order, with that very hash. */
  ghost predicate ExactTrace(trace: seq<Match>, header: seq<Byte>, target: seq<Byte>, start: int, count: int)
    requires |header| == 80
  {
    && Increasing(trace)
    && (forall n: Word :: Tried(trace, n) <==> start <= n < start + count && Wins(header, target, n))
    && forall i :: 0 <= i < |trace| ==> StateBytes(trace[i].hash) == NonceHash(header, trace[i].nonce)
  }

  /** The double hash of a header with this nonce. */
  function NonceHash(header: seq<Byte>, nonce: Word): (hash: seq<Byte>)
    requires |header| == 80
    ensures |hash| == 32
  {
    Sha256d(WithNonce(header, nonce))
  }

  predicate Wins(header: seq<Byte>, target: seq<Byte>, nonce: Word)
    requires |header| == 80
  {
    Value(NonceHash(header, nonce), 0x100) <= Value(target, 0x100)
  }

  /** Callbacks for winning nonces of a range, each at most once, with their hashes. */
  ghost predicate SoundTrace(trace: seq<Match>, header: seq<Byte>, target: seq<Byte>, start: int, count: int)
    requires |header| == 80
  {
    && (forall i, j :: 0 <= i < j < |trace| ==> trace[i].nonce != trace[j].nonce)
    && forall i :: 0 <= i < |trace| ==>
      && start <= trace[i].nonce < start + count && Wins(header, target, trace[i].nonce)
      && StateBytes(trace[i].hash) == NonceHash(header, trace[i].nonce)
  }

  lemma OnceIn(trace: seq<Match>, m: Match)
    requires Increasing(trace)
    ensures multiset(trace)[m] <= 1
  {
    if m in trace {
      var i :| 0 <= i < |trace| && trace[i] == m;
      assert trace == trace[..i] + [m] + trace[i + 1..];
      assert m !in trace[..i] && m !in trace[i + 1..];
    }
  }

  lemma TwiceIn(trace: seq<Match>, i: nat, j: nat)
    requires i < j < |trace| && trace[i] == trace[j]
    ensures multiset(trace)[trace[i]] >= 2
  {
    assert trace == trace[..i] + [trace[i]] + trace[i + 1..j] + [trace[j]] + trace[j + 1..];
  }

  /** Part of an exact trace, in any order, is sound. */
  lemma PartIsSound(trace: seq<Match>, owed: seq<Match>, header: seq<Byte>, target: seq<Byte>, start: int, count: int)
    requires |header| == 80 && ExactTrace(owed, header, target, start, count) && multiset(trace) <= multiset(owed)
    ensures SoundTrace(trace, header, target, start, count)
  {
    hide Wins, StateBytes, NonceHash;
    forall i | 0 <= i < |trace| ensures trace[i] in owed {
      assert trace[i] in multiset(trace);
    }
    forall i | 0 <= i < |owed| ensures start <= owed[i].nonce < start + count && Wins(header, target, owed[i].nonce) {
      assert Tried(owed, owed[i].nonce);
    }
    forall i, j | 0 <= i < j < |trace| ensures trace[i].nonce != trace[j].nonce {
      OnceIn(owed, trace[i]);
      if trace[i] == trace[j] {
        TwiceIn(trace, i, j);
      }
    }
  }

  /** The winning nonces of a range. */
  ghost function Winners(header: seq<Byte>, target: seq<Byte>, start: int, count: int): set<Word>
    requires |header| == 80
  {
    set n: Word | start <= n < start + count && Wins(header, target, n)
  }

  function Nonces(trace: seq<Match>): set<Word> {
    set i | 0 <= i < |trace| :: trace[i].nonce
  }

  lemma {:induction false} DistinctNonces(trace: seq<Match>)
    requires forall i, j :: 0 <= i < j < |trace| ==> trace[i].nonce != trace[j].nonce
    ensures |Nonces(trace)| == |trace|
  {
    if trace != [] {
      var n := |trace| - 1;
      DistinctNonces(trace[..n]);
      assert Nonces(trace) == Nonces(trace[..n]) + {trace[n].nonce};
    }
  }

  lemma ExactCount(trace: seq<Match>, header: seq<Byte>, target: seq<Byte>, start: int, count: int)
    requires |header| == 80 && ExactTrace(trace, header, target, start, count)
    ensures |trace| == |Winners(header, target, start, count)|
  {
    hide Wins, NonceHash, StateBytes;
    DistinctNonces(trace);
    forall n: Word ensures n in Nonces(trace) <==> n in Winners(header, target, start, count) {
      assert n in Nonces(trace) <==> Tried(trace, n);
    }
    assert Nonces(trace) == Winners(header, target, start, count);
  }

  /** A sound trace as long as the winners are many has them all. */
  lemma SoundAndFull(trace: seq<Match>, header: seq<Byte>, target: seq<Byte>, start: int, count: int)
    requires |header| == 80 && SoundTrace(trace, header, target, start, count)
    requires |trace| == |Winners(header, target, start, count)|
    ensures forall n: Word :: Tried(trace, n) <==> n in Winners(header, target, start, count)
  {
    hide Wins, NonceHash, StateBytes;
    DistinctNonces(trace);
    var winners := Winners(header, target, start, count);
    assert Nonces(trace) <= winners;
    SubsetOfSameSize(Nonces(trace), winners);
    forall n: Word ensures Tried(trace, n) <==> n in winners {
      assert n in Nonces(trace) <==> Tried(trace, n);
    }
  }

  lemma SubsetOfSameSize(a: set<Word>, b: set<Word>)
    requires a <= b && |a| == |b|
    ensures a == b
  {
    assert |b - a| == |b| - |a|;
  }

  lemma TraceExact(header: seq<Byte>, target: seq<Byte>, start: Word, count: nat)
    requires |header| == 80 && |target| == 32 && start + count <= 0x1_0000_0000
    ensures ExactTrace(Matches(MidstateOf(header), TailWords(header), TargetWords(target), start, count), header, target, start, count)
  {
    hide HashAt, Meets, Sha256d, StateBytes, TargetWords, Matches, TailWords, MidstateOf, WithNonce;
    var trace := Matches(MidstateOf(header), TailWords(header), TargetWords(target), start, count);
    MatchesShape(MidstateOf(header), TailWords(header), TargetWords(target), start, count);
    forall n: Word
      ensures Tried(trace, n) <==> start <= n < start + count && Wins(header, target, n)
    {
      HashMeaning(header, target, n);
    }
    forall i | 0 <= i < |trace|
      ensures StateBytes(trace[i].hash) == NonceHash(header, trace[i].nonce)
    {
      HashMeaning(header, target, trace[i].nonce);
    }
  }

  /** A whole scan of one job: preparation as in miner_set_job, then the scan the
      backend selects (sha256d_nonce_range_func). */
  method ScanJob(backend: Backend, header: seq<Byte>, target: seq<Byte>, start: Word, count: Word) returns (trace: seq<Match>)
    requires |header| == 80 && |target| == 32 && start + count <= 0x1_0000_0000
    ensures ExactTrace(trace, header, target, start, count)
  {
    hide Matches, ExactTrace, TargetWords, TailWords, Compress, BlockAt;
    var mid := Prepare(header[..64]);
    SameFirstBlock(header);
    match backend {
      case OpenSsl => trace := ScanGeneric(backend, mid, TailWords(header), TargetWords(target), start, count);
      case FastPortable => trace := ScanGeneric(backend, mid, TailWords(header), TargetWords(target), start, count);
      case X86ShaNi => trace := ScanPaired(false, mid, TailWords(header), TargetWords(target), start, count);
      case ArmSha2Ext => trace := ScanPaired(true, mid, TailWords(header), TargetWords(target), start, count);
    }
    TraceExact(header, target, start, count);
  }

  lemma SameFirstBlock(header: seq<Byte>)
    requires |header| == 80
    ensures BlockAt(header[..64], 0) == BlockAt(header, 0)
  {
    hide WordAt;
    forall k | 0 <= k < 16
      ensures WordAt(header[..64], k) == BlockAt(header, 0)[k]
    {
      WordPrefix(header, header[..64], k);
    }
    WordsDetermine(header[..64], 0, BlockAt(header, 0));
  }
}
