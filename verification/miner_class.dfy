/** struct miner of src/miner.c as an object. Each method is one critical section
    and is proved to perform the step of MinerCore on the object's abstract state. */
module MinerObject {
  import opened Options
  import opened Words
  import opened Digits
  import opened Target
  import opened MinerCore

  /** The place of the i-th share after the head of the ring. */
  function Slot(head: nat, i: nat): (slot: nat)
    ensures slot < SHARE_QUEUE_SIZE
  {
    (head + i) % SHARE_QUEUE_SIZE
  }

  class Miner {
    var started: bool
    var stop: bool
    var paused: bool
    var pauseEpoch: Counter
    var seqNo: Counter
    var valid: bool
    var job: PublicJob
    var nextNonce: NextNonce
    var nonceExhausted: bool
    var hashes: Counter
    const threadHashes: array<Counter>
    const shares: array<Share>
    var shareHead: nat
    var shareTail: nat
    var shareCount: nat

    ghost predicate Valid()
      reads this
    {
      && shares.Length == SHARE_QUEUE_SIZE
      && shareHead < SHARE_QUEUE_SIZE
      && shareCount <= SHARE_QUEUE_SIZE
      && shareTail == Slot(shareHead, shareCount)
    }

    /** The queued shares, oldest first. */
    ghost function Queue(): (q: seq<Share>)
      requires Valid()
      reads this, shares
      ensures |q| == shareCount
      ensures forall i :: 0 <= i < shareCount ==> q[i] == shares[Slot(shareHead, i)]
    {
      seq(shareCount, i requires 0 <= i < shareCount reads this, shares
        requires Valid() => shares[Slot(shareHead, i)])
    }

    ghost function View(): Core
      requires Valid()
      reads this, shares, threadHashes
    {
      Core(started, stop, paused, pauseEpoch, seqNo, valid, job, nextNonce, nonceExhausted, hashes,
        threadHashes[..], Queue())
    }

    /** A created and started miner without a job. */
    constructor (threadCount: nat, noJob: PublicJob, noShare: Share)
      ensures Valid() && fresh(shares) && fresh(threadHashes)
      ensures View() == Core(true, false, false, 0, 0, false, noJob, 0, false, 0, Zeros(threadCount), [])
    {
      started, stop, paused, pauseEpoch, seqNo, valid, job := true, false, false, 0, 0, false, noJob;
      nextNonce, nonceExhausted, hashes := 0, false, 0;
      shareHead, shareTail, shareCount := 0, 0, 0;
      var counters := new Counter[threadCount](_ => 0);
      threadHashes := counters;
      shares := new Share[SHARE_QUEUE_SIZE](_ => noShare);
      new;
      ZerosAre(threadCount);
      assert threadHashes[..] == Zeros(threadCount);
    }

    method ShouldWait() returns (r: bool)
      requires Valid()
      ensures r <==> !stop && (paused || !valid)
      ensures r == MustWait(View())
    {
      return !stop && (paused || !valid);
    }

    /** A zero batch size stands for the default. */
    method CopyJobAndNonceRange(batchSize: Word) returns (work: Option<Work>)
      requires Valid()
      modifies this`valid, this`nonceExhausted, this`nextNonce
      ensures Valid() && (View(), work) == Claim(old(View()), batchSize)
      ensures work.Some? <==> !stop && !paused && old(valid) && old(nextNonce) < 0x1_0000_0000
    {
      var batch := batchSize;
      if batch == 0 {
        batch := BATCH_SIZE;
      }
      work := None;
      if !stop && !paused && valid {
        if nextNonce > 0xFFFF_FFFF {
          valid := false;
          nonceExhausted := true;
        } else {
          var remaining := 0xFFFF_FFFF - nextNonce + 1;
          var range := if remaining < batch then remaining else batch;
          work := Some(Work(seqNo, pauseEpoch, job, nextNonce, range));
          nextNonce := nextNonce + range;
        }
      }
      assert Queue() == old(Queue());
    }

    method StillCurrent(work: Work) returns (r: bool)
      requires Valid()
      ensures r == Current(View(), work)
    {
      return !stop && !paused && pauseEpoch == work.epoch && seqNo == work.seqNo;
    }

    /** queue_share_locked: a full ring drops the share. */
    method QueueShare(share: Share)
      requires Valid()
      modifies this`shareTail, this`shareCount, shares
      ensures Valid()
      ensures Queue() == if old(shareCount) < SHARE_QUEUE_SIZE then old(Queue()) + [share] else old(Queue())
    {
      hide Slot;
      if shareCount >= SHARE_QUEUE_SIZE {
        return;
      }
      shares[shareTail] := share;
      shareTail := (shareTail + 1) % SHARE_QUEUE_SIZE;
      shareCount := shareCount + 1;
      TailAdvances(shareHead, shareCount - 1);
      forall i | 0 <= i < shareCount - 1
        ensures Queue()[i] == old(Queue())[i]
      {
        SlotsDiffer(shareHead, i, shareCount - 1);
      }
      assert Queue() == old(Queue()) + [share];
    }

    method QueueScanMatch(work: Work, nonce: Word, hash: seq<Byte>)
      requires Valid() && |hash| == 32
      modifies this`shareTail, this`shareCount, shares
      ensures Valid() && View() == Report(old(View()), work, nonce, hash)
      ensures !stop && !paused && pauseEpoch == work.epoch && seqNo == work.seqNo && old(shareCount) < 256 ==>
        shareCount == old(shareCount) + 1
    {
      hide Value, DifficultyOf;
      var current := StillCurrent(work);
      if current {
        var difficulty := HashDifficulty(hash);
        QueueShare(Share(work.seqNo, nonce, hash, difficulty, work.job.text));
      }
      assert threadHashes[..] == old(threadHashes[..]);
    }

    method CreditHashes(id: nat, work: Work)
      requires Valid()
      modifies this`hashes, threadHashes
      ensures Valid() && View() == Credit(old(View()), id, work)
    {
      var current := StillCurrent(work);
      if current {
        hashes := (hashes + work.count) % 0x1_0000_0000_0000_0000;
        if id < threadHashes.Length {
          threadHashes[id] := (threadHashes[id] + work.count) % 0x1_0000_0000_0000_0000;
        }
      }
      assert Queue() == old(Queue());
    }

    method ClearShares()
      requires shares.Length == SHARE_QUEUE_SIZE
      modifies this`shareHead, this`shareTail, this`shareCount
      ensures Valid() && Queue() == []
    {
      shareHead := 0;
      shareTail := 0;
      shareCount := 0;
    }

    method AssignJob(newJob: PublicJob)
      requires Valid()
      modifies this
      ensures Valid() && View() == SetJob(old(View()), newJob)
      ensures valid && job == newJob && nextNonce == 0 && !nonceExhausted && shareCount == 0
    {
      seqNo := (seqNo + 1) % 0x1_0000_0000_0000_0000;
      valid := true;
      job := newJob;
      nextNonce := 0;
      nonceExhausted := false;
      ClearShares();
    }

    method AssignPaused(newPaused: bool)
      requires Valid()
      modifies this`paused, this`pauseEpoch
      ensures Valid() && View() == SetPaused(old(View()), newPaused)
      ensures paused == newPaused
    {
      if !paused && newPaused {
        pauseEpoch := (pauseEpoch + 1) % 0x1_0000_0000_0000_0000;
      }
      paused := newPaused;
      assert Queue() == old(Queue());
    }

    method TakeNonceExhausted() returns (r: bool)
      requires Valid()
      modifies this`nonceExhausted
      ensures Valid() && (View(), r) == TakeExhausted(old(View()))
      ensures r == old(nonceExhausted) && !nonceExhausted
    {
      r := nonceExhausted;
      nonceExhausted := false;
      assert Queue() == old(Queue());
    }

    /** Move the head past the oldest share. */
    method DropHead()
      requires Valid() && shareCount > 0
      modifies this`shareHead, this`shareCount
      ensures Valid() && Queue() == old(Queue())[1..]
    {
      hide Slot;
      shareHead := (shareHead + 1) % SHARE_QUEUE_SIZE;
      shareCount := shareCount - 1;
      HeadAdvances(old(shareHead), shareCount);
      forall i | 0 <= i < shareCount
        ensures Queue()[i] == old(Queue())[i + 1]
      {
        HeadAdvances(old(shareHead), i);
      }
    }

    method Pop() returns (share: Option<Share>)
      requires Valid()
      modifies this`shareHead, this`shareCount
      ensures Valid() && (View(), share) == PopShare(old(View()))
      ensures share.Some? <==> old(shareCount) > 0
    {
      hide Slot;
      share := None;
      if shareCount > 0 {
        share := Some(shares[shareHead]);
        HeadSlot(shareHead);
        assert share == Some(Queue()[0]);
        DropHead();
      } else {
        assert Queue() == old(Queue());
      }
    }

    method StopWorkers()
      requires Valid()
      modifies this`stop
      ensures Valid() && View() == Stop(old(View()))
      ensures stop <==> old(stop) || started
    {
      if !started {
        return;
      }
      stop := true;
      assert Queue() == old(Queue());
    }

    /** The rest of miner_stop, after the workers were joined. */
    method WorkersJoined()
      requires Valid()
      modifies this`started
      ensures Valid() && View() == Joined(old(View()))
      ensures !started
    {
      started := false;
      assert Queue() == old(Queue());
    }
  }

  function Zeros(n: nat): seq<Counter> {
    if n == 0 then [] else [0] + Zeros(n - 1)
  }

  lemma {:induction false} ZerosAre(n: nat)
    ensures |Zeros(n)| == n && forall i :: 0 <= i < n ==> Zeros(n)[i] == 0
  {
    if n > 0 {
      ZerosAre(n - 1);
    }
  }

  lemma HeadSlot(head: nat)
    requires head < SHARE_QUEUE_SIZE
    ensures Slot(head, 0) == head
  {
  }

  lemma TailAdvances(head: nat, count: nat)
    ensures (Slot(head, count) + 1) % SHARE_QUEUE_SIZE == Slot(head, count + 1)
  {
    WholeRounds((head + count) % SHARE_QUEUE_SIZE + 1, (head + count) / SHARE_QUEUE_SIZE);
  }

  lemma HeadAdvances(head: nat, i: nat)
    ensures Slot((head + 1) % SHARE_QUEUE_SIZE, i) == Slot(head, i + 1)
  {
    WholeRounds((head + 1) % SHARE_QUEUE_SIZE + i, (head + 1) / SHARE_QUEUE_SIZE);
  }

  lemma WholeRounds(x: nat, q: nat)
    ensures (x + SHARE_QUEUE_SIZE * q) % SHARE_QUEUE_SIZE == x % SHARE_QUEUE_SIZE
  {
    var r := x / SHARE_QUEUE_SIZE;
    assert x + SHARE_QUEUE_SIZE * q == SHARE_QUEUE_SIZE * (r + q) + x % SHARE_QUEUE_SIZE;
  }

  lemma SlotsDiffer(head: nat, i: nat, count: nat)
    requires head < SHARE_QUEUE_SIZE && i < count < SHARE_QUEUE_SIZE
    ensures Slot(head, i) != Slot(head, count)
  {
  }
}
