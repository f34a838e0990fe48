/** The state of struct miner in src/miner.c that its lock protects, and the critical
    sections as functions from one state to the next. */
module MinerCore {
  import opened Options
  import opened Words
  import opened Digits
  import opened Target

  const WRAP := 0x1_0000_0000_0000_0000

  /** A uint64_t. */
  type Counter = x: int | 0 <= x < 0x1_0000_0000_0000_0000

  /** next_nonce: one past the last nonce once the range is used up. */
  type NextNonce = x: int | 0 <= x <= 0x1_0000_0000

  const BATCH_SIZE := 262144
  const SHARE_QUEUE_SIZE := 256
  const ALL_NONCES := 0x1_0000_0000

  /** The part of a job that a share repeats. */
  datatype JobText = JobText(jobId: string, extranonce2: string, ntime: string)

  /** miner_job_t without its sequence number. */
  datatype PublicJob = PublicJob(text: JobText, header: seq<Byte>, target: seq<Byte>)

  datatype Share = Share(seqNo: Counter, nonce: Word, hash: seq<Byte>, difficulty: Difficulty, text: JobText)

  /** What a worker takes away from the allocator: a copy of the job with the pause
      epoch of that moment, and a nonce range. */
  datatype Work = Work(seqNo: Counter, epoch: Counter, job: PublicJob, start: Word, count: Word)

  datatype Core = Core(
    started: bool,
    stop: bool,
    paused: bool,
    pauseEpoch: Counter,
    seqNo: Counter,
    valid: bool,
    job: PublicJob,
    nextNonce: NextNonce,
    exhausted: bool,
    hashes: Counter,
    workerHashes: seq<Counter>,
    shares: seq<Share>)

  /** The condition on which miner_wait_for_work keeps waiting. */
  predicate MustWait(c: Core) {
    !c.stop && (c.paused || !c.valid)
  }

  function Batch(batch: Word): Word {
    if batch == 0 then BATCH_SIZE else batch
  }

  /** copy_job_and_nonce_range_sized. */
  function Claim(c: Core, batch: Word): (Core, Option<Work>) {
    if c.stop || c.paused || !c.valid then (c, None)
    else if c.nextNonce == ALL_NONCES then (c.(valid := false, exhausted := true), None)
    else
      var remaining := ALL_NONCES - c.nextNonce;
      var range := if remaining < Batch(batch) then remaining else Batch(batch);
      (c.(nextNonce := c.nextNonce + range), Some(Work(c.seqNo, c.pauseEpoch, c.job, c.nextNonce, range)))
  }

  /** scan_result_still_current_locked. */
  predicate Current(c: Core, work: Work) {
    !c.stop && !c.paused && c.pauseEpoch == work.epoch && c.seqNo == work.seqNo
  }

  function ShareOf(work: Work, nonce: Word, hash: seq<Byte>): Share {
    Share(work.seqNo, nonce, hash, DifficultyOf(Value(hash, 0x100)), work.job.text)
  }

  /** queue_scan_match with queue_share_locked. */
  function Report(c: Core, work: Work, nonce: Word, hash: seq<Byte>): Core {
    if Current(c, work) && |c.shares| < SHARE_QUEUE_SIZE
    then c.(shares := c.shares + [ShareOf(work, nonce, hash)])
    else c
  }

  function Plus(x: Counter, y: nat): Counter {
    (x + y) % 0x1_0000_0000_0000_0000
  }

  /** The hash accounting after a finished scan. */
  function Credit(c: Core, worker: nat, work: Work): Core {
    if Current(c, work)
    then c.(hashes := Plus(c.hashes, work.count),
            workerHashes :=
              if worker < |c.workerHashes|
              then c.workerHashes[worker := Plus(c.workerHashes[worker], work.count)]
              else c.workerHashes)
    else c
  }

  /** miner_set_job. */
  function SetJob(c: Core, job: PublicJob): Core {
    c.(seqNo := Plus(c.seqNo, 1), valid := true, job := job, nextNonce := 0, exhausted := false, shares := [])
  }

  /** miner_set_paused. */
  function SetPaused(c: Core, paused: bool): Core {
    c.(pauseEpoch := if !c.paused && paused then Plus(c.pauseEpoch, 1) else c.pauseEpoch, paused := paused)
  }

  /** miner_take_nonce_exhausted. */
  function TakeExhausted(c: Core): (Core, bool) {
    (c.(exhausted := false), c.exhausted)
  }

  /** miner_pop_share. */
  function PopShare(c: Core): (Core, Option<Share>) {
    if c.shares == [] then (c, None) else (c.(shares := c.shares[1..]), Some(c.shares[0]))
  }

  /** The critical section of miner_stop; it runs only on a started miner. */
  function Stop(c: Core): Core {
    if c.started then c.(stop := true) else c
  }

  /** The end of miner_stop, when all workers were joined. */
  function Joined(c: Core): Core {
    c.(started := false)
  }
}
