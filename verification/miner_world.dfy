/** All threads of src/miner.c together: the locked state, where each worker stands in
    its loop, and a history of what happened that the code does not keep. */
module MinerWorld {
  import opened Options
  import opened Words
  import opened Digits
  import opened Target
  import opened MinerCore
  import Scan

  /** Where a worker is between two critical sections. Waiting is about to test the
      condition of miner_wait_for_work; Blocked is inside pthread_cond_wait. */
  datatype Phase = Top | Ready | Scanning(claim: nat, work: Work) | Waiting | Blocked | Exited

  /** A range handed out: to whom, for the how-manieth job and after how many pauses. */
  datatype ClaimRecord = ClaimRecord(worker: nat, job: nat, pauses: nat, start: nat, count: nat)

  datatype Fate = Queued | Popped | Stale | Full | Cleared

  datatype MatchRecord = MatchRecord(claim: nat, share: Share, fate: Fate)

  /** Jobs are numbered by their place in posted, from 1. raised and taken list the jobs
      whose exhaustion was flagged and reported; queue and popped list matches. */
  datatype World = World(
    core: Core,
    phases: seq<Phase>,
    posted: seq<PublicJob>,
    pauses: nat,
    claims: seq<ClaimRecord>,
    credits: seq<nat>,
    matches: seq<MatchRecord>,
    queue: seq<nat>,
    popped: seq<nat>,
    raised: seq<nat>,
    taken: seq<nat>)

  datatype Action =
    | Observe(worker: nat)
    | Allocate(worker: nat, batch: Word)
    | Found(worker: nat, offset: nat)
    | Finish(worker: nat)
    | Fail(worker: nat)
    | Check(worker: nat)
    | Wake(worker: nat)
    | NewJob(job: PublicJob)
    | Pause(paused: bool)
    | AskExhausted
    | Deliver
    | Shutdown
    | Join

  function Start(workers: nat, noJob: PublicJob): World {
    World(Core(true, false, false, 0, 0, false, noJob, 0, false, 0, seq(workers, _ => 0), []),
      seq(workers, _ => Top), [], 0, [], [], [], [], [], [], [])
  }

  function Broadcast(phases: seq<Phase>): (r: seq<Phase>)
    ensures |r| == |phases|
    ensures forall i :: 0 <= i < |r| ==> r[i] == if phases[i].Blocked? then Waiting else phases[i]
  {
    seq(|phases|, i requires 0 <= i < |phases| => if phases[i].Blocked? then Waiting else phases[i])
  }

  /** A new job drops everything still queued. */
  function ClearQueued(matches: seq<MatchRecord>): (r: seq<MatchRecord>)
    ensures |r| == |matches|
    ensures forall k :: 0 <= k < |r| ==>
      r[k] == if matches[k].fate.Queued? then matches[k].(fate := Cleared) else matches[k]
  {
    seq(|matches|, k requires 0 <= k < |matches| =>
      if matches[k].fate.Queued? then matches[k].(fate := Cleared) else matches[k])
  }

  /** The loop top of worker_main, opencl_worker_main and cuda_worker_main. */
  function ObserveStep(w: World, i: nat): World
    requires i < |w.phases|
  {
    w.(phases := w.phases[i := if w.core.stop then Exited else if w.core.paused then Waiting else Ready])
  }

  function AllocateStep(w: World, i: nat, batch: Word): World
    requires i < |w.phases|
  {
    var (core, work) := Claim(w.core, batch);
    match work
    case Some(k) =>
      w.(core := core,
         phases := w.phases[i := Scanning(|w.claims|, k)],
         claims := w.claims + [ClaimRecord(i, |w.posted|, w.pauses, k.start, k.count)],
         credits := w.credits + [0])
    case None =>
      w.(core := core,
         phases := w.phases[i := Waiting],
         raised := if w.core.valid && !core.valid then w.raised + [|w.posted|] else w.raised)
  }

  function FateOf(c: Core, work: Work): Fate {
    if !Current(c, work) then Stale else if |c.shares| < SHARE_QUEUE_SIZE then Queued else Full
  }

  function NonceOf(work: Work, offset: nat): Word {
    (work.start + offset) % 0x1_0000_0000
  }

  /** A claim's scan has reported this nonce before. */
  predicate Known(matches: seq<MatchRecord>, claim: nat, nonce: Word) {
    exists k :: 0 <= k < |matches| && matches[k].claim == claim && matches[k].share.nonce == nonce
  }

  /** What a scan calls back for: the nonces of its range that win, each once. */
  predicate CanFind(w: World, i: nat, offset: nat) {
    && i < |w.phases| && w.phases[i].Scanning?
    && var Scanning(claim, work) := w.phases[i];
      && offset < work.count
      && |work.job.header| == 80
      && Scan.Wins(work.job.header, work.job.target, NonceOf(work, offset))
      && !Known(w.matches, claim, NonceOf(work, offset))
  }

  function FoundStep(w: World, i: nat, offset: nat): World
    requires CanFind(w, i, offset)
  {
    hide Scan.Wins, Known, Report;
    var Scanning(claim, work) := w.phases[i];
    var nonce := NonceOf(work, offset);
    var hash := Scan.NonceHash(work.job.header, nonce);
    var fate := FateOf(w.core, work);
    w.(core := Report(w.core, work, nonce, hash),
       matches := w.matches + [MatchRecord(claim, ShareOf(work, nonce, hash), fate)],
       queue := if fate.Queued? then w.queue + [|w.matches|] else w.queue)
  }

  function FinishStep(w: World, i: nat): World
    requires i < |w.phases| && w.phases[i].Scanning?
  {
    var Scanning(claim, work) := w.phases[i];
    w.(core := Credit(w.core, i, work),
       phases := w.phases[i := Top],
       credits := if Current(w.core, work) && claim < |w.credits|
                  then w.credits[claim := w.credits[claim] + 1]
                  else w.credits)
  }

  function NewJobStep(w: World, job: PublicJob): World {
    w.(core := SetJob(w.core, job),
       phases := Broadcast(w.phases),
       posted := w.posted + [job],
       matches := ClearQueued(w.matches),
       queue := [])
  }

  function PauseStep(w: World, paused: bool): World {
    w.(core := SetPaused(w.core, paused),
       phases := Broadcast(w.phases),
       pauses := if !w.core.paused && paused then w.pauses + 1 else w.pauses)
  }

  function DeliverStep(w: World): World {
    var (core, share) := PopShare(w.core);
    if share.None? || w.queue == [] || w.queue[0] >= |w.matches| then w
    else
      var k := w.queue[0];
      w.(core := core, queue := w.queue[1..], popped := w.popped + [k],
         matches := w.matches[k := w.matches[k].(fate := Popped)])
  }

  predicate AllExited(phases: seq<Phase>) {
    forall i :: 0 <= i < |phases| ==> phases[i].Exited?
  }

  /** One critical section of one thread; an action that does not fit the state does nothing. */
  function Step(w: World, action: Action): World {
    match action
    case Observe(i) => if i < |w.phases| && w.phases[i].Top? then ObserveStep(w, i) else w
    case Allocate(i, batch) => if i < |w.phases| && w.phases[i].Ready? then AllocateStep(w, i, batch) else w
    case Found(i, offset) => if CanFind(w, i, offset) then FoundStep(w, i, offset) else w
    case Finish(i) => if i < |w.phases| && w.phases[i].Scanning? then FinishStep(w, i) else w
    // A failed GPU scan gives its range up.
    case Fail(i) => if i < |w.phases| && w.phases[i].Scanning? then w.(phases := w.phases[i := Top]) else w
    case Check(i) =>
      if i < |w.phases| && w.phases[i].Waiting?
      then w.(phases := w.phases[i := if MustWait(w.core) then Blocked else Top]) else w
    // pthread_cond_wait may also return without a broadcast.
    case Wake(i) => if i < |w.phases| && w.phases[i].Blocked? then w.(phases := w.phases[i := Waiting]) else w
    case NewJob(job) => NewJobStep(w, job)
    case Pause(paused) => PauseStep(w, paused)
    case AskExhausted =>
      w.(core := TakeExhausted(w.core).0,
         taken := if w.core.exhausted then w.taken + [|w.posted|] else w.taken)
    case Deliver => DeliverStep(w)
    case Shutdown =>
      if w.core.started then w.(core := Stop(w.core), phases := Broadcast(w.phases)) else w
    // miner_stop goes on when every worker has ended.
    case Join => if w.core.stop && AllExited(w.phases) then w.(core := Joined(w.core)) else w
  }

  function Run(w: World, actions: seq<Action>): World {
    if actions == [] then w else Step(Run(w, actions[..|actions| - 1]), actions[|actions| - 1])
  }

  lemma {:induction false} RunAppend(w: World, first: seq<Action>, second: seq<Action>)
    ensures Run(w, first + second) == Run(Run(w, first), second)
    decreases |second|
  {
    hide Step;
    if second == [] {
      assert first + second == first;
    } else {
      var n := |second| - 1;
      assert (first + second)[..|first + second| - 1] == first + second[..n];
      RunAppend(w, first, second[..n]);
    }
  }
}
