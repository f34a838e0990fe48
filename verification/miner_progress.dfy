/** What the critical sections of src/miner.c do, in terms of the miner's fields, and that
    the miner gets its work done: workers with work to do take it, callbacks are queued,
    finished scans are credited. */
module MinerProgress {
  import opened Options
  import opened Words
  import opened Digits
  import opened Target
  import opened MinerCore
  import opened MinerWorld
  import opened MinerInvariants
  import opened MinerTheorems
  import Scan

  // ---- Single steps ----

  /** The allocator grants exactly when the miner runs, is not paused and has a valid job
      with nonces left; the range begins at the next nonce and is as long as asked for, or
      262144 when nothing is asked for, or what is left. */
  lemma ClaimExact(c: Core, batch: Word)
    ensures var (d, work) := Claim(c, batch);
      var wanted := if batch == 0 then 262144 else batch;
      var left := 0x1_0000_0000 - c.nextNonce;
      var runs := !c.stop && !c.paused && c.valid;
      if runs && left > 0 then
        var count := if wanted < left then wanted else left;
        work == Some(Work(c.seqNo, c.pauseEpoch, c.job, c.nextNonce, count)) && d == c.(nextNonce := c.nextNonce + count)
      else work == None && d == if runs then c.(valid := false, exhausted := true) else c
  {
  }

  /** The loop top sends a worker home on a stop, to the wait on a pause, and to the
      allocator otherwise. */
  lemma ObserveExact(w: World, i: nat)
    requires i < |w.phases| && w.phases[i].Top?
    ensures Step(w, Observe(i)) == w.(phases := w.phases[i :=
      if w.core.stop then Exited else if w.core.paused then Waiting else Ready])
  {
  }

  /** A worker that checks the wait condition goes on exactly when the miner is stopped, or
      runs unpaused with a valid job. */
  lemma CheckExact(w: World, i: nat)
    requires i < |w.phases| && w.phases[i].Waiting?
    ensures var go := w.core.stop || (!w.core.paused && w.core.valid);
      Step(w, Check(i)) == w.(phases := w.phases[i := if go then Top else Blocked])
  {
  }

  // ---- What the controller's steps add up to ----

  /** The argument of the last pause or resume. */
  function LastPause(actions: seq<Action>): bool {
    if actions == [] then false
    else
      var n := |actions| - 1;
      if actions[n].Pause? then actions[n].paused else LastPause(actions[..n])
  }

  function JobsOf(actions: seq<Action>): seq<PublicJob> {
    if actions == [] then []
    else
      var n := |actions| - 1;
      JobsOf(actions[..n]) + if actions[n].NewJob? then [actions[n].job] else []
  }

  lemma StopStep(w: World, action: Action)
    requires !w.core.started ==> w.core.stop
    ensures var v := Step(w, action);
      (!v.core.started ==> v.core.stop) && (v.core.stop <==> w.core.stop || action.Shutdown?)
  {
    hide CanFind, Known, AllExited, Broadcast, ClearQueued, Plus, ShareOf, NonceOf, FateOf, Scan.NonceHash;
  }

  lemma PausedStep(w: World, action: Action)
    ensures Step(w, action).core.paused == if action.Pause? then action.paused else w.core.paused
  {
    hide CanFind, Known, AllExited, Broadcast, ClearQueued, Plus, ShareOf, NonceOf, FateOf, Scan.NonceHash;
  }

  /** After any run the miner is paused as last told, its jobs are those assigned, in
      order, with the last one current, and it is stopped if it was told to. */
  lemma {:induction false} ControlFollows(workers: nat, noJob: PublicJob, actions: seq<Action>)
    ensures var w := Run(Start(workers, noJob), actions);
      && (!w.core.started ==> w.core.stop)
      && w.core.paused == LastPause(actions)
      && w.posted == JobsOf(actions)
      && (w.core.stop <==> Shutdown in actions)
      && w.core.job == if w.posted == [] then noJob else w.posted[|w.posted| - 1]
  {
    hide Step;
    if actions != [] {
      var n := |actions| - 1;
      ControlFollows(workers, noJob, actions[..n]);
      var w := Run(Start(workers, noJob), actions[..n]);
      StopStep(w, actions[n]);
      PausedStep(w, actions[n]);
      JobStep(w, actions[n]);
      JobPosted(w, actions[n]);
      assert actions == actions[..n] + [actions[n]];
    }
  }

  lemma JobStep(w: World, action: Action)
    ensures Step(w, action).core.job == if action.NewJob? then action.job else w.core.job
  {
    hide CanFind, Known, AllExited, Broadcast, ClearQueued, Plus;
  }

  lemma JoinedStep(w: World, action: Action)
    requires !w.core.started ==> AllExited(w.phases)
    ensures var v := Step(w, action);
      && (!v.core.started ==> AllExited(v.phases))
      && (action.Join? && w.core.stop && AllExited(w.phases) ==> !v.core.started)
  {
    hide CanFind, Known, ClearQueued, Plus, ShareOf, NonceOf, FateOf, Scan.NonceHash;
  }

  /** The miner counts as not started only when all workers have ended, and then joining
      them is what makes it so. */
  lemma {:induction false} JoinedMeansEnded(workers: nat, noJob: PublicJob, actions: seq<Action>)
    ensures var w := Run(Start(workers, noJob), actions);
      && (!w.core.started ==> AllExited(w.phases))
      && (w.core.stop && AllExited(w.phases) ==> !Step(w, Join).core.started)
  {
    hide Step, AllExited;
    if actions != [] {
      var n := |actions| - 1;
      JoinedMeansEnded(workers, noJob, actions[..n]);
      JoinedStep(Run(Start(workers, noJob), actions[..n]), actions[n]);
    }
    JoinedStep(Run(Start(workers, noJob), actions), Join);
  }

  // ---- Workers take the work there is ----

  predicate HasWork(c: Core) {
    !c.stop && !c.paused && c.valid
  }

  /** There is work before, between and after the actions. */
  predicate AlwaysWork(w: World, actions: seq<Action>) {
    HasWork(Run(w, actions).core) && (actions == [] || AlwaysWork(w, actions[..|actions| - 1]))
  }

  /** How many of its own steps a worker is away from a range, if there is work. */
  function StepsToWork(p: Phase): nat {
    match p
    case Ready => 1
    case Top => 2
    case Scanning(_, _) => 3
    case Waiting => 3
    case Blocked => 4
    case Exited => 5
  }

  lemma StepToWork(w: World, action: Action, i: nat)
    requires Inv(w) && HasWork(w.core) && HasWork(Step(w, action).core)
    requires i < |w.phases| && !w.phases[i].Exited?
    ensures var v := Step(w, action);
      var own := Moves(action, i) && Fits(w.phases[i], action);
      && |v.phases| == |w.phases| && !v.phases[i].Exited? && !w.phases[i].Blocked? && w.claims <= v.claims
      && (if own && w.phases[i].Ready? then |v.claims| == |w.claims| + 1 && v.claims[|w.claims|].worker == i
          else StepsToWork(v.phases[i]) == StepsToWork(w.phases[i]) - if own then 1 else 0)
  {
    hide Frontier, Credited, CreditedTo, ExhaustOk, RaisedOk, HashesOk, ClaimsOk, MatchesOk, ScansOk, QueueOk, OncePerClaim;
    hide Winning, Known, Scan.Wins, Scan.NonceHash, ClearQueued, Plus, Report, Credit, AllExited;
  }

  /** A range was handed to worker i among the claims from number k on. */
  predicate Granted(claims: seq<ClaimRecord>, k: nat, i: nat) {
    exists j :: k <= j < |claims| && claims[j].worker == i
  }

  /** As long as the miner runs unpaused with a valid job, a worker that has taken three
      steps of its own, or as many fewer as it was nearer, has been handed a range,
      whatever the other threads do in between; until then each of its steps brings it one
      nearer. So no worker idles beside work. */
  lemma {:induction false} WorkIsTaken(workers: nat, noJob: PublicJob, before: seq<Action>, actions: seq<Action>, i: nat)
    requires var w := Run(Start(workers, noJob), before);
      i < |w.phases| && !w.phases[i].Exited? && AlwaysWork(w, actions)
    ensures var w := Run(Start(workers, noJob), before);
      var v := Run(w, actions);
      && |v.phases| == |w.phases| && !v.phases[i].Exited? && StepsToWork(w.phases[i]) <= 3 && w.claims <= v.claims
      && (Granted(v.claims, |w.claims|, i) || StepsToWork(v.phases[i]) + OwnSteps(w, actions, i) == StepsToWork(w.phases[i]))
      && (OwnSteps(w, actions, i) >= StepsToWork(w.phases[i]) ==> Granted(v.claims, |w.claims|, i))
    decreases |actions|
  {
    hide Step, Inv, Moves, Fits, HasWork;
    var w := Run(Start(workers, noJob), before);
    if actions == [] {
      RunInv(workers, noJob, before);
      NotBlocked(w, i);
    } else {
      var n := |actions| - 1;
      WorkIsTaken(workers, noJob, before, actions[..n], i);
      RunAppend(Start(workers, noJob), before, actions[..n]);
      RunInv(workers, noJob, before + actions[..n]);
      var u := Run(w, actions[..n]);
      WorkNow(w, actions[..n]);
      StepToWork(u, actions[n], i);
      var v := Run(w, actions);
      if Granted(u.claims, |w.claims|, i) {
        var j :| |w.claims| <= j < |u.claims| && u.claims[j].worker == i;
        assert v.claims[j] == u.claims[j];
      }
    }
  }

  lemma WorkNow(w: World, actions: seq<Action>)
    requires AlwaysWork(w, actions)
    ensures HasWork(Run(w, actions).core)
  {
  }

  lemma NotBlocked(w: World, i: nat)
    requires Inv(w) && HasWork(w.core) && i < |w.phases|
    ensures !w.phases[i].Blocked?
  {
  }

  // ---- What becomes of callbacks and finished scans ----

  /** A worker still scans the range it was granted, fewer than 2^64 steps after the grant. */
  ghost predicate StillScanning(workers: nat, noJob: PublicJob, before: seq<Action>, batch: Word, i: nat, after: seq<Action>) {
    var o := Run(Start(workers, noJob), before);
    && i < |o.phases| && o.phases[i].Ready? && Claim(o.core, batch).1.Some? && |after| < WRAP
    && var a := Step(o, Allocate(i, batch));
      var b := Run(a, after);
      i < |a.phases| && i < |b.phases| && b.phases[i] == a.phases[i]
  }

  lemma CurrentThen(workers: nat, noJob: PublicJob, before: seq<Action>, batch: Word, i: nat, after: seq<Action>)
    requires StillScanning(workers, noJob, before, batch, i, after)
    ensures var a := Step(Run(Start(workers, noJob), before), Allocate(i, batch));
      var b := Run(a, after);
      && Inv(b) && i < |b.phases| && b.phases[i].Scanning?
      && (Current(b.core, b.phases[i].work) <==> !Disturbed(a, after))
  {
    hide Run, Step, Disturbed, Inv, Claim, Current;
    CurrencyExact(workers, noJob, before, batch, i, after);
    RunInv(workers, noJob, before + [Allocate(i, batch)] + after);
    RunAppend(Start(workers, noJob), before + [Allocate(i, batch)], after);
    RunSnoc(Start(workers, noJob), before, Allocate(i, batch));
  }

  /** The share that a callback at this offset of the work stands for. */
  function ShareAt(work: Work, offset: nat): Share
    requires |work.job.header| == 80
  {
    var nonce := (work.start + offset) % 0x1_0000_0000;
    var hash := Scan.NonceHash(work.job.header, nonce);
    Share(work.seqNo, nonce, hash, DifficultyOf(Value(hash, 0x100)), work.job.text)
  }

  /** From b to v a share was reported for a claim and met its fate: it is the last match,
      and joins the end of the queue if and only if it is queued. */
  ghost predicate Reported(b: World, v: World, claim: nat, share: Share, fate: Fate) {
    && v.matches == b.matches + [MatchRecord(claim, share, fate)]
    && v.core.shares == (if fate.Queued? then b.core.shares + [share] else b.core.shares)
    && v.queue == (if fate.Queued? then b.queue + [|b.matches|] else b.queue)
  }

  lemma FoundIsReported(b: World, i: nat, offset: nat)
    requires CanFind(b, i, offset)
    ensures var work := b.phases[i].work;
      Reported(b, Step(b, Found(i, offset)), b.phases[i].claim, ShareAt(work, offset),
        if !Current(b.core, work) then Stale else if |b.core.shares| < 256 then Queued else Full)
  {
    hide Known, Current, Scan.NonceHash, Scan.Wins, Value, DifficultyOf;
  }

  /** A callback becomes a match with the share it stands for. The share is queued exactly
      when nothing disturbed the claim since its grant and fewer than 256 shares wait. */
  lemma CallbackFate(workers: nat, noJob: PublicJob, before: seq<Action>, batch: Word, i: nat, after: seq<Action>, offset: nat)
    requires StillScanning(workers, noJob, before, batch, i, after)
    requires CanFind(Run(Step(Run(Start(workers, noJob), before), Allocate(i, batch)), after), i, offset)
    ensures var a := Step(Run(Start(workers, noJob), before), Allocate(i, batch));
      var b := Run(a, after);
      Reported(b, Step(b, Found(i, offset)), b.phases[i].claim, ShareAt(b.phases[i].work, offset),
        if Disturbed(a, after) then Stale else if |b.core.shares| < 256 then Queued else Full)
  {
    hide Run, Step, Disturbed, Inv, Known, Current, Scan.Wins, ShareAt, Reported;
    CurrentThen(workers, noJob, before, batch, i, after);
    FoundIsReported(Run(Step(Run(Start(workers, noJob), before), Allocate(i, batch)), after), i, offset);
  }

  /** A finished scan is credited, with all its nonces, exactly when nothing disturbed its
      claim; a failed one never is. */
  lemma ScanCredited(workers: nat, noJob: PublicJob, before: seq<Action>, batch: Word, i: nat, after: seq<Action>)
    requires StillScanning(workers, noJob, before, batch, i, after)
    ensures var a := Step(Run(Start(workers, noJob), before), Allocate(i, batch));
      var b := Run(a, after);
      var v, claim, count := Step(b, Finish(i)), b.phases[i].claim, b.phases[i].work.count;
      var gain := if Disturbed(a, after) then 0 else count;
      && i < |b.core.workerHashes| == |v.core.workerHashes| && claim < |v.credits|
      && v.core.hashes == (b.core.hashes + gain) % WRAP
      && v.core.workerHashes[i] == (b.core.workerHashes[i] + gain) % WRAP
      && (forall j :: 0 <= j < |v.core.workerHashes| && j != i ==> v.core.workerHashes[j] == b.core.workerHashes[j])
      && v.credits[claim] == (if Disturbed(a, after) then 0 else 1)
      && v.phases == b.phases[i := Top] && Step(b, Fail(i)) == b.(phases := b.phases[i := Top])
  {
    hide Run, Disturbed, Inv, Current;
    CurrentThen(workers, noJob, before, batch, i, after);
    var b := Run(Step(Run(Start(workers, noJob), before), Allocate(i, batch)), after);
    ScanAt(b, i);
    CountersFit(b);
  }

  lemma CountersFit(w: World)
    requires Inv(w)
    ensures |w.core.workerHashes| == |w.phases| && |w.claims| == |w.credits|
  {
    hide Frontier, Credited, CreditedTo, MatchesOk, ScansOk, QueueOk;
  }
}
