/** Properties of every run of the workers and the controller. */
module MinerTheorems {
  import opened Options
  import opened Words
  import opened MinerCore
  import opened MinerWorld
  import opened MinerInvariants

  // ---- Nonces are handed out once ----

  predicate Covers(c: ClaimRecord, g: nat, n: nat) {
    c.job == g && c.start <= n < c.start + c.count
  }

  /** How many claims of job g contain nonce n. */
  function Holders(claims: seq<ClaimRecord>, g: nat, n: nat): nat {
    if claims == [] then 0
    else Holders(claims[..|claims| - 1], g, n) + if Covers(claims[|claims| - 1], g, n) then 1 else 0
  }

  lemma {:induction false} RangesTile(claims: seq<ClaimRecord>, jobs: nat, pauses: nat, workers: nat, g: nat, n: nat)
    requires ClaimsOk(claims, jobs, pauses, workers)
    ensures Holders(claims, g, n) == if n < Frontier(claims, g) then 1 else 0
    ensures Frontier(claims, g) <= ALL_NONCES
  {
    if claims != [] {
      var k := |claims| - 1;
      ClaimsPrefix(claims, jobs, pauses, workers);
      RangesTile(claims[..k], jobs, pauses, workers, g, n);
    }
  }

  lemma ClaimsPrefix(claims: seq<ClaimRecord>, jobs: nat, pauses: nat, workers: nat)
    requires ClaimsOk(claims, jobs, pauses, workers) && claims != []
    ensures ClaimsOk(claims[..|claims| - 1], jobs, pauses, workers)
  {
    hide Frontier;
    var rest := claims[..|claims| - 1];
    forall k | 0 <= k < |rest| ensures rest[..k] == claims[..k] {
    }
  }

  /** In every reachable state each nonce of a job is held by exactly one claim of that
      job if it is below the job's frontier and by none otherwise, and the frontier of
      the current job is next_nonce. */
  lemma NoncesHandedOutOnce(workers: nat, noJob: PublicJob, actions: seq<Action>, g: nat, n: nat)
    ensures var w := Run(Start(workers, noJob), actions);
      && Holders(w.claims, g, n) == (if n < Frontier(w.claims, g) then 1 else 0)
      && w.core.nextNonce == Frontier(w.claims, |w.posted|)
  {
    hide Run, Holders, Frontier, ClaimsOk;
    RunInv(workers, noJob, actions);
    var w := Run(Start(workers, noJob), actions);
    RangesTile(w.claims, |w.posted|, w.pauses, |w.phases|, g, n);
  }

  /** Exhaustion is raised and reported at most once a job, only after every nonce of
      the job was handed out; a job is valid exactly until it is raised, and the flag is
      up exactly between raising and reporting. */
  lemma ExhaustionExact(workers: nat, noJob: PublicJob, actions: seq<Action>)
    ensures var w := Run(Start(workers, noJob), actions);
      && Increasing(w.raised) && Increasing(w.taken)
      && (forall g :: g in w.taken ==> g in w.raised)
      && (forall g, n: nat :: g in w.raised && n < ALL_NONCES ==> Holders(w.claims, g, n) == 1)
      && (w.core.valid <==> w.posted != [] && |w.posted| !in w.raised)
      && (w.core.exhausted <==> |w.posted| in w.raised && |w.posted| !in w.taken)
  {
    hide Run, Holders, Frontier;
    RunInv(workers, noJob, actions);
    var w := Run(Start(workers, noJob), actions);
    forall g, n: nat | g in w.raised && n < ALL_NONCES ensures Holders(w.claims, g, n) == 1 {
      RangesTile(w.claims, |w.posted|, w.pauses, |w.phases|, g, n);
    }
  }

  lemma JobPosted(w: World, action: Action)
    ensures Step(w, action).posted == if action.NewJob? then w.posted + [action.job] else w.posted
  {
    hide CanFind, Known, AllExited;
  }

  // ---- Which results are current ----

  /** The steps that are to make earlier claims stale. */
  predicate Disturbs(w: World, action: Action) {
    match action
    case NewJob(_) => true
    case Pause(paused) => paused && !w.core.paused
    case Shutdown => w.core.started
    case _ => false
  }

  predicate Disturbed(w: World, actions: seq<Action>) {
    if actions == [] then false
    else
      var n := |actions| - 1;
      Disturbed(w, actions[..n]) || Disturbs(Run(w, actions[..n]), actions[n])
  }

  lemma StepDrift(a: World, action: Action)
    ensures var b := Step(a, action);
      && |a.posted| <= |b.posted| <= |a.posted| + 1 && a.pauses <= b.pauses <= a.pauses + 1
      && (a.core.stop ==> b.core.stop)
      && (Disturbs(a, action) ==> |b.posted| > |a.posted| || b.pauses > a.pauses || b.core.stop)
      && (!Disturbs(a, action) ==> |b.posted| == |a.posted| && b.pauses == a.pauses && b.core.stop == a.core.stop)
      && (b.core.paused && !a.core.paused ==> b.pauses > a.pauses)
  {
    hide CanFind, Known, AllExited, Broadcast, ClearQueued, Plus;
  }

  lemma {:induction false} RunDrift(a: World, actions: seq<Action>)
    ensures var b := Run(a, actions);
      && |a.posted| <= |b.posted| <= |a.posted| + |actions| && a.pauses <= b.pauses <= a.pauses + |actions|
      && (a.core.stop ==> b.core.stop)
      && (Disturbed(a, actions) ==> |b.posted| > |a.posted| || b.pauses > a.pauses || b.core.stop)
      && (!Disturbed(a, actions) ==> |b.posted| == |a.posted| && b.pauses == a.pauses && b.core.stop == a.core.stop)
      && (b.core.paused && !a.core.paused ==> b.pauses > a.pauses)
  {
    hide Step, Disturbs;
    if actions != [] {
      var n := |actions| - 1;
      RunDrift(a, actions[..n]);
      StepDrift(Run(a, actions[..n]), actions[n]);
    }
  }

  lemma SameResidue(a: nat, b: nat)
    requires a <= b < a + WRAP
    ensures a % WRAP == b % WRAP <==> a == b
  {
    if a % WRAP == b % WRAP {
      assert (b - a) % WRAP == 0;
    }
  }

  /** Work granted in a reachable state is current exactly when the miner runs and the
      jobs and pauses since then are multiples of 2^64. So as long as fewer than 2^64
      steps follow, it is current exactly when none of them assigned a job, stopped the
      miner or went from running to paused; resuming again does not make it current, and
      exhausting the range does not make it stale. */
  lemma CurrencyExact(workers: nat, noJob: PublicJob, before: seq<Action>, batch: Word, i: nat, after: seq<Action>)
    requires var a := Run(Start(workers, noJob), before);
      i < |a.phases| && a.phases[i].Ready? && Claim(a.core, batch).1.Some?
    ensures var a := Step(Run(Start(workers, noJob), before), Allocate(i, batch));
      var b := Run(a, after);
      && a.phases[i].Scanning?
      && (Current(b.core, a.phases[i].work) <==>
        !b.core.stop && !b.core.paused && |b.posted| % WRAP == |a.posted| % WRAP && b.pauses % WRAP == a.pauses % WRAP)
      && (|after| < WRAP ==> (Current(b.core, a.phases[i].work) <==> !Disturbed(a, after)))
  {
    hide Run, Disturbed, Inv, ClaimsOk, ExhaustOk, RaisedOk, MatchesOk, QueueOk, HashesOk;
    var o := Run(Start(workers, noJob), before);
    RunInv(workers, noJob, before);
    GrantedWork(o, i, batch);
    var a := Step(o, Allocate(i, batch));
    var b := Run(a, after);
    RunDrift(a, after);
    RunInv(workers, noJob, before + [Allocate(i, batch)] + after);
    RunAppend(Start(workers, noJob), before + [Allocate(i, batch)], after);
    RunSnoc(Start(workers, noJob), before, Allocate(i, batch));
    Residues(b);
    if |after| < WRAP {
      SameResidue(|a.posted|, |b.posted|);
      SameResidue(a.pauses, b.pauses);
    }
  }

  /** The sequence number wraps: after exactly 2^64 new jobs an old result passes. */
  lemma OldResultPassesAfterWrap(a: World, work: Work, job: PublicJob)
    requires Current(a.core, work)
    ensures var after := seq(WRAP, _ => NewJob(job));
      Disturbed(a, after) && Current(Run(a, after).core, work)
  {
    hide Run, Disturbed;
    JobsOnly(a, job, WRAP);
  }

  lemma {:induction false} JobsOnly(a: World, job: PublicJob, n: nat)
    ensures var after := seq(n, _ => NewJob(job));
      var b := Run(a, after);
      && b.core.seqNo == (a.core.seqNo + n) % WRAP && b.core.pauseEpoch == a.core.pauseEpoch
      && b.core.stop == a.core.stop && b.core.paused == a.core.paused
      && (n > 0 ==> Disturbed(a, after))
  {
    hide Run, Step, Plus;
    var after := seq(n, _ => NewJob(job));
    if n == 0 {
      assert after == [];
      EmptyRun(a);
    } else {
      var most := seq(n - 1, _ => NewJob(job));
      JobsOnly(a, job, n - 1);
      assert after == most + [NewJob(job)] && after[..n - 1] == most;
      RunSnoc(a, most, NewJob(job));
      NewJobCore(Run(a, most), job);
      PlusWraps(a.core.seqNo + (n - 1), 1);
    }
  }

  lemma EmptyRun(a: World)
    ensures Run(a, []) == a
  {
  }

  lemma NewJobCore(a: World, job: PublicJob)
    ensures Step(a, NewJob(job)).core == SetJob(a.core, job)
  {
  }

  lemma RunSnoc(w: World, actions: seq<Action>, action: Action)
    ensures Run(w, actions + [action]) == Step(Run(w, actions), action)
  {
    hide Step;
    assert (actions + [action])[..|actions + [action]| - 1] == actions;
  }

  lemma Residues(w: World)
    requires Inv(w)
    ensures w.core.seqNo == |w.posted| % WRAP && w.core.pauseEpoch == w.pauses % WRAP
  {
  }

  lemma GrantedWork(o: World, i: nat, batch: Word)
    requires Inv(o) && i < |o.phases| && o.phases[i].Ready? && Claim(o.core, batch).1.Some?
    ensures var a := Step(o, Allocate(i, batch));
      && a.phases[i].Scanning? && !a.core.stop && !a.core.paused
      && a.phases[i].work.seqNo == |a.posted| % WRAP && a.phases[i].work.epoch == a.pauses % WRAP
  {
    Residues(o);
  }

  // ---- Shares ----

  /** The queue holds at most 256 shares, oldest first, and delivery follows the order
      in which matches were found. While fewer than 2^64 jobs were assigned, every queued
      share belongs to the current job and to a range claimed for it. */
  lemma QueueIsFifo(workers: nat, noJob: PublicJob, actions: seq<Action>)
    ensures var w := Run(Start(workers, noJob), actions);
      && |w.core.shares| == |w.queue| <= SHARE_QUEUE_SIZE
      && Increasing(w.popped + w.queue)
      && (forall k :: 0 <= k < |w.matches| ==>
        && (w.matches[k].fate.Queued? <==> k in w.queue)
        && (w.matches[k].fate.Popped? <==> k in w.popped))
      && forall j :: 0 <= j < |w.queue| ==>
        && w.queue[j] < |w.matches|
        && var m := w.matches[w.queue[j]];
          && w.core.shares[j] == m.share && m.share.seqNo == w.core.seqNo && m.claim < |w.claims|
          && (|w.posted| <= WRAP ==>
            w.claims[m.claim].job == |w.posted| && m.share.text == w.core.job.text
            && Covers(w.claims[m.claim], |w.posted|, m.share.nonce))
  {
    hide Run, Inv, Frontier, Increasing, Winning;
    var w := Run(Start(workers, noJob), actions);
    RunInv(workers, noJob, actions);
    QueueParts(w);
    forall j | 0 <= j < |w.queue| && |w.posted| <= WRAP
      ensures w.claims[w.matches[w.queue[j]].claim].job == |w.posted|
    {
      var c := w.claims[w.matches[w.queue[j]].claim];
      SameResidue(c.job, |w.posted|);
    }
  }

  lemma QueueParts(w: World)
    requires Inv(w)
    ensures MatchesOk(w.matches, w.claims, w.posted)
    ensures QueueOk(w.matches, w.queue, w.popped, w.core.shares, w.core.seqNo)
    ensures w.core.seqNo == |w.posted| % WRAP
    ensures w.posted != [] ==> w.core.job == w.posted[|w.posted| - 1]
  {
    hide MatchesOk, QueueOk;
  }

  /** A match keeps its share for ever; once it is not queued any more its fate is
      settled, and it leaves the queue only by delivery or by a new job. */
  lemma FateSettles(a: World, action: Action, k: nat)
    requires k < |a.matches|
    ensures var b := Step(a, action);
      && k < |b.matches| && b.matches[k].share == a.matches[k].share && b.matches[k].claim == a.matches[k].claim
      && (Inv(a) && b.matches[k].fate != a.matches[k].fate ==>
        a.matches[k].fate.Queued? && if action.Deliver? then b.matches[k].fate.Popped? && k == a.queue[0]
          else action.NewJob? && b.matches[k].fate.Cleared?)
  {
    hide Frontier, Credited, CreditedTo, ExhaustOk, RaisedOk, HashesOk, ClaimsOk, MatchesOk, ScansOk, Increasing, OncePerClaim, Winning;
  }

  lemma {:induction false} FateSettlesOverRuns(workers: nat, noJob: PublicJob, before: seq<Action>, after: seq<Action>, k: nat)
    requires k < |Run(Start(workers, noJob), before).matches|
    ensures var a, b := Run(Start(workers, noJob), before), Run(Start(workers, noJob), before + after);
      && k < |b.matches| && b.matches[k].share == a.matches[k].share
      && (!a.matches[k].fate.Queued? ==> b.matches[k].fate == a.matches[k].fate)
    decreases |after|
  {
    hide Step, Inv;
    if after == [] {
      assert before + after == before;
    } else {
      var n := |after| - 1;
      FateSettlesOverRuns(workers, noJob, before, after[..n], k);
      assert before + after == before + after[..n] + [after[n]];
      RunSnoc(Start(workers, noJob), before + after[..n], after[n]);
      RunInv(workers, noJob, before + after[..n]);
      FateSettles(Run(Start(workers, noJob), before + after[..n]), after[n], k);
    }
  }

  /** What a pop returns is the oldest queued match, and it is popped once. */
  lemma DeliveredShare(workers: nat, noJob: PublicJob, actions: seq<Action>)
    ensures var w := Run(Start(workers, noJob), actions);
      var share := PopShare(w.core).1;
      if w.queue == [] then share.None? && Step(w, Deliver) == w
      else
        && w.queue[0] < |w.matches| && share == Some(w.matches[w.queue[0]].share)
        && w.queue[0] !in w.popped && Step(w, Deliver).popped == w.popped + [w.queue[0]]
  {
    hide Run, Inv, MatchesOk;
    var w := Run(Start(workers, noJob), actions);
    RunInv(workers, noJob, actions);
    QueueParts(w);
    assert w.queue != [] ==> w.queue[0] in w.queue;
  }

  /** What a share is worth: it carries the texts of a posted job and the double hash of
      that job's header with its nonce, which is at most that job's target. */
  ghost predicate Earned(share: Share, posted: seq<PublicJob>) {
    exists g :: 0 <= g < |posted| && share.text == posted[g].text && Winning(posted[g], share.nonce, share.hash)
  }

  /** Every match ever reported, whatever became of it, is earned, and so is every share
      that a pop returns; while fewer than 2^64 jobs were assigned, that one by the current
      job. */
  lemma SharesAreEarned(workers: nat, noJob: PublicJob, actions: seq<Action>)
    ensures var w := Run(Start(workers, noJob), actions);
      && (forall k :: 0 <= k < |w.matches| ==> Earned(w.matches[k].share, w.posted))
      && var popped := PopShare(w.core).1;
        popped.Some? ==>
          && Earned(popped.value, w.posted)
          && (|w.posted| <= WRAP ==>
            popped.value.text == w.core.job.text && Winning(w.core.job, popped.value.nonce, popped.value.hash))
  {
    hide Run, Inv, Winning, Increasing, QueueOk, PopShare;
    var w := Run(Start(workers, noJob), actions);
    RunInv(workers, noJob, actions);
    QueueParts(w);
    forall k | 0 <= k < |w.matches| ensures Earned(w.matches[k].share, w.posted) {
      assert MatchOk(w.matches[k], w.claims, w.posted);
      var g := w.claims[w.matches[k].claim].job - 1;
      assert Winning(w.posted[g], w.matches[k].share.nonce, w.matches[k].share.hash);
    }
    DeliveredShare(workers, noJob, actions);
    QueueIsFifo(workers, noJob, actions);
    if w.queue != [] {
      assert MatchOk(w.matches[w.queue[0]], w.claims, w.posted);
    }
  }

  lemma {:induction false} ClaimsApart(claims: seq<ClaimRecord>, j: nat, k: nat)
    requires j < k < |claims| && claims[j].job == claims[k].job
    requires claims[j].start == Frontier(claims[..j], claims[j].job)
    requires claims[k].start == Frontier(claims[..k], claims[k].job)
    ensures claims[j].start + claims[j].count <= claims[k].start
  {
    assert claims[..j + 1][..j] == claims[..j];
    FrontierGrows(claims, j + 1, k, claims[j].job);
  }

  lemma {:induction false} FrontierGrows(claims: seq<ClaimRecord>, i: nat, k: nat, g: nat)
    requires i <= k <= |claims|
    ensures Frontier(claims[..i], g) <= Frontier(claims[..k], g)
    decreases k
  {
    if i < k {
      FrontierGrows(claims, i, k - 1, g);
      assert claims[..k][..k - 1] == claims[..k - 1];
    }
  }

  lemma ClaimStarts(w: World)
    requires Inv(w)
    ensures forall k :: 0 <= k < |w.claims| ==>
      1 <= w.claims[k].job <= |w.posted| && w.claims[k].start == Frontier(w.claims[..k], w.claims[k].job)
    ensures MatchesOk(w.matches, w.claims, w.posted) && OncePerClaim(w.matches)
  {
    hide Frontier, MatchesOk, OncePerClaim;
  }

  /** No nonce of a job is ever reported twice. */
  lemma NoNonceReportedTwice(workers: nat, noJob: PublicJob, actions: seq<Action>, j: nat, k: nat)
    requires var w := Run(Start(workers, noJob), actions); j < k < |w.matches|
    ensures var w := Run(Start(workers, noJob), actions);
      var a, b := w.matches[j], w.matches[k];
      && a.claim < |w.claims| && b.claim < |w.claims|
      && (w.claims[a.claim].job == w.claims[b.claim].job ==> a.share.nonce != b.share.nonce)
  {
    hide Run, Inv, Frontier, Winning;
    var w := Run(Start(workers, noJob), actions);
    RunInv(workers, noJob, actions);
    ClaimStarts(w);
    ReportsApart(w.matches, w.claims, w.posted, j, k);
  }

  lemma ReportsApart(matches: seq<MatchRecord>, claims: seq<ClaimRecord>, posted: seq<PublicJob>, j: nat, k: nat)
    requires MatchesOk(matches, claims, posted) && OncePerClaim(matches) && j < k < |matches|
    requires forall i :: 0 <= i < |claims| ==> claims[i].start == Frontier(claims[..i], claims[i].job)
    ensures matches[j].claim < |claims| && matches[k].claim < |claims|
    ensures claims[matches[j].claim].job == claims[matches[k].claim].job ==>
      matches[j].share.nonce != matches[k].share.nonce
  {
    hide Frontier, Winning;
    assert MatchOk(matches[j], claims, posted) && MatchOk(matches[k], claims, posted);
    var x, y := matches[j].claim, matches[k].claim;
    if claims[x].job == claims[y].job {
      if x < y {
        ClaimsApart(claims, x, y);
      } else if y < x {
        ClaimsApart(claims, y, x);
      }
    }
  }

  // ---- Hash accounting ----

  function Sum(s: seq<Counter>): nat {
    if s == [] then 0 else Sum(s[..|s| - 1]) + s[|s| - 1]
  }

  /** The nonces handed out over the whole run. */
  function HandedOut(claims: seq<ClaimRecord>): nat {
    if claims == [] then 0 else HandedOut(claims[..|claims| - 1]) + claims[|claims| - 1].count
  }

  function CreditedToFirst(claims: seq<ClaimRecord>, credits: seq<nat>, n: nat): nat
    requires |claims| == |credits|
  {
    if n == 0 then 0 else CreditedToFirst(claims, credits, n - 1) + CreditedTo(claims, credits, n - 1)
  }

  lemma {:induction false} WorkersShareStep(claims: seq<ClaimRecord>, credits: seq<nat>, n: nat)
    requires |claims| == |credits| && claims != []
    ensures var k := |claims| - 1;
      CreditedToFirst(claims, credits, n) == CreditedToFirst(claims[..k], credits[..k], n)
        + if claims[k].worker < n then credits[k] * claims[k].count else 0
  {
    if n > 0 {
      WorkersShareStep(claims, credits, n - 1);
    }
  }

  lemma {:induction false} NoneCredited(n: nat)
    ensures CreditedToFirst([], [], n) == 0
  {
    if n > 0 {
      NoneCredited(n - 1);
    }
  }

  lemma {:induction false} WorkersShare(claims: seq<ClaimRecord>, credits: seq<nat>, n: nat)
    requires |claims| == |credits| && forall k :: 0 <= k < |claims| ==> claims[k].worker < n
    ensures CreditedToFirst(claims, credits, n) == Credited(claims, credits)
  {
    if claims == [] {
      NoneCredited(n);
    } else {
      WorkersShareStep(claims, credits, n);
      WorkersShare(claims[..|claims| - 1], credits[..|claims| - 1], n);
    }
  }

  lemma {:induction false} SumOfCounters(s: seq<Counter>, claims: seq<ClaimRecord>, credits: seq<nat>)
    requires |claims| == |credits|
    requires forall i :: 0 <= i < |s| ==> s[i] == CreditedTo(claims, credits, i) % WRAP
    ensures Sum(s) % WRAP == CreditedToFirst(claims, credits, |s|) % WRAP
  {
    hide CreditedTo;
    if s != [] {
      var n := |s| - 1;
      SumOfCounters(s[..n], claims, credits);
      AddResidues(Sum(s[..n]), CreditedToFirst(claims, credits, n), CreditedTo(claims, credits, n));
    }
  }

  lemma AddResidues(x: nat, y: nat, z: nat)
    requires x % WRAP == y % WRAP
    ensures (x + z % WRAP) % WRAP == (y + z) % WRAP
  {
  }

  lemma {:induction false} CreditBound(claims: seq<ClaimRecord>, credits: seq<nat>)
    requires |claims| == |credits| && forall k :: 0 <= k < |credits| ==> credits[k] <= 1
    ensures Credited(claims, credits) <= HandedOut(claims)
  {
    if claims != [] {
      CreditBound(claims[..|claims| - 1], credits[..|claims| - 1]);
      assert credits[|claims| - 1] == 0 || credits[|claims| - 1] == 1;
    }
  }

  function FrontierSum(claims: seq<ClaimRecord>, jobs: nat): nat {
    if jobs == 0 then 0 else FrontierSum(claims, jobs - 1) + Frontier(claims, jobs)
  }

  lemma {:induction false} FrontierSumStep(claims: seq<ClaimRecord>, jobs: nat)
    requires claims != [] && claims[|claims| - 1].job >= 1
    ensures var k := |claims| - 1;
      FrontierSum(claims, jobs) == FrontierSum(claims[..k], jobs) + if claims[k].job <= jobs then claims[k].count else 0
  {
    if jobs > 0 {
      FrontierSumStep(claims, jobs - 1);
    }
  }

  lemma {:induction false} NoFrontiers(jobs: nat)
    ensures FrontierSum([], jobs) == 0
  {
    if jobs > 0 {
      NoFrontiers(jobs - 1);
    }
  }

  lemma {:induction false} HandedOutByJob(claims: seq<ClaimRecord>, jobs: nat)
    requires forall k :: 0 <= k < |claims| ==> 1 <= claims[k].job <= jobs
    ensures HandedOut(claims) == FrontierSum(claims, jobs)
  {
    if claims == [] {
      NoFrontiers(jobs);
    } else {
      FrontierSumStep(claims, jobs);
      HandedOutByJob(claims[..|claims| - 1], jobs);
    }
  }

  lemma {:induction false} FrontierSumBound(claims: seq<ClaimRecord>, all: nat, jobs: nat, pauses: nat, workers: nat)
    requires ClaimsOk(claims, all, pauses, workers)
    ensures FrontierSum(claims, jobs) <= jobs * ALL_NONCES
  {
    hide Frontier, ClaimsOk;
    if jobs > 0 {
      FrontierSumBound(claims, all, jobs - 1, pauses, workers);
      RangesTile(claims, all, pauses, workers, jobs, 0);
    }
  }

  /** Each claimed range is credited at most once, the total and the per-worker counters
      agree modulo 2^64, and the credited hashes never exceed the nonces handed out,
      which are at most 2^32 a job. */
  lemma HashAccounting(workers: nat, noJob: PublicJob, actions: seq<Action>)
    ensures var w := Run(Start(workers, noJob), actions);
      && |w.claims| == |w.credits|
      && (forall k :: 0 <= k < |w.credits| ==> w.credits[k] <= 1)
      && w.core.hashes == Credited(w.claims, w.credits) % WRAP
      && Sum(w.core.workerHashes) % WRAP == w.core.hashes
      && Credited(w.claims, w.credits) <= HandedOut(w.claims) <= |w.posted| * ALL_NONCES
  {
    hide Run, Inv, Frontier, Credited, CreditedTo, HandedOut, Sum;
    var w := Run(Start(workers, noJob), actions);
    RunInv(workers, noJob, actions);
    HashParts(w);
    CreditBound(w.claims, w.credits);
    SumOfCounters(w.core.workerHashes, w.claims, w.credits);
    WorkersShare(w.claims, w.credits, |w.core.workerHashes|);
    HandedOutByJob(w.claims, |w.posted|);
    FrontierSumBound(w.claims, |w.posted|, |w.posted|, w.pauses, |w.phases|);
  }

  lemma HashParts(w: World)
    requires Inv(w)
    ensures HashesOk(w.core.hashes, w.core.workerHashes, w.claims, w.credits)
    ensures ClaimsOk(w.claims, |w.posted|, w.pauses, |w.phases|) && |w.phases| == |w.core.workerHashes|
  {
    hide HashesOk, ClaimsOk;
  }

  // ---- Waiting ----

  /** In every reachable state a worker blocked in the condition wait has nothing to do:
      the miner is not stopped and it is paused or has no valid job. */
  lemma {:induction false} NoLostWakeup(workers: nat, noJob: PublicJob, actions: seq<Action>, i: nat)
    requires var w := Run(Start(workers, noJob), actions); i < |w.phases| && w.phases[i].Blocked?
    ensures var core := Run(Start(workers, noJob), actions).core; !core.stop && (core.paused || !core.valid)
  {
    hide Run;
    RunInv(workers, noJob, actions);
  }

  /** How many of its own steps a worker still takes after a stop, apart from reporting
      matches of the scan it is in. */
  function StepsLeft(p: Phase): nat {
    match p
    case Exited => 0
    case Top => 1
    case Waiting => 2
    case Scanning(_, _) => 2
    case Blocked => 3
    case Ready => 3
  }

  predicate Moves(action: Action, i: nat) {
    match action
    case Observe(j) => i == j
    case Allocate(j, _) => i == j
    case Finish(j) => i == j
    case Fail(j) => i == j
    case Check(j) => i == j
    case Wake(j) => i == j
    case _ => false
  }

  predicate Fits(p: Phase, action: Action) {
    match p
    case Top => action.Observe?
    case Ready => action.Allocate?
    case Scanning(_, _) => action.Finish? || action.Fail?
    case Waiting => action.Check?
    case Blocked => action.Wake?
    case Exited => false
  }

  /** After a stop no worker is or gets blocked, every step of a worker that fits its
      phase brings it one step nearer to its exit, which is at most three steps away, and
      no other thread's step moves it. */
  lemma WorkersExitAfterStop(workers: nat, noJob: PublicJob, actions: seq<Action>, action: Action, i: nat)
    requires var w := Run(Start(workers, noJob), actions); w.core.stop && i < |w.phases|
    ensures var w := Run(Start(workers, noJob), actions);
      var v := Step(w, action);
      && |v.phases| == |w.phases| && v.core.stop && !w.phases[i].Blocked?
      && StepsLeft(w.phases[i]) <= 3
      && (if Moves(action, i) && Fits(w.phases[i], action)
          then StepsLeft(v.phases[i]) + 1 == StepsLeft(w.phases[i])
          else StepsLeft(v.phases[i]) == StepsLeft(w.phases[i]))
  {
    hide Run, Frontier, Credited, CreditedTo, ExhaustOk, RaisedOk, HashesOk, ClaimsOk, MatchesOk, ScansOk, QueueOk, OncePerClaim, Winning;
    RunInv(workers, noJob, actions);
  }

  /** How many of the actions are steps of worker i that fit its phase at that time. */
  function OwnSteps(w: World, actions: seq<Action>, i: nat): nat {
    if actions == [] then 0
    else
      var n := |actions| - 1;
      var v := Run(w, actions[..n]);
      OwnSteps(w, actions[..n], i)
      + if i < |v.phases| && Moves(actions[n], i) && Fits(v.phases[i], actions[n]) then 1 else 0
  }

  lemma {:induction false} OwnStepsCount(workers: nat, noJob: PublicJob, before: seq<Action>, after: seq<Action>, i: nat)
    requires var w := Run(Start(workers, noJob), before); w.core.stop && i < |w.phases|
    ensures var w := Run(Start(workers, noJob), before);
      var v := Run(w, after);
      && v.core.stop && |v.phases| == |w.phases|
      && StepsLeft(v.phases[i]) + OwnSteps(w, after, i) == StepsLeft(w.phases[i]) <= 3
    decreases |after|
  {
    hide Step, Moves, Fits, StepsLeft;
    var w := Run(Start(workers, noJob), before);
    if after == [] {
      WorkersExitAfterStop(workers, noJob, before, Deliver, i);
    } else {
      var n := |after| - 1;
      OwnStepsCount(workers, noJob, before, after[..n], i);
      RunAppend(Start(workers, noJob), before, after[..n]);
      WorkersExitAfterStop(workers, noJob, before + after[..n], after[n], i);
    }
  }

  /** After a stop, whatever the other threads do, a worker has ended exactly when it has
      taken the steps that its phase at the stop leaves it, reports of its scan not
      counted: none, one, two or three of them, and never more. */
  lemma WorkersEnd(workers: nat, noJob: PublicJob, before: seq<Action>, after: seq<Action>, i: nat)
    requires var w := Run(Start(workers, noJob), before); w.core.stop && i < |w.phases|
    ensures var w := Run(Start(workers, noJob), before);
      var v := Run(w, after);
      && i < |v.phases| && OwnSteps(w, after, i) <= StepsLeft(w.phases[i]) <= 3
      && (v.phases[i].Exited? <==> OwnSteps(w, after, i) >= StepsLeft(w.phases[i]))
  {
    hide Run, OwnSteps;
    OwnStepsCount(workers, noJob, before, after, i);
  }
}
