/** What every step of the workers and the controller keeps. */
module MinerInvariants {
  import opened Options
  import opened Words
  import opened Digits
  import opened Target
  import opened MinerCore
  import opened MinerWorld
  import Scan

  ghost predicate Increasing(s: seq<nat>) {
    forall i, j :: 0 <= i < j < |s| ==> s[i] < s[j]
  }

  /** How many nonces of job g were handed out. */
  function Frontier(claims: seq<ClaimRecord>, g: nat): nat {
    if claims == [] then 0
    else
      var last := claims[|claims| - 1];
      Frontier(claims[..|claims| - 1], g) + if last.job == g then last.count else 0
  }

  /** Every range starts where the earlier ranges of its job end. */
  ghost predicate ClaimsOk(claims: seq<ClaimRecord>, jobs: nat, pauses: nat, workers: nat) {
    forall k :: 0 <= k < |claims| ==>
      && claims[k].worker < workers
      && 1 <= claims[k].job <= jobs
      && claims[k].pauses <= pauses
      && 1 <= claims[k].count < ALL_NONCES
      && claims[k].start == Frontier(claims[..k], claims[k].job)
      && claims[k].start + claims[k].count <= ALL_NONCES
  }

  ghost predicate ExhaustOk(valid: bool, exhausted: bool, jobs: nat, raised: seq<nat>, taken: seq<nat>) {
    && Increasing(raised) && Increasing(taken)
    && (forall g :: g in raised ==> 1 <= g <= jobs)
    && (forall g :: g in taken ==> g in raised)
    && (valid <==> jobs > 0 && jobs !in raised)
    && (exhausted <==> jobs in raised && jobs !in taken)
  }

  ghost predicate RaisedOk(raised: seq<nat>, claims: seq<ClaimRecord>) {
    forall g :: g in raised ==> Frontier(claims, g) == ALL_NONCES
  }

  ghost predicate ScanOk(i: nat, claim: nat, work: Work, claims: seq<ClaimRecord>, credits: seq<nat>, posted: seq<PublicJob>)
  {
    && claim < |claims| && claim < |credits|
    && var c := claims[claim];
      && c.worker == i && credits[claim] == 0 && 1 <= c.job <= |posted|
      && work == Work(c.job % WRAP, c.pauses % WRAP, posted[c.job - 1], c.start % ALL_NONCES, c.count % ALL_NONCES)
  }

  ghost predicate ScansOk(phases: seq<Phase>, claims: seq<ClaimRecord>, credits: seq<nat>, posted: seq<PublicJob>) {
    forall i :: 0 <= i < |phases| && phases[i].Scanning? ==>
      ScanOk(i, phases[i].claim, phases[i].work, claims, credits, posted)
  }

  /** No lost wake-up. */
  ghost predicate BlockedOk(phases: seq<Phase>, core: Core) {
    forall i :: 0 <= i < |phases| && phases[i].Blocked? ==> MustWait(core)
  }

  ghost predicate MatchOk(m: MatchRecord, claims: seq<ClaimRecord>, posted: seq<PublicJob>) {
    && m.claim < |claims|
    && var c := claims[m.claim];
      && 1 <= c.job <= |posted|
      && m.share.seqNo == c.job % WRAP
      && m.share.text == posted[c.job - 1].text
      && m.share.difficulty == DifficultyOf(Value(m.share.hash, 0x100))
      && Winning(posted[c.job - 1], m.share.nonce, m.share.hash)
      && c.start <= m.share.nonce < c.start + c.count
  }

  /** The hash of the job's header with this nonce, at most the job's target. */
  ghost predicate Winning(job: PublicJob, nonce: Word, hash: seq<Byte>) {
    && |job.header| == 80
    && hash == Scan.NonceHash(job.header, nonce)
    && Scan.Wins(job.header, job.target, nonce)
  }

  /** No nonce is reported twice for one claim. */
  ghost predicate OncePerClaim(matches: seq<MatchRecord>) {
    forall j, k :: 0 <= j < k < |matches| && matches[j].claim == matches[k].claim ==>
      matches[j].share.nonce != matches[k].share.nonce
  }

  ghost predicate MatchesOk(matches: seq<MatchRecord>, claims: seq<ClaimRecord>, posted: seq<PublicJob>) {
    forall k :: 0 <= k < |matches| ==> MatchOk(matches[k], claims, posted)
  }

  /** The locked queue holds the queued matches in the order they were found. */
  ghost predicate QueueOk(matches: seq<MatchRecord>, queue: seq<nat>, popped: seq<nat>, shares: seq<Share>, seqNo: Counter)
  {
    && Increasing(queue + [|matches|]) && Increasing(popped + queue)
    && |queue| == |shares| <= SHARE_QUEUE_SIZE
    && (forall i :: 0 <= i < |queue| ==> queue[i] < |matches| && matches[queue[i]].share == shares[i])
    && (forall i :: 0 <= i < |queue| ==> shares[i].seqNo == seqNo)
    && (forall i :: 0 <= i < |popped| ==> popped[i] < |matches|)
    && (forall k :: 0 <= k < |matches| ==> (matches[k].fate.Queued? <==> k in queue))
    && (forall k :: 0 <= k < |matches| ==> (matches[k].fate.Popped? <==> k in popped))
  }

  /** The hashes credited over the whole run. */
  function Credited(claims: seq<ClaimRecord>, credits: seq<nat>): nat
    requires |claims| == |credits|
  {
    if claims == [] then 0
    else
      var n := |claims| - 1;
      Credited(claims[..n], credits[..n]) + credits[n] * claims[n].count
  }

  function CreditedTo(claims: seq<ClaimRecord>, credits: seq<nat>, i: nat): nat
    requires |claims| == |credits|
  {
    if claims == [] then 0
    else
      var n := |claims| - 1;
      CreditedTo(claims[..n], credits[..n], i) + if claims[n].worker == i then credits[n] * claims[n].count else 0
  }

  ghost predicate HashesOk(hashes: Counter, workerHashes: seq<Counter>, claims: seq<ClaimRecord>, credits: seq<nat>) {
    && |claims| == |credits|
    && (forall k :: 0 <= k < |credits| ==> credits[k] <= 1)
    && hashes == Credited(claims, credits) % WRAP
    && forall i :: 0 <= i < |workerHashes| ==> workerHashes[i] == CreditedTo(claims, credits, i) % WRAP
  }

  ghost predicate Inv(w: World) {
    && |w.phases| == |w.core.workerHashes|
    && w.core.seqNo == |w.posted| % WRAP
    && w.core.pauseEpoch == w.pauses % WRAP
    && (w.posted != [] ==> w.core.job == w.posted[|w.posted| - 1])
    && w.core.nextNonce == Frontier(w.claims, |w.posted|)
    && ClaimsOk(w.claims, |w.posted|, w.pauses, |w.phases|)
    && ExhaustOk(w.core.valid, w.core.exhausted, |w.posted|, w.raised, w.taken)
    && RaisedOk(w.raised, w.claims)
    && ScansOk(w.phases, w.claims, w.credits, w.posted)
    && BlockedOk(w.phases, w.core)
    && MatchesOk(w.matches, w.claims, w.posted)
    && OncePerClaim(w.matches)
    && QueueOk(w.matches, w.queue, w.popped, w.core.shares, w.core.seqNo)
    && HashesOk(w.core.hashes, w.core.workerHashes, w.claims, w.credits)
  }

  lemma StartInv(workers: nat, noJob: PublicJob)
    ensures Inv(Start(workers, noJob))
  {
  }

  // ---- Adding a claim ----

  lemma FrontierAppend(claims: seq<ClaimRecord>, c: ClaimRecord, g: nat)
    ensures Frontier(claims + [c], g) == Frontier(claims, g) + if c.job == g then c.count else 0
  {
    assert (claims + [c])[..|claims + [c]| - 1] == claims;
  }

  lemma ClaimsAppend(claims: seq<ClaimRecord>, c: ClaimRecord, jobs: nat, pauses: nat, workers: nat)
    requires ClaimsOk(claims, jobs, pauses, workers)
    requires c.worker < workers && 1 <= c.job <= jobs && c.pauses <= pauses && 1 <= c.count < ALL_NONCES
    requires c.start == Frontier(claims, c.job) && c.start + c.count <= ALL_NONCES
    ensures ClaimsOk(claims + [c], jobs, pauses, workers)
  {
    hide Frontier;
    var all := claims + [c];
    forall k | 0 <= k < |all|
      ensures all[k].start == Frontier(all[..k], all[k].job)
    {
      if k < |claims| {
        assert all[..k] == claims[..k];
      } else {
        assert all[..k] == claims;
      }
    }
  }

  lemma CreditedAppend(claims: seq<ClaimRecord>, credits: seq<nat>, c: ClaimRecord)
    requires |claims| == |credits|
    ensures Credited(claims + [c], credits + [0]) == Credited(claims, credits)
    ensures forall i: nat :: CreditedTo(claims + [c], credits + [0], i) == CreditedTo(claims, credits, i)
  {
    assert (claims + [c])[..|claims + [c]| - 1] == claims && (credits + [0])[..|credits + [0]| - 1] == credits;
  }

  lemma HashesAppend(hashes: Counter, workerHashes: seq<Counter>, claims: seq<ClaimRecord>, credits: seq<nat>, c: ClaimRecord)
    requires HashesOk(hashes, workerHashes, claims, credits)
    ensures HashesOk(hashes, workerHashes, claims + [c], credits + [0])
  {
    hide Credited, CreditedTo;
    CreditedAppend(claims, credits, c);
  }

  lemma RaisedAppend(raised: seq<nat>, claims: seq<ClaimRecord>, c: ClaimRecord)
    requires RaisedOk(raised, claims) && c.job !in raised
    ensures RaisedOk(raised, claims + [c])
  {
    hide Frontier;
    forall g | g in raised ensures Frontier(claims + [c], g) == ALL_NONCES {
      FrontierAppend(claims, c, g);
    }
  }

  lemma ClaimBounds(w: World)
    requires Inv(w)
    ensures w.phases != [] ==> w.core.nextNonce == Frontier(w.claims, |w.posted|)
    ensures |w.claims| == |w.credits|
  {
    hide Frontier, Winning;
  }

  lemma AllocateGrants(w: World, i: nat, batch: Word)
    requires Inv(w) && i < |w.phases| && w.phases[i].Ready? && Claim(w.core, batch).1.Some?
    ensures Inv(AllocateStep(w, i, batch))
  {
    hide Frontier, Credited, CreditedTo, QueueOk, Winning, OncePerClaim, HashesOk, RaisedOk, ClaimsOk, Scan.Wins;
    ClaimBounds(w);
    var k := Claim(w.core, batch).1.value;
    var c := ClaimRecord(i, |w.posted|, w.pauses, k.start, k.count);
    FrontierAppend(w.claims, c, |w.posted|);
    ClaimsAppend(w.claims, c, |w.posted|, w.pauses, |w.phases|);
    HashesAppend(w.core.hashes, w.core.workerHashes, w.claims, w.credits, c);
    RaisedAppend(w.raised, w.claims, c);
  }

  lemma AllocateRefuses(w: World, i: nat, batch: Word)
    requires Inv(w) && i < |w.phases| && w.phases[i].Ready? && Claim(w.core, batch).1.None?
    ensures Inv(AllocateStep(w, i, batch))
  {
    hide Frontier, Credited, CreditedTo, QueueOk, MatchesOk, HashesOk, ClaimsOk, ExhaustOk, OncePerClaim, Winning;
    RaiseOnce(w.core.valid, w.core.exhausted, |w.posted|, w.raised, w.taken);
  }

  lemma RaiseOnce(valid: bool, exhausted: bool, jobs: nat, raised: seq<nat>, taken: seq<nat>)
    requires ExhaustOk(valid, exhausted, jobs, raised, taken)
    ensures valid ==> ExhaustOk(false, true, jobs, raised + [jobs], taken)
  {
    if valid {
      assert forall i :: 0 <= i < |raised| ==> raised[i] in raised;
      assert forall g :: g in raised + [jobs] <==> g in raised || g == jobs;
    }
  }

  lemma TakeOnce(valid: bool, exhausted: bool, jobs: nat, raised: seq<nat>, taken: seq<nat>)
    requires ExhaustOk(valid, exhausted, jobs, raised, taken)
    ensures ExhaustOk(valid, false, jobs, raised, if exhausted then taken + [jobs] else taken)
  {
    if exhausted {
      assert forall i :: 0 <= i < |taken| ==> taken[i] in taken;
      assert forall g :: g in taken + [jobs] <==> g in taken || g == jobs;
    }
  }

  // ---- Matches ----

  lemma FoundInv(w: World, i: nat, offset: nat)
    requires Inv(w) && CanFind(w, i, offset)
    ensures Inv(FoundStep(w, i, offset))
  {
    hide Frontier, Credited, CreditedTo, ExhaustOk, RaisedOk, HashesOk, ClaimsOk, ScansOk, QueueOk, MatchesOk, OncePerClaim;
    hide MatchOk, Known, NonceOf, Value, DifficultyOf, Scan.NonceHash, Scan.Wins;
    var r := FoundStep(w, i, offset);
    var m := r.matches[|w.matches|];
    assert r.matches == w.matches + [m];
    FoundMatch(w, i, offset);
    MatchesAppend(w.matches, w.claims, w.posted, m);
    QueueAppend(w.matches, w.queue, w.popped, w.core.shares, w.core.seqNo, m);
    FoundOnce(w, i, offset);
  }

  /** A found match belongs to the claim its worker scans. */
  lemma FoundMatch(w: World, i: nat, offset: nat)
    requires Inv(w) && CanFind(w, i, offset)
    ensures MatchOk(FoundStep(w, i, offset).matches[|w.matches|], w.claims, w.posted)
  {
    hide Inv, Known, Value, DifficultyOf, Scan.NonceHash, Scan.Wins, Report;
    ScanAt(w, i);
  }

  lemma MatchesAppend(matches: seq<MatchRecord>, claims: seq<ClaimRecord>, posted: seq<PublicJob>, m: MatchRecord)
    requires MatchesOk(matches, claims, posted) && MatchOk(m, claims, posted)
    ensures MatchesOk(matches + [m], claims, posted)
  {
    hide MatchOk;
  }

  lemma FoundOnce(w: World, i: nat, offset: nat)
    requires CanFind(w, i, offset) && OncePerClaim(w.matches)
    ensures OncePerClaim(FoundStep(w, i, offset).matches)
  {
    hide Value, DifficultyOf, Scan.NonceHash, Scan.Wins, Report, NonceOf;
  }

  lemma QueueAppend(matches: seq<MatchRecord>, queue: seq<nat>, popped: seq<nat>, shares: seq<Share>, seqNo: Counter, m: MatchRecord)
    requires QueueOk(matches, queue, popped, shares, seqNo)
    ensures m.fate.Stale? || m.fate.Full? ==> QueueOk(matches + [m], queue, popped, shares, seqNo)
    ensures m.fate.Queued? && |shares| < SHARE_QUEUE_SIZE && m.share.seqNo == seqNo ==>
      QueueOk(matches + [m], queue + [|matches|], popped, shares + [m.share], seqNo)
  {
    var n := |matches|;
    assert forall i :: 0 <= i < |queue| ==> (queue + [n])[i] == queue[i] < n;
    assert n !in queue && n !in popped;
    assert popped + (queue + [n]) == (popped + queue) + [n];
  }

  lemma QueuePop(matches: seq<MatchRecord>, queue: seq<nat>, popped: seq<nat>, shares: seq<Share>, seqNo: Counter)
    requires QueueOk(matches, queue, popped, shares, seqNo) && queue != []
    ensures QueueOk(matches[queue[0] := matches[queue[0]].(fate := Popped)], queue[1..], popped + [queue[0]], shares[1..], seqNo)
  {
    var h, q := queue[0], queue[1..];
    assert (popped + [h]) + q == popped + queue;
    assert q + [|matches|] == (queue + [|matches|])[1..];
    forall i | 0 <= i < |q| ensures h < q[i] {
      assert (queue + [|matches|])[0] < (queue + [|matches|])[i + 1];
    }
    assert queue == [h] + q;
    var r := matches[h := matches[h].(fate := Popped)];
    forall i | 0 <= i < |q| ensures q[i] < |r| && r[q[i]].share == shares[1..][i] {
      assert queue[i + 1] == q[i];
    }
    forall k | 0 <= k < |r|
      ensures (r[k].fate.Queued? <==> k in q) && (r[k].fate.Popped? <==> k in popped + [h])
    {
      if k != h {
        assert k in queue <==> k in q;
      }
    }
  }

  /** Changing the fate of a match keeps what is said of matches. */
  lemma FateKeeps(matches: seq<MatchRecord>, k: nat, fate: Fate, claims: seq<ClaimRecord>, posted: seq<PublicJob>)
    requires MatchesOk(matches, claims, posted) && OncePerClaim(matches) && k < |matches|
    ensures var r := matches[k := matches[k].(fate := fate)];
      MatchesOk(r, claims, posted) && OncePerClaim(r)
  {
    hide Winning;
  }

  lemma DeliverInv(w: World)
    requires Inv(w)
    ensures Inv(DeliverStep(w))
  {
    hide Frontier, Credited, CreditedTo, ExhaustOk, RaisedOk, HashesOk, ClaimsOk, QueueOk, MatchesOk, OncePerClaim, Winning;
    if w.queue != [] && w.queue[0] < |w.matches| {
      QueuePop(w.matches, w.queue, w.popped, w.core.shares, w.core.seqNo);
      FateKeeps(w.matches, w.queue[0], Popped, w.claims, w.posted);
    }
    QueueHead(w);
  }

  lemma QueueHead(w: World)
    requires Inv(w)
    ensures w.queue == [] <==> w.core.shares == []
  {
    hide Frontier, Credited, CreditedTo, ExhaustOk, RaisedOk, HashesOk, ClaimsOk, MatchesOk, OncePerClaim, Winning;
  }

  // ---- Credits ----

  lemma {:induction false} CreditedUpdate(claims: seq<ClaimRecord>, credits: seq<nat>, k: nat, i: nat)
    requires |claims| == |credits| && k < |claims|
    ensures var more := credits[k := credits[k] + 1];
      && Credited(claims, more) == Credited(claims, credits) + claims[k].count
      && CreditedTo(claims, more, i) ==
        CreditedTo(claims, credits, i) + if claims[k].worker == i then claims[k].count else 0
  {
    var n, more := |claims| - 1, credits[k := credits[k] + 1];
    if k == n {
      assert more[..n] == credits[..n];
      assert (credits[n] + 1) * claims[n].count == credits[n] * claims[n].count + claims[n].count;
    } else {
      assert more[..n] == credits[..n][k := credits[k] + 1];
      CreditedUpdate(claims[..n], credits[..n], k, i);
    }
  }

  lemma PlusWraps(a: nat, b: nat)
    ensures Plus(a % WRAP, b) == (a + b) % WRAP
  {
    RemoveMultiple(a % WRAP + b, a / WRAP);
  }

  lemma RemoveMultiple(x: nat, q: nat)
    ensures (x + WRAP * q) % WRAP == x % WRAP
  {
    var r := x / WRAP;
    assert x + WRAP * q == WRAP * (r + q) + x % WRAP;
  }

  lemma HashesUpdate(hashes: Counter, workerHashes: seq<Counter>, claims: seq<ClaimRecord>, credits: seq<nat>, k: nat, count: nat)
    requires HashesOk(hashes, workerHashes, claims, credits) && k < |claims| && credits[k] == 0
    requires claims[k].worker < |workerHashes| && claims[k].count == count
    ensures var i := claims[k].worker;
      HashesOk(Plus(hashes, count), workerHashes[i := Plus(workerHashes[i], count)], claims, credits[k := credits[k] + 1])
  {
    hide Credited, CreditedTo, Plus;
    var i, more := claims[k].worker, credits[k := credits[k] + 1];
    CreditedUpdate(claims, credits, k, i);
    PlusWraps(Credited(claims, credits), count);
    PlusWraps(CreditedTo(claims, credits, i), count);
    forall j | 0 <= j < |workerHashes| && j != i
      ensures CreditedTo(claims, more, j) == CreditedTo(claims, credits, j)
    {
      CreditedUpdate(claims, credits, k, j);
    }
  }

  /** No other worker holds the claim whose credit is given. */
  lemma ScansUpdate(phases: seq<Phase>, claims: seq<ClaimRecord>, credits: seq<nat>, posted: seq<PublicJob>, i: nat, k: nat)
    requires ScansOk(phases, claims, credits, posted) && i < |phases| && k < |claims| && k < |credits|
    requires claims[k].worker == i
    ensures ScansOk(phases[i := Top], claims, credits[k := credits[k] + 1], posted)
  {
  }

  lemma FinishInv(w: World, i: nat)
    requires Inv(w) && i < |w.phases| && w.phases[i].Scanning?
    ensures Inv(FinishStep(w, i))
  {
    hide Frontier, Credited, CreditedTo, ExhaustOk, RaisedOk, HashesOk, QueueOk, MatchesOk, ScansOk, Plus, ClaimsOk, OncePerClaim, Winning;
    var Scanning(k, work) := w.phases[i];
    ScanAt(w, i);
    if Current(w.core, work) {
      HashesUpdate(w.core.hashes, w.core.workerHashes, w.claims, w.credits, k, work.count);
      ScansUpdate(w.phases, w.claims, w.credits, w.posted, i, k);
    } else {
      ScansDrop(w.phases, w.claims, w.credits, w.posted, i, Top);
    }
  }

  lemma ScanAt(w: World, i: nat)
    requires Inv(w) && i < |w.phases| && w.phases[i].Scanning?
    ensures ScanOk(i, w.phases[i].claim, w.phases[i].work, w.claims, w.credits, w.posted)
    ensures |w.claims| == |w.credits|
    ensures w.claims[w.phases[i].claim].count == w.phases[i].work.count
    ensures w.claims[w.phases[i].claim].start == w.phases[i].work.start
    ensures w.claims[w.phases[i].claim].start + w.claims[w.phases[i].claim].count <= ALL_NONCES
  {
    hide Frontier, Credited, CreditedTo, ExhaustOk, RaisedOk, QueueOk, MatchesOk, OncePerClaim, Winning;
  }

  lemma ScansDrop(phases: seq<Phase>, claims: seq<ClaimRecord>, credits: seq<nat>, posted: seq<PublicJob>, i: nat, p: Phase)
    requires ScansOk(phases, claims, credits, posted) && i < |phases| && !p.Scanning?
    ensures ScansOk(phases[i := p], claims, credits, posted)
  {
  }

  // ---- The controller ----

  lemma {:induction false} FrontierOfNewJob(claims: seq<ClaimRecord>, jobs: nat)
    requires forall k :: 0 <= k < |claims| ==> claims[k].job <= jobs
    ensures Frontier(claims, jobs + 1) == 0
  {
    if claims != [] {
      FrontierOfNewJob(claims[..|claims| - 1], jobs);
    }
  }

  lemma ClearInv(matches: seq<MatchRecord>, queue: seq<nat>, popped: seq<nat>, shares: seq<Share>, seqNo: Counter, next: Counter)
    requires QueueOk(matches, queue, popped, shares, seqNo)
    ensures QueueOk(ClearQueued(matches), [], popped, [], next)
  {
    assert popped + [] == popped;
    forall i, j | 0 <= i < j < |popped| ensures popped[i] < popped[j] {
      assert (popped + queue)[i] < (popped + queue)[j];
    }
  }

  lemma ClearKeeps(matches: seq<MatchRecord>, claims: seq<ClaimRecord>, posted: seq<PublicJob>, job: PublicJob)
    requires MatchesOk(matches, claims, posted) && OncePerClaim(matches)
    ensures MatchesOk(ClearQueued(matches), claims, posted + [job]) && OncePerClaim(ClearQueued(matches))
  {
    hide Winning;
  }

  lemma ClaimsOfNewJob(claims: seq<ClaimRecord>, jobs: nat, pauses: nat, workers: nat)
    requires ClaimsOk(claims, jobs, pauses, workers)
    ensures ClaimsOk(claims, jobs + 1, pauses, workers) && Frontier(claims, jobs + 1) == 0
  {
    hide Frontier;
    FrontierOfNewJob(claims, jobs);
  }

  lemma ScansOfNewJob(phases: seq<Phase>, claims: seq<ClaimRecord>, credits: seq<nat>, posted: seq<PublicJob>, job: PublicJob)
    requires ScansOk(phases, claims, credits, posted)
    ensures ScansOk(Broadcast(phases), claims, credits, posted + [job])
  {
  }

  lemma ExhaustOfNewJob(valid: bool, exhausted: bool, jobs: nat, raised: seq<nat>, taken: seq<nat>)
    requires ExhaustOk(valid, exhausted, jobs, raised, taken)
    ensures ExhaustOk(true, false, jobs + 1, raised, taken)
  {
  }

  lemma NewJobInv(w: World, job: PublicJob)
    requires Inv(w)
    ensures Inv(NewJobStep(w, job))
  {
    hide Frontier, Credited, CreditedTo, RaisedOk, HashesOk, QueueOk, MatchesOk, OncePerClaim, ClaimsOk, ScansOk, ExhaustOk,
      Winning, Plus;
    PlusWraps(|w.posted|, 1);
    ClaimsOfNewJob(w.claims, |w.posted|, w.pauses, |w.phases|);
    ScansOfNewJob(w.phases, w.claims, w.credits, w.posted, job);
    ExhaustOfNewJob(w.core.valid, w.core.exhausted, |w.posted|, w.raised, w.taken);
    ClearKeeps(w.matches, w.claims, w.posted, job);
    ClearInv(w.matches, w.queue, w.popped, w.core.shares, w.core.seqNo, Plus(w.core.seqNo, 1));
  }

  lemma PauseInv(w: World, paused: bool)
    requires Inv(w)
    ensures Inv(PauseStep(w, paused))
  {
    hide Frontier, Credited, CreditedTo, RaisedOk, HashesOk, QueueOk, MatchesOk, ExhaustOk, OncePerClaim, Winning;
    PlusWraps(w.pauses, 1);
  }

  lemma TakeInv(w: World)
    requires Inv(w)
    ensures Inv(Step(w, AskExhausted))
  {
    hide Frontier, Credited, CreditedTo, RaisedOk, HashesOk, QueueOk, MatchesOk, ExhaustOk, ClaimsOk, ScansOk, OncePerClaim, Winning;
    TakeOnce(w.core.valid, w.core.exhausted, |w.posted|, w.raised, w.taken);
  }

  /** Steps that only move one worker, or all blocked workers, or stop. */
  lemma MoveInv(w: World, i: nat, p: Phase)
    requires Inv(w) && i < |w.phases| && !p.Scanning? && (p.Blocked? ==> MustWait(w.core))
    ensures Inv(w.(phases := w.phases[i := p]))
  {
    hide Frontier, Credited, CreditedTo, RaisedOk, HashesOk, QueueOk, MatchesOk, ExhaustOk, ClaimsOk, ScansOk, OncePerClaim, Winning;
    ScansDrop(w.phases, w.claims, w.credits, w.posted, i, p);
  }

  lemma ShutdownInv(w: World)
    requires Inv(w)
    ensures Inv(Step(w, Shutdown))
  {
    hide Frontier, Credited, CreditedTo, RaisedOk, HashesOk, QueueOk, MatchesOk, ExhaustOk, ClaimsOk, OncePerClaim, Winning;
  }

  lemma JoinInv(w: World)
    requires Inv(w)
    ensures Inv(Step(w, Join))
  {
    hide Frontier, Credited, CreditedTo, RaisedOk, HashesOk, QueueOk, MatchesOk, ExhaustOk, ClaimsOk, ScansOk, OncePerClaim, Winning;
  }

  /** Every critical section keeps the invariant. */
  lemma StepInv(w: World, action: Action)
    requires Inv(w)
    ensures Inv(Step(w, action))
  {
    hide Inv, CanFind, AllocateStep, FoundStep, FinishStep, NewJobStep, PauseStep, DeliverStep;
    match action
    case Observe(i) =>
      if i < |w.phases| && w.phases[i].Top? {
        MoveInv(w, i, if w.core.stop then Exited else if w.core.paused then Waiting else Ready);
      }
    case Allocate(i, batch) =>
      if i < |w.phases| && w.phases[i].Ready? {
        if Claim(w.core, batch).1.Some? { AllocateGrants(w, i, batch); } else { AllocateRefuses(w, i, batch); }
      }
    case Found(i, offset) => if CanFind(w, i, offset) { FoundInv(w, i, offset); }
    case Finish(i) => if i < |w.phases| && w.phases[i].Scanning? { FinishInv(w, i); }
    case Fail(i) => if i < |w.phases| && w.phases[i].Scanning? { MoveInv(w, i, Top); }
    case Check(i) =>
      if i < |w.phases| && w.phases[i].Waiting? { MoveInv(w, i, if MustWait(w.core) then Blocked else Top); }
    case Wake(i) => if i < |w.phases| && w.phases[i].Blocked? { MoveInv(w, i, Waiting); }
    case NewJob(job) => NewJobInv(w, job);
    case Pause(paused) => PauseInv(w, paused);
    case AskExhausted => TakeInv(w);
    case Deliver => DeliverInv(w);
    case Shutdown => ShutdownInv(w);
    case Join => JoinInv(w);
  }

  /** Every reachable state satisfies the invariant. */
  lemma {:induction false} RunInv(workers: nat, noJob: PublicJob, actions: seq<Action>)
    ensures Inv(Run(Start(workers, noJob), actions))
  {
    hide Inv, Step;
    if actions == [] {
      StartInv(workers, noJob);
    } else {
      RunInv(workers, noJob, actions[..|actions| - 1]);
      StepInv(Run(Start(workers, noJob), actions[..|actions| - 1]), actions[|actions| - 1]);
    }
  }
}
