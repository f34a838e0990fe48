/** Whole scans inside the scheduler of src/miner.c: what becomes of the callbacks of a
    worker's scan while all other threads go on. */
module MinerScans {
  import opened Options
  import opened Words
  import opened FipsHash
  import opened Launch
  import opened MinerCore
  import opened MinerWorld
  import opened MinerInvariants
  import opened MinerTheorems
  import GpuScan
  import Scan

  function OffsetOf(start: Word, nonce: Word): Word {
    (nonce - start) % 0x1_0000_0000
  }

  /** The callbacks of a scan as actions of a worker. */
  function Callbacks(i: nat, start: Word, trace: seq<Scan.Match>): (s: seq<Action>)
    ensures |s| == |trace|
    ensures forall k :: 0 <= k < |s| ==> s[k] == Found(i, OffsetOf(start, trace[k].nonce))
  {
    seq(|trace|, k requires 0 <= k < |trace| => Found(i, OffsetOf(start, trace[k].nonce)))
  }

  /** A trace that a scan of the work may have, on the processor or on a GPU. */
  ghost predicate FitsWork(trace: seq<Scan.Match>, work: Work) {
    && |work.job.header| == 80 && work.start + work.count <= ALL_NONCES
    && Scan.SoundTrace(trace, work.job.header, work.job.target, work.start, work.count)
  }

  lemma PrefixFits(trace: seq<Scan.Match>, work: Work, n: nat)
    requires FitsWork(trace, work) && n <= |trace|
    ensures FitsWork(trace[..n], work)
  {
    hide Scan.Wins, Scan.NonceHash, StateBytes;
  }

  /** owed is the exact trace of the work. */
  ghost predicate IsOwed(owed: seq<Scan.Match>, work: Work) {
    && |work.job.header| == 80 && work.start + work.count <= ALL_NONCES
    && Scan.ExactTrace(owed, work.job.header, work.job.target, work.start, work.count)
  }

  /** The exact trace, and any part of it in any order, fits. */
  lemma PartFits(trace: seq<Scan.Match>, owed: seq<Scan.Match>, work: Work)
    requires IsOwed(owed, work) && multiset(trace) <= multiset(owed)
    ensures FitsWork(trace, work)
  {
    hide Scan.ExactTrace, Scan.SoundTrace;
    Scan.PartIsSound(trace, owed, work.job.header, work.job.target, work.start, work.count);
  }

  /** The exact trace of every processor backend fits. */
  lemma ExactTraceFits(trace: seq<Scan.Match>, work: Work)
    requires IsOwed(trace, work)
    ensures FitsWork(trace, work)
  {
    hide IsOwed, FitsWork;
    PartFits(trace, trace, work);
  }

  /** What a processor's scan of the work calls back. */
  function Owed(work: Work): seq<Scan.Match>
    requires |work.job.header| == 80 && |work.job.target| == 32
  {
    Scan.Matches(MidstateOf(work.job.header), Scan.TailWords(work.job.header), Scan.TargetWords(work.job.target),
      work.start, work.count)
  }

  /** The trace of a launch: its matches in counter order up to the capacity. */
  function LaunchTrace(work: Work, order: seq<Word>, max: nat): seq<Scan.Match>
    requires |work.job.header| == 80 && |work.job.target| == 32
  {
    hide GpuScan.HitsOf, MidstateOf;
    var hits := GpuScan.HitsOf(MidstateOf(work.job.header), Scan.TailWords(work.job.header),
      Scan.TargetWords(work.job.target), work.start, order);
    hits[..Least(|hits|, max)]
  }

  /** It is part of what is owed, or all of it when the buffer holds it; so it fits. */
  lemma LaunchFits(k: Kernel, items: nat, n: Word, order: seq<Word>, max: nat, work: Work)
    requires |work.job.header| == 80 && |work.job.target| == 32 && work.start + work.count <= ALL_NONCES
    requires ExactLaunch(k, items, n, work.count) && multiset(order) == multiset(AllOffsets(k, items, n, work.count))
    ensures var trace := LaunchTrace(work, order, max);
      && IsOwed(Owed(work), work) && multiset(trace) <= multiset(Owed(work)) && FitsWork(trace, work)
      && (|Owed(work)| <= max ==> multiset(trace) == multiset(Owed(work)))
  {
    hide Scan.Matches, Scan.TargetWords, Scan.TailWords, MidstateOf, FitsWork, GpuScan.HitsOf, AllOffsets, Span, ExactLaunch;
    hide Scan.ExactTrace;
    var header, target := work.job.header, work.job.target;
    Scan.TraceExact(header, target, work.start, work.count);
    GpuScan.LaunchMatchesScan(k, items, n, work.count, MidstateOf(header), Scan.TailWords(header),
      Scan.TargetWords(target), work.start, order, max);
    PartFits(LaunchTrace(work, order, max), Owed(work), work);
  }

  // ---- The steps of one worker among those of all threads ----

  /** A step of worker i: a move in its loop or a callback of its scan. */
  predicate Own(action: Action, i: nat) {
    Moves(action, i) || (action.Found? && action.worker == i)
  }

  function Mine(actions: seq<Action>, i: nat): seq<Action> {
    if actions == [] then []
    else
      var n := |actions| - 1;
      Mine(actions[..n], i) + if Own(actions[n], i) then [actions[n]] else []
  }

  datatype Report = Report(nonce: Word, hash: seq<Byte>)

  /** What was reported for a claim, in order. */
  function ReportsOf(matches: seq<MatchRecord>, claim: nat): seq<Report> {
    if matches == [] then []
    else
      var n := |matches| - 1;
      ReportsOf(matches[..n], claim)
      + if matches[n].claim == claim then [Report(matches[n].share.nonce, matches[n].share.hash)] else []
  }

  /** What the callbacks of a trace pass to queue_scan_match. */
  function Passed(trace: seq<Scan.Match>): (r: seq<Report>)
    ensures |r| == |trace|
    ensures forall k :: 0 <= k < |r| ==> r[k] == Report(trace[k].nonce, StateBytes(trace[k].hash))
  {
    seq(|trace|, k requires 0 <= k < |trace| => Report(trace[k].nonce, StateBytes(trace[k].hash)))
  }

  lemma ReportsAppend(matches: seq<MatchRecord>, m: MatchRecord, claim: nat)
    ensures ReportsOf(matches + [m], claim) ==
      ReportsOf(matches, claim) + if m.claim == claim then [Report(m.share.nonce, m.share.hash)] else []
  {
    assert (matches + [m])[..|matches|] == matches;
  }

  /** Fates do not matter. */
  lemma {:induction false} ReportsSame(a: seq<MatchRecord>, b: seq<MatchRecord>, claim: nat)
    requires |a| == |b|
    requires forall k :: 0 <= k < |a| ==> a[k].claim == b[k].claim && a[k].share == b[k].share
    ensures ReportsOf(a, claim) == ReportsOf(b, claim)
  {
    if a != [] {
      var n := |a| - 1;
      ReportsSame(a[..n], b[..n], claim);
    }
  }

  lemma {:induction false} NoReports(matches: seq<MatchRecord>, claim: nat)
    requires forall k :: 0 <= k < |matches| ==> matches[k].claim != claim
    ensures ReportsOf(matches, claim) == []
  {
    if matches != [] {
      NoReports(matches[..|matches| - 1], claim);
    }
  }

  lemma {:induction false} KnownIsReported(matches: seq<MatchRecord>, claim: nat, nonce: Word)
    requires forall k :: 0 <= k < |ReportsOf(matches, claim)| ==> ReportsOf(matches, claim)[k].nonce != nonce
    ensures !Known(matches, claim, nonce)
  {
    if matches != [] {
      var n := |matches| - 1;
      var fewer := ReportsOf(matches[..n], claim);
      assert fewer <= ReportsOf(matches, claim);
      forall k | 0 <= k < |fewer| ensures fewer[k].nonce != nonce {
        assert fewer[k] == ReportsOf(matches, claim)[k];
      }
      KnownIsReported(matches[..n], claim, nonce);
      if matches[n].claim == claim {
        var reports := ReportsOf(matches, claim);
        assert reports[|reports| - 1] == Report(matches[n].share.nonce, matches[n].share.hash);
      }
    }
  }

  // ---- Other threads ----

  /** A step of another thread leaves a scanning worker where it is, and the reports of
      its claim as they are. */
  lemma OthersKeep(w: World, action: Action, i: nat)
    requires Inv(w) && i < |w.phases| && w.phases[i].Scanning? && !Own(action, i)
    ensures var v := Step(w, action);
      && |v.phases| == |w.phases| && v.phases[i] == w.phases[i]
      && ReportsOf(v.matches, w.phases[i].claim) == ReportsOf(w.matches, w.phases[i].claim)
  {
    hide Inv, ReportsOf, CanFind, FoundStep, Known;
    match action
    case Found(j, offset) => if CanFind(w, j, offset) { OthersReport(w, i, j, offset); }
    case NewJob(job) => ReportsSame(ClearQueued(w.matches), w.matches, w.phases[i].claim);
    case Deliver => ReportsSame(DeliverStep(w).matches, w.matches, w.phases[i].claim);
    case _ =>
  }

  lemma OthersReport(w: World, i: nat, j: nat, offset: nat)
    requires Inv(w) && i < |w.phases| && w.phases[i].Scanning? && i != j && CanFind(w, j, offset)
    ensures var v := FoundStep(w, j, offset);
      && v.phases == w.phases && ReportsOf(v.matches, w.phases[i].claim) == ReportsOf(w.matches, w.phases[i].claim)
  {
    hide Inv, ReportsOf, Known, Scan.Wins, Scan.NonceHash;
    ScanAt(w, i);
    ScanAt(w, j);
    var v := FoundStep(w, j, offset);
    var m := v.matches[|w.matches|];
    assert v.matches == w.matches + [m] && m.claim == w.phases[j].claim;
    ReportsAppend(w.matches, m, w.phases[i].claim);
  }

  // ---- The worker's own callbacks ----

  lemma OneCallback(w: World, i: nat, callback: Scan.Match)
    requires i < |w.phases| && w.phases[i].Scanning?
    requires var work := w.phases[i].work;
      && FitsWork([callback], work) && !Known(w.matches, w.phases[i].claim, callback.nonce)
    ensures var v := Step(w, Found(i, OffsetOf(w.phases[i].work.start, callback.nonce)));
      && v.phases == w.phases
      && ReportsOf(v.matches, w.phases[i].claim) ==
        ReportsOf(w.matches, w.phases[i].claim) + [Report(callback.nonce, StateBytes(callback.hash))]
  {
    hide Known, Scan.Wins, Scan.NonceHash, ReportsOf, StateBytes;
    var claim, work := w.phases[i].claim, w.phases[i].work;
    var trace := [callback];
    assert callback == trace[0];
    var offset := OffsetOf(work.start, callback.nonce);
    assert NonceOf(work, offset) == callback.nonce;
    assert CanFind(w, i, offset);
    var v := FoundStep(w, i, offset);
    var m := v.matches[|w.matches|];
    assert v.matches == w.matches + [m];
    ReportsAppend(w.matches, m, claim);
  }

  lemma LastFits(trace: seq<Scan.Match>, work: Work)
    requires FitsWork(trace, work) && trace != []
    ensures FitsWork([trace[|trace| - 1]], work)
  {
    hide Scan.Wins, Scan.NonceHash, StateBytes;
  }

  lemma NewNonce(matches: seq<MatchRecord>, claim: nat, trace: seq<Scan.Match>, work: Work)
    requires FitsWork(trace, work) && trace != []
    requires ReportsOf(matches, claim) == Passed(trace[..|trace| - 1])
    ensures !Known(matches, claim, trace[|trace| - 1].nonce)
  {
    hide Scan.Wins, Scan.NonceHash, StateBytes, Known, ReportsOf;
    KnownIsReported(matches, claim, trace[|trace| - 1].nonce);
  }

  lemma LastOfMine(actions: seq<Action>, i: nat, start: Word, trace: seq<Scan.Match>)
    requires actions != [] && Mine(actions, i) == Callbacks(i, start, trace) && Own(actions[|actions| - 1], i)
    ensures trace != []
    ensures var n := |trace| - 1;
      && actions[|actions| - 1] == Found(i, OffsetOf(start, trace[n].nonce))
      && Mine(actions[..|actions| - 1], i) == Callbacks(i, start, trace[..n])
  {
    hide OffsetOf, Own, Callbacks;
    var rest, last := Mine(actions[..|actions| - 1], i), actions[|actions| - 1];
    assert Mine(actions, i) == rest + [last];
    var n := |rest|;
    assert (rest + [last])[n] == last;
    forall k | 0 <= k < n ensures rest[k] == Callbacks(i, start, trace[..n])[k] {
      assert (rest + [last])[k] == rest[k];
    }
  }

  /** Let a worker be scanning in a reachable state, with nothing reported for its claim
      yet. However its callbacks are interleaved with the steps of all other threads, they
      are all taken, once each, in order, with the hashes they pass on. */
  lemma {:induction false} ScanIsReported(workers: nat, noJob: PublicJob, before: seq<Action>, actions: seq<Action>,
      i: nat, trace: seq<Scan.Match>)
    requires var w := Run(Start(workers, noJob), before);
      && i < |w.phases| && w.phases[i].Scanning? && FitsWork(trace, w.phases[i].work)
      && ReportsOf(w.matches, w.phases[i].claim) == []
      && Mine(actions, i) == Callbacks(i, w.phases[i].work.start, trace)
    ensures var w := Run(Start(workers, noJob), before);
      var v := Run(w, actions);
      && |v.phases| == |w.phases| && v.phases[i] == w.phases[i]
      && ReportsOf(v.matches, w.phases[i].claim) == Passed(trace)
    decreases |actions|
  {
    hide Step, Own, Known, ReportsOf, FitsWork, Inv;
    var w := Run(Start(workers, noJob), before);
    if actions == [] {
      assert trace == [];
    } else {
      var n, last := |actions| - 1, actions[|actions| - 1];
      RunAppend(Start(workers, noJob), before, actions[..n]);
      RunInv(workers, noJob, before + actions[..n]);
      var v := Run(w, actions[..n]);
      if Own(last, i) {
        LastOfMine(actions, i, w.phases[i].work.start, trace);
        var rest, final := trace[..|trace| - 1], trace[|trace| - 1];
        PrefixFits(trace, w.phases[i].work, |rest|);
        ScanIsReported(workers, noJob, before, actions[..n], i, rest);
        NewNonce(v.matches, w.phases[i].claim, trace, w.phases[i].work);
        LastFits(trace, w.phases[i].work);
        OneCallback(v, i, final);
        assert Passed(trace) == Passed(rest) + [Report(final.nonce, StateBytes(final.hash))];
      } else {
        assert Mine(actions, i) == Mine(actions[..n], i);
        ScanIsReported(workers, noJob, before, actions[..n], i, trace);
        OthersKeep(v, last, i);
      }
    }
  }

  // ---- From the grant of a range to the end of its scan ----

  lemma FreshClaim(o: World, i: nat, batch: Word)
    requires Inv(o) && i < |o.phases| && o.phases[i].Ready? && Claim(o.core, batch).1.Some?
    ensures var a := Step(o, Allocate(i, batch));
      && |a.phases| == |o.phases| && a.phases[i] == Scanning(|o.claims|, Claim(o.core, batch).1.value)
      && ReportsOf(a.matches, |o.claims|) == []
  {
    hide ReportsOf, Frontier, Winning, ClaimsOk, QueueOk, HashesOk, ExhaustOk, RaisedOk, ScansOk, OncePerClaim;
    forall k | 0 <= k < |o.matches| ensures o.matches[k].claim != |o.claims| {
      assert MatchOk(o.matches[k], o.claims, o.posted);
    }
    NoReports(o.matches, |o.claims|);
  }

  /** A nonce reported with its hash. */
  predicate Told(reports: seq<Report>, nonce: Word, hash: seq<Byte>) {
    Report(nonce, hash) in reports
  }

  /** From the grant of a range on, whatever the other threads do and whatever part of the
      owed callbacks arrives in whatever order, exactly these are reported for the claim;
      and when all of them arrived, the reports are the winning nonces of the range. */
  lemma GrantedScan(workers: nat, noJob: PublicJob, before: seq<Action>, i: nat, batch: Word, actions: seq<Action>,
      owed: seq<Scan.Match>, trace: seq<Scan.Match>)
    requires var o := Run(Start(workers, noJob), before);
      && i < |o.phases| && o.phases[i].Ready? && Claim(o.core, batch).1.Some?
      && var work := Claim(o.core, batch).1.value;
        && IsOwed(owed, work) && multiset(trace) <= multiset(owed)
        && Mine(actions, i) == Callbacks(i, work.start, trace)
    ensures var o := Run(Start(workers, noJob), before);
      var work, claim := Claim(o.core, batch).1.value, |o.claims|;
      var v := Run(o, [Allocate(i, batch)] + actions);
      && i < |v.phases| && v.phases[i] == Scanning(claim, work)
      && ReportsOf(v.matches, claim) == Passed(trace)
      && (multiset(trace) == multiset(owed) ==> forall n: Word, hash ::
        Told(ReportsOf(v.matches, claim), n, hash) <==> IsWinner(work, n, hash))
  {
    hide Run, Step, Inv, Claim, IsOwed, ReportsOf, Mine, Callbacks, FitsWork, IsWinner;
    var start := Start(workers, noJob);
    var o := Run(start, before);
    var work := Claim(o.core, batch).1.value;
    RunInv(workers, noJob, before);
    FreshClaim(o, i, batch);
    RunSnoc(start, before, Allocate(i, batch));
    PartFits(trace, owed, work);
    ScanIsReported(workers, noJob, before + [Allocate(i, batch)], actions, i, trace);
    OneStep(o, Allocate(i, batch));
    RunAppend(o, [Allocate(i, batch)], actions);
    if multiset(trace) == multiset(owed) {
      forall n: Word, hash ensures Told(Passed(trace), n, hash) <==> IsWinner(work, n, hash) {
        AllTold(trace, owed, work, n, hash);
      }
    }
  }

  /** A winning nonce of the work, with the double hash of the job's header. */
  ghost predicate IsWinner(work: Work, n: Word, hash: seq<Byte>) {
    && |work.job.header| == 80 && work.start <= n < work.start + work.count
    && Scan.Wins(work.job.header, work.job.target, n) && hash == Scan.NonceHash(work.job.header, n)
  }

  lemma OneStep(w: World, action: Action)
    ensures Run(w, [action]) == Step(w, action)
  {
    hide Step;
    assert [action][..0] == [];
  }

  lemma AllTold(trace: seq<Scan.Match>, owed: seq<Scan.Match>, work: Work, n: Word, hash: seq<Byte>)
    requires IsOwed(owed, work) && multiset(trace) == multiset(owed)
    ensures Told(Passed(trace), n, hash) <==> IsWinner(work, n, hash)
  {
    hide Scan.Wins, Scan.NonceHash, StateBytes, Passed;
    if Told(Passed(trace), n, hash) {
      var k :| 0 <= k < |trace| && Passed(trace)[k] == Report(n, hash);
      assert trace[k] in multiset(trace);
      var j :| 0 <= j < |owed| && owed[j] == trace[k];
      assert Scan.Tried(owed, n);
    }
    if IsWinner(work, n, hash) {
      assert Scan.Tried(owed, n);
      var j :| 0 <= j < |owed| && owed[j].nonce == n;
      assert owed[j] in multiset(owed);
      var k :| 0 <= k < |trace| && trace[k] == owed[j];
      assert Passed(trace)[k] == Report(n, hash);
    }
  }
}
