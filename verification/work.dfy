/** How src/stratum.c turns pool messages into miner jobs: the template, the extranonce2
    counter, and the miner they feed, over one connection. */
module Work {
  import opened Options
  import opened Words
  import opened Digits
  import opened Extranonce
  import opened Job
  import opened Target
  import opened MinerCore
  import opened MinerWorld
  import opened MinerInvariants
  import opened MinerObject
  import opened MinerTheorems

  /** The texts of a mining.notify message. */
  datatype Notice = Notice(
    jobId: string,
    prevhash: string,
    coinb1: string,
    coinb2: string,
    merkle: seq<string>,
    version: string,
    nbits: string,
    ntime: string)

  const NO_NOTICE := Notice("", "", "", "", [], "", "", "")
  const MAX_MERKLE_BRANCHES := 128

  /** The fields of stratum_state_t that decide which work the miner gets. mining says
      whether there is a miner. */
  datatype Template = Template(
    mining: bool,
    valid: bool,
    notice: Notice,
    extranonce1: string,
    extranonce2Size: int,
    difficulty: real,
    counter: Counter)

  function FirstOf<T>(s: seq<T>, n: nat): seq<T> {
    if |s| <= n then s else s[..n]
  }

  /** Every text fits its field; branches beyond the 128th are not looked at. */
  predicate Fits(n: Notice) {
    && |n.jobId| < 128 && |n.prevhash| < 65 && |n.coinb1| < 16384 && |n.coinb2| < 16384
    && |n.version| < 9 && |n.nbits| < 9 && |n.ntime| < 9
    && forall b :: b in FirstOf(n.merkle, MAX_MERKLE_BRANCHES) ==> |b| < 65
  }

  /** The storing half of handle_notify. */
  function StoreNotice(t: Template, n: Notice): Template {
    if Fits(n)
    then t.(valid := true, notice := n.(merkle := FirstOf(n.merkle, MAX_MERKLE_BRANCHES)))
    else t.(valid := false)
  }

  /** The guard of rebuild_miner_job. */
  predicate Attempts(t: Template) {
    t.mining && t.valid && t.extranonce1 != "" && t.extranonce2Size > 0
  }

  function TextsOf(t: Template, extranonce2: string): Texts {
    Texts(t.notice.coinb1, t.extranonce1, extranonce2, t.notice.coinb2,
      t.notice.merkle, t.notice.version, t.notice.prevhash, t.notice.ntime, t.notice.nbits)
  }

  /** rebuild_miner_job: the counter advances on every attempt, also on one that fails. */
  function Rebuild(t: Template): (Template, Option<PublicJob>) {
    hide HeaderOf, FormatExtranonce2, TargetBytes;
    if !Attempts(t) then (t, None)
    else
      var extranonce2 := FormatExtranonce2(32, t.extranonce2Size, t.counter);
      var header := HeaderOf(TextsOf(t, extranonce2));
      (t.(counter := Plus(t.counter, 1)),
       if extranonce2 == "" || header.None? then None
       else Some(PublicJob(JobText(t.notice.jobId, extranonce2, t.notice.ntime), header.value,
         TargetBytes(Effective(t.difficulty)))))
  }

  /** The miner after a rebuild that made the given job or none. */
  function Assigned(core: Core, made: Option<PublicJob>): Core {
    match made
    case Some(job) => SetJob(core, job)
    case None => core
  }

  /** stratum_state_t as an object that owns its miner. */
  class Session {
    const miner: Miner?
    var templateValid: bool
    var template: Notice
    var extranonce1: string
    var extranonce2Size: int
    var difficulty: real
    var extranonce2Counter: Counter

    /** stratum_state_init. */
    constructor (m: Miner?)
      ensures miner == m && View() == NewTemplate(m != null)
    {
      miner := m;
      templateValid, template, extranonce1 := false, NO_NOTICE, "";
      extranonce2Size, difficulty, extranonce2Counter := 4, 1.0, 1;
    }

    ghost function View(): Template
      reads this
    {
      Template(miner != null, templateValid, template, extranonce1, extranonce2Size, difficulty, extranonce2Counter)
    }

    /** Outside CastDefined the C computation of the target is undefined. */
    method RebuildMinerJob() returns (rc: int)
      requires miner != null ==> miner.Valid()
      requires CastDefined(difficulty)
      modifies this`extranonce2Counter, miner
      ensures miner != null ==> miner.Valid()
      ensures View() == Rebuild(old(View())).0
      ensures rc == if !Attempts(old(View())) then 0 else if Rebuild(old(View())).1.Some? then 1 else -1
      ensures miner != null ==> miner.View() == Assigned(old(miner.View()), Rebuild(old(View())).1)
    {
      hide FormatExtranonce2, HeaderOf, TargetBytes, Spells, IsTargetFor;
      if miner == null || !templateValid || extranonce1 == "" || extranonce2Size <= 0 {
        return 0;
      }
      var extranonce2 := FormatExtranonce2(32, extranonce2Size, extranonce2Counter);
      extranonce2Counter := (extranonce2Counter + 1) % 0x1_0000_0000_0000_0000;
      if extranonce2 == "" {
        return -1;
      }
      var header := BuildHeader(Texts(template.coinb1, extranonce1, extranonce2, template.coinb2,
        template.merkle, template.version, template.prevhash, template.ntime, template.nbits));
      if header.None? {
        return -1;
      }
      var target := new Byte[32](_ => 0);
      TargetFromDifficulty(difficulty, target);
      miner.AssignJob(PublicJob(JobText(template.jobId, extranonce2, template.ntime), header.value, target[..]));
      return 1;
    }

    /** maybe_roll_extranonce. */
    method MaybeRollExtranonce()
      requires miner != null ==> miner.Valid()
      requires CastDefined(difficulty)
      modifies this`extranonce2Counter, miner
      ensures miner != null ==> miner.Valid()
      ensures View() == if miner != null && old(miner.nonceExhausted) then Rebuild(old(View())).0 else old(View())
      ensures miner != null ==> miner.View() == Assigned(TakeExhausted(old(miner.View())).0,
        if old(miner.nonceExhausted) then Rebuild(old(View())).1 else None)
    {
      hide Rebuild;
      if miner == null {
        return;
      }
      var exhausted := miner.TakeNonceExhausted();
      if exhausted {
        var _ := RebuildMinerJob();
      }
    }
  }

  function NewTemplate(mining: bool): Template {
    Template(mining, false, NO_NOTICE, "", 4, 1.0, 1)
  }

  /** A connection: the template, the miner's threads and, kept by no code, the number of
      rebuild attempts so far and which attempt made each job. */
  datatype Connection = Connection(t: Template, w: World, attempts: nat, stamps: seq<nat>)

  /** A decoded message, the polling of the exhausted flag, or a step of the miner. Absent
      or ill-typed parameters are None. */
  datatype Event =
    | Notify(notice: Notice)
    | SetDifficulty(difficulty: Option<real>)
    | SetExtranonce(newExtranonce1: Option<string>, newSize: Option<int>)
    | Subscribed(newExtranonce1: Option<string>, newSize: Option<int>)
    | Roll
    | Act(action: Action)

  function Open(mining: bool, workers: nat, noJob: PublicJob): Connection {
    Connection(NewTemplate(mining), Start(workers, noJob), 0, [])
  }

  function RebuildStep(c: Connection): Connection {
    hide Rebuild, Step;
    var (t, made) := Rebuild(c.t);
    var attempts := if Attempts(c.t) then c.attempts + 1 else c.attempts;
    match made
    case None => c.(t := t, attempts := attempts)
    case Some(job) => Connection(t, Step(c.w, NewJob(job)), attempts, c.stamps + [c.attempts])
  }

  /** The first extranonce is cut to its field of 128 bytes. */
  function Extranonces(t: Template, newExtranonce1: Option<string>, newSize: Option<int>): Template {
    t.(extranonce1 := if newExtranonce1.Some? then FirstOf(newExtranonce1.value, 127) else t.extranonce1,
       extranonce2Size := if newSize.Some? then newSize.value else t.extranonce2Size)
  }

  function Handle(c: Connection, event: Event): Connection {
    hide RebuildStep, Step;
    match event
    case Notify(notice) =>
      var next := c.(t := StoreNotice(c.t, notice));
      if next.t.valid then RebuildStep(next) else next
    case SetDifficulty(difficulty) =>
      if difficulty.None? then c
      else
        var next := c.(t := c.t.(difficulty := difficulty.value));
        if next.t.valid then RebuildStep(next) else next
    case SetExtranonce(newExtranonce1, newSize) =>
      var next := c.(t := Extranonces(c.t, newExtranonce1, newSize));
      if next.t.valid then RebuildStep(next) else next
    case Subscribed(newExtranonce1, newSize) => c.(t := Extranonces(c.t, newExtranonce1, newSize))
    case Roll =>
      if !c.t.mining then c
      else
        var next := c.(w := Step(c.w, AskExhausted));
        if c.w.core.exhausted then RebuildStep(next) else next
    // Only rebuild_miner_job assigns jobs.
    case Act(action) => if action.NewJob? then c else c.(w := Step(c.w, action))
  }

  function RunEvents(c: Connection, events: seq<Event>): Connection {
    if events == [] then c else Handle(RunEvents(c, events[..|events| - 1]), events[|events| - 1])
  }

  /** The counter at an attempt; it starts at 1. */
  function CounterAt(attempt: nat): Counter {
    (attempt + 1) % 0x1_0000_0000_0000_0000
  }

  ghost predicate SpellsCounter(text: string, attempt: nat) {
    text != "" && exists size :: text == FormatExtranonce2(32, size, CounterAt(attempt))
  }

  /** Job i was made by attempt stamps[i], whose counter its extranonce2 spells. */
  ghost predicate StampsOk(posted: seq<PublicJob>, stamps: seq<nat>, attempts: nat) {
    && |posted| == |stamps|
    && Increasing(stamps + [attempts])
    && forall i :: 0 <= i < |posted| ==> SpellsCounter(posted[i].text.extranonce2, stamps[i])
  }

  ghost predicate ConnInv(c: Connection) {
    && Inv(c.w)
    && c.t.counter == CounterAt(c.attempts)
    && StampsOk(c.w.posted, c.stamps, c.attempts)
  }

  lemma RebuildInv(c: Connection)
    requires ConnInv(c)
    ensures ConnInv(RebuildStep(c))
  {
    hide Inv, Step, StampsOk, Rebuild, CounterAt;
    RebuildMeaning(c.t, c.attempts);
    var (t, made) := Rebuild(c.t);
    if Attempts(c.t) {
      LaterAttempts(c.w.posted, c.stamps, c.attempts);
    }
    if made.Some? {
      StepInv(c.w, NewJob(made.value));
      JobPosted(c.w, NewJob(made.value));
      StampNext(c.w.posted, c.stamps, c.attempts, made.value);
    }
  }

  /** An attempt uses up one counter value, and a job it makes spells that value. */
  lemma RebuildMeaning(t: Template, attempt: nat)
    requires t.counter == CounterAt(attempt)
    ensures var (next, made) := Rebuild(t);
      && next.counter == CounterAt(if Attempts(t) then attempt + 1 else attempt)
      && (made.Some? ==> Attempts(t) && SpellsCounter(made.value.text.extranonce2, attempt))
  {
    hide HeaderOf, FormatExtranonce2, TargetBytes, Plus;
    PlusWraps(attempt + 1, 1);
  }

  lemma LaterAttempts(posted: seq<PublicJob>, stamps: seq<nat>, attempts: nat)
    requires StampsOk(posted, stamps, attempts)
    ensures StampsOk(posted, stamps, attempts + 1)
  {
    hide SpellsCounter;
    RaiseLast(stamps, attempts, attempts + 1);
  }

  lemma StampNext(posted: seq<PublicJob>, stamps: seq<nat>, attempts: nat, job: PublicJob)
    requires StampsOk(posted, stamps, attempts)
    requires SpellsCounter(job.text.extranonce2, attempts)
    ensures StampsOk(posted + [job], stamps + [attempts], attempts + 1)
  {
    hide SpellsCounter;
    AppendNext(stamps + [attempts]);
  }

  lemma RaiseLast(stamps: seq<nat>, last: nat, next: nat)
    requires Increasing(stamps + [last]) && last <= next
    ensures Increasing(stamps + [next])
  {
    var s := stamps + [next];
    forall i, j | 0 <= i < j < |s| ensures s[i] < s[j] {
      assert (stamps + [last])[i] < (stamps + [last])[j];
    }
  }

  lemma AppendNext(s: seq<nat>)
    requires s != [] && Increasing(s)
    ensures Increasing(s + [s[|s| - 1] + 1])
  {
  }

  lemma HandleInv(c: Connection, event: Event)
    requires ConnInv(c)
    ensures ConnInv(Handle(c, event))
  {
    hide Inv, Step, StampsOk, RebuildStep, Fits;
    match event
    case Notify(notice) =>
      var next := c.(t := StoreNotice(c.t, notice));
      if next.t.valid { RebuildInv(next); }
    case SetDifficulty(difficulty) =>
      if difficulty.Some? && c.t.valid { RebuildInv(c.(t := c.t.(difficulty := difficulty.value))); }
    case SetExtranonce(newExtranonce1, newSize) =>
      var next := c.(t := Extranonces(c.t, newExtranonce1, newSize));
      if next.t.valid { RebuildInv(next); }
    case Subscribed(_, _) =>
    case Roll =>
      if c.t.mining {
        StepInv(c.w, AskExhausted);
        JobPosted(c.w, AskExhausted);
        RebuildInv(c.(w := Step(c.w, AskExhausted)));
      }
    case Act(action) =>
      StepInv(c.w, action);
      JobPosted(c.w, action);
  }

  lemma {:induction false} ConnectionInv(mining: bool, workers: nat, noJob: PublicJob, events: seq<Event>)
    ensures ConnInv(RunEvents(Open(mining, workers, noJob), events))
  {
    hide Handle, ConnInv;
    if events == [] {
      OpenInv(mining, workers, noJob);
    } else {
      ConnectionInv(mining, workers, noJob, events[..|events| - 1]);
      HandleInv(RunEvents(Open(mining, workers, noJob), events[..|events| - 1]), events[|events| - 1]);
    }
  }

  lemma OpenInv(mining: bool, workers: nat, noJob: PublicJob)
    ensures ConnInv(Open(mining, workers, noJob))
  {
    hide Inv;
    StartInv(workers, noJob);
  }

  /** While the counter has not wrapped, different jobs have different extranonce2. */
  lemma ExtranoncesDiffer(posted: seq<PublicJob>, stamps: seq<nat>, attempts: nat, i: nat, j: nat)
    requires StampsOk(posted, stamps, attempts) && attempts <= WRAP && i < j < |posted|
    ensures posted[i].text.extranonce2 != posted[j].text.extranonce2
  {
    hide SpellsCounter;
    var s := stamps + [attempts];
    assert s[i] < s[j] < s[|stamps|];
    CountersDiffer(stamps[i], stamps[j]);
    if posted[i].text.extranonce2 == posted[j].text.extranonce2 {
      SpellsOneCounter(posted[i].text.extranonce2, stamps[i], stamps[j]);
    }
  }

  lemma SpellsOneCounter(text: string, x: nat, y: nat)
    requires SpellsCounter(text, x) && SpellsCounter(text, y)
    ensures CounterAt(x) == CounterAt(y)
  {
    hide FormatExtranonce2, CounterAt;
    var size1 :| text == FormatExtranonce2(32, size1, CounterAt(x));
    var size2 :| text == FormatExtranonce2(32, size2, CounterAt(y));
    FormatInjective(size1, CounterAt(x), size2, CounterAt(y));
  }

  lemma CountersDiffer(x: nat, y: nat)
    requires x < y < WRAP
    ensures CounterAt(x) != CounterAt(y)
  {
  }

  /** The work a claim stands for: its job's extranonce2. */
  function Extranonce2Of(c: Connection, k: nat): string
    requires k < |c.w.claims| && 1 <= c.w.claims[k].job <= |c.w.posted|
  {
    c.w.posted[c.w.claims[k].job - 1].text.extranonce2
  }

  lemma DifferentJobs(c: Connection, j: nat, k: nat)
    requires ConnInv(c) && c.attempts <= WRAP && j < |c.w.posted| && k < |c.w.posted| && j != k
    ensures c.w.posted[j].text.extranonce2 != c.w.posted[k].text.extranonce2
  {
    hide Inv, StampsOk;
    if j < k {
      ExtranoncesDiffer(c.w.posted, c.stamps, c.attempts, j, k);
    } else {
      ExtranoncesDiffer(c.w.posted, c.stamps, c.attempts, k, j);
    }
  }

  /** Over every interleaving of messages, rolls and worker steps of a connection, no
      pair of extranonce2 and nonce is handed out twice, as long as the rebuild attempts
      do not exceed the range of the 64-bit counter. */
  lemma NoWorkTwice(mining: bool, workers: nat, noJob: PublicJob, events: seq<Event>, j: nat, k: nat)
    requires var c := RunEvents(Open(mining, workers, noJob), events);
      j < k < |c.w.claims| && c.attempts <= WRAP
    ensures var c := RunEvents(Open(mining, workers, noJob), events);
      var a, b := c.w.claims[j], c.w.claims[k];
      && 1 <= a.job <= |c.w.posted| && 1 <= b.job <= |c.w.posted|
      && (Extranonce2Of(c, j) != Extranonce2Of(c, k) || a.start + a.count <= b.start)
  {
    hide RunEvents, StampsOk, Frontier, Inv, MatchesOk, OncePerClaim;
    var c := RunEvents(Open(mining, workers, noJob), events);
    ConnectionInv(mining, workers, noJob, events);
    var a, b := c.w.claims[j], c.w.claims[k];
    ClaimStarts(c.w);
    if a.job == b.job {
      ClaimsApart(c.w.claims, j, k);
    } else {
      DifferentJobs(c, a.job - 1, b.job - 1);
    }
  }
}
