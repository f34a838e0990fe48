/** Which jobs a connection of src/stratum.c makes, said of the events alone: the last
    messages before a job decide everything about it. */
module WorkHistory {
  import opened Options
  import opened Words
  import opened Digits
  import opened Extranonce
  import opened Job
  import opened Target
  import opened MinerCore
  import opened MinerWorld
  import opened MinerInvariants
  import opened MinerTheorems
  import opened Work

  // ---- What is in force after some events ----

  function LastNotice(events: seq<Event>): Option<Notice> {
    if events == [] then None
    else
      var n := |events| - 1;
      if events[n].Notify? then Some(events[n].notice) else LastNotice(events[..n])
  }

  /** The last notification, if all its texts fit their fields of 128, 65, 16384 and 9
      bytes; of its branches the first 128 count. */
  function NoticeInForce(events: seq<Event>): Option<Notice> {
    match LastNotice(events)
    case None => None
    case Some(n) =>
      var merkle := if |n.merkle| > 128 then n.merkle[..128] else n.merkle;
      if && |n.jobId| <= 127 && |n.prevhash| <= 64 && |n.coinb1| <= 16383 && |n.coinb2| <= 16383
        && |n.version| <= 8 && |n.nbits| <= 8 && |n.ntime| <= 8 && forall b :: b in merkle ==> |b| <= 64
      then Some(n.(merkle := merkle))
      else None
  }

  /** The first extranonce given last, cut to 127 characters. */
  function Extranonce1InForce(events: seq<Event>): string {
    if events == [] then ""
    else
      var n := |events| - 1;
      match events[n]
      case SetExtranonce(Some(x), _) => if |x| > 127 then x[..127] else x
      case Subscribed(Some(x), _) => if |x| > 127 then x[..127] else x
      case _ => Extranonce1InForce(events[..n])
  }

  /** The size given last, at first 4. */
  function SizeInForce(events: seq<Event>): int {
    if events == [] then 4
    else
      var n := |events| - 1;
      match events[n]
      case SetExtranonce(_, Some(size)) => size
      case Subscribed(_, Some(size)) => size
      case _ => SizeInForce(events[..n])
  }

  /** The difficulty given last, at first 1. */
  function DifficultyInForce(events: seq<Event>): real {
    if events == [] then 1.0
    else
      var n := |events| - 1;
      match events[n]
      case SetDifficulty(Some(d)) => d
      case _ => DifficultyInForce(events[..n])
  }

  /** The template of a connection is what is in force. */
  ghost predicate Follows(t: Template, mining: bool, events: seq<Event>) {
    && t.mining == mining
    && (t.valid <==> NoticeInForce(events).Some?)
    && (t.valid ==> t.notice == NoticeInForce(events).value)
    && t.extranonce1 == Extranonce1InForce(events)
    && t.extranonce2Size == SizeInForce(events)
    && t.difficulty == DifficultyInForce(events)
  }

  /** What an event does to the template before the job is rebuilt. */
  function Stored(t: Template, event: Event): Template {
    match event
    case Notify(notice) => StoreNotice(t, notice)
    case SetDifficulty(Some(d)) => t.(difficulty := d)
    case SetExtranonce(x, size) => Extranonces(t, x, size)
    case Subscribed(x, size) => Extranonces(t, x, size)
    case _ => t
  }

  /** One more event. */
  lemma InForceNext(events: seq<Event>, event: Event)
    ensures var all := events + [event];
      && LastNotice(all) == (if event.Notify? then Some(event.notice) else LastNotice(events))
      && Extranonce1InForce(all) == (match event
        case SetExtranonce(Some(x), _) => (if |x| > 127 then x[..127] else x)
        case Subscribed(Some(x), _) => (if |x| > 127 then x[..127] else x)
        case _ => Extranonce1InForce(events))
      && SizeInForce(all) == (match event
        case SetExtranonce(_, Some(size)) => size
        case Subscribed(_, Some(size)) => size
        case _ => SizeInForce(events))
      && DifficultyInForce(all) == if event.SetDifficulty? && event.difficulty.Some? then event.difficulty.value
        else DifficultyInForce(events)
  {
    var all := events + [event];
    assert all[..|all| - 1] == events && all[|all| - 1] == event;
  }

  lemma StoredNotice(t: Template, events: seq<Event>, n: Notice)
    requires LastNotice(events) == Some(n)
    ensures var u := StoreNotice(t, n);
      (u.valid <==> NoticeInForce(events).Some?) && (u.valid ==> u.notice == NoticeInForce(events).value)
  {
    hide LastNotice;
  }

  lemma StoredFollows(t: Template, mining: bool, events: seq<Event>, event: Event)
    requires Follows(t, mining, events)
    ensures Follows(Stored(t, event), mining, events + [event])
  {
    hide LastNotice, Extranonce1InForce, SizeInForce, DifficultyInForce;
    InForceNext(events, event);
    if event.Notify? {
      hide StoreNotice, NoticeInForce;
      StoredNotice(t, events + [event], event.notice);
      OthersStored(t, event.notice);
    }
  }

  lemma OthersStored(t: Template, n: Notice)
    ensures var u := StoreNotice(t, n); u == t.(valid := u.valid, notice := u.notice)
  {
  }

  lemma CounterAside(t: Template, u: Template, mining: bool, events: seq<Event>)
    requires Follows(t, mining, events) && u == t.(counter := u.counter)
    ensures Follows(u, mining, events)
  {
    hide NoticeInForce, Extranonce1InForce, SizeInForce, DifficultyInForce;
  }

  // ---- Which events make a job ----

  /** An event after which the job is rebuilt: a notification, a difficulty, an extranonce,
      or polling an exhausted miner. */
  predicate Triggers(event: Event, exhausted: bool) {
    event.Notify? || (event.SetDifficulty? && event.difficulty.Some?) || event.SetExtranonce? || (event.Roll? && exhausted)
  }

  /** A job can be built of what is in force. */
  ghost predicate Ready(mining: bool, events: seq<Event>) {
    mining && NoticeInForce(events).Some? && Extranonce1InForce(events) != "" && SizeInForce(events) > 0
  }

  function TextsInForce(events: seq<Event>, extranonce2: string): Texts
    requires NoticeInForce(events).Some?
  {
    var n := NoticeInForce(events).value;
    Texts(n.coinb1, Extranonce1InForce(events), extranonce2, n.coinb2, n.merkle, n.version, n.prevhash, n.ntime, n.nbits)
  }

  /** The job is made of what is in force: it names the notification's texts and an
      extranonce2, its header spells them, and its target is right for the difficulty. */
  ghost predicate MadeFrom(job: PublicJob, events: seq<Event>) {
    && NoticeInForce(events).Some?
    && var n := NoticeInForce(events).value;
      && job.text.jobId == n.jobId && job.text.ntime == n.ntime
      && Spells(job.header, TextsInForce(events, job.text.extranonce2))
      && var d := DifficultyInForce(events);
        job.target == TargetBytes(if d > 0.0 then d else 1.0) && IsTargetFor(Value(job.target, 0x100), d)
  }

  /** What a rebuild makes of what is in force with a text for the extranonce2: a job, or
      none exactly when there is no such text or no header spells the texts. */
  ghost predicate Makes(made: Option<PublicJob>, events: seq<Event>, extranonce2: string)
    requires NoticeInForce(events).Some?
  {
    match made
    case Some(job) => extranonce2 != "" && MadeFrom(job, events) && job.text.extranonce2 == extranonce2
    case None => extranonce2 == "" || forall h :: !Spells(h, TextsInForce(events, extranonce2))
  }

  lemma RebuildFollows(t: Template, mining: bool, events: seq<Event>)
    requires Follows(t, mining, events)
    ensures var (next, made) := Rebuild(t);
      && Follows(next, mining, events)
      && (Attempts(t) <==> Ready(mining, events))
      && var x := FormatExtranonce2(32, SizeInForce(events), t.counter);
      if Ready(mining, events) then Makes(made, events, x) else next == t && made.None?
  {
    hide NoticeInForce, Extranonce1InForce, SizeInForce, DifficultyInForce, HeaderOf, Spells, FormatExtranonce2, TargetBytes;
    hide TargetOf, IsTargetFor, Plus, Value;
    var (next, made) := Rebuild(t);
    CounterAside(t, next, mining, events);
    if Attempts(t) {
      var texts := TextsOf(t, FormatExtranonce2(32, t.extranonce2Size, t.counter));
      forall h ensures HeaderOf(texts) == Some(h) <==> Spells(h, texts) {
        HeaderExact(texts, h);
      }
      IsTarget(t.difficulty);
      TargetBytesValue(Effective(t.difficulty));
    }
  }

  /** One more job or none. */
  function Joined(posted: seq<PublicJob>, made: Option<PublicJob>): seq<PublicJob> {
    if made.Some? then posted + [made.value] else posted
  }

  /** From c to next an attempt was made, for the events up to then, or none. */
  ghost predicate Posts(c: Connection, next: Connection, events: seq<Event>, attempt: bool, made: Option<PublicJob>) {
    && next.w.posted == Joined(c.w.posted, made)
    && next.attempts == c.attempts + (if attempt then 1 else 0)
    && (if attempt
        then NoticeInForce(events).Some?
          && Makes(made, events, FormatExtranonce2(32, SizeInForce(events), CounterAt(c.attempts)))
        else made.None?)
  }

  lemma RebuildPosts(c: Connection, mining: bool, events: seq<Event>) returns (made: Option<PublicJob>)
    requires Follows(c.t, mining, events) && c.t.counter == CounterAt(c.attempts)
    ensures var next := RebuildStep(c);
      Follows(next.t, mining, events) && Posts(c, next, events, Ready(mining, events), made)
    ensures !Ready(mining, events) ==> RebuildStep(c) == c
  {
    hide NoticeInForce, Extranonce1InForce, SizeInForce, DifficultyInForce, FormatExtranonce2;
    hide Follows, Makes, Rebuild, Step, CounterAt;
    RebuildFollows(c.t, mining, events);
    made := Rebuild(c.t).1;
    if made.Some? {
      JobPosted(c.w, NewJob(made.value));
    }
  }

  /** The connection after an event, before the job is rebuilt. */
  function Taken(c: Connection, event: Event): Connection {
    hide Step;
    c.(t := Stored(c.t, event),
       w := match event
            case Act(action) => if action.NewJob? then c.w else Step(c.w, action)
            case Roll => if c.t.mining then Step(c.w, AskExhausted) else c.w
            case _ => c.w)
  }

  lemma HandleIs(c: Connection, event: Event)
    ensures var next := Taken(c, event);
      && Handle(c, event) ==
        (if Triggers(event, c.w.core.exhausted) && Attempts(next.t) then RebuildStep(next) else next)
      && next.w.posted == c.w.posted && next.attempts == c.attempts && next.t.counter == c.t.counter
  {
    hide Step, HeaderOf, FormatExtranonce2, Work.Fits;
    JobPosted(c.w, AskExhausted);
    if event.Act? {
      JobPosted(c.w, event.action);
    }
  }

  /** An event makes an attempt exactly when it is one that triggers a rebuild and
      everything is ready; the attempt takes the next counter and makes a job of what is in
      force, or none exactly when the counter has no text or the texts are malformed. */
  lemma EventPosts(c: Connection, mining: bool, events: seq<Event>, event: Event) returns (made: Option<PublicJob>)
    requires Follows(c.t, mining, events) && c.t.counter == CounterAt(c.attempts)
    ensures var next, all := Handle(c, event), events + [event];
      && Follows(next.t, mining, all)
      && Posts(c, next, all, Triggers(event, c.w.core.exhausted) && Ready(mining, all), made)
  {
    hide NoticeInForce, Extranonce1InForce, SizeInForce, DifficultyInForce, FormatExtranonce2;
    hide Follows, Makes, Handle, Stored, Taken, RebuildStep, CounterAt, Ready, Triggers, Attempts;
    var all, next := events + [event], Taken(c, event);
    HandleIs(c, event);
    TakenFollows(c, mining, events, event);
    AttemptsAre(next.t, mining, all);
    made := RebuildPosts(next, mining, all);
    if !Triggers(event, c.w.core.exhausted) || !Ready(mining, all) {
      made := None;
    }
  }

  lemma TakenFollows(c: Connection, mining: bool, events: seq<Event>, event: Event)
    requires Follows(c.t, mining, events)
    ensures Follows(Taken(c, event).t, mining, events + [event])
  {
    hide Follows, Stored;
    StoredFollows(c.t, mining, events, event);
  }

  lemma AttemptsAre(t: Template, mining: bool, events: seq<Event>)
    requires Follows(t, mining, events)
    ensures Attempts(t) <==> Ready(mining, events)
  {
    hide NoticeInForce, Extranonce1InForce, SizeInForce, DifficultyInForce;
  }

  // ---- Whole connections ----

  /** For each job the number of events up to the one that made it. */
  function Origins(mining: bool, workers: nat, noJob: PublicJob, events: seq<Event>): seq<nat> {
    if events == [] then []
    else
      var n := |events| - 1;
      var earlier, now := RunEvents(Open(mining, workers, noJob), events[..n]), RunEvents(Open(mining, workers, noJob), events);
      Origins(mining, workers, noJob, events[..n]) + if |now.w.posted| > |earlier.w.posted| then [|events|] else []
  }

  /** Job g is made of what was in force when the event that made it was handled. */
  ghost predicate JobsMade(posted: seq<PublicJob>, origins: seq<nat>, events: seq<Event>) {
    && |posted| == |origins|
    && forall g :: 0 <= g < |posted| ==> 0 < origins[g] <= |events| && MadeFrom(posted[g], events[..origins[g]])
  }

  lemma JobsMadeLater(posted: seq<PublicJob>, origins: seq<nat>, events: seq<Event>, event: Event, made: Option<PublicJob>)
    requires JobsMade(posted, origins, events) && (made.Some? ==> MadeFrom(made.value, events + [event]))
    ensures JobsMade(Joined(posted, made), if made.Some? then origins + [|events| + 1] else origins, events + [event])
  {
    hide MadeFrom;
    var all := events + [event];
    assert all[..|all|] == all;
    forall g | 0 <= g < |posted| ensures all[..origins[g]] == events[..origins[g]] {
    }
  }

  lemma NextOrigin(mining: bool, workers: nat, noJob: PublicJob, events: seq<Event>, made: Option<PublicJob>)
    requires events != []
    requires var open := Open(mining, workers, noJob);
      RunEvents(open, events).w.posted == Joined(RunEvents(open, events[..|events| - 1]).w.posted, made)
    ensures var most := Origins(mining, workers, noJob, events[..|events| - 1]);
      Origins(mining, workers, noJob, events) == if made.Some? then most + [|events|] else most
  {
    hide RunEvents;
  }

  lemma MakesMade(made: Option<PublicJob>, events: seq<Event>, x: string)
    requires NoticeInForce(events).Some? && Makes(made, events, x)
    ensures made.Some? ==> MadeFrom(made.value, events)
  {
    hide MadeFrom, NoticeInForce;
  }

  /** After any events the template is what is in force, and every job was made of what was
      in force then: its header spells the texts of the last notification before it, with
      the first extranonce and the difficulty given last before it. */
  lemma {:induction false} JobsFollowMessages(mining: bool, workers: nat, noJob: PublicJob, events: seq<Event>)
    ensures var c := RunEvents(Open(mining, workers, noJob), events);
      && Follows(c.t, mining, events)
      && JobsMade(c.w.posted, Origins(mining, workers, noJob, events), events)
    decreases |events|
  {
    hide Handle, Follows, Triggers, Ready, ConnInv, JobsMade, MadeFrom, Makes, FormatExtranonce2, CounterAt, NoticeInForce, SizeInForce;
    var open := Open(mining, workers, noJob);
    if events == [] {
      NothingYet(mining, workers, noJob);
    } else {
      var n := |events| - 1;
      var c := RunEvents(open, events[..n]);
      JobsFollowMessages(mining, workers, noJob, events[..n]);
      ConnectionInv(mining, workers, noJob, events[..n]);
      CounterIs(c);
      assert events == events[..n] + [events[n]];
      var made := EventPosts(c, mining, events[..n], events[n]);
      if made.Some? {
        MakesMade(made, events, FormatExtranonce2(32, SizeInForce(events), CounterAt(c.attempts)));
      }
      NextOrigin(mining, workers, noJob, events, made);
      JobsMadeLater(c.w.posted, Origins(mining, workers, noJob, events[..n]), events[..n], events[n], made);
    }
  }

  lemma NothingYet(mining: bool, workers: nat, noJob: PublicJob)
    ensures Follows(Open(mining, workers, noJob).t, mining, []) && JobsMade(Open(mining, workers, noJob).w.posted, [], [])
  {
  }

  lemma CounterIs(c: Connection)
    requires ConnInv(c)
    ensures c.t.counter == CounterAt(c.attempts)
  {
  }

  // ---- Shares ----

  /** What a share is submitted with. */
  function Submission(share: Share): (string, Word) {
    (share.text.extranonce2, share.nonce)
  }

  /** The share is the double hash of the header of a job made of what was in force after
      these events, it names the job's texts, and it is reported with at least the
      difficulty the pool had asked for. */
  ghost predicate GenuineFor(job: PublicJob, events: seq<Event>, share: Share) {
    && MadeFrom(job, events) && job.text == share.text && Winning(job, share.nonce, share.hash)
    && var d := DifficultyInForce(events); AtLeast(share.difficulty, if d > 0.0 then d else 1.0)
  }

  ghost predicate Genuine(share: Share, posted: seq<PublicJob>, origins: seq<nat>, events: seq<Event>) {
    exists g :: 0 <= g < |posted| && g < |origins| && origins[g] <= |events| && GenuineFor(posted[g], events[..origins[g]], share)
  }

  /** Winning against a target that is right for a difficulty is being reported with at
      least it. */
  lemma WinningHasDifficulty(job: PublicJob, difficulty: real, nonce: Word, hash: seq<Byte>)
    requires IsTargetFor(Value(job.target, 0x100), difficulty) && Winning(job, nonce, hash)
    ensures AtLeast(DifficultyOf(Value(hash, 0x100)), if difficulty > 0.0 then difficulty else 1.0)
  {
    hide Value, DifficultyOf, AtLeast, Pow256;
    var d := if difficulty > 0.0 then difficulty else 1.0;
    ValueNonnegative(hash, 0x100);
    if Value(hash, 0x100) == 0 {
      NoHashIsInfinite();
      InfiniteIsEnough(d);
    } else {
      BelowThreshold(d, Value(hash, 0x100));
    }
  }

  lemma InfiniteIsEnough(d: real)
    ensures AtLeast(Infinite, d)
  {
  }

  /** Every match of a connection is genuine. */
  lemma MatchesAreGenuine(mining: bool, workers: nat, noJob: PublicJob, events: seq<Event>, k: nat)
    requires k < |RunEvents(Open(mining, workers, noJob), events).w.matches|
    ensures var c := RunEvents(Open(mining, workers, noJob), events);
      Genuine(c.w.matches[k].share, c.w.posted, Origins(mining, workers, noJob, events), events)
  {
    hide RunEvents, Frontier, Inv, OncePerClaim, Winning, SpellsCounter, Increasing, AtLeast, DifficultyOf, Origins;
    hide Follows, IsTargetFor, Spells, NoticeInForce, DifficultyInForce, Value, TargetBytes, TextsInForce;
    var c := RunEvents(Open(mining, workers, noJob), events);
    ConnectionInv(mining, workers, noJob, events);
    JobsFollowMessages(mining, workers, noJob, events);
    ClaimStarts(c.w);
    var m := c.w.matches[k];
    assert MatchOk(m, c.w.claims, c.w.posted);
    var g := c.w.claims[m.claim].job - 1;
    var before := events[..Origins(mining, workers, noJob, events)[g]];
    WinningHasDifficulty(c.w.posted[g], DifficultyInForce(before), m.share.nonce, m.share.hash);
    assert GenuineFor(c.w.posted[g], before, m.share);
  }

  /** No two matches of a connection are ever submitted with the same extranonce2 and
      nonce. */
  lemma NoSubmissionTwice(mining: bool, workers: nat, noJob: PublicJob, events: seq<Event>, j: nat, k: nat)
    requires var c := RunEvents(Open(mining, workers, noJob), events);
      j < k < |c.w.matches| && c.attempts <= WRAP
    ensures var c := RunEvents(Open(mining, workers, noJob), events);
      && Submission(c.w.matches[j].share) != Submission(c.w.matches[k].share)
      && Genuine(c.w.matches[j].share, c.w.posted, Origins(mining, workers, noJob, events), events)
      && Genuine(c.w.matches[k].share, c.w.posted, Origins(mining, workers, noJob, events), events)
  {
    hide RunEvents, Frontier, Inv, OncePerClaim, Winning, SpellsCounter, Increasing, Genuine, Origins;
    var c := RunEvents(Open(mining, workers, noJob), events);
    ConnectionInv(mining, workers, noJob, events);
    ClaimStarts(c.w);
    ReportsApart(c.w.matches, c.w.claims, c.w.posted, j, k);
    assert MatchOk(c.w.matches[j], c.w.claims, c.w.posted) && MatchOk(c.w.matches[k], c.w.claims, c.w.posted);
    var x, y := c.w.claims[c.w.matches[j].claim].job, c.w.claims[c.w.matches[k].claim].job;
    if x != y {
      DifferentJobs(c, x - 1, y - 1);
    }
    MatchesAreGenuine(mining, workers, noJob, events, j);
    MatchesAreGenuine(mining, workers, noJob, events, k);
  }
}
