/** The reconnect and donation controller of src/stratum_main.c, the phases of
    src/donation.c and the session clock of src/stratum.c. Seconds are real numbers. */
module Reconnect {
  import opened Options

  const MAX_RECONNECT_DELAY := 60
  const DONATION_CYCLE_MINUTES := 100

  // ---- The clock of one session ----

  /** What one round of the session loop meets after its clock checks: a failed submit, a
      read that times out, a closed or failed connection, or a line. ready says whether
      the session is authorized and notified by then, sent whether the answers the line
      calls for could be sent, and later is the clock when the line is done. */
  datatype Happening = SubmitFailed | Idle | Closed | Line(ready: bool, sent: bool, later: real)

  datatype Tick = Tick(now: real, what: Happening)

  /** The result code of a session, the clock at its end and when its period began. */
  datatype Ended = Ended(rc: int, at: real, since: Option<real>)

  /** The loop of stratum_run_client. A zero limit or length means there is none; clock is
      the time so far. When nothing more is said to happen the pool has closed the
      connection. */
  function SessionOf(stopAt: real, seconds: real, since: Option<real>, clock: real, ticks: seq<Tick>): Ended
    decreases |ticks|
  {
    if ticks == [] then Ended(1, clock, since)
    else
      var t := ticks[0];
      if stopAt > 0.0 && t.now >= stopAt then Ended(0, t.now, since)
      else if since.Some? && since.value + seconds > 0.0 && t.now >= since.value + seconds then Ended(0, t.now, since)
      else match t.what
        case SubmitFailed => Ended(1, t.now, since)
        case Closed => Ended(1, t.now, since)
        case Idle => SessionOf(stopAt, seconds, since, t.now, ticks[1..])
        case Line(ready, sent, later) =>
          if !sent then Ended(1, t.now, since)
          else
            var starts := since.None? && seconds > 0.0 && ready;
            SessionOf(stopAt, seconds, if starts then Some(later) else since, later, ticks[1..])
  }

  ghost predicate PositiveClock(ticks: seq<Tick>) {
    forall t :: t in ticks && t.what.Line? ==> t.what.later > 0.0
  }

  /** sessionStopAt is 0 until the period begins; the clock starts above 0. */
  method RunSession(stopAt: real, seconds: real, ghost clock: real, ticks: seq<Tick>) returns (rc: int, ghost ended: Ended)
    requires seconds >= 0.0
    requires PositiveClock(ticks)
    ensures ended == SessionOf(stopAt, seconds, None, clock, ticks)
    ensures rc == SessionOf(stopAt, seconds, None, clock, ticks).rc
  {
    var sessionStopAt := 0.0;
    ghost var since: Option<real>, time := None, clock;
    var i := 0;
    while i < |ticks|
      invariant 0 <= i <= |ticks|
      invariant SessionOf(stopAt, seconds, None, clock, ticks) == SessionOf(stopAt, seconds, since, time, ticks[i..])
      invariant sessionStopAt == if since.Some? then since.value + seconds else 0.0
      invariant since.Some? ==> seconds > 0.0 && since.value > 0.0
      decreases |ticks| - i
    {
      var t := ticks[i];
      assert ticks[i..][1..] == ticks[i + 1..];
      if stopAt > 0.0 && t.now >= stopAt {
        return 0, Ended(0, t.now, since);
      }
      if sessionStopAt > 0.0 && t.now >= sessionStopAt {
        return 0, Ended(0, t.now, since);
      }
      time := t.now;
      match t.what {
        case SubmitFailed => return 1, Ended(1, t.now, since);
        case Closed => return 1, Ended(1, t.now, since);
        case Idle =>
        case Line(ready, sent, later) =>
          if !sent {
            return 1, Ended(1, t.now, since);
          }
          if sessionStopAt == 0.0 && seconds > 0.0 && ready {
            sessionStopAt := later + seconds;
            since := Some(later);
          }
          time := later;
      }
      i := i + 1;
    }
    assert ticks[|ticks|..] == [];
    return 1, Ended(1, time, since);
  }

  /** A session that ends well has reached the runtime limit, or has been active for all
      of its period since it was authorized and notified. */
  lemma {:induction false} CompletedSessionLasts(stopAt: real, seconds: real, since: Option<real>, clock: real, ticks: seq<Tick>)
    requires since.Some? ==> seconds > 0.0
    ensures var e := SessionOf(stopAt, seconds, since, clock, ticks);
      && e.rc in {0, 1}
      && (e.rc == 0 ==> (stopAt > 0.0 && e.at >= stopAt) || (seconds > 0.0 && e.since.Some? && e.at - e.since.value >= seconds))
    decreases |ticks|
  {
    if ticks != [] {
      var t := ticks[0];
      match t.what
      case Idle => CompletedSessionLasts(stopAt, seconds, since, t.now, ticks[1..]);
      case Line(ready, sent, later) =>
        var starts := since.None? && seconds > 0.0 && ready;
        CompletedSessionLasts(stopAt, seconds, if starts then Some(later) else since, later, ticks[1..]);
      case _ =>
    }
  }

  /** The clock never runs backwards from one reading of a session to the next. */
  ghost predicate Monotone(clock: real, ticks: seq<Tick>)
    decreases |ticks|
  {
    if ticks == [] then true
    else
      var t := ticks[0];
      && clock <= t.now && (t.what.Line? ==> t.now <= t.what.later)
      && Monotone(if t.what.Line? then t.what.later else t.now, ticks[1..])
  }

  /** Then a session ends no earlier than it began and than its period began. */
  lemma {:induction false} SessionInTime(stopAt: real, seconds: real, since: Option<real>, clock: real, ticks: seq<Tick>)
    requires Monotone(clock, ticks) && (since.Some? ==> since.value <= clock)
    ensures var e := SessionOf(stopAt, seconds, since, clock, ticks);
      clock <= e.at && (e.since.Some? ==> e.since.value <= e.at)
    decreases |ticks|
  {
    if ticks != [] {
      var t := ticks[0];
      match t.what
      case Idle => SessionInTime(stopAt, seconds, since, t.now, ticks[1..]);
      case Line(ready, sent, later) =>
        var starts := since.None? && seconds > 0.0 && ready;
        SessionInTime(stopAt, seconds, if starts then Some(later) else since, later, ticks[1..]);
      case _ =>
    }
  }

  // ---- Delays ----

  function Power2(n: nat): nat {
    if n == 0 then 1 else 2 * Power2(n - 1)
  }

  function Min(a: int, b: int): int {
    if a < b then a else b
  }

  function AtLeastOne(base: int): nat {
    if base <= 0 then 1 else base
  }

  /** The base delay doubled with every further attempt, up to 60. */
  function RetryDelay(baseDelay: int, attempt: nat): int {
    Min(MAX_RECONNECT_DELAY, AtLeastOne(baseDelay) * Power2(if attempt == 0 then 0 else attempt - 1))
  }

  lemma RetryDelayBounds(baseDelay: int, attempt: nat)
    ensures 1 <= RetryDelay(baseDelay, attempt) <= MAX_RECONNECT_DELAY
  {
    var n := if attempt == 0 then 0 else attempt - 1;
    PowerPositive(n);
    ProductPositive(AtLeastOne(baseDelay), Power2(n));
  }

  /** retry_delay_seconds doubles the base delay with every further attempt, up to 60. */
  method RetryDelaySeconds(baseDelay: int, attempt: nat) returns (delay: int)
    ensures delay == RetryDelay(baseDelay, attempt)
  {
    hide Power2;
    delay := baseDelay;
    if delay <= 0 {
      delay := 1;
    }
    var base := delay;
    PowerSteps(0);
    if delay > MAX_RECONNECT_DELAY {
      Grows(base, base, 0, if attempt == 0 then 0 else attempt - 1);
      return MAX_RECONNECT_DELAY;
    }
    var i := 1;
    while i < attempt && delay < MAX_RECONNECT_DELAY
      invariant 1 <= i && (i <= attempt || i == 1) && 1 <= delay <= MAX_RECONNECT_DELAY
      invariant delay == Min(MAX_RECONNECT_DELAY, base * Power2(i - 1))
    {
      PowerSteps(i - 1);
      DoubledProduct(base, Power2(i - 1));
      if delay > MAX_RECONNECT_DELAY / 2 {
        delay := MAX_RECONNECT_DELAY;
      } else {
        delay := delay * 2;
      }
      i := i + 1;
    }
    if i < attempt {
      Grows(base, base * Power2(i - 1), i - 1, attempt - 1);
    }
    return if delay > MAX_RECONNECT_DELAY then MAX_RECONNECT_DELAY else delay;
  }

  lemma PowerSteps(n: nat)
    ensures Power2(0) == 1 && Power2(n + 1) == 2 * Power2(n)
  {
  }

  lemma DoubledProduct(a: nat, p: nat)
    ensures a * (2 * p) == 2 * (a * p)
  {
  }

  lemma {:induction false} Grows(base: nat, at: nat, m: nat, n: nat)
    requires m <= n && at == base * Power2(m)
    ensures at <= base * Power2(n)
    decreases n
  {
    if m < n {
      Grows(base, at, m, n - 1);
      DoubledProduct(base, Power2(n - 1));
    }
  }

  // ---- The controller ----

  /** The donation level is checked to be valid before the loop. */
  datatype Config = Config(mining: bool, level: int, pools: nat, retries: int, reconnectDelay: int, stopAt: real)

  ghost predicate ValidConfig(c: Config) {
    1 <= c.level < DONATION_CYCLE_MINUTES && c.pools >= 1
  }

  /** donation_phase_seconds. */
  function PhaseSeconds(level: int, donating: bool): real {
    (if donating then level else DONATION_CYCLE_MINUTES - level) as real * 60.0
  }

  /** donation_initial_user_seconds, with the random number as an argument. */
  function InitialUserSeconds(level: int, unit: real): real {
    PhaseSeconds(level, false) * (0.5 + unit)
  }

  /** One turn of the controller: the clock before the session, a nonzero code if it does
      not even open, what it meets, and the clock after it and before the delay. */
  datatype Turn = Turn(before: real, opening: int, ticks: seq<Tick>, after: real, beforeDelay: real)

  /** How the session of a turn ends when it is given a period. */
  function EndOf(c: Config, phase: real, t: Turn): Ended {
    if t.opening != 0 then Ended(t.opening, t.before, None) else SessionOf(c.stopAt, phase, None, t.before, t.ticks)
  }

  /** How long it has been active. */
  function ActiveSeconds(e: Ended): real {
    if e.since.Some? then e.at - e.since.value else 0.0
  }

  /** A session as it was started and how it ended. */
  datatype Session = Session(donating: bool, phase: real, pool: nat, attempt: nat, rc: int, active: real)

  datatype State = State(donating: bool, phase: real, attempt: nat, pool: nat, over: bool, log: seq<Session>, delays: seq<int>)

  function Initial(c: Config, unit: real): State {
    State(false, if c.mining then InitialUserSeconds(c.level, unit) else 0.0, 0, 0, false, [], [])
  }

  function Next(c: Config, s: State, t: Turn): State {
    if s.over || (c.stopAt > 0.0 && t.before >= c.stopAt) then s.(over := true)
    else
      var e := EndOf(c, s.phase, t);
      var done := s.(log := s.log + [Session(s.donating, s.phase, s.pool, s.attempt, e.rc, ActiveSeconds(e))]);
      if c.stopAt > 0.0 && t.after >= c.stopAt then done.(over := true)
      else if c.mining && e.rc == 0 then
        done.(donating := !s.donating, phase := PhaseSeconds(c.level, !s.donating), attempt := 0)
      else
        var failed :=
          if s.donating && e.rc != 0 then done.(donating := false, phase := PhaseSeconds(c.level, false))
          else if c.pools > 1 then done.(pool := (s.pool + 1) % c.pools)
          else done;
        if c.retries >= 0 && s.attempt >= c.retries then failed.(over := true)
        else if c.stopAt > 0.0 && c.stopAt - t.beforeDelay <= 0.0 then failed.(over := true)
        else failed.(attempt := s.attempt + 1, delays := s.delays + [DelayOf(c, s.attempt + 1, t)])
  }

  /** The wait before an attempt: the retry delay, cut to the remaining runtime. */
  function DelayOf(c: Config, attempt: nat, t: Turn): int {
    var delay := RetryDelay(c.reconnectDelay, attempt);
    if c.stopAt > 0.0 then Shortened(delay, c.stopAt - t.beforeDelay) else delay
  }

  function After(c: Config, unit: real, turns: seq<Turn>): State {
    if turns == [] then Initial(c, unit) else Next(c, After(c, unit, turns[..|turns| - 1]), turns[|turns| - 1])
  }

  /** stratum_run_client, which may fail before its loop. */
  method RunTurn(c: Config, phase: real, t: Turn) returns (rc: int, ghost e: Ended)
    requires phase >= 0.0 && PositiveClock(t.ticks)
    ensures e == EndOf(c, phase, t) && rc == e.rc
  {
    if t.opening != 0 {
      return t.opening, Ended(t.opening, t.before, None);
    }
    rc, e := RunSession(c.stopAt, phase, t.before, t.ticks);
  }

  /** The exit code of the program. */
  function LastCode(log: seq<Session>): int {
    if log == [] then 0 else log[|log| - 1].rc
  }

  lemma AfterNone(c: Config, unit: real)
    ensures After(c, unit, []) == Initial(c, unit)
  {
  }

  lemma AfterOne(c: Config, unit: real, turns: seq<Turn>, i: nat)
    requires i < |turns|
    ensures After(c, unit, turns[..i + 1]) == Next(c, After(c, unit, turns[..i]), turns[i])
  {
    hide Next;
    assert turns[..i + 1][..i] == turns[..i];
  }

  method NextDelay(c: Config, attempt: nat, t: Turn) returns (delay: int)
    ensures delay == DelayOf(c, attempt, t)
  {
    delay := RetryDelaySeconds(c.reconnectDelay, attempt);
    if c.stopAt > 0.0 {
      var remaining := c.stopAt - t.beforeDelay;
      delay := Shortened(delay, remaining);
    }
  }

  /** The part of main after start-up. delays are the waits before reconnecting. */
  method Controller(c: Config, unit: real, turns: seq<Turn>)
      returns (ghost log: seq<Session>, over: bool, lastRc: int, delays: seq<int>)
    requires ValidConfig(c) && unit >= 0.0
    requires forall t :: t in turns ==> PositiveClock(t.ticks)
    ensures log == After(c, unit, turns).log && over == After(c, unit, turns).over
    ensures lastRc == (if log == [] then 0 else log[|log| - 1].rc) && delays == After(c, unit, turns).delays
  {
    hide DelayOf, EndOf, After;
    AfterNone(c, unit);
    log, over, lastRc, delays := [], false, 0, [];
    var donating := false;
    var poolIndex: nat, attempt: nat := 0, 0;
    var phaseSeconds := if c.mining then InitialUserSeconds(c.level, unit) else 0.0;
    var i := 0;
    while i < |turns|
      invariant 0 <= i <= |turns| && !over
      invariant After(c, unit, turns[..i]) == State(donating, phaseSeconds, attempt, poolIndex, over, log, delays)
      invariant phaseSeconds >= 0.0 && lastRc == LastCode(log)
    {
      var t := turns[i];
      AfterOne(c, unit, turns, i);
      i := i + 1;
      if c.stopAt > 0.0 && t.before >= c.stopAt {
        StaysOver(c, unit, turns, i);
        over := true;
        return;
      }
      ghost var e: Ended;
      lastRc, e := RunTurn(c, phaseSeconds, t);
      log := log + [Session(donating, phaseSeconds, poolIndex, attempt, lastRc, ActiveSeconds(e))];
      if c.stopAt > 0.0 && t.after >= c.stopAt {
        StaysOver(c, unit, turns, i);
        over := true;
        return;
      }
      if c.mining && lastRc == 0 {
        donating := !donating;
        phaseSeconds := PhaseSeconds(c.level, donating);
        attempt := 0;
        continue;
      }
      if donating && lastRc != 0 {
        donating := false;
        phaseSeconds := PhaseSeconds(c.level, false);
      } else if c.pools > 1 {
        poolIndex := (poolIndex + 1) % c.pools;
      }
      if c.retries >= 0 && attempt >= c.retries {
        StaysOver(c, unit, turns, i);
        over := true;
        return;
      }
      if c.stopAt > 0.0 && c.stopAt - t.beforeDelay <= 0.0 {
        StaysOver(c, unit, turns, i);
        over := true;
        return;
      }
      var delay := NextDelay(c, attempt + 1, t);
      delays := delays + [delay];
      attempt := attempt + 1;
    }
    assert turns[..|turns|] == turns;
  }

  /** The delay cut to what remains of the runtime, but at least a second. */
  function Shortened(delay: int, remaining: real): (d: int)
    ensures 1 <= delay && remaining > 0.0 ==> 1 <= d <= delay && (d as real <= remaining || d == 1)
  {
    var wanted := if remaining < 1.0 then 1 else delay;
    if wanted as real > remaining then (if remaining.Floor <= 0 then 1 else remaining.Floor) else wanted
  }

  lemma {:induction false} PowerPositive(n: nat)
    ensures Power2(n) >= 1
  {
    if n > 0 {
      PowerPositive(n - 1);
    }
  }

  lemma ProductPositive(a: nat, b: nat)
    requires a >= 1 && b >= 1
    ensures a * b >= 1
  {
  }

  lemma {:induction false} StaysOver(c: Config, unit: real, turns: seq<Turn>, i: nat)
    requires i <= |turns| && After(c, unit, turns[..i]).over
    ensures After(c, unit, turns) == After(c, unit, turns[..i])
    decreases |turns|
  {
    if i == |turns| {
      assert turns[..i] == turns;
    } else {
      var n := |turns| - 1;
      assert turns[..n][..i] == turns[..i];
      StaysOver(c, unit, turns[..n], i);
    }
  }

  // ---- Properties of whole runs ----

  /** Every wait lies between one second and sixty. */
  lemma {:induction false} DelaysBounded(c: Config, unit: real, turns: seq<Turn>)
    ensures forall d :: d in After(c, unit, turns).delays ==> 1 <= d <= MAX_RECONNECT_DELAY
  {
    hide RetryDelay, EndOf;
    if turns != [] {
      DelaysBounded(c, unit, turns[..|turns| - 1]);
      RetryDelayBounds(c.reconnectDelay, After(c, unit, turns[..|turns| - 1]).attempt + 1);
    }
  }

  /** How many logged sessions did not end a phase well. */
  function Failures(c: Config, log: seq<Session>): nat {
    if log == [] then 0
    else Failures(c, log[..|log| - 1]) + if c.mining && log[|log| - 1].rc == 0 then 0 else 1
  }

  lemma FailuresOneMore(c: Config, log: seq<Session>, x: Session)
    ensures Failures(c, log + [x]) == Failures(c, log) + if c.mining && x.rc == 0 then 0 else 1
  {
    assert (log + [x])[..|log + [x]| - 1] == log;
  }

  /** While the controller goes on it has waited exactly once for every failed session. */
  lemma {:induction false} OneDelayPerFailure(c: Config, unit: real, turns: seq<Turn>)
    ensures var s := After(c, unit, turns);
      if s.over then |s.delays| <= Failures(c, s.log) <= |s.delays| + 1 else |s.delays| == Failures(c, s.log)
  {
    hide Failures, EndOf, DelayOf;
    if turns == [] {
      NoFailures(c);
    } else {
      var n := |turns| - 1;
      var s := After(c, unit, turns[..n]);
      OneDelayPerFailure(c, unit, turns[..n]);
      var e := EndOf(c, s.phase, turns[n]);
      FailuresOneMore(c, s.log, Session(s.donating, s.phase, s.pool, s.attempt, e.rc, ActiveSeconds(e)));
    }
  }

  lemma NoFailures(c: Config)
    ensures Failures(c, []) == 0
  {
  }

  /** The clock does not run backwards during a turn. */
  ghost predicate ClockOk(c: Config, s: State, t: Turn) {
    Monotone(t.before, t.ticks) && EndOf(c, s.phase, t).at <= t.after
  }

  ghost predicate ClockRun(c: Config, unit: real, turns: seq<Turn>) {
    forall i :: 0 <= i < |turns| ==> ClockOk(c, After(c, unit, turns[..i]), turns[i])
  }

  /** Every donation session follows a completed user session on the same pool. */
  ghost predicate DonationsFollow(log: seq<Session>) {
    forall i :: 0 <= i < |log| && log[i].donating ==>
      i > 0 && !log[i - 1].donating && log[i - 1].rc == 0 && log[i].pool == log[i - 1].pool
  }

  /** The failed sessions at the end of the log. */
  function FailuresAtEnd(log: seq<Session>): nat {
    if log == [] || log[|log| - 1].rc == 0 then 0 else 1 + FailuresAtEnd(log[..|log| - 1])
  }

  ghost predicate StateOk(c: Config, s: State) {
    && s.pool < c.pools && (s.donating ==> c.mining)
    && (forall i :: 0 <= i < |s.log| ==> s.log[i].pool < c.pools)
    && DonationsFollow(s.log)
    && (s.donating && !s.over ==> MayDonate(s.log, s.pool))
    && FailuresOk(c.retries, s.attempt, s.over, s.log)
  }

  ghost predicate FailuresOk(retries: int, attempt: nat, over: bool, log: seq<Session>) {
    && (!over ==> FailuresAtEnd(log) <= attempt)
    && (!over && retries >= 0 ==> attempt <= retries)
    && (retries >= 0 ==> forall k :: 0 <= k <= |log| ==> FailuresAtEnd(log[..k]) <= retries + 1)
  }

  lemma FailuresAppend(log: seq<Session>, x: Session)
    ensures FailuresAtEnd(log + [x]) == if x.rc == 0 then 0 else 1 + FailuresAtEnd(log)
  {
    assert (log + [x])[..|log + [x]| - 1] == log;
  }

  /** After a success the count starts anew; after a failure it may grow by one, up to the
      number of retries. */
  lemma FailuresNext(retries: int, attempt: nat, log: seq<Session>, x: Session)
    requires FailuresOk(retries, attempt, false, log)
    ensures FailuresOk(retries, attempt, true, log + [x])
    ensures x.rc == 0 ==> FailuresOk(retries, 0, false, log + [x])
    ensures retries < 0 || attempt < retries ==> FailuresOk(retries, attempt + 1, false, log + [x])
  {
    hide FailuresAtEnd;
    FailuresAppend(log, x);
    forall k | 0 <= k <= |log + [x]| && retries >= 0 ensures FailuresAtEnd((log + [x])[..k]) <= retries + 1 {
      if k <= |log| {
        assert (log + [x])[..k] == log[..k];
      } else {
        assert (log + [x])[..k] == log + [x] && log[..|log|] == log;
      }
    }
  }

  /** The next session may be a donation only right after a completed user session. */
  ghost predicate MayDonate(log: seq<Session>, pool: nat) {
    log != [] && var last := log[|log| - 1]; !last.donating && last.rc == 0 && last.pool == pool
  }

  lemma DonationsNext(log: seq<Session>, x: Session)
    requires DonationsFollow(log) && (x.donating ==> MayDonate(log, x.pool))
    ensures DonationsFollow(log + [x])
    ensures !x.donating && x.rc == 0 ==> MayDonate(log + [x], x.pool)
  {
  }

  lemma NextOk(c: Config, s: State, t: Turn)
    requires ValidConfig(c) && StateOk(c, s)
    ensures StateOk(c, Next(c, s, t))
  {
    hide FailuresOk, DonationsFollow, MayDonate;
    if s.over || (c.stopAt > 0.0 && t.before >= c.stopAt) {
      FailuresOver(c.retries, s.attempt, s.over, s.log);
    } else {
      var x := Session(s.donating, s.phase, s.pool, s.attempt, EndOf(c, s.phase, t).rc, ActiveSeconds(EndOf(c, s.phase, t)));
      FailuresNext(c.retries, s.attempt, s.log, x);
      DonationsNext(s.log, x);
    }
  }

  lemma FailuresOver(retries: int, attempt: nat, over: bool, log: seq<Session>)
    requires FailuresOk(retries, attempt, over, log)
    ensures FailuresOk(retries, attempt, true, log)
  {
    hide FailuresAtEnd;
  }

  /** In every run of the controller each donation session directly follows a completed
      user session, on the same pool, so that no two are adjacent; the pool is always one
      of the configured ones; and with retries >= 0 no retries + 2 sessions in a row fail. */
  lemma {:induction false} ControllerOk(c: Config, unit: real, turns: seq<Turn>)
    requires ValidConfig(c)
    ensures StateOk(c, After(c, unit, turns))
  {
    hide Next;
    if turns != [] {
      ControllerOk(c, unit, turns[..|turns| - 1]);
      NextOk(c, After(c, unit, turns[..|turns| - 1]), turns[|turns| - 1]);
    }
  }

  lemma {:induction false} FailuresCount(log: seq<Session>, k: nat)
    requires k <= |log| && forall i :: |log| - k <= i < |log| ==> log[i].rc != 0
    ensures FailuresAtEnd(log) >= k
    decreases k
  {
    if k > 0 {
      FailuresCount(log[..|log| - 1], k - 1);
    }
  }

  /** The bound on failures, said about any stretch of the log. */
  lemma BoundedFailures(c: Config, unit: real, turns: seq<Turn>, i: nat, j: nat)
    requires ValidConfig(c) && c.retries >= 0
    requires var log := After(c, unit, turns).log;
      i <= j <= |log| && forall k :: i <= k < j ==> log[k].rc != 0
    ensures j - i <= c.retries + 1
  {
    hide Next, After;
    ControllerOk(c, unit, turns);
    FailuresCount(After(c, unit, turns).log[..j], j - i);
  }

  /** Scheduled donation seconds of all donation sessions started. */
  function Donated(log: seq<Session>): real {
    if log == [] then 0.0
    else Donated(log[..|log| - 1]) + if log[|log| - 1].donating then log[|log| - 1].phase else 0.0
  }

  /** Active seconds of all completed user sessions. */
  function Mined(log: seq<Session>): real {
    if log == [] then 0.0
    else
      var last := log[|log| - 1];
      Mined(log[..|log| - 1]) + if !last.donating && last.rc == 0 then last.active else 0.0
  }

  /** A full user phase for every donation session. */
  function Owed(log: seq<Session>, phase: real): real {
    if log == [] then 0.0 else Owed(log[..|log| - 1], phase) + if log[|log| - 1].donating then phase else 0.0
  }

  ghost predicate Balanced(c: Config, s: State) {
    var p := PhaseSeconds(c.level, false);
    && Mined(s.log) + p / 2.0 >= Owed(s.log, p) + (if s.donating && !s.over then p else 0.0)
    && Owed(s.log, p) >= 0.0 && Mined(s.log) >= 0.0
    && (s.over || s.phase == PhaseSeconds(c.level, s.donating)
      || (!s.donating && Owed(s.log, p) == 0.0 && s.phase >= p / 2.0))
    && forall i :: 0 <= i < |s.log| && s.log[i].donating ==> s.log[i].phase == PhaseSeconds(c.level, true)
  }

  lemma LogAppend(log: seq<Session>, x: Session, phase: real)
    ensures Mined(log + [x]) == Mined(log) + if !x.donating && x.rc == 0 then x.active else 0.0
    ensures Owed(log + [x], phase) == Owed(log, phase) + if x.donating then phase else 0.0
  {
    assert (log + [x])[..|log + [x]| - 1] == log;
  }

  lemma NextBalanced(c: Config, s: State, t: Turn)
    requires ValidConfig(c) && c.mining && Balanced(c, s) && ClockOk(c, s, t)
    ensures Balanced(c, Next(c, s, t))
  {
    hide Mined, Owed, SessionOf, Monotone;
    CompletedSessionLasts(c.stopAt, s.phase, None, t.before, t.ticks);
    SessionInTime(c.stopAt, s.phase, None, t.before, t.ticks);
    LogAppend(s.log, Session(s.donating, s.phase, s.pool, s.attempt, EndOf(c, s.phase, t).rc, ActiveSeconds(EndOf(c, s.phase, t))), PhaseSeconds(c.level, false));
  }

  lemma {:induction false} RunBalanced(c: Config, unit: real, turns: seq<Turn>)
    requires ValidConfig(c) && c.mining && 0.0 <= unit < 1.0 && ClockRun(c, unit, turns)
    ensures Balanced(c, After(c, unit, turns))
  {
    hide Next;
    if turns == [] {
      HalfPhase(PhaseSeconds(c.level, false), unit);
    } else {
      var n := |turns| - 1;
      forall i | 0 <= i < n ensures turns[..n][..i] == turns[..i] {
      }
      RunBalanced(c, unit, turns[..n]);
      NextBalanced(c, After(c, unit, turns[..n]), turns[n]);
    }
  }

  lemma HalfPhase(p: real, unit: real)
    requires p >= 0.0 && unit >= 0.0
    ensures p * (0.5 + unit) >= p / 2.0
  {
    assert p * unit >= 0.0;
  }

  lemma {:induction false} DonatedShare(log: seq<Session>, level: int)
    requires forall i :: 0 <= i < |log| && log[i].donating ==> log[i].phase == PhaseSeconds(level, true)
    ensures (100 - level) as real * Donated(log) == level as real * Owed(log, PhaseSeconds(level, false))
  {
    if log != [] {
      var n := |log| - 1;
      DonatedShare(log[..n], level);
      if log[n].donating {
        AddShare((100 - level) as real, Donated(log[..n]), level as real, Owed(log[..n], PhaseSeconds(level, false)));
      }
    }
  }

  lemma AddShare(c: real, d: real, l: real, o: real)
    requires c * d == l * o
    ensures c * (d + l * 60.0) == l * (o + c * 60.0)
  {
  }

  lemma ShareBound(c: real, donated: real, l: real, owed: real, mined: real)
    requires c * donated == l * owed && l >= 0.0 && owed <= mined + 30.0 * c
    ensures c * donated <= l * (mined + 30.0 * c)
  {
    assert l * owed <= l * (mined + 30.0 * c);
  }

  /** Over every run at donation level L, the scheduled donated seconds D and the active
      seconds U of completed user sessions satisfy (100 - L) D <= L (U + 30 (100 - L)):
      the random first period is the only advance. */
  lemma DonationShare(c: Config, unit: real, turns: seq<Turn>)
    requires ValidConfig(c) && c.mining && 0.0 <= unit < 1.0 && ClockRun(c, unit, turns)
    ensures var log := After(c, unit, turns).log;
      (100 - c.level) as real * Donated(log) <= c.level as real * (Mined(log) + 30.0 * (100 - c.level) as real)
  {
    hide Next, After, Mined, Owed, Donated;
    RunBalanced(c, unit, turns);
    var log := After(c, unit, turns).log;
    var p := PhaseSeconds(c.level, false);
    DonatedShare(log, c.level);
    assert p / 2.0 == 30.0 * (100 - c.level) as real;
    ShareBound((100 - c.level) as real, Donated(log), c.level as real, Owed(log, p), Mined(log));
  }

  /** Without mining there are no donation sessions at all. */
  lemma {:induction false} NoMiningNoDonation(c: Config, unit: real, turns: seq<Turn>)
    requires !c.mining
    ensures var s := After(c, unit, turns);
      !s.donating && forall i :: 0 <= i < |s.log| ==> !s.log[i].donating && s.log[i].phase == 0.0 == s.phase
    ensures After(c, unit, turns).phase == 0.0
  {
    hide EndOf, DelayOf, ActiveSeconds;
    if turns != [] {
      NoMiningNoDonation(c, unit, turns[..|turns| - 1]);
    }
  }
}
