/** The session log of the controller in src/stratum_main.c, said of its entries alone:
    how each session follows from the one before, when the controller stops, and how long
    it waits. */
module ControllerLog {
  import opened Options
  import opened Reconnect

  // ---- How a session ends ----

  /** What a round of the session loop meets does not end it. */
  predicate GoesOn(t: Tick) {
    t.what.Idle? || (t.what.Line? && t.what.sent)
  }

  predicate AllGoOn(ticks: seq<Tick>) {
    forall i :: 0 <= i < |ticks| ==> GoesOn(ticks[i])
  }

  /** A session with a period begins it with the first line after which it is authorized
      and notified. */
  function PeriodStart(seconds: real, ticks: seq<Tick>): Option<real> {
    if ticks == [] then None
    else
      var earlier, t := PeriodStart(seconds, ticks[..|ticks| - 1]), ticks[|ticks| - 1];
      if earlier.Some? then earlier
      else if seconds > 0.0 && t.what.Line? && t.what.ready then Some(t.what.later)
      else None
  }

  /** The runtime limit is reached, or the period is over. */
  predicate Reached(stopAt: real, seconds: real, start: Option<real>, now: real) {
    || (stopAt > 0.0 && now >= stopAt)
    || (start.Some? && start.value + seconds > 0.0 && now >= start.value + seconds)
  }

  /** The session is still going when its round number i begins, and that round's clock has
      reached the limit or the end of the period. */
  predicate StopsAt(stopAt: real, seconds: real, ticks: seq<Tick>, i: nat) {
    i < |ticks| && AllGoOn(ticks[..i]) && Reached(stopAt, seconds, PeriodStart(seconds, ticks[..i]), ticks[i].now)
  }

  /** The session with its first i rounds behind it. */
  function SessionFrom(stopAt: real, seconds: real, clock: real, ticks: seq<Tick>, i: nat): Ended
    requires i <= |ticks|
  {
    SessionOf(stopAt, seconds, PeriodStart(seconds, ticks[..i]), clock, ticks[i..])
  }

  lemma NextStart(seconds: real, ticks: seq<Tick>, i: nat)
    requires i < |ticks|
    ensures var earlier := PeriodStart(seconds, ticks[..i]);
      PeriodStart(seconds, ticks[..i + 1]) ==
        if earlier.None? && seconds > 0.0 && ticks[i].what.Line? && ticks[i].what.ready then Some(ticks[i].what.later) else earlier
  {
    assert ticks[..i + 1][..i] == ticks[..i];
  }

  lemma {:induction false} EndsWellFrom(stopAt: real, seconds: real, clock: real, ticks: seq<Tick>, i: nat)
    requires i <= |ticks| && AllGoOn(ticks[..i])
    requires forall j: nat :: j < i ==> !StopsAt(stopAt, seconds, ticks, j)
    ensures SessionFrom(stopAt, seconds, clock, ticks, i).rc == 0 <==> exists j: nat :: StopsAt(stopAt, seconds, ticks, j)
    decreases |ticks| - i
  {
    hide PeriodStart, Reached;
    if i == |ticks| {
      assert ticks[i..] == [];
    } else {
      var t := ticks[i];
      assert ticks[i..][0] == t && ticks[i..][1..] == ticks[i + 1..];
      NextStart(seconds, ticks, i);
      ReachedIs(stopAt, seconds, PeriodStart(seconds, ticks[..i]), t.now);
      if StopsAt(stopAt, seconds, ticks, i) {
      } else if GoesOn(t) {
        assert ticks[..i + 1] == ticks[..i] + [t];
        EndsWellFrom(stopAt, seconds, if t.what.Line? then t.what.later else t.now, ticks, i + 1);
      } else {
        NothingAfter(stopAt, seconds, ticks, i);
      }
    }
  }

  lemma NothingAfter(stopAt: real, seconds: real, ticks: seq<Tick>, i: nat)
    requires i < |ticks| && !GoesOn(ticks[i])
    ensures forall j: nat :: j > i ==> !StopsAt(stopAt, seconds, ticks, j)
  {
    hide PeriodStart, Reached, GoesOn;
    forall j | i < j < |ticks| ensures !AllGoOn(ticks[..j]) {
      assert ticks[..j][i] == ticks[i];
    }
  }

  lemma ReachedIs(stopAt: real, seconds: real, start: Option<real>, now: real)
    ensures Reached(stopAt, seconds, start, now) <==>
      (stopAt > 0.0 && now >= stopAt) || (start.Some? && start.value + seconds > 0.0 && now >= start.value + seconds)
  {
  }

  /** A session ends with code 0 exactly when, with every round before going on, the clock
      reaches the runtime limit or the end of the period; otherwise with code 1. */
  lemma SessionEndsWell(stopAt: real, seconds: real, clock: real, ticks: seq<Tick>)
    ensures var rc := SessionOf(stopAt, seconds, None, clock, ticks).rc;
      rc in {0, 1} && (rc == 0 <==> exists j: nat :: StopsAt(stopAt, seconds, ticks, j))
  {
    hide SessionOf, StopsAt;
    assert ticks[..0] == [] && ticks[0..] == ticks;
    EndsWellFrom(stopAt, seconds, clock, ticks, 0);
    CompletedSessionLasts(stopAt, seconds, None, clock, ticks);
  }

  // ---- Waits ----

  /** The first wait is the base delay, at least one second, and each further one is twice
      the one before, up to a minute. */
  lemma DelayDoubles(baseDelay: int, attempt: nat)
    requires attempt >= 1
    ensures RetryDelay(baseDelay, 1) == if baseDelay < 1 then 1 else if baseDelay > 60 then 60 else baseDelay
    ensures var d := RetryDelay(baseDelay, attempt);
      RetryDelay(baseDelay, attempt + 1) == if 2 * d > 60 then 60 else 2 * d
  {
    hide Power2;
    PowerSteps(0);
    PowerSteps(attempt - 1);
    PowerPositive(attempt - 1);
    DoubledProduct(AtLeastOne(baseDelay), Power2(attempt - 1));
    ProductPositive(AtLeastOne(baseDelay), Power2(attempt - 1));
  }

  /** With a runtime limit the wait is cut to the whole seconds that remain, but not below
      one. */
  lemma DelayCut(c: Config, attempt: nat, t: Turn)
    ensures var d, left := RetryDelay(c.reconnectDelay, attempt), (c.stopAt - t.beforeDelay).Floor;
      DelayOf(c, attempt, t) == if c.stopAt <= 0.0 || d <= left then d else if left < 1 then 1 else left
  {
    hide RetryDelay;
    RetryDelayBounds(c.reconnectDelay, attempt);
  }

  // ---- From session to session ----

  /** A phase of mining is over: the session ended well. */
  predicate PhaseDone(c: Config, a: Session) {
    c.mining && a.rc == 0
  }

  /** The first session is a user session on the first pool, with a random period of half a
      user phase to one and a half. */
  ghost predicate IsFirst(c: Config, unit: real, a: Session) {
    && !a.donating && a.pool == 0 && a.attempt == 0
    && a.phase == if c.mining then (100 - c.level) as real * 60.0 * (0.5 + unit) else 0.0
  }

  /** A session is a donation exactly after a user session that ended well, and has the
      period that goes with its kind, but a user session that failed is tried again with
      its own. The pool stays after a session that ended well and after a failed donation,
      otherwise the next one is tried. */
  ghost predicate IsNext(c: Config, a: Session, b: Session)
    requires c.pools >= 1
  {
    && (b.donating <==> PhaseDone(c, a) && !a.donating)
    && b.phase == (if b.donating then c.level as real * 60.0
        else if PhaseDone(c, a) || a.donating then (100 - c.level) as real * 60.0
        else a.phase)
    && b.pool == (if PhaseDone(c, a) || (a.donating && a.rc != 0) then a.pool else (a.pool + 1) % c.pools)
    && b.attempt == (if PhaseDone(c, a) then 0 else a.attempt + 1)
  }

  ghost predicate LogOk(c: Config, unit: real, log: seq<Session>)
    requires c.pools >= 1
  {
    && (log != [] ==> IsFirst(c, unit, log[0]))
    && forall i, j :: 0 <= i && j == i + 1 && j < |log| ==> IsNext(c, log[i], log[j])
  }

  /** The session that would be started now. */
  function Current(s: State, rc: int, active: real): Session {
    Session(s.donating, s.phase, s.pool, s.attempt, rc, active)
  }

  ghost predicate FitsNow(c: Config, unit: real, s: State)
    requires c.pools >= 1
  {
    s.over || if s.log == [] then IsFirst(c, unit, Current(s, 0, 0.0)) else IsNext(c, s.log[|s.log| - 1], Current(s, 0, 0.0))
  }

  /** The controller stops after a turn exactly when the runtime limit is reached before,
      right after or at the end of its session, or the session failed as often in a row as
      retries allow. */
  ghost predicate Stops(c: Config, s: State, t: Turn, rc: int) {
    var failed := !(c.mining && rc == 0);
    || (c.stopAt > 0.0 && (t.before >= c.stopAt || t.after >= c.stopAt))
    || (failed && c.retries >= 0 && s.attempt >= c.retries)
    || (failed && c.stopAt > 0.0 && t.beforeDelay >= c.stopAt)
  }

  /** One turn logs one session, with the code its events lead to, unless the runtime limit
      was reached before; it waits exactly after a failure that does not stop it. */
  lemma TurnExact(c: Config, s: State, t: Turn)
    requires !s.over
    ensures var v := Next(c, s, t);
      var e := EndOf(c, s.phase, t);
      && (if c.stopAt > 0.0 && t.before >= c.stopAt then v.log == s.log
          else v.log == s.log + [Current(s, e.rc, if e.since.Some? then e.at - e.since.value else 0.0)])
      && (t.opening != 0 ==> e.rc == t.opening && e.since.None?)
      && (v.over <==> Stops(c, s, t, e.rc))
      && v.delays == if !v.over && !(c.mining && e.rc == 0) then s.delays + [DelayOf(c, s.attempt + 1, t)] else s.delays
  {
    hide SessionOf, DelayOf;
  }

  lemma LogAppends(c: Config, unit: real, log: seq<Session>, x: Session)
    requires c.pools >= 1 && LogOk(c, unit, log)
    requires if log == [] then IsFirst(c, unit, x) else IsNext(c, log[|log| - 1], x)
    ensures LogOk(c, unit, log + [x])
  {
    hide IsFirst, IsNext;
  }

  lemma SameStart(c: Config, unit: real, s: State, log: seq<Session>, rc: int, active: real)
    requires c.pools >= 1
    ensures IsFirst(c, unit, Current(s, 0, 0.0)) <==> IsFirst(c, unit, Current(s, rc, active))
    ensures log != [] ==> (IsNext(c, log[|log| - 1], Current(s, 0, 0.0)) <==> IsNext(c, log[|log| - 1], Current(s, rc, active)))
  {
  }

  lemma NextFits(c: Config, unit: real, s: State, t: Turn)
    requires ValidConfig(c) && !s.over && s.pool < c.pools && (s.donating ==> c.mining)
    requires LogOk(c, unit, s.log) && FitsNow(c, unit, s)
    ensures LogOk(c, unit, Next(c, s, t).log) && FitsNow(c, unit, Next(c, s, t))
  {
    hide EndOf, DelayOf, IsFirst, LogOk;
    if !(c.stopAt > 0.0 && t.before >= c.stopAt) {
      var e := EndOf(c, s.phase, t);
      SameStart(c, unit, s, s.log, e.rc, ActiveSeconds(e));
      LogAppends(c, unit, s.log, Current(s, e.rc, ActiveSeconds(e)));
      OnlyPool(c, s.pool);
    }
  }

  lemma OnlyPool(c: Config, pool: nat)
    requires c.pools >= 1 && pool < c.pools
    ensures c.pools == 1 ==> (pool + 1) % c.pools == pool
  {
  }

  /** In every run each logged session follows from the one before in the way IsNext says:
      users and donations take turns, failures are retried, pools go round. */
  lemma {:induction false} LogFollows(c: Config, unit: real, turns: seq<Turn>)
    requires ValidConfig(c)
    ensures var s := After(c, unit, turns); LogOk(c, unit, s.log) && FitsNow(c, unit, s)
  {
    hide Next, LogOk, FitsNow;
    if turns == [] {
      NothingLogged(c, unit);
    } else {
      var n := |turns| - 1;
      var s := After(c, unit, turns[..n]);
      LogFollows(c, unit, turns[..n]);
      ControllerOk(c, unit, turns[..n]);
      if s.over {
        OverStays(c, unit, s, turns[n]);
      } else {
        NextFits(c, unit, s, turns[n]);
      }
    }
  }

  lemma OverStays(c: Config, unit: real, s: State, t: Turn)
    requires s.over
    ensures Next(c, s, t) == s
  {
  }

  lemma NothingLogged(c: Config, unit: real)
    requires c.pools >= 1
    ensures LogOk(c, unit, Initial(c, unit).log) && FitsNow(c, unit, Initial(c, unit))
  {
  }

  /** As long as the controller goes on, every turn has logged a session, and it has waited
      once for each that did not end a phase. */
  lemma {:induction false} EveryTurnLogged(c: Config, unit: real, turns: seq<Turn>)
    requires !After(c, unit, turns).over
    ensures |After(c, unit, turns).log| == |turns|
  {
    hide EndOf, DelayOf;
    if turns != [] {
      EveryTurnLogged(c, unit, turns[..|turns| - 1]);
    }
  }
}
