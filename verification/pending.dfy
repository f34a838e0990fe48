/** The table of submitted shares that await an answer, of src/stratum.c. */
module Pending {
  import opened Options
  import opened Target

  const SLOTS := 64

  datatype Entry = Entry(id: int, active: bool, difficulty: Difficulty, submittedAt: real)

  predicate Greater(a: Difficulty, b: Difficulty) {
    !b.Infinite? && (a.Infinite? || a.value > b.value)
  }

  datatype Table = Table(slots: seq<Entry>, count: int, best: Difficulty, last: Difficulty)

  predicate Holds(e: Entry, id: int) {
    e.active && e.id == id
  }

  /** The first active slot with this id, or the length. */
  function FirstMatch(s: seq<Entry>, id: int): (i: nat)
    ensures i <= |s| && (i < |s| ==> Holds(s[i], id)) && forall j :: 0 <= j < i ==> !Holds(s[j], id)
  {
    if s == [] || Holds(s[0], id) then 0 else 1 + FirstMatch(s[1..], id)
  }

  function FirstFree(s: seq<Entry>): (i: nat)
    ensures i <= |s| && (i < |s| ==> !s[i].active) && forall j :: 0 <= j < i ==> s[j].active
  {
    if s == [] || !s[0].active then 0 else 1 + FirstFree(s[1..])
  }

  /** The slot that gives way when the table is full. In C the remainder of a negative id
      is not positive, and a negative slot is replaced by slot 0. */
  function Victim(id: int): nat {
    if id >= 0 then id % SLOTS else 0
  }

  function SlotFor(s: seq<Entry>, id: int): (i: nat)
    requires |s| == SLOTS
    ensures i < SLOTS
  {
    if FirstMatch(s, id) < SLOTS then FirstMatch(s, id)
    else if FirstFree(s) < SLOTS then FirstFree(s)
    else Victim(id)
  }

  /** register_pending_share. */
  function Register(t: Table, id: int, difficulty: Difficulty, now: real): Table
    requires |t.slots| == SLOTS
  {
    var i := SlotFor(t.slots, id);
    Table(t.slots[i := Entry(id, true, difficulty, now)],
      if t.slots[i].active then t.count else t.count + 1,
      if Greater(difficulty, t.best) then difficulty else t.best,
      difficulty)
  }

  /** complete_pending_share. */
  function Complete(t: Table, id: int): Table
    requires |t.slots| == SLOTS
  {
    var i := FirstMatch(t.slots, id);
    if i < SLOTS then
      t.(slots := t.slots[i := t.slots[i].(active := false)], count := if t.count > 0 then t.count - 1 else t.count)
    else t
  }

  class PendingTable {
    const pending: array<Entry>
    var pendingCount: int
    var bestShareDifficulty: Difficulty
    var lastShareDifficulty: Difficulty
    var lastResultDifficulty: Difficulty
    var lastResultElapsed: real
    var lastResultAccepted: int

    ghost predicate Valid() {
      pending.Length == SLOTS
    }

    ghost function View(): (t: Table)
      requires Valid()
      reads this, pending
      ensures |t.slots| == SLOTS
    {
      Table(pending[..], pendingCount, bestShareDifficulty, lastShareDifficulty)
    }

    constructor ()
      ensures Valid() && fresh(pending) && View() == NewTable()
    {
      pending := new Entry[SLOTS](_ => Entry(0, false, Finite(0.0), 0.0));
      pendingCount, bestShareDifficulty, lastShareDifficulty := 0, Finite(0.0), Finite(0.0);
      lastResultDifficulty, lastResultElapsed, lastResultAccepted := Finite(0.0), 0.0, 0;
      new;
      NewSlotsAre(SLOTS);
      assert pending[..] == NewSlots(SLOTS);
    }

    method RegisterPendingShare(id: int, difficulty: Difficulty, now: real)
      requires Valid()
      modifies this`pendingCount, this`bestShareDifficulty, this`lastShareDifficulty, pending
      ensures View() == Register(old(View()), id, difficulty, now)
    {
      var slot := -1;
      var i := 0;
      while i < SLOTS
        invariant 0 <= i <= SLOTS
        invariant forall j :: 0 <= j < i ==> !Holds(pending[j], id)
        invariant slot < 0 ==> forall j :: 0 <= j < i ==> pending[j].active
        invariant slot >= 0 ==> slot < i && !pending[slot].active && forall j :: 0 <= j < slot ==> pending[j].active
      {
        if pending[i].active && pending[i].id == id {
          slot := i;
          break;
        }
        if slot < 0 && !pending[i].active {
          slot := i;
        }
        i := i + 1;
      }
      MatchIs(pending[..], id, i);
      if i == SLOTS {
        FreeIs(pending[..], if slot < 0 then SLOTS else slot);
      }
      if slot < 0 {
        slot := if id >= 0 then id % SLOTS else 0;
      }
      assert slot == SlotFor(pending[..], id);
      if !pending[slot].active {
        pendingCount := pendingCount + 1;
      }
      pending[slot] := Entry(id, true, difficulty, now);
      lastShareDifficulty := difficulty;
      if Greater(difficulty, bestShareDifficulty) {
        bestShareDifficulty := difficulty;
      }
    }

    /** An answer to an unknown id reports zero difficulty and latency. */
    method CompletePendingShare(id: int, accepted: bool, now: real) returns (elapsed: real, difficulty: Difficulty)
      requires Valid()
      modifies this`pendingCount, this`lastResultDifficulty, this`lastResultElapsed, this`lastResultAccepted, pending
      ensures View() == Complete(old(View()), id)
      ensures (elapsed, difficulty) ==
        match Lookup(old(View()).slots, id)
        case Some(e) => (now - e.submittedAt, e.difficulty)
        case None => (0.0, Finite(0.0))
      ensures lastResultElapsed == elapsed && lastResultDifficulty == difficulty
      ensures lastResultAccepted == if accepted then 1 else -1
    {
      elapsed, difficulty := 0.0, Finite(0.0);
      var i := 0;
      while i < SLOTS
        invariant 0 <= i <= SLOTS && pending[..] == old(pending[..])
        invariant forall j :: 0 <= j < i ==> !Holds(pending[j], id)
        invariant pendingCount == old(pendingCount) && elapsed == 0.0 && difficulty == Finite(0.0)
      {
        if pending[i].active && pending[i].id == id {
          break;
        }
        i := i + 1;
      }
      MatchIs(pending[..], id, i);
      if i < SLOTS {
        difficulty := pending[i].difficulty;
        elapsed := now - pending[i].submittedAt;
        pending[i] := pending[i].(active := false);
        if pendingCount > 0 {
          pendingCount := pendingCount - 1;
        }
      }
      lastResultAccepted := if accepted then 1 else -1;
      lastResultDifficulty := difficulty;
      lastResultElapsed := elapsed;
    }
  }

  function NewSlots(n: nat): seq<Entry> {
    if n == 0 then [] else [Entry(0, false, Finite(0.0), 0.0)] + NewSlots(n - 1)
  }

  lemma {:induction false} NewSlotsAre(n: nat)
    ensures |NewSlots(n)| == n && forall i :: 0 <= i < n ==> NewSlots(n)[i] == Entry(0, false, Finite(0.0), 0.0)
  {
    if n > 0 {
      NewSlotsAre(n - 1);
    }
  }

  function NewTable(): (t: Table)
    ensures |t.slots| == SLOTS && forall i :: 0 <= i < SLOTS ==> !t.slots[i].active
  {
    NewSlotsAre(SLOTS);
    Table(NewSlots(SLOTS), 0, Finite(0.0), Finite(0.0))
  }

  lemma MatchIs(s: seq<Entry>, id: int, i: nat)
    requires i <= |s| && (i < |s| ==> Holds(s[i], id)) && forall j :: 0 <= j < i ==> !Holds(s[j], id)
    ensures FirstMatch(s, id) == i
  {
    var k := FirstMatch(s, id);
    assert !(k < i) && !(i < k);
  }

  lemma FreeIs(s: seq<Entry>, i: nat)
    requires i <= |s| && (i < |s| ==> !s[i].active) && forall j :: 0 <= j < i ==> s[j].active
    ensures FirstFree(s) == i
  {
    var k := FirstFree(s);
    assert !(k < i) && !(i < k);
  }

  // ---- What the table stands for ----

  /** The pending share with this id. */
  function Lookup(s: seq<Entry>, id: int): Option<Entry> {
    var i := FirstMatch(s, id);
    if i < |s| then Some(s[i]) else None
  }

  ghost predicate Distinct(s: seq<Entry>) {
    forall i, j :: 0 <= i < j < |s| && s[i].active && s[j].active ==> s[i].id != s[j].id
  }

  function Active(s: seq<Entry>): nat {
    if s == [] then 0 else Active(s[..|s| - 1]) + if s[|s| - 1].active then 1 else 0
  }

  lemma {:induction false} ActiveUpdate(s: seq<Entry>, i: nat, e: Entry)
    requires i < |s|
    ensures Active(s[i := e]) == Active(s) - (if s[i].active then 1 else 0) + if e.active then 1 else 0
  {
    var n := |s| - 1;
    if i < n {
      assert s[i := e][..n] == s[..n][i := e];
      ActiveUpdate(s[..n], i, e);
    } else {
      assert s[i := e][..n] == s[..n];
    }
  }

  lemma {:induction false} AllActive(s: seq<Entry>)
    ensures Active(s) <= |s| && (Active(s) == |s| <==> forall i :: 0 <= i < |s| ==> s[i].active)
  {
    if s != [] {
      var n := |s| - 1;
      AllActive(s[..n]);
      assert (forall i :: 0 <= i < |s| ==> s[i].active) <==> (s[n].active && forall i :: 0 <= i < n ==> s[..n][i].active);
    }
  }

  /** A share is evicted when its table is full and holds another share with this slot. */
  predicate Evicts(s: seq<Entry>, id: int)
    requires |s| == SLOTS
  {
    FirstMatch(s, id) == SLOTS && FirstFree(s) == SLOTS
  }

  /** The evicted share, the one in the slot that the new id falls on, has the id other. */
  predicate EvictsOther(s: seq<Entry>, id: int, other: int)
    requires |s| == SLOTS
  {
    Evicts(s, id) && s[if id >= 0 then id % 64 else 0].id == other
  }

  /** Distinct ids and an exact count, whatever ids are registered. */
  ghost predicate TableOk(t: Table) {
    |t.slots| == SLOTS && Distinct(t.slots) && t.count == Active(t.slots)
  }

  lemma LookupIs(s: seq<Entry>, i: nat)
    requires Distinct(s) && i < |s| && s[i].active
    ensures Lookup(s, s[i].id) == Some(s[i])
  {
    var k := FirstMatch(s, s[i].id);
    assert !(i < k);
  }

  /** Registering a share makes it the pending one for its id. Every other id keeps its
      pending share, except the one in the victim slot when the table was full and the id
      new. The count follows: it grows unless the share replaced one. */
  lemma RegisterMeaning(t: Table, id: int, difficulty: Difficulty, now: real, other: int)
    requires TableOk(t)
    ensures var r := Register(t, id, difficulty, now);
      && TableOk(r)
      && Lookup(r.slots, id) == Some(Entry(id, true, difficulty, now))
      && (other != id ==>
        Lookup(r.slots, other) == if EvictsOther(t.slots, id, other) then None else Lookup(t.slots, other))
      && (Evicts(t.slots, id) <==> t.count == 64 && Lookup(t.slots, id).None?)
      && r.count == if Lookup(t.slots, id).Some? || t.count == 64 then t.count else t.count + 1
  {
    hide Active, FirstMatch, FirstFree;
    var r := Register(t, id, difficulty, now);
    var i := SlotFor(t.slots, id);
    var e := Entry(id, true, difficulty, now);
    AllActive(t.slots);
    ActiveUpdate(t.slots, i, e);
    assert Distinct(r.slots);
    LookupIs(r.slots, i);
    if other != id {
      OtherLookup(t.slots, i, e, other);
    }
  }

  /** A changed slot does not disturb the other ids. */
  lemma OtherLookup(s: seq<Entry>, i: nat, e: Entry, other: int)
    requires Distinct(s) && i < |s| && !Holds(e, other)
    ensures Lookup(s[i := e], other) == if Holds(s[i], other) then None else Lookup(s, other)
  {
    hide FirstMatch;
    var r := s[i := e];
    if Holds(s[i], other) {
      assert forall j :: 0 <= j < |r| ==> !Holds(r[j], other);
    } else {
      MatchIs(r, other, FirstMatch(s, other));
    }
  }

  /** An answer removes exactly the share with its id. */
  lemma CompleteMeaning(t: Table, id: int, other: int)
    requires TableOk(t)
    ensures var r := Complete(t, id);
      && TableOk(r)
      && Lookup(r.slots, id).None?
      && (other != id ==> Lookup(r.slots, other) == Lookup(t.slots, other))
      && r.count == if Lookup(t.slots, id).Some? then t.count - 1 else t.count
  {
    hide Active, FirstMatch;
    var i := FirstMatch(t.slots, id);
    if i < SLOTS {
      var e := t.slots[i].(active := false);
      ActiveUpdate(t.slots, i, e);
      AllActive(t.slots[i := e]);
      OtherLookup(t.slots, i, e, id);
      if other != id {
        OtherLookup(t.slots, i, e, other);
      }
    }
  }

  // ---- Whole sessions ----

  datatype Command = Submit(id: int, difficulty: Difficulty, now: real) | Answer(id: int)

  /** A table with the tally of what happened to all registered shares. */
  datatype Ledger = Ledger(t: Table, registered: nat, completed: nat, evicted: nat, replaced: nat)

  function Apply(l: Ledger, c: Command): Ledger
    requires |l.t.slots| == SLOTS
  {
    match c
    case Submit(id, difficulty, now) =>
      Ledger(Register(l.t, id, difficulty, now), l.registered + 1, l.completed,
        if Evicts(l.t.slots, id) then l.evicted + 1 else l.evicted,
        if Lookup(l.t.slots, id).Some? then l.replaced + 1 else l.replaced)
    case Answer(id) =>
      l.(t := Complete(l.t, id), completed := if Lookup(l.t.slots, id).Some? then l.completed + 1 else l.completed)
  }

  function RunCommands(commands: seq<Command>): (l: Ledger)
    ensures |l.t.slots| == SLOTS
  {
    if commands == [] then Ledger(NewTable(), 0, 0, 0, 0)
    else Apply(RunCommands(commands[..|commands| - 1]), commands[|commands| - 1])
  }

  predicate Fresh(commands: seq<Command>) {
    forall i, j :: 0 <= i < j < |commands| && commands[i].Submit? && commands[j].Submit? ==> commands[i].id != commands[j].id
  }

  predicate Submitted(commands: seq<Command>, id: int) {
    exists i :: 0 <= i < |commands| && commands[i].Submit? && commands[i].id == id
  }

  lemma {:induction false} NoneActive(n: nat)
    ensures Active(NewSlots(n)) == 0
  {
    NewSlotsAre(n);
    NoActive(NewSlots(n));
  }

  lemma {:induction false} NoActive(s: seq<Entry>)
    requires forall i :: 0 <= i < |s| ==> !s[i].active
    ensures Active(s) == 0
  {
    if s != [] {
      NoActive(s[..|s| - 1]);
    }
  }

  predicate AtMost(a: Difficulty, b: Difficulty) {
    b.Infinite? || (!a.Infinite? && a.value <= b.value)
  }

  function LastSubmitted(commands: seq<Command>): Difficulty {
    if commands == [] then Finite(0.0)
    else
      var n := |commands| - 1;
      if commands[n].Submit? then commands[n].difficulty else LastSubmitted(commands[..n])
  }

  /** After any submissions and answers: the count is the number of active slots, ids are
      distinct, no registered share is unaccounted for, the best difficulty is the largest
      ever registered or zero and the last one is that of the last share, and only submitted
      ids are pending. */
  lemma {:induction false} TableConservation(commands: seq<Command>)
    ensures var l := RunCommands(commands);
      && TableOk(l.t)
      && l.registered == l.completed + l.evicted + l.replaced + l.t.count
      && l.t.count <= 64
      && (forall i :: 0 <= i < |commands| && commands[i].Submit? ==> AtMost(commands[i].difficulty, l.t.best))
      && (l.t.best == Finite(0.0) ||
        exists i :: 0 <= i < |commands| && commands[i].Submit? && commands[i].difficulty == l.t.best)
      && AtMost(Finite(0.0), l.t.best)
      && l.t.last == LastSubmitted(commands)
      && (forall id :: Lookup(l.t.slots, id).Some? ==> Submitted(commands, id))
  {
    hide Active, FirstMatch, FirstFree, Register, Complete, Lookup, Distinct, Evicts;
    if commands == [] {
      NoneActive(SLOTS);
      EmptyTable();
    } else {
      var n := |commands| - 1;
      var most := commands[..n];
      TableConservation(most);
      var l := RunCommands(most);
      var c := commands[n];
      assert forall id :: Submitted(most, id) ==> Submitted(commands, id);
      if c.Submit? {
        RegisterMeaning(l.t, c.id, c.difficulty, c.now, c.id);
        BestGrows(most, c, l.t);
        forall id | Lookup(Register(l.t, c.id, c.difficulty, c.now).slots, id).Some? ensures Submitted(commands, id) {
          RegisterMeaning(l.t, c.id, c.difficulty, c.now, id);
          assert commands[n].Submit?;
        }
      } else {
        CompleteMeaning(l.t, c.id, c.id);
        KeepsBest(l.t, c.id);
        forall id | Lookup(Complete(l.t, c.id).slots, id).Some? ensures Submitted(commands, id) {
          CompleteMeaning(l.t, c.id, id);
        }
      }
      AllActive(RunCommands(commands).t.slots);
    }
  }

  lemma EmptyTable()
    ensures TableOk(NewTable()) && NewTable().best == NewTable().last == Finite(0.0)
    ensures forall id :: Lookup(NewTable().slots, id).None?
  {
    hide Active, FirstMatch, NewSlots;
    NoneActive(SLOTS);
  }

  lemma BestGrows(most: seq<Command>, c: Command, t: Table)
    requires c.Submit? && |t.slots| == SLOTS
    ensures var r := Register(t, c.id, c.difficulty, c.now);
      r.best == (if AtMost(c.difficulty, t.best) then t.best else c.difficulty) && r.last == c.difficulty
  {
    hide SlotFor;
  }

  lemma KeepsBest(t: Table, id: int)
    requires |t.slots| == SLOTS
    ensures Complete(t, id).best == t.best && Complete(t, id).last == t.last
  {
  }

  /** With an id of its own for every submission, as the session's counter gives it, no
      share replaces another, so every share is completed, evicted or pending. */
  lemma {:induction false} FreshIdsNeverReplace(commands: seq<Command>)
    requires Fresh(commands)
    ensures RunCommands(commands).replaced == 0
  {
    hide Lookup, Register, Complete, Evicts;
    if commands != [] {
      var n := |commands| - 1;
      FreshIdsNeverReplace(commands[..n]);
      TableConservation(commands[..n]);
      assert commands[n].Submit? ==> !Submitted(commands[..n], commands[n].id);
    }
  }

  /** The share last submitted with an id, and when. */
  function LastWithId(commands: seq<Command>, id: int): Option<Entry> {
    if commands == [] then None
    else
      var n := |commands| - 1;
      match commands[n]
      case Submit(i, difficulty, now) =>
        if i == id then Some(Entry(id, true, difficulty, now)) else LastWithId(commands[..n], id)
      case Answer(_) => LastWithId(commands[..n], id)
  }

  /** What is pending for an id is the share last submitted with it; so an answer reports
      the difficulty of that share and the time since its submission. */
  lemma {:induction false} PendingIsLast(commands: seq<Command>, id: int)
    ensures var share := Lookup(RunCommands(commands).t.slots, id); share.Some? ==> share == LastWithId(commands, id)
  {
    hide Lookup, Register, Complete, Evicts, EvictsOther, TableOk;
    if commands == [] {
      EmptyTable();
    } else {
      var n := |commands| - 1;
      var l := RunCommands(commands[..n]);
      PendingIsLast(commands[..n], id);
      TableConservation(commands[..n]);
      match commands[n]
      case Submit(i, difficulty, now) => RegisterMeaning(l.t, i, difficulty, now, id);
      case Answer(i) => CompleteMeaning(l.t, i, id);
    }
  }
}
