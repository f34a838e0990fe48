/** The two-way relay proxy_loop of src/proxy_main.c. */
module Proxy {
  import opened Options
  import opened Words

  const BUFFER_SIZE := 32768

  /** What a read meets: bytes, nothing yet, an error, or no bytes at the end of the
      stream. */
  datatype Arrival = Data(bytes: seq<Byte>) | NothingYet | Lost

  /** What a write meets: room for some bytes, no room yet, or an error. */
  datatype Room = Accepts(count: nat) | NoRoom | Broken

  /** A connection about which nothing more is said is lost. */
  function FirstArrival(a: seq<Arrival>): Arrival {
    if a == [] then Lost else a[0]
  }

  function FirstRoom(r: seq<Room>): Room {
    if r == [] then Broken else r[0]
  }

  /** The bytes that arrive before the stream ends or is lost. */
  function Deliverable(a: seq<Arrival>): seq<Byte> {
    match FirstArrival(a)
    case Lost => []
    case NothingYet => Deliverable(a[1..])
    case Data(b) => if b == [] then [] else b + Deliverable(a[1..])
  }

  /** The stream ends, as against being lost. */
  predicate EndsWell(a: seq<Arrival>) {
    match FirstArrival(a)
    case Lost => false
    case NothingYet => EndsWell(a[1..])
    case Data(b) => b == [] || EndsWell(a[1..])
  }

  predicate AtEnd(a: seq<Arrival>) {
    FirstArrival(a) == Data([])
  }

  /** All bytes of a list of arrivals. */
  function Bytes(a: seq<Arrival>): seq<Byte> {
    if a == [] then [] else if a[0].Data? then a[0].bytes + Bytes(a[1..]) else Bytes(a[1..])
  }

  lemma BytesOf(head: Arrival, rest: seq<Arrival>)
    ensures Bytes([head] + rest) == if head.Data? then head.bytes + Bytes(rest) else Bytes(rest)
  {
    assert ([head] + rest)[1..] == rest;
  }

  function Cutoff(b: seq<Byte>): nat {
    if |b| < BUFFER_SIZE then |b| else BUFFER_SIZE
  }

  /** What stays to arrive after a piece of the first bytes was read. */
  function AfterPiece(a: seq<Arrival>): seq<Arrival>
    requires a != [] && a[0].Data?
  {
    var b := a[0].bytes;
    if Cutoff(b) < |b| then [Data(b[Cutoff(b)..])] + a[1..] else a[1..]
  }

  lemma DeliverableOf(head: Arrival, rest: seq<Arrival>)
    ensures var a := [head] + rest;
      && Deliverable(a) == (match head
        case Lost => []
        case NothingYet => Deliverable(rest)
        case Data(b) => if b == [] then [] else b + Deliverable(rest))
      && (EndsWell(a) <==> match head
        case Lost => false
        case NothingYet => EndsWell(rest)
        case Data(b) => b == [] || EndsWell(rest))
  {
    assert ([head] + rest)[1..] == rest;
  }

  /** Reading a piece changes neither what is to be delivered nor how it ends. */
  lemma PieceKeeps(a: seq<Arrival>)
    requires a != [] && a[0].Data? && a[0].bytes != []
    ensures var b := a[0].bytes;
      && Deliverable(a) == b[..Cutoff(b)] + Deliverable(AfterPiece(a))
      && EndsWell(a) == EndsWell(AfterPiece(a))
      && Bytes(a) == b[..Cutoff(b)] + Bytes(AfterPiece(a))
  {
    hide Deliverable, EndsWell, Bytes;
    var b, rest := a[0].bytes, a[1..];
    assert a == [a[0]] + rest;
    DeliverableOf(a[0], rest);
    BytesOf(a[0], rest);
    if Cutoff(b) < |b| {
      DeliverableOf(Data(b[Cutoff(b)..]), rest);
      BytesOf(Data(b[Cutoff(b)..]), rest);
      SplitJoin(b, Cutoff(b), Deliverable(rest));
      SplitJoin(b, Cutoff(b), Bytes(rest));
    }
  }

  lemma SplitJoin(b: seq<Byte>, i: nat, rest: seq<Byte>)
    requires i <= |b|
    ensures b + rest == b[..i] + (b[i..] + rest)
  {
  }

  // ---- What the relay does, as functions ----

  /** A connection: what it will do, and the bytes that passed in each direction. */
  datatype Side = Side(arrivals: seq<Arrival>, rooms: seq<Room>, received: seq<Byte>, sent: seq<Byte>)

  datatype Attempt = NotTried | Moved | Stalled | Ended | Failed

  /** A write takes at least one byte and at most what there is. */
  function Taken(count: nat, most: nat): (n: nat)
    requires most > 0
    ensures 1 <= n <= most
  {
    if count < 1 then 1 else if count < most then count else most
  }

  /** The write half of a round for one buffer: pass on what is buffered. */
  function Written(s: Side, b: seq<Byte>): (Side, seq<Byte>, Attempt) {
    if b == [] then (s, b, NotTried)
    else match FirstRoom(s.rooms)
      case Broken => (s, b, Failed)
      case NoRoom => (s.(rooms := s.rooms[1..]), b, Stalled)
      case Accepts(count) =>
        var n := Taken(count, |b|);
        (s.(rooms := s.rooms[1..], sent := s.sent + b[..n]), b[n..], Moved)
  }

  /** The read half: only an empty buffer takes bytes. */
  function ReadIn(s: Side, b: seq<Byte>): (Side, seq<Byte>, Attempt) {
    if b != [] then (s, b, NotTried)
    else match FirstArrival(s.arrivals)
      case Lost => (s, b, Failed)
      case NothingYet => (s.(arrivals := s.arrivals[1..]), b, Stalled)
      case Data(d) =>
        if d == [] then (s, b, Ended)
        else
          var piece := d[..Cutoff(d)];
          (s.(arrivals := AfterPiece(s.arrivals), received := s.received + piece), piece, Moved)
  }

  datatype End = ClientEnded | UpstreamEnded | ClientReadFailed | UpstreamReadFailed
    | ClientWriteFailed | UpstreamWriteFailed | SelectFailed

  /** Both connections and what is buffered between them. */
  datatype Relay = Relay(client: Side, upstream: Side, up: seq<Byte>, down: seq<Byte>)

  /** How far a half round gets: why the relay ends if it does, and whether bytes moved. */
  datatype Half = Half(relay: Relay, end: Option<End>, progress: bool)

  function WritesOf(r: Relay): Half {
    var (u, up, first) := Written(r.upstream, r.up);
    var r1 := r.(upstream := u, up := up);
    if first.Failed? then Half(r1, Some(UpstreamWriteFailed), false)
    else
      var (c, down, second) := Written(r1.client, r1.down);
      Half(r1.(client := c, down := down), if second.Failed? then Some(ClientWriteFailed) else None,
        first.Moved? || second.Moved?)
  }

  function ReadsOf(r: Relay): Half {
    var (c, up, first) := ReadIn(r.client, r.up);
    var r1 := r.(client := c, up := up);
    if first.Failed? then Half(r1, Some(ClientReadFailed), false)
    else if first.Ended? then Half(r1, Some(ClientEnded), false)
    else
      var (u, down, second) := ReadIn(r1.upstream, r1.down);
      Half(r1.(upstream := u, down := down),
        if second.Failed? then Some(UpstreamReadFailed) else if second.Ended? then Some(UpstreamEnded) else None,
        first.Moved? || second.Moved?)
  }

  function RoundOf(r: Relay): Half {
    var w := WritesOf(r);
    if w.end.Some? then w
    else
      var h := ReadsOf(w.relay);
      h.(progress := w.progress || h.progress)
  }

  function SideLeft(s: Side): nat {
    |Bytes(s.arrivals)| + |s.arrivals| + |s.rooms|
  }

  function Left(r: Relay): nat {
    SideLeft(r.client) + SideLeft(r.upstream)
  }

  /** proxy_loop. waits lists the outcomes of the waits still to come, one for each round
      without progress, true for a wait that does not fail. */
  function RelayOf(r: Relay, waits: seq<bool>): (Relay, End)
    decreases Left(r)
  {
    hide RoundOf, Left;
    RoundShrinks(r);
    var h := RoundOf(r);
    if h.end.Some? then (h.relay, h.end.value)
    else if h.progress then RelayOf(h.relay, waits)
    else if waits != [] && !waits[0] then (h.relay, SelectFailed)
    else RelayOf(h.relay, if waits == [] then [] else waits[1..])
  }

  function FateOf(received: seq<Byte>, a: seq<Arrival>): (seq<Byte>, seq<Byte>, bool) {
    (received + Bytes(a), received + Deliverable(a), EndsWell(a))
  }

  lemma ReadKeeps(received: seq<Byte>, a: seq<Arrival>)
    ensures FirstArrival(a).NothingYet? ==>
      FateOf(received, a[1..]) == FateOf(received, a) && |Bytes(a[1..])| <= |Bytes(a)|
    ensures FirstArrival(a).Data? && FirstArrival(a).bytes != [] ==>
      var b := FirstArrival(a).bytes;
      && FateOf(received + b[..Cutoff(b)], AfterPiece(a)) == FateOf(received, a)
      && |Bytes(AfterPiece(a))| + |AfterPiece(a)| < |Bytes(a)| + |a|
  {
    hide FateOf, AfterPiece, Cutoff;
    match FirstArrival(a)
    case Lost =>
    case NothingYet => NothingYetKeeps(received, a);
    case Data(b) => if b != [] { DataKeeps(received, a); }
  }

  lemma NothingYetKeeps(received: seq<Byte>, a: seq<Arrival>)
    requires FirstArrival(a).NothingYet?
    ensures FateOf(received, a[1..]) == FateOf(received, a) && Bytes(a[1..]) == Bytes(a)
  {
  }

  lemma DataKeeps(received: seq<Byte>, a: seq<Arrival>)
    requires FirstArrival(a).Data? && FirstArrival(a).bytes != []
    ensures var b := FirstArrival(a).bytes;
      && FateOf(received + b[..Cutoff(b)], AfterPiece(a)) == FateOf(received, a)
      && |Bytes(AfterPiece(a))| + |AfterPiece(a)| < |Bytes(a)| + |a|
  {
    hide Bytes, Deliverable, EndsWell;
    PieceKeeps(a);
    var piece, rest := a[0].bytes[..Cutoff(a[0].bytes)], AfterPiece(a);
    assert |piece| > 0 && |rest| <= |a|;
    PieceJoin(received, piece, Bytes(rest), Bytes(a));
    PieceJoin(received, piece, Deliverable(rest), Deliverable(a));
  }

  lemma PieceJoin(received: seq<Byte>, piece: seq<Byte>, rest: seq<Byte>, all: seq<Byte>)
    requires all == piece + rest
    ensures received + all == received + piece + rest
  {
  }

  // ---- What each half keeps ----

  /** A write, partial or not, keeps written and buffered bytes together; it fails only on
      a broken connection, and a failed one changes nothing. */
  lemma WrittenKeeps(s: Side, b: seq<Byte>)
    ensures var (t, c, attempt) := Written(s, b);
      && t.sent + c == s.sent + b && t.arrivals == s.arrivals && t.received == s.received && |c| <= |b|
      && SideLeft(t) <= SideLeft(s) && (b != [] && !attempt.Failed? ==> SideLeft(t) < SideLeft(s))
      && (attempt.Failed? <==> b != [] && FirstRoom(s.rooms).Broken?)
      && (attempt.Failed? ==> t == s && c == b)
      && (attempt.NotTried? <==> b == []) && (c != [] ==> b != [])
      && !attempt.Ended?
  {
    hide Bytes;
    if FirstRoom(s.rooms).Accepts? && b != [] {
      var n := Taken(FirstRoom(s.rooms).count, |b|);
      assert s.sent + b == s.sent + b[..n] + b[n..];
    }
  }

  /** A read loses no byte, takes bytes only into an empty buffer, and stops exactly at the
      end of the stream or at its loss. */
  lemma ReadInKeeps(s: Side, b: seq<Byte>)
    ensures var (t, c, attempt) := ReadIn(s, b);
      && FateOf(t.received, t.arrivals) == FateOf(s.received, s.arrivals)
      && t.received == s.received + (if b == [] then c else []) && t.sent == s.sent && t.rooms == s.rooms
      && (|b| <= BUFFER_SIZE ==> |c| <= BUFFER_SIZE)
      && SideLeft(t) <= SideLeft(s) && (b == [] && !attempt.Failed? && !attempt.Ended? ==> SideLeft(t) < SideLeft(s))
      && (attempt.Failed? <==> b == [] && FirstArrival(s.arrivals).Lost?)
      && (attempt.Ended? <==> b == [] && AtEnd(s.arrivals))
      && (attempt.Failed? || attempt.Ended? ==> t == s && c == b)
      && (attempt.NotTried? <==> b != []) && (b != [] ==> c == b)
  {
    hide Bytes, Deliverable, EndsWell, FateOf, AfterPiece;
    ReadKeeps(s.received, s.arrivals);
  }

  /** In both directions the bytes written out followed by the bytes still buffered are
      the bytes read in, and the buffers are large enough. */
  ghost predicate Linked(r: Relay) {
    && r.client.received == r.upstream.sent + r.up && |r.up| <= BUFFER_SIZE
    && r.upstream.received == r.client.sent + r.down && |r.down| <= BUFFER_SIZE
  }

  /** What the end of a relay says about the connections and the buffers. */
  ghost predicate Explains(end: End, r: Relay) {
    match end
    case ClientEnded => r.up == [] && AtEnd(r.client.arrivals)
    case ClientReadFailed => r.up == [] && FirstArrival(r.client.arrivals).Lost?
    case UpstreamEnded => r.down == [] && AtEnd(r.upstream.arrivals)
    case UpstreamReadFailed => r.down == [] && FirstArrival(r.upstream.arrivals).Lost?
    case ClientWriteFailed => r.down != [] && FirstRoom(r.client.rooms).Broken?
    case UpstreamWriteFailed => r.up != [] && FirstRoom(r.upstream.rooms).Broken?
    case SelectFailed => true
  }

  ghost predicate SameFates(a: Relay, b: Relay) {
    && FateOf(a.client.received, a.client.arrivals) == FateOf(b.client.received, b.client.arrivals)
    && FateOf(a.upstream.received, a.upstream.arrivals) == FateOf(b.upstream.received, b.upstream.arrivals)
  }

  lemma WritesKeep(r: Relay)
    ensures var h := WritesOf(r);
      && (Linked(r) ==> Linked(h.relay)) && SameFates(h.relay, r)
      && (h.end.Some? ==> Explains(h.end.value, h.relay) && !h.end.value.SelectFailed?)
      && Left(h.relay) <= Left(r) && (h.end.None? && h.relay.up != [] ==> Left(h.relay) < Left(r))
  {
    hide Written, FateOf, SideLeft;
    WrittenKeeps(r.upstream, r.up);
    WrittenKeeps(r.client, r.down);
  }

  lemma ReadsKeep(r: Relay)
    ensures var h := ReadsOf(r);
      && (Linked(r) ==> Linked(h.relay)) && SameFates(h.relay, r)
      && (h.end.Some? ==> Explains(h.end.value, h.relay) && !h.end.value.SelectFailed?)
      && Left(h.relay) <= Left(r) && (h.end.None? && r.up == [] ==> Left(h.relay) < Left(r))
  {
    hide ReadIn, FateOf, SideLeft;
    ReadInKeeps(r.client, r.up);
    ReadInKeeps(r.upstream, r.down);
  }

  lemma RoundKeeps(r: Relay)
    ensures var h := RoundOf(r);
      && (Linked(r) ==> Linked(h.relay)) && SameFates(h.relay, r)
      && (h.end.Some? ==> Explains(h.end.value, h.relay) && !h.end.value.SelectFailed?)
      && (h.end.None? ==> Left(h.relay) < Left(r))
  {
    hide WritesOf, ReadsOf, Left, Linked, Explains, FateOf;
    WritesKeep(r);
    ReadsKeep(WritesOf(r).relay);
  }

  lemma RoundShrinks(r: Relay)
    ensures RoundOf(r).end.None? ==> Left(RoundOf(r).relay) < Left(r)
  {
    hide RoundOf, Left;
    RoundKeeps(r);
  }

  /** At an end or a loss nothing is left to deliver. */
  lemma AtTheEnd(received: seq<Byte>, a: seq<Arrival>)
    ensures AtEnd(a) ==> received + Deliverable(a) == received && EndsWell(a)
    ensures FirstArrival(a).Lost? ==> received + Deliverable(a) == received && !EndsWell(a)
  {
  }

  /** Over a whole relay no byte is lost or reordered: up and down hold what was read and
      not yet written. When one side ends or is lost, all bytes it had delivered by then
      were passed on, and the end that is reported is the one the stream had. The relay
      gives up in a wait only when one failed. */
  lemma {:induction false} RelayKeeps(r: Relay, waits: seq<bool>)
    requires Linked(r)
    ensures var (f, end) := RelayOf(r, waits);
      && Linked(f) && SameFates(f, r) && Explains(end, f)
      && (end.SelectFailed? ==> false in waits)
      && (end.ClientEnded? || end.ClientReadFailed? ==>
        f.upstream.sent == r.client.received + Deliverable(r.client.arrivals)
        && (end.ClientEnded? <==> EndsWell(r.client.arrivals)))
      && (end.UpstreamEnded? || end.UpstreamReadFailed? ==>
        f.client.sent == r.upstream.received + Deliverable(r.upstream.arrivals)
        && (end.UpstreamEnded? <==> EndsWell(r.upstream.arrivals)))
    decreases Left(r)
  {
    hide RoundOf, Left, Deliverable, EndsWell, Bytes;
    RoundKeeps(r);
    var h := RoundOf(r);
    if h.end.Some? {
      AtTheEnd(h.relay.client.received, h.relay.client.arrivals);
      AtTheEnd(h.relay.upstream.received, h.relay.upstream.arrivals);
    } else if h.progress {
      RelayKeeps(h.relay, waits);
    } else if waits == [] || waits[0] {
      RelayKeeps(h.relay, if waits == [] then [] else waits[1..]);
    }
  }

  /** Waits only decide whether the relay is cut short. */
  lemma {:induction false} WaitsOnlyStop(r: Relay, waits: seq<bool>)
    ensures RelayOf(r, waits).1.SelectFailed? || RelayOf(r, waits) == RelayOf(r, [])
    decreases Left(r)
  {
    hide RoundOf, Left;
    RoundShrinks(r);
    var h := RoundOf(r);
    if h.end.None? {
      WaitsOnlyStop(h.relay, if h.progress || waits == [] then waits else waits[1..]);
    }
  }

  // ---- Both directions are served ----

  /** What one round does for one direction, from a reading side to a writing side: a
      buffer that is not empty is offered to the writer, which takes at least one byte if
      it has room; if the buffer is empty then, the next bytes are read, at most 32768. */
  ghost predicate Served(from: Side, to: Side, b: seq<Byte>, from': Side, to': Side, b': seq<Byte>) {
    var rest := Passed(to, b);
    && |rest| <= |b| && to'.sent == to.sent + b[..|b| - |rest|] && rest == b[|b| - |rest|..]
    && to'.rooms == (if b == [] || to.rooms == [] then to.rooms else to.rooms[1..])
    && (if rest != [] then from'.arrivals == from.arrivals && from'.received == from.received && b' == rest
        else TakesNext(from, from', b'))
  }

  /** What stays buffered after the write. */
  ghost function Passed(to: Side, b: seq<Byte>): seq<Byte>
    ensures FirstRoom(to.rooms).Accepts? && b != [] ==> |Passed(to, b)| < |b|
  {
    if b == [] || !FirstRoom(to.rooms).Accepts? then b
    else
      var count := FirstRoom(to.rooms).count;
      if count < 1 then b[1..] else if count < |b| then b[count..] else []
  }

  /** The next arrival is taken: the first bytes of what arrives go to the buffer, and the
      rest of them stays to arrive. */
  ghost predicate TakesNext(from: Side, from': Side, b': seq<Byte>) {
    match FirstArrival(from.arrivals)
    case NothingYet => b' == [] && from'.arrivals == from.arrivals[1..] && from'.received == from.received
    case Lost => false
    case Data(d) =>
      var n := if |d| < 32768 then |d| else 32768;
      && d != [] && b' == d[..n] && from'.received == from.received + d[..n]
      && from'.arrivals == (if n < |d| then [Data(d[n..])] else []) + from.arrivals[1..]
  }

  /** A direction cannot go on: bytes wait for a broken writer, or the reader is to be read
      and has ended or is lost. */
  ghost predicate Stuck(from: Side, to: Side, b: seq<Byte>) {
    || (b != [] && FirstRoom(to.rooms).Broken?)
    || (Passed(to, b) == [] && (FirstArrival(from.arrivals).Lost? || AtEnd(from.arrivals)))
  }

  lemma WriteServes(to: Side, b: seq<Byte>)
    ensures var (t, c, attempt) := Written(to, b);
      && c == Passed(to, b) && |c| <= |b|
      && (attempt.Failed? <==> b != [] && FirstRoom(to.rooms).Broken?) && !attempt.Ended?
      && t.sent == to.sent + b[..|b| - |c|] && c == b[|b| - |c|..]
      && t.arrivals == to.arrivals && t.received == to.received
      && (!attempt.Failed? ==> t.rooms == if b == [] || to.rooms == [] then to.rooms else to.rooms[1..])
      && (attempt.Moved? <==> t.sent != to.sent)
  {
    hide Taken, Passed;
    PassedIs(to, b);
    if FirstRoom(to.rooms).Accepts? && b != [] {
      LongerAfter(to.sent, b, Taken(FirstRoom(to.rooms).count, |b|));
    }
  }

  lemma PassedIs(to: Side, b: seq<Byte>)
    ensures Passed(to, b) ==
      if b != [] && FirstRoom(to.rooms).Accepts? then b[Taken(FirstRoom(to.rooms).count, |b|)..] else b
  {
  }

  lemma LongerAfter(sent: seq<Byte>, b: seq<Byte>, n: nat)
    requires 1 <= n <= |b|
    ensures sent + b[..n] != sent && b[..|b| - |b[n..]|] == b[..n]
  {
    assert |sent + b[..n]| > |sent|;
  }

  lemma ReadServes(from: Side, b: seq<Byte>)
    ensures var (s, c, attempt) := ReadIn(from, b);
      && (b != [] ==> s == from && c == b && attempt.NotTried?)
      && (b == [] && !attempt.Failed? && !attempt.Ended? ==> TakesNext(from, s, c))
      && (attempt.Failed? <==> b == [] && FirstArrival(from.arrivals).Lost?)
      && (attempt.Ended? <==> b == [] && AtEnd(from.arrivals))
      && s.sent == from.sent && s.rooms == from.rooms
      && (attempt.Moved? <==> s.received != from.received)
  {
  }

  /** One direction of a round: b was offered to the writer, what was left decided about
      the read, and the other direction left the sides' other fields to themselves. */
  lemma OneDirection(from: Side, to: Side, b: seq<Byte>, f: Side, to': Side)
    requires f.arrivals == from.arrivals && f.received == from.received
    requires to'.sent == Written(to, b).0.sent && to'.rooms == Written(to, b).0.rooms && !Written(to, b).2.Failed?
    requires var attempt := ReadIn(f, Written(to, b).1).2; !attempt.Failed? && !attempt.Ended?
    ensures var (g, c, _) := ReadIn(f, Written(to, b).1); Served(from, to, b, g, to', c) && !Stuck(from, to, b)
  {
    hide Written, ReadIn, Passed;
    WriteServes(to, b);
    ReadServes(f, Written(to, b).1);
  }

  /** A failed write, or a read that fails or ends, means that the direction is stuck. */
  lemma StuckDirection(from: Side, to: Side, b: seq<Byte>, f: Side)
    requires f.arrivals == from.arrivals
    ensures var (_, c, first) := Written(to, b);
      var second := ReadIn(f, c).2;
      Stuck(from, to, b) <==> first.Failed? || second.Failed? || second.Ended?
  {
    hide Written, ReadIn, Passed;
    WriteServes(to, b);
    ReadServes(f, Written(to, b).1);
  }

  /** A round in one piece. */
  lemma RoundIs(r: Relay)
    ensures var h := RoundOf(r);
      var (u, up, a1) := Written(r.upstream, r.up);
      var (c, down, a2) := Written(r.client, r.down);
      var (c', up', a3) := ReadIn(c, up);
      var (u', down', a4) := ReadIn(u, down);
      && (h.end.None? <==>
        !a1.Failed? && !a2.Failed? && !a3.Failed? && !a3.Ended? && !a4.Failed? && !a4.Ended?)
      && (h.end.None? ==> h.relay == Relay(c', u', up', down') && h.progress == (a1.Moved? || a2.Moved? || a3.Moved? || a4.Moved?))
  {
    hide Written, ReadIn;
  }

  /** Bytes went somewhere. */
  ghost predicate Advanced(r: Relay, v: Relay) {
    || v.client.sent != r.client.sent || v.client.received != r.client.received
    || v.upstream.sent != r.upstream.sent || v.upstream.received != r.upstream.received
  }

  /** Every round serves both directions, unless one of them is stuck, which ends the
      relay; progress means that bytes were read or written. */
  lemma RoundServes(r: Relay)
    ensures var h := RoundOf(r);
      var v := h.relay;
      && (h.end.Some? <==> Stuck(r.client, r.upstream, r.up) || Stuck(r.upstream, r.client, r.down))
      && (h.end.None? ==>
        && Served(r.client, r.upstream, r.up, v.client, v.upstream, v.up)
        && Served(r.upstream, r.client, r.down, v.upstream, v.client, v.down)
        && (h.progress <==> Advanced(r, v)))
  {
    hide Written, ReadIn, Served, Stuck, RoundOf;
    var (u, up, a1) := Written(r.upstream, r.up);
    var (c, down, a2) := Written(r.client, r.down);
    RoundIs(r);
    SidesApart(r);
    StuckDirection(r.client, r.upstream, r.up, c);
    StuckDirection(r.upstream, r.client, r.down, u);
    if RoundOf(r).end.None? {
      var v := RoundOf(r).relay;
      OneDirection(r.client, r.upstream, r.up, c, v.upstream);
      OneDirection(r.upstream, r.client, r.down, u, v.client);
    }
  }

  /** Writing and reading touch different fields of a side. */
  lemma SidesApart(r: Relay)
    ensures var (u, up, a1) := Written(r.upstream, r.up);
      var (c, down, a2) := Written(r.client, r.down);
      var (c', up', a3) := ReadIn(c, up);
      var (u', down', a4) := ReadIn(u, down);
      && c.arrivals == r.client.arrivals && c.received == r.client.received
      && u.arrivals == r.upstream.arrivals && u.received == r.upstream.received
      && c'.sent == c.sent && c'.rooms == c.rooms && u'.sent == u.sent && u'.rooms == u.rooms
      && (a1.Moved? <==> u.sent != r.upstream.sent) && (a2.Moved? <==> c.sent != r.client.sent)
      && (a3.Moved? <==> c'.received != c.received) && (a4.Moved? <==> u'.received != u.received)
  {
    hide Written, ReadIn, TakesNext, Passed;
    WriteServes(r.upstream, r.up);
    WriteServes(r.client, r.down);
    ReadServes(Written(r.client, r.down).0, Written(r.upstream, r.up).1);
    ReadServes(Written(r.upstream, r.up).0, Written(r.client, r.down).1);
  }

  /** The relay goes on from round to round until a direction is stuck; after a round in
      which no byte moved it waits, and it ends if that wait fails. */
  lemma RelayGoesOn(r: Relay, waits: seq<bool>)
    ensures var v := RoundOf(r).relay;
      if Stuck(r.client, r.upstream, r.up) || Stuck(r.upstream, r.client, r.down) then
        RelayOf(r, waits).0 == v && !RelayOf(r, waits).1.SelectFailed?
      else if Advanced(r, v) || waits == [] then RelayOf(r, waits) == RelayOf(v, waits)
      else RelayOf(r, waits) == if waits[0] then RelayOf(v, waits[1..]) else (v, SelectFailed)
  {
    hide RoundOf, Left, Stuck, Advanced, Served;
    RoundServes(r);
    RoundKeeps(r);
  }

  /** How often a side can be read, at most 32768 bytes at a time. */
  function Tries(a: seq<Arrival>): nat {
    if a == [] then 0
    else
      Tries(a[1..]) + match a[0]
                      case NothingYet => 1
                      case Lost => 0
                      case Data(b) => (|b| + 32767) / 32768
  }

  lemma TriesOf(head: Arrival, rest: seq<Arrival>)
    ensures Tries([head] + rest) == Tries(rest) + match head
      case NothingYet => 1
      case Lost => 0
      case Data(b) => (|b| + 32767) / 32768
  {
    assert ([head] + rest)[1..] == rest;
  }

  /** A read uses up one try. */
  lemma OneTry(from: Side, from': Side, b': seq<Byte>)
    requires TakesNext(from, from', b')
    ensures Tries(from'.arrivals) + 1 == Tries(from.arrivals)
  {
    hide Tries;
    var a := from.arrivals;
    assert a == [a[0]] + a[1..];
    TriesOf(a[0], a[1..]);
    if a[0].Data? {
      var d := a[0].bytes;
      if |d| > 32768 {
        TriesOf(Data(d[32768..]), a[1..]);
      } else {
        assert [] + a[1..] == a[1..];
      }
    }
  }

  /** What a direction can still do: read the one side and write to the other. */
  function ToDo(from: Side, to: Side): nat {
    Tries(from.arrivals) + |to.rooms|
  }

  /** A round uses one or two of them in each direction. */
  lemma ServedUses(from: Side, to: Side, b: seq<Byte>, from': Side, to': Side, b': seq<Byte>)
    requires Served(from, to, b, from', to', b') && !Stuck(from, to, b)
    ensures ToDo(from', to') < ToDo(from, to) <= ToDo(from', to') + 2
  {
    hide TakesNext, Tries;
    if Passed(to, b) == [] {
      OneTry(from, from', b');
    }
  }

  /** The rounds of a relay before its last. */
  function Rounds(r: Relay, waits: seq<bool>): nat
    decreases Left(r)
  {
    hide RoundOf, Left;
    RoundShrinks(r);
    var h := RoundOf(r);
    if h.end.Some? || (!h.progress && waits != [] && !waits[0]) then 0
    else 1 + Rounds(h.relay, if h.progress || waits == [] then waits else waits[1..])
  }

  /** Neither direction starves: over a whole relay each is served in every round, so what
      the one used of its reads and writes is at most twice what the other used, and two. */
  lemma BothServed(r: Relay, waits: seq<bool>)
    ensures var f := RelayOf(r, waits).0;
      var up, down := ToDo(r.client, r.upstream) - ToDo(f.client, f.upstream), ToDo(r.upstream, r.client) - ToDo(f.upstream, f.client);
      up <= 2 * down + 2 && down <= 2 * up + 2
  {
    hide ToDo, RelayOf, Rounds;
    RoundsServe(r, waits);
  }

  lemma {:induction false} RoundsServe(r: Relay, waits: seq<bool>)
    ensures var f, n := RelayOf(r, waits).0, Rounds(r, waits);
      && n <= ToDo(r.client, r.upstream) - ToDo(f.client, f.upstream) <= 2 * n + 2
      && n <= ToDo(r.upstream, r.client) - ToDo(f.upstream, f.client) <= 2 * n + 2
    decreases Left(r)
  {
    hide RoundOf, Left, ToDo, Stuck, Served, Advanced;
    RoundServes(r);
    RoundKeeps(r);
    var h := RoundOf(r);
    if h.end.None? {
      ServedUses(r.client, r.upstream, r.up, h.relay.client, h.relay.upstream, h.relay.up);
      ServedUses(r.upstream, r.client, r.down, h.relay.upstream, h.relay.client, h.relay.down);
      if h.progress || waits == [] || waits[0] {
        RoundsServe(h.relay, if h.progress || waits == [] then waits else waits[1..]);
      }
    } else {
      LastRoundUses(r);
    }
  }

  lemma LastRoundUses(r: Relay)
    ensures var v := RoundOf(r).relay;
      && ToDo(v.client, v.upstream) <= ToDo(r.client, r.upstream) <= ToDo(v.client, v.upstream) + 2
      && ToDo(v.upstream, v.client) <= ToDo(r.upstream, r.client) <= ToDo(v.upstream, v.client) + 2
  {
    hide Written, ReadIn, Tries;
    WriteUses(r.upstream, r.up);
    WriteUses(r.client, r.down);
    ReadUses(Written(r.client, r.down).0, Written(r.upstream, r.up).1);
    ReadUses(Written(r.upstream, r.up).0, Written(r.client, r.down).1);
  }

  lemma WriteUses(to: Side, b: seq<Byte>)
    ensures var t := Written(to, b).0; t.arrivals == to.arrivals && |t.rooms| <= |to.rooms| <= |t.rooms| + 1
  {
  }

  lemma ReadUses(from: Side, b: seq<Byte>)
    ensures var s := ReadIn(from, b).0;
      s.rooms == from.rooms && Tries(s.arrivals) <= Tries(from.arrivals) <= Tries(s.arrivals) + 1
  {
    hide Tries, TakesNext;
    ReadServes(from, b);
    var (s, c, attempt) := ReadIn(from, b);
    if b == [] && !attempt.Failed? && !attempt.Ended? {
      OneTry(from, s, c);
    }
  }

  // ---- The code ----

  class Stream {
    var arrivals: seq<Arrival>
    var rooms: seq<Room>
    var received: seq<Byte>
    var sent: seq<Byte>

    constructor (a: seq<Arrival>, r: seq<Room>)
      ensures arrivals == a && rooms == r && received == [] && sent == []
    {
      arrivals, rooms, received, sent := a, r, [], [];
    }

    ghost function View(): Side
      reads this
    {
      Side(arrivals, rooms, received, sent)
    }

    /** stream_read: a positive count, 0 at the end, -2 to retry, -1 on failure. An end
        or a loss stays. */
    method Read(data: array<Byte>) returns (n: int)
      requires data.Length == BUFFER_SIZE
      modifies this`arrivals, this`received, data
      ensures match FirstArrival(old(arrivals))
        case Lost => n == -1 && arrivals == old(arrivals) && received == old(received)
        case NothingYet => n == -2 && arrivals == old(arrivals)[1..] && received == old(received)
        case Data(b) =>
          if b == [] then n == 0 && arrivals == old(arrivals) && received == old(received)
          else n == Cutoff(b) && data[..n] == b[..n] && received == old(received) + b[..n] && arrivals == AfterPiece(old(arrivals))
    {
      var head := FirstArrival(arrivals);
      match head
      case Lost => return -1;
      case NothingYet => arrivals := arrivals[1..]; return -2;
      case Data(b) =>
        if b == [] {
          return 0;
        }
        n := Cutoff(b);
        CopyIn(b, n, data);
        received := received + b[..n];
        arrivals := AfterPiece(arrivals);
    }

    /** stream_write: a positive count, -2 to retry, -1 on failure. A break stays. */
    method Write(data: array<Byte>, off: nat, len: nat) returns (n: int)
      requires off < len <= data.Length
      modifies this`rooms, this`sent
      ensures match FirstRoom(old(rooms))
        case Broken => n == -1 && rooms == old(rooms) && sent == old(sent)
        case NoRoom => n == -2 && rooms == old(rooms)[1..] && sent == old(sent)
        case Accepts(count) => n == Taken(count, len - off) && sent == old(sent) + data[off..off + n] && rooms == old(rooms)[1..]
    {
      var head := FirstRoom(rooms);
      match head
      case Broken => return -1;
      case NoRoom => rooms := rooms[1..]; return -2;
      case Accepts(count) =>
        n := Taken(count, len - off);
        sent := sent + data[off..off + n];
        rooms := rooms[1..];
    }
  }

  method CopyIn(b: seq<Byte>, n: nat, data: array<Byte>)
    requires n <= |b| && n <= data.Length
    modifies data
    ensures data[..n] == b[..n]
  {
    for i := 0 to n
      invariant data[..i] == b[..i]
    {
      data[i] := b[i];
      assert data[..i + 1] == data[..i] + [b[i]];
    }
  }

  class Buffer {
    const data: array<Byte>
    var off: nat
    var len: nat

    constructor ()
      ensures Valid() && fresh(data) && Contents() == []
    {
      data := new Byte[BUFFER_SIZE](_ => 0);
      off, len := 0, 0;
    }

    ghost predicate Valid()
      reads this
    {
      off <= len <= data.Length == BUFFER_SIZE && (off == len ==> off == 0)
    }

    /** The bytes read in and not yet written out. */
    ghost function Contents(): (s: seq<Byte>)
      requires Valid()
      reads this, data
      ensures |s| == len - off
    {
      data[off..len]
    }

    /** ok is false when the relay is to end. */
    method WriteTo(stream: Stream) returns (ok: bool, progress: bool)
      requires Valid()
      modifies this, stream`rooms, stream`sent
      ensures Valid()
      ensures var (s, b, attempt) := Written(old(stream.View()), old(Contents()));
        stream.View() == s && Contents() == b && ok == !attempt.Failed? && progress == attempt.Moved?
    {
      hide Taken;
      ok, progress := true, false;
      if off < len {
        var n := stream.Write(data, off, len);
        if n > 0 {
          SplitAt(data, off, len, n);
          off := off + n;
          if off >= len {
            off, len := 0, 0;
          }
          progress := true;
        } else if n < -1 {
        } else {
          ok := false;
        }
      }
    }

    /** ok is false at the end of the stream, which ended reports, or when it is lost. */
    method ReadFrom(stream: Stream) returns (ok: bool, progress: bool, ended: bool)
      requires Valid()
      modifies this, data, stream`arrivals, stream`received
      ensures Valid()
      ensures var (s, b, attempt) := ReadIn(old(stream.View()), old(Contents()));
        && stream.View() == s && Contents() == b && ok == !(attempt.Failed? || attempt.Ended?)
        && progress == attempt.Moved? && ended == attempt.Ended?
    {
      ok, progress, ended := true, false, false;
      if off >= len {
        var n := stream.Read(data);
        if n > 0 {
          off, len := 0, n;
          progress := true;
        } else if n == 0 {
          ok, ended := false, true;
        } else if n < -1 {
        } else {
          ok := false;
        }
      }
    }
  }

  lemma SplitAt(data: array<Byte>, off: nat, len: nat, n: nat)
    requires off + n <= len <= data.Length
    ensures data[off..len][..n] == data[off..off + n] && data[off..len][n..] == data[off + n..len]
  {
  }

  ghost predicate Apart(client: Stream, upstream: Stream, c2u: Buffer, u2c: Buffer)
    reads c2u, u2c
  {
    client != upstream && c2u != u2c && c2u.data != u2c.data && c2u.Valid() && u2c.Valid()
  }

  ghost function RelayView(client: Stream, upstream: Stream, c2u: Buffer, u2c: Buffer): Relay
    requires Apart(client, upstream, c2u, u2c)
    reads client, upstream, c2u, u2c, c2u.data, u2c.data
  {
    Relay(client.View(), upstream.View(), c2u.Contents(), u2c.Contents())
  }

  /** The two writes of a round. */
  method WriteHalf(client: Stream, upstream: Stream, c2u: Buffer, u2c: Buffer) returns (end: Option<End>, progress: bool)
    requires Apart(client, upstream, c2u, u2c)
    modifies client`rooms, client`sent, upstream`rooms, upstream`sent, c2u, u2c
    ensures Apart(client, upstream, c2u, u2c)
    ensures Half(RelayView(client, upstream, c2u, u2c), end, progress) ==
      WritesOf(old(RelayView(client, upstream, c2u, u2c)))
  {
    hide Written;
    var ok, moved := c2u.WriteTo(upstream);
    if !ok {
      return Some(UpstreamWriteFailed), false;
    }
    progress := moved;
    ok, moved := u2c.WriteTo(client);
    if !ok {
      return Some(ClientWriteFailed), progress;
    }
    return None, progress || moved;
  }

  /** The two reads of a round. */
  method ReadHalf(client: Stream, upstream: Stream, c2u: Buffer, u2c: Buffer) returns (end: Option<End>, progress: bool)
    requires Apart(client, upstream, c2u, u2c)
    modifies client`arrivals, client`received, upstream`arrivals, upstream`received, c2u, u2c, c2u.data, u2c.data
    ensures Apart(client, upstream, c2u, u2c)
    ensures Half(RelayView(client, upstream, c2u, u2c), end, progress) ==
      ReadsOf(old(RelayView(client, upstream, c2u, u2c)))
  {
    hide ReadIn;
    var ok, moved, ended := c2u.ReadFrom(client);
    if !ok {
      return Some(if ended then ClientEnded else ClientReadFailed), false;
    }
    progress := moved;
    ok, moved, ended := u2c.ReadFrom(upstream);
    if !ok {
      return Some(if ended then UpstreamEnded else UpstreamReadFailed), progress;
    }
    return None, progress || moved;
  }

  method Round(client: Stream, upstream: Stream, c2u: Buffer, u2c: Buffer) returns (end: Option<End>, progress: bool)
    requires Apart(client, upstream, c2u, u2c)
    modifies client, upstream, c2u, u2c, c2u.data, u2c.data
    ensures Apart(client, upstream, c2u, u2c)
    ensures Half(RelayView(client, upstream, c2u, u2c), end, progress) ==
      RoundOf(old(RelayView(client, upstream, c2u, u2c)))
  {
    hide WritesOf, ReadsOf;
    end, progress := WriteHalf(client, upstream, c2u, u2c);
    if end.None? {
      var read;
      end, read := ReadHalf(client, upstream, c2u, u2c);
      progress := progress || read;
    }
  }

  /** lostUp and lostDown are what is buffered when the relay ends. */
  method ProxyLoop(client: Stream, upstream: Stream, selects: seq<bool>)
      returns (end: End, lostUp: seq<Byte>, lostDown: seq<Byte>)
    requires client != upstream
    modifies client, upstream
    ensures (Relay(client.View(), upstream.View(), lostUp, lostDown), end) ==
      RelayOf(Relay(old(client.View()), old(upstream.View()), [], []), selects)
  {
    hide RoundOf, Left;
    var c2u := new Buffer();
    var u2c := new Buffer();
    var waits := selects;
    while true
      invariant fresh(c2u) && fresh(u2c) && fresh(c2u.data) && fresh(u2c.data)
      invariant Apart(client, upstream, c2u, u2c)
      invariant RelayOf(RelayView(client, upstream, c2u, u2c), waits) ==
        RelayOf(Relay(old(client.View()), old(upstream.View()), [], []), selects)
      decreases Left(RelayView(client, upstream, c2u, u2c))
    {
      RoundShrinks(RelayView(client, upstream, c2u, u2c));
      var over, progress := Round(client, upstream, c2u, u2c);
      lostUp, lostDown := c2u.data[c2u.off..c2u.len], u2c.data[u2c.off..u2c.len];
      if over.Some? {
        return over.value, lostUp, lostDown;
      }
      if !progress {
        if waits != [] && !waits[0] {
          return SelectFailed, lostUp, lostDown;
        }
        waits := if waits == [] then [] else waits[1..];
      }
    }
  }
}
