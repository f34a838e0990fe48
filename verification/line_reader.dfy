/** read_line of src/stratum.c: lines out of a byte stream that arrives in pieces. */
module LineReading {
  import opened Words

  const BUFFER_SIZE := 65536
  const NEWLINE: Byte := 10
  const RETURN: Byte := 13

  /** What the connection does next: select is interrupted, times out or fails, or a read
      asks to be repeated, fails, or has bytes; no bytes mean the end of the stream. */
  datatype Event = Interrupted | Timeout | SelectError | Retry | Fail | Got(bytes: seq<Byte>)

  /** All bytes still to come. */
  function Stream(events: seq<Event>): (s: seq<Byte>) {
    if events == [] then []
    else if events[0].Got? then events[0].bytes + Stream(events[1..])
    else Stream(events[1..])
  }

  lemma StreamOf(e: Event, rest: seq<Event>)
    ensures Stream([e] + rest) == if e.Got? then e.bytes + Stream(rest) else Stream(rest)
  {
    assert ([e] + rest)[1..] == rest;
  }

  /** The position of the first newline, or the length if there is none. */
  function FirstNewline(s: seq<Byte>): (i: nat)
    ensures i <= |s| && (i < |s| ==> s[i] == 10) && forall j :: 0 <= j < i ==> s[j] != 10
  {
    if s == [] || s[0] == NEWLINE then 0 else 1 + FirstNewline(s[1..])
  }

  /** The outcome of one read of at most space bytes: what arrives and what stays. */
  function Take(events: seq<Event>, space: nat): (seq<Byte>, seq<Event>)
    requires events != [] && events[0].Got?
  {
    var b := events[0].bytes;
    if |b| <= space then (b, events[1..]) else (b[..space], [Got(b[space..])] + events[1..])
  }

  lemma SplitJoin(b: seq<Byte>, i: nat, rest: seq<Byte>)
    requires i <= |b|
    ensures b + rest == b[..i] + (b[i..] + rest)
  {
  }

  lemma TakeKeepsBytes(events: seq<Event>, space: nat)
    requires events != [] && events[0].Got?
    ensures var (b, rest) := Take(events, space);
      && |b| <= space && Stream(events) == b + Stream(rest)
      && (space > 0 && events[0].bytes != [] ==> b != [])
      && (events[0].bytes == [] ==> b == [] && rest == events[1..])
      && |rest| <= |events|
  {
    hide Stream;
    var b, more := events[0].bytes, events[1..];
    assert events == [Got(b)] + more;
    StreamOf(Got(b), more);
    if |b| > space {
      PartialRead(b, space, more);
    }
  }

  lemma PartialRead(b: seq<Byte>, i: nat, more: seq<Event>)
    requires i <= |b|
    ensures b + Stream(more) == b[..i] + Stream([Got(b[i..])] + more)
  {
    hide Stream;
    StreamOf(Got(b[i..]), more);
    SplitJoin(b, i, Stream(more));
  }

  datatype Outcome = Outcome(rc: int, line: seq<Byte>, buffer: seq<Byte>, events: seq<Event>)

  /** What read_line does with the buffered bytes and the events to come. */
  function ReadLineOf(buffer: seq<Byte>, events: seq<Event>, outSize: nat): Outcome
    requires |buffer| <= BUFFER_SIZE
    decreases |Stream(events)| + |events|
  {
    var i := FirstNewline(buffer);
    if i < |buffer| then
      var line := buffer[..if i > 0 && buffer[i - 1] == RETURN then i - 1 else i];
      if |line| >= outSize then Outcome(-2, [], buffer, events) else Outcome(1, line, buffer[i + 1..], events)
    else if |buffer| == BUFFER_SIZE then Outcome(-2, [], buffer, events)
    else if events == [] || events[0].Timeout? then Outcome(-3, [], buffer, Rest(events))
    else if events[0].SelectError? || events[0].Fail? then Outcome(-1, [], buffer, events[1..])
    else if events[0].Got? then
      if events[0].bytes == [] then Outcome(0, [], buffer, events[1..])
      else
        var (b, rest) := Take(events, BUFFER_SIZE - |buffer|);
        StreamSteps(events, BUFFER_SIZE - |buffer|);
        ReadLineOf(buffer + b, rest, outSize)
    else
      StreamSteps(events, BUFFER_SIZE - |buffer|);
      ReadLineOf(buffer, events[1..], outSize)
  }

  function Rest(events: seq<Event>): seq<Event> {
    if events == [] then [] else events[1..]
  }

  /** The socket or TLS connection. */
  class Connection {
    var events: seq<Event>

    constructor (all: seq<Event>)
      ensures events == all
    {
      events := all;
    }

    /** Data is pending, or select says so: 1; timeout: 0; interrupted: -2; error: -1. */
    method Ready() returns (ready: int)
      modifies this
      ensures match Head(old(events))
        case Timeout => ready == 0 && events == Rest(old(events))
        case Interrupted => ready == -2 && events == Rest(old(events))
        case SelectError => ready == -1 && events == Rest(old(events))
        case _ => ready == 1 && events == old(events)
    {
      var head := Head(events);
      if head.Timeout? {
        events := Rest(events);
        return 0;
      }
      if head.Interrupted? {
        events := Rest(events);
        return -2;
      }
      if head.SelectError? {
        events := Rest(events);
        return -1;
      }
      return 1;
    }

    /** conn_read into dst from offset on. */
    method Read(dst: array<Byte>, offset: nat) returns (n: int)
      requires offset < dst.Length && (Head(events).Retry? || Head(events).Fail? || Head(events).Got?)
      modifies this, dst
      ensures dst[..offset] == old(dst[..offset])
      ensures match Head(old(events))
        case Retry => n == -3 && events == Rest(old(events))
        case Got(bytes) =>
          var (b, rest) := Take(old(events), dst.Length - offset);
          n == |b| && offset + n <= dst.Length && dst[offset..offset + n] == b && events == rest
        case _ => n == -1 && events == Rest(old(events))
    {
      var head := Head(events);
      if head.Retry? {
        events := Rest(events);
        return -3;
      }
      if head.Fail? {
        events := Rest(events);
        return -1;
      }
      var (b, rest) := Take(events, dst.Length - offset);
      for i := 0 to |b|
        invariant dst[..offset] == old(dst[..offset])
        invariant dst[offset..offset + i] == b[..i]
        invariant events == old(events)
      {
        dst[offset + i] := b[i];
        assert dst[offset..offset + i + 1] == dst[offset..offset + i] + [b[i]];
      }
      assert b[..|b|] == b;
      events := rest;
      return |b|;
    }
  }

  function Head(events: seq<Event>): Event {
    if events == [] then Timeout else events[0]
  }

  class LineReader {
    const conn: Connection
    const buffer: array<Byte>
    var used: nat

    constructor (c: Connection)
      ensures conn == c && fresh(buffer) && Valid() && Contents() == []
    {
      conn := c;
      buffer := new Byte[BUFFER_SIZE](_ => 0);
      used := 0;
    }

    ghost predicate Valid()
      reads this
    {
      used <= buffer.Length == BUFFER_SIZE
    }

    ghost function Contents(): (s: seq<Byte>)
      requires Valid()
      reads this, buffer
      ensures |s| == used
    {
      buffer[..used]
    }

    /** memmove the bytes from consumed on to the front. */
    method Consume(consumed: nat)
      requires Valid() && consumed <= used
      modifies this`used, buffer
      ensures Valid() && Contents() == old(Contents())[consumed..]
    {
      ghost var was := buffer[..];
      for i := 0 to used - consumed
        invariant used == old(used)
        invariant forall j :: 0 <= j < i ==> buffer[j] == was[consumed + j]
        invariant forall j :: i <= j < buffer.Length ==> buffer[j] == was[j]
      {
        buffer[i] := buffer[consumed + i];
      }
      used := used - consumed;
    }

    /** The search for a newline at the start of each round of read_line. */
    method FindNewline() returns (i: nat)
      requires Valid()
      ensures i == FirstNewline(Contents())
    {
      i := 0;
      while i < used
        invariant i <= used && forall j :: 0 <= j < i ==> buffer[j] != NEWLINE
      {
        if buffer[i] == NEWLINE {
          break;
        }
        i := i + 1;
      }
      FirstIs(Contents(), i);
    }

    /** One round of the search: return a line that is complete, or complain about one
        that does not fit. */
    method TryLine(outSize: nat) returns (done: bool, rc: int, line: seq<Byte>)
      requires Valid()
      modifies this`used, buffer
      ensures Valid()
      ensures done ==> forall events :: ReadLineOf(old(Contents()), events, outSize) == Outcome(rc, line, Contents(), events)
      ensures !done ==> Contents() == old(Contents()) && FirstNewline(Contents()) == used < BUFFER_SIZE
    {
      hide Stream, FirstNewline, Take;
      var i := FindNewline();
      if i < used {
        var lineLen := i;
        if lineLen > 0 && buffer[lineLen - 1] == RETURN {
          lineLen := lineLen - 1;
        }
        line := buffer[..lineLen];
        assert line == Contents()[..lineLen];
        if lineLen >= outSize {
          return true, -2, [];
        }
        Consume(i + 1);
        return true, 1, line;
      }
      return used == buffer.Length, -2, [];
    }

    /** The wait and the read of one round: give up with rc, or go on with more bytes
        buffered or one interruption less to come. */
    method Fill(ghost outSize: nat) returns (done: bool, rc: int)
      requires Valid() && FirstNewline(Contents()) == used < BUFFER_SIZE
      modifies this`used, buffer, conn
      ensures Valid()
      ensures done ==> ReadLineOf(old(Contents()), old(conn.events), outSize) == Outcome(rc, [], Contents(), conn.events)
      ensures !done ==> ReadLineOf(old(Contents()), old(conn.events), outSize) == ReadLineOf(Contents(), conn.events, outSize)
      ensures !done ==> Left(conn.events) < Left(old(conn.events))
    {
      hide Stream, FirstNewline, Take, ReadLineOf;
      NextEvent(Contents(), conn.events, outSize);
      var ready := conn.Ready();
      if ready == 0 {
        return true, -3;
      }
      if ready == -2 {
        return false, 0;
      }
      if ready < 0 {
        return true, -1;
      }
      ghost var had := Contents();
      var n := conn.Read(buffer, used);
      assert Contents() == had;
      if n == 0 {
        return true, 0;
      }
      if n < 0 {
        return n != -3, -1;
      }
      assert buffer[..used + n] == had + buffer[used..used + n];
      used := used + n;
      return false, 0;
    }

    /** The line is returned where the source copies it to out. */
    method ReadLine(outSize: nat) returns (rc: int, line: seq<Byte>)
      requires Valid()
      modifies this`used, buffer, conn
      ensures Valid()
      ensures Outcome(rc, line, Contents(), conn.events) == ReadLineOf(old(Contents()), old(conn.events), outSize)
    {
      hide ReadLineOf, Stream, FirstNewline;
      ghost var goal := ReadLineOf(Contents(), conn.events, outSize);
      while true
        invariant Valid()
        invariant ReadLineOf(Contents(), conn.events, outSize) == goal
        decreases Left(conn.events)
      {
        var done;
        done, rc, line := TryLine(outSize);
        if done {
          return;
        }
        done, rc := Fill(outSize);
        if done {
          return rc, [];
        }
      }
    }
  }

  /** What is left to happen: bytes and events. */
  function Left(events: seq<Event>): nat {
    |Stream(events)| + |events|
  }

  /** How the next event decides when no complete line is buffered. */
  lemma NextEvent(buffer: seq<Byte>, events: seq<Event>, outSize: nat)
    requires FirstNewline(buffer) == |buffer| < BUFFER_SIZE
    ensures var o, rest := ReadLineOf(buffer, events, outSize), Rest(events);
      match Head(events)
      case Timeout => o == Outcome(-3, [], buffer, rest)
      case SelectError => o == Outcome(-1, [], buffer, rest)
      case Fail => o == Outcome(-1, [], buffer, rest)
      case Interrupted => o == ReadLineOf(buffer, rest, outSize) && Left(rest) < Left(events)
      case Retry => o == ReadLineOf(buffer, rest, outSize) && Left(rest) < Left(events)
      case Got(_) =>
        var (b, next) := Take(events, BUFFER_SIZE - |buffer|);
        && |buffer| + |b| <= BUFFER_SIZE
        && (if b == [] then o == Outcome(0, [], buffer, next)
            else o == ReadLineOf(buffer + b, next, outSize) && Left(next) < Left(events))
  {
    hide Stream, FirstNewline, Take;
    if events != [] {
      StreamSteps(events, BUFFER_SIZE - |buffer|);
    }
  }

  lemma FirstIs(s: seq<Byte>, i: nat)
    requires i <= |s| && (i < |s| ==> s[i] == NEWLINE) && forall j :: 0 <= j < i ==> s[j] != NEWLINE
    ensures FirstNewline(s) == i
  {
    var k := FirstNewline(s);
    assert !(k < i) && !(i < k);
  }

  /** The bytes and events to come get fewer with every event. */
  lemma StreamSteps(events: seq<Event>, space: nat)
    requires space > 0 && events != []
    ensures |Stream(events[1..])| + |events[1..]| < |Stream(events)| + |events|
    ensures !events[0].Got? ==> Stream(events[1..]) == Stream(events)
    ensures events[0].Got? ==>
      var (b, rest) := Take(events, space);
      && |b| <= space && Stream(events) == b + Stream(rest)
      && (b == [] <==> events[0].bytes == [])
      && (b == [] ==> rest == events[1..] && Stream(events[1..]) == Stream(events))
      && (b != [] ==> |Stream(rest)| + |rest| < |Stream(events)| + |events|)
  {
    hide Take;
    if events[0].Got? {
      TakeKeepsBytes(events, space);
    }
  }

  // ---- What a reader of lines relies on ----

  /** Without one carriage return, byte 13, at its end. */
  function WithoutReturn(s: seq<Byte>): seq<Byte> {
    if s != [] && s[|s| - 1] == 13 then s[..|s| - 1] else s
  }

  /** The complete lines of a stream, each ended by a newline, byte 10, and the unfinished
      rest. */
  function Lines(s: seq<Byte>): seq<seq<Byte>>
    decreases |s|
  {
    var i := FirstNewline(s);
    if i == |s| then [] else [WithoutReturn(s[..i])] + Lines(s[i + 1..])
  }

  function Unfinished(s: seq<Byte>): seq<Byte>
    decreases |s|
  {
    var i := FirstNewline(s);
    if i == |s| then s else Unfinished(s[i + 1..])
  }

  /** Every line with its terminator fits the buffer, and so does the unfinished rest. */
  ghost predicate LinesFit(s: seq<Byte>)
    decreases |s|
  {
    var i := FirstNewline(s);
    i < 65536 && (i < |s| ==> LinesFit(s[i + 1..]))
  }

  /** An outcome is the first line of the stream without its terminator and one trailing
      carriage return, or leaves the stream as it was. */
  ghost predicate Serves(o: Outcome, s: seq<Byte>) {
    var i := FirstNewline(s);
    && |o.buffer| <= BUFFER_SIZE
    && (o.rc == 1 ==> i < |s| && i < 65536 && o.line == WithoutReturn(s[..i]) && o.buffer + Stream(o.events) == s[i + 1..])
    && (o.rc != 1 ==> o.line == [] && o.buffer + Stream(o.events) == s)
    && (o.rc == -2 ==> i >= 65536)
    && (i >= 65536 ==> o.rc != 1)
    && o.rc in {1, 0, -1, -2, -3}
  }

  lemma ServesBuffered(buffer: seq<Byte>, events: seq<Event>)
    requires FirstNewline(buffer) < |buffer| <= BUFFER_SIZE
    ensures Serves(ReadLineOf(buffer, events, BUFFER_SIZE), buffer + Stream(events))
  {
    hide FirstNewline, Stream, ReadLineOf, WithoutReturn;
    BufferedLine(buffer, Stream(events));
    BufferedOutcome(buffer, events);
  }

  /** A complete line in the buffer is returned without looking at the connection. */
  lemma BufferedOutcome(buffer: seq<Byte>, events: seq<Event>)
    requires FirstNewline(buffer) < |buffer| <= BUFFER_SIZE
    ensures var i := FirstNewline(buffer);
      ReadLineOf(buffer, events, BUFFER_SIZE) == Outcome(1, WithoutReturn(buffer[..i]), buffer[i + 1..], events)
  {
    hide FirstNewline, Stream;
    var i := FirstNewline(buffer);
    assert i > 0 ==> buffer[..i][..i - 1] == buffer[..i - 1];
  }

  lemma ServesFull(buffer: seq<Byte>, events: seq<Event>)
    requires FirstNewline(buffer) == |buffer| == BUFFER_SIZE
    ensures Serves(ReadLineOf(buffer, events, BUFFER_SIZE), buffer + Stream(events))
  {
    hide FirstNewline, Stream;
    FullBuffer(buffer, Stream(events));
  }

  lemma ServesNothing(buffer: seq<Byte>, events: seq<Event>, rc: int)
    requires |buffer| <= BUFFER_SIZE && rc in {0, -1, -3}
    ensures Serves(Outcome(rc, [], buffer, events), buffer + Stream(events))
  {
  }

  lemma RestStream(events: seq<Event>)
    ensures !Head(events).Got? || Head(events).bytes == [] ==> Stream(Rest(events)) == Stream(events)
  {
    if events != [] && events[0].Got? && events[0].bytes == [] {
      assert [] + Stream(events[1..]) == Stream(events[1..]);
    }
  }

  /** One call loses and repeats no byte, and gives up with -2 only when the first line and
      its terminator do not fit the buffer. */
  lemma {:induction false} OneLine(buffer: seq<Byte>, events: seq<Event>)
    requires |buffer| <= BUFFER_SIZE
    ensures Serves(ReadLineOf(buffer, events, BUFFER_SIZE), buffer + Stream(events))
    decreases |Stream(events)| + |events|
  {
    hide Take, FirstNewline, Stream, Serves, ReadLineOf;
    if FirstNewline(buffer) < |buffer| {
      ServesBuffered(buffer, events);
    } else if |buffer| == BUFFER_SIZE {
      ServesFull(buffer, events);
    } else {
      NextEvent(buffer, events, BUFFER_SIZE);
      RestStream(events);
      match Head(events)
      case Timeout => ServesNothing(buffer, Rest(events), -3);
      case SelectError => ServesNothing(buffer, Rest(events), -1);
      case Fail => ServesNothing(buffer, Rest(events), -1);
      case Interrupted => OneLine(buffer, Rest(events));
      case Retry => OneLine(buffer, Rest(events));
      case Got(_) =>
        StreamSteps(events, BUFFER_SIZE - |buffer|);
        var (b, rest) := Take(events, BUFFER_SIZE - |buffer|);
        if b == [] {
          ServesNothing(buffer, rest, 0);
        } else {
          OneLine(buffer + b, rest);
          assert buffer + b + Stream(rest) == buffer + (b + Stream(rest));
        }
    }
  }

  lemma BufferedLine(buffer: seq<Byte>, more: seq<Byte>)
    requires FirstNewline(buffer) < |buffer|
    ensures var s, k := buffer + more, FirstNewline(buffer);
      FirstNewline(s) == k && s[..k] == buffer[..k] && s[k + 1..] == buffer[k + 1..] + more
  {
    hide FirstNewline;
    var s, k := buffer + more, FirstNewline(buffer);
    FrontOf(buffer, more, k);
    assert s[k] == buffer[k];
    forall j | 0 <= j < k ensures s[j] != NEWLINE {
      assert s[j] == buffer[j];
    }
    FirstIs(s, k);
  }

  lemma FrontOf(a: seq<Byte>, b: seq<Byte>, k: nat)
    requires k < |a|
    ensures (a + b)[..k] == a[..k] && (a + b)[k + 1..] == a[k + 1..] + b
  {
  }

  /** The state after a number of calls, with the lines they returned. */
  function Calls(buffer: seq<Byte>, events: seq<Event>, n: nat): (r: (seq<seq<Byte>>, seq<Byte>, seq<Event>))
    requires |buffer| <= BUFFER_SIZE
    ensures |r.1| <= BUFFER_SIZE
    decreases n
  {
    if n == 0 then ([], buffer, events)
    else
      var o := ReadLineOf(buffer, events, BUFFER_SIZE);
      OneLine(buffer, events);
      var (lines, b, e) := Calls(o.buffer, o.events, n - 1);
      ((if o.rc == 1 then [o.line] else []) + lines, b, e)
  }

  /** Whatever pieces the bytes arrive in, and however calls time out or fail in between,
      the lines returned by successive calls, followed by the lines of what is still
      buffered or to come, are the lines of the whole stream, and the rest is its rest.
      As long as every line fits the buffer no call gives up. */
  lemma {:induction false} CallsSplitTheStream(buffer: seq<Byte>, events: seq<Event>, n: nat)
    requires |buffer| <= BUFFER_SIZE
    ensures var (lines, b, e) := Calls(buffer, events, n);
      && Lines(buffer + Stream(events)) == lines + Lines(b + Stream(e))
      && Unfinished(buffer + Stream(events)) == Unfinished(b + Stream(e))
      && (LinesFit(buffer + Stream(events)) ==> LinesFit(b + Stream(e)) && ReadLineOf(b, e, BUFFER_SIZE).rc != -2)
    decreases n
  {
    hide ReadLineOf, FirstNewline, Stream, Lines, Unfinished, LinesFit, WithoutReturn;
    var s := buffer + Stream(events);
    OneLine(buffer, events);
    if n == 0 {
      if LinesFit(s) { FirstLineFits(s); }
      assert [] + Lines(s) == Lines(s);
    } else {
      var o := ReadLineOf(buffer, events, BUFFER_SIZE);
      CallsSplitTheStream(o.buffer, o.events, n - 1);
      if o.rc == 1 {
        FirstLineOff(s);
        var rest, left := Calls(o.buffer, o.events, n - 1).0, Lines(Calls(buffer, events, n).1 + Stream(Calls(buffer, events, n).2));
        assert [o.line] + (rest + left) == [o.line] + rest + left;
      }
    }
  }

  lemma FirstLineFits(s: seq<Byte>)
    requires LinesFit(s)
    ensures FirstNewline(s) < BUFFER_SIZE
  {
  }

  /** Taking the first line off. */
  lemma FirstLineOff(s: seq<Byte>)
    requires FirstNewline(s) < |s|
    ensures var i := FirstNewline(s);
      && Lines(s) == [WithoutReturn(s[..i])] + Lines(s[i + 1..])
      && Unfinished(s) == Unfinished(s[i + 1..])
      && (LinesFit(s) ==> LinesFit(s[i + 1..]))
  {
  }

  /** Without timeouts and errors every line of a stream whose lines fit is returned. */
  lemma {:induction false} EveryLineArrives(buffer: seq<Byte>, events: seq<Event>)
    requires |buffer| <= BUFFER_SIZE && LinesFit(buffer + Stream(events)) && Flowing(events)
    ensures var n := |Lines(buffer + Stream(events))|;
      Calls(buffer, events, n).0 == Lines(buffer + Stream(events))
    decreases |buffer + Stream(events)|
  {
    hide ReadLineOf, FirstNewline, Stream, Flowing;
    var s := buffer + Stream(events);
    if FirstNewline(s) < |s| {
      NextLineArrives(buffer, events);
      OneLine(buffer, events);
      var o := ReadLineOf(buffer, events, BUFFER_SIZE);
      EveryLineArrives(o.buffer, o.events);
    }
  }

  /** Bytes arrive, with interruptions, but without timeouts and errors. */
  ghost predicate Flowing(events: seq<Event>) {
    forall i :: 0 <= i < |events| ==> (events[i].Got? && events[i].bytes != []) || events[i].Interrupted? || events[i].Retry?
  }

  lemma TakeFlows(events: seq<Event>, space: nat)
    requires events != [] && Flowing(events)
    ensures Flowing(events[1..])
    ensures events[0].Got? ==> Flowing(Take(events, space).1)
  {
  }

  /** A line that has its terminator somewhere in the stream is returned by one call. */
  lemma {:induction false} NextLineArrives(buffer: seq<Byte>, events: seq<Event>)
    requires |buffer| <= BUFFER_SIZE && Flowing(events)
    requires var s := buffer + Stream(events); FirstNewline(s) < |s| && FirstNewline(s) < BUFFER_SIZE
    ensures var o := ReadLineOf(buffer, events, BUFFER_SIZE); o.rc == 1 && Flowing(o.events)
    decreases |Stream(events)| + |events|
  {
    hide Take, FirstNewline, Stream, Flowing;
    var s := buffer + Stream(events);
    if FirstNewline(buffer) == |buffer| {
      FullBuffer(buffer, Stream(events));
      NoEvents();
      TakeFlows(events, BUFFER_SIZE - |buffer|);
      StreamSteps(events, BUFFER_SIZE - |buffer|);
      HeadFlows(events);
      if events[0].Got? {
        var (b, rest) := Take(events, BUFFER_SIZE - |buffer|);
        assert buffer + b + Stream(rest) == s;
        NextLineArrives(buffer + b, rest);
      } else {
        NextLineArrives(buffer, events[1..]);
      }
    }
  }

  /** While bytes flow and there are enough to fill the buffer, a call gives up with -2
      exactly when the first line with its terminator does not fit. */
  lemma {:induction false} GivesUpExactly(buffer: seq<Byte>, events: seq<Event>)
    requires |buffer| <= BUFFER_SIZE && Flowing(events) && |buffer + Stream(events)| >= 65536
    ensures ReadLineOf(buffer, events, BUFFER_SIZE).rc == -2 <==> FirstNewline(buffer + Stream(events)) >= 65536
    decreases |Stream(events)| + |events|
  {
    hide Take, FirstNewline, Stream, Flowing;
    var s := buffer + Stream(events);
    OneLine(buffer, events);
    if FirstNewline(s) >= BUFFER_SIZE {
      LineIsLonger(buffer, Stream(events));
      if |buffer| < BUFFER_SIZE {
        NoEvents();
        TakeFlows(events, BUFFER_SIZE - |buffer|);
        StreamSteps(events, BUFFER_SIZE - |buffer|);
        HeadFlows(events);
        if events[0].Got? {
          var (b, rest) := Take(events, BUFFER_SIZE - |buffer|);
          assert buffer + b + Stream(rest) == s;
          GivesUpExactly(buffer + b, rest);
        } else {
          GivesUpExactly(buffer, events[1..]);
        }
      }
    }
  }

  lemma LineIsLonger(buffer: seq<Byte>, more: seq<Byte>)
    requires |buffer| <= FirstNewline(buffer + more)
    ensures FirstNewline(buffer) == |buffer|
  {
    assert forall j :: 0 <= j < |buffer| ==> buffer[j] == (buffer + more)[j] != NEWLINE;
    FirstIs(buffer, |buffer|);
  }

  lemma HeadFlows(events: seq<Event>)
    requires events != [] && Flowing(events)
    ensures (events[0].Got? && events[0].bytes != []) || events[0].Interrupted? || events[0].Retry?
  {
  }

  lemma NoEvents()
    ensures Stream([]) == []
  {
  }

  lemma FullBuffer(buffer: seq<Byte>, more: seq<Byte>)
    requires FirstNewline(buffer) == |buffer|
    ensures |buffer| <= FirstNewline(buffer + more)
  {
    assert forall j :: 0 <= j < |buffer| ==> (buffer + more)[j] == buffer[j] != NEWLINE;
  }
}
