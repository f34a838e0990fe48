/** A GPU scan as a whole: matches of all work items in any order, collected through an
    atomic counter into a bounded buffer, against the scan of the processor. */
module GpuScan {
  import opened Words
  import opened Fips180
  import opened FipsHash
  import opened Backends
  import opened Launch
  import Scan

  /** The matches of the offsets in the order they are tried. */
  function HitsOf(fast: State, tail: seq<Word>, target: seq<Word>, start: Word, order: seq<Word>): seq<Scan.Match>
    requires |tail| == 4
  {
    if order == [] then []
    else
      var n := |order| - 1;
      HitsOf(fast, tail, target, start, order[..n])
      + Scan.MatchAt(fast, tail, target, Scan.NonceAt(start, order[n]))
  }

  /** result_count and matches on the device, and how the host reads them. */
  class ResultBuffer {
    const maxResults: nat
    const matches: array<Word>
    var resultCount: Word

    constructor (max: nat)
      requires 9 * max <= 0x1_0000_0000
      ensures Valid() && fresh(matches) && maxResults == max && resultCount == 0 && Entries() == []
    {
      maxResults := max;
      matches := new Word[9 * max](_ => 0);
      resultCount := 0;
    }

    ghost predicate Valid() {
      matches.Length == 9 * maxResults <= 0x1_0000_0000
    }

    ghost function Stored(): nat
      reads this
    {
      Least(resultCount, maxResults)
    }

    ghost function EntryAt(i: nat): Scan.Match
      requires Valid() && i < maxResults
      reads matches
    {
      var b := 9 * i;
      Scan.Match(matches[b], State(matches[b + 1], matches[b + 2], matches[b + 3], matches[b + 4],
        matches[b + 5], matches[b + 6], matches[b + 7], matches[b + 8]))
    }

    /** The first i entries. */
    ghost function Prefix(i: nat): (s: seq<Scan.Match>)
      requires Valid() && i <= maxResults
      reads matches
      ensures |s| == i && forall j :: 0 <= j < i ==> s[j] == EntryAt(j)
    {
      if i == 0 then [] else Prefix(i - 1) + [EntryAt(i - 1)]
    }

    ghost function Entries(): seq<Scan.Match>
      requires Valid()
      reads this, matches
    {
      Prefix(Stored())
    }

    /** store_match_words: every match gets a slot of its own from the counter, and those
        past the end are counted but not kept. */
    method Store(nonce: Word, h: State)
      requires Valid() && resultCount < 0xFFFF_FFFF
      modifies this, matches
      ensures Valid() && resultCount == old(resultCount) + 1
      ensures Entries() == if old(resultCount) < maxResults then old(Entries()) + [Scan.Match(nonce, h)] else old(Entries())
    {
      var idx := resultCount;
      resultCount := Add(resultCount, 1);
      if idx < maxResults {
        ghost var was := matches[..9 * idx];
        WriteEntry(idx, nonce, h);
        forall j | 0 <= j < idx ensures EntryAt(j) == old(Prefix(idx))[j] {
          assert forall q :: 0 <= q < 9 * idx ==> matches[q] == was[q];
        }
        assert Prefix(idx) == old(Prefix(idx));
      }
    }

    method WriteEntry(idx: Word, nonce: Word, h: State)
      requires Valid() && idx < maxResults
      modifies matches
      ensures EntryAt(idx) == Scan.Match(nonce, h)
      ensures matches[..9 * idx] == old(matches[..9 * idx])
    {
      hide Mul;
      MulFits(idx, 9);
      var base := Mul(idx, 9);
      matches[base] := nonce;
      matches[base + 1] := h.a;
      matches[base + 2] := h.b;
      matches[base + 3] := h.c;
      matches[base + 4] := h.d;
      matches[base + 5] := h.e;
      matches[base + 6] := h.f;
      matches[base + 7] := h.g;
      matches[base + 8] := h.h;
    }

    /** The host calls on_match for every stored entry. */
    method Collect() returns (trace: seq<Scan.Match>)
      requires Valid()
      ensures trace == Entries()
    {
      trace := [];
      var stored := if resultCount > maxResults then maxResults else resultCount;
      for i := 0 to stored
        invariant trace == Prefix(i)
      {
        var b := i * 9;
        trace := trace + [Scan.Match(matches[b], State(matches[b + 1], matches[b + 2], matches[b + 3], matches[b + 4],
          matches[b + 5], matches[b + 6], matches[b + 7], matches[b + 8]))];
      }
    }
  }

  /** The hashing forms of the kernels: compact ring, unrolled with or without lop3, two
      nonces at a time, and two vector lanes. */
  datatype Form = Compact | Unrolled(lop3: bool) | Dual | Vector

  /** The buffer holds what it can of the hits so far, and has counted them all. */
  ghost predicate Collected(buffer: ResultBuffer, hits: seq<Scan.Match>, maxResults: nat)
    reads buffer, buffer.matches
  {
    && buffer.Valid() && buffer.maxResults == maxResults && buffer.resultCount == |hits|
    && buffer.Entries() == hits[..Least(|hits|, maxResults)]
  }

  /** The comparison and the store at the end of the scan functions. */
  method Try(buffer: ResultBuffer, ghost hits: seq<Scan.Match>, nonce: Word, hash: State, target: seq<Word>)
      returns (ghost more: seq<Scan.Match>)
    requires Collected(buffer, hits, buffer.maxResults) && |hits| < 0xFFFF_FFFF && |target| == 8
    modifies buffer, buffer.matches
    ensures more == hits + if Scan.Meets(hash, target) then [Scan.Match(nonce, hash)] else []
    ensures Collected(buffer, more, buffer.maxResults)
  {
    hide Scan.Meets;
    more := hits;
    var meets := Scan.HashWordsMeetTarget(hash, target);
    if meets {
      buffer.Store(nonce, hash);
      TakeMore(hits, Scan.Match(nonce, hash), buffer.maxResults);
      more := hits + [Scan.Match(nonce, hash)];
    } else {
      assert hits + [] == hits;
    }
  }

  method HashOne(form: Form, mid: Midstate, tail: seq<Word>, nonce: Word) returns (hash: State)
    requires |tail| == 4
    ensures hash == DoubleHash(mid.fastState, tail[0], tail[1], tail[2], Bswap(nonce))
  {
    hide DoubleHash, Bswap;
    match form
    case Compact => hash := HashCompactKernel(mid, tail[0], tail[1], tail[2], nonce);
    case Unrolled(lop3) => hash := HashUnrolledKernel(lop3, mid, tail[0], tail[1], tail[2], nonce);
    case Dual => hash := HashUnrolledKernel(false, mid, tail[0], tail[1], tail[2], nonce);
    case Vector =>
      var other;
      hash, other := HashVectorKernel(mid, tail[0], tail[1], tail[2], nonce);
  }

  /** Two nonces together; the vector form needs them to be neighbours. */
  method HashTwo(form: Form, mid: Midstate, tail: seq<Word>, nonce0: Word, nonce1: Word) returns (hash0: State, hash1: State)
    requires |tail| == 4 && (form.Dual? || (form.Vector? && nonce1 == Add(nonce0, 1)))
    ensures hash0 == DoubleHash(mid.fastState, tail[0], tail[1], tail[2], Bswap(nonce0))
    ensures hash1 == DoubleHash(mid.fastState, tail[0], tail[1], tail[2], Bswap(nonce1))
  {
    hide DoubleHash, Bswap, Add;
    if form.Dual? {
      hash0, hash1 := HashDualKernel(mid, tail[0], tail[1], tail[2], nonce0, nonce1);
    } else {
      hash0, hash1 := HashVectorKernel(mid, tail[0], tail[1], tail[2], nonce0);
    }
  }

  /** One launch with the offsets tried in a given order. The callbacks are the matches in
      the order of the counter, up to the capacity of the buffer. */
  method RunLaunch(form: Form, mid: Midstate, tail: seq<Word>, target: seq<Word>, start: Word, order: seq<Word>, maxResults: nat)
      returns (trace: seq<Scan.Match>)
    requires |tail| == 4 && |target| == 8 && |order| < 0x1_0000_0000 && 9 * maxResults <= 0x1_0000_0000
    ensures var hits := HitsOf(mid.fastState, tail, target, start, order);
      trace == hits[..Least(|hits|, maxResults)]
  {
    hide DoubleHash, Bswap, Scan.Meets, StateWords, HitsOf, Add, Collected;
    var buffer := new ResultBuffer(maxResults);
    ghost var hits: seq<Scan.Match> := [];
    NoneCollected(buffer);
    NoHits(mid.fastState, tail, target, start);
    var i := 0;
    while i < |order|
      invariant 0 <= i <= |order| && fresh(buffer) && fresh(buffer.matches)
      invariant buffer.maxResults == maxResults && Collected(buffer, hits, maxResults)
      invariant hits == HitsOf(mid.fastState, tail, target, start, order[..i]) && |hits| <= i
    {
      var nonce := Add(start, order[i]);
      if i + 1 < |order| && (form.Dual? || (form.Vector? && order[i + 1] == Add(order[i], 1))) {
        var nonce1 := Add(start, order[i + 1]);
        AddAssoc(start, order[i], 1);
        var hash, hash1 := HashTwo(form, mid, tail, nonce, nonce1);
        NextHit(mid.fastState, tail, target, start, order, i, hash);
        NextHit(mid.fastState, tail, target, start, order, i + 1, hash1);
        hits := Try(buffer, hits, nonce, hash, target);
        hits := Try(buffer, hits, nonce1, hash1, target);
        i := i + 2;
      } else {
        var hash := HashOne(form, mid, tail, nonce);
        NextHit(mid.fastState, tail, target, start, order, i, hash);
        hits := Try(buffer, hits, nonce, hash, target);
        i := i + 1;
      }
    }
    assert order[..|order|] == order;
    AllCollected(buffer, hits, maxResults);
    trace := buffer.Collect();
  }

  lemma NoneCollected(buffer: ResultBuffer)
    requires buffer.Valid() && buffer.resultCount == 0 && buffer.Entries() == []
    ensures Collected(buffer, [], buffer.maxResults)
  {
  }

  lemma AllCollected(buffer: ResultBuffer, hits: seq<Scan.Match>, maxResults: nat)
    requires Collected(buffer, hits, maxResults)
    ensures buffer.Valid() && buffer.Entries() == hits[..Least(|hits|, maxResults)]
  {
  }

  lemma NextHit(fast: State, tail: seq<Word>, target: seq<Word>, start: Word, order: seq<Word>, i: nat, hash: State)
    requires |tail| == 4 && i < |order|
    requires hash == DoubleHash(fast, tail[0], tail[1], tail[2], Bswap(Add(start, order[i])))
    ensures HitsOf(fast, tail, target, start, order[..i + 1]) == HitsOf(fast, tail, target, start, order[..i])
      + if Scan.Meets(hash, target) then [Scan.Match(Add(start, order[i]), hash)] else []
  {
    hide Scan.Meets, DoubleHash, Bswap;
    assert order[..i + 1][..i] == order[..i];
  }

  lemma NoHits(fast: State, tail: seq<Word>, target: seq<Word>, start: Word)
    requires |tail| == 4
    ensures HitsOf(fast, tail, target, start, []) == []
  {
  }

  lemma TakeMore(hits: seq<Scan.Match>, m: Scan.Match, max: nat)
    ensures (hits + [m])[..Least(|hits| + 1, max)] ==
      if |hits| < max then hits[..Least(|hits|, max)] + [m] else hits[..Least(|hits|, max)]
  {
  }

  lemma {:induction false} HitsJoin(fast: State, tail: seq<Word>, target: seq<Word>, start: Word, a: seq<Word>, b: seq<Word>)
    requires |tail| == 4
    ensures HitsOf(fast, tail, target, start, a + b) ==
      HitsOf(fast, tail, target, start, a) + HitsOf(fast, tail, target, start, b)
    decreases |b|
  {
    hide Scan.MatchAt;
    if b == [] {
      assert a + b == a;
    } else {
      var n := |b| - 1;
      assert (a + b)[..|a + b| - 1] == a + b[..n];
      HitsJoin(fast, tail, target, start, a, b[..n]);
    }
  }

  lemma RemoveOne(a: seq<Word>, b: seq<Word>, c: seq<Word>, x: Word)
    requires multiset(a + [x]) == multiset(b + [x] + c)
    ensures multiset(a) == multiset(b + c)
  {
    assert multiset(a) == multiset(a + [x]) - multiset{x};
    assert multiset(b + c) == multiset(b + [x] + c) - multiset{x};
  }

  /** The order of the work items does not matter for which matches there are. */
  lemma {:induction false} HitsPermute(fast: State, tail: seq<Word>, target: seq<Word>, start: Word, s: seq<Word>, t: seq<Word>)
    requires |tail| == 4 && multiset(s) == multiset(t)
    ensures multiset(HitsOf(fast, tail, target, start, s)) == multiset(HitsOf(fast, tail, target, start, t))
    decreases |s|
  {
    hide HitsOf;
    if s == [] {
      assert |multiset(t)| == 0;
      assert t == [];
    } else {
      var n := |s| - 1;
      var x := s[n];
      assert s == s[..n] + [x];
      assert x in multiset(t);
      var j :| 0 <= j < |t| && t[j] == x;
      var rest := t[..j] + t[j + 1..];
      assert t == t[..j] + [x] + t[j + 1..];
      RemoveOne(s[..n], t[..j], t[j + 1..], x);
      HitsPermute(fast, tail, target, start, s[..n], rest);
      HitsJoin(fast, tail, target, start, s[..n], [x]);
      HitsJoin(fast, tail, target, start, t[..j], t[j + 1..]);
      HitsJoin(fast, tail, target, start, t[..j], [x]);
      HitsJoin(fast, tail, target, start, t[..j] + [x], t[j + 1..]);
    }
  }

  lemma {:induction false} HitsInOrder(fast: State, tail: seq<Word>, target: seq<Word>, start: Word, count: Word)
    requires |tail| == 4
    ensures HitsOf(fast, tail, target, start, Span(0, count)) == Scan.Matches(fast, tail, target, start, count)
  {
    hide Scan.MatchAt, Scan.NonceAt, Span, Add;
    NoItems();
    if count > 0 {
      HitsInOrder(fast, tail, target, start, count - 1);
      NextItem(0, count - 1);
      FromZero(count - 1);
      assert Span(0, count)[..count - 1] == Span(0, count - 1);
    }
  }

  lemma FromZero(i: Word)
    ensures Add(0, i) == i
  {
  }

  /** An exact launch, with its work items interleaved in any order, reports the matches
      of the processor's scan: all of them, each once, if the buffer holds them, and
      otherwise as many of them as it holds. */
  lemma LaunchMatchesScan(k: Kernel, items: nat, n: Word, count: Word, fast: State, tail: seq<Word>,
      target: seq<Word>, start: Word, order: seq<Word>, max: nat)
    requires |tail| == 4
    requires ExactLaunch(k, items, n, count) && multiset(order) == multiset(AllOffsets(k, items, n, count))
    ensures var hits := HitsOf(fast, tail, target, start, order);
      var all := Scan.Matches(fast, tail, target, start, count);
      && |hits| == |all|
      && multiset(hits[..Least(|hits|, max)]) <= multiset(all)
      && (|all| <= max ==> multiset(hits[..Least(|hits|, max)]) == multiset(all))
  {
    hide HitsOf, Scan.Matches, AllOffsets, Span;
    HitsPermute(fast, tail, target, start, order, Span(0, count));
    HitsInOrder(fast, tail, target, start, count);
    var hits := HitsOf(fast, tail, target, start, order);
    assert |hits| == |multiset(hits)|;
    assert |Scan.Matches(fast, tail, target, start, count)| == |multiset(hits)|;
    var m := Least(|hits|, max);
    assert hits == hits[..m] + hits[m..];
  }

  lemma SameLength(order: seq<Word>, offsets: seq<Word>)
    requires multiset(order) == multiset(offsets)
    ensures |order| == |offsets|
  {
    assert |multiset(order)| == |order|;
    assert |multiset(offsets)| == |offsets|;
  }

  /** A whole GPU scan of one job: preparation as in miner_set_job, then one exact
      launch with its work items interleaved in any order. The callbacks are winning
      nonces of the range, each once, with their FIPS 180-4 double hashes: all of them if
      the buffer holds them, otherwise as many as it holds. */
  method LaunchJob(form: Form, k: Kernel, items: nat, n: Word, header: seq<Byte>, target: seq<Byte>,
      start: Word, count: Word, order: seq<Word>, maxResults: nat) returns (trace: seq<Scan.Match>)
    requires |header| == 80 && |target| == 32 && start + count <= W && 9 * maxResults <= W
    requires ExactLaunch(k, items, n, count) && multiset(order) == multiset(AllOffsets(k, items, n, count))
    ensures Scan.SoundTrace(trace, header, target, start, count)
    ensures |trace| == Least(|Scan.Winners(header, target, start, count)|, maxResults)
    ensures |Scan.Winners(header, target, start, count)| <= maxResults ==>
      forall nonce: Word :: Scan.Tried(trace, nonce) <==> nonce in Scan.Winners(header, target, start, count)
  {
    hide HitsOf, Scan.Matches, Scan.ExactTrace, Scan.SoundTrace, Scan.Winners, Scan.TargetWords, Scan.TailWords;
    hide Compress, BlockAt, AllOffsets, Span;
    var mid := Prepare(header[..64]);
    Scan.SameFirstBlock(header);
    SameLength(order, AllOffsets(k, items, n, count));
    trace := RunLaunch(form, mid, Scan.TailWords(header), Scan.TargetWords(target), start, order, maxResults);
    LaunchMatchesScan(k, items, n, count, mid.fastState, Scan.TailWords(header), Scan.TargetWords(target), start,
      order, maxResults);
    ghost var owed := Scan.Matches(mid.fastState, Scan.TailWords(header), Scan.TargetWords(target), start, count);
    Scan.TraceExact(header, target, start, count);
    Scan.PartIsSound(trace, owed, header, target, start, count);
    Scan.ExactCount(owed, header, target, start, count);
    if |trace| == |Scan.Winners(header, target, start, count)| {
      Scan.SoundAndFull(trace, header, target, start, count);
    }
  }
}
