/** The compact OpenCL compressors of src/opencl_miner.c: a 64-round loop that
    keeps only sixteen schedule words, for one lane and for two (uint2). */
module Ring {
  import opened Words
  import opened Fips180
  import opened FastC

  /** compress. */
  method Compress16(st: array<Word>, w: array<Word>)
    requires st.Length == 8 && w.Length == 16 && st != w
    modifies st, w
    ensures StateOf(st[..]) == Compress(StateOf(old(st[..])), old(w[..]))
    ensures Window(old(w[..]), w[..], 64)
  {
    hide BigSigma0, BigSigma1, SmallSigma0, SmallSigma1, Ch, Maj, Add, Schedule, K, Window;
    ghost var m: Block := w[..];
    ghost var start := StateOf(st[..]);
    FirstWindow(m);

    var a, b, c, d := st[0], st[1], st[2], st[3];
    var e, f, g, h := st[4], st[5], st[6], st[7];
    for i := 0 to 64
      invariant State(a, b, c, d, e, f, g, h) == Rounds(start, m, i)
      invariant StateOf(st[..]) == start
      invariant Window(m, w[..], if i < 16 then 16 else i)
    {
      var wi;
      if i < 16 {
        wi := w[i];
        FirstWord(m, w[..], i);
      } else {
        var j := i % 16;
        WindowReads(m, w[..], i);
        wi := Add(Add(Add(w[j], SmallSigma1(w[(j + 14) % 16])), w[(j + 9) % 16]), SmallSigma0(w[(j + 1) % 16]));
        WindowSlides(m, w[..], i, wi);
        w[j] := wi;
      }
      var t1 := Add(Add(Add(Add(h, BigSigma1(e)), Ch(e, f, g)), K(i)), wi);
      var t2 := Add(BigSigma0(a), Maj(a, b, c));
      h := g;
      g := f;
      f := e;
      e := Add(d, t1);
      d := c;
      c := b;
      b := a;
      a := Add(t1, t2);
    }
    st[0] := Add(st[0], a);
    st[1] := Add(st[1], b);
    st[2] := Add(st[2], c);
    st[3] := Add(st[3], d);
    st[4] := Add(st[4], e);
    st[5] := Add(st[5], f);
    st[6] := Add(st[6], g);
    st[7] := Add(st[7], h);
  }

  /** The sixteen slots hold schedule words i-16 .. i-1, word t in slot t mod 16. */
  ghost predicate Window(m: Block, w: seq<Word>, i: nat)
    requires |w| == 16 <= i
  {
    forall t :: i - 16 <= t < i ==> w[t % 16] == Schedule(m, t)
  }

  lemma FirstWindow(m: Block)
    ensures Window(m, m, 16)
  {
    forall t | 0 <= t < 16
      ensures m[t % 16] == Schedule(m, t)
    {
      assert t % 16 == t;
    }
  }

  lemma FirstWord(m: Block, w: seq<Word>, i: nat)
    requires |w| == 16 && i < 16 && Window(m, w, 16)
    ensures w[i] == Schedule(m, i)
  {
    hide Schedule;
    assert w[i % 16] == Schedule(m, i);
  }

  /** What the three masked reads of round i find, and what their sum is. */
  lemma WindowReads(m: Block, w: seq<Word>, i: nat)
    requires |w| == 16 <= i && Window(m, w, i)
    ensures var j := i % 16;
            Add(Add(Add(w[j], SmallSigma1(w[(j + 14) % 16])), w[(j + 9) % 16]), SmallSigma0(w[(j + 1) % 16])) == Schedule(m, i)
  {
    hide SmallSigma0, SmallSigma1, Add, Schedule, Window;
    SlotHolds(m, w, i, 0);
    SlotHolds(m, w, i, 1);
    SlotHolds(m, w, i, 9);
    SlotHolds(m, w, i, 14);
    ScheduleRotated(m, i);
  }

  lemma SlotHolds(m: Block, w: seq<Word>, i: nat, k: nat)
    requires |w| == 16 <= i && Window(m, w, i) && k < 16
    ensures w[(i % 16 + k) % 16] == Schedule(m, i - 16 + k)
    ensures k == 0 ==> w[i % 16] == Schedule(m, i - 16)
  {
    hide Schedule;
    SlotOf(i, k);
    assert w[(i - 16 + k) % 16] == Schedule(m, i - 16 + k);
  }

  lemma SlotOf(i: nat, k: nat)
    requires i >= 16 && k < 16
    ensures (i - 16 + k) % 16 == (i % 16 + k) % 16
  {
  }

  lemma ScheduleRotated(m: Block, t: nat)
    requires t >= 16
    ensures Schedule(m, t)
         == Add(Add(Add(Schedule(m, t - 16), SmallSigma1(Schedule(m, t - 2))), Schedule(m, t - 7)), SmallSigma0(Schedule(m, t - 15)))
  {
    hide SmallSigma0, SmallSigma1, Add;
    var w, x, y, z := SmallSigma1(Schedule(m, t - 2)), Schedule(m, t - 7), SmallSigma0(Schedule(m, t - 15)), Schedule(m, t - 16);
    AddComm(Add(Add(w, x), y), z);
    AddAssoc(z, Add(w, x), y);
    AddAssoc(z, w, x);
  }

  lemma WindowSlides(m: Block, w: seq<Word>, i: nat, wi: Word)
    requires |w| == 16 <= i && Window(m, w, i) && wi == Schedule(m, i)
    ensures Window(m, w[i % 16 := wi], i + 1)
  {
    hide Schedule;
    forall t | i - 15 <= t < i + 1
      ensures w[i % 16 := wi][t % 16] == Schedule(m, t)
    {
      if t < i {
        SlotsDiffer(t, i);
      }
    }
  }

  lemma SlotsDiffer(t: nat, i: nat)
    requires t < i < t + 16
    ensures t % 16 != i % 16
  {
  }

  // uint2: the operators of the kernel act on both components.

  function AddV(x: Pair, y: Pair): Pair { Pair(Add(x.s0, y.s0), Add(x.s1, y.s1)) }

  function SS0V(x: Pair): Pair { Pair(SmallSigma0(x.s0), SmallSigma0(x.s1)) }

  function SS1V(x: Pair): Pair { Pair(SmallSigma1(x.s0), SmallSigma1(x.s1)) }

  function BS0V(x: Pair): Pair { Pair(BigSigma0(x.s0), BigSigma0(x.s1)) }

  function BS1V(x: Pair): Pair { Pair(BigSigma1(x.s0), BigSigma1(x.s1)) }

  function ChV(x: Pair, y: Pair, z: Pair): Pair { Pair(Ch(x.s0, y.s0, z.s0), Ch(x.s1, y.s1, z.s1)) }

  function MajV(x: Pair, y: Pair, z: Pair): Pair { Pair(Maj(x.s0, y.s0, z.s0), Maj(x.s1, y.s1, z.s1)) }

  function First(v: seq<Pair>): (r: seq<Word>)
    ensures |r| == |v| && forall i :: 0 <= i < |v| ==> r[i] == v[i].s0
  {
    seq(|v|, i requires 0 <= i < |v| => v[i].s0)
  }

  function Second(v: seq<Pair>): (r: seq<Word>)
    ensures |r| == |v| && forall i :: 0 <= i < |v| ==> r[i] == v[i].s1
  {
    seq(|v|, i requires 0 <= i < |v| => v[i].s1)
  }

  /** compress_vec2: each component is compressed as if it were alone. */
  method CompressVec2(st: array<Pair>, w: array<Pair>)
    requires st.Length == 8 && w.Length == 16 && st != w
    modifies st, w
    ensures StateOf(First(st[..])) == Compress(StateOf(old(First(st[..]))), old(First(w[..])))
    ensures StateOf(Second(st[..])) == Compress(StateOf(old(Second(st[..]))), old(Second(w[..])))
  {
    hide BigSigma0, BigSigma1, SmallSigma0, SmallSigma1, Ch, Maj, Add, Schedule, K, Window;
    ghost var m0: Block, m1: Block := First(w[..]), Second(w[..]);
    ghost var start0 := State(st[0].s0, st[1].s0, st[2].s0, st[3].s0, st[4].s0, st[5].s0, st[6].s0, st[7].s0);
    ghost var start1 := State(st[0].s1, st[1].s1, st[2].s1, st[3].s1, st[4].s1, st[5].s1, st[6].s1, st[7].s1);
    FirstWindow(m0);
    FirstWindow(m1);

    var a, b, c, d := st[0], st[1], st[2], st[3];
    var e, f, g, h := st[4], st[5], st[6], st[7];
    for i := 0 to 64
      invariant State(a.s0, b.s0, c.s0, d.s0, e.s0, f.s0, g.s0, h.s0) == Rounds(start0, m0, i)
      invariant State(a.s1, b.s1, c.s1, d.s1, e.s1, f.s1, g.s1, h.s1) == Rounds(start1, m1, i)
      invariant st[..] == old(st[..])
      invariant Window(m0, First(w[..]), if i < 16 then 16 else i)
      invariant Window(m1, Second(w[..]), if i < 16 then 16 else i)
    {
      var wi := VectorWord(m0, m1, i, w);
      var t1 := AddV(AddV(AddV(AddV(h, BS1V(e)), ChV(e, f, g)), Pair(K(i), K(i))), wi);
      var t2 := AddV(BS0V(a), MajV(a, b, c));
      h := g;
      g := f;
      f := e;
      e := AddV(d, t1);
      d := c;
      c := b;
      b := a;
      a := AddV(t1, t2);
    }
    st[0] := AddV(st[0], a);
    st[1] := AddV(st[1], b);
    st[2] := AddV(st[2], c);
    st[3] := AddV(st[3], d);
    st[4] := AddV(st[4], e);
    st[5] := AddV(st[5], f);
    st[6] := AddV(st[6], g);
    st[7] := AddV(st[7], h);
  }

  /** The first half of the loop body: fetch or extend the schedule. */
  method VectorWord(ghost m0: Block, ghost m1: Block, i: nat, w: array<Pair>) returns (wi: Pair)
    requires w.Length == 16 && i < 64
    requires Window(m0, First(w[..]), if i < 16 then 16 else i)
    requires Window(m1, Second(w[..]), if i < 16 then 16 else i)
    modifies w
    ensures wi == Pair(Schedule(m0, i), Schedule(m1, i))
    ensures Window(m0, First(w[..]), if i < 15 then 16 else i + 1)
    ensures Window(m1, Second(w[..]), if i < 15 then 16 else i + 1)
  {
    hide SmallSigma0, SmallSigma1, Add, Schedule, Window;
    ghost var first, second := First(w[..]), Second(w[..]);
    if i < 16 {
      wi := w[i];
      FirstWord(m0, first, i);
      FirstWord(m1, second, i);
    } else {
      var j := i % 16;
      WindowReads(m0, first, i);
      WindowReads(m1, second, i);
      wi := AddV(AddV(AddV(w[j], SS1V(w[(j + 14) % 16])), w[(j + 9) % 16]), SS0V(w[(j + 1) % 16]));
      WindowSlides(m0, first, i, wi.s0);
      WindowSlides(m1, second, i, wi.s1);
      w[j] := wi;
      assert First(w[..]) == first[j := wi.s0];
      assert Second(w[..]) == second[j := wi.s1];
    }
  }
}
