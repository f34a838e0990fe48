/** The portable compressor of src/sha256d.c. */
module FastC {
  import opened Words
  import opened Fips180

  function StateOf(s: seq<Word>): State
    requires |s| == 8
  {
    State(s[0], s[1], s[2], s[3], s[4], s[5], s[6], s[7])
  }

  /** sha256_compress_words: expands w in place, then updates the hash in state. */
  method CompressWords(state: array<Word>, w: array<Word>)
    requires state.Length == 8 && w.Length == 64 && state != w
    modifies state, w
    ensures StateOf(state[..]) == Compress(StateOf(old(state[..])), old(w[..16]))
  {
    hide BigSigma0, BigSigma1, SmallSigma0, SmallSigma1, Ch, Maj, Add, Schedule, K;
    ghost var m: Block := w[..16];
    ghost var start := StateOf(state[..]);
    ExpandSchedule(w);

    var a, b, c, d := state[0], state[1], state[2], state[3];
    var e, f, g, h := state[4], state[5], state[6], state[7];
    for i := 0 to 64
      invariant State(a, b, c, d, e, f, g, h) == Rounds(start, m, i)
      invariant StateOf(state[..]) == start
      invariant forall j :: 0 <= j < 64 ==> w[j] == Schedule(m, j)
    {
      var s1 := BigSigma1(e);
      var ch := Ch(e, f, g);
      var temp1 := Add(Add(Add(Add(h, s1), ch), K(i)), w[i]);
      var s0 := BigSigma0(a);
      var maj := Maj(a, b, c);
      var temp2 := Add(s0, maj);
      h := g;
      g := f;
      f := e;
      e := Add(d, temp1);
      d := c;
      c := b;
      b := a;
      a := Add(temp1, temp2);
    }
    state[0] := Add(state[0], a);
    state[1] := Add(state[1], b);
    state[2] := Add(state[2], c);
    state[3] := Add(state[3], d);
    state[4] := Add(state[4], e);
    state[5] := Add(state[5], f);
    state[6] := Add(state[6], g);
    state[7] := Add(state[7], h);
  }

  /** The first loop of sha256_compress_words. */
  method ExpandSchedule(w: array<Word>)
    requires w.Length == 64
    modifies w
    ensures forall t :: 0 <= t < 64 ==> w[t] == Schedule(old(w[..16]), t)
  {
    hide SmallSigma0, SmallSigma1, Add;
    ghost var m: Block := w[..16];
    for i := 16 to 64
      invariant forall t :: 0 <= t < i ==> w[t] == Schedule(m, t)
    {
      var s0 := SmallSigma0(w[i - 15]);
      var s1 := SmallSigma1(w[i - 2]);
      ScheduleReordered(m, i);
      w[i] := Add(Add(Add(w[i - 16], s0), w[i - 7]), s1);
    }
  }
}
