/** Numbers written as little-endian digit sequences, and their comparison. */
module Digits {
  /** The number whose digits in the given base are s, least significant first. */
  function Value(s: seq<int>, base: nat): int {
    if s == [] then 0 else s[0] + base * Value(s[1..], base)
  }

  ghost predicate AreDigits(s: seq<int>, base: nat) {
    forall i :: 0 <= i < |s| ==> 0 <= s[i] < base
  }

  lemma {:induction false} ValueNonnegative(s: seq<int>, base: nat)
    requires AreDigits(s, base)
    ensures Value(s, base) >= 0
  {
    if s != [] {
      ValueNonnegative(s[1..], base);
    }
  }

  /** The most significant digit that differs decides. */
  lemma {:induction false} CompareAt(s: seq<int>, t: seq<int>, base: nat, i: nat)
    requires |s| == |t| && i < |s| && AreDigits(s, base) && AreDigits(t, base)
    requires s[i] < t[i] && s[i + 1..] == t[i + 1..]
    ensures Value(s, base) < Value(t, base)
  {
    if i == 0 {
      assert Value(s[1..], base) == Value(t[1..], base);
    } else {
      assert s[1..][i..] == s[i + 1..] && t[1..][i..] == t[i + 1..];
      CompareAt(s[1..], t[1..], base, i - 1);
      CarryBound(s[0], t[0], Value(s[1..], base), Value(t[1..], base), base);
    }
  }

  lemma TopDigitDecides(s: seq<int>, t: seq<int>, base: nat, i: nat)
    requires |s| == |t| && i < |s| && AreDigits(s, base) && AreDigits(t, base)
    requires s[i] < t[i] && forall j :: i < j < |s| ==> s[j] == t[j]
    ensures Value(s, base) < Value(t, base)
  {
    assert s[i + 1..] == t[i + 1..];
    CompareAt(s, t, base, i);
  }

  lemma CarryBound(d: int, e: int, v: int, w: int, base: nat)
    requires 0 <= d < base && 0 <= e && v < w
    ensures d + base * v < e + base * w
  {
    assert base * (v + 1) <= base * w;
    assert base * (v + 1) == base * v + base;
  }

  /** Equal numbers have equal digits, so the order below is total. */
  lemma ValueInjective(s: seq<int>, t: seq<int>, base: nat)
    requires |s| == |t| && AreDigits(s, base) && AreDigits(t, base)
    requires Value(s, base) == Value(t, base)
    ensures s == t
  {
    if s != t {
      var i := LastDifference(s, t);
      if s[i] < t[i] { CompareAt(s, t, base, i); } else { CompareAt(t, s, base, i); }
    }
  }

  lemma {:induction false} LastDifference(s: seq<int>, t: seq<int>) returns (i: nat)
    requires |s| == |t| && s != t
    ensures i < |s| && s[i] != t[i] && s[i + 1..] == t[i + 1..]
  {
    var n := |s| - 1;
    if s[n] != t[n] {
      i := n;
    } else {
      assert s == s[..n] + [s[n]] && t == t[..n] + [t[n]];
      i := LastDifference(s[..n], t[..n]);
      assert s[i + 1..] == s[..n][i + 1..] + [s[n]] && t[i + 1..] == t[..n][i + 1..] + [t[n]];
    }
  }
}
