/** extension_list_has of src/opencl_miner.c: membership in a list of names separated
    by spaces. */
module ExtensionList {
  import opened Options

  predicate OccursAt(s: string, needle: string, i: int) {
    0 <= i <= |s| - |needle| && s[i..i + |needle|] == needle
  }

  /** An occurrence with a space or an end of the list on either side. */
  predicate StandsAt(s: string, needle: string, i: int) {
    && OccursAt(s, needle, i)
    && (i == 0 || s[i - 1] == ' ')
    && (i + |needle| == |s| || s[i + |needle|] == ' ')
  }

  /** The first occurrence from a position on. */
  function FirstOccurrence(s: string, needle: string, from: nat): (at: Option<nat>)
    ensures at.Some? ==> from <= at.value && OccursAt(s, needle, at.value)
    decreases |s| - from
  {
    if from + |needle| > |s| then None
    else if OccursAt(s, needle, from) then Some(from)
    else if from == |s| then None
    else FirstOccurrence(s, needle, from + 1)
  }

  lemma {:induction false} FirstOccurrenceIs(s: string, needle: string, from: nat)
    ensures match FirstOccurrence(s, needle, from)
      case None => forall i :: i >= from ==> !OccursAt(s, needle, i)
      case Some(k) => OccursAt(s, needle, k) && forall i :: from <= i < k ==> !OccursAt(s, needle, i)
    decreases |s| - from
  {
    if from + |needle| <= |s| && !OccursAt(s, needle, from) && from < |s| {
      FirstOccurrenceIs(s, needle, from + 1);
    }
  }

  /** The search of the source, which skips a failed occurrence as a whole. */
  predicate SearchFrom(s: string, needle: string, p: nat)
    requires needle != ""
    decreases |s| - p
  {
    var at := FirstOccurrence(s, needle, p);
    at.Some? && (StandsAt(s, needle, at.value) || SearchFrom(s, needle, at.value + |needle|))
  }

  /** strstr from a position on. */
  method Find(s: string, needle: string, from: nat) returns (at: Option<nat>)
    requires from <= |s| && needle != ""
    ensures at == FirstOccurrence(s, needle, from)
  {
    var i := from;
    while i + |needle| <= |s|
      invariant from <= i && FirstOccurrence(s, needle, i) == FirstOccurrence(s, needle, from)
    {
      if s[i..i + |needle|] == needle {
        return Some(i);
      }
      i := i + 1;
    }
    return None;
  }

  /** Null pointers are None. */
  method ExtensionListHas(extensions: Option<string>, needle: Option<string>) returns (r: bool)
    ensures r <==>
      extensions.Some? && needle.Some? && needle.value != "" && SearchFrom(extensions.value, needle.value, 0)
  {
    hide FirstOccurrence;
    if extensions.None? || needle.None? || needle.value == "" {
      return false;
    }
    var s, n := extensions.value, needle.value;
    var p := 0;
    while true
      invariant 0 <= p <= |s| && SearchFrom(s, n, 0) == SearchFrom(s, n, p)
      decreases |s| - p
    {
      var at := Find(s, n, p);
      if at.None? {
        return false;
      }
      p := at.value;
      var leftOk := p == 0 || s[p - 1] == ' ';
      var rightOk := p + |n| == |s| || s[p + |n|] == ' ';
      if leftOk && rightOk {
        return true;
      }
      p := p + |n|;
    }
  }

  /** A hit is always a standing occurrence, whatever the needle. */
  lemma {:induction false} SearchSound(s: string, needle: string, p: nat)
    requires needle != "" && SearchFrom(s, needle, p)
    ensures exists i :: i >= p && StandsAt(s, needle, i)
    decreases |s| - p
  {
    hide StandsAt, FirstOccurrence;
    var at := FirstOccurrence(s, needle, p);
    FirstOccurrenceIs(s, needle, p);
    if !StandsAt(s, needle, at.value) {
      SearchSound(s, needle, at.value + |needle|);
    }
  }

  /** The needle overlaps itself after one of its spaces: a name could begin inside an
      occurrence of it. */
  ghost predicate OverlapsAt(needle: string, j: int) {
    0 < j < |needle| && needle[j - 1] == ' ' && needle[j..] == needle[..|needle| - j]
  }

  ghost predicate Overlaps(needle: string) {
    exists j :: OverlapsAt(needle, j)
  }

  lemma InsideOverlaps(s: string, needle: string, p: nat, i: nat)
    requires OccursAt(s, needle, p) && p < i < p + |needle| && StandsAt(s, needle, i)
    ensures Overlaps(needle)
  {
    var n, j := |needle|, i - p;
    assert needle[j - 1] == s[p..p + n][j - 1] == s[i - 1];
    assert needle == s[p..p + n] && needle == s[i..i + n];
    assert s[p..p + n][j..] == s[i..p + n];
    assert s[i..i + n][..n - j] == s[i..p + n];
    assert OverlapsAt(needle, j);
  }

  /** Without such an overlap no name begins inside an occurrence. */
  lemma NothingInside(s: string, needle: string, p: nat)
    requires needle != "" && OccursAt(s, needle, p) && !Overlaps(needle)
    ensures forall i :: p < i < p + |needle| ==> !StandsAt(s, needle, i)
  {
    hide OccursAt, StandsAt, Overlaps;
    forall i | p < i < p + |needle| ensures !StandsAt(s, needle, i) {
      if StandsAt(s, needle, i) {
        InsideOverlaps(s, needle, p, i);
      }
    }
  }

  /** For such a needle the skip misses nothing. */
  lemma {:induction false} SearchComplete(s: string, needle: string, p: nat, i: nat)
    requires needle != "" && !Overlaps(needle) && i >= p && StandsAt(s, needle, i)
    ensures SearchFrom(s, needle, p)
    decreases |s| - p
  {
    hide FirstOccurrence, Overlaps;
    var at := FirstOccurrence(s, needle, p);
    FirstOccurrenceIs(s, needle, p);
    assert OccursAt(s, needle, i);
    if !StandsAt(s, needle, at.value) {
      NothingInside(s, needle, at.value);
      SearchComplete(s, needle, at.value + |needle|, i);
    }
  }

  /** The search of a needle agrees with standing somewhere in the list. */
  ghost predicate Agrees(s: string, needle: string)
    requires needle != ""
  {
    SearchFrom(s, needle, 0) <==> exists i :: StandsAt(s, needle, i)
  }

  lemma AgreesWithoutOverlap(s: string, needle: string)
    requires needle != "" && !Overlaps(needle)
    ensures Agrees(s, needle)
  {
    hide StandsAt, SearchFrom, Overlaps;
    if SearchFrom(s, needle, 0) {
      SearchSound(s, needle, 0);
    }
    if exists i :: StandsAt(s, needle, i) {
      var i :| StandsAt(s, needle, i);
      StandsInside(s, needle, i);
      SearchComplete(s, needle, 0, i);
    }
  }

  /** A list the search gets wrong: a letter the needle does not begin with, the part of
      the needle before the overlap, and the needle. */
  function Overlapped(needle: string, j: nat): string
    requires j < |needle|
  {
    [if needle[0] == 'x' then 'y' else 'x'] + needle[..j] + needle
  }

  lemma OverlappedStands(needle: string, j: nat)
    requires OverlapsAt(needle, j)
    ensures StandsAt(Overlapped(needle, j), needle, j + 1)
  {
    var s := Overlapped(needle, j);
    assert s[j + 1..j + 1 + |needle|] == needle;
    assert s[j] == needle[..j][j - 1];
  }

  lemma OverlappedFirst(needle: string, j: nat)
    requires OverlapsAt(needle, j)
    ensures var s := Overlapped(needle, j);
      FirstOccurrence(s, needle, 0) == Some(1) && !StandsAt(s, needle, 1)
  {
    hide FirstOccurrence;
    var s, n := Overlapped(needle, j), |needle|;
    assert s[1..1 + n] == needle[..j] + needle[..n - j] == needle;
    assert !OccursAt(s, needle, 0) by {
      assert s[0..n][0] != needle[0];
    }
    assert OccursAt(s, needle, 1);
    FirstOccurrenceIs(s, needle, 0);
  }

  lemma OverlappedMissed(needle: string, j: nat)
    requires OverlapsAt(needle, j)
    ensures !SearchFrom(Overlapped(needle, j), needle, 0)
  {
    hide Overlapped, StandsAt;
    OverlappedFirst(needle, j);
    OverlappedLength(needle, j);
  }

  lemma OverlappedLength(needle: string, j: nat)
    requires j < |needle|
    ensures |Overlapped(needle, j)| == 1 + j + |needle|
  {
  }

  /** The exact condition: the search is right for every list if and only if the needle
      does not overlap itself after one of its spaces. */
  lemma SearchExact(needle: string)
    requires needle != ""
    ensures (forall s :: Agrees(s, needle)) <==> !Overlaps(needle)
  {
    hide Agrees;
    if Overlaps(needle) {
      var j: nat :| OverlapsAt(needle, j);
      OverlappedDisagrees(needle, j);
    } else {
      forall s ensures Agrees(s, needle) {
        AgreesWithoutOverlap(s, needle);
      }
    }
  }

  lemma OverlappedDisagrees(needle: string, j: nat)
    requires OverlapsAt(needle, j)
    ensures !Agrees(Overlapped(needle, j), needle)
  {
    hide StandsAt, SearchFrom, Overlapped;
    OverlappedStands(needle, j);
    OverlappedMissed(needle, j);
  }

  /** extension_list_has is true exactly for the names of the list, for every list and
      every name without spaces. */
  lemma SearchFindsNames(s: string, needle: string)
    requires needle != "" && ' ' !in needle
    ensures SearchFrom(s, needle, 0) <==> needle in Tokens(s)
  {
    hide StandsAt, SearchFrom, Tokens;
    TokensStand(s, needle);
    AgreesWithoutOverlap(s, needle);
  }

  lemma StandsInside(s: string, needle: string, i: int)
    requires StandsAt(s, needle, i)
    ensures i >= 0
  {
  }

  // ---- The names of a list ----

  function FirstSpace(s: string): (i: nat)
    ensures i <= |s| && (i < |s| ==> s[i] == ' ') && forall j :: 0 <= j < i ==> s[j] != ' '
  {
    if s == "" || s[0] == ' ' then 0 else 1 + FirstSpace(s[1..])
  }

  /** The list split at every space. */
  function Tokens(s: string): seq<string>
    decreases |s|
  {
    var i := FirstSpace(s);
    if i == |s| then [s] else [s[..i]] + Tokens(s[i + 1..])
  }

  /** A needle without spaces is one of the names exactly when it stands somewhere. */
  lemma {:induction false} TokensStand(s: string, needle: string)
    requires needle != "" && ' ' !in needle
    ensures needle in Tokens(s) <==> exists i :: StandsAt(s, needle, i)
    decreases |s|
  {
    hide FirstSpace, StandsAt;
    var k := FirstSpace(s);
    FirstStands(s, needle);
    assert s[..|s|] == s;
    if k < |s| {
      var rest := s[k + 1..];
      TokensStand(rest, needle);
      forall i ensures StandsAt(s, needle, i + k + 1) && i >= 0 <==> StandsAt(rest, needle, i) {
        ShiftStands(s, needle, k, i);
      }
      if exists i :: StandsAt(s, needle, i) {
        var i :| StandsAt(s, needle, i);
        EarlyStands(s, needle, i);
        if i > k {
          assert StandsAt(rest, needle, i - k - 1);
        }
      }
      if exists i :: StandsAt(rest, needle, i) {
        var i :| StandsAt(rest, needle, i);
        assert StandsAt(s, needle, i + k + 1);
      }
    } else if exists i :: StandsAt(s, needle, i) {
      var i :| StandsAt(s, needle, i);
      EarlyStands(s, needle, i);
    }
  }

  lemma FirstStands(s: string, needle: string)
    requires needle != "" && ' ' !in needle
    ensures StandsAt(s, needle, 0) <==> needle == s[..FirstSpace(s)]
  {
    var k := FirstSpace(s);
    if StandsAt(s, needle, 0) {
      assert forall j :: 0 <= j < |needle| ==> s[j] == s[0..|needle|][j] == needle[j];
      assert |needle| == k;
    }
  }

  /** A standing needle that begins before the first space begins at the start. */
  lemma EarlyStands(s: string, needle: string, i: int)
    requires needle != "" && ' ' !in needle && StandsAt(s, needle, i)
    ensures i == 0 || i > FirstSpace(s)
    ensures 0 <= i < |s|
  {
  }

  lemma ShiftStands(s: string, needle: string, k: nat, i: int)
    requires k < |s| && s[k] == ' ' && needle != ""
    ensures StandsAt(s, needle, i + k + 1) && i >= 0 <==> StandsAt(s[k + 1..], needle, i)
  {
    var rest := s[k + 1..];
    if 0 <= i <= |rest| - |needle| {
      assert s[i + k + 1..i + k + 1 + |needle|] == rest[i..i + |needle|];
    }
  }
}
