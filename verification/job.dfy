/** miner_build_job of src/miner.c: from the texts of a template to the block header. */
module Job {
  import opened Options
  import opened Words
  import opened FipsHash
  import opened Extranonce

  // ---- Hexadecimal texts ----

  /** hex_value. */
  function HexValue(c: char): int {
    if '0' <= c <= '9' then c as int - '0' as int
    else if 'a' <= c <= 'f' then c as int - 'a' as int + 10
    else if 'A' <= c <= 'F' then c as int - 'A' as int + 10
    else -1
  }

  /** Two digits, the high one first. */
  function PairOf(c: char, d: char): Option<Byte> {
    if HexValue(c) < 0 || HexValue(d) < 0 then None else Some(HexValue(c) * 16 + HexValue(d))
  }

  function Cons(b: Option<Byte>, rest: Option<seq<Byte>>): Option<seq<Byte>> {
    if b.None? || rest.None? then None else Some([b.value] + rest.value)
  }

  /** The bytes a text denotes. */
  function Decode(hex: string): Option<seq<Byte>> {
    if hex == "" then Some([])
    else if |hex| == 1 then None
    else Cons(PairOf(hex[0], hex[1]), Decode(hex[2..]))
  }

  function PairText(b: Byte): (s: string)
    ensures |s| == 2
  {
    [HEX[b / 16], HEX[b % 16]]
  }

  function Encode(bytes: seq<Byte>): (s: string)
    ensures |s| == 2 * |bytes|
  {
    if bytes == [] then "" else PairText(bytes[0]) + Encode(bytes[1..])
  }

  function LowerChar(c: char): char {
    if 'A' <= c <= 'F' then (c as int - 'A' as int + 'a' as int) as char else c
  }

  function Lower(s: string): (r: string)
    ensures |r| == |s|
  {
    if s == "" then "" else [LowerChar(s[0])] + Lower(s[1..])
  }

  lemma DigitOfValue(c: char)
    ensures HexValue(c) >= 0 ==> HexValue(c) < 16 && HEX[HexValue(c)] == LowerChar(c)
  {
  }

  lemma ValueOfDigit(c: char, v: int)
    requires 0 <= v < 16 && LowerChar(c) == HEX[v]
    ensures HexValue(c) == v
  {
  }

  lemma ConsIs(b: Option<Byte>, rest: Option<seq<Byte>>, bytes: seq<Byte>)
    ensures Cons(b, rest) == Some(bytes) <==> bytes != [] && b == Some(bytes[0]) && rest == Some(bytes[1..])
  {
    if bytes != [] {
      assert bytes == [bytes[0]] + bytes[1..];
    }
    if b.Some? && rest.Some? {
      assert ([b.value] + rest.value)[1..] == rest.value;
    }
  }

  lemma JoinedEqual(a: string, x: string, b: string, y: string)
    requires |a| == |b|
    ensures a + x == b + y <==> a == b && x == y
  {
    if a + x == b + y {
      assert a == (a + x)[..|a|] && b == (b + y)[..|b|];
      assert x == (a + x)[|a|..] && y == (b + y)[|b|..];
    }
  }

  lemma LowerCons(s: string)
    requires s != ""
    ensures Lower(s) == [LowerChar(s[0])] + Lower(s[1..])
  {
    hide LowerChar;
  }

  lemma LowerPair(hex: string)
    requires |hex| >= 2
    ensures Lower(hex) == [LowerChar(hex[0]), LowerChar(hex[1])] + Lower(hex[2..])
  {
    hide LowerChar, Lower;
    LowerCons(hex);
    LowerCons(hex[1..]);
    assert hex[1..][1..] == hex[2..];
    TwoFirst(LowerChar(hex[0]), LowerChar(hex[1]), Lower(hex[2..]));
  }

  lemma TwoFirst(a: char, b: char, rest: string)
    ensures [a] + ([b] + rest) == [a, b] + rest
  {
    var x, y := [a] + ([b] + rest), [a, b] + rest;
    assert |x| == |y|;
    forall i | 0 <= i < |x| ensures x[i] == y[i] {
    }
  }

  /** A text decodes to bytes exactly when it is their encoding up to the case of its
      letters. */
  lemma {:induction false} DecodeExact(hex: string, bytes: seq<Byte>)
    ensures Decode(hex) == Some(bytes) <==> Lower(hex) == Encode(bytes)
    decreases |hex|
  {
    hide PairOf, PairText, LowerChar, Cons, Lower;
    if hex == "" || |hex| == 1 {
      assert hex == "" ==> Lower(hex) == "";
    } else {
      LowerPair(hex);
      ConsIs(PairOf(hex[0], hex[1]), Decode(hex[2..]), bytes);
      if bytes != [] {
        DecodeExact(hex[2..], bytes[1..]);
        PairExact(hex[0], hex[1], bytes[0]);
        JoinedEqual([LowerChar(hex[0]), LowerChar(hex[1])], Lower(hex[2..]), PairText(bytes[0]), Encode(bytes[1..]));
      }
    }
  }

  lemma PairExact(c: char, d: char, b: Byte)
    ensures PairOf(c, d) == Some(b) <==> [LowerChar(c), LowerChar(d)] == PairText(b)
  {
    hide HexValue, LowerChar;
    var hi, lo := b / 16, b % 16;
    var text := [LowerChar(c), LowerChar(d)];
    assert text == PairText(b) <==> LowerChar(c) == HEX[hi] && LowerChar(d) == HEX[lo];
    if HexValue(c) >= 0 && HexValue(d) >= 0 {
      DigitOfValue(c);
      DigitOfValue(d);
      SplitByte(HexValue(c), HexValue(d), b);
    }
    if LowerChar(c) == HEX[hi] && LowerChar(d) == HEX[lo] {
      ValueOfDigit(c, hi);
      ValueOfDigit(d, lo);
    }
  }

  lemma SplitByte(hi: int, lo: int, b: int)
    requires 0 <= hi < 16 && 0 <= lo < 16
    ensures hi * 16 + lo == b <==> hi == b / 16 && lo == b % 16
  {
  }

  lemma {:induction false} DecodedLength(hex: string)
    ensures Decode(hex).Some? ==> |hex| == 2 * |Decode(hex).value|
    decreases |hex|
  {
    hide PairOf;
    if |hex| >= 2 {
      DecodedLength(hex[2..]);
    }
  }

  /** The first i digits of a text decode to done; the rest decides. */
  ghost predicate Continues(hex: string, done: seq<Byte>, i: nat) {
    && i <= |hex|
    && Decode(hex) == Appended(Some(done), Decode(hex[i..]))
  }

  lemma Begins(hex: string)
    ensures Continues(hex, [], 0)
  {
    hide Decode;
    assert hex[0..] == hex;
    AppendedToNothing(Decode(hex));
  }

  lemma Finishes(hex: string, done: seq<Byte>)
    requires Continues(hex, done, |hex|)
    ensures Decode(hex) == Some(done)
  {
    assert hex[|hex|..] == "" && done + [] == done;
  }

  /** A further even piece either decodes, or the whole text does not. */
  lemma Advances(hex: string, done: seq<Byte>, i: nat, j: nat)
    requires Continues(hex, done, i) && i <= j <= |hex| && (j - i) % 2 == 0
    ensures if Decode(hex[i..j]).Some? then Continues(hex, done + Decode(hex[i..j]).value, j) else Decode(hex).None?
  {
    hide Decode;
    DecodeJoin(hex[i..j], hex[j..]);
    assert hex[i..] == hex[i..j] + hex[j..];
    if Decode(hex[i..j]).Some? && Decode(hex[j..]).Some? {
      assert done + (Decode(hex[i..j]).value + Decode(hex[j..]).value) == done + Decode(hex[i..j]).value + Decode(hex[j..]).value;
    }
  }

  lemma TwoDigits(c: char, d: char)
    ensures Decode([c, d]) == if PairOf(c, d).None? then None else Some([PairOf(c, d).value])
  {
    hide PairOf;
    var text := [c, d];
    assert text[2..] == "" && Decode(text[2..]) == Some([]);
    if PairOf(c, d).Some? {
      var b := PairOf(c, d).value;
      assert [b] + [] == [b];
    }
    assert Decode(text) == Cons(PairOf(c, d), Some([]));
  }

  lemma ConsJoin(p: Option<Byte>, a: Option<seq<Byte>>, b: Option<seq<Byte>>)
    ensures Cons(p, Appended(a, b)) == Appended(Cons(p, a), b)
  {
    if p.Some? && a.Some? && b.Some? {
      assert [p.value] + (a.value + b.value) == [p.value] + a.value + b.value;
    }
  }

  function Appended(a: Option<seq<Byte>>, b: Option<seq<Byte>>): Option<seq<Byte>> {
    if a.Some? && b.Some? then Some(a.value + b.value) else None
  }

  lemma AppendedToNothing(b: Option<seq<Byte>>)
    ensures Appended(Some([]), b) == b
  {
    if b.Some? {
      assert [] + b.value == b.value;
    }
  }

  lemma {:induction false} DecodeJoin(a: string, b: string)
    requires |a| % 2 == 0
    ensures Decode(a + b) == Appended(Decode(a), Decode(b))
    decreases |a|
  {
    hide PairOf, Cons, Appended;
    if a == "" {
      assert a + b == b;
      AppendedToNothing(Decode(b));
    } else {
      DecodeJoin(a[2..], b);
      assert (a + b)[2..] == a[2..] + b && (a + b)[0] == a[0] && (a + b)[1] == a[1];
      ConsJoin(PairOf(a[0], a[1]), Decode(a[2..]), Decode(b));
    }
  }

  /** The next two digits. */
  lemma NextPair(hex: string, done: seq<Byte>, i: nat)
    requires Continues(hex, done, i) && i + 2 <= |hex|
    ensures if PairOf(hex[i], hex[i + 1]).None? then Decode(hex).None?
      else Continues(hex, done + [PairOf(hex[i], hex[i + 1]).value], i + 2)
  {
    hide Continues, Decode, PairOf;
    assert hex[i..i + 2] == [hex[i], hex[i + 1]];
    TwoDigits(hex[i], hex[i + 1]);
    Advances(hex, done, i, i + 2);
  }

  /** hex_to_bytes: the text must have exactly the given number of bytes. */
  method HexToBytes(hex: string, outLen: nat) returns (out: Option<seq<Byte>>)
    ensures out == DecodeTo(hex, outLen)
  {
    hide HexValue, Decode, Continues;
    DecodedLength(hex);
    if |hex| % 2 != 0 || |hex| / 2 != outLen {
      return None;
    }
    var bytes: seq<Byte> := [];
    Begins(hex);
    var i := 0;
    while i < outLen
      invariant 0 <= i <= outLen && |bytes| == i
      invariant Continues(hex, bytes, 2 * i)
    {
      NextPair(hex, bytes, 2 * i);
      var hi := HexValue(hex[i * 2]);
      var lo := HexValue(hex[i * 2 + 1]);
      if hi < 0 || lo < 0 {
        return None;
      }
      DigitOfValue(hex[i * 2]);
      DigitOfValue(hex[i * 2 + 1]);
      bytes := bytes + [hi * 16 + lo];
      i := i + 1;
    }
    Finishes(hex, bytes);
    return Some(bytes);
  }

  function DecodeTo(hex: string, outLen: nat): Option<seq<Byte>> {
    if Decode(hex).Some? && |Decode(hex).value| == outLen then Decode(hex) else None
  }

  function Reversed4(b: seq<Byte>): seq<Byte>
    requires |b| == 4
  {
    [b[3], b[2], b[1], b[0]]
  }

  /** Every group of four bytes turned round. */
  function SwapWords(b: seq<Byte>): (r: seq<Byte>)
    requires |b| % 4 == 0
    ensures |r| == |b|
  {
    if b == [] then [] else Reversed4(b[..4]) + SwapWords(b[4..])
  }

  /** hex_u32_to_le. */
  method HexU32ToLe(hex: string) returns (out: Option<seq<Byte>>)
    ensures out == if DecodeTo(hex, 4).Some? then Some(Reversed4(DecodeTo(hex, 4).value)) else None
  {
    var tmp := HexToBytes(hex, 4);
    return if tmp.None? then None else Some(Reversed4(tmp.value));
  }

  // ---- The Merkle root ----

  /** A tree of hashes over the transactions of a block. */
  datatype Tree = Leaf(hash: seq<Byte>) | Node(left: Tree, right: Tree)

  function Root(t: Tree): seq<Byte> {
    match t
    case Leaf(hash) => hash
    case Node(left, right) => Sha256d(Root(left) + Root(right))
  }

  function HashPair(a: seq<Byte>, b: seq<Byte>): seq<Byte> {
    Sha256d(a + b)
  }

  function Leftmost(t: Tree): seq<Byte> {
    match t
    case Leaf(hash) => hash
    case Node(left, _) => Leftmost(left)
  }

  /** The siblings on the way from the leftmost leaf to the root. */
  function LeftPath(t: Tree): seq<seq<Byte>> {
    match t
    case Leaf(_) => []
    case Node(left, right) => LeftPath(left) + [Root(right)]
  }

  function Fold(hash: seq<Byte>, branches: seq<seq<Byte>>): seq<Byte> {
    if branches == [] then hash
    else HashPair(Fold(hash, branches[..|branches| - 1]), branches[|branches| - 1])
  }

  /** Folding the branch of any tree into its leftmost leaf, the coinbase, gives its root. */
  lemma {:induction false} FoldIsRoot(t: Tree)
    ensures Fold(Leftmost(t), LeftPath(t)) == Root(t)
  {
    hide Sha256d;
    match t
    case Leaf(_) =>
    case Node(left, right) =>
      FoldIsRoot(left);
      assert LeftPath(t)[..|LeftPath(t)| - 1] == LeftPath(left);
  }

  // ---- The header ----

  datatype Texts = Texts(coinb1: string, extranonce1: string, extranonce2: string, coinb2: string,
    merkle: seq<string>, version: string, prevhash: string, ntime: string, nbits: string)

  function CoinbaseText(t: Texts): string {
    t.coinb1 + t.extranonce1 + t.extranonce2 + t.coinb2
  }

  function RootOf(t: Texts): Option<seq<Byte>> {
    if Decode(CoinbaseText(t)).None? || Branches(t.merkle).None? then None
    else Some(Fold(Sha256d(Decode(CoinbaseText(t)).value), Branches(t.merkle).value))
  }

  function Branches(merkle: seq<string>): Option<seq<seq<Byte>>> {
    if merkle == [] then Some([])
    else
      var n := |merkle| - 1;
      var most := Branches(merkle[..n]);
      if most.None? || DecodeTo(merkle[n], 32).None? then None else Some(most.value + [DecodeTo(merkle[n], 32).value])
  }

  /** The block header of the protocol: version, previous hash, Merkle root, time, bits and
      a zero nonce, if all texts are well-formed. */
  function HeaderOf(t: Texts): Option<seq<Byte>> {
    hide RootOf, Decode, SwapWords;
    if RootOf(t).None? || DecodeTo(t.version, 4).None?
      || DecodeTo(t.prevhash, 32).None? || DecodeTo(t.ntime, 4).None? || DecodeTo(t.nbits, 4).None?
    then None
    else Some(
      SwapWords(DecodeTo(t.version, 4).value)
      + SwapWords(DecodeTo(t.prevhash, 32).value)
      + RootOf(t).value
      + SwapWords(DecodeTo(t.ntime, 4).value)
      + SwapWords(DecodeTo(t.nbits, 4).value)
      + [0, 0, 0, 0])
  }

  /** prevhash_to_header_bytes: eight groups of eight digits. */
  method PrevhashToHeaderBytes(hex: string) returns (out: Option<seq<Byte>>)
    ensures out == if DecodeTo(hex, 32).Some? then Some(SwapWords(DecodeTo(hex, 32).value)) else None
  {
    hide Decode, SwapWords;
    DecodedLength(hex);
    if |hex| != 64 {
      return None;
    }
    var bytes: seq<Byte> := [];
    ghost var plain: seq<Byte> := [];
    NothingToSwap();
    Begins(hex);
    var i := 0;
    while i < 32
      invariant 0 <= i <= 32 && i % 4 == 0 && |plain| == i
      invariant bytes == SwapWords(plain) && Continues(hex, plain, 2 * i)
    {
      hide Continues;
      var chunk := hex[2 * i..2 * i + 8];
      DecodedLength(chunk);
      var tmp := HexToBytes(chunk, 4);
      Advances(hex, plain, 2 * i, 2 * i + 8);
      if tmp.None? {
        return None;
      }
      SwapJoin(plain, tmp.value);
      plain := plain + tmp.value;
      bytes := bytes + Reversed4(tmp.value);
      i := i + 4;
    }
    Finishes(hex, plain);
    return Some(bytes);
  }

  lemma NothingToSwap()
    ensures SwapWords([]) == []
  {
  }

  lemma {:induction false} SwapJoin(a: seq<Byte>, b: seq<Byte>)
    requires |a| % 4 == 0 && |b| == 4
    ensures SwapWords(a + b) == SwapWords(a) + Reversed4(b)
    decreases |a|
  {
    if a == [] {
      assert a + b == b && b[..4] == b && b[4..] == [];
    } else {
      SwapJoin(a[4..], b);
      assert (a + b)[..4] == a[..4] && (a + b)[4..] == a[4..] + b;
    }
  }

  lemma SwapFour(b: seq<Byte>)
    requires |b| == 4
    ensures SwapWords(b) == Reversed4(b)
  {
    assert b[..4] == b && b[4..] == [];
  }

  /** The Merkle loop of miner_build_job. */
  method MerkleFold(coinbaseHash: seq<Byte>, merkle: seq<string>) returns (root: Option<seq<Byte>>)
    ensures root == if Branches(merkle).Some? then Some(Fold(coinbaseHash, Branches(merkle).value)) else None
  {
    hide Sha256d;
    var hash := coinbaseHash;
    for i := 0 to |merkle|
      invariant Branches(merkle[..i]).Some? && hash == Fold(coinbaseHash, Branches(merkle[..i]).value)
    {
      var branch := HexToBytes(merkle[i], 32);
      assert merkle[..i + 1][..i] == merkle[..i];
      if branch.None? {
        NoBranches(merkle, i + 1);
        return None;
      }
      FoldOne(coinbaseHash, Branches(merkle[..i]).value, branch.value);
      hash := Sha256d(hash + branch.value);
    }
    assert merkle[..|merkle|] == merkle;
    return Some(hash);
  }

  lemma FoldOne(hash: seq<Byte>, branches: seq<seq<Byte>>, b: seq<Byte>)
    ensures Fold(hash, branches + [b]) == Sha256d(Fold(hash, branches) + b)
  {
    hide Sha256d;
    assert (branches + [b])[..|branches + [b]| - 1] == branches;
  }

  lemma {:induction false} NoBranches(merkle: seq<string>, i: nat)
    requires i <= |merkle| && Branches(merkle[..i]).None?
    ensures Branches(merkle).None?
    decreases |merkle|
  {
    if i == |merkle| {
      assert merkle[..i] == merkle;
    } else {
      assert merkle[..|merkle| - 1][..i] == merkle[..i];
      NoBranches(merkle[..|merkle| - 1], i);
    }
  }

  /** The texts are checked in this order; the first bad one ends the attempt. */
  method BuildHeader(t: Texts) returns (header: Option<seq<Byte>>)
    ensures header == HeaderOf(t)
    ensures forall h :: header == Some(h) <==> Spells(h, t)
  {
    hide Decode, Sha256d, SwapWords, Fold, Branches, Spells;
    forall h ensures HeaderOf(t) == Some(h) <==> Spells(h, t) {
      HeaderExact(t, h);
    }
    var text := t.coinb1 + t.extranonce1 + t.extranonce2 + t.coinb2;
    var coinbase := HexToBytes(text, |text| / 2);
    DecodedLength(text);
    if coinbase.None? {
      return None;
    }
    var root := MerkleFold(Sha256d(coinbase.value), t.merkle);
    if root.None? {
      return None;
    }
    var version := HexU32ToLe(t.version);
    if version.None? {
      return None;
    }
    var prevhash := PrevhashToHeaderBytes(t.prevhash);
    if prevhash.None? {
      return None;
    }
    var ntime := HexU32ToLe(t.ntime);
    if ntime.None? {
      return None;
    }
    var nbits := HexU32ToLe(t.nbits);
    if nbits.None? {
      return None;
    }
    SwapFour(DecodeTo(t.version, 4).value);
    SwapFour(DecodeTo(t.ntime, 4).value);
    SwapFour(DecodeTo(t.nbits, 4).value);
    return Some(version.value + prevhash.value + root.value + ntime.value + nbits.value + [0, 0, 0, 0]);
  }

  lemma {:induction false} FoldLength(hash: seq<Byte>, branches: seq<seq<Byte>>)
    requires |hash| == 32
    ensures |Fold(hash, branches)| == 32
  {
    hide Sha256d;
  }

  /** The branch hashes a list of texts spells. */
  ghost predicate BranchesSpell(branches: seq<seq<Byte>>, merkle: seq<string>) {
    && |branches| == |merkle|
    && forall i :: 0 <= i < |merkle| ==> |branches[i]| == 32 && Lower(merkle[i]) == Encode(branches[i])
  }

  /** The root of the transactions with the coinbase that the four texts, one after the
      other, spell: the hash of the coinbase folded with the branches. */
  ghost predicate IsRootOf(root: seq<Byte>, t: Texts) {
    exists c, b :: RootFrom(root, t, c, b)
  }

  ghost predicate RootFrom(root: seq<Byte>, t: Texts, coinbase: seq<Byte>, branches: seq<seq<Byte>>) {
    && Lower(t.coinb1 + t.extranonce1 + t.extranonce2 + t.coinb2) == Encode(coinbase)
    && BranchesSpell(branches, t.merkle)
    && root == Fold(Sha256d(coinbase), branches)
  }

  /** Digits 8 k .. 8 k + 7 spell bytes 4 k .. 4 k + 3 of a field, the last one first. */
  ghost predicate GroupSpells(text: string, b: seq<Byte>, k: nat)
    requires |text| == 2 * |b| && 4 * k + 4 <= |b|
  {
    Lower(text[8 * k..8 * k + 8]) == Encode([b[4 * k + 3], b[4 * k + 2], b[4 * k + 1], b[4 * k]])
  }

  /** Every group of the text spells its four bytes. */
  ghost predicate GroupsSpell(text: string, b: seq<Byte>) {
    && |text| == 2 * |b| && |b| % 4 == 0
    && forall k: nat :: k < |b| / 4 ==> GroupSpells(text, b, k)
  }

  /** The 80 bytes of a header: version, previous hash, Merkle root, time, bits and a zero
      nonce. Texts are in hexadecimal with letters of either case; in each of the fields
      every group of four bytes is turned round. */
  ghost predicate Spells(h: seq<Byte>, t: Texts) {
    && |h| == 80
    && GroupsSpell(t.version, h[0..4])
    && GroupsSpell(t.prevhash, h[4..36])
    && IsRootOf(h[36..68], t)
    && GroupsSpell(t.ntime, h[68..72])
    && GroupsSpell(t.nbits, h[72..76])
    && h[76..80] == [0, 0, 0, 0]
  }

  lemma {:induction false} EncodeJoin(a: seq<Byte>, b: seq<Byte>)
    ensures Encode(a + b) == Encode(a) + Encode(b)
  {
    hide PairText;
    if a == [] {
      assert a + b == b;
    } else {
      EncodeJoin(a[1..], b);
      assert (a + b)[1..] == a[1..] + b && (a + b)[0] == a[0];
    }
  }

  /** Turning every group round and encoding is spelling group by group. */
  lemma {:induction false} GroupsAre(text: string, b: seq<Byte>)
    requires |b| % 4 == 0
    ensures Lower(text) == Encode(SwapWords(b)) <==> GroupsSpell(text, b)
    decreases |b|
  {
    hide Lower, Encode, SwapWords, GroupSpells;
    if |text| == 2 * |b| {
      if b == [] {
        NoGroups();
      } else {
        var n, m := |b| - 4, 2 * |b| - 8;
        GroupsAre(text[..m], b[..n]);
        assert text == text[..m] + text[m..] && b == b[..n] + b[n..];
        LowerJoin(text[..m], text[m..]);
        SwapJoin(b[..n], b[n..]);
        EncodeJoin(SwapWords(b[..n]), Reversed4(b[n..]));
        JoinedEqual(Lower(text[..m]), Lower(text[m..]), Encode(SwapWords(b[..n])), Encode(Reversed4(b[n..])));
        LastGroup(text, b);
        FirstGroups(text, b);
      }
    }
  }

  lemma NoGroups()
    ensures Lower("") == Encode(SwapWords([]))
  {
  }

  lemma LastGroup(text: string, b: seq<Byte>)
    requires |text| == 2 * |b| && |b| % 4 == 0 && b != []
    ensures GroupSpells(text, b, |b| / 4 - 1) <==> Lower(text[|text| - 8..]) == Encode(Reversed4(b[|b| - 4..]))
  {
    hide Lower, Encode;
    var k := |b| / 4 - 1;
    assert 4 * k == |b| - 4;
    assert text[8 * k..8 * k + 8] == text[|text| - 8..];
  }

  lemma FirstGroups(text: string, b: seq<Byte>)
    requires |text| == 2 * |b| && |b| % 4 == 0 && b != []
    ensures GroupsSpell(text, b) <==>
      GroupsSpell(text[..|text| - 8], b[..|b| - 4]) && GroupSpells(text, b, |b| / 4 - 1)
  {
    hide GroupSpells;
    var n, m := |b| - 4, |text| - 8;
    assert n / 4 == |b| / 4 - 1;
    forall k: nat | k < n / 4 ensures GroupSpells(text[..m], b[..n], k) <==> GroupSpells(text, b, k) {
      SameGroup(text, b, k, m, n);
    }
  }

  lemma SameGroup(text: string, b: seq<Byte>, k: nat, m: nat, n: nat)
    requires |text| == 2 * |b| && m == 2 * n && n <= |b| && 4 * k + 4 <= n
    ensures GroupSpells(text[..m], b[..n], k) <==> GroupSpells(text, b, k)
  {
    hide Lower, Encode;
    assert text[..m][8 * k..8 * k + 8] == text[8 * k..8 * k + 8];
  }

  lemma {:induction false} BranchesExact(merkle: seq<string>, branches: seq<seq<Byte>>)
    ensures Branches(merkle) == Some(branches) <==> BranchesSpell(branches, merkle)
    decreases |merkle|
  {
    hide Lower, Encode, Decode;
    if |branches| == |merkle| && merkle != [] {
      var n := |merkle| - 1;
      BranchesExact(merkle[..n], branches[..n]);
      DecodeExact(merkle[n], branches[n]);
      assert branches == branches[..n] + [branches[n]];
      assert (forall i :: 0 <= i < |merkle| ==> |branches[i]| == 32 && Lower(merkle[i]) == Encode(branches[i])) <==>
        (forall i :: 0 <= i < n ==> |branches[..n][i]| == 32 && Lower(merkle[..n][i]) == Encode(branches[..n][i]))
        && |branches[n]| == 32 && Lower(merkle[n]) == Encode(branches[n]);
    } else if merkle != [] {
      BranchCount(merkle);
    }
  }

  lemma {:induction false} BranchCount(merkle: seq<string>)
    ensures Branches(merkle).Some? ==> |Branches(merkle).value| == |merkle|
  {
    if merkle != [] {
      BranchCount(merkle[..|merkle| - 1]);
    }
  }

  lemma RootExact(t: Texts, root: seq<Byte>)
    ensures RootOf(t) == Some(root) <==> IsRootOf(root, t)
  {
    hide Lower, Encode, Decode, Branches, Fold, Sha256d, BranchesSpell;
    if RootOf(t) == Some(root) {
      var c, b := Decode(CoinbaseText(t)).value, Branches(t.merkle).value;
      DecodeExact(CoinbaseText(t), c);
      BranchesExact(t.merkle, b);
      assert RootFrom(root, t, c, b);
    }
    if IsRootOf(root, t) {
      var c, b :| RootFrom(root, t, c, b);
      DecodeExact(CoinbaseText(t), c);
      BranchesExact(t.merkle, b);
    }
  }

  /** A text turned round group by group. */
  lemma FieldExact(text: string, b: seq<Byte>)
    requires |b| % 4 == 0
    ensures GroupsSpell(text, b) <==> DecodeTo(text, |b|).Some? && SwapWords(DecodeTo(text, |b|).value) == b
  {
    hide Decode, Lower, Encode, SwapWords, GroupsSpell;
    GroupsAre(text, b);
    DecodeExact(text, SwapWords(b));
    SwapTwice(b);
    if DecodeTo(text, |b|).Some? {
      SwapTwice(DecodeTo(text, |b|).value);
    }
  }

  lemma RootLength(t: Texts)
    ensures RootOf(t).Some? ==> |RootOf(t).value| == 32
  {
    hide Decode, Branches, Fold, Sha256d;
    if RootOf(t).Some? {
      FoldLength(Sha256d(Decode(CoinbaseText(t)).value), Branches(t.merkle).value);
    }
  }

  /** The header of the texts is h exactly when h spells them; there is none exactly when
      no 80 bytes do. */
  lemma HeaderExact(t: Texts, h: seq<Byte>)
    ensures HeaderOf(t) == Some(h) <==> Spells(h, t)
  {
    hide Decode, SwapWords, RootOf, IsRootOf, GroupsSpell;
    if |h| == 80 {
      FieldExact(t.version, h[0..4]);
      FieldExact(t.prevhash, h[4..36]);
      RootExact(t, h[36..68]);
      FieldExact(t.ntime, h[68..72]);
      FieldExact(t.nbits, h[72..76]);
      assert h == h[0..4] + h[4..36] + h[36..68] + h[68..72] + h[72..76] + h[76..80];
    }
    if HeaderOf(t).Some? {
      RootLength(t);
      Pieces(SwapWords(DecodeTo(t.version, 4).value), SwapWords(DecodeTo(t.prevhash, 32).value), RootOf(t).value,
        SwapWords(DecodeTo(t.ntime, 4).value), SwapWords(DecodeTo(t.nbits, 4).value));
    }
  }

  /** So if the branch texts spell the left path of a tree of transactions whose first leaf
      is the hash of the coinbase, the header holds the root of that tree. */
  lemma HeaderHoldsTreeRoot(t: Texts, h: seq<Byte>, coinbase: seq<Byte>, tree: Tree)
    requires HeaderOf(t) == Some(h)
    requires Lower(t.coinb1 + t.extranonce1 + t.extranonce2 + t.coinb2) == Encode(coinbase)
    requires Leftmost(tree) == Sha256d(coinbase) && BranchesSpell(LeftPath(tree), t.merkle)
    ensures |h| == 80 && h[36..68] == Root(tree)
  {
    hide Lower, Encode, Decode, Branches, Fold, Sha256d, BranchesSpell, GroupsSpell, HeaderOf;
    HeaderExact(t, h);
    var c, b :| RootFrom(h[36..68], t, c, b);
    BranchesExact(t.merkle, b);
    BranchesExact(t.merkle, LeftPath(tree));
    DecodeExact(CoinbaseText(t), c);
    DecodeExact(CoinbaseText(t), coinbase);
    FoldIsRoot(tree);
  }

  lemma TurnedBack(b: seq<Byte>)
    requires |b| == 4
    ensures Reversed4(Reversed4(b)) == b
  {
  }

  lemma {:induction false} SwapTwice(b: seq<Byte>)
    requires |b| % 4 == 0
    ensures SwapWords(SwapWords(b)) == b
  {
    if b != [] {
      SwapTwice(b[4..]);
      TurnedBack(b[..4]);
      assert SwapWords(b)[..4] == Reversed4(b[..4]) && SwapWords(b)[4..] == SwapWords(b[4..]);
      assert b == b[..4] + b[4..];
    }
  }

  lemma Pieces(a: seq<Byte>, b: seq<Byte>, c: seq<Byte>, d: seq<Byte>, e: seq<Byte>)
    requires |a| == 4 && |b| == 32 && |c| == 32 && |d| == 4 && |e| == 4
    ensures var h := a + b + c + d + e + [0, 0, 0, 0];
      && |h| == 80 && h[0..4] == a && h[4..36] == b && h[36..68] == c && h[68..72] == d && h[72..76] == e
      && h[76..80] == [0, 0, 0, 0]
  {
  }

  // ---- Different counters, different work ----

  lemma {:induction false} LowerJoin(a: string, b: string)
    ensures Lower(a + b) == Lower(a) + Lower(b)
  {
    hide LowerChar;
    if a == "" {
      assert a + b == b;
    } else {
      LowerJoin(a[1..], b);
      assert (a + b)[1..] == a[1..] + b && (a + b)[0] == a[0];
    }
  }

  lemma {:induction false} LowerHex(s: string)
    requires forall i :: 0 <= i < |s| ==> s[i] in HEX
    ensures Lower(s) == s
  {
    if s != "" {
      LowerHex(s[1..]);
    }
  }

  lemma {:induction false} HexIsLower(v: nat)
    ensures forall i :: 0 <= i < |Hex(v)| ==> Hex(v)[i] in HEX
  {
    if v >= 16 {
      HexIsLower(v / 16);
    }
  }

  lemma {:induction false} ZerosAreHex(n: nat)
    ensures forall i :: 0 <= i < |ZeroDigits(n)| ==> ZeroDigits(n)[i] in HEX
  {
    assert HEX[0] == '0';
    if n > 0 {
      ZerosAreHex(n - 1);
    }
  }

  lemma FormatIsLower(size: int, value: nat)
    requires 1 <= size <= 15 && value < 0x1_0000_0000_0000_0000
    ensures Lower(FormatExtranonce2(32, size, value)) == FormatExtranonce2(32, size, value)
  {
    hide Hex, ZeroDigits;
    FormatRoundTrip(size, value);
    HexIsLower(value);
    ZerosAreHex(if |Hex(value)| < size * 2 then size * 2 - |Hex(value)| else 0);
    LowerHex(FormatExtranonce2(32, size, value));
  }

  /** For one template, coinbases built from different counters differ, whatever the
      announced sizes: the bytes that get hashed are different work. */
  lemma CountersGiveDifferentCoinbases(t: Texts, size1: int, value1: nat, size2: int, value2: nat)
    requires 1 <= size1 <= 15 && 1 <= size2 <= 15
    requires value1 < value2 < 0x1_0000_0000_0000_0000
    ensures var c1 := Decode(t.coinb1 + t.extranonce1 + FormatExtranonce2(32, size1, value1) + t.coinb2);
      var c2 := Decode(t.coinb1 + t.extranonce1 + FormatExtranonce2(32, size2, value2) + t.coinb2);
      c1.Some? && c2.Some? ==> c1.value != c2.value
  {
    hide Decode, FormatExtranonce2, Lower;
    var x, y := FormatExtranonce2(32, size1, value1), FormatExtranonce2(32, size2, value2);
    var s, u := t.coinb1 + t.extranonce1 + x + t.coinb2, t.coinb1 + t.extranonce1 + y + t.coinb2;
    if Decode(s).Some? && Decode(u).Some? && Decode(s).value == Decode(u).value {
      DecodeExact(s, Decode(s).value);
      DecodeExact(u, Decode(u).value);
      SplitMiddle(t.coinb1 + t.extranonce1, x, y, t.coinb2);
      FormatIsLower(size1, value1);
      FormatIsLower(size2, value2);
      FormatRoundTrip(size1, value1);
      FormatRoundTrip(size2, value2);
      assert false;
    }
  }

  lemma SplitMiddle(a: string, x: string, y: string, b: string)
    requires Lower(a + x + b) == Lower(a + y + b)
    ensures Lower(x) == Lower(y)
  {
    hide Lower;
    LowerJoin(a + x, b);
    LowerJoin(a + y, b);
    LowerJoin(a, x);
    LowerJoin(a, y);
    var p, q := Lower(a + x + b), Lower(a + y + b);
    assert p[|a|..|a| + |x|] == Lower(x) && q[|a|..|a| + |y|] == Lower(y);
  }
}
