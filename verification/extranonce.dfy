/** miner_format_extranonce2 of src/miner.c: a counter as zero-padded hexadecimal. */
module Extranonce {
  const HEX := "0123456789abcdef"

  function Hex(v: nat): (s: string)
    ensures |s| >= 1
  {
    if v < 16 then [HEX[v]] else Hex(v / 16) + [HEX[v % 16]]
  }

  function ZeroDigits(n: nat): string {
    if n == 0 then "" else ZeroDigits(n - 1) + "0"
  }

  function Pad(s: string, width: nat): string {
    if |s| < width then ZeroDigits(width - |s|) + s else s
  }

  /** The text written for a buffer of outSize bytes; snprintf keeps outSize - 1 of
      them. A size the buffer cannot hold gives the empty text. */
  function FormatExtranonce2(outSize: nat, size: int, value: nat): string {
    if size * 2 <= 0 || size * 2 + 1 > outSize then ""
    else
      var s := Pad(Hex(value), size * 2);
      if |s| < outSize then s else s[..outSize - 1]
  }

  function DigitValue(c: char): nat {
    if '0' <= c <= '9' then c as nat - '0' as nat
    else if 'a' <= c <= 'f' then c as nat - 'a' as nat + 10
    else 0
  }

  /** The number a hexadecimal text denotes. */
  function Parse(s: string): nat {
    if s == "" then 0 else 16 * Parse(s[..|s| - 1]) + DigitValue(s[|s| - 1])
  }

  lemma ParseSnoc(s: string, c: char)
    ensures Parse(s + [c]) == 16 * Parse(s) + DigitValue(c)
  {
    hide DigitValue;
    assert (s + [c])[..|s|] == s;
  }

  lemma HexDigit(d: nat)
    requires d < 16
    ensures DigitValue(HEX[d]) == d
  {
  }

  lemma OneDigit(c: char)
    ensures Parse([c]) == DigitValue(c)
  {
    ParseNothing();
    ParseSnoc("", c);
    assert "" + [c] == [c];
  }

  lemma {:induction false} ParseHex(v: nat)
    ensures Parse(Hex(v)) == v
  {
    hide Parse, DigitValue;
    HexDigit(v % 16);
    if v < 16 {
      OneDigit(HEX[v]);
    } else {
      ParseHex(v / 16);
      ParseSnoc(Hex(v / 16), HEX[v % 16]);
    }
  }

  lemma {:induction false} ParseZeros(n: nat)
    ensures Parse(ZeroDigits(n)) == 0
  {
    if n > 0 {
      ParseZeros(n - 1);
      ParseSnoc(ZeroDigits(n - 1), '0');
    }
  }

  lemma {:induction false} ParsePadding(n: nat, s: string)
    ensures Parse(ZeroDigits(n) + s) == Parse(s)
    decreases |s|
  {
    hide Parse, DigitValue;
    if s == "" {
      ParseZeros(n);
      ParseNothing();
      assert ZeroDigits(n) + s == ZeroDigits(n);
    } else {
      var rest, c := s[..|s| - 1], s[|s| - 1];
      ParsePadding(n, rest);
      ParseSnoc(rest, c);
      ParseSnoc(ZeroDigits(n) + rest, c);
      assert s == rest + [c];
      assert ZeroDigits(n) + s == ZeroDigits(n) + rest + [c];
    }
  }

  lemma ParseNothing()
    ensures Parse("") == 0
  {
  }

  lemma {:induction false} ZeroDigitsLength(n: nat)
    ensures |ZeroDigits(n)| == n
  {
    if n > 0 {
      ZeroDigitsLength(n - 1);
    }
  }

  function Power16(n: nat): nat {
    if n == 0 then 1 else 16 * Power16(n - 1)
  }

  /** A number takes at most n hexadecimal digits exactly when it is below 16^n. */
  lemma {:induction false} HexLength(v: nat, n: nat)
    requires n >= 1
    ensures |Hex(v)| <= n <==> v < Power16(n)
    decreases n
  {
    if n == 1 {
      assert Power16(1) == 16;
    } else if v >= 16 {
      HexLength(v / 16, n - 1);
    } else {
      PowerPositive(n - 1);
    }
  }

  lemma {:induction false} PowerPositive(n: nat)
    ensures Power16(n) >= 1
  {
    if n > 0 {
      PowerPositive(n - 1);
    }
  }

  lemma SixteenDigits(v: nat)
    requires v < 0x1_0000_0000_0000_0000
    ensures |Hex(v)| <= 16
  {
    assert Power16(8) == 0x1_0000_0000;
    assert Power16(16) == 0x1_0000_0000_0000_0000;
    HexLength(v, 16);
  }

  /** The 32-byte buffer never truncates a 64-bit counter: the text denotes the counter,
      whatever the size, and has the announced length exactly for counters below
      256^size; later ones come out too long. */
  lemma FormatRoundTrip(size: int, value: nat)
    requires 1 <= size <= 15 && value < 0x1_0000_0000_0000_0000
    ensures var s := FormatExtranonce2(32, size, value);
      && s == Pad(Hex(value), size * 2)
      && Parse(s) == value
      && size * 2 <= |s| <= 31
      && (|s| == size * 2 <==> value < Power16(size * 2))
  {
    hide Hex, Parse, ZeroDigits, Power16;
    SixteenDigits(value);
    ParseHex(value);
    HexLength(value, size * 2);
    if |Hex(value)| < size * 2 {
      ZeroDigitsLength(size * 2 - |Hex(value)|);
      ParsePadding(size * 2 - |Hex(value)|, Hex(value));
    }
  }

  /** Equal texts come from equal counters, even when the size changed in between; any
      size the buffer cannot hold gives no text at all. */
  lemma FormatInjective(size1: int, value1: nat, size2: int, value2: nat)
    requires value1 < 0x1_0000_0000_0000_0000 && value2 < 0x1_0000_0000_0000_0000
    requires FormatExtranonce2(32, size1, value1) == FormatExtranonce2(32, size2, value2)
    ensures FormatExtranonce2(32, size1, value1) == "" <==> !(1 <= size1 <= 15)
    ensures FormatExtranonce2(32, size1, value1) != "" ==> value1 == value2
  {
    hide Hex, Parse, Pad;
    if 1 <= size1 <= 15 {
      FormatRoundTrip(size1, value1);
    }
    if 1 <= size2 <= 15 {
      FormatRoundTrip(size2, value2);
    }
  }
}
