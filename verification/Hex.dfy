/** Hexadecimal printing and parsing (packages/nouns-sdk/src/image/utils.ts, and the numeric
    built-ins `toString(16)`, `padStart` and `parseInt(_, 16)` it and its callers rely on). */
module Hex {
  import opened Wrappers

  type Byte = n: nat | n < 256

  predicate IsHexDigit(c: char) {
    '0' <= c <= '9' || 'a' <= c <= 'f' || 'A' <= c <= 'F'
  }

  predicate IsHex(s: string) {
    forall i :: 0 <= i < |s| ==> IsHexDigit(s[i])
  }

  function DigitValue(c: char): (d: nat)
    requires IsHexDigit(c)
    ensures d < 16
  {
    if '0' <= c <= '9' then c as int - '0' as int
    else if 'a' <= c <= 'f' then c as int - 'a' as int + 10
    else c as int - 'A' as int + 10
  }

  function DigitChar(d: nat): (c: char)
    requires d < 16
    ensures IsHexDigit(c) && DigitValue(c) == d
  {
    if d < 10 then ('0' as int + d) as char else ('a' as int + d - 10) as char
  }

  /** `n.toString(16)` for a non-negative n. */
  function ToHex(n: nat): (s: string)
    ensures |s| > 0 && IsHex(s)
  {
    if n < 16 then [DigitChar(n)] else ToHex(n / 16) + [DigitChar(n % 16)]
  }

  /** The number a string of hex digits denotes; the empty string denotes 0. */
  function FromHex(s: string): nat
    requires IsHex(s)
  {
    if s == "" then 0 else 16 * FromHex(s[..|s| - 1]) + DigitValue(s[|s| - 1])
  }

  /** `s.padStart(pad, '0')` */
  function PadStart(s: string, pad: nat): (p: string)
    ensures |p| == if |s| < pad then pad else |s|
    ensures IsHex(s) ==> IsHex(p)
    decreases pad - |s|
  {
    if |s| >= pad then s else PadStart("0" + s, pad)
  }

  /** toPaddedHex: a negative number prints its sign first, a large one is never cut. */
  function ToPaddedHex(c: int, pad: nat := 2): string {
    PadStart(if c < 0 then "-" + ToHex(-c) else ToHex(c), pad)
  }

  function RgbToHex(r: Byte, g: Byte, b: Byte): string {
    ToPaddedHex(r) + ToPaddedHex(g) + ToPaddedHex(b)
  }

  /** Length of the longest prefix made of hex digits. */
  function HexPrefix(s: string): (n: nat)
    ensures n <= |s| && IsHex(s[..n])
    ensures n < |s| ==> !IsHexDigit(s[n])
  {
    if s != "" && IsHexDigit(s[0]) then
      var n := 1 + HexPrefix(s[1..]);
      assert s[..n] == [s[0]] + s[1..][..n - 1];
      n
    else 0
  }

  /** `parseInt(s, 16)`: the value of the longest hex prefix, None standing for NaN. */
  function ParseHex(s: string): Option<nat> {
    var n := HexPrefix(s);
    if n == 0 then None else Some(FromHex(s[..n]))
  }

  lemma {:induction false} FromHexToHex(n: nat)
    ensures FromHex(ToHex(n)) == n
  {
    if n >= 16 {
      FromHexToHex(n / 16);
      assert ToHex(n)[..|ToHex(n)| - 1] == ToHex(n / 16);
    }
  }

  lemma FromHexLeadingZero(s: string)
    requires IsHex(s)
    ensures IsHex("0" + s) && FromHex("0" + s) == FromHex(s)
  {
    if s != "" {
      FromHexLeadingZero(s[..|s| - 1]);
      assert ("0" + s)[..|s|] == "0" + s[..|s| - 1];
    }
  }

  lemma {:induction false} FromHexPadStart(s: string, pad: nat)
    requires IsHex(s)
    ensures FromHex(PadStart(s, pad)) == FromHex(s)
    decreases pad - |s|
  {
    if |s| < pad {
      FromHexLeadingZero(s);
      FromHexPadStart("0" + s, pad);
    }
  }

  lemma HexPrefixAll(s: string)
    requires IsHex(s)
    ensures HexPrefix(s) == |s|
  {
    var n := HexPrefix(s);
    if n < |s| {
      assert false;
    }
  }

  lemma {:induction false} HexPrefixStops(s: string, t: string)
    requires IsHex(s) && (t == "" || !IsHexDigit(t[0]))
    ensures HexPrefix(s + t) == |s|
  {
    if s == "" {
      assert s + t == t;
    } else {
      assert (s + t)[1..] == s[1..] + t;
      HexPrefixStops(s[1..], t);
    }
  }

  /** Parsing reads the hex digits up front and ignores what follows; without any there is no number. */
  lemma ParsePrefix(s: string, t: string)
    requires IsHex(s) && (t == "" || !IsHexDigit(t[0]))
    ensures ParseHex(s + t) == if s == "" then None else Some(FromHex(s))
  {
    HexPrefixStops(s, t);
    assert (s + t)[..|s|] == s;
  }

  /** The sixteen digits, the last six in either case. */
  lemma DigitValues(d: nat)
    requires d < 16
    ensures d < 10 ==> DigitValue("0123456789"[d]) == d
    ensures d >= 10 ==> DigitValue("abcdef"[d - 10]) == DigitValue("ABCDEF"[d - 10]) == d
  {
  }

  lemma ToHexLength(n: nat)
    ensures n < 256 <==> |ToHex(n)| <= 2
  {
    if n >= 16 {
      assert n / 16 < 16 <==> n < 256;
    }
  }

  /** Bytes are exactly the numbers printed in two characters that parse back to themselves. */
  lemma {:induction false} ByteRoundTrip(n: nat)
    ensures n < 256 <==> |ToPaddedHex(n)| == 2
    ensures ParseHex(ToPaddedHex(n)) == Some(n)
  {
    ToHexLength(n);
    FromHexToHex(n);
    FromHexPadStart(ToHex(n), 2);
    var s := PadStart(ToHex(n), 2);
    HexPrefixAll(s);
    assert s[..|s|] == s;
  }

  lemma TwoCharsBelow256(s: string)
    requires |s| <= 2 && ParseHex(s).Some?
    ensures ParseHex(s).value < 256
  {
    var t := s[..HexPrefix(s)];
    assert FromHex(t[..0]) == 0;
    if |t| == 2 {
      assert t[..1][..0] == "";
      assert FromHex(t[..1]) == 16 * FromHex("") + DigitValue(t[0]);
    }
  }

  /** Two more digits count 256 times less. */
  lemma FromHexTwo(s: string, t: string)
    requires IsHex(s) && IsHex(t) && |t| == 2
    ensures IsHex(s + t) && FromHex(s + t) == 256 * FromHex(s) + FromHex(t)
  {
    var all, one := s + t, s + t[..1];
    assert all[..|s| + 1] == one && one[..|s|] == s && t[..1][..0] == "";
    assert FromHex(one) == 16 * FromHex(s) + DigitValue(t[0]);
    assert FromHex(all) == 16 * FromHex(one) + DigitValue(t[1]);
    assert FromHex(t[..1]) == 16 * FromHex("") + DigitValue(t[0]);
  }

  lemma BytePrinted(n: nat)
    requires n < 256
    ensures IsHex(ToPaddedHex(n)) && |ToPaddedHex(n)| == 2 && FromHex(ToPaddedHex(n)) == n
  {
    ByteRoundTrip(n);
    FromHexToHex(n);
    FromHexPadStart(ToHex(n), 2);
  }

  /** A colour's name denotes its channels: red in the highest byte, then green, then blue. */
  lemma RgbToHexDenotes(r: Byte, g: Byte, b: Byte)
    ensures var name := RgbToHex(r, g, b);
      IsHex(name) && |name| == 6 && FromHex(name) == 65536 * r + 256 * g + b
  {
    BytePrinted(r);
    BytePrinted(g);
    BytePrinted(b);
    FromHexTwo(ToPaddedHex(r), ToPaddedHex(g));
    FromHexTwo(ToPaddedHex(r) + ToPaddedHex(g), ToPaddedHex(b));
  }

  lemma ChannelsUnique(r: Byte, g: Byte, b: Byte, r': Byte, g': Byte, b': Byte)
    requires 65536 * r + 256 * g + b == 65536 * r' + 256 * g' + b'
    ensures r == r' && g == g' && b == b'
  {
  }

  /** Distinct colours have distinct six-character names, so a palette key identifies its colour. */
  lemma {:induction false} RgbToHexInjective(r: Byte, g: Byte, b: Byte, r': Byte, g': Byte, b': Byte)
    ensures |RgbToHex(r, g, b)| == 6
    ensures RgbToHex(r, g, b) == RgbToHex(r', g', b') <==> r == r' && g == g' && b == b'
  {
    RgbToHexDenotes(r, g, b);
    RgbToHexDenotes(r', g', b');
    if RgbToHex(r, g, b) == RgbToHex(r', g', b') {
      ChannelsUnique(r, g, b, r', g', b');
    }
  }
}
