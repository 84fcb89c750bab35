/** Drawing the parts of a token from a pseudo-random number (packages/nouns-assets/src/utils.ts):
    the emulation of Solidity's shift and cast on hex strings. */
module SeedParts {
  import opened Arithmetic
  import opened Hex
  import opened Wrappers

  function Pow2(n: nat): (p: nat)
    ensures p > 0
  {
    if n == 0 then 1 else 2 * Pow2(n - 1)
  }

  function Pow16(n: nat): (p: nat)
    ensures p > 0
  {
    if n == 0 then 1 else 16 * Pow16(n - 1)
  }

  /** `n.shr(amount)` */
  function Shr(n: nat, amount: nat): nat {
    DivModNat(n, Pow2(amount));
    n / Pow2(amount)
  }

  /** The cast to an unsigned integer of so many bits. */
  function Cast(n: nat, bits: nat): nat {
    DivModNat(n, Pow2(bits));
    n % Pow2(bits)
  }

  function EvenPad(s: string): (r: string)
    ensures IsHex(s) ==> IsHex(r)
    ensures |r| == if |s| % 2 == 0 then |s| else |s| + 1
  {
    if |s| % 2 == 0 then s else "0" + s
  }

  /** The digits of `BigNumber.toHexString`: always an even number of them. */
  function EvenHex(n: nat): (s: string)
    ensures IsHex(s)
  {
    EvenPad(ToHex(n))
  }

  /** `s.substring(from)`, where a negative start counts as 0. */
  function SubstringFrom(s: string, from: int): string {
    if from <= 0 then s else if from <= |s| then s[from..] else ""
  }

  /** shiftRightAndCast, for a uint size in whole hex digits. */
  function ShiftRightAndCast(value: nat, shiftAmount: nat, uintSize: nat): string {
    var shifted := "0x" + EvenHex(Shr(value, shiftAmount));
    "0x" + SubstringFrom(shifted, |shifted| - uintSize / 4)
  }

  /** `BigNumber.from` of a hex string; None where it throws. */
  function ParseBig(s: string): Option<nat> {
    if "0x" <= s && |s| > 2 && IsHex(s[2..]) then Some(FromHex(s[2..])) else None
  }

  function Pick(n: nat, count: nat): (r: nat)
    requires count > 0
    ensures r < count
  {
    DivModNat(n, count);
    n % count
  }

  /** getPseudorandomPart; None where it throws, on a string that is no number or a count of zero. */
  function GetPseudorandomPart(pseudorandomness: nat, partCount: nat, shiftAmount: nat, uintSize: nat := 48)
    : (part: Option<nat>)
    ensures part.Some? ==> part.value < partCount
  {
    var n :- ParseBig(ShiftRightAndCast(pseudorandomness, shiftAmount, uintSize));
    if partCount == 0 then None else Some(Pick(n, partCount))
  }

  datatype Counts = Counts(backgrounds: nat, bodies: nat, accessories: nat, heads: nat, glasses: nat) {
    predicate Positive() {
      backgrounds > 0 && bodies > 0 && accessories > 0 && heads > 0 && glasses > 0
    }
  }

  datatype Seed = Seed(background: nat, body: nat, accessory: nat, head: nat, glasses: nat)

  /** The seed, unless drawing one of its parts throws. */
  function Assemble(background: Option<nat>, body: Option<nat>, accessory: Option<nat>, head: Option<nat>,
                    glasses: Option<nat>): Option<Seed> {
    var background :- background;
    var body :- body;
    var accessory :- accessory;
    var head :- head;
    var glasses :- glasses;
    Some(Seed(background, body, accessory, head, glasses))
  }

  /** getAlpSeedFromBlockHash, from the hash on; None where it throws. */
  function GetSeed(pseudorandomness: nat, c: Counts): Option<Seed> {
    Assemble(GetPseudorandomPart(pseudorandomness, c.backgrounds, 0),
             GetPseudorandomPart(pseudorandomness, c.bodies, 48),
             GetPseudorandomPart(pseudorandomness, c.accessories, 96),
             GetPseudorandomPart(pseudorandomness, c.heads, 144),
             GetPseudorandomPart(pseudorandomness, c.glasses, 192))
  }

  // ---------- Hex digits

  /** The last d digits of a hex string denote the remainder modulo 16^d. */
  lemma {:induction false} FromHexSuffix(s: string, d: nat)
    requires IsHex(s) && d <= |s|
    ensures FromHex(s[|s| - d..]) < Pow16(d)
    ensures FromHex(s) == FromHex(s[..|s| - d]) * Pow16(d) + FromHex(s[|s| - d..])
  {
    if d == 0 {
      assert s[..|s|] == s;
    } else {
      var init, tail := s[..|s| - 1], s[|s| - d..];
      FromHexSuffix(init, d - 1);
      assert tail[..|tail| - 1] == init[|init| - (d - 1)..];
      assert init[..|init| - (d - 1)] == s[..|s| - d];
      Rescale(FromHex(s[..|s| - d]), Pow16(d - 1), FromHex(tail[..|tail| - 1]), DigitValue(s[|s| - 1]));
    }
  }

  lemma Rescale(a: nat, p: nat, b: nat, digit: nat)
    ensures 16 * (a * p + b) + digit == a * (16 * p) + (16 * b + digit)
  {
  }

  lemma LastDigits(s: string, d: nat)
    requires IsHex(s) && d <= |s|
    ensures FromHex(s[|s| - d..]) == FromHex(s) % Pow16(d)
  {
    FromHexSuffix(s, d);
    DivModUnique(Pow16(d), FromHex(s[..|s| - d]), FromHex(s[|s| - d..]));
  }

  /** A number has more than k digits exactly from 16^k on. */
  lemma {:induction false} HexLength(n: nat, k: nat)
    requires k > 0
    ensures |ToHex(n)| > k <==> n >= Pow16(k)
  {
    if k == 1 {
      assert Pow16(1) == 16 * Pow16(0);
      assert |ToHex(n)| > 1 <==> n >= 16;
    } else {
      if n >= 16 {
        HexLength(n / 16, k - 1);
      } else {
        assert Pow16(k) >= 16 by { assert Pow16(k - 1) >= 1; }
      }
      var p := Pow16(k - 1);
      assert n / 16 >= p <==> n >= 16 * p;
    }
  }

  lemma EvenHexValue(n: nat)
    ensures FromHex(EvenHex(n)) == n && |EvenHex(n)| % 2 == 0 && |EvenHex(n)| >= 2
  {
    FromHexToHex(n);
    EvenPadValue(ToHex(n));
  }

  lemma EvenPadValue(s: string)
    requires IsHex(s)
    ensures FromHex(EvenPad(s)) == FromHex(s)
  {
    FromHexLeadingZero(s);
  }

  /** Padded to an even length, a number has at least d digits (d even) exactly from 16^(d - 2) on. */
  lemma EvenHexLength(n: nat, d: nat)
    requires d % 2 == 0 && d > 2
    ensures |EvenHex(n)| >= d <==> n >= Pow16(d - 2)
  {
    HexLength(n, d - 2);
  }

  lemma {:induction false} Pow16IsPow2(d: nat)
    ensures Pow16(d) == Pow2(4 * d)
  {
    if d > 0 {
      Pow16IsPow2(d - 1);
      assert Pow2(4 * d) == 2 * Pow2(4 * d - 1) == 4 * Pow2(4 * d - 2);
      assert Pow2(4 * d - 2) == 2 * Pow2(4 * d - 3) == 4 * Pow2(4 * d - 4);
    }
  }

  lemma Doubled(x: nat, y: nat)
    ensures 2 * (x * y) == (2 * x) * y
  {
  }

  lemma {:induction false} Pow2Sum(a: nat, b: nat)
    ensures Pow2(a + b) == Pow2(a) * Pow2(b)
  {
    if a > 0 {
      Pow2Sum(a - 1, b);
      Doubled(Pow2(a - 1), Pow2(b));
    }
  }

  // ---------- Shift and cast

  /** Cutting d characters off the end of a prefixed hex string: with fewer than d digits the cut
      reaches into the prefix, and the result is no number. */
  lemma CutDigits(digits: string, d: nat)
    requires IsHex(digits) && d > 0
    ensures var shifted := "0x" + digits;
      ParseBig("0x" + SubstringFrom(shifted, |shifted| - d)) ==
        if |digits| >= d then Some(FromHex(digits) % Pow16(d)) else None
  {
    var cut := SubstringFrom("0x" + digits, |digits| + 2 - d);
    assert ("0x" + cut)[2..] == cut;
    if |digits| >= d {
      assert cut == digits[|digits| - d..];
      LastDigits(digits, d);
    } else if |digits| + 2 - d <= 0 {
      assert cut[1] == 'x' && !IsHexDigit(cut[1]);
    } else {
      assert cut[0] == 'x' && !IsHexDigit(cut[0]);
    }
  }

  lemma CutNumber(n: nat, d: nat)
    requires d > 0
    ensures var shifted := "0x" + EvenHex(n);
      ParseBig("0x" + SubstringFrom(shifted, |shifted| - d)) ==
        if |EvenHex(n)| >= d then Some(Cast(n, 4 * d)) else None
  {
    CutDigits(EvenHex(n), d);
    EvenHexValue(n);
    Pow16IsPow2(d);
  }

  /** The emulation is right, (v >> s) mod 2^u, exactly when the shifted number has u/4 digits or more
      in its even-padded form. */
  lemma ShiftAndCast(value: nat, shiftAmount: nat, uintSize: nat)
    requires uintSize % 4 == 0 && uintSize > 0
    ensures var shifted := Shr(value, shiftAmount);
      ParseBig(ShiftRightAndCast(value, shiftAmount, uintSize)) ==
        if |EvenHex(shifted)| >= uintSize / 4 then Some(Cast(shifted, uintSize)) else None
  {
    ShiftAndCastDigits(value, shiftAmount, uintSize, uintSize / 4);
  }

  lemma ShiftAndCastDigits(value: nat, shiftAmount: nat, uintSize: nat, d: nat)
    requires uintSize == 4 * d && d > 0
    ensures var shifted := Shr(value, shiftAmount);
      ParseBig(ShiftRightAndCast(value, shiftAmount, uintSize)) ==
        if |EvenHex(shifted)| >= d then Some(Cast(shifted, uintSize)) else None
  {
    assert uintSize / 4 == d;
    CutNumber(Shr(value, shiftAmount), d);
  }

  /** For the 48-bit windows of the seeds, twelve digits are there exactly from 2^40 on. */
  lemma Window(value: nat, shiftAmount: nat)
    ensures var shifted := Shr(value, shiftAmount);
      ParseBig(ShiftRightAndCast(value, shiftAmount, 48)) ==
        if shifted >= Pow2(40) then Some(Cast(shifted, 48)) else None
  {
    ShiftAndCast(value, shiftAmount, 48);
    EvenHexLength(Shr(value, shiftAmount), 12);
    Pow16IsPow2(10);
  }

  /** The i-th window of the number, w bits wide. */
  function Bits(value: nat, w: nat, i: nat): nat {
    Cast(Shr(value, w * i), w)
  }

  lemma DivPow2(value: nat, a: nat, b: nat)
    ensures Shr(value, a) >= Pow2(b) <==> value >= Pow2(a + b)
  {
    Pow2Sum(a, b);
    var p, q := Pow2(a), Pow2(b);
    DivAtLeast(value, p, q);
  }

  lemma DivAtLeast(n: nat, p: nat, q: nat)
    requires p > 0
    ensures n / p >= q <==> n >= p * q
  {
    var k, r := n / p, n % p;
    assert n == k * p + r;
    assert n - p * q == (k - q) * p + r;
    MulAtLeast(k - q, p);
    if k == q { assert (k - q) * p == 0; }
  }

  lemma {:induction false} Pow2Monotone(a: nat, b: nat)
    requires a <= b
    ensures Pow2(a) <= Pow2(b)
  {
    if a < b {
      Pow2Monotone(a, b - 1);
    }
  }

  lemma WindowReached(p: nat, shift: nat, d: nat)
    requires d > 2 && d % 2 == 0
    ensures ParseBig(ShiftRightAndCast(p, shift, 4 * d)) ==
      if p >= Pow2(shift + 4 * (d - 2)) then Some(Cast(Shr(p, shift), 4 * d)) else None
  {
    ShiftAndCastDigits(p, shift, 4 * d, d);
    EvenHexLength(Shr(p, shift), d);
    Pow16IsPow2(d - 2);
    DivPow2(p, shift, 4 * (d - 2));
  }

  lemma PartOf(p: nat, count: nat, shift: nat, window: Option<nat>)
    requires ParseBig(ShiftRightAndCast(p, shift, 48)) == window
    ensures var part := GetPseudorandomPart(p, count, shift);
      (part.Some? <==> count > 0 && window.Some?) && (part.Some? ==> part.value == window.value % count)
  {
  }

  /** One draw: what the number must reach, and what comes out. */
  lemma Part(p: nat, count: nat, shift: nat)
    ensures var part := GetPseudorandomPart(p, count, shift);
      && (part.Some? <==> count > 0 && p >= Pow2(shift + 40))
      && (part.Some? ==> part.value == Cast(Shr(p, shift), 48) % count)
  {
    WindowReached(p, shift, 12);
    PartOf(p, count, shift, if p >= Pow2(shift + 40) then Some(Cast(Shr(p, shift), 48)) else None);
  }

  /** A draw that needs at most the limit comes out of every number that reaches it. */
  lemma PartFrom(p: nat, count: nat, shift: nat, limit: nat)
    requires count > 0 && shift + 40 <= limit && p >= Pow2(limit)
    ensures GetPseudorandomPart(p, count, shift).Some?
    ensures GetPseudorandomPart(p, count, shift).value == Cast(Shr(p, shift), 48) % count
  {
    Part(p, count, shift);
    Pow2Monotone(shift + 40, limit);
  }

  /** Each part is the remainder of its window on division by the number of parts. */
  predicate FromWindows(s: Seed, p: nat, c: Counts)
    requires c.Positive()
  {
    && s.background == Bits(p, 48, 0) % c.backgrounds
    && s.body == Bits(p, 48, 1) % c.bodies
    && s.accessory == Bits(p, 48, 2) % c.accessories
    && s.head == Bits(p, 48, 3) % c.heads
    && s.glasses == Bits(p, 48, 4) % c.glasses
  }

  lemma SeedFrom(p: nat, c: Counts, limit: nat)
    requires c.Positive() && 232 <= limit && p >= Pow2(limit)
    ensures GetSeed(p, c).Some? && FromWindows(GetSeed(p, c).value, p, c)
  {
    PartFrom(p, c.backgrounds, 0, limit);
    PartFrom(p, c.bodies, 48, limit);
    PartFrom(p, c.accessories, 96, limit);
    PartFrom(p, c.heads, 144, limit);
    PartFrom(p, c.glasses, 192, limit);
  }

  /** Without parts to choose from there is no seed. */
  lemma SeedNeedsParts(p: nat, c: Counts)
    requires !c.Positive()
    ensures GetSeed(p, c) == None
  {
    Part(p, c.backgrounds, 0);
    Part(p, c.bodies, 48);
    Part(p, c.accessories, 96);
    Part(p, c.heads, 144);
    Part(p, c.glasses, 192);
  }

  /** A seed comes out exactly of numbers of at least 2^232, if there are parts to choose from; each
      part is then the matching window of the number, modulo the number of parts. */
  lemma SeedExact(p: nat, c: Counts)
    ensures GetSeed(p, c).Some? <==> c.Positive() && p >= Pow2(232)
    ensures GetSeed(p, c).Some? ==> FromWindows(GetSeed(p, c).value, p, c)
  {
    if !c.Positive() {
      SeedNeedsParts(p, c);
    } else if p >= Pow2(232) {
      SeedFrom(p, c, 232);
    } else {
      Part(p, c.glasses, 192);
    }
  }

  /** The smallest hash has no seed. */
  lemma NoSeedOfZero(c: Counts)
    ensures GetSeed(0, c) == None
  {
    SeedExact(0, c);
  }

  /** Every part of a seed is below its count. */
  lemma SeedInRange(p: nat, c: Counts)
    requires GetSeed(p, c).Some?
    ensures var s := GetSeed(p, c).value;
      s.background < c.backgrounds && s.body < c.bodies && s.accessory < c.accessories
      && s.head < c.heads && s.glasses < c.glasses
  {
    SeedExact(p, c);
  }

  lemma Recompose(b: nat, w: nat, q: nat)
    requires w > 0
    ensures b * q == b * w * (q / w) + b * (q % w)
  {
    var k, r := q / w, q % w;
    assert q == w * k + r;
    assert b * (w * k + r) == b * w * k + b * r;
  }

  /** The number made of the first n windows. */
  ghost function Composed(p: nat, w: nat, n: nat): nat {
    if n == 0 then 0 else Composed(p, w, n - 1) + Pow2(w * (n - 1)) * Bits(p, w, n - 1)
  }

  /** The windows do not overlap and leave nothing out: they are the digits of the number in base 2^w. */
  lemma {:induction false} WindowsCompose(p: nat, w: nat, n: nat)
    ensures p == Composed(p, w, n) + Pow2(w * n) * Shr(p, w * n)
  {
    if n == 0 {
      assert Pow2(w * 0) == 1;
    } else {
      WindowsCompose(p, w, n - 1);
      assert w * n == w * (n - 1) + w;
      Pow2Sum(w * (n - 1), w);
      DivTwice(p, Pow2(w * (n - 1)), Pow2(w));
      Recompose(Pow2(w * (n - 1)), Pow2(w), Shr(p, w * (n - 1)));
    }
  }

  lemma DivTwice(n: nat, a: nat, b: nat)
    requires a > 0 && b > 0
    ensures a * b > 0 && n / a / b == n / (a * b)
  {
    DivModNat(n, a);
    var q, s := n / a, n % a;
    DivModNat(q, b);
    var k, r := q / b, q % b;
    MulMonotone(r + 1, b, a);
    assert a * (r + 1) == a * r + a;
    assert a * (b * k + r) == k * (a * b) + a * r;
    DivModUnique(a * b, k, a * r + s);
  }
}
