/**
 * Rendering of numbers as text the way JavaScript does it for non-negative
 * integers: `String(n)` / template literals give base 10, `BigInt(n).toString(16)`
 * gives lower-case base 16. Also `String.prototype.padStart` with a one-character
 * pad and ASCII `toLowerCase`.
 */
module Digits {

  const DIGITS := "0123456789abcdef"

  function Digit(d: nat): char
    requires d < 16
  {
    DIGITS[d]
  }

  /** Inverse of `Digit` on the digit characters (anything else reads as 0). */
  function DigitValue(c: char): nat
  {
    if '0' <= c <= '9' then (c - '0') as nat
    else if 'a' <= c <= 'f' then (c - 'a') as nat + 10
    else 0
  }

  /** Every character of `s` is a digit of `base`. */
  predicate IsDigitString(s: string, base: nat)
    requires 2 <= base <= 16
  {
    forall i :: 0 <= i < |s| ==> s[i] in DIGITS[..base]
  }

  lemma DigitRoundTrip(d: nat)
    requires d < 16
    ensures DigitValue(Digit(d)) == d
  {
  }

  /** `n.toString(base)`: most significant digit first, no leading zeros. */
  function ToBase(n: nat, base: nat): (s: string)
    requires 2 <= base <= 16
    ensures |s| >= 1 && IsDigitString(s, base)
    decreases n
  {
    if n < base then [Digit(n)] else ToBase(n / base, base) + [Digit(n % base)]
  }

  /** The value of a digit string read in `base`. */
  function ValueIn(s: string, base: nat): nat
  {
    if s == [] then 0 else ValueIn(s[..|s| - 1], base) * base + DigitValue(s[|s| - 1])
  }

  lemma ValueInSnoc(t: string, c: char, base: nat)
    ensures ValueIn(t + [c], base) == ValueIn(t, base) * base + DigitValue(c)
  {
    assert (t + [c])[..|t|] == t;
  }

  lemma DivDecreases(n: nat, base: nat)
    requires 2 <= base <= n
    ensures n / base < n
  {
    DivMod(n, base);
    MulMonotone(n / base, 2, base);
  }

  lemma MulMonotone(q: nat, a: nat, b: nat)
    requires a <= b
    ensures q * a <= q * b
  {
  }

  lemma DivMod(n: nat, base: nat)
    requires 2 <= base
    ensures (n / base) * base + n % base == n
  {
  }

  lemma {:induction false} ToBaseRoundTrip(n: nat, base: nat)
    requires 2 <= base <= 16
    ensures ValueIn(ToBase(n, base), base) == n
    decreases n
  {
    if n < base {
      DigitRoundTrip(n);
      ValueInSnoc([], Digit(n), base);
      assert [] + [Digit(n)] == ToBase(n, base);
    } else {
      var q, r := n / base, n % base;
      var t := ToBase(q, base);
      assert ToBase(n, base) == t + [Digit(r)];
      DivDecreases(n, base);
      ToBaseRoundTrip(q, base);
      DigitRoundTrip(r);
      ValueInSnoc(t, Digit(r), base);
      DivMod(n, base);
    }
  }

  /** Different numbers are rendered as different strings. */
  lemma ToBaseInjective(m: nat, n: nat, base: nat)
    requires 2 <= base <= 16
    requires ToBase(m, base) == ToBase(n, base)
    ensures m == n
  {
    ToBaseRoundTrip(m, base);
    ToBaseRoundTrip(n, base);
  }

  function Repeat(c: char, k: nat): (s: string)
    ensures |s| == k && forall i :: 0 <= i < k ==> s[i] == c
  {
    if k == 0 then [] else Repeat(c, k - 1) + [c]
  }

  /** `s.padStart(width, c)` for a single pad character `c`. */
  function PadStart(s: string, width: nat, c: char): (r: string)
    ensures |r| == if |s| >= width then |s| else width
    ensures r[|r| - |s|..] == s
    ensures forall i :: 0 <= i < |r| - |s| ==> r[i] == c
  {
    if |s| >= width then s else Repeat(c, width - |s|) + s
  }

  /** Leading zeros do not change the value of a digit string. */
  lemma {:induction false} LeadingZerosValue(k: nat, s: string, base: nat)
    ensures ValueIn(Repeat('0', k) + s, base) == ValueIn(s, base)
    decreases |s| + k
  {
    var z := Repeat('0', k);
    if s == [] {
      assert z + s == z;
      if k > 0 {
        assert z[..k - 1] == Repeat('0', k - 1);
        LeadingZerosValue(k - 1, [], base);
        assert Repeat('0', k - 1) + [] == Repeat('0', k - 1);
      }
    } else {
      assert (z + s)[..|z + s| - 1] == z + s[..|s| - 1];
      LeadingZerosValue(k, s[..|s| - 1], base);
    }
  }

  /** The decimal text of an integer, as JavaScript's `String(n)` writes it. */
  function IntToDecimal(i: int): string
  {
    if i < 0 then "-" + ToBase(-i, 10) else ToBase(i, 10)
  }

  function LowerChar(c: char): char
  {
    if 'A' <= c <= 'Z' then (c - 'A' + 'a') as char else c
  }

  /** ASCII `toLowerCase` (addresses are ASCII hex). */
  function Lower(s: string): (r: string)
    ensures |r| == |s|
    ensures forall i :: 0 <= i < |s| ==> r[i] == LowerChar(s[i])
  {
    if s == [] then [] else [LowerChar(s[0])] + Lower(s[1..])
  }

  predicate EqualsIgnoringCase(a: string, b: string)
  {
    Lower(a) == Lower(b)
  }
}
