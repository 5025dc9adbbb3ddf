/** What JavaScript's `<` and `<=` do to two ethers `BigNumber` objects.
    A `BigNumber` has no `valueOf`, so the relational operators turn both
    operands into their `toString()` (plain decimal digits) and compare the
    strings code unit by code unit. This agrees with the numeric order
    whenever both numbers have the same count of digits; with different
    counts it may or may not. */
module JsCompare {
  import opened Amounts

  function DigitChar(d: nat): (c: char)
    requires d < 10
    ensures '0' <= c <= '9'
  {
    (48 + d) as char
  }

  /** `BigNumber.toString()` of a non-negative value: decimal digits, no
      leading zero. */
  function DecimalString(n: nat): (s: string)
    ensures 1 <= |s|
    ensures n < 10 <==> |s| == 1
    ensures forall i :: 0 <= i < |s| ==> '0' <= s[i] <= '9'
    ensures 0 < n ==> s[0] != '0'
    decreases n
  {
    if n < 10 then [DigitChar(n)] else DecimalString(n / 10) + [DigitChar(n % 10)]
  }

  /** ECMAScript's IsLessThan on two strings without astral characters
      (here, digit strings), where a `char` is one UTF-16 code unit: a
      proper prefix is smaller, otherwise the first differing character
      decides. */
  function StringLess(a: string, b: string): (r: bool)
    ensures a == b ==> !r
    ensures |a| < |b| && a == b[..|a|] ==> r
    decreases |a|
  {
    if |b| == 0 then false
    else if |a| == 0 then true
    else if a[0] != b[0] then a[0] < b[0]
    else StringLess(a[1..], b[1..])
  }

  /** String `<` is a strict total order: of two different strings exactly
      one is the smaller. */
  lemma {:induction false} StringLessTotal(a: string, b: string)
    ensures a != b ==> StringLess(a, b) || StringLess(b, a)
    ensures !(StringLess(a, b) && StringLess(b, a))
    decreases |a|
  {
    if |a| > 0 && |b| > 0 && a[0] == b[0] {
      StringLessTotal(a[1..], b[1..]);
      if a[1..] == b[1..] {
        assert a == [a[0]] + a[1..] && b == [b[0]] + b[1..];
      }
    }
  }

  /** `x < y` on two BigNumbers, as written: irreflexive and asymmetric
      like the numeric order, but not the same relation. */
  function BigNumberLessAsWritten(x: nat, y: nat): (r: bool)
    ensures x == y ==> !r
    ensures r ==> !StringLess(DecimalString(y), DecimalString(x))
  {
    StringLessTotal(DecimalString(x), DecimalString(y));
    StringLess(DecimalString(x), DecimalString(y))
  }

  /** `x <= y` on two BigNumbers, as written: `!(y < x)`, which is the
      as-written `<` or equality. */
  function BigNumberLessEqAsWritten(x: nat, y: nat): (r: bool)
    ensures r <==> BigNumberLessAsWritten(x, y) || x == y
  {
    StringLessTotal(DecimalString(x), DecimalString(y));
    DecimalStringInjective(x, y);
    !StringLess(DecimalString(y), DecimalString(x))
  }

  /** Different numbers have different decimal strings. */
  lemma DecimalStringInjective(x: nat, y: nat)
    ensures DecimalString(x) == DecimalString(y) ==> x == y
  {
    if DecimalString(x) == DecimalString(y) {
      SameLengthCompareAgrees(x, y);
    }
  }

  function Pow10(k: nat): (r: nat)
    ensures 1 <= r
  {
    if k == 0 then 1 else 10 * Pow10(k - 1)
  }

  /** The digit a number's decimal string starts with. */
  function LeadingDigit(n: nat): (d: nat)
    ensures d < 10
    ensures 1 <= n ==> 1 <= d
    decreases n
  {
    if n < 10 then n else LeadingDigit(n / 10)
  }

  lemma {:induction false} DecimalStringStartsWithLeadingDigit(n: nat)
    ensures DecimalString(n)[0] == DigitChar(LeadingDigit(n))
    decreases n
  {
    if n >= 10 {
      DecimalStringStartsWithLeadingDigit(n / 10);
    }
  }

  lemma {:induction false} LeadingDigitOfScaled(d: nat, k: nat)
    requires 1 <= d < 10
    ensures LeadingDigit(d * Pow10(k)) == d
  {
    if k > 0 {
      var n := d * Pow10(k);
      assert n == 10 * (d * Pow10(k - 1));
      assert n / 10 == d * Pow10(k - 1);
      LeadingDigitOfScaled(d, k - 1);
    }
  }

  lemma StringLessByFirstChar(a: string, b: string)
    requires 1 <= |a| && 1 <= |b| && a[0] < b[0]
    ensures StringLess(a, b) && !StringLess(b, a)
  {
  }

  /** As written, a number with the smaller leading digit is the smaller
      one, whatever the counts of digits. */
  lemma LeadingDigitDecides(n1: nat, n2: nat)
    requires LeadingDigit(n1) < LeadingDigit(n2)
    ensures BigNumberLessAsWritten(n1, n2) && !BigNumberLessAsWritten(n2, n1)
  {
    DecimalStringStartsWithLeadingDigit(n1);
    DecimalStringStartsWithLeadingDigit(n2);
    StringLessByFirstChar(DecimalString(n1), DecimalString(n2));
  }

  /** Comparing `d1 * 10^k1` with `d2 * 10^k2` as written only looks at the
      leading digits `d1` and `d2`. */
  lemma ScaledCompareAsWritten(d1: nat, k1: nat, d2: nat, k2: nat)
    requires 1 <= d1 < d2 < 10
    ensures BigNumberLessAsWritten(d1 * Pow10(k1), d2 * Pow10(k2))
    ensures !BigNumberLessAsWritten(d2 * Pow10(k2), d1 * Pow10(k1))
  {
    LeadingDigitOfScaled(d1, k1);
    LeadingDigitOfScaled(d2, k2);
    LeadingDigitDecides(d1 * Pow10(k1), d2 * Pow10(k2));
  }

  /** The dust check `afterSwapTokenBalance <= EPSILON` as written: a
      remaining balance of 5 * 10^13 wei, half the threshold, is not seen as
      dust, because "50000000000000" sorts after "100000000000000". */
  lemma SkipGuardAsWrittenMissesDust(remaining: nat)
    requires remaining == 50_000_000_000_000
    ensures remaining <= EPSILON
    ensures !BigNumberLessEqAsWritten(remaining, EPSILON)
  {
    assert LeadingDigit(EPSILON) == 1;
    assert LeadingDigit(remaining) == 5;
    LeadingDigitDecides(EPSILON, remaining);
  }

  /** The swap check `afterSwapEtherBalance < afterClaimEtherBalance` as
      written: a swap that raised the balance from 0.9 to 1 ether is taken as
      a loss, and one that lowered it from 1 to 0.9 ether is not. */
  lemma SwapGuardAsWrittenMisorders(lower: nat, higher: nat)
    requires lower == 900_000_000_000_000_000 && higher == 1_000_000_000_000_000_000
    ensures lower < higher
    ensures BigNumberLessAsWritten(higher, lower)
    ensures !BigNumberLessAsWritten(lower, higher)
  {
    assert LeadingDigit(higher) == LeadingDigit(1_000_000_000);
    assert LeadingDigit(1_000_000_000) == 1;
    assert LeadingDigit(lower) == LeadingDigit(900_000_000);
    assert LeadingDigit(900_000_000) == 9;
    LeadingDigitDecides(higher, lower);
  }

  lemma {:induction false} StringLessAppend(a: string, b: string, c: char, d: char)
    requires |a| == |b|
    ensures StringLess(a + [c], b + [d]) == (StringLess(a, b) || (a == b && c < d))
    decreases |a|
  {
    if |a| == 0 {
      assert a + [c] == [c] && b + [d] == [d];
    } else {
      assert (a + [c])[0] == a[0] && (b + [d])[0] == b[0];
      if a[0] == b[0] {
        assert (a + [c])[1..] == a[1..] + [c];
        assert (b + [d])[1..] == b[1..] + [d];
        StringLessAppend(a[1..], b[1..], c, d);
        assert a == b <==> a[1..] == b[1..] by {
          if a[1..] == b[1..] { assert a == [a[0]] + a[1..] && b == [b[0]] + b[1..]; }
        }
      }
    }
  }

  lemma AppendEq(a: string, b: string, c: char, d: char)
    requires |a| == |b|
    ensures a + [c] == b + [d] <==> a == b && c == d
  {
    if a + [c] == b + [d] {
      assert (a + [c])[..|a|] == a && (b + [d])[..|b|] == b;
      assert (a + [c])[|a|] == c && (b + [d])[|b|] == d;
    }
  }

  /** The as-written comparison is the numeric one whenever both numbers
      have the same count of digits (and then `toString` is injective). */
  lemma {:induction false} SameLengthCompareAgrees(x: nat, y: nat)
    requires |DecimalString(x)| == |DecimalString(y)|
    ensures BigNumberLessAsWritten(x, y) <==> x < y
    ensures DecimalString(x) == DecimalString(y) <==> x == y
    decreases x
  {
    if x < 10 {
      assert y < 10;
      var c, d := DigitChar(x), DigitChar(y);
      assert DecimalString(x) == [c] && DecimalString(y) == [d];
      assert [c][1..] == [] && [d][1..] == [];
      assert StringLess([c], [d]) <==> c < d;
    } else {
      assert y >= 10;
      var a, b := DecimalString(x / 10), DecimalString(y / 10);
      var c, d := DigitChar(x % 10), DigitChar(y % 10);
      assert DecimalString(x) == a + [c] && DecimalString(y) == b + [d];
      SameLengthCompareAgrees(x / 10, y / 10);
      StringLessAppend(a, b, c, d);
      AppendEq(a, b, c, d);
      assert c < d <==> x % 10 < y % 10;
      assert c == d <==> x % 10 == y % 10;
      assert x == 10 * (x / 10) + x % 10 && y == 10 * (y / 10) + y % 10;
    }
  }
}
