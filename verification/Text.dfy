/**
 Decimal numerals and the separation of a string at its last dash: the text that
 workflow identifiers are made of.
 */
module Text {

  function Digit(d: nat): char
    requires d < 10
  {
    ('0' as int + d) as char
  }

  function DigitValue(c: char): int { c as int - '0' as int }

  /** The usual decimal numeral, without leading zeros. */
  function Decimal(n: nat): (s: string)
    ensures s != [] && NoDash(s)
  {
    if n < 10 then [Digit(n)] else Decimal(n / 10) + [Digit(n % 10)]
  }

  function Value(s: string): int {
    if s == [] then 0 else Value(s[..|s| - 1]) * 10 + DigitValue(s[|s| - 1])
  }

  predicate NoDash(s: string) {
    '-' !in s
  }

  lemma {:induction false} DecimalRoundTrip(n: nat)
    ensures Value(Decimal(n)) == n
  {
    var s := Decimal(n);
    if n < 10 {
      assert s[..|s| - 1] == [];
    } else {
      DecimalRoundTrip(n / 10);
      assert s[..|s| - 1] == Decimal(n / 10);
    }
  }

  /** A fixed-width numeral with leading zeros. */
  function Padded(n: nat, width: nat): (s: string)
    ensures |s| == width
  {
    if width == 0 then [] else Padded(n / 10, width - 1) + [Digit(n % 10)]
  }

  /** `n` has at most `width` digits. */
  predicate Fits(n: nat, width: nat) {
    if width == 0 then n == 0 else Fits(n / 10, width - 1)
  }

  lemma {:induction false} PaddedInjective(m: nat, n: nat, width: nat)
    requires Fits(m, width) && Fits(n, width) && Padded(m, width) == Padded(n, width)
    ensures m == n
  {
    if width > 0 {
      var a, b := Padded(m, width), Padded(n, width);
      assert a[..width - 1] == Padded(m / 10, width - 1) && b[..width - 1] == Padded(n / 10, width - 1);
      assert a[width - 1] == Digit(m % 10) && b[width - 1] == Digit(n % 10);
      PaddedInjective(m / 10, n / 10, width - 1);
    }
  }

  /** The position of the last dash, or -1. */
  function LastDash(s: string): (i: int)
    ensures -1 <= i < |s|
    ensures i >= 0 ==> s[i] == '-'
    ensures forall k :: i < k < |s| ==> s[k] != '-'
  {
    if s == [] then -1
    else if s[|s| - 1] == '-' then |s| - 1
    else LastDash(s[..|s| - 1])
  }

  /** What precedes and what follows the last dash can be told apart. */
  lemma LastDashSplits(a: string, b: string)
    requires NoDash(b)
    ensures var s := a + "-" + b; LastDash(s) == |a| && s[..|a|] == a && s[|a| + 1..] == b
  {
    var s := a + "-" + b;
    assert s[|a|] == '-';
    assert forall k :: |a| < k < |s| ==> s[k] == b[k - |a| - 1];
  }

  lemma SplitUnique(a: string, b: string, c: string, d: string)
    requires NoDash(b) && NoDash(d) && a + "-" + b == c + "-" + d
    ensures a == c && b == d
  {
    LastDashSplits(a, b);
    LastDashSplits(c, d);
  }

  function AfterLastDash(s: string): string { s[LastDash(s) + 1..] }

  ghost predicate IsNumeral(s: string) { exists n: nat :: s == Decimal(n) }

  lemma SplitAtLastDash(s: string)
    requires !NoDash(s)
    ensures LastDash(s) >= 0 && s == s[..LastDash(s)] + "-" + AfterLastDash(s) && NoDash(AfterLastDash(s))
  {
    assert LastDash(s) < 0 ==> NoDash(s);
  }

  /** The last dash of a string decides, however much precedes it. */
  lemma LastDashStays(a: string, b: string)
    ensures AfterLastDash(a + "-" + b) == AfterLastDash(b)
  {
    if NoDash(b) {
      LastDashSplits(a, b);
      assert LastDash(b) == -1;
    } else {
      var c, d := b[..LastDash(b)], AfterLastDash(b);
      SplitAtLastDash(b);
      LastDashSplits(a + "-" + c, d);
      assert a + "-" + b == (a + "-" + c) + "-" + d;
    }
  }
}
