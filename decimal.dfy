/**
 * Decimal rendering of a non-negative integer, as a JavaScript template
 * literal (`${n}`) renders a whole number: no sign, no leading zeros.
 */
module Decimal {

  predicate IsDigit(c: char) {
    '0' <= c <= '9'
  }

  function DigitChar(d: nat): (c: char)
    requires d < 10
    ensures IsDigit(c)
  {
    ('0' as int + d) as char
  }

  function NatToString(n: nat): (s: string)
    ensures |s| >= 1
    ensures n >= 10 <==> |s| >= 2
    ensures forall i :: 0 <= i < |s| ==> IsDigit(s[i])
    decreases n
  {
    if n < 10 then [DigitChar(n)] else NatToString(n / 10) + [DigitChar(n % 10)]
  }

  /** Distinct numbers render as distinct strings. */
  lemma {:induction false} NatToStringInjective(a: nat, b: nat)
    requires NatToString(a) == NatToString(b)
    ensures a == b
    decreases a
  {
    var s := NatToString(a);
    if a >= 10 && b >= 10 {
      assert s[..|s| - 1] == NatToString(a / 10);
      assert NatToString(b)[..|s| - 1] == NatToString(b / 10);
      NatToStringInjective(a / 10, b / 10);
      assert DigitChar(a % 10) == s[|s| - 1] == DigitChar(b % 10);
    }
  }

  /**
   * Splitting at the first separator: two strings `x + [c] + y` agree only if
   * their parts agree, provided `c` does not occur in the leading parts.
   */
  lemma SplitAtSeparator(x1: string, y1: string, x2: string, y2: string, c: char)
    requires c !in x1 && c !in x2
    requires x1 + [c] + y1 == x2 + [c] + y2
    ensures x1 == x2 && y1 == y2
  {
    var s := x1 + [c] + y1;
    SeparatorPosition(x1, y1, c);
    SeparatorPosition(x2, y2, c);
    assert |x1| == |x2|;
    assert x1 == s[..|x1|] == x2;
    assert y1 == s[|x1| + 1..] == y2;
  }

  /** In `x + [c] + y` with `c` not in `x`, the first `c` is at position `|x|`. */
  lemma SeparatorPosition(x: string, y: string, c: char)
    requires c !in x
    ensures (x + [c] + y)[|x|] == c
    ensures forall k :: 0 <= k < |x| ==> (x + [c] + y)[k] != c
  {
    forall k | 0 <= k < |x| ensures (x + [c] + y)[k] != c {
      assert (x + [c] + y)[k] == x[k];
    }
  }
}
