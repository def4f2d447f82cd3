/**
  The pair labels of `compute_similarity`: the 1-based indices of the two texts
  written in decimal around " vs ". `ParseLabel` reads a label back, so that the
  round trip shows a label names exactly one pair.
*/
module Labels {
  import opened Wrappers

  predicate IsDigit(c: char)
  {
    '0' <= c <= '9'
  }

  predicate AllDigits(s: string)
  {
    forall k :: 0 <= k < |s| ==> IsDigit(s[k])
  }

  function DigitChar(d: nat): char
    requires d < 10
  {
    "0123456789"[d]
  }

  function DigitValue(c: char): nat
    requires IsDigit(c)
  {
    c as int - '0' as int
  }

  /** Decimal form of `n` without leading zeros, as Python's `str(n)`. */
  function NatToString(n: nat): (s: string)
    ensures s != [] && AllDigits(s)
    ensures s[0] == '0' <==> n == 0
  {
    if n < 10 then [DigitChar(n)] else NatToString(n / 10) + [DigitChar(n % 10)]
  }

  /** The number a string of decimal digits denotes. */
  function DecimalValue(s: string): nat
    requires AllDigits(s)
  {
    if s == [] then 0 else 10 * DecimalValue(s[..|s| - 1]) + DigitValue(s[|s| - 1])
  }

  lemma {:induction false} DecimalRoundTrip(n: nat)
    ensures DecimalValue(NatToString(n)) == n
  {
    if n >= 10 {
      var s := NatToString(n);
      assert s[..|s| - 1] == NatToString(n / 10);
      DecimalRoundTrip(n / 10);
    }
  }

  /** The label `"{a} vs {b}"`. */
  function PairLabel(a: nat, b: nat): string
  {
    NatToString(a) + " vs " + NatToString(b)
  }

  /** Length of the run of digits that starts `s`. */
  function LeadingDigits(s: string): (k: nat)
    ensures k <= |s|
    ensures AllDigits(s[..k])
    ensures k < |s| ==> !IsDigit(s[k])
  {
    if s == [] || !IsDigit(s[0]) then 0
    else
      var k := 1 + LeadingDigits(s[1..]);
      assert s[..k] == [s[0]] + s[1..][..k - 1];
      k
  }

  /** Reads `"{a} vs {b}"` back into `(a, b)`; `None` for anything else. */
  function ParseLabel(s: string): Option<(nat, nat)>
  {
    var k := LeadingDigits(s);
    if 0 < k && k + 4 < |s| && s[k..k + 4] == " vs " && AllDigits(s[k + 4..]) then
      Some((DecimalValue(s[..k]), DecimalValue(s[k + 4..])))
    else
      None
  }

  lemma LabelRoundTrip(a: nat, b: nat)
    ensures ParseLabel(PairLabel(a, b)) == Some((a, b))
  {
    var x, y := NatToString(a), NatToString(b);
    var s := PairLabel(a, b);
    var k := LeadingDigits(s);
    assert s[|x|] == ' ';
    assert k == |x|;
    assert s[..k] == x;
    assert s[k..k + 4] == " vs ";
    assert s[k + 4..] == y;
    DecimalRoundTrip(a);
    DecimalRoundTrip(b);
  }

  /** Different pairs never share a label. */
  lemma LabelInjective(a: nat, b: nat, c: nat, d: nat)
    requires PairLabel(a, b) == PairLabel(c, d)
    ensures a == c && b == d
  {
    LabelRoundTrip(a, b);
    LabelRoundTrip(c, d);
  }
}
