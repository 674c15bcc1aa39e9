/** Decimal text: what `%u` prints and what `strtoul` reads. */
module Decimal {
  import opened Bytes

  predicate IsDigit(c: char) {
    '0' <= c <= '9'
  }

  function DigitOf(d: nat): (c: char)
    requires d < 10
    ensures IsDigit(c) && ValueOf(c) == d
  {
    '0' + d as char
  }

  function ValueOf(c: char): (d: nat)
    ensures d < 10
  {
    if IsDigit(c) then (c - '0') as nat else 0
  }

  function Dec(n: nat): (s: string)
    ensures s != "" && forall k | 0 <= k < |s| :: IsDigit(s[k])
  {
    if n < 10 then [DigitOf(n)] else Dec(n / 10) + [DigitOf(n % 10)]
  }

  /** The number the digits of `s` from `a` up to `b` spell. */
  function Value(s: string, a: nat, b: nat): nat
    requires b <= |s|
    decreases b
  {
    if b <= a then 0 else 10 * Value(s, a, b - 1) + ValueOf(s[b - 1])
  }

  /** It depends on those digits alone. */
  lemma {:induction false} ValueMoves(s: string, a: nat, t: string, c: nat, n: nat)
    requires a + n <= |s| && c + n <= |t| && s[a..a + n] == t[c..c + n]
    ensures Value(s, a, a + n) == Value(t, c, c + n)
  {
    if n > 0 {
      assert s[a..a + n - 1] == s[a..a + n][..n - 1] == t[c..c + n][..n - 1] == t[c..c + n - 1];
      assert s[a + n - 1] == s[a..a + n][n - 1] == t[c..c + n][n - 1] == t[c + n - 1];
      ValueMoves(s, a, t, c, n - 1);
    }
  }

  lemma {:induction false} ValueOfDec(n: nat)
    ensures Value(Dec(n), 0, |Dec(n)|) == n
  {
    if n >= 10 {
      ValueOfDec(n / 10);
      assert Dec(n)[..|Dec(n)| - 1] == Dec(n / 10);
      ValueMoves(Dec(n), 0, Dec(n / 10), 0, |Dec(n / 10)|);
    } else {
      assert Value(Dec(n), 0, 0) == 0;
    }
  }

  /** Ten to the power of `k`. */
  function Pow10(k: nat): (p: nat)
    ensures p > 0
  {
    if k == 0 then 1 else 10 * Pow10(k - 1)
  }

  /** A number below 10^k prints in at most k characters. */
  lemma {:induction false} DecLength(n: nat, k: nat)
    requires k > 0 && n < Pow10(k)
    ensures |Dec(n)| <= k
  {
    assert Pow10(1) == 10 * Pow10(0);
    if n >= 10 && k > 1 {
      DecLength(n / 10, k - 1);
    }
  }

  lemma Powers()
    ensures Pow10(3) == 1_000 && Pow10(5) == 100_000 && Pow10(10) == 10_000_000_000
  {
    assert Pow10(1) == 10 && Pow10(2) == 100 && Pow10(3) == 1_000 && Pow10(4) == 10_000;
    assert Pow10(6) == 1_000_000 && Pow10(7) == 10_000_000 && Pow10(8) == 100_000_000;
    assert Pow10(9) == 1_000_000_000;
  }

  lemma DecOfU32(n: u32)
    ensures |Dec(n)| <= 10
  {
    Powers();
    DecLength(n, 10);
  }

  lemma DecOfU16(n: u16)
    ensures |Dec(n)| <= 5
  {
    Powers();
    DecLength(n, 5);
  }

  // ---- strtoul, base 10, 32-bit ----

  const ULONG_MAX: u32 := 0xFFFF_FFFF

  datatype Number = Number(value: u32, end: nat)

  predicate IsSpace(c: char) {
    c == ' ' || c == '\t' || c == '\n' || c == '\r' || c == '\U{000B}' || c == '\U{000C}'
  }

  function SkipSpace(s: string, i: nat): (j: nat)
    requires i <= |s|
    ensures i <= j <= |s|
    decreases |s| - i
  {
    if i < |s| && IsSpace(s[i]) then SkipSpace(s, i + 1) else i
  }

  function SkipDigits(s: string, i: nat): (j: nat)
    requires i <= |s|
    ensures i <= j <= |s|
    decreases |s| - i
  {
    if i < |s| && IsDigit(s[i]) then SkipDigits(s, i + 1) else i
  }

  /** With no digits, nothing is consumed and the value is 0. An overflow reads as
      the largest value. */
  function Strtoul(s: string, i: nat): (r: Number)
    requires i <= |s|
    ensures i <= r.end <= |s|
  {
    var p := SkipSpace(s, i);
    var signed := p < |s| && (s[p] == '+' || s[p] == '-');
    var from := if signed then p + 1 else p;
    var to := SkipDigits(s, from);
    if to == from then Number(0, i)
    else
      var v := Value(s, from, to);
      if v > ULONG_MAX then Number(ULONG_MAX, to)
      else if signed && s[p] == '-' then Number(if v == 0 then 0 else U32 - v, to)
      else Number(v, to)
  }

  lemma {:induction false} DigitsSkipped(s: string, i: nat)
    requires i <= |s|
    ensures var j := SkipDigits(s, i);
            (forall k | i <= k < j :: IsDigit(s[k])) && (j < |s| ==> !IsDigit(s[j]))
    decreases |s| - i
  {
    if i < |s| && IsDigit(s[i]) {
      DigitsSkipped(s, i + 1);
    }
  }

  lemma {:induction false} SkipDigitsIs(s: string, i: nat, j: nat)
    requires i <= j <= |s| && (forall k | i <= k < j :: IsDigit(s[k])) && (j < |s| ==> !IsDigit(s[j]))
    ensures SkipDigits(s, i) == j
    decreases |s| - i
  {
    if i < j {
      SkipDigitsIs(s, i + 1, j);
    }
  }

  /** A printed number is read back, up to the first character that is no digit. */
  lemma ReadsPrinted(s: string, i: nat, n: u32)
    requires i + |Dec(n)| <= |s| && s[i..i + |Dec(n)|] == Dec(n)
    requires i + |Dec(n)| < |s| ==> !IsDigit(s[i + |Dec(n)|])
    ensures Strtoul(s, i) == Number(n, i + |Dec(n)|)
  {
    var j := i + |Dec(n)|;
    forall k | i <= k < j
      ensures IsDigit(s[k])
    {
      assert s[k] == Dec(n)[k - i];
    }
    SkipDigitsIs(s, i, j);
    ValueOfDec(n);
    ValueMoves(s, i, Dec(n), 0, |Dec(n)|);
    assert s[i] == Dec(n)[0];
  }
}
