/** The two string operations the identifiers are built from: a number's decimal
    text (`n.toString()` on a non-negative integer) and `slice(-4)`. */
module Text {

  predicate IsDigit(c: char) {
    '0' <= c <= '9'
  }

  function DigitChar(d: nat): (c: char)
    requires d < 10
    ensures IsDigit(c)
  {
    (('0' as int) + d) as char
  }

  function DigitValue(c: char): (d: nat)
    requires IsDigit(c)
    ensures d < 10
  {
    (c as int) - ('0' as int)
  }

  /** The decimal text of `n`, without leading zeros. */
  function NatToString(n: nat): (r: string)
    ensures |r| >= 1
    ensures forall i :: 0 <= i < |r| ==> IsDigit(r[i])
    ensures n >= 10 ==> |r| >= 2
    decreases n
  {
    if n < 10 then [DigitChar(n)] else NatToString(n / 10) + [DigitChar(n % 10)]
  }

  /** Reads a string of digits back as a number (the inverse of `NatToString`). */
  function DigitsValue(s: string): nat
    requires forall i :: 0 <= i < |s| ==> IsDigit(s[i])
  {
    if |s| == 0 then 0
    else DigitsValue(s[..|s| - 1]) * 10 + DigitValue(s[|s| - 1])
  }

  /** Reading the decimal text of `n` gives back `n`. */
  lemma {:induction false} DigitsValueOfNatToString(n: nat)
    ensures DigitsValue(NatToString(n)) == n
    decreases n
  {
    var r := NatToString(n);
    if n >= 10 {
      DigitsValueOfNatToString(n / 10);
      assert r[..|r| - 1] == NatToString(n / 10);
    }
  }

  /** Distinct numbers have distinct decimal texts. */
  lemma NatToStringInjective(n: nat, m: nat)
    ensures NatToString(n) == NatToString(m) <==> n == m
  {
    if NatToString(n) == NatToString(m) {
      DigitsValueOfNatToString(n);
      DigitsValueOfNatToString(m);
    }
  }

  function Pow10(k: nat): (p: nat)
    ensures p >= 1
  {
    if k == 0 then 1 else 10 * Pow10(k - 1)
  }

  /** Reading a digit string with one more digit at the end. */
  lemma DigitsValueSnoc(x: string, c: char)
    requires forall i :: 0 <= i < |x| ==> IsDigit(x[i])
    requires IsDigit(c)
    ensures DigitsValue(x + [c]) == DigitsValue(x) * 10 + DigitValue(c)
  {
    assert (x + [c])[..|x|] == x;
  }

  /** A non-zero multiple of `m` is at least `m` away from zero. */
  lemma MultipleBounds(m: int, k: int)
    requires m > 0
    ensures k >= 1 ==> m * k >= m
    ensures k <= -1 ==> m * k <= -m
  {
  }

  /** The remainder is the unique one: `n == m * a + b` with `0 <= b < m`. */
  lemma ModUnique(n: int, m: int, a: int, b: int)
    requires m > 0 && n == m * a + b && 0 <= b < m
    ensures n % m == b
  {
    var q, r := n / m, n % m;
    assert m * (a - q) == r - b;
    MultipleBounds(m, a - q);
  }

  /** The last `k + 1` decimal digits of `n` are the last `k` digits of `n / 10`
      followed by the units digit. */
  lemma ModStep(n: nat, p: nat)
    requires p >= 1
    ensures ((n / 10) % p) * 10 + n % 10 == n % (10 * p)
  {
    var q, d := n / 10, n % 10;
    var a, b := q / p, q % p;
    assert n == 10 * q + d;
    assert q == p * a + b;
    assert n == (10 * p) * a + (b * 10 + d) by {
      assert 10 * q == 10 * (p * a) + 10 * b;
      assert 10 * (p * a) == (10 * p) * a;
    }
    assert b * 10 + d < 10 * p by {
      assert b <= p - 1;
      assert b * 10 <= (p - 1) * 10;
    }
    ModUnique(n, 10 * p, a, b * 10 + d);
  }

  lemma SuffixOfSnoc(h: string, c: char, k: nat)
    requires 1 <= k <= |h| + 1
    ensures (h + [c])[|h| + 1 - k..] == h[|h| - (k - 1)..] + [c]
  {
  }

  /** Read as a number, the last `k` characters of the decimal text of `n` are `n`
      modulo `10^k`. */
  lemma {:induction false} SuffixValue(n: nat, k: nat)
    requires k <= |NatToString(n)|
    ensures var r := NatToString(n); DigitsValue(r[|r| - k..]) == n % Pow10(k)
    decreases n
  {
    var r := NatToString(n);
    if k == 0 {
      assert r[|r|..] == [];
    } else if n < 10 {
      assert r[|r| - k..] == r[..0] + [r[0]];
      DigitsValueSnoc([], r[0]);
    } else {
      var h, c := NatToString(n / 10), DigitChar(n % 10);
      assert r == h + [c];
      SuffixOfSnoc(h, c, k);
      SuffixValue(n / 10, k - 1);
      DigitsValueSnoc(h[|h| - (k - 1)..], c);
      ModStep(n, Pow10(k - 1));
    }
  }

  /** The decimal text of a number below `10^k` (`k >= 1`) has at most `k` digits. */
  lemma {:induction false} ShortText(n: nat, k: nat)
    requires 1 <= k && n < Pow10(k)
    ensures |NatToString(n)| <= k
    decreases k
  {
    if n >= 10 {
      assert k >= 2;
      assert n / 10 < Pow10(k - 1);
      ShortText(n / 10, k - 1);
    }
  }

  /** The decimal text of a number at least `10^k` has more than `k` digits. */
  lemma {:induction false} LongText(n: nat, k: nat)
    requires n >= Pow10(k)
    ensures |NatToString(n)| >= k + 1
    decreases k
  {
    if k > 0 {
      assert n / 10 >= Pow10(k - 1);
      LongText(n / 10, k - 1);
    }
  }

  /** `s.slice(-4)`: the last four characters, or all of `s` when it is shorter. */
  function LastFour(s: string): (r: string)
    ensures |r| == if |s| < 4 then |s| else 4
    ensures r == s[|s| - |r|..]
  {
    if |s| <= 4 then s else s[|s| - 4..]
  }

  /** The last four digits of a timestamp: all of it below 10000, and from 1000 on,
      four digits that read as the timestamp modulo 10000. */
  lemma LastFourDigits(n: nat)
    ensures forall i :: 0 <= i < |LastFour(NatToString(n))| ==> IsDigit(LastFour(NatToString(n))[i])
    ensures n < 10000 ==> LastFour(NatToString(n)) == NatToString(n)
    ensures n >= 1000 ==> |LastFour(NatToString(n))| == 4 && DigitsValue(LastFour(NatToString(n))) == n % 10000
  {
    var r := NatToString(n);
    assert Pow10(3) == 1000 && Pow10(4) == 10000;
    if n < 10000 {
      ShortText(n, 4);
      assert LastFour(r) == r;
    }
    if n >= 1000 {
      LongText(n, 3);
      SuffixValue(n, 4);
      assert LastFour(r) == r[|r| - 4..];
    }
  }

  /** Two digit strings of the same length that read as the same number are equal. */
  lemma {:induction false} DigitsValueInjective(x: string, y: string)
    requires |x| == |y|
    requires forall i :: 0 <= i < |x| ==> IsDigit(x[i])
    requires forall i :: 0 <= i < |y| ==> IsDigit(y[i])
    requires DigitsValue(x) == DigitsValue(y)
    ensures x == y
    decreases |x|
  {
    if |x| > 0 {
      var n := |x| - 1;
      var v := DigitsValue(x);
      ModUnique(v, 10, DigitsValue(x[..n]), DigitValue(x[n]));
      ModUnique(v, 10, DigitsValue(y[..n]), DigitValue(y[n]));
      assert DigitValue(x[n]) == DigitValue(y[n]);
      assert x[n] == y[n];
      DigitsValueInjective(x[..n], y[..n]);
      assert x == x[..n] + [x[n]];
      assert y == y[..n] + [y[n]];
    }
  }

  /** From 1000 on, timestamps 10000 apart have the same last four digits. */
  lemma LastFourRepeats(n: nat)
    requires n >= 1000
    ensures LastFour(NatToString(n)) == LastFour(NatToString(n + 10000))
  {
    LastFourDigits(n);
    LastFourDigits(n + 10000);
    assert (n + 10000) % 10000 == n % 10000;
    DigitsValueInjective(LastFour(NatToString(n)), LastFour(NatToString(n + 10000)));
  }
}
