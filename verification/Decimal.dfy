/** Decimal text: strconv.FormatUint and strconv.ParseUint(_, 10, 32). */
module Decimal {
  import opened Common
  import opened Text

  function Digit(d: nat): (c: char)
    requires d < 10
    ensures IsDigit(c) && DigitValue(c) == d
  {
    ('0' as int + d) as char
  }

  predicate IsDigit(c: char) {
    '0' <= c <= '9'
  }

  function DigitValue(c: char): nat
    requires IsDigit(c)
  {
    c as int - '0' as int
  }

  function FormatUint(n: nat): string {
    if n < 10 then [Digit(n)] else FormatUint(n / 10) + [Digit(n % 10)]
  }

  /** The number a nonempty run of digits denotes; None for any other text. */
  function ParseDigits(s: string): Option<nat> {
    if s == "" || !IsDigit(s[|s| - 1]) then None
    else if |s| == 1 then Some(DigitValue(s[0]))
    else match ParseDigits(s[..|s| - 1])
      case None => None
      case Some(high) => Some(10 * high + DigitValue(s[|s| - 1]))
  }

  /** Only nonempty runs of digits denote a number. */
  lemma {:induction false} DigitsParse(s: string)
    ensures ParseDigits(s).Some? <==> s != "" && forall i :: 0 <= i < |s| ==> '0' <= s[i] <= '9'
  {
    if |s| > 1 {
      DigitsParse(s[..|s| - 1]);
    }
  }

  function ParseUint32(s: string): Option<Uint32> {
    match ParseDigits(s)
    case None => None
    case Some(n) => if n <= MAX_UINT32 then Some(n) else None
  }

  lemma {:induction false} FormatUintParses(n: nat)
    ensures FormatUint(n) != "" && ParseDigits(FormatUint(n)) == Some(n)
  {
    if n >= 10 {
      FormatUintParses(n / 10);
      var s := FormatUint(n);
      assert s[..|s| - 1] == FormatUint(n / 10);
    }
  }

  /** Every stored uint32 reads back unchanged. */
  lemma Uint32RoundTrip(n: Uint32)
    ensures ParseUint32(FormatUint(n)) == Some(n)
  {
    FormatUintParses(n);
  }

  function Pow10(w: nat): (p: nat)
    ensures p >= 1
  {
    if w == 0 then 1 else 10 * Pow10(w - 1)
  }

  /** The w-digit, zero-padded form of n. */
  function Pad(n: nat, w: nat): (s: string)
    requires n < Pow10(w)
    ensures |s| == w
  {
    if w == 0 then "" else Pad(n / 10, w - 1) + [Digit(n % 10)]
  }

  lemma {:induction false} PadParses(n: nat, w: nat)
    requires w > 0 && n < Pow10(w)
    ensures ParseDigits(Pad(n, w)) == Some(n)
  {
    var s := Pad(n, w);
    assert s[..|s| - 1] == Pad(n / 10, w - 1);
    if w > 1 {
      PadParses(n / 10, w - 1);
    }
  }

  lemma TimesMonotone(d: nat, a: nat, b: nat)
    requires a <= b
    ensures d * a <= d * b
  {
  }

  lemma QuotientIs(n: nat, d: nat, q: nat)
    requires d > 0 && d * q <= n < d * q + d
    ensures n / d == q
  {
    assert n == d * (n / d) + n % d;
    if n / d + 1 <= q {
      TimesMonotone(d, n / d + 1, q);
    } else if q + 1 <= n / d {
      TimesMonotone(d, q + 1, n / d);
    }
  }

  lemma TenthThenQuotient(n: nat, p: nat)
    requires p > 0
    ensures n / 10 / p == n / (10 * p)
  {
    var q := n / (10 * p);
    assert n == 10 * p * q + n % (10 * p);
    assert 10 * p * q == 10 * (p * q);
    QuotientIs(n / 10, p, q);
  }

  lemma LongerDecimal(n: nat, front: string)
    requires n >= 10 && front != "" && n / 10 < Pow10(|front|) && (|front| > 1 ==> Pow10(|front| - 1) <= n / 10)
    ensures n < Pow10(|front| + 1) && Pow10(|front|) <= n
  {
    assert Pow10(|front|) == 10 * Pow10(|front| - 1) && Pow10(0) == 1;
  }

  /** Each character is the digit that belongs at its place. */
  ghost predicate InPlace(s: string, n: nat) {
    forall k :: 0 <= k < |s| ==> s[k] == "0123456789"[n / Pow10(|s| - 1 - k) % 10]
  }

  lemma OneMoreDigit(front: string, n: nat)
    requires InPlace(front, n / 10)
    ensures InPlace(front + [Digit(n % 10)], n)
  {
    var s := front + [Digit(n % 10)];
    forall k | 0 <= k < |s|
      ensures s[k] == "0123456789"[n / Pow10(|s| - 1 - k) % 10]
    {
      if k < |front| {
        TenthThenQuotient(n, Pow10(|front| - 1 - k));
        assert Pow10(|front| - k) == 10 * Pow10(|front| - 1 - k);
      } else {
        assert Pow10(0) == 1;
      }
    }
  }

  lemma {:induction false} DigitsInPlace(n: nat)
    ensures InPlace(FormatUint(n), n)
  {
    if n >= 10 {
      DigitsInPlace(n / 10);
      OneMoreDigit(FormatUint(n / 10), n);
    } else {
      assert Pow10(0) == 1;
    }
  }

  lemma {:induction false} AsLongAsNeeded(n: nat)
    ensures var s := FormatUint(n); s != "" && n < Pow10(|s|) && (|s| > 1 ==> Pow10(|s| - 1) <= n)
  {
    if n >= 10 {
      AsLongAsNeeded(n / 10);
      LongerDecimal(n, FormatUint(n / 10));
    } else {
      assert Pow10(1) == 10;
    }
  }

  /** The usual decimal form: no leading zero, and each digit where it belongs. */
  lemma FormatUintIsDecimal(n: nat)
    ensures var s := FormatUint(n);
      && s != "" && n < Pow10(|s|) && (|s| > 1 ==> Pow10(|s| - 1) <= n)
      && forall k :: 0 <= k < |s| ==> s[k] == "0123456789"[n / Pow10(|s| - 1 - k) % 10]
  {
    AsLongAsNeeded(n);
    DigitsInPlace(n);
  }

  lemma PowersOfTen()
    ensures Pow10(1) == 10 && Pow10(3) == 1000 && Pow10(9) == 1_000_000_000
  {
    assert Pow10(6) == 1_000_000;
  }

  lemma LastDigitOrder(x: string, a: nat, y: string, b: nat)
    requires |x| == |y| && a < 10 && b < 10
    ensures LexLess(x + [Digit(a)], y + [Digit(b)]) <==> LexLess(x, y) || (x == y && a < b)
    ensures x + [Digit(a)] == y + [Digit(b)] <==> x == y && a == b
  {
    LexConcat(x, [Digit(a)], y, [Digit(b)]);
    assert (x + [Digit(a)])[..|x|] == x && (y + [Digit(b)])[..|y|] == y;
    assert (x + [Digit(a)])[|x|] == Digit(a) && (y + [Digit(b)])[|y|] == Digit(b);
  }

  /** Padded numbers of one width compare as text exactly as they do as numbers. */
  lemma {:induction false} PadOrder(a: nat, b: nat, w: nat)
    requires a < Pow10(w) && b < Pow10(w)
    ensures LexLess(Pad(a, w), Pad(b, w)) <==> a < b
    ensures Pad(a, w) == Pad(b, w) <==> a == b
  {
    if w > 0 {
      PadOrder(a / 10, b / 10, w - 1);
      LastDigitOrder(Pad(a / 10, w - 1), a % 10, Pad(b / 10, w - 1), b % 10);
    }
  }
}
