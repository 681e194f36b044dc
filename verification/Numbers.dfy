/** Numbers and their digits, decimal or hexadecimal. */
module Numbers {
  import opened Common
  import opened Separated

  function Digit(d: nat): (c: char)
    requires d < 16
    ensures c == "0123456789abcdef"[d]
  {
    if d < 10 then '0' + d as char else 'a' + (d - 10) as char
  }

  function Base(hex: bool): nat {
    if hex then 16 else 10
  }

  function Upper(hex: bool, v: nat): nat {
    if hex then v / 16 else v / 10
  }

  function Lower(hex: bool, v: nat): (d: nat)
    ensures d < Base(hex)
  {
    if hex then v % 16 else v % 10
  }

  function Times(hex: bool, v: nat): nat {
    if hex then v * 16 else v * 10
  }

  function Digits(hex: bool, v: nat): (s: string)
    ensures |s| > 0
  {
    if v < Base(hex) then [Digit(v)] else Digits(hex, Upper(hex, v)) + [Digit(Lower(hex, v))]
  }

  // c | 0x20
  function Lowered(c: char): char {
    if (c as int / 32) % 2 == 0 then (c as int + 32) as char else c
  }

  /** What the digit is worth, or -1 if it is none. */
  function Worth(hex: bool, c: char): int {
    if '0' <= c <= '9' then c as int - '0' as int
    else if hex && 'a' <= Lowered(c) <= 'f' then Lowered(c) as int - 'a' as int + 10
    else -1
  }

  predicate AllDigits(hex: bool, s: string) {
    forall i :: 0 <= i < |s| ==> Worth(hex, s[i]) >= 0
  }

  function Number(hex: bool, s: string): nat
    requires AllDigits(hex, s)
  {
    if s == "" then 0 else Times(hex, Number(hex, s[..|s| - 1])) + Worth(hex, s[|s| - 1])
  }

  lemma DigitIsWorth(hex: bool, d: nat)
    requires d < Base(hex)
    ensures Worth(hex, Digit(d)) == d && Digit(d) != ':' && Digit(d) != '.'
  {
  }

  lemma UpperAndLower(hex: bool, v: nat)
    ensures Times(hex, Upper(hex, v)) + Lower(hex, v) == v
    ensures v < Base(hex) ==> Lower(hex, v) == v && Upper(hex, v) == 0 && Times(hex, 0) == 0
  {
  }

  lemma NumberOfMore(hex: bool, s: string, c: char)
    requires AllDigits(hex, s) && Worth(hex, c) >= 0
    ensures AllDigits(hex, s + [c]) && Number(hex, s + [c]) == Times(hex, Number(hex, s)) + Worth(hex, c)
  {
    assert (s + [c])[..|s|] == s;
  }

  lemma {:induction false} NumberOfDigits(hex: bool, v: nat)
    ensures AllDigits(hex, Digits(hex, v)) && Number(hex, Digits(hex, v)) == v
    ensures Free(':', Digits(hex, v)) && Free('.', Digits(hex, v))
  {
    hide Digit, Worth, Times;
    DigitIsWorth(hex, Lower(hex, v));
    UpperAndLower(hex, v);
    if v < Base(hex) {
      NumberOfMore(hex, "", Digit(v));
      assert "" + [Digit(v)] == Digits(hex, v);
    } else {
      NumberOfDigits(hex, Upper(hex, v));
      NumberOfMore(hex, Digits(hex, Upper(hex, v)), Digit(Lower(hex, v)));
    }
  }

  /** A longer number is not smaller. */
  lemma {:induction false} LongerNumber(hex: bool, s: string, i: nat)
    requires AllDigits(hex, s) && i <= |s|
    ensures Number(hex, s[..i]) <= Number(hex, s)
  {
    if i < |s| {
      LongerNumber(hex, s[..|s| - 1], i);
      assert s[..|s| - 1][..i] == s[..i];
    } else {
      assert s[..i] == s;
    }
  }

  lemma LengthStep(hex: bool, v: nat)
    ensures |Digits(hex, v)| == 1 + if v < Base(hex) then 0 else |Digits(hex, Upper(hex, v))|
  {
  }

  function Power(hex: bool, n: nat): nat {
    if n == 0 then 1 else Times(hex, Power(hex, n - 1))
  }

  lemma {:induction false} DigitsFit(hex: bool, v: nat, n: nat)
    requires n > 0 && v < Power(hex, n)
    ensures |Digits(hex, v)| <= n
  {
    if v >= Base(hex) {
      DigitsFit(hex, Upper(hex, v), n - 1);
    }
  }

  /** A word has at most 20 digits. */
  lemma WordFits(hex: bool, v: nat)
    requires v < WRAP
    ensures |Digits(hex, v)| <= 20
  {
    FourMore(hex, 0);
    FourMore(hex, 4);
    FourMore(hex, 8);
    FourMore(hex, 12);
    FourMore(hex, 16);
    DigitsFit(hex, v, 20);
  }

  lemma FourMore(hex: bool, n: nat)
    ensures Power(hex, 0) == 1 && Power(hex, n + 4) == (if hex then 0x1_0000 else 10000) * Power(hex, n)
  {
    assert Power(hex, n + 2) == Times(hex, Power(hex, n + 1)) == Times(hex, Times(hex, Power(hex, n)));
    assert Power(hex, n + 4) == Times(hex, Power(hex, n + 3)) == Times(hex, Times(hex, Power(hex, n + 2)));
  }

  // ----- in decimal and hexadecimal -----

  /** What the marks are worth; the letters count in both cases, and nothing else counts. */
  lemma DigitsAreWorth(d: nat, c: char)
    requires d < 16
    ensures Worth(true, "0123456789abcdef"[d]) == Worth(true, "0123456789ABCDEF"[d]) == d
    ensures d < 10 ==> Worth(false, "0123456789"[d]) == d
    ensures Worth(true, c) >= 0 ==> c in "0123456789abcdefABCDEF"
    ensures Worth(false, c) >= 0 ==> c in "0123456789"
  {
  }

  /** Each further digit counts, with what is before it ten or sixteen times. */
  lemma OneMoreDigit(hex: bool, s: string, c: char)
    requires AllDigits(hex, s) && Worth(hex, c) >= 0
    ensures AllDigits(hex, s + [c]) && Number(hex, s + [c]) == (if hex then 16 else 10) * Number(hex, s) + Worth(hex, c)
  {
    assert (s + [c])[..|s|] == s;
  }
}
