/** Text shown by the timer labels: Python's `str(n)` for an integer, `format(n, "02d")`,
    and the clock face `f"{minutes:02d}:{seconds:02d}"` with `minutes, seconds = divmod(t, 60)`.
    Each writer has a reader beside it, and the round trips say that no value is lost. */
module Display {
  import opened Wrappers

  predicate IsDigit(c: char) {
    '0' <= c <= '9'
  }

  predicate AllDigits(s: string) {
    forall i :: 0 <= i < |s| ==> IsDigit(s[i])
  }

  function DigitChar(d: int): (c: char)
    requires 0 <= d < 10
    ensures IsDigit(c) && c as int - '0' as int == d
  {
    ('0' as int + d) as char
  }

  function DigitValue(c: char): (d: nat)
    requires IsDigit(c)
    ensures d < 10 && DigitChar(d) == c
  {
    c as int - '0' as int
  }

  /** The decimal digits of `n`, most significant first, without leading zeros. */
  function NatDigits(n: nat): string
    decreases n
  {
    if n < 10 then [DigitChar(n)] else NatDigits(n / 10) + [DigitChar(n % 10)]
  }

  /** `str(n)`: a minus sign for a negative number, then its digits. */
  function Decimal(n: int): string {
    if n < 0 then "-" + NatDigits(-n) else NatDigits(n)
  }

  /** `format(n, "02d")`: padded with zeros to two characters; a minus sign takes up width,
      so a negative number is written as `str(n)`. */
  function Pad2(n: int): string {
    if 0 <= n < 10 then "0" + NatDigits(n) else Decimal(n)
  }

  /** The clock face `MM:SS`. Python's `divmod` floors; for the positive divisor 60, Dafny's
      `/` and `%` give the same quotient and remainder. */
  function Clock(t: int): string {
    Pad2(t / 60) + ":" + Pad2(t % 60)
  }

  /** The value of a run of decimal digits; leading zeros are allowed. */
  function DigitsValue(s: string): nat
    requires AllDigits(s)
  {
    if s == [] then 0 else DigitsValue(s[..|s| - 1]) * 10 + DigitValue(s[|s| - 1])
  }

  /** Reads an optional minus sign followed by at least one digit. */
  function ParseInt(s: string): Option<int> {
    if 2 <= |s| && s[0] == '-' && AllDigits(s[1..]) then Some(0 - DigitsValue(s[1..]))
    else if 1 <= |s| && AllDigits(s) then Some(DigitsValue(s))
    else None
  }

  /** Reads a clock face back into seconds: minutes, a colon, two digits of seconds. */
  function ParseClock(s: string): Option<int> {
    if 4 <= |s| && s[|s| - 3] == ':' && AllDigits(s[|s| - 2..]) then
      match ParseInt(s[..|s| - 3])
      case Some(m) => Some(m * 60 + DigitsValue(s[|s| - 2..]))
      case None => None
    else None
  }

  /** The digits of `n` are at least one decimal digit, with a leading zero only for 0; below
      100 they are the one or two digits of `n`. */
  lemma {:induction false} NatDigitsShape(n: nat)
    ensures 1 <= |NatDigits(n)| && AllDigits(NatDigits(n))
    ensures NatDigits(n)[0] == '0' <==> n == 0
    ensures n < 100 ==> NatDigits(n) == if n < 10 then [DigitChar(n)] else [DigitChar(n / 10), DigitChar(n % 10)]
    decreases n
  {
    if n >= 10 {
      NatDigitsShape(n / 10);
      var s := NatDigits(n);
      assert s[0] == NatDigits(n / 10)[0];
      assert AllDigits(s) by {
        forall i | 0 <= i < |s| ensures IsDigit(s[i]) {
          if i < |s| - 1 { assert s[i] == NatDigits(n / 10)[i]; }
        }
      }
    }
  }

  /** `str(n)` starts with a minus sign exactly when `n` is negative. */
  lemma DecimalShape(n: int)
    ensures 1 <= |Decimal(n)|
    ensures Decimal(n)[0] == '-' <==> n < 0
  {
    NatDigitsShape(if n < 0 then -n else n);
  }

  /** Two-digit padding: at least two characters, and exactly the two digits of `n` when
      `0 <= n < 100`. */
  lemma Pad2Shape(n: int)
    ensures 2 <= |Pad2(n)|
    ensures 0 <= n < 100 ==> Pad2(n) == [DigitChar(n / 10), DigitChar(n % 10)]
  {
    if 0 <= n {
      NatDigitsShape(n);
    }
    if n < 0 || 10 <= n {
      DecimalShape(n);
      NatDigitsShape(if n < 0 then -n else n);
    }
  }

  lemma {:induction false} NatDigitsValue(n: nat)
    ensures AllDigits(NatDigits(n)) && DigitsValue(NatDigits(n)) == n
    decreases n
  {
    NatDigitsShape(n);
    var s := NatDigits(n);
    if n >= 10 {
      assert s[..|s| - 1] == NatDigits(n / 10);
      NatDigitsValue(n / 10);
    }
  }

  lemma {:induction false} LeadingZeroValue(s: string)
    requires AllDigits(s)
    ensures AllDigits("0" + s) && DigitsValue("0" + s) == DigitsValue(s)
    decreases |s|
  {
    var z := "0" + s;
    assert AllDigits(z) by {
      forall i | 0 <= i < |z| ensures IsDigit(z[i]) {
        if i > 0 { assert z[i] == s[i - 1]; }
      }
    }
    if s != [] {
      assert z[..|z| - 1] == "0" + s[..|s| - 1];
      LeadingZeroValue(s[..|s| - 1]);
    }
  }

  /** `str` loses nothing: every integer is read back from its decimal text. */
  lemma DecimalRoundTrip(n: int)
    ensures ParseInt(Decimal(n)) == Some(n)
  {
    NatDigitsShape(if n < 0 then -n else n);
    NatDigitsValue(if n < 0 then -n else n);
    if n < 0 {
      assert Decimal(n)[1..] == NatDigits(-n);
    }
  }

  /** Zero padding loses nothing either. */
  lemma Pad2RoundTrip(n: int)
    ensures ParseInt(Pad2(n)) == Some(n)
  {
    if 0 <= n < 10 {
      NatDigitsShape(n);
      NatDigitsValue(n);
      LeadingZeroValue(NatDigits(n));
    } else {
      DecimalRoundTrip(n);
    }
  }

  /** The clock face is the padded minutes, a colon and exactly two digits of seconds, 00..59. */
  lemma ClockShape(t: int)
    ensures var s := Clock(t);
      && 5 <= |s| && s[|s| - 3] == ':'
      && s[..|s| - 3] == Pad2(t / 60) && s[|s| - 2..] == Pad2(t % 60)
      && IsDigit(s[|s| - 2]) && IsDigit(s[|s| - 1]) && DigitValue(s[|s| - 2]) <= 5
  {
    Pad2Shape(t / 60);
    Pad2Shape(t % 60);
    var s := Clock(t);
    assert s[|s| - 2..] == Pad2(t % 60);
  }

  /** The clock face shows exactly `t` seconds: reading back minutes * 60 + seconds gives `t`. */
  lemma ClockRoundTrip(t: int)
    ensures ParseClock(Clock(t)) == Some(t)
  {
    ClockShape(t);
    Pad2RoundTrip(t / 60);
    Pad2RoundTrip(t % 60);
  }
}
