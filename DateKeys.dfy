/**
 * Date keys: the string `"${year}-${month + 1}-${day}"` under which both event
 * stores file a day's events. Numbers are written the way a template literal
 * writes a safe integer: plain decimal, no zero padding, a leading `-` when negative.
 * A parser for the same format shows that a key identifies its date.
 */
module DateKeys {
  import opened Wrappers

  predicate IsDigit(c: char) { '0' <= c <= '9' }

  predicate AllDigits(s: string) { forall i :: 0 <= i < |s| ==> IsDigit(s[i]) }

  function DigitChar(d: int): (c: char)
    requires 0 <= d < 10
    ensures IsDigit(c) && DigitValue(c) == d
  {
    ('0' as int + d) as char
  }

  function DigitValue(c: char): int
    requires IsDigit(c)
  {
    c as int - '0' as int
  }

  /** The decimal digits of `n`, most significant first, without leading zeros. */
  function NatToString(n: nat): string {
    if n < 10 then [DigitChar(n)] else NatToString(n / 10) + [DigitChar(n % 10)]
  }

  /** A number is written as a non-empty string of decimal digits. */
  lemma {:induction false} NatToStringDigits(n: nat)
    ensures |NatToString(n)| > 0 && AllDigits(NatToString(n))
  {
    if n >= 10 {
      NatToStringDigits(n / 10);
    }
  }

  /** No zero padding: a written number starts with `0` exactly when it is zero. */
  lemma {:induction false} NatToStringNoLeadingZero(n: nat)
    ensures |NatToString(n)| > 0 && (NatToString(n)[0] == '0' <==> n == 0)
  {
    NatToStringDigits(n);
    if n >= 10 {
      NatToStringDigits(n / 10);
      NatToStringNoLeadingZero(n / 10);
      assert NatToString(n)[0] == NatToString(n / 10)[0];
    }
  }

  /** A number as a template literal renders it. */
  function IntToString(n: int): string {
    if n < 0 then "-" + NatToString(-n) else NatToString(n)
  }

  /** The key of day `day` of month `month1` (1-based) of `year`. */
  function DateKey(year: int, month1: int, day: int): string {
    IntToString(year) + "-" + IntToString(month1) + "-" + IntToString(day)
  }

  /** The value of a non-empty string of decimal digits. */
  function ParseNat(s: string): nat
    requires |s| > 0 && AllDigits(s)
  {
    if |s| == 1 then DigitValue(s[0])
    else ParseNat(s[..|s| - 1]) * 10 + DigitValue(s[|s| - 1])
  }

  /** Reads back what `IntToString` writes; `None` for anything else. */
  function ParseInt(s: string): Option<int> {
    if |s| > 0 && AllDigits(s) then Some(ParseNat(s))
    else if |s| > 1 && s[0] == '-' && AllDigits(s[1..]) then Some(-(ParseNat(s[1..]) as int))
    else None
  }

  /** Splits `s` at its last occurrence of `sep`. */
  function SplitLast(s: string, sep: char): Option<(string, string)> {
    if |s| == 0 then None
    else if s[|s| - 1] == sep then Some((s[..|s| - 1], ""))
    else match SplitLast(s[..|s| - 1], sep)
      case None => None
      case Some((front, back)) => Some((front, back + [s[|s| - 1]]))
  }

  /** Reads a date key back into (year, 1-based month, day). */
  function ParseDateKey(key: string): Option<(int, int, int)> {
    match SplitLast(key, '-')
    case None => None
    case Some((rest, d)) =>
      match SplitLast(rest, '-')
      case None => None
      case Some((y, m)) =>
        match (ParseInt(y), ParseInt(m), ParseInt(d))
        case (Some(year), Some(month1), Some(day)) => Some((year, month1, day))
        case _ => None
  }

  lemma {:induction false} ParseNatToString(n: nat)
    ensures |NatToString(n)| > 0 && AllDigits(NatToString(n))
    ensures ParseNat(NatToString(n)) == n
  {
    NatToStringDigits(n);
    if n >= 10 {
      var s := NatToString(n);
      assert s[..|s| - 1] == NatToString(n / 10);
      ParseNatToString(n / 10);
    }
  }

  /** Formatting then parsing a number gives the number back. */
  lemma ParseIntToString(n: int)
    ensures ParseInt(IntToString(n)) == Some(n)
  {
    if n < 0 {
      var s := IntToString(n);
      assert s[0] == '-' && !IsDigit(s[0]);
      assert s[1..] == NatToString(-n);
      ParseNatToString(-n);
    } else {
      ParseNatToString(n);
    }
  }

  lemma {:induction false} SplitLastAt(front: string, sep: char, back: string)
    requires sep !in back
    ensures SplitLast(front + [sep] + back, sep) == Some((front, back))
    decreases |back|
  {
    var s := front + [sep] + back;
    if |back| == 0 {
      assert s[..|s| - 1] == front;
    } else {
      var b := back[..|back| - 1];
      assert s[..|s| - 1] == front + [sep] + b;
      assert s[|s| - 1] == back[|back| - 1];
      SplitLastAt(front, sep, b);
      assert b + [back[|back| - 1]] == back;
    }
  }

  lemma DigitsHaveNoDash(s: string)
    requires AllDigits(s)
    ensures '-' !in s
  {
  }

  /** A key reads back as the date it was made from (month and day are positive). */
  lemma ParseDateKeyOfDateKey(year: int, month1: nat, day: nat)
    ensures ParseDateKey(DateKey(year, month1, day)) == Some((year, month1, day))
  {
    var y, m, d := IntToString(year), IntToString(month1), IntToString(day);
    NatToStringDigits(month1);
    NatToStringDigits(day);
    DigitsHaveNoDash(m);
    DigitsHaveNoDash(d);
    assert DateKey(year, month1, day) == (y + "-" + m) + ['-'] + d;
    SplitLastAt(y + "-" + m, '-', d);
    assert y + "-" + m == y + ['-'] + m;
    SplitLastAt(y, '-', m);
    ParseIntToString(year);
    ParseIntToString(month1);
    ParseIntToString(day);
  }

  /** Different dates have different keys, so each day cell finds only its own events. */
  lemma DateKeyInjective(y1: int, m1: nat, d1: nat, y2: int, m2: nat, d2: nat)
    requires DateKey(y1, m1, d1) == DateKey(y2, m2, d2)
    ensures y1 == y2 && m1 == m2 && d1 == d2
  {
    ParseDateKeyOfDateKey(y1, m1, d1);
    ParseDateKeyOfDateKey(y2, m2, d2);
  }

  /** 15 March 2024 is keyed "2024-3-15": plain decimal, no zero padding. */
  lemma DateKeyExample()
    ensures DateKey(2024, 3, 15) == "2024-3-15"
  {
  }
}
