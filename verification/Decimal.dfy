/**
 Decimal text of integers, as number-to-string conversion and parseInt(text, 10) produce and read it.
 Cache keys, numbered usernames and ranking members are built from it.
 */
module Decimal {

  predicate IsDigit(c: char) { 48 <= c as int <= 57 }

  function DigitValue(c: char): (d: nat)
    requires IsDigit(c)
    ensures d < 10
  {
    c as int - 48
  }

  function Print(n: nat): (s: string)
    ensures s != "" && forall i | 0 <= i < |s| :: IsDigit(s[i])
  {
    if n < 10 then [(48 + n) as char] else Print(n / 10) + [(48 + n % 10) as char]
  }

  function PrintInt(i: int): string {
    if i < 0 then "-" + Print(-i) else Print(i)
  }

  /** Reads the leading digits of s after the number acc has been read. */
  function ReadDigits(s: string, acc: nat): nat {
    if s == "" || !IsDigit(s[0]) then acc
    else ReadDigits(s[1..], 10 * acc + DigitValue(s[0]))
  }

  function ParseInt(s: string): int {
    if s != "" && s[0] == '-' then 0 - ReadDigits(s[1..], 0) else ReadDigits(s, 0)
  }

  lemma {:induction false} ReadAppend(a: string, b: string, acc: nat)
    requires forall i | 0 <= i < |a| :: IsDigit(a[i])
    ensures ReadDigits(a + b, acc) == ReadDigits(b, ReadDigits(a, acc))
    decreases |a|
  {
    if a == "" {
      assert a + b == b;
    } else {
      assert (a + b)[1..] == a[1..] + b;
      ReadAppend(a[1..], b, 10 * acc + DigitValue(a[0]));
    }
  }

  lemma {:induction false} ReadPrint(n: nat)
    ensures ReadDigits(Print(n), 0) == n
  {
    if n >= 10 {
      ReadPrint(n / 10);
      ReadAppend(Print(n / 10), [(48 + n % 10) as char], 0);
    }
  }

  /** Printing and parsing an integer gives it back. */
  lemma ParsePrint(i: int)
    ensures ParseInt(PrintInt(i)) == i
  {
    if i < 0 {
      ReadPrint(-i);
      assert ("-" + Print(-i))[1..] == Print(-i);
    } else {
      ReadPrint(i);
      assert IsDigit(Print(i)[0]);
    }
  }

  /** No sign but for negative integers, and no leading zero. */
  lemma {:induction false} PrintIsPlain(i: int)
    ensures PrintInt(i)[0] == '-' <==> i < 0
    ensures PrintInt(i)[0] == '0' <==> i == 0
    decreases if i < 0 then 0 else i
  {
    if i < 0 {
    } else if i < 10 {
      assert IsDigit(PrintInt(i)[0]);
    } else {
      PrintIsPlain(i / 10);
      assert PrintInt(i)[0] == PrintInt(i / 10)[0];
    }
  }

  /** Different integers print differently. */
  lemma PrintInjective(i: int, j: int)
    requires PrintInt(i) == PrintInt(j)
    ensures i == j
  {
    ParsePrint(i);
    ParsePrint(j);
  }
}
