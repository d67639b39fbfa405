/** Decimal printing and parsing of unsigned integers, as `format!("{n}")` and
    `str::parse` do it: a parse accepts one optional leading `+`, needs at least
    one digit, and fails at or above the integer type's limit. */
module Decimal {
  import opened Text

  const U32_LIMIT: nat := 0x1_0000_0000
  const U64_LIMIT: nat := 0x1_0000_0000_0000_0000

  predicate IsDigit(c: char) {
    '0' <= c <= '9'
  }

  predicate AllDigits(s: string) {
    forall i :: 0 <= i < |s| ==> IsDigit(s[i])
  }

  function DigitOf(d: nat): char
    requires d < 10
  {
    '0' + d as char
  }

  function DigitValue(c: char): nat
    requires IsDigit(c)
  {
    c as int - '0' as int
  }

  function Print(n: nat): string {
    if n < 10 then [DigitOf(n)] else Print(n / 10) + [DigitOf(n % 10)]
  }

  lemma {:induction false} PrintDigits(n: nat)
    ensures Print(n) != "" && AllDigits(Print(n))
  {
    if n >= 10 { PrintDigits(n / 10); }
  }

  function Value(s: string): nat
    requires AllDigits(s)
  {
    if s == "" then 0 else 10 * Value(s[..|s| - 1]) + DigitValue(s[|s| - 1])
  }

  function ParseUnsigned(s: string, limit: nat): Option<nat> {
    var digits := if s != "" && s[0] == '+' then s[1..] else s;
    if digits != "" && AllDigits(digits) && Value(digits) < limit then Some(Value(digits)) else None
  }

  lemma {:induction false} ValueOfPrint(n: nat)
    ensures AllDigits(Print(n)) && Value(Print(n)) == n
  {
    PrintDigits(n);
    if n < 10 {
      assert Print(n)[..0] == "";
    } else {
      ValueOfPrint(n / 10);
      assert Print(n)[..|Print(n)| - 1] == Print(n / 10);
    }
  }

  /** Printing then parsing is the identity below the limit, and fails at or above it. */
  lemma ParseOfPrint(n: nat, limit: nat)
    ensures ParseUnsigned(Print(n), limit) == if n < limit then Some(n) else None
  {
    ValueOfPrint(n);
    PrintDigits(n);
    assert IsDigit(Print(n)[0]);
  }

  /** Different numbers print differently. */
  lemma PrintInjective(m: nat, n: nat)
    requires Print(m) == Print(n)
    ensures m == n
  {
    ValueOfPrint(m);
    ValueOfPrint(n);
  }

  /** A printed number has no whitespace and no sign. */
  lemma PrintIsPlain(n: nat)
    ensures IsTrimmed(Print(n)) && Print(n) != "" && ' ' !in Print(n) && '-' !in Print(n) && '\r' !in Print(n)
  {
    PrintDigits(n);
    var s := Print(n);
    assert IsDigit(s[0]) && IsDigit(s[|s| - 1]);
  }

  lemma {:induction false} ValueOfZeros(zeros: string, s: string)
    requires AllDigits(s) && forall i :: 0 <= i < |zeros| ==> zeros[i] == '0'
    ensures AllDigits(zeros + s) && Value(zeros + s) == Value(s)
  {
    if s != "" {
      assert (zeros + s)[..|zeros + s| - 1] == zeros + s[..|s| - 1];
      ValueOfZeros(zeros, s[..|s| - 1]);
    } else if zeros != "" {
      assert zeros + s == zeros;
      assert zeros == zeros[..|zeros| - 1] + ['0'];
      ValueOfZeros(zeros[..|zeros| - 1], "");
      assert zeros[..|zeros| - 1] + "" == zeros[..|zeros| - 1];
    } else {
      assert zeros + s == s;
    }
  }

  lemma PlusIsSkipped(s: string, limit: nat)
    requires s != "" && IsDigit(s[0])
    ensures ParseUnsigned("+" + s, limit) == ParseUnsigned(s, limit)
  {
    hide AllDigits, Value;
    assert ("+" + s)[0] == '+' && ("+" + s)[1..] == s;
  }

  /** Parsing allows leading zeros, and one leading plus. */
  lemma ParseOfPadded(zeros: string, n: nat, limit: nat)
    requires n < limit && forall i :: 0 <= i < |zeros| ==> zeros[i] == '0'
    ensures ParseUnsigned(zeros + Print(n), limit) == Some(n)
    ensures ParseUnsigned("+" + (zeros + Print(n)), limit) == Some(n)
  {
    var s := zeros + Print(n);
    ValueOfPrint(n);
    PrintDigits(n);
    ValueOfZeros(zeros, Print(n));
    assert IsDigit(s[0]);
    hide Print;
    PlusIsSkipped(s, limit);
  }

  /** Whatever parses is digits, after at most one plus. */
  lemma ParsedIsDigits(s: string, limit: nat)
    requires ParseUnsigned(s, limit).Some?
    ensures s != "" && (forall i :: 1 <= i < |s| ==> '0' <= s[i] <= '9')
    ensures ('0' <= s[0] <= '9') || (s[0] == '+' && |s| >= 2)
  {
    if s[0] == '+' {
      forall i | 1 <= i < |s| ensures '0' <= s[i] <= '9' {
        assert IsDigit(s[1..][i - 1]);
      }
    }
  }
}
