/** Decimal spellings: printing and reading digits. */
module Decimal {
  import opened MachineInts

  datatype Option<T> = None | Some(value: T)

  predicate IsDigit(c: char) {
    '0' <= c <= '9'
  }

  predicate AllDigits(s: string) {
    forall i :: 0 <= i < |s| ==> IsDigit(s[i])
  }

  function DigitValue(c: char): (d: nat)
    requires IsDigit(c)
    ensures d < 10
  {
    c as int - '0' as int
  }

  function DigitOf(d: nat): (c: char)
    requires d < 10
    ensures IsDigit(c) && DigitValue(c) == d
  {
    (d + '0' as int) as char
  }

  function Value(s: string): nat
    requires AllDigits(s)
  {
    if s == "" then 0 else Value(s[..|s| - 1]) * 10 + DigitValue(s[|s| - 1])
  }

  /** The usual spelling: no leading zero, except for zero itself. */
  function Print(n: nat): (s: string)
    ensures s != "" && AllDigits(s)
  {
    if n < 10 then [DigitOf(n)] else Print(n / 10) + [DigitOf(n % 10)]
  }

  ghost predicate Canonical(s: string) {
    s != "" && AllDigits(s) && (s[0] == '0' ==> |s| == 1)
  }

  lemma {:induction false} PrintReadsBack(n: nat)
    ensures Value(Print(n)) == n
  {
    if n < 10 {
      assert Value([DigitOf(n)]) == Value("") * 10 + n;
    } else {
      PrintReadsBack(n / 10);
      var s := Print(n / 10);
      assert (s + [DigitOf(n % 10)])[..|s|] == s;
    }
  }

  lemma {:induction false} PrintIsCanonical(n: nat)
    ensures Canonical(Print(n)) && (Print(n)[0] == '0' ==> n == 0)
  {
    if n >= 10 { PrintIsCanonical(n / 10); }
  }

  lemma {:induction false} CanonicalIsPositive(s: string)
    requires Canonical(s) && s[0] != '0'
    ensures Value(s) > 0
  {
    if |s| > 1 { CanonicalIsPositive(s[..|s| - 1]); }
  }

  lemma {:induction false} CanonicalIsPrinted(s: string)
    requires Canonical(s)
    ensures Print(Value(s)) == s
  {
    var front, last := s[..|s| - 1], s[|s| - 1];
    if |s| == 1 {
      assert s == [last] && Value(front) == 0;
      OneDigit(last);
    } else {
      CanonicalIsPositive(front);
      CanonicalIsPrinted(front);
      OneDigit(last);
      Quotient(Value(front), DigitValue(last));
      assert s == front + [last];
    }
  }

  lemma OneDigit(c: char)
    requires IsDigit(c)
    ensures DigitOf(DigitValue(c)) == c
  {
  }

  /** Digits are the ten characters from code 48 on, and the last digit of a spelling
      counts once, what stands before it ten times. */
  lemma DigitsByCode(s: string, c: char)
    ensures IsDigit(c) <==> 48 <= c as int <= 57
    ensures AllDigits(s) && IsDigit(c) ==> AllDigits(s + [c]) && Value(s + [c]) == 10 * Value(s) + (c as int - 48)
  {
    assert (s + [c])[..|s|] == s;
  }

  lemma Quotient(q: nat, r: nat)
    requires r < 10
    ensures (q * 10 + r) / 10 == q && (q * 10 + r) % 10 == r
  {
  }

  /** Reading a whole string as an unsigned 64-bit number. */
  function ReadUnsigned(s: string): (r: Option<u64>) {
    if s != "" && AllDigits(s) && Value(s) <= U64_MAX then Some(Value(s)) else None
  }

  lemma UnsignedReadsBack(n: u64)
    ensures ReadUnsigned(Print(n)) == Some(n)
  {
    PrintReadsBack(n);
  }
}
