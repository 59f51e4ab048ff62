/** Bucket bounds as text: microseconds written exactly as decimal seconds. */
module MetricsText {
  import opened Decimal

  function Pow10(n: nat): (p: nat)
    ensures p > 0
  {
    if n == 0 then 1 else Pow10(n - 1) * 10
  }

  lemma {:induction false} ValueJoins(a: string, b: string)
    requires AllDigits(a) && AllDigits(b)
    ensures AllDigits(a + b) && Value(a + b) == Value(a) * Pow10(|b|) + Value(b)
    decreases |b|
  {
    if b == "" {
      assert a + b == a;
    } else {
      var front, last := b[..|b| - 1], DigitValue(b[|b| - 1]);
      ValueJoins(a, front);
      assert (a + b)[..|a + b| - 1] == a + front;
      ScaleUp(Value(a), Pow10(|front|), Value(front), last);
    }
  }

  lemma ScaleUp(a: nat, p: nat, f: nat, d: nat)
    ensures (a * p + f) * 10 + d == a * (p * 10) + (f * 10 + d)
  {
  }

  lemma {:induction false} ValueBelow(s: string)
    requires AllDigits(s)
    ensures Value(s) < Pow10(|s|)
  {
    if s != "" { ValueBelow(s[..|s| - 1]); }
  }

  lemma {:induction false} PrintLength(n: nat, k: nat)
    requires Pow10(k) <= n < Pow10(k + 1)
    ensures |Print(n)| == k + 1
    decreases k
  {
    if k > 0 { PrintLength(n / 10, k - 1); }
  }

  const MILLION: nat := 1000000

  lemma MillionIsPow10()
    ensures Pow10(6) == MILLION && Pow10(7) == 10 * MILLION
  {
    assert Pow10(1) == 10 && Pow10(2) == 100 && Pow10(3) == 1000 && Pow10(4) == 10000 && Pow10(5) == 100000;
  }

  /** The last six digits of the printed form are the remainder, zeros included. */
  lemma PaddedRemainder(remainder: nat)
    requires remainder < MILLION
    ensures var s := Print(remainder + MILLION); |s| == 7 && AllDigits(s[1..]) && Value(s[1..]) == remainder
  {
    MillionIsPow10();
    PrintLength(remainder + MILLION, 6);
    PrintReadsBack(remainder + MILLION);
    var s := Print(remainder + MILLION);
    assert s == s[..1] + s[1..];
    ValueJoins(s[..1], s[1..]);
    ValueBelow(s[1..]);
    LeadingOne(Value(s[..1]), Value(s[1..]), remainder);
  }

  lemma LeadingOne(first: nat, rest: nat, remainder: nat)
    requires rest < MILLION && remainder < MILLION && first * MILLION + rest == remainder + MILLION
    ensures first == 1 && rest == remainder
  {
  }

  /** `text` is the decimal number of seconds that equals the microseconds exactly,
      with no zero at its end. */
  ghost predicate Writes(text: string, microseconds: nat, fraction: string) {
    && AllDigits(fraction) && |fraction| <= 6
    && microseconds == Value(Print(microseconds / MILLION)) * MILLION + Value(fraction) * Pow10(6 - |fraction|)
    && if fraction == "" then text == Print(microseconds / MILLION)
       else fraction[|fraction| - 1] != '0' && text == Print(microseconds / MILLION) + "." + fraction
  }

  method SecondsFromMicroseconds(microseconds: nat) returns (text: string)
    ensures exists fraction :: Writes(text, microseconds, fraction)
  {
    var seconds, remainder := microseconds / MILLION, microseconds % MILLION;
    PrintReadsBack(seconds);
    if remainder == 0 {
      text := Print(seconds);
      assert Writes(text, microseconds, "");
      return;
    }
    PaddedRemainder(remainder);
    var fraction := Print(remainder + MILLION)[1..];
    assert Pow10(0) == 1;
    while fraction[|fraction| - 1] == '0'
      invariant 0 < |fraction| <= 6 && AllDigits(fraction)
      invariant Value(fraction) * Pow10(6 - |fraction|) == remainder
      decreases |fraction|
    {
      DropZero(fraction, 6 - |fraction|);
      fraction := fraction[..|fraction| - 1];
    }
    text := Print(seconds) + "." + fraction;
    assert Writes(text, microseconds, fraction);
  }

  lemma DropZero(fraction: string, k: nat)
    requires fraction != "" && AllDigits(fraction) && fraction[|fraction| - 1] == '0'
    ensures var front := fraction[..|fraction| - 1];
            Value(fraction) * Pow10(k) == Value(front) * Pow10(k + 1) && (Value(fraction) > 0 ==> front != "")
  {
    Reorder(Value(fraction[..|fraction| - 1]), Pow10(k));
  }

  lemma Reorder(v: nat, p: nat)
    ensures v * 10 * p == v * (p * 10)
  {
  }
}
