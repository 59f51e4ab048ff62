/** The strict integer grammar of command arguments. */
module RedisInt {
  import opened MachineInts
  import opened Decimal

  function PrintSigned(v: int): string {
    if v < 0 then "-" + Print(-v) else Print(v)
  }

  /** Reading a whole string as a signed 64-bit number, leading zeros allowed. */
  function ReadSigned(s: string): (r: Option<i64>) {
    if s != "" && s[0] == '-' then
      if s[1..] != "" && AllDigits(s[1..]) && Value(s[1..]) <= I64_MAX + 1 then Some(0 - Value(s[1..]) as int) else None
    else
      if s != "" && AllDigits(s) && Value(s) <= I64_MAX then Some(Value(s)) else None
  }

  /** The magnitude of a spelling, as the grammar wants it: no leading zero. */
  ghost predicate Strict(magnitude: string) {
    magnitude != "" && AllDigits(magnitude) && magnitude[0] != '0'
  }

  lemma PrintedMagnitude(v: int)
    ensures v == 0 ==> PrintSigned(v) == "0"
    ensures v > 0 ==> Strict(PrintSigned(v)) && ReadSigned(PrintSigned(v)) == if v <= I64_MAX then Some(v) else None
    ensures v < 0 ==> var s := PrintSigned(v);
              s[0] == '-' && Strict(s[1..]) && ReadSigned(s) == if v >= I64_MIN then Some(v) else None
  {
    PrintIsCanonical(if v < 0 then -v else v);
    PrintReadsBack(if v < 0 then -v else v);
    if v < 0 { assert PrintSigned(v)[1..] == Print(-v); }
  }

  lemma StrictIsPrinted(input: string, v: i64)
    requires ReadSigned(input) == Some(v)
    requires Strict(if input[0] == '-' then input[1..] else input)
    ensures v != 0 && input == PrintSigned(v)
  {
    var magnitude := if input[0] == '-' then input[1..] else input;
    CanonicalIsPositive(magnitude);
    CanonicalIsPrinted(magnitude);
    if input[0] == '-' { assert input == "-" + magnitude; }
  }

  lemma PrintedIsStrict(input: string, v: i64)
    requires input == PrintSigned(v) && v != 0
    ensures input != "" && Strict(if input[0] == '-' then input[1..] else input) && ReadSigned(input) == Some(v)
  {
    PrintedMagnitude(v);
  }

  /** A text is accepted exactly when it is the printed form of a 64-bit integer,
      and that integer is the result. */
  method ParseRedisInt64(input: string) returns (r: Option<i64>)
    ensures forall v: i64 :: r == Some(v) <==> input == PrintSigned(v)
  {
    PrintedMagnitude(0);
    forall v: i64 | input == PrintSigned(v) && v != 0
      ensures input != "" && Strict(if input[0] == '-' then input[1..] else input) && ReadSigned(input) == Some(v)
    {
      PrintedIsStrict(input, v);
    }
    assert PrintSigned(0) != "";
    if input == "" { return None; }
    var magnitude := input;
    if magnitude[0] == '-' { magnitude := magnitude[1..]; }
    if magnitude == "" || (|magnitude| > 1 && magnitude[0] == '0') ||
       (input[0] == '-' && magnitude == "0") || magnitude[0] < '1' || magnitude[0] > '9'
    {
      if input == "0" { return Some(0); }
      return None;
    }
    for i := 0 to |magnitude|
      invariant AllDigits(magnitude[..i])
    {
      if magnitude[i] < '0' || magnitude[i] > '9' { return None; }
    }
    assert magnitude[..|magnitude|] == magnitude;
    r := ReadSigned(input);
    if r.Some? { StrictIsPrinted(input, r.value); }
  }

  /** Printing is injective: no two integers have the same printed form. */
  lemma PrintedFormsDiffer(v: int, w: int)
    requires PrintSigned(v) == PrintSigned(w)
    ensures v == w
  {
    PrintIsCanonical(if v < 0 then -v else v);
    PrintIsCanonical(if w < 0 then -w else w);
    PrintReadsBack(if v < 0 then -v else v);
    PrintReadsBack(if w < 0 then -w else w);
    assert v < 0 ==> PrintSigned(v)[1..] == Print(-v) && PrintSigned(v)[0] == '-';
    assert w < 0 ==> PrintSigned(w)[1..] == Print(-w) && PrintSigned(w)[0] == '-';
    assert v >= 0 ==> IsDigit(PrintSigned(v)[0]);
    assert w >= 0 ==> IsDigit(PrintSigned(w)[0]);
  }
}
