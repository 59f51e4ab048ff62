/** Memory sizes and client-buffer limits as configuration text. */
module ConfigSizes {
  import opened Arithmetic
  import opened MachineInts
  import opened Decimal
  import opened ConfigRewrite
  import opened MemoryLimits

  datatype SizeError = InvalidSize | SizeOutOfRange

  datatype SizeResult = Size(bytes: u64) | SizeFailure(error: SizeError)

  const KIB: nat := 1024
  const MIB: nat := 1024 * 1024
  const GIB: nat := 1024 * 1024 * 1024
  const TIB: nat := 1024 * 1024 * 1024 * 1024

  function Multiplier(suffix: string): (m: Option<nat>)
    ensures m.Some? ==> 1 <= m.value <= TIB
  {
    if suffix == "" || suffix == "b" then Some(1)
    else if suffix == "k" || suffix == "kb" then Some(KIB)
    else if suffix == "m" || suffix == "mb" then Some(MIB)
    else if suffix == "g" || suffix == "gb" then Some(GIB)
    else if suffix == "t" || suffix == "tb" then Some(TIB)
    else None
  }

  /** A size: digits, then a unit in any case. */
  ghost predicate WrittenSize(text: string, digits: string, multiplier: nat) {
    && digits != "" && AllDigits(digits)
    && |digits| <= |text| && text[..|digits|] == digits
    && Multiplier(Lower(text[|digits|..])) == Some(multiplier)
  }

  /** What a written size is worth, over the unbounded integers. */
  ghost function Worth(digits: string, multiplier: nat): nat
    requires AllDigits(digits)
  {
    Value(digits) * multiplier
  }

  /** The digits of a written size are all its leading digits. */
  lemma WrittenOnce(text: string, digits: string, multiplier: nat, scanned: nat)
    requires WrittenSize(text, digits, multiplier)
    requires scanned <= |text| && AllDigits(text[..scanned]) && (scanned < |text| ==> !IsDigit(text[scanned]))
    ensures text[..scanned] == digits
  {
    var n := |digits|;
    PrefixDigits(text, n);
    PrefixDigits(text, scanned);
    var suffix := Lower(text[n..]);
    assert n < |text| ==> suffix[0] == LowerChar(text[n]) && !IsDigit(suffix[0]);
  }

  lemma PrefixDigits(text: string, n: nat)
    requires n <= |text| && AllDigits(text[..n])
    ensures forall i :: 0 <= i < n ==> IsDigit(text[i])
  {
    assert forall i :: 0 <= i < n ==> text[i] == text[..n][i];
  }

  lemma ProductFits(value: nat, multiplier: nat)
    requires multiplier > 0
    ensures value > U64_MAX / multiplier <==> value * multiplier > U64_MAX
  {
    var q, r := U64_MAX / multiplier, U64_MAX % multiplier;
    assert U64_MAX == multiplier * q + r && r < multiplier;
    if value <= q {
      ProductOrder(multiplier, value, q);
    } else {
      ProductOrder(multiplier, q + 1, value);
      ProductStep(multiplier, q);
    }
    Commute(value, multiplier);
  }

  function SizeOf(digits: string, multiplier: Option<nat>): (r: SizeResult)
    requires AllDigits(digits) && (multiplier.Some? ==> multiplier.value > 0)
    ensures r == if digits == "" || Value(digits) > U64_MAX || multiplier.None? then SizeFailure(InvalidSize)
                 else if Worth(digits, multiplier.value) > U64_MAX then SizeFailure(SizeOutOfRange)
                 else Size(Worth(digits, multiplier.value))
    ensures r.Size? ==> digits != "" && multiplier.Some?
  {
    var value := ReadUnsigned(digits);
    if value.None? || multiplier.None? then SizeFailure(InvalidSize)
    else
      ProductFits(value.value, multiplier.value);
      if value.value > U64_MAX / multiplier.value then SizeFailure(SizeOutOfRange)
      else Size(value.value * multiplier.value)
  }

  function LeadingDigits(text: string): (n: nat)
    ensures n <= |text| && AllDigits(text[..n]) && (n < |text| ==> !IsDigit(text[n]))
  {
    if text == "" || !IsDigit(text[0]) then 0
    else
      var n := LeadingDigits(text[1..]);
      assert text[..n + 1] == [text[0]] + text[1..][..n];
      n + 1
  }

  function MemorySize(text: string): (r: SizeResult) {
    var digits := LeadingDigits(text);
    SizeOf(text[..digits], Multiplier(Lower(text[digits..])))
  }

  method ParseMemorySize(text: string) returns (r: SizeResult)
    ensures r == MemorySize(text)
  {
    PrefixDigits(text, LeadingDigits(text));
    var digits: nat := 0;
    while digits < |text| && '0' <= text[digits] <= '9'
      invariant digits <= LeadingDigits(text)
    {
      digits := digits + 1;
    }
    r := SizeOf(text[..digits], Multiplier(Lower(text[digits..])));
  }

  /** A size is read exactly when it is written as digits and a unit and its worth
      fits in 64 bits, and then its worth is the result. */
  lemma SizeIsWorth(text: string)
    ensures MemorySize(text).Size? <==> exists digits, m :: WrittenSize(text, digits, m) && Worth(digits, m) <= U64_MAX
    ensures forall digits, m :: WrittenSize(text, digits, m) ==>
              MemorySize(text) ==
                if Worth(digits, m) <= U64_MAX then Size(Worth(digits, m))
                else if Value(digits) <= U64_MAX then SizeFailure(SizeOutOfRange)
                else SizeFailure(InvalidSize)
    ensures MemorySize(text) == SizeFailure(SizeOutOfRange) ==> exists digits, m :: WrittenSize(text, digits, m)
  {
    var n := LeadingDigits(text);
    var m := Multiplier(Lower(text[n..]));
    forall d, k: nat | WrittenSize(text, d, k)
      ensures d == text[..n] && m == Some(k) && Value(d) <= Worth(d, k)
    {
      WrittenOnce(text, d, k, n);
      ProductOrder(Value(d), 1, k);
    }
    if MemorySize(text) != SizeFailure(InvalidSize) {
      assert WrittenSize(text, text[..n], m.value);
    }
  }

  /** What a unit is worth in bytes, letter case aside. */
  ghost function UnitBytes(unit: string): Option<nat> {
    if unit == "" || SameName(unit, "b") then Some(1)
    else if SameName(unit, "k") || SameName(unit, "kb") then Some(1024)
    else if SameName(unit, "m") || SameName(unit, "mb") then Some(1048576)
    else if SameName(unit, "g") || SameName(unit, "gb") then Some(1073741824)
    else if SameName(unit, "t") || SameName(unit, "tb") then Some(1099511627776)
    else None
  }

  lemma MultiplierIsUnit(unit: string)
    ensures Multiplier(Lower(unit)) == UnitBytes(unit)
  {
    OneLetterUnits(unit);
    TwoLetterUnits(unit);
    assert Lower(unit) == "" <==> unit == "";
  }

  lemma OneLetterUnits(unit: string)
    ensures (Lower(unit) == "b" <==> SameName(unit, "b")) && (Lower(unit) == "k" <==> SameName(unit, "k"))
    ensures (Lower(unit) == "m" <==> SameName(unit, "m")) && (Lower(unit) == "g" <==> SameName(unit, "g"))
    ensures Lower(unit) == "t" <==> SameName(unit, "t")
  {
    LowerIsSameName(unit, "b");
    LowerIsSameName(unit, "k");
    LowerIsSameName(unit, "m");
    LowerIsSameName(unit, "g");
    LowerIsSameName(unit, "t");
  }

  lemma TwoLetterUnits(unit: string)
    ensures (Lower(unit) == "kb" <==> SameName(unit, "kb")) && (Lower(unit) == "mb" <==> SameName(unit, "mb"))
    ensures (Lower(unit) == "gb" <==> SameName(unit, "gb")) && (Lower(unit) == "tb" <==> SameName(unit, "tb"))
  {
    LowerIsSameName(unit, "kb");
    LowerIsSameName(unit, "mb");
    LowerIsSameName(unit, "gb");
    LowerIsSameName(unit, "tb");
  }

  /** A number with a unit is that many of the unit, or too large; with anything else
      behind it, it is no size. */
  lemma NumberWithUnit(n: nat, unit: string)
    requires unit != "" ==> !IsDigit(unit[0])
    ensures MemorySize(Print(n) + unit)
         == match UnitBytes(unit)
            case None => SizeFailure(InvalidSize)
            case Some(bytes) =>
              if n * bytes <= U64_MAX then Size(n * bytes)
              else if n <= U64_MAX then SizeFailure(SizeOutOfRange)
              else SizeFailure(InvalidSize)
  {
    var text := Print(n) + unit;
    PrintReadsBack(n);
    MultiplierIsUnit(unit);
    LeadingOf(Print(n), unit);
    assert text[..|Print(n)|] == Print(n) && text[|Print(n)|..] == unit;
    if UnitBytes(unit).Some? { ProductOrder(n, 1, UnitBytes(unit).value); }
  }

  lemma LeadingOf(digits: string, rest: string)
    requires AllDigits(digits) && (rest != "" ==> !IsDigit(rest[0]))
    ensures LeadingDigits(digits + rest) == |digits|
  {
    var text := digits + rest;
    PrefixDigits(text, LeadingDigits(text));
    assert forall i :: 0 <= i < |digits| ==> text[i] == digits[i];
    assert rest != "" ==> text[|digits|] == rest[0];
  }

  // ----- client-buffer limits

  datatype LimitResult = Limit(limit: ClientBufferLimit) | LimitFailure(error: SizeError)

  function ParseClientBufferLimit(text: string): (r: LimitResult)
    ensures r.Limit? ==> r.limit.Valid()
  {
    if text != "" && text[|text| - 1] == '%' then
      var percentage := ReadUnsigned(text[..|text| - 1]);
      if percentage.None? || percentage.value > 100 then LimitFailure(InvalidSize)
      else Limit(ClientBufferLimit(percentage.value, true))
    else
      match MemorySize(text)
      case Size(bytes) => Limit(ClientBufferLimit(bytes, false))
      case SizeFailure(error) => LimitFailure(error)
  }

  function FormatClientBufferLimit(limit: ClientBufferLimit): string {
    Print(limit.value) + (if limit.percentage then "%" else "")
  }

  /** Every limit the server can hold survives being printed and read again. */
  lemma ClientLimitReadsBack(limit: ClientBufferLimit)
    requires limit.Valid()
    ensures ParseClientBufferLimit(FormatClientBufferLimit(limit)) == Limit(limit)
  {
    var digits, text := Print(limit.value), FormatClientBufferLimit(limit);
    UnsignedReadsBack(limit.value);
    if limit.percentage {
      assert text[..|text| - 1] == digits;
    } else {
      assert text == digits && IsDigit(text[|text| - 1]);
      assert WrittenSize(text, digits, 1) by {
        assert text[|digits|..] == "" && Lower("") == "";
      }
      SizeIsWorth(text);
    }
  }

  ghost predicate WrittenPercentage(text: string, digits: string) {
    digits != "" && AllDigits(digits) && text == digits + "%" && Value(digits) <= 100
  }

  /** Exactly which texts are which limits: a percentage up to 100, or a size. */
  lemma ClientLimitIsWritten(text: string, limit: ClientBufferLimit)
    ensures ParseClientBufferLimit(text) == Limit(limit) <==>
            if limit.percentage then exists digits :: WrittenPercentage(text, digits) && Value(digits) == limit.value
            else exists digits, m :: WrittenSize(text, digits, m) && Worth(digits, m) == limit.value
  {
    if text != "" && text[|text| - 1] == '%' {
      PercentageIsWritten(text, limit);
    } else {
      SizeIsWritten(text, limit);
    }
  }

  lemma PercentageIsWritten(text: string, limit: ClientBufferLimit)
    requires text != "" && text[|text| - 1] == '%'
    ensures ParseClientBufferLimit(text) == Limit(limit) <==>
            limit.percentage && exists digits :: WrittenPercentage(text, digits) && Value(digits) == limit.value
    ensures forall digits, m :: !WrittenSize(text, digits, m)
  {
    var front := text[..|text| - 1];
    assert text == front + "%";
    NoSizeEndsInPercent(text);
    forall digits | WrittenPercentage(text, digits)
      ensures digits == front
    {
      assert (digits + "%")[..|digits|] == digits;
    }
    if ParseClientBufferLimit(text).Limit? { assert WrittenPercentage(text, front); }
  }

  lemma SizeIsWritten(text: string, limit: ClientBufferLimit)
    requires text == "" || text[|text| - 1] != '%'
    ensures ParseClientBufferLimit(text) == Limit(limit) <==>
            !limit.percentage && exists digits, m :: WrittenSize(text, digits, m) && Worth(digits, m) == limit.value
    ensures forall digits :: !WrittenPercentage(text, digits)
  {
    SizeIsWorth(text);
  }

  lemma NoSizeEndsInPercent(text: string)
    requires text != "" && text[|text| - 1] == '%'
    ensures forall digits, m :: !WrittenSize(text, digits, m)
  {
    forall digits: string, m: nat
      ensures !WrittenSize(text, digits, m)
    {
      if |digits| < |text| {
        var suffix := Lower(text[|digits|..]);
        assert suffix[|suffix| - 1] == '%';
      } else if |digits| == |text| && text[..|digits|] == digits {
        assert digits[|text| - 1] == '%';
      }
    }
  }
}
