/** Expiration deadlines from command arguments. */
module Expiration {
  import opened MachineInts
  import opened Decimal
  import opened RedisInt

  datatype PastExpirationPolicy = ExpireImmediately | RejectNonPositive

  datatype Deadline = At(millis: u64) | NotAnInteger | InvalidExpireTime

  /** The integer a text spells, if it spells one. */
  ghost function Spelled(text: string): (r: Option<i64>)
    ensures forall v: i64 :: r == Some(v) <==> text == PrintSigned(v)
  {
    if v: i64 :| text == PrintSigned(v) then
      assert forall w: i64 :: text == PrintSigned(w) ==> w == v by {
        forall w: i64 | text == PrintSigned(w) ensures w == v { PrintedFormsDiffer(v, w); }
      }
      Some(v)
    else None
  }

  ghost predicate Fits(v: int) {
    I64_MIN <= v <= I64_MAX
  }

  /** The deadline a value means, over the unbounded integers. */
  ghost function Instant(value: int, seconds: bool, absolute: bool, now: int): int {
    (if seconds then value * 1000 else value) + (if absolute then 0 else now)
  }

  /** What the command promises. */
  ghost function Meaning(text: string, seconds: bool, absolute: bool, now: i64,
      policy: PastExpirationPolicy): (r: Deadline)
    requires now >= 0
  {
    match Spelled(text)
    case None => NotAnInteger
    case Some(value) =>
      var instant := Instant(value, seconds, absolute, now);
      if policy.RejectNonPositive? && value <= 0 then InvalidExpireTime
      else if !Fits(Instant(value, seconds, true, now)) || instant > I64_MAX then InvalidExpireTime
      else if policy.ExpireImmediately? && instant <= now then At(1)
      else if instant <= 0 then InvalidExpireTime
      else At(instant)
  }

  /** Division as the machine does it, toward zero. */
  function TruncatedQuotient(a: int, b: int): int
    requires b > 0
  {
    if a < 0 then -((-a) / b) else a / b
  }

  /** Every intermediate value is a signed 64-bit integer, the result is what the
      command promises, and it is never the zero that means "no expiration". */
  method ParseRedisExpirationDeadline(text: string, seconds: bool, absolute: bool, now: i64,
                                      policy: PastExpirationPolicy) returns (r: Deadline)
    requires now >= 0
    ensures r == Meaning(text, seconds, absolute, now, policy)
    ensures r.At? ==> r.millis > 0
  {
    var parsed := ParseRedisInt64(text);
    assert parsed == Spelled(text) by {
      if parsed.Some? { assert text == PrintSigned(parsed.value); }
    }
    if parsed.None? { return NotAnInteger; }
    var value: i64 := parsed.value;
    if policy.RejectNonPositive? && value <= 0 { return InvalidExpireTime; }
    if seconds && (value > TruncatedQuotient(I64_MAX, 1000) || value < TruncatedQuotient(I64_MIN, 1000)) {
      return InvalidExpireTime;
    }
    if seconds { value := value * 1000; }
    if !absolute {
      var room: i64 := I64_MAX - now;
      if value > room { return InvalidExpireTime; }
      value := value + now;
    }
    if policy.ExpireImmediately? && value <= now { return At(1); }
    if value <= 0 { return InvalidExpireTime; }
    r := At(value);
  }

  /** An integer is accepted exactly when it and the deadline it means fit in 64 bits and,
      where past deadlines are rejected, it is positive. The deadline then comes out
      exactly, save that a past one becomes the sentinel where it expires at once. So
      the program's last check, for a deadline of zero or less, never rejects. */
  lemma DeadlineDecides(value: i64, seconds: bool, absolute: bool, now: i64, policy: PastExpirationPolicy)
    requires now >= 0
    ensures var span := if seconds then 1000 * value else value;
            var instant := if absolute then span else now + span;
            var r := Meaning(PrintSigned(value), seconds, absolute, now, policy);
            (r.At? <==> ((policy.RejectNonPositive? ==> value > 0) && I64_MIN <= span && span <= I64_MAX &&
                         instant <= I64_MAX)) &&
            (r.At? ==> r.millis == if policy.ExpireImmediately? && instant <= now then 1 else instant) &&
            (!r.At? ==> r == InvalidExpireTime)
  {
    assert Spelled(PrintSigned(value)) == Some(value);
  }

  /** Anything that is not the printed form of a 64-bit integer is refused as such. */
  lemma OtherTextIsNoInteger(text: string, seconds: bool, absolute: bool, now: i64, policy: PastExpirationPolicy)
    requires now >= 0
    ensures Meaning(text, seconds, absolute, now, policy) == NotAnInteger <==> forall v: i64 :: text != PrintSigned(v)
  {
    if Spelled(text).Some? { assert text == PrintSigned(Spelled(text).value); }
  }
}
