/** The W3CDTF reader of src/datetime.rs. */
module Datetime {
  import opened Calendar
  import opened Outcomes
  import opened Text

  const SECONDS_PER_DAY := 86_400

  datatype Timestamp = Timestamp(seconds: int, nanos: int)

  datatype TimeOfDay = TimeOfDay(hour: nat, minute: nat, second: nat, nanos: nat)

  const MIDNIGHT := TimeOfDay(0, 0, 0, 0)

  /** The instant of a date, a time of day and an offset in minutes east of UTC. */
  function Instant(date: Date, time: TimeOfDay, offset: int): Timestamp {
    Timestamp(
      Count(date) * SECONDS_PER_DAY + time.hour * 3_600 + time.minute * 60 + time.second - offset * 60,
      time.nanos)
  }

  // ----- The reader -----

  function Parse(value: string): Option<Timestamp> {
    var text := Trim(value);
    if text == "" then None
    else
      var (date, clock) := CutAtSeparator(text);
      match DateParts(date)
      case None => None
      case Some(d) =>
        if clock == "" then Some(Instant(d, MIDNIGHT, 0))
        else
          match ClockParts(clock)
          case None => None
          case Some((time, offset)) => Some(Instant(d, time, offset))
  }

  /** A text cut at its first separator; without one there is no clock part. */
  function CutAtSeparator(text: string): (string, string) {
    match FirstOf(text, {'T', 't', ' '})
    case None => (text, "")
    case Some(cut) => (text[..cut], text[cut + 1..])
  }

  function Part(parts: seq<string>, k: nat): Option<string> {
    if k < |parts| then Some(parts[k]) else None
  }

  function DateParts(date: string): Option<Date> {
    var parts := Split(date, '-');
    var year := parts[0];
    if |year| != 4 || !AllDigits(year) || Value(year) == 0 then None
    else
      match (TwoDigits(Part(parts, 1), 1), TwoDigits(Part(parts, 2), 1))
      case (Some(month), Some(day)) =>
        if |parts| > 3 || !(1 <= month <= 12) then None
        else if day < 1 || day > DaysInMonth(Value(year), month) then None
        else Some(Date(Value(year), month, day))
      case _ => None
  }

  /** One or two digits, or the default when the source left the field out. */
  function TwoDigits(field: Option<string>, default: nat): Option<nat> {
    match field
    case None => Some(default)
    case Some(text) => if IsField(text) then Some(Value(text)) else None
  }

  predicate IsField(text: string) {
    1 <= |text| <= 2 && AllDigits(text)
  }

  function ClockParts(clock: string): Option<(TimeOfDay, int)> {
    match SplitOffset(clock)
    case None => None
    case Some((time, offset)) =>
      match TimeParts(Split(time, ':'))
      case None => None
      case Some(t) => Some((t, offset))
  }

  function TimeParts(parts: seq<string>): Option<TimeOfDay> {
    match (TwoDigits(Part(parts, 0), 0), TwoDigits(Part(parts, 1), 0), SecondsOf(Part(parts, 2)))
    case (Some(hour), Some(minute), Some((second, nanos))) =>
      if |parts| > 3 || hour > 23 || minute > 59 || second > 59 then None
      else Some(TimeOfDay(hour, minute, second, nanos))
    case _ => None
  }

  function SecondsOf(field: Option<string>): Option<(nat, nat)> {
    match field
    case None => Some((0, 0))
    case Some(text) =>
      var (whole, fraction) := SplitOnce(text, '.').UnwrapOr((text, ""));
      match (TwoDigits(Some(whole), 0), NanosOf(fraction))
      case (Some(second), Some(nanos)) => Some((second, nanos))
      case _ => None
  }

  /** The time of day and the offset its timezone designator names. */
  function SplitOffset(clock: string): Option<(string, int)> {
    if clock != "" && clock[|clock| - 1] in {'Z', 'z'} then Some((clock[..|clock| - 1], 0))
    else
      match LastOf(clock, {'+', '-'})
      case None => Some((clock, 0))
      case Some(index) => SignedOffset(clock[..index], clock[index], clock[index + 1..])
  }

  function SignedOffset(time: string, sign: char, digits: string): Option<(string, int)> {
    match OffsetMinutes(digits)
    case None => None
    case Some(minutes) => Some((time, Signed(sign, minutes)))
  }

  function Signed(sign: char, minutes: int): int {
    if sign == '-' then -minutes else minutes
  }

  /** The minutes of a designator after its sign: `hh:mm`, `hhmm` or `hh`. */
  function OffsetMinutes(digits: string): Option<nat> {
    var (hours, minutes) := OffsetFields(digits);
    match (TwoDigits(Some(hours), 0), TwoDigits(Some(minutes), 0))
    case (Some(h), Some(m)) => if h > 23 || m > 59 then None else Some(h * 60 + m)
    case _ => None
  }

  function OffsetFields(digits: string): (string, string) {
    match SplitOnce(digits, ':')
    case Some(pair) => pair
    case None => if |digits| == 4 then (digits[..2], digits[2..]) else (digits, "0")
  }

  /** Nine digits of a fraction: longer ones are cut, shorter ones filled with zeros. */
  function NineDigits(fraction: string): string {
    (fraction + "000000000")[..9]
  }

  function NanosOf(fraction: string): Option<nat> {
    if AllDigits(fraction) then Some(Value(NineDigits(fraction))) else None
  }

  /** The program's loop over the first nine positions of a fraction. */
  method Nanoseconds(fraction: string) returns (r: Option<nat>)
    ensures r == NanosOf(fraction)
    ensures r.Some? ==> r.value < 1_000_000_000
  {
    if fraction == "" {
      assert NineDigits(fraction) == "000000000";
      Zeros("000000000");
      return Some(0);
    }
    if !AllDigits(fraction) {
      return None;
    }
    ghost var digits := NineDigits(fraction);
    var nanos := 0;
    for position := 0 to 9
      invariant AllDigits(digits)
      invariant nanos == Value(digits[..position])
      invariant nanos < Pow10(position)
    {
      var digit := if position < |fraction| then (fraction[position] - '0') as nat else 0;
      assert digits[..position + 1][..position] == digits[..position];
      nanos := nanos * 10 + digit;
    }
    assert digits[..9] == digits;
    return Some(nanos);
  }

  lemma {:induction false} Zeros(s: string)
    requires forall k :: 0 <= k < |s| ==> s[k] == '0'
    ensures AllDigits(s) && Value(s) == 0
  {
    if s != "" { Zeros(s[..|s| - 1]); }
  }
}
