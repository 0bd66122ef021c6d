/**
 * The grammar of the date reader, written as the spellings that print to an
 * accepted text, and the proof that the reader accepts exactly those and reads
 * each as the instant it spells.
 */
module DateGrammar {
  import opened Calendar
  import opened Datetime
  import opened Outcomes
  import opened Text

  /** A date as far as its source truncated it. */
  datatype DateText =
    | YearOnly(year: string)
    | YearMonth(year: string, month: string)
    | FullDate(year: string, month: string, day: string)

  /** A time of day as far as its source truncated it. */
  datatype TimeText =
    | HourOnly(hour: string)
    | HourMinute(hour: string, minute: string)
    | WholeSecond(hour: string, minute: string, second: string)
    | Fractional(hour: string, minute: string, second: string, fraction: string)

  datatype ZoneText =
    | NoZone
    | Zulu(letter: char)
    | ColonOffset(sign: char, hours: string, minutes: string)
    | PackedOffset(sign: char, hours: string, minutes: string)
    | HourOffset(sign: char, hours: string)

  datatype ClockText = NoClock | LoneSeparator(separator: char) | AtTime(separator: char, time: TimeText, zone: ZoneText)

  datatype Spelling = Spelling(before: string, date: DateText, clock: ClockText, after: string)

  function DatePieces(d: DateText): seq<string> {
    match d
    case YearOnly(y) => [y]
    case YearMonth(y, m) => [y, m]
    case FullDate(y, m, day) => [y, m, day]
  }

  function TimePieces(t: TimeText): seq<string> {
    match t
    case HourOnly(h) => [h]
    case HourMinute(h, m) => [h, m]
    case WholeSecond(h, m, s) => [h, m, s]
    case Fractional(h, m, s, f) => [h, m, s + ['.'] + f]
  }

  predicate HasSign(z: ZoneText) {
    z.ColonOffset? || z.PackedOffset? || z.HourOffset?
  }

  /** What follows the sign of a designator. */
  function AfterSign(z: ZoneText): string
    requires HasSign(z)
  {
    match z
    case ColonOffset(_, h, m) => h + [':'] + m
    case PackedOffset(_, h, m) => h + m
    case HourOffset(_, h) => h
  }

  function ZoneString(z: ZoneText): string {
    if HasSign(z) then [z.sign] + AfterSign(z) else if z.Zulu? then [z.letter] else ""
  }

  function ClockString(c: ClockText): string {
    match c
    case NoClock => ""
    case LoneSeparator(separator) => [separator]
    case AtTime(separator, time, zone) => [separator] + (Join(TimePieces(time), ':') + ZoneString(zone))
  }

  function Print(s: Spelling): string {
    s.before + (Join(DatePieces(s.date), '-') + ClockString(s.clock)) + s.after
  }

  /** A field spelling a number from `low` to `high`. */
  predicate InRange(field: string, low: nat, high: nat) {
    1 <= |field| <= 2 && AllDigits(field) && low <= Value(field) <= high
  }

  predicate ValidDate(d: DateText) {
    && |d.year| == 4 && AllDigits(d.year) && Value(d.year) > 0
    && (d.YearOnly? || InRange(d.month, 1, 12))
    && (d.FullDate? ==> InRange(d.day, 1, DaysInMonth(Value(d.year), Value(d.month))))
  }

  predicate ValidTime(t: TimeText) {
    && InRange(t.hour, 0, 23)
    && (t.HourOnly? || InRange(t.minute, 0, 59))
    && (t.WholeSecond? || t.Fractional? ==> InRange(t.second, 0, 59))
    && (t.Fractional? ==> AllDigits(t.fraction))
  }

  predicate ValidZone(z: ZoneText) {
    match z
    case NoZone => true
    case Zulu(letter) => letter in {'Z', 'z'}
    case ColonOffset(sign, h, m) => sign in {'+', '-'} && InRange(h, 0, 23) && InRange(m, 0, 59)
    case PackedOffset(sign, h, m) =>
      sign in {'+', '-'} && InRange(h, 0, 23) && InRange(m, 0, 59) && |h| == |m| == 2
    case HourOffset(sign, h) => sign in {'+', '-'} && InRange(h, 0, 23)
  }

  predicate ValidClock(c: ClockText) {
    match c
    case NoClock => true
    case LoneSeparator(separator) => separator in {'T', 't'}
    case AtTime(separator, time, zone) => separator in {'T', 't', ' '} && ValidTime(time) && ValidZone(zone)
  }

  predicate ValidSpelling(s: Spelling) {
    AllSpace(s.before) && AllSpace(s.after) && ValidDate(s.date) && ValidClock(s.clock)
  }

  function DateMeant(d: DateText): Date
    requires ValidDate(d)
  {
    Date(Value(d.year), if d.YearOnly? then 1 else Value(d.month), if d.FullDate? then Value(d.day) else 1)
  }

  function MinutesMeant(z: ZoneText): nat
    requires ValidZone(z)
  {
    match z
    case ColonOffset(_, h, m) => Value(h) * 60 + Value(m)
    case PackedOffset(_, h, m) => Value(h) * 60 + Value(m)
    case HourOffset(_, h) => Value(h) * 60
    case _ => 0
  }

  function OffsetMeant(z: ZoneText): int
    requires ValidZone(z)
  {
    var minutes: int := MinutesMeant(z);
    if HasSign(z) && z.sign == '-' then -minutes else minutes
  }

  function TimeMeant(t: TimeText): TimeOfDay
    requires ValidTime(t)
  {
    match t
    case HourOnly(h) => TimeOfDay(Value(h), 0, 0, 0)
    case HourMinute(h, m) => TimeOfDay(Value(h), Value(m), 0, 0)
    case WholeSecond(h, m, s) => TimeOfDay(Value(h), Value(m), Value(s), 0)
    case Fractional(h, m, s, f) => TimeOfDay(Value(h), Value(m), Value(s), Value(NineDigits(f)))
  }

  /** The instant a spelling names: the local time since the epoch, less the minutes that it lies east of UTC. */
  function Meaning(s: Spelling): Timestamp
    requires ValidSpelling(s)
  {
    var days := Count(DateMeant(s.date));
    if s.clock.AtTime? then
      var time := TimeMeant(s.clock.time);
      Timestamp(days * 86_400 + time.hour * 3_600 + time.minute * 60 + time.second - 60 * OffsetMeant(s.clock.zone), time.nanos)
    else Timestamp(days * 86_400, 0)
  }

  /** What the reader makes of the fields of a spelling. */
  function Fields(s: Spelling): Timestamp
    requires ValidSpelling(s)
  {
    if s.clock.AtTime? then Instant(DateMeant(s.date), TimeMeant(s.clock.time), OffsetMeant(s.clock.zone))
    else Instant(DateMeant(s.date), MIDNIGHT, 0)
  }

  lemma InstantWrittenOut(date: Date, time: TimeOfDay, offset: int)
    ensures Instant(date, time, offset)
            == Timestamp(Count(date) * 86_400 + time.hour * 3_600 + time.minute * 60 + time.second - 60 * offset, time.nanos)
  {
  }

  lemma FieldsMean(s: Spelling)
    requires ValidSpelling(s)
    ensures Fields(s) == Meaning(s)
  {
    if s.clock.AtTime? {
      InstantWrittenOut(DateMeant(s.date), TimeMeant(s.clock.time), OffsetMeant(s.clock.zone));
    } else {
      InstantWrittenOut(DateMeant(s.date), MIDNIGHT, 0);
    }
  }

  lemma OffsetIsSigned(z: ZoneText)
    requires ValidZone(z) && HasSign(z)
    ensures OffsetMeant(z) == Signed(z.sign, MinutesMeant(z))
  {
  }

  // ----- Dates -----

  lemma DateReads(d: DateText)
    requires ValidDate(d)
    ensures DateParts(Join(DatePieces(d), '-')) == Some(DateMeant(d))
  {
    DigitsOnly(d.year, '-');
    if !d.YearOnly? { DigitsOnly(d.month, '-'); }
    if d.FullDate? { DigitsOnly(d.day, '-'); }
    SplitJoin(DatePieces(d), '-');
  }

  lemma DateIsSpelled(text: string) returns (d: DateText)
    requires DateParts(text).Some?
    ensures ValidDate(d) && Join(DatePieces(d), '-') == text && DateMeant(d) == DateParts(text).value
  {
    var parts := Split(text, '-');
    d := if |parts| == 1 then YearOnly(parts[0])
         else if |parts| == 2 then YearMonth(parts[0], parts[1])
         else FullDate(parts[0], parts[1], parts[2]);
    assert DatePieces(d) == parts;
  }

  // ----- Times of day -----

  lemma SecondReads(s: string, f: string)
    requires IsField(s) && AllDigits(f)
    ensures SecondsOf(Some(s)) == Some((Value(s), 0))
    ensures SecondsOf(Some(s + ['.'] + f)) == Some((Value(s), NanosOf(f).value))
  {
    SplitOnceAt(s, '.', f);
    Zeros(NineDigits(""));
  }

  lemma TimeReads(t: TimeText)
    requires ValidTime(t)
    ensures TimeParts(TimePieces(t)) == Some(TimeMeant(t))
  {
    if t.WholeSecond? {
      SecondReads(t.second, "");
    } else if t.Fractional? {
      SecondReads(t.second, t.fraction);
    }
  }

  lemma TimeSplits(t: TimeText)
    requires ValidTime(t)
    ensures Split(Join(TimePieces(t), ':'), ':') == TimePieces(t)
  {
    DigitsOnly(t.hour, ':');
    if !t.HourOnly? { DigitsOnly(t.minute, ':'); }
    if t.WholeSecond? || t.Fractional? { DigitsOnly(t.second, ':'); }
    if t.Fractional? { DigitsOnly(t.fraction, ':'); }
    SplitJoin(TimePieces(t), ':');
  }

  lemma SecondsAreSpelled(parts: seq<string>) returns (t: TimeText)
    requires TimeParts(parts).Some? && |parts| >= 3
    ensures ValidTime(t) && TimePieces(t) == parts
  {
    match SplitOnce(parts[2], '.')
    case None =>
      t := WholeSecond(parts[0], parts[1], parts[2]);
    case Some((s, f)) =>
      t := Fractional(parts[0], parts[1], s, f);
  }

  lemma TimeIsSpelled(parts: seq<string>) returns (t: TimeText)
    requires TimeParts(parts).Some? && |parts| >= 1
    ensures ValidTime(t) && TimePieces(t) == parts
  {
    if |parts| == 1 {
      t := HourOnly(parts[0]);
    } else if |parts| == 2 {
      t := HourMinute(parts[0], parts[1]);
    } else {
      t := SecondsAreSpelled(parts);
    }
  }

  // ----- Timezone designators -----

  /** Characters of a time of day: none of them can start or be a designator. */
  predicate TimeChars(s: string) {
    forall k :: 0 <= k < |s| ==> IsDigit(s[k]) || s[k] in {':', '.'}
  }

  lemma TimeOfDayChars(t: TimeText)
    requires ValidTime(t)
    ensures Join(TimePieces(t), ':') != "" && TimeChars(Join(TimePieces(t), ':'))
  {
    var pieces := TimePieces(t);
    assert Join(pieces, ':') == pieces[0] + if |pieces| == 1 then "" else [':'] + Join(pieces[1..], ':');
    if |pieces| == 3 { assert Join(pieces[1..], ':') == pieces[1] + [':'] + pieces[2]; }
  }

  lemma LastSign(time: string, sign: char, digits: string)
    requires sign in {'+', '-'} && TimeChars(digits)
    ensures LastOf(time + ([sign] + digits), {'+', '-'}) == Some(|time|)
  {
    var clock := time + ([sign] + digits);
    var last := LastOf(clock, {'+', '-'});
    assert clock[|time|] == sign;
    assert last.Some?;
    assert last.value <= |time|;
  }

  lemma FieldsRead(digits: string, h: string, m: string)
    requires OffsetFields(digits) == (h, m) && InRange(h, 0, 23) && InRange(m, 0, 59)
    ensures OffsetMinutes(digits) == Some(Value(h) * 60 + Value(m))
  {
  }

  lemma NoMinutes()
    ensures InRange("0", 0, 59) && Value("0") == 0
  {
    assert Value("") == 0;
  }

  lemma MinutesRead(z: ZoneText)
    requires ValidZone(z) && HasSign(z)
    ensures OffsetMinutes(AfterSign(z)) == Some(MinutesMeant(z))
  {
    match z
    case ColonOffset(_, h, m) =>
      SplitOnceAt(h, ':', m);
      FieldsRead(h + [':'] + m, h, m);
    case PackedOffset(_, h, m) =>
      assert (h + m)[..2] == h && (h + m)[2..] == m;
      FieldsRead(h + m, h, m);
    case HourOffset(_, h) =>
      NoMinutes();
      FieldsRead(h, h, "0");
  }

  lemma UnsignedReads(time: string, z: ZoneText)
    requires time != "" && TimeChars(time) && ValidZone(z) && !HasSign(z)
    ensures SplitOffset(time + ZoneString(z)) == Some((time, 0))
  {
    var clock := time + ZoneString(z);
    if z.NoZone? {
      assert clock == time;
    } else {
      assert clock[..|clock| - 1] == time;
    }
  }

  lemma ZoneReads(time: string, z: ZoneText)
    requires time != "" && TimeChars(time) && ValidZone(z)
    ensures SplitOffset(time + ZoneString(z)) == Some((time, OffsetMeant(z)))
  {
    if HasSign(z) {
      MinutesRead(z);
      AfterSignChars(z);
      SignedReads(time, z.sign, AfterSign(z));
      OffsetIsSigned(z);
    } else {
      UnsignedReads(time, z);
    }
  }

  lemma AfterSignChars(z: ZoneText)
    requires ValidZone(z) && HasSign(z)
    ensures AfterSign(z) != "" && TimeChars(AfterSign(z))
  {
  }

  /** A signed designator is cut off where its sign stands. */
  lemma SignedReads(time: string, sign: char, digits: string)
    requires sign in {'+', '-'} && digits != "" && TimeChars(digits)
    ensures SplitOffset(time + ([sign] + digits)) == SignedOffset(time, sign, digits)
  {
    LastSign(time, sign, digits);
    CutBack(time, sign, digits);
    var clock := time + ([sign] + digits);
    assert clock[|clock| - 1] == digits[|digits| - 1];
  }

  lemma MinutesAreSpelled(sign: char, digits: string) returns (z: ZoneText)
    requires sign in {'+', '-'} && OffsetMinutes(digits).Some?
    ensures HasSign(z) && z.sign == sign && ValidZone(z) && AfterSign(z) == digits
    ensures ZoneString(z) == [sign] + digits
  {
    var (h, m) := OffsetFields(digits);
    if SplitOnce(digits, ':').Some? {
      z := ColonOffset(sign, h, m);
    } else if |digits| == 4 {
      z := PackedOffset(sign, h, m);
    } else {
      z := HourOffset(sign, h);
    }
  }

  lemma SignedIsSpelled(clock: string) returns (z: ZoneText)
    requires LastOf(clock, {'+', '-'}).Some?
    requires OffsetMinutes(clock[LastOf(clock, {'+', '-'}).value + 1..]).Some?
    ensures ValidZone(z) && clock[..LastOf(clock, {'+', '-'}).value] + ZoneString(z) == clock
  {
    var index := LastOf(clock, {'+', '-'}).value;
    CutAt(clock, index);
    z := MinutesAreSpelled(clock[index], clock[index + 1..]);
  }

  lemma ZoneIsSpelled(clock: string) returns (z: ZoneText)
    requires SplitOffset(clock).Some?
    ensures ValidZone(z) && SplitOffset(clock).value.0 + ZoneString(z) == clock
  {
    if clock != "" && clock[|clock| - 1] in {'Z', 'z'} {
      z := Zulu(clock[|clock| - 1]);
    } else if LastOf(clock, {'+', '-'}).None? {
      z := NoZone;
    } else {
      z := SignedIsSpelled(clock);
    }
  }

  // ----- The whole text -----

  /** A date and clock without the padding around them. */
  function Core(s: Spelling): string {
    Join(DatePieces(s.date), '-') + ClockString(s.clock)
  }

  lemma DateChars(d: DateText)
    requires ValidDate(d)
    ensures var text := Join(DatePieces(d), '-');
            text != "" && forall k :: 0 <= k < |text| ==> IsDigit(text[k]) || text[k] == '-'
  {
    var pieces := DatePieces(d);
    assert Join(pieces, '-') == pieces[0] + if |pieces| == 1 then "" else ['-'] + Join(pieces[1..], '-');
    if |pieces| == 3 { assert Join(pieces[1..], '-') == pieces[1] + ['-'] + pieces[2]; }
  }

  lemma ClockEnds(c: ClockText)
    requires ValidClock(c) && !c.NoClock?
    ensures var text := ClockString(c); text != "" && !IsSpace(text[|text| - 1])
  {
    if c.AtTime? {
      TimeOfDayChars(c.time);
      var text, zone := ClockString(c), ZoneString(c.zone);
      if zone != "" {
        assert text[|text| - 1] == zone[|zone| - 1];
      } else {
        var time := Join(TimePieces(c.time), ':');
        assert text[|text| - 1] == time[|time| - 1];
      }
    }
  }

  lemma CoreIsTrimmed(s: Spelling)
    requires ValidSpelling(s)
    ensures Trim(Print(s)) == Core(s) && Core(s) != ""
  {
    DateChars(s.date);
    var date, core := Join(DatePieces(s.date), '-'), Core(s);
    assert core[0] == date[0];
    if s.clock.NoClock? {
      assert core == date;
    } else {
      ClockEnds(s.clock);
      var clock := ClockString(s.clock);
      assert core[|core| - 1] == clock[|clock| - 1];
    }
    TrimPadded(s.before, core, s.after);
  }

  lemma FirstStop(head: string, c: char, tail: string, stops: set<char>)
    requires c in stops && forall k :: 0 <= k < |head| ==> head[k] !in stops
    ensures FirstOf(head + ([c] + tail), stops) == Some(|head|)
  {
    var text := head + ([c] + tail);
    assert text[|head|] == c;
    assert forall k :: 0 <= k < |head| ==> text[k] == head[k];
  }

  lemma ClockStarts(clock: ClockText)
    requires ValidClock(clock) && !clock.NoClock?
    ensures ClockString(clock) == [clock.separator] + ClockString(clock)[1..]
  {
  }

  lemma CutReads(date: DateText, clock: ClockText)
    requires ValidDate(date) && ValidClock(clock)
    ensures CutAtSeparator(Join(DatePieces(date), '-') + ClockString(clock)) ==
            (Join(DatePieces(date), '-'), if clock.NoClock? then "" else ClockString(clock)[1..])
  {
    DateChars(date);
    var day, rest := Join(DatePieces(date), '-'), ClockString(clock);
    if clock.NoClock? {
      assert day + rest == day;
    } else {
      ClockStarts(clock);
      FirstStop(day, clock.separator, rest[1..], {'T', 't', ' '});
      CutBack(day, clock.separator, rest[1..]);
    }
  }

  lemma ClockReads(time: TimeText, zone: ZoneText)
    requires ValidTime(time) && ValidZone(zone)
    ensures ClockParts(Join(TimePieces(time), ':') + ZoneString(zone)) == Some((TimeMeant(time), OffsetMeant(zone)))
  {
    TimeOfDayChars(time);
    ZoneReads(Join(TimePieces(time), ':'), zone);
    TimeSplits(time);
    TimeReads(time);
  }

  lemma ClockIsSpelled(clock: string) returns (time: TimeText, zone: ZoneText)
    requires ClockParts(clock).Some?
    ensures ValidTime(time) && ValidZone(zone) && Join(TimePieces(time), ':') + ZoneString(zone) == clock
  {
    zone := ZoneIsSpelled(clock);
    time := TimeIsSpelled(Split(SplitOffset(clock).value.0, ':'));
  }

  lemma SpellingParses(s: Spelling)
    requires ValidSpelling(s)
    ensures Parse(Print(s)) == Some(Fields(s))
  {
    CoreIsTrimmed(s);
    CutReads(s.date, s.clock);
    DateReads(s.date);
    if s.clock.AtTime? {
      var text := Join(TimePieces(s.clock.time), ':') + ZoneString(s.clock.zone);
      ClockReads(s.clock.time, s.clock.zone);
      TimeOfDayChars(s.clock.time);
      assert ClockString(s.clock)[1..] == text;
    }
  }

  /** Every valid spelling is read as the instant it names. */
  lemma SpellingIsRead(s: Spelling)
    requires ValidSpelling(s)
    ensures Parse(Print(s)) == Some(Meaning(s))
  {
    SpellingParses(s);
    FieldsMean(s);
  }

  lemma ClockTextIsSpelled(separator: char, rest: string) returns (clock: ClockText)
    requires separator in {'T', 't', ' '} && (rest == "" ==> separator != ' ')
    requires rest == "" || ClockParts(rest).Some?
    ensures ValidClock(clock) && ClockString(clock) == [separator] + rest
  {
    if rest == "" {
      clock := LoneSeparator(separator);
    } else {
      var time, zone := ClockIsSpelled(rest);
      clock := AtTime(separator, time, zone);
    }
  }

  /** How a text was cut: at which separator, if any. */
  lemma SeparatorOf(text: string) returns (separator: Option<char>)
    ensures separator.None? ==> CutAtSeparator(text) == (text, "")
    ensures separator.Some? ==> separator.value in {'T', 't', ' '}
    ensures separator.Some? ==> text == CutAtSeparator(text).0 + ([separator.value] + CutAtSeparator(text).1)
    ensures separator.Some? && CutAtSeparator(text).1 == "" ==> text[|text| - 1] == separator.value
  {
    match FirstOf(text, {'T', 't', ' '})
    case None =>
      separator := None;
    case Some(cut) =>
      CutAt(text, cut);
      separator := Some(text[cut]);
  }

  lemma CoreIsSpelled(text: string) returns (date: DateText, clock: ClockText)
    requires text != "" && !IsSpace(text[|text| - 1])
    requires DateParts(CutAtSeparator(text).0).Some?
    requires CutAtSeparator(text).1 == "" || ClockParts(CutAtSeparator(text).1).Some?
    ensures ValidDate(date) && ValidClock(clock) && Join(DatePieces(date), '-') + ClockString(clock) == text
  {
    var separator := SeparatorOf(text);
    var (day, rest) := CutAtSeparator(text);
    date := DateIsSpelled(day);
    if separator.None? {
      clock := NoClock;
    } else {
      clock := ClockTextIsSpelled(separator.value, rest);
    }
  }

  /** Every text that is read is the print of a valid spelling. */
  lemma ReadTextIsSpelled(value: string) returns (s: Spelling)
    ensures Parse(value).Some? ==> ValidSpelling(s) && Print(s) == value
  {
    if Parse(value).Some? {
      var before, after := TrimIsPadding(value);
      var date, clock := CoreIsSpelled(Trim(value));
      s := Spelling(before, date, clock, after);
    } else {
      s := *;
    }
  }

  /** The reader accepts exactly the grammar, and reads each spelling as the instant it names. */
  lemma ParseIsTheGrammar(value: string, instant: Timestamp)
    ensures Parse(value) == Some(instant) <==>
            exists s :: ValidSpelling(s) && Print(s) == value && Meaning(s) == instant
  {
    if Parse(value) == Some(instant) {
      var s := ReadTextIsSpelled(value);
      SpellingIsRead(s);
      assert ValidSpelling(s) && Print(s) == value && Meaning(s) == instant;
    }
    forall s | ValidSpelling(s) && Print(s) == value && Meaning(s) == instant
      ensures Parse(value) == Some(instant)
    {
      SpellingIsRead(s);
    }
  }

  // ----- Numbers rather than numerals -----

  /** Times of day a clock can show. */
  predicate ValidTimeOfDay(t: TimeOfDay) {
    t.hour <= 23 && t.minute <= 59 && t.second <= 59 && t.nanos < 1_000_000_000
  }

  function TwoDigit(n: nat): (s: string)
    requires n < 100
    ensures |s| == 2 && AllDigits(s) && Value(s) == n
  {
    Padded(n, 2)
  }

  function StampDate(date: Date): (d: DateText)
    requires Valid(date) && 1 <= date.year <= 9_999
    ensures ValidDate(d) && DateMeant(d) == date
  {
    FullDate(Padded(date.year, 4), TwoDigit(date.month), TwoDigit(date.day))
  }

  function StampTime(time: TimeOfDay): (t: TimeText)
    requires ValidTimeOfDay(time)
    ensures ValidTime(t) && TimeMeant(t) == time
  {
    var nanos := Padded(time.nanos, 9);
    assert NineDigits(nanos) == nanos;
    Fractional(TwoDigit(time.hour), TwoDigit(time.minute), TwoDigit(time.second), nanos)
  }

  function StampZone(offset: int): (z: ZoneText)
    requires -1_439 <= offset <= 1_439
    ensures ValidZone(z) && OffsetMeant(z) == offset
  {
    var minutes := if offset < 0 then -offset else offset;
    ColonOffset(if offset < 0 then '-' else '+', TwoDigit(minutes / 60), TwoDigit(minutes % 60))
  }

  /** A full timestamp: four-digit year, two-digit fields, nine fractional digits, a signed offset. */
  function Stamp(date: Date, time: TimeOfDay, offset: int): Spelling
    requires Valid(date) && 1 <= date.year <= 9_999 && ValidTimeOfDay(time) && -1_439 <= offset <= 1_439
  {
    Spelling("", StampDate(date), AtTime('T', StampTime(time), StampZone(offset)), "")
  }

  lemma StampFields(date: Date, time: TimeOfDay, offset: int)
    requires Valid(date) && 1 <= date.year <= 9_999 && ValidTimeOfDay(time) && -1_439 <= offset <= 1_439
    ensures ValidSpelling(Stamp(date, time, offset)) && Fields(Stamp(date, time, offset)) == Instant(date, time, offset)
  {
  }

  /** Every date, time of day and offset the format can name is read back from its timestamp. */
  lemma StampIsRead(date: Date, time: TimeOfDay, offset: int)
    requires Valid(date) && 1 <= date.year <= 9_999 && ValidTimeOfDay(time) && -1_439 <= offset <= 1_439
    ensures var seconds := Count(date) * 86_400 + time.hour * 3_600 + time.minute * 60 + time.second - 60 * offset;
            Parse(Print(Stamp(date, time, offset))) == Some(Timestamp(seconds, time.nanos))
  {
    SpellingParses(Stamp(date, time, offset));
    StampFields(date, time, offset);
    InstantWrittenOut(date, time, offset);
  }

  lemma ZerosAppended(digits: string, zeros: string)
    requires AllDigits(digits) && forall k :: 0 <= k < |zeros| ==> zeros[k] == '0'
    ensures AllDigits(digits + zeros) && Value(digits + zeros) == Value(digits) * Pow10(|zeros|)
  {
    Zeros(zeros);
    ValueOfConcat(digits, zeros);
  }

  /** Up to nine digits of a fraction are scaled to nanoseconds. */
  lemma ShortFractionIsScaled(fraction: string, missing: nat)
    requires AllDigits(fraction) && |fraction| + missing == 9
    ensures NanosOf(fraction) == Some(Value(fraction) * Pow10(missing))
  {
    var zeros := "000000000"[..missing];
    assert NineDigits(fraction) == fraction + zeros;
    ZerosAppended(fraction, zeros);
  }

  /** Past nine digits a fraction is cut: the quotient is rounded down, never up. */
  lemma LongFractionIsCut(kept: string, cut: string)
    requires AllDigits(kept) && |kept| == 9 && AllDigits(cut)
    ensures NanosOf(kept + cut) == Some(Value(kept + cut) / Pow10(|cut|))
  {
    assert NineDigits(kept + cut) == kept;
    ValueOfConcat(kept, cut);
    DivideOut(Value(kept), Pow10(|cut|), Value(cut));
  }

  lemma DivideOut(q: nat, d: nat, r: nat)
    requires r < d
    ensures (q * d + r) / d == q
  {
    var n := q * d + r;
    var p, s := n / d, n % d;
    assert n == p * d + s;
    if p != q {
      assert (p - q) * d == r - s;
      Multiple(p - q, d);
      assert false;
    }
  }

  lemma Multiple(k: int, d: nat)
    requires k != 0
    ensures k * d >= d || k * d <= 0 - d
  {
  }
}
