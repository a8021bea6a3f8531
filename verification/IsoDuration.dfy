/** The ISO 8601 duration codec of `f4a92b3c6d18`: the parser the upgrade
    reads stored offsets with, and the encoder the downgrade writes. */
module IsoDuration {
  import opened Wrappers
  import opened Text

  // ---------------------------------------------------------------------
  // The grammar
  // ---------------------------------------------------------------------

  /** A run of digits before each designator, where there is one. */
  datatype Clock = Clock(hours: Option<string>, minutes: Option<string>, seconds: Option<string>)

  datatype Parts = Parts(negative: bool, years: Option<string>, months: Option<string>, days: Option<string>,
                         time: Option<Clock>)

  predicate IsRun(u: Option<string>) {
    u.Some? ==> u.value != "" && AllDigits(u.value)
  }

  predicate IsClock(c: Clock) {
    IsRun(c.hours) && IsRun(c.minutes) && IsRun(c.seconds)
  }

  predicate IsParts(p: Parts) {
    IsRun(p.years) && IsRun(p.months) && IsRun(p.days) && (p.time.Some? ==> IsClock(p.time.value))
  }

  function Unit(u: Option<string>, designator: char): string {
    if u.None? then "" else u.value + [designator]
  }

  function ClockText(c: Clock): string {
    Unit(c.hours, 'H') + (Unit(c.minutes, 'M') + Unit(c.seconds, 'S'))
  }

  function TimeText(time: Option<Clock>): string {
    if time.None? then "" else "T" + ClockText(time.value)
  }

  function DateText(p: Parts): string {
    Unit(p.years, 'Y') + (Unit(p.months, 'M') + (Unit(p.days, 'D') + TimeText(p.time)))
  }

  /** The texts the regular expression matches, with what it captures. */
  function PartsText(p: Parts): string {
    (if p.negative then "-P" else "P") + DateText(p)
  }

  // ---------------------------------------------------------------------
  // The matcher
  // ---------------------------------------------------------------------

  function RunLength(s: string): (n: nat)
    ensures n <= |s| && AllDigits(s[..n])
    ensures n < |s| ==> !IsDigit(s[n])
  {
    if s == "" || !IsDigit(s[0]) then 0
    else
      var n := 1 + RunLength(s[1..]);
      assert s[..n] == [s[0]] + s[1..][..n - 1];
      n
  }

  /** An optional `\d+` and its designator at the head of the text. */
  function TakeUnit(s: string, designator: char): (r: (Option<string>, string))
    ensures IsRun(r.0) && |r.1| <= |s|
  {
    var n := RunLength(s);
    if 0 < n < |s| && s[n] == designator then (Some(s[..n]), s[n + 1..]) else (None, s)
  }

  function MatchClock(s: string): (m: Option<Clock>)
    ensures m.Some? ==> IsClock(m.value)
  {
    var (hours, s1) := TakeUnit(s, 'H');
    var (minutes, s2) := TakeUnit(s1, 'M');
    var (seconds, s3) := TakeUnit(s2, 'S');
    if s3 == "" then Some(Clock(hours, minutes, seconds)) else None
  }

  function MatchDate(negative: bool, s: string): (m: Option<Parts>)
    ensures m.Some? ==> IsParts(m.value)
  {
    var (years, s1) := TakeUnit(s, 'Y');
    var (months, s2) := TakeUnit(s1, 'M');
    var (days, s3) := TakeUnit(s2, 'D');
    if s3 == "" then Some(Parts(negative, years, months, days, None))
    else if s3[0] != 'T' then None
    else
      var clock := MatchClock(s3[1..]);
      if clock.None? then None else Some(Parts(negative, years, months, days, clock))
  }

  function Match(s: string): (m: Option<Parts>)
    ensures m.Some? ==> IsParts(m.value)
  {
    var negative := s != "" && s[0] == '-';
    var body := if negative then s[1..] else s;
    if body == "" || body[0] != 'P' then None else MatchDate(negative, body[1..])
  }

  // ---------------------------------------------------------------------
  // The matcher meets the grammar
  // ---------------------------------------------------------------------

  lemma TakenUnit(s: string, designator: char)
    ensures var (u, rest) := TakeUnit(s, designator); Unit(u, designator) + rest == s
  {
  }

  lemma {:induction false} RunThenOther(run: string, rest: string)
    requires AllDigits(run) && (rest == "" || !IsDigit(rest[0]))
    ensures RunLength(run + rest) == |run|
  {
    if run != "" {
      assert (run + rest)[1..] == run[1..] + rest;
      RunThenOther(run[1..], rest);
    } else {
      assert run + rest == rest;
    }
  }

  /** No unit of this designator at the head of the text. */
  predicate Lacks(s: string, designator: char) {
    TakeUnit(s, designator).0.None?
  }

  lemma TakePresentUnit(u: Option<string>, designator: char, rest: string)
    requires IsRun(u) && !IsDigit(designator) && (u.None? ==> Lacks(rest, designator))
    ensures TakeUnit(Unit(u, designator) + rest, designator) == (u, rest)
  {
    if u.Some? {
      var s := Unit(u, designator) + rest;
      assert s == u.value + ([designator] + rest);
      RunThenOther(u.value, [designator] + rest);
      assert s[..|u.value|] == u.value && s[|u.value| + 1..] == rest;
    } else {
      assert Unit(u, designator) + rest == rest;
    }
  }

  lemma OtherUnitLacks(u: Option<string>, other: char, rest: string, designator: char)
    requires IsRun(u) && !IsDigit(other) && other != designator && (u.None? ==> Lacks(rest, designator))
    ensures Lacks(Unit(u, other) + rest, designator)
  {
    if u.Some? {
      var s := Unit(u, other) + rest;
      assert s == u.value + ([other] + rest);
      RunThenOther(u.value, [other] + rest);
      assert s[|u.value|] == other;
    } else {
      assert Unit(u, other) + rest == rest;
    }
  }

  lemma MatchClockOfText(c: Clock)
    requires IsClock(c)
    ensures MatchClock(ClockText(c)) == Some(c)
  {
    var s2 := Unit(c.seconds, 'S');
    assert s2 + "" == s2;
    TakePresentUnit(c.seconds, 'S', "");
    OtherUnitLacks(c.seconds, 'S', "", 'M');
    OtherUnitLacks(c.seconds, 'S', "", 'H');
    TakePresentUnit(c.minutes, 'M', s2);
    OtherUnitLacks(c.minutes, 'M', s2, 'H');
    TakePresentUnit(c.hours, 'H', Unit(c.minutes, 'M') + s2);
  }

  lemma MatchDateOfText(p: Parts)
    requires IsParts(p)
    ensures MatchDate(p.negative, DateText(p)) == Some(p)
  {
    var s3 := TimeText(p.time);
    assert s3 == "" || s3[0] == 'T';
    assert RunLength(s3) == 0;
    var s2 := Unit(p.days, 'D') + s3;
    TakePresentUnit(p.days, 'D', s3);
    OtherUnitLacks(p.days, 'D', s3, 'M');
    OtherUnitLacks(p.days, 'D', s3, 'Y');
    TakePresentUnit(p.months, 'M', s2);
    OtherUnitLacks(p.months, 'M', s2, 'Y');
    TakePresentUnit(p.years, 'Y', Unit(p.months, 'M') + s2);
    if p.time.Some? {
      MatchClockOfText(p.time.value);
      assert s3[1..] == ClockText(p.time.value);
    }
  }

  lemma TextOfMatchClock(s: string)
    requires MatchClock(s).Some?
    ensures IsClock(MatchClock(s).value) && ClockText(MatchClock(s).value) == s
  {
    var (hours, s1) := TakeUnit(s, 'H');
    var (minutes, s2) := TakeUnit(s1, 'M');
    TakenUnit(s, 'H');
    TakenUnit(s1, 'M');
    TakenUnit(s2, 'S');
  }

  lemma TextOfMatchDate(negative: bool, s: string)
    requires MatchDate(negative, s).Some?
    ensures var p := MatchDate(negative, s).value; IsParts(p) && p.negative == negative && DateText(p) == s
  {
    hide TakeUnit, Unit, MatchClock, ClockText, AllDigits;
    var (years, s1) := TakeUnit(s, 'Y');
    var (months, s2) := TakeUnit(s1, 'M');
    var (days, s3) := TakeUnit(s2, 'D');
    TakenUnit(s, 'Y');
    TakenUnit(s1, 'M');
    TakenUnit(s2, 'D');
    if s3 != "" {
      TextOfMatchClock(s3[1..]);
      assert s3 == "T" + s3[1..];
    }
  }

  /** The matcher accepts exactly the grammar's texts and captures the parts
      that made them; the grammar is unambiguous. */
  lemma MatchExact(s: string, p: Parts)
    ensures Match(s) == Some(p) <==> IsParts(p) && PartsText(p) == s
  {
    hide MatchDate, DateText, IsParts;
    if IsParts(p) && PartsText(p) == s {
      MatchDateOfText(p);
      assert PartsText(p) == (if p.negative then ['-', 'P'] else ['P']) + DateText(p);
      assert s[if p.negative then 2 else 1..] == DateText(p);
    }
    if Match(s) == Some(p) {
      var negative := s != "" && s[0] == '-';
      var body := if negative then s[1..] else s;
      TextOfMatchDate(negative, body[1..]);
      assert s == (if negative then "-P" else "P") + body[1..];
    }
  }

  // ---------------------------------------------------------------------
  // Durations
  // ---------------------------------------------------------------------

  const DAY_SECONDS := 86400

  /** `timedelta` holds at most this many days either way. */
  const MAX_DAYS := 999_999_999

  datatype DurationError = NotADuration | Empty | Overflow

  function Amount(u: Option<string>): nat
    requires IsRun(u)
  {
    if u.None? then 0 else Value(u.value)
  }

  /** Years count as 365 days and months as 30. */
  function Seconds(p: Parts): nat
    requires IsParts(p)
  {
    var days := Amount(p.years) * 365 + Amount(p.months) * 30 + Amount(p.days);
    var clock := if p.time.None? then Clock(None, None, None) else p.time.value;
    days * DAY_SECONDS + Amount(clock.hours) * 3600 + Amount(clock.minutes) * 60 + Amount(clock.seconds)
  }

  predicate IsEmpty(p: Parts) {
    && p.years.None? && p.months.None? && p.days.None?
    && (p.time.Some? ==> p.time.value == Clock(None, None, None))
  }

  /** The signed duration, if a `timedelta` holds it. */
  function Signed(negative: bool, total: int): Result<int, DurationError> {
    if negative then
      if total <= MAX_DAYS * DAY_SECONDS then Ok(-total) else Err(Overflow)
    else if total < (MAX_DAYS + 1) * DAY_SECONDS then Ok(total)
    else Err(Overflow)
  }

  /** `_parse_iso_duration`, in seconds. */
  function Parse(text: string): Result<int, DurationError> {
    var m := Match(Strip(text));
    if m.None? then Err(NotADuration)
    else if IsEmpty(m.value) then Err(Empty)
    else Signed(m.value.negative, Seconds(m.value))
  }

  lemma ClockTextJoins(c: Clock)
    requires IsClock(c)
    ensures Unit(c.hours, 'H') + Unit(c.minutes, 'M') + Unit(c.seconds, 'S') == ClockText(c)
    ensures ClockText(c) == "" <==> c == Clock(None, None, None)
  {
  }

  /** The downgrade's text for a positive whole number of seconds. */
  method EncodeSeconds(total: nat) returns (text: string)
    requires total > 0
    ensures text == Encode(total)
  {
    hide Decimal;
    var days, remainder := total / DAY_SECONDS, total % DAY_SECONDS;
    var hours, rest := remainder / 3600, remainder % 3600;
    var minutes, seconds := rest / 60, rest % 60;
    var datePart := if days != 0 then Decimal(days) + "D" else "";
    var timeParts := "";
    if hours != 0 {
      timeParts := timeParts + (Decimal(hours) + "H");
    }
    if minutes != 0 {
      timeParts := timeParts + (Decimal(minutes) + "M");
    }
    if seconds != 0 {
      timeParts := timeParts + (Decimal(seconds) + "S");
    }
    var timePart := if timeParts != "" then "T" + timeParts else "";
    text := "P" + datePart + timePart;
    EncodeAssembles(total, timeParts);
  }

  lemma EncodeAssembles(total: nat, timeParts: string)
    requires total > 0
    requires var c := EncodedClock(total % DAY_SECONDS);
             timeParts == Unit(c.hours, 'H') + Unit(c.minutes, 'M') + Unit(c.seconds, 'S')
    ensures Encode(total) ==
            "P" + Unit(Written(total / DAY_SECONDS), 'D') + if timeParts != "" then "T" + timeParts else ""
  {
    var remainder := total % DAY_SECONDS;
    ClockTextJoins(EncodedClock(remainder));
    ClockIsBlank(remainder);
  }

  lemma ClockIsBlank(remainder: nat)
    ensures EncodedClock(remainder) == Clock(None, None, None) <==> remainder == 0
    ensures IsClock(EncodedClock(remainder))
  {
    var hours, rest := remainder / 3600, remainder % 3600;
    var minutes, seconds := rest / 60, rest % 60;
    assert remainder == hours * 3600 + minutes * 60 + seconds;
  }

  function Written(n: nat): Option<string> {
    if n == 0 then None else Some(Decimal(n))
  }

  function EncodedClock(remainder: nat): Clock {
    Clock(Written(remainder / 3600), Written(remainder % 3600 / 60), Written(remainder % 3600 % 60))
  }

  /** The parts the downgrade writes. */
  function Encoded(total: nat): Parts {
    var remainder := total % DAY_SECONDS;
    Parts(false, None, None, Written(total / DAY_SECONDS),
          if remainder == 0 then None else Some(EncodedClock(remainder)))
  }

  function Encode(total: nat): string {
    PartsText(Encoded(total))
  }

  lemma AmountOfWritten(n: nat)
    ensures IsRun(Written(n)) && Amount(Written(n)) == n
  {
    ValueOfDecimal(n);
  }

  lemma EncodedIsSound(total: nat)
    requires total > 0
    ensures IsParts(Encoded(total)) && Seconds(Encoded(total)) == total && !IsEmpty(Encoded(total))
  {
    var remainder := total % DAY_SECONDS;
    AmountOfWritten(total / DAY_SECONDS);
    AmountOfWritten(remainder / 3600);
    AmountOfWritten(remainder % 3600 / 60);
    AmountOfWritten(remainder % 3600 % 60);
  }

  lemma EncodedStrips(total: nat)
    requires total > 0
    ensures Strip(Encode(total)) == Encode(total)
  {
    hide Decimal, Strip;
    var s := Encode(total);
    var p := Encoded(total);
    assert s[0] == 'P';
    if p.time.Some? {
      var c := p.time.value;
      assert c.seconds.Some? ==> s[|s| - 1] == 'S';
      assert c.seconds.None? && c.minutes.Some? ==> s[|s| - 1] == 'M';
      assert c.seconds.None? && c.minutes.None? ==> c.hours.Some? && s[|s| - 1] == 'H';
    } else {
      assert s[|s| - 1] == 'D';
    }
    StripsToItself(s);
  }

  /** What the downgrade writes parses back to the same number of seconds,
      for every number a `timedelta` holds; past that it overflows. */
  lemma EncodeParsesBack(total: nat)
    requires total > 0
    ensures Parse(Encode(total)) ==
            if total < (MAX_DAYS + 1) * DAY_SECONDS then Ok(total) else Err(Overflow)
  {
    EncodedStrips(total);
    EncodedIsSound(total);
    MatchExact(Encode(total), Encoded(total));
  }

  /** So no two durations share a text. */
  lemma EncodeInjective(m: nat, n: nat)
    requires m > 0 && n > 0 && Encode(m) == Encode(n)
    ensures m == n
  {
    EncodedIsSound(m);
    EncodedIsSound(n);
    MatchExact(Encode(m), Encoded(m));
    MatchExact(Encode(n), Encoded(n));
  }

  // ---------------------------------------------------------------------
  // The text's width
  // ---------------------------------------------------------------------

  /** How many decimal digits a number has. */
  function Digits(n: nat): nat {
    if n < 10 then 1 else 1 + Digits(n / 10)
  }

  /** A unit's digits and its letter; nothing for zero. */
  function UnitWidth(n: nat): nat {
    if n == 0 then 0 else Digits(n) + 1
  }

  /** `P`, the days, and if the clock is not blank `T` and its units. */
  function Width(total: nat): nat {
    var days, clock := total / DAY_SECONDS, total % DAY_SECONDS;
    var hours, minutes, seconds := clock / 3600, clock % 3600 / 60, clock % 60;
    1 + UnitWidth(days) + if clock == 0 then 0 else 1 + UnitWidth(hours) + UnitWidth(minutes) + UnitWidth(seconds)
  }

  const COLUMN_WIDTH := 16

  predicate Fits(total: nat) {
    Width(total) <= COLUMN_WIDTH
  }

  lemma {:induction false} DecimalWidth(n: nat)
    ensures |Decimal(n)| == Digits(n)
  {
    if n >= 10 {
      DecimalWidth(n / 10);
    }
  }

  lemma WrittenWidth(n: nat, designator: char)
    ensures |Unit(Written(n), designator)| == UnitWidth(n)
  {
    DecimalWidth(n);
  }

  lemma EncodeWidth(total: nat)
    requires total > 0
    ensures |Encode(total)| == Width(total)
  {
    hide UnitWidth, Written;
    var remainder := total % DAY_SECONDS;
    WrittenWidth(total / DAY_SECONDS, 'D');
    WrittenWidth(remainder / 3600, 'H');
    WrittenWidth(remainder % 3600 / 60, 'M');
    WrittenWidth(remainder % 3600 % 60, 'S');
    SecondsOfClock(remainder);
    AbsentIsEmpty();
  }

  lemma AbsentIsEmpty()
    ensures Unit(None, 'Y') == "" && Unit(None, 'M') == ""
  {
  }

  lemma SecondsOfClock(remainder: nat)
    ensures remainder % 3600 % 60 == remainder % 60
  {
  }

  /** A duration's text fits the 16-character column exactly when its width,
      counted from its numbers, does. */
  lemma EncodeFitsExactly(total: nat)
    requires total > 0
    ensures |Encode(total)| <= 16 <==> Fits(total)
  {
    EncodeWidth(total);
  }

  lemma {:induction false} DigitsBound(n: nat, width: nat)
    requires width > 0 && n < Power10(width)
    ensures Digits(n) <= width
  {
    if n >= 10 {
      assert Power10(width) == 10 * Power10(width - 1);
      DigitsBound(n / 10, width - 1);
    }
  }

  /** Every total under 10,000 days fits. */
  lemma EncodeFitsColumn(total: nat)
    requires 0 < total < 10_000 * DAY_SECONDS
    ensures Fits(total) && |Encode(total)| <= COLUMN_WIDTH
  {
    var remainder := total % DAY_SECONDS;
    assert Power10(1) == 10 && Power10(2) == 100 && Power10(3) == 1000 && Power10(4) == 10000;
    DigitsBound(total / DAY_SECONDS, 4);
    DigitsBound(remainder / 3600, 2);
    DigitsBound(remainder % 3600 / 60, 2);
    DigitsBound(remainder % 60, 2);
    EncodeWidth(total);
  }

  /** Ten thousand days with a full clock do not fit; on their own they do. */
  lemma ColumnOverflows()
    ensures |Encode(10_001 * DAY_SECONDS - 1)| == 17 && !Fits(10_001 * DAY_SECONDS - 1)
    ensures |Encode(10_000 * DAY_SECONDS)| == 7 && Fits(10_000 * DAY_SECONDS)
  {
    hide Encode;
    var whole, full := 10_000 * DAY_SECONDS, 10_001 * DAY_SECONDS - 1;
    assert Digits(1) == 1 && Digits(10) == 2 && Digits(100) == 3;
    assert Digits(1000) == 4 && Digits(10_000) == 5;
    assert Digits(23) == 2 && Digits(59) == 2;
    assert full / DAY_SECONDS == 10_000 && full % DAY_SECONDS == 86_399;
    assert 86_399 / 3600 == 23 && 86_399 % 3600 / 60 == 59 && 86_399 % 60 == 59;
    assert whole / DAY_SECONDS == 10_000 && whole % DAY_SECONDS == 0;
    EncodeWidth(full);
    EncodeWidth(whole);
  }

  // ---------------------------------------------------------------------
  // What a stored text says
  // ---------------------------------------------------------------------

  /** A unit's number; none where it is not written. */
  function CountOf(u: Option<string>): int
    requires IsRun(u)
  {
    match u
    case None => 0
    case Some(digits) => Value(digits)
  }

  /** Some unit is written, of the date or of the clock. */
  predicate NamesUnit(p: Parts) {
    || p.years.Some? || p.months.Some? || p.days.Some?
    || (p.time.Some? && (p.time.value.hours.Some? || p.time.value.minutes.Some? || p.time.value.seconds.Some?))
  }

  /** What the parts come to: years of 365 days, months of 30, days, hours,
      minutes and seconds, all less than nothing after a minus sign. */
  predicate ComesTo(p: Parts, seconds: int)
    requires IsParts(p)
  {
    var date := 31_536_000 * CountOf(p.years) + 2_592_000 * CountOf(p.months) + 86_400 * CountOf(p.days);
    var c := if p.time.None? then Clock(None, None, None) else p.time.value;
    var clock := 3_600 * CountOf(c.hours) + 60 * CountOf(c.minutes) + CountOf(c.seconds);
    if p.negative then seconds + date + clock == 0 else seconds == date + clock
  }

  /** The text, stripped, is a duration of the grammar that names some unit,
      and this is its signed number of seconds. */
  ghost predicate Says(text: string, seconds: int) {
    exists p :: IsParts(p) && PartsText(p) == Strip(text) && NamesUnit(p) && ComesTo(p, seconds)
  }

  function SignedSeconds(p: Parts): int
    requires IsParts(p)
  {
    var total: int := Seconds(p);
    if p.negative then -total else total
  }

  lemma SignedExactly(p: Parts, seconds: int)
    requires IsParts(p)
    ensures ComesTo(p, seconds) <==> seconds == SignedSeconds(p)
    ensures NamesUnit(p) <==> !IsEmpty(p)
  {
    hide Value, AllDigits;
  }

  /** The parser reads exactly the texts that say a duration, and overflows
      exactly past what a `timedelta` holds: 999,999,999 days either way. */
  lemma ParseExact(text: string, seconds: int)
    ensures Parse(text) == Ok(seconds) <==>
            Says(text, seconds) && -999_999_999 * 86_400 <= seconds < 1_000_000_000 * 86_400
    ensures Parse(text) == Err(Overflow) <==>
            exists n :: Says(text, n) && !(-999_999_999 * 86_400 <= n < 1_000_000_000 * 86_400)
  {
    hide Match, PartsText, Strip, IsParts, Seconds, IsEmpty, NamesUnit, ComesTo;
    var m := Match(Strip(text));
    if m.Some? {
      MatchExact(Strip(text), m.value);
      SignedExactly(m.value, SignedSeconds(m.value));
      if !IsEmpty(m.value) {
        assert Says(text, SignedSeconds(m.value));
      }
    }
    forall n | Says(text, n)
      ensures m.Some? && !IsEmpty(m.value) && n == SignedSeconds(m.value)
    {
      var p :| IsParts(p) && PartsText(p) == Strip(text) && NamesUnit(p) && ComesTo(p, n);
      MatchExact(Strip(text), p);
      SignedExactly(p, n);
    }
  }
}
