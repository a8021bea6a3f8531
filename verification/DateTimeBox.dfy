/** The date-time box codec of `app/services/date_formatting.py`, in a zone of
    fixed offset. Instants and wall-clock times are microseconds from
    0001-01-01T00:00. */
module DateTimeBox {
  import opened Wrappers
  import opened Text
  import opened Calendar

  const MINUTE := 60_000_000
  const HOUR := 3_600_000_000
  const DAY := 86_400_000_000

  /** One past `datetime.max`. */
  const RANGE := MAX_ORDINAL * DAY

  predicate InRange(v: int) {
    0 <= v < RANGE
  }

  /** `utcoffset` is less than a day either way. */
  predicate IsOffset(offset: int) {
    -DAY < offset < DAY
  }

  /** `in_entry_range` on a UTC instant: a day clear of either edge. */
  predicate InEntryRange(instant: int) {
    DAY <= instant <= RANGE - 1 - DAY
  }

  /** `_in_zone`: the wall clock, or the instant itself when converting it
      would leave the range. */
  function InZone(instant: int, offset: int): int {
    if InRange(instant + offset) then instant + offset else instant
  }

  // ---------------------------------------------------------------------
  // A wall clock to the minute
  // ---------------------------------------------------------------------

  datatype Moment = Moment(date: Date, hour: nat, minute: nat)

  predicate IsMoment(m: Moment) {
    IsDate(m.date) && m.date.year <= MAX_YEAR && m.hour <= 23 && m.minute <= 59
  }

  function DateOf(wall: int): (d: Date)
    requires InRange(wall)
    ensures IsDate(d)
  {
    FromOrdinal(wall / DAY + 1)
  }

  function HourOf(wall: int): nat {
    wall % DAY / HOUR
  }

  function MinuteOf(wall: int): nat {
    wall % DAY % HOUR / MINUTE
  }

  function MomentOf(wall: int): Moment
    requires InRange(wall)
  {
    Moment(DateOf(wall), HourOf(wall), MinuteOf(wall))
  }

  function Clock(day: int, hour: nat, minute: nat): int {
    day * DAY + hour * HOUR + minute * MINUTE
  }

  function WallOf(m: Moment): int
    requires IsDate(m.date)
  {
    Clock(Ordinal(m.date) - 1, m.hour, m.minute)
  }

  // ---------------------------------------------------------------------
  // Its text
  // ---------------------------------------------------------------------

  /** `%Y-%m-%d`, the year always four digits. */
  function DateText(d: Date): string
    requires IsDate(d)
  {
    Padded(d.year, 4) + "-" + Padded(d.month, 2) + "-" + Padded(d.day, 2)
  }

  function ClockText(hour: nat, minute: nat): string {
    Padded(hour, 2) + ":" + Padded(minute, 2)
  }

  function MomentText(m: Moment): string
    requires IsDate(m.date)
  {
    DateText(m.date) + " " + ClockText(m.hour, m.minute)
  }

  /** `\d{4}-\d{2}-\d{2}[ T]\d{2}:\d{2}` */
  predicate IsBoxShape(t: string) {
    && |t| == 16
    && AllDigits(t[..4]) && t[4] == '-' && AllDigits(t[5..7]) && t[7] == '-' && AllDigits(t[8..10])
    && (t[10] == ' ' || t[10] == 'T')
    && AllDigits(t[11..13]) && t[13] == ':' && AllDigits(t[14..])
  }

  function ReadMoment(t: string): Moment
    requires IsBoxShape(t)
  {
    Moment(Date(Value(t[..4]), Value(t[5..7]), Value(t[8..10])), Value(t[11..13]), Value(t[14..]))
  }

  /** A `T` in the separator's place read as a space. */
  function Spaced(t: string): string {
    if |t| > 10 && t[10] == 'T' then t[..10] + " " + t[11..] else t
  }

  // ---------------------------------------------------------------------
  // The codec
  // ---------------------------------------------------------------------

  function FormatBox(instant: int, offset: int): string
    requires InRange(instant)
  {
    MomentText(MomentOf(InZone(instant, offset)))
  }

  datatype BoxError = NotABox | NoSuchMoment | OutOfRange

  function ToInstant(m: Moment, offset: int): Result<int, BoxError>
    requires IsMoment(m)
  {
    var instant := WallOf(m) - offset;
    if InRange(instant) && InEntryRange(instant) then Ok(instant) else Err(OutOfRange)
  }

  function ParseStripped(t: string, offset: int): Result<int, BoxError> {
    if !IsBoxShape(t) then Err(NotABox)
    else if !IsMoment(ReadMoment(t)) then Err(NoSuchMoment)
    else ToInstant(ReadMoment(t), offset)
  }

  function ParseBox(text: string, offset: int): Result<int, BoxError> {
    ParseStripped(Strip(text), offset)
  }

  function BoxText(text: string): string {
    Spaced(Strip(text))
  }

  // ---------------------------------------------------------------------
  // Moments and wall clocks
  // ---------------------------------------------------------------------

  lemma SplitDay(q: int, r: int)
    requires 0 <= r < DAY
    ensures (q * DAY + r) / DAY == q && (q * DAY + r) % DAY == r
  {
  }

  lemma SplitHour(q: int, r: int)
    requires 0 <= r < HOUR
    ensures (q * HOUR + r) / HOUR == q && (q * HOUR + r) % HOUR == r
  {
  }

  lemma SplitMinute(q: int, r: int)
    requires 0 <= r < MINUTE
    ensures (q * MINUTE + r) / MINUTE == q && (q * MINUTE + r) % MINUTE == r
  {
  }

  /** The clock's parts put together again, seconds dropped. */
  lemma ClockParts(wall: int)
    ensures Clock(wall / DAY, HourOf(wall), MinuteOf(wall)) == wall - wall % MINUTE
    ensures HourOf(wall) < 24 && MinuteOf(wall) < 60
  {
    var day, rest := wall / DAY, wall % DAY;
    var hour, late := rest / HOUR, rest % HOUR;
    var minute, seconds := late / MINUTE, late % MINUTE;
    assert wall == day * DAY + hour * HOUR + minute * MINUTE + seconds;
    SplitMinute(day * 1440 + hour * 60 + minute, seconds);
  }

  /** The parts of a clock put together are its parts. */
  lemma PartsOfClock(day: int, hour: nat, minute: nat)
    requires hour < 24 && minute < 60
    ensures var wall := Clock(day, hour, minute);
            && wall / DAY == day && HourOf(wall) == hour && MinuteOf(wall) == minute && wall % MINUTE == 0
            && (0 <= day < MAX_ORDINAL ==> InRange(wall))
  {
    SplitDay(day, hour * HOUR + minute * MINUTE);
    SplitHour(hour, minute * MINUTE);
    SplitMinute(minute, 0);
    SplitMinute(day * 1440 + hour * 60 + minute, 0);
  }

  lemma DayInRange(wall: int)
    requires InRange(wall)
    ensures 1 <= wall / DAY + 1 <= MAX_ORDINAL
  {
  }

  lemma DayOfWall(wall: int)
    requires InRange(wall)
    ensures DateOf(wall).year <= MAX_YEAR
    ensures Ordinal(DateOf(wall)) == wall / DAY + 1
  {
    DayInRange(wall);
    OrdinalOfFromOrdinal(wall / DAY + 1);
    YearInRange(DateOf(wall));
  }

  lemma WallOfMomentOf(wall: int)
    requires InRange(wall)
    ensures IsMoment(MomentOf(wall))
    ensures WallOf(MomentOf(wall)) == wall - wall % MINUTE
  {
    DayOfWall(wall);
    ClockParts(wall);
  }

  lemma MomentOfWallOf(m: Moment)
    requires IsMoment(m)
    ensures InRange(WallOf(m)) && MomentOf(WallOf(m)) == m
  {
    hide Ordinal, HourOf, MinuteOf, Clock;
    OrdinalPositive(m.date);
    YearInRange(m.date);
    PartsOfClock(Ordinal(m.date) - 1, m.hour, m.minute);
    FromOrdinalOfOrdinal(m.date);
  }

  // ---------------------------------------------------------------------
  // Moments and texts
  // ---------------------------------------------------------------------

  lemma SmallPowers()
    ensures Power10(2) == 100 && Power10(4) == 10000
  {
    assert Power10(1) == 10 && Power10(3) == 1000;
  }

  lemma ReadOfText(m: Moment)
    requires IsMoment(m)
    ensures IsBoxShape(MomentText(m)) && ReadMoment(MomentText(m)) == m
    ensures Strip(MomentText(m)) == MomentText(m)
  {
    hide Padded, Value, Strip;
    var t := MomentText(m);
    assert t[..4] == Padded(m.date.year, 4);
    assert t[5..7] == Padded(m.date.month, 2);
    assert t[8..10] == Padded(m.date.day, 2);
    assert t[11..13] == Padded(m.hour, 2);
    assert t[14..] == Padded(m.minute, 2);
    SmallPowers();
    ValueOfPadded(m.date.year, 4);
    ValueOfPadded(m.date.month, 2);
    ValueOfPadded(m.date.day, 2);
    ValueOfPadded(m.hour, 2);
    ValueOfPadded(m.minute, 2);
    assert IsDigit(t[..4][0]) && IsDigit(t[14..][1]);
    StripsToItself(t);
  }

  lemma TextOfRead(t: string)
    requires IsBoxShape(t) && IsMoment(ReadMoment(t))
    ensures MomentText(ReadMoment(t)) == Spaced(t)
  {
    hide Padded, Value;
    PaddedOfValue(t[..4]);
    PaddedOfValue(t[5..7]);
    PaddedOfValue(t[8..10]);
    PaddedOfValue(t[11..13]);
    PaddedOfValue(t[14..]);
    assert t[..4] + "-" + t[5..7] + "-" + t[8..10] + " " + (t[11..13] + ":" + t[14..]) == Spaced(t);
  }

  /** No text has a year past the calendar's: four digits. */
  lemma YearFits(t: string)
    requires IsBoxShape(t)
    ensures ReadMoment(t).date.year <= MAX_YEAR
  {
    PaddedOfValue(t[..4]);
    SmallPowers();
  }

  lemma DateTextInjective(a: Date, b: Date)
    requires IsDate(a) && IsDate(b) && a.year <= MAX_YEAR && b.year <= MAX_YEAR
    requires DateText(a) == DateText(b)
    ensures a == b
  {
    hide DateText, ClockText, IsBoxShape, ReadMoment, Ordinal, Strip;
    ReadOfText(Moment(a, 0, 0));
    ReadOfText(Moment(b, 0, 0));
  }

  // ---------------------------------------------------------------------
  // The codec's promises
  // ---------------------------------------------------------------------

  lemma ParseOfFormat(instant: int, offset: int)
    requires InRange(instant) && IsOffset(offset)
    ensures var wall := InZone(instant, offset);
            var back := wall - wall % MINUTE - offset;
            ParseBox(FormatBox(instant, offset), offset) == if InEntryRange(back) then Ok(back) else Err(OutOfRange)
  {
    hide DateText, ClockText, IsBoxShape, ReadMoment, Ordinal, Strip, DateOf, HourOf, MinuteOf, Clock;
    var wall := InZone(instant, offset);
    WallOfMomentOf(wall);
    ReadOfText(MomentOf(wall));
  }

  /** Reading back a rendered box gives the instant with its seconds dropped
      exactly when the instant is inside the entry range; outside it the
      text is refused or names another moment. */
  lemma BoxReadsBack(instant: int, offset: int)
    requires InRange(instant) && IsOffset(offset) && offset % MINUTE == 0
    ensures ParseBox(FormatBox(instant, offset), offset) == Ok(instant - instant % MINUTE) <==> InEntryRange(instant)
  {
    ParseOfFormat(instant, offset);
    SameMinute(instant, offset);
    EdgesAreWholeMinutes(instant);
  }

  /** The calendar's first instant is rendered and then refused. */
  lemma FirstInstantIsRefused()
    ensures InRange(0) && ParseBox(FormatBox(0, 0), 0) == Err(OutOfRange)
  {
    hide FormatBox, ParseBox;
    ParseOfFormat(0, 0);
  }

  lemma SameMinute(instant: int, offset: int)
    requires offset % MINUTE == 0
    ensures (instant + offset) % MINUTE == instant % MINUTE
  {
    SplitMinute(instant / MINUTE + offset / MINUTE, instant % MINUTE);
  }

  lemma EdgesAreWholeMinutes(instant: int)
    ensures InEntryRange(instant - instant % MINUTE) <==> InEntryRange(instant)
  {
    assert DAY == 1440 * MINUTE && RANGE - DAY == (MAX_ORDINAL - 1) * 1440 * MINUTE;
  }

  /** Rendering what an accepted text names gives that text back, as
      `box_text` reads it. */
  lemma TextReadsBack(text: string, offset: int)
    requires IsOffset(offset) && ParseBox(text, offset).Ok?
    ensures var instant := ParseBox(text, offset).value;
            && InEntryRange(instant)
            && FormatBox(instant, offset) == BoxText(text)
  {
    hide DateText, ClockText, IsBoxShape, ReadMoment, Ordinal, Strip;
    hide DateOf, HourOf, MinuteOf, Clock, MomentOf, MomentText, Spaced;
    var t := Strip(text);
    TextOfRead(t);
    MomentOfWallOf(ReadMoment(t));
  }

  /** The instant a box names: the days before its date, its hour and its
      minute, less the offset. */
  function Named(m: Moment, offset: int): int {
    (DaysThrough(m.date) - 1) * 86_400_000_000 + m.hour * 3_600_000_000 + m.minute * 60_000_000 - offset
  }

  /** A real date and a time of day. */
  predicate IsRealMoment(m: Moment) {
    IsRealDate(m.date) && m.hour < 24 && m.minute < 60
  }

  /** A text is accepted exactly when it has the box's shape, names a real
      date and time, and the instant they name is a day or more clear of
      either end of the calendar; and it is read as that instant. */
  lemma AcceptedExactly(text: string, offset: int)
    ensures ParseBox(text, offset).Ok? <==>
            && IsBoxShape(Strip(text))
            && var m := ReadMoment(Strip(text));
               IsRealMoment(m) && 86_400_000_000 <= Named(m, offset) < 3_652_058 * 86_400_000_000
    ensures ParseBox(text, offset).Ok? ==>
              ParseBox(text, offset).value == Named(ReadMoment(Strip(text)), offset)
  {
    if IsBoxShape(Strip(text)) {
      var m := ReadMoment(Strip(text));
      YearFits(Strip(text));
      hide IsBoxShape, Strip, ReadMoment, Ordinal, IsRealDate, DaysThrough;
      DateExactly(m.date);
      if IsDate(m.date) {
        OrdinalExactly(m.date);
      }
    }
  }

  /** A wall clock's date is the one real date of its day. */
  lemma DateExactlyOf(wall: int, d: Date)
    requires InRange(wall)
    ensures DateOf(wall) == d <==> IsRealDate(d) && DaysThrough(d) == wall / 86_400_000_000 + 1
  {
    hide IsRealDate, DaysThrough;
    DayNumberExactly(wall / DAY + 1, d);
  }

  /** What a box shows: year, month and day of the wall clock's date, and the
      hours and minutes gone of its day, the wall clock being the instant
      moved by the offset, or not moved where that leaves the calendar. */
  lemma BoxShows(instant: int, offset: int, wall: int, d: Date)
    requires InRange(instant)
    requires wall == if 0 <= instant + offset < 3_652_059 * 86_400_000_000 then instant + offset else instant
    requires IsRealDate(d) && DaysThrough(d) == wall / 86_400_000_000 + 1
    ensures FormatBox(instant, offset) ==
            Padded(d.year, 4) + "-" + Padded(d.month, 2) + "-" + Padded(d.day, 2) + " "
            + Padded(wall % 86_400_000_000 / 3_600_000_000, 2) + ":" + Padded(wall % 3_600_000_000 / 60_000_000, 2)
  {
    hide Padded, IsRealDate, DaysThrough, FromOrdinal;
    DateExactlyOf(wall, d);
    SameLateness(wall);
  }

  lemma SameLateness(wall: int)
    ensures wall % DAY % HOUR == wall % HOUR
  {
    SplitHour(wall / DAY * 24 + wall % DAY / HOUR, wall % DAY % HOUR);
  }

  /** The one-day margin: an accepted instant converts into any zone. */
  lemma AcceptedConvertsAnywhere(text: string, offset: int, other: int)
    requires IsOffset(other) && ParseBox(text, offset).Ok?
    ensures InRange(ParseBox(text, offset).value + other)
    ensures InZone(ParseBox(text, offset).value, other) == ParseBox(text, offset).value + other
  {
  }

  lemma SpacedReadsAlike(t: string)
    ensures IsBoxShape(Spaced(t)) <==> IsBoxShape(t)
    ensures IsBoxShape(t) ==> ReadMoment(Spaced(t)) == ReadMoment(t)
  {
    if |t| == 16 {
      var b := Spaced(t);
      assert b[..4] == t[..4] && b[5..7] == t[5..7] && b[8..10] == t[8..10];
      assert b[11..13] == t[11..13] && b[14..] == t[14..];
    }
  }

  /** A `T` and a space separate alike. */
  lemma SeparatorsAlike(text: string, offset: int)
    ensures ParseBox(BoxText(text), offset) == ParseBox(text, offset)
  {
    var t := Strip(text);
    var b := Spaced(t);
    SpacedReadsAlike(t);
    if |t| == 11 {
      assert |Strip(b)| <= |b|;
    } else {
      assert t != [] ==> b[0] == t[0] && b[|b| - 1] == t[|t| - 1];
      StripsToItself(b);
    }
  }
}
