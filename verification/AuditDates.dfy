/** The audit viewer's date filter (`app/services/audit.py`) against the day
    `format_date` prints, in a zone of fixed offset. */
module AuditDates {
  import opened Wrappers
  import opened Calendar
  import opened DateTimeBox

  /** A date `datetime` can hold. */
  predicate IsCalendarDate(d: Date) {
    IsDate(d) && d.year <= MAX_YEAR
  }

  /** A day's midnight in the zone as a UTC instant, or none when that
      leaves the range. */
  function Midnight(ordinal: int, offset: int): Option<int> {
    var instant := (ordinal - 1) * DAY - offset;
    if InRange(instant) then Some(instant) else None
  }

  /** The two clauses `_apply_filters` adds for dates. The calendar's last
      day bounds nothing above. */
  predicate Keeps(createdFrom: Option<Date>, createdTo: Option<Date>, offset: int, instant: int)
    requires createdFrom.Some? ==> IsCalendarDate(createdFrom.value)
    requires createdTo.Some? ==> IsCalendarDate(createdTo.value)
  {
    && (createdFrom.Some? ==>
          var start := Midnight(Ordinal(createdFrom.value), offset);
          start.Some? ==> instant >= start.value)
    && (createdTo.Some? && Ordinal(createdTo.value) < MAX_ORDINAL ==>
          var end := Midnight(Ordinal(createdTo.value) + 1, offset);
          end.Some? ==> instant < end.value)
  }

  /** `format_date` on a stored instant. */
  function FormatDate(instant: int, offset: int): string
    requires InRange(instant)
  {
    DateText(DateOf(InZone(instant, offset)))
  }

  /** `printed` is the text of a date from one to the other. */
  ghost predicate PrintsWithin(printed: string, createdFrom: Option<Date>, createdTo: Option<Date>)
    requires createdFrom.Some? ==> IsCalendarDate(createdFrom.value)
    requires createdTo.Some? ==> IsCalendarDate(createdTo.value)
  {
    exists d ::
      && IsCalendarDate(d) && printed == DateText(d)
      && (createdFrom.Some? ==> NotAfter(createdFrom.value, d))
      && (createdTo.Some? ==> NotAfter(d, createdTo.value))
  }

  lemma PrintedDay(instant: int, offset: int, createdFrom: Option<Date>, createdTo: Option<Date>)
    requires InRange(instant)
    requires createdFrom.Some? ==> IsCalendarDate(createdFrom.value)
    requires createdTo.Some? ==> IsCalendarDate(createdTo.value)
    ensures var day := InZone(instant, offset) / DAY + 1;
            && 1 <= day <= MAX_ORDINAL
            && (PrintsWithin(FormatDate(instant, offset), createdFrom, createdTo) <==>
                (createdFrom.Some? ==> Ordinal(createdFrom.value) <= day)
                && (createdTo.Some? ==> day <= Ordinal(createdTo.value)))
  {
    hide DateText, Ordinal, DateOf, MAX_ORDINAL, NotAfter;
    var wall := InZone(instant, offset);
    var d := DateOf(wall);
    DayOfWall(wall);
    if createdFrom.Some? {
      OrdinalOrders(createdFrom.value, d);
    }
    if createdTo.Some? {
      OrdinalOrders(d, createdTo.value);
    }
    if PrintsWithin(FormatDate(instant, offset), createdFrom, createdTo) {
      var other :|
        && IsCalendarDate(other) && FormatDate(instant, offset) == DateText(other)
        && (createdFrom.Some? ==> NotAfter(createdFrom.value, other))
        && (createdTo.Some? ==> NotAfter(other, createdTo.value));
      DateTextInjective(d, other);
    }
  }

  /** The one disagreement: west of UTC, an instant whose local day would lie
      before the calendar prints as the calendar's first day, and a filter
      from that day leaves it out. */
  predicate IsLostAtFirstDay(createdFrom: Option<Date>, offset: int, instant: int) {
    createdFrom == Some(FIRST) && instant + offset < 0
  }

  /** The filter keeps an event exactly when the day printed for it lies
      between the two dates, save for that one case, over every instant and
      date `datetime` can hold. */
  lemma FilterAgreesWithPrint(createdFrom: Option<Date>, createdTo: Option<Date>, offset: int, instant: int)
    requires createdFrom.Some? ==> IsCalendarDate(createdFrom.value)
    requires createdTo.Some? ==> IsCalendarDate(createdTo.value)
    requires IsOffset(offset) && InRange(instant)
    ensures (Keeps(createdFrom, createdTo, offset, instant) <==>
             PrintsWithin(FormatDate(instant, offset), createdFrom, createdTo))
            <==> !IsLostAtFirstDay(createdFrom, offset, instant)
  {
    PrintedDay(instant, offset, createdFrom, createdTo);
    if createdFrom.Some? {
      OrdinalPositive(createdFrom.value);
      YearInRange(createdFrom.value);
      FromBound(Ordinal(createdFrom.value), offset, instant);
    }
    if createdTo.Some? {
      OrdinalPositive(createdTo.value);
      YearInRange(createdTo.value);
      ToBound(Ordinal(createdTo.value), offset, instant);
    }
  }

  /** The filter keeps an event exactly when its printed day lies between the
      dates and it is not lost. */
  lemma LostExactly(createdFrom: Option<Date>, createdTo: Option<Date>, offset: int, instant: int)
    requires createdFrom.Some? ==> IsCalendarDate(createdFrom.value)
    requires createdTo.Some? ==> IsCalendarDate(createdTo.value)
    requires IsOffset(offset) && InRange(instant)
    ensures Keeps(createdFrom, createdTo, offset, instant) <==>
            && PrintsWithin(FormatDate(instant, offset), createdFrom, createdTo)
            && !IsLostAtFirstDay(createdFrom, offset, instant)
  {
    hide PrintsWithin, FormatDate, Ordinal, FromOrdinal, MAX_ORDINAL;
    FilterAgreesWithPrint(createdFrom, createdTo, offset, instant);
    FirstDay();
  }

  /** The lower clause keeps exactly the instants whose printed day is not
      earlier, except before the calendar's first local day. */
  lemma FromBound(ordinal: int, offset: int, instant: int)
    requires 1 <= ordinal <= MAX_ORDINAL && IsOffset(offset) && InRange(instant)
    ensures var start := Midnight(ordinal, offset);
            (start.Some? ==> instant >= start.value) <==>
            ordinal <= InZone(instant, offset) / DAY + 1 && !(ordinal == 1 && instant + offset < 0)
  {
    DayAtLeast(InZone(instant, offset), ordinal - 1);
  }

  lemma ToBound(ordinal: int, offset: int, instant: int)
    requires 1 <= ordinal <= MAX_ORDINAL && IsOffset(offset) && InRange(instant)
    ensures var end := Midnight(ordinal + 1, offset);
            (ordinal < MAX_ORDINAL && end.Some? ==> instant < end.value) <==>
            InZone(instant, offset) / DAY + 1 <= ordinal
  {
    DayAtLeast(InZone(instant, offset), ordinal);
    DayInRange(InZone(instant, offset));
  }

  lemma DayAtLeast(wall: int, day: int)
    ensures day <= wall / DAY <==> day * DAY <= wall
  {
  }

  /** In the range a person can enter there is no exception. */
  lemma FilterAgreesInEntryRange(createdFrom: Option<Date>, createdTo: Option<Date>, offset: int, instant: int)
    requires createdFrom.Some? ==> IsCalendarDate(createdFrom.value)
    requires createdTo.Some? ==> IsCalendarDate(createdTo.value)
    requires IsOffset(offset) && InEntryRange(instant)
    ensures Keeps(createdFrom, createdTo, offset, instant) <==>
            PrintsWithin(FormatDate(instant, offset), createdFrom, createdTo)
  {
    FilterAgreesWithPrint(createdFrom, createdTo, offset, instant);
  }

  /** An hour west of UTC, the calendar's first instant prints as its first
      day and is left out by a filter from that day. */
  lemma FirstInstantIsLost()
    ensures InRange(0) && IsOffset(-HOUR)
    ensures !Keeps(Some(FIRST), None, -HOUR, 0)
    ensures PrintsWithin(FormatDate(0, -HOUR), Some(FIRST), None)
  {
    hide Ordinal, FormatDate, PrintsWithin, FromOrdinal, MAX_ORDINAL;
    FirstDay();
    FilterAgreesWithPrint(Some(FIRST), None, -HOUR, 0);
  }

  lemma FirstDay()
    ensures IsCalendarDate(FIRST) && Ordinal(FIRST) == 1 && 1 < MAX_ORDINAL
  {
    hide Ordinal;
    OrdinalOfFromOrdinal(1);
  }
}
