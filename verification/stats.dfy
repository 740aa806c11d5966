/** The `/stats` date picker: 25 options for today and the 24 days before
    it on the configured fixed-offset local calendar, each labelled for
    people and valued `YYYY-MM-DD`, and the handler that turns a chosen value
    back into an instant and a header. */
module StatsCommand {
  import opened Base
  import opened Text
  import opened Calendar

  /** The menu holds at most 25 options. */
  const OptionCount: nat := 25

  datatype DateOption = DateOption(caption: string, value: string)

  /** The instant whose UTC fields are the local fields of `ms` at a fixed
      offset of `offsetHours` hours. */
  function Shift(ms: int, offsetHours: int): int
  {
    ms + offsetHours * MsPerHour
  }

  /** The inverse of `Shift`: from local fields back to the instant. */
  function Unshift(localMs: int, offsetHours: int): int
  {
    localMs - offsetHours * MsPerHour
  }

  /** `setDate(getDate() - i)` on a copy of now: `i` whole days earlier. */
  function DaysBefore(nowMs: int, i: int): int
  {
    nowMs - i * MsPerDay
  }

  /** The local instant of option `i`. */
  function OptionLocal(nowMs: int, offsetHours: int, i: int): int
  {
    Shift(DaysBefore(nowMs, i), offsetHours)
  }

  /** `"<Day> <Mon> <d>"` from the UTC fields of a (shifted) instant. */
  function DayMonthLabel(localMs: int): string
  {
    var date := UtcDate(localMs);
    DayName(DayOf(localMs)) + " " + MonthName(date.month) + " " + NatToString(date.day)
  }

  /** `"<Day> <Mon> <d>, <year>"`. */
  function FullLabel(localMs: int): string
  {
    DayMonthLabel(localMs) + ", " + IntToString(UtcDate(localMs).year)
  }

  function OptionLabel(i: nat, localMs: int): string
  {
    if i == 0 then "Today - " + DayMonthLabel(localMs)
    else if i == 1 then "Yesterday - " + DayMonthLabel(localMs)
    else FullLabel(localMs)
  }

  /** `${year}-${month padded}-${day padded}`. */
  function DateValue(date: Date): string
    requires ValidDate(date)
  {
    var month := PadStart(NatToString(date.month), 2, '0');
    var day := PadStart(NatToString(date.day), 2, '0');
    IntToString(date.year) + "-" + month + "-" + day
  }

  function MakeOption(nowMs: int, offsetHours: int, i: nat): DateOption
  {
    var localMs := OptionLocal(nowMs, offsetHours, i);
    DateOption(OptionLabel(i, localMs), DateValue(UtcDate(localMs)))
  }

  /** The options of `handleStats`, most recent first. */
  function DateOptions(nowMs: int, offsetHours: int): (r: seq<DateOption>)
    ensures |r| == OptionCount
    ensures forall i :: 0 <= i < |r| ==> r[i] == MakeOption(nowMs, offsetHours, i)
  {
    seq(25, i requires 0 <= i => MakeOption(nowMs, offsetHours, i))
  }

  /** The first option is labelled as today, the second as yesterday, and
      every other one ends with its year. */
  lemma LabelShapes(nowMs: int, offsetHours: int, i: nat)
    ensures var caption := MakeOption(nowMs, offsetHours, i).caption;
            var localMs := OptionLocal(nowMs, offsetHours, i);
            && (i == 0 ==> StartsWith(caption, "Today - "))
            && (i == 1 ==> StartsWith(caption, "Yesterday - "))
            && (i >= 2 ==> EndsWith(caption, ", " + IntToString(UtcDate(localMs).year)))
  {
    var localMs := OptionLocal(nowMs, offsetHours, i);
    var dayMonth := DayMonthLabel(localMs);
    if i == 0 {
      ConcatEnds("Today - ", dayMonth);
    } else if i == 1 {
      ConcatEnds("Yesterday - ", dayMonth);
    } else {
      EndsWithLastTwo(dayMonth, ", ", IntToString(UtcDate(localMs).year));
    }
  }

  /** A value is the year, the month and the day joined by `-`, month and
      day as exactly two digits. */
  lemma DateValueParts(date: Date)
    requires ValidDate(date)
    ensures DateValue(date) == Join([IntToString(date.year), TwoDigits(date.month), TwoDigits(date.day)], "-")
  {
    TwoDigitsIsPadStart(date.month);
    TwoDigitsIsPadStart(date.day);
    JoinThree(IntToString(date.year), TwoDigits(date.month), TwoDigits(date.day), "-");
  }

  /** Different dates have different values, whatever their years. */
  lemma DateValueInjective(a: Date, b: Date)
    requires ValidDate(a) && ValidDate(b)
    ensures DateValue(a) == DateValue(b) ==> a == b
  {
    if DateValue(a) == DateValue(b) {
      DateValueFields(a);
      DateValueFields(b);
      FieldsDetermineDate(a.year, a.month, a.day, b.year, b.month, b.day);
    }
  }

  /** A value is the year, `-`, the two-digit month, `-` and the two-digit
      day. */
  lemma DateValueFields(date: Date)
    requires ValidDate(date)
    ensures DateValue(date) == IntToString(date.year) + "-" + TwoDigits(date.month) + "-" + TwoDigits(date.day)
  {
    TwoDigitsIsPadStart(date.month);
    TwoDigitsIsPadStart(date.day);
  }

  /** The year, month and day written as a value can be read off it. */
  lemma FieldsDetermineDate(y1: int, m1: nat, d1: nat, y2: int, m2: nat, d2: nat)
    requires m1 < 100 && d1 < 100 && m2 < 100 && d2 < 100
    requires IntToString(y1) + "-" + TwoDigits(m1) + "-" + TwoDigits(d1)
             == IntToString(y2) + "-" + TwoDigits(m2) + "-" + TwoDigits(d2)
    ensures y1 == y2 && m1 == m2 && d1 == d2
  {
    ValueFieldsApart(IntToString(y1), TwoDigits(m1), TwoDigits(d1), IntToString(y2), TwoDigits(m2), TwoDigits(d2));
    IntToStringInjective(y1, y2);
  }

  /** With two-character month and day fields, a value determines its
      three fields. */
  lemma ValueFieldsApart(y1: string, m1: string, d1: string, y2: string, m2: string, d2: string)
    requires |m1| == |d1| == |m2| == |d2| == 2
    requires y1 + "-" + m1 + "-" + d1 == y2 + "-" + m2 + "-" + d2
    ensures y1 == y2 && m1 == m2 && d1 == d2
  {
    var v := y1 + "-" + m1 + "-" + d1;
    assert |y1| == |y2|;
    assert v[..|y1|] == y1;
    assert (y2 + "-" + m2 + "-" + d2)[..|y2|] == y2;
    assert v[|y1| + 1..|y1| + 3] == m1;
    assert (y2 + "-" + m2 + "-" + d2)[|y2| + 1..|y2| + 3] == m2;
    assert v[|y1| + 4..] == d1;
    assert (y2 + "-" + m2 + "-" + d2)[|y2| + 4..] == d2;
  }

  // ---------------------------------------------------------------------
  // handleStatsDateSelect

  /** `Number(part)` for the parts a value splits into: whitespace around it
      is ignored, a blank part is 0, decimal digits are their value, and
      anything else is NaN (`None`). */
  function NumberOf(part: string): Option<int>
  {
    var t := Trim(part);
    if t == "" then Some(0)
    else if AllDigits(t) then Some(DigitsValue(t))
    else None
  }

  /** The instant `handleStatsDateSelect` queries for a value: local
      midnight of the date read from it, moved back by the offset; `None`
      when the date is NaN. */
  function SelectedInstant(value: string, offsetHours: int): Option<int>
  {
    InstantOfParts(Split(value, '-'), offsetHours)
  }

  /** The instant for the parts of a value: its first three parts read as
      year, month and day (a missing part is NaN). */
  function InstantOfParts(parts: seq<string>, offsetHours: int): Option<int>
  {
    if |parts| < 3 then None
    else
      var y, m, d := NumberOf(parts[0]), NumberOf(parts[1]), NumberOf(parts[2]);
      if y.Some? && m.Some? && d.Some? then Some(Unshift(DateUtc(y.value, m.value - 1, d.value), offsetHours))
      else None
  }

  /** The header shown for the selected instant. */
  function Header(selectedMs: int, offsetHours: int): string
  {
    FullLabel(Shift(selectedMs, offsetHours))
  }

  lemma TrimDigits(s: string)
    requires AllDigits(s)
    ensures Trim(s) == s
  {
    if |s| > 0 {
      assert !IsWhitespace(s[0]);
      assert TrimStart(s) == s;
      assert !IsWhitespace(s[|s| - 1]);
      assert TrimEnd(s) == s;
    }
  }

  lemma NumberOfDigits(s: string)
    requires |s| > 0 && AllDigits(s)
    ensures NumberOf(s) == Some(DigitsValue(s))
  {
    TrimDigits(s);
  }

  /** Reading a value back through `split('-')` and `Number` yields the year,
      month and day it was made from. */
  lemma ReadDateValue(date: Date)
    requires ValidDate(date) && date.year >= 0
    ensures var parts := Split(DateValue(date), '-');
            && |parts| == 3
            && NumberOf(parts[0]) == Some(date.year)
            && NumberOf(parts[1]) == Some(date.month)
            && NumberOf(parts[2]) == Some(date.day)
  {
    var parts := [IntToString(date.year), TwoDigits(date.month), TwoDigits(date.day)];
    DateValueParts(date);
    forall i | 0 <= i < 3
      ensures '-' !in parts[i]
    {
      assert AllDigits(parts[i]);
    }
    SplitJoin(parts, '-');
    DigitsValueOfNatToString(date.year);
    NumberOfDigits(parts[0]);
    NumberOfDigits(parts[1]);
    NumberOfDigits(parts[2]);
  }

  /** A value whose three parts read as numbers selects the instant of
      `Date.UTC` of those numbers, moved back by the offset. */
  lemma SelectedOfParts(value: string, offsetHours: int, y: int, m: int, d: int)
    requires var parts := Split(value, '-');
             && |parts| == 3
             && NumberOf(parts[0]) == Some(y)
             && NumberOf(parts[1]) == Some(m)
             && NumberOf(parts[2]) == Some(d)
    ensures SelectedInstant(value, offsetHours) == Some(Unshift(DateUtc(y, m - 1, d), offsetHours))
  {
    var parts := Split(value, '-');
    var month0 := m - 1;
    assert NumberOf(parts[1]).value - 1 == month0;
    assert InstantOfParts(parts, offsetHours) == Some(Unshift(DateUtc(y, month0, d), offsetHours));
  }

  /** The instant selected for a date is its local midnight. */
  lemma SelectDate(date: Date, offsetHours: int)
    requires ValidDate(date) && date.year >= 100
    ensures SelectedInstant(DateValue(date), offsetHours)
              == Some(Unshift(DaysFromCivil(date.year, date.month, date.day) * MsPerDay, offsetHours))
  {
    ReadDateValue(date);
    SelectedOfParts(DateValue(date), offsetHours, date.year, date.month, date.day);
    DateUtcOfDate(date);
  }

  /** Midnight of a day falls on that day. */
  lemma MidnightDay(z: int)
    ensures DayOf(z * MsPerDay) == z
  {
  }

  /** Selecting option `i` queries local midnight of the day it shows, and
      the header names the same weekday, month, day and year as the option
      (for options after the first two, the header is the option's label). */
  lemma OptionRoundTrip(nowMs: int, offsetHours: int, i: nat)
    requires UtcDate(OptionLocal(nowMs, offsetHours, i)).year >= 100
    ensures var localMs := OptionLocal(nowMs, offsetHours, i);
            var option := MakeOption(nowMs, offsetHours, i);
            var selected := Unshift(DayOf(localMs) * MsPerDay, offsetHours);
            && SelectedInstant(option.value, offsetHours) == Some(selected)
            && Header(selected, offsetHours) == FullLabel(localMs)
            && (i >= 2 ==> Header(selected, offsetHours) == option.caption)
  {
    var localMs := OptionLocal(nowMs, offsetHours, i);
    var z := DayOf(localMs);
    var date := UtcDate(localMs);
    assert DaysFromCivil(date.year, date.month, date.day) == z;
    SelectDate(date, offsetHours);
    var midnight := z * MsPerDay;
    var selected := Unshift(midnight, offsetHours);
    assert Shift(selected, offsetHours) == midnight;
    MidnightDay(z);
    assert UtcDate(midnight) == date;
    assert DayOf(midnight) == z;
  }

  /** Each option is exactly one day before the previous one. */
  lemma OptionDays(nowMs: int, offsetHours: int, i: nat)
    ensures DayOf(OptionLocal(nowMs, offsetHours, i)) == DayOf(OptionLocal(nowMs, offsetHours, 0)) - i
  {
    var a := OptionLocal(nowMs, offsetHours, 0);
    assert OptionLocal(nowMs, offsetHours, i) == a - i * MsPerDay;
  }

  /** The options name strictly decreasing calendar dates. */
  lemma OptionsDecrease(nowMs: int, offsetHours: int, i: nat, j: nat)
    requires i < j
    ensures DateBefore(UtcDate(OptionLocal(nowMs, offsetHours, j)), UtcDate(OptionLocal(nowMs, offsetHours, i)))
  {
    OptionDays(nowMs, offsetHours, i);
    OptionDays(nowMs, offsetHours, j);
    CivilFromDaysIncreasing(DayOf(OptionLocal(nowMs, offsetHours, j)), DayOf(OptionLocal(nowMs, offsetHours, i)));
  }

  /** No two options share a value. */
  lemma OptionValuesDistinct(nowMs: int, offsetHours: int, i: nat, j: nat)
    requires i != j
    ensures MakeOption(nowMs, offsetHours, i).value != MakeOption(nowMs, offsetHours, j).value
  {
    var a := UtcDate(OptionLocal(nowMs, offsetHours, i));
    var b := UtcDate(OptionLocal(nowMs, offsetHours, j));
    if i < j {
      OptionsDecrease(nowMs, offsetHours, i, j);
    } else {
      OptionsDecrease(nowMs, offsetHours, j, i);
    }
    assert a != b;
    DateValueInjective(a, b);
  }
}
