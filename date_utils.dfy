/**
 * DateUtils: the calendar logic of the date helper with Joda-Time's
 * LocalDate replaced by a day number. Parsing and formatting with
 * templates are not modelled: dates go in and come out as day numbers.
 */
module DateUtils {
  import opened Results
  import opened Text

  /** A LocalDate, as the number of days since 1970-01-01 (negative before it). */
  type Day = int

  /** ISO day of the week, 1 = Monday ... 7 = Sunday; 1970-01-01 was a Thursday. */
  function DayOfWeek(d: Day): (w: int)
    ensures 1 <= w <= 7
  {
    (d + 3) % 7 + 1
  }

  /** The day of the week advances by one each day, and Sunday is followed by Monday. */
  lemma DayOfWeekAdvances(d: Day)
    ensures DayOfWeek(d + 1) == if DayOfWeek(d) == 7 then 1 else DayOfWeek(d) + 1
  {
  }

  /** The day number of a proleptic Gregorian calendar date (used to write examples). */
  function EpochDay(year: int, month: int, day: int): Day
    requires 1 <= month <= 12 && 1 <= day <= 31
  {
    var y := if month <= 2 then year - 1 else year;
    var era := y / 400;
    var yearOfEra := y - era * 400;
    var shiftedMonth := (month + 9) % 12;
    var dayOfYear := (153 * shiftedMonth + 2) / 5 + day - 1;
    var dayOfEra := yearOfEra * 365 + yearOfEra / 4 - yearOfEra / 100 + dayOfYear;
    era * 146097 + dayOfEra - 719468
  }

  lemma EpochExamples()
    ensures EpochDay(1970, 1, 1) == 0 && DayOfWeek(0) == 4
    ensures EpochDay(2017, 6, 20) == 17337 && DayOfWeek(17337) == 2
  {
    assert 1969 / 400 == 4 && 1969 - 4 * 400 == 369;
    assert (1 + 9) % 12 == 10 && (153 * 10 + 2) / 5 == 306;
    assert 369 / 4 == 92 && 369 / 100 == 3;
    assert 2017 / 400 == 5 && 2017 - 5 * 400 == 17;
    assert (6 + 9) % 12 == 3 && (153 * 3 + 2) / 5 == 92;
    assert 17 / 4 == 4 && 17 / 100 == 0;
    assert (17337 + 3) % 7 == 1;
  }

  /** isWeeken: the day is a Saturday or a Sunday. */
  predicate IsWeeken(d: Day)
    ensures IsWeeken(d) <==> d % 7 == 2 || d % 7 == 3
  {
    DayOfWeek(d) == 6 || DayOfWeek(d) == 7
  }

  /** LocalDate.compareTo: -1, 0 or 1. */
  function Compare(target: Day, other: Day): (c: int)
    ensures c == -1 <==> target < other
    ensures c == 0 <==> target == other
    ensures c == 1 <==> target > other
  {
    if target < other then -1 else if target == other then 0 else 1
  }

  /** isBefore: compareTo gives -1. */
  predicate IsBefore(target: Day, other: Day)
    ensures IsBefore(target, other) <==> target < other
  {
    Compare(target, other) == -1
  }

  /** isAfter: compareTo gives 1. */
  predicate IsAfter(target: Day, other: Day)
    ensures IsAfter(target, other) <==> target > other
  {
    Compare(target, other) == 1
  }

  /** isNotBefore: compareTo does not give -1. */
  predicate IsNotBefore(target: Day, other: Day)
    ensures IsNotBefore(target, other) <==> target >= other
  {
    Compare(target, other) != -1
  }

  /** isNotAfter: compareTo does not give 1. */
  predicate IsNotAfter(target: Day, other: Day)
    ensures IsNotAfter(target, other) <==> target <= other
  {
    Compare(target, other) != 1
  }

  /** The four comparisons are two pairs of complements, and a day is never both before and after another. */
  lemma ComparisonsConsistent(a: Day, b: Day)
    ensures IsNotBefore(a, b) == !IsBefore(a, b)
    ensures IsNotAfter(a, b) == !IsAfter(a, b)
    ensures !(IsBefore(a, b) && IsAfter(a, b))
    ensures IsBefore(a, b) <==> IsAfter(b, a)
  {
  }

  /** The days of [start, end], in order, whose weekend status is `weekend`. */
  function DaysWhere(start: Day, end: Day, weekend: bool): seq<Day>
    decreases end - start
  {
    if end < start then []
    else DaysWhere(start, end - 1, weekend) + (if IsWeeken(end) == weekend then [end] else [])
  }

  /** A day is listed exactly when it lies in the range and has the requested weekend status. */
  lemma {:induction false} DaysWhereMembers(start: Day, end: Day, weekend: bool, x: Day)
    ensures x in DaysWhere(start, end, weekend) <==> start <= x <= end && IsWeeken(x) == weekend
    decreases end - start
  {
    if end >= start {
      DaysWhereMembers(start, end - 1, weekend, x);
    }
  }

  /** The list is strictly ascending and stays inside the range. */
  lemma {:induction false} DaysWhereAscending(start: Day, end: Day, weekend: bool)
    ensures forall i :: 0 <= i < |DaysWhere(start, end, weekend)| ==>
      start <= DaysWhere(start, end, weekend)[i] <= end
    ensures forall i, j :: 0 <= i < j < |DaysWhere(start, end, weekend)| ==>
      DaysWhere(start, end, weekend)[i] < DaysWhere(start, end, weekend)[j]
    decreases end - start
  {
    if end >= start {
      DaysWhereAscending(start, end - 1, weekend);
    }
  }

  /** The weekday list and the weekend list together count every day of the range once. */
  lemma {:induction false} DaysWherePartition(start: Day, end: Day)
    ensures |DaysWhere(start, end, true)| + |DaysWhere(start, end, false)| ==
      if end < start then 0 else end - start + 1
    decreases end - start
  {
    if end >= start {
      DaysWherePartition(start, end - 1);
    }
  }

  /** The day of the week k days later, for k within one week. */
  lemma {:induction false} DayOfWeekShift(d: Day, k: nat)
    requires k <= 6
    ensures DayOfWeek(d + k) == (DayOfWeek(d) - 1 + k) % 7 + 1
  {
    if k > 0 {
      DayOfWeekShift(d, k - 1);
      DayOfWeekAdvances(d + k - 1);
    }
  }

  /** Every run of seven consecutive days holds exactly two weekend days. */
  lemma WeekHasTwoWeekendDays(start: Day)
    ensures |DaysWhere(start, start + 6, true)| == 2
  {
    WeekendCountStep(start, start);
    WeekendCountStep(start, start + 1);
    WeekendCountStep(start, start + 2);
    WeekendCountStep(start, start + 3);
    WeekendCountStep(start, start + 4);
    WeekendCountStep(start, start + 5);
    WeekendCountStep(start, start + 6);
    WeekendAt(start, 0);
    WeekendAt(start, 1);
    WeekendAt(start, 2);
    WeekendAt(start, 3);
    WeekendAt(start, 4);
    WeekendAt(start, 5);
    WeekendAt(start, 6);
    TwoOfSeven((start + 3) % 7);
  }

  /** Of seven consecutive weekday indices starting at r, exactly two are 5 or 6. */
  lemma TwoOfSeven(r: int)
    requires 0 <= r < 7
    ensures (if (r + 0) % 7 >= 5 then 1 else 0) + (if (r + 1) % 7 >= 5 then 1 else 0)
          + (if (r + 2) % 7 >= 5 then 1 else 0) + (if (r + 3) % 7 >= 5 then 1 else 0)
          + (if (r + 4) % 7 >= 5 then 1 else 0) + (if (r + 5) % 7 >= 5 then 1 else 0)
          + (if (r + 6) % 7 >= 5 then 1 else 0) == 2
  {
    if r == 0 {
    } else if r == 1 {
    } else if r == 2 {
    } else if r == 3 {
    } else if r == 4 {
    } else if r == 5 {
    } else {
    }
  }

  /** Day k of a week starting at `start` is a weekend day exactly when its weekday index (0 = Monday) is 5 or 6. */
  lemma WeekendAt(start: Day, k: nat)
    requires k <= 6
    ensures IsWeeken(start + k) <==> ((start + 3) % 7 + k) % 7 >= 5
  {
    DayOfWeekShift(start, k);
  }

  /** Extending the range by one day adds one weekend day exactly when that day is a weekend day. */
  lemma WeekendCountStep(start: Day, end: Day)
    requires start <= end
    ensures |DaysWhere(start, end, true)| == |DaysWhere(start, end - 1, true)| + (if IsWeeken(end) then 1 else 0)
  {
  }


  /** The shared loop of getDateListWithoutWeeken and getWeekenDateList: walk [start, end] one day at a time. */
  method CollectDays(start: Day, end: Day, weekend: bool) returns (list: seq<Day>)
    ensures list == DaysWhere(start, end, weekend)
  {
    list := [];
    var d := start;
    while IsNotAfter(d, end)
      invariant start <= d <= if start <= end then end + 1 else start
      invariant list == DaysWhere(start, d - 1, weekend)
      decreases end - d
    {
      if IsWeeken(d) == weekend {
        list := list + [d];
      }
      d := d + 1;
    }
  }

  /** getDateListWithoutWeeken: the days of [start, end] that are not Saturday or Sunday, ascending. */
  method GetDateListWithoutWeeken(start: Day, end: Day) returns (list: seq<Day>)
    ensures forall x :: x in list <==> start <= x <= end && !IsWeeken(x)
    ensures forall i, j :: 0 <= i < j < |list| ==> list[i] < list[j]
    ensures list == DaysWhere(start, end, false)
  {
    list := CollectDays(start, end, false);
    forall x {
      DaysWhereMembers(start, end, false, x);
    }
    DaysWhereAscending(start, end, false);
  }

  /** getWeekenDateList: the Saturdays and Sundays of [start, end], ascending. */
  method GetWeekenDateList(start: Day, end: Day) returns (list: seq<Day>)
    ensures forall x :: x in list <==> start <= x <= end && IsWeeken(x)
    ensures forall i, j :: 0 <= i < j < |list| ==> list[i] < list[j]
    ensures list == DaysWhere(start, end, true)
  {
    list := CollectDays(start, end, true);
    forall x {
      DaysWhereMembers(start, end, true, x);
    }
    DaysWhereAscending(start, end, true);
  }

  /*---- dateStatistics(List, String, String) ----*/

  /** Some listed, non-null date among the first `count` lies `offset` days after start. */
  ghost predicate ListedAmong(dates: seq<Option<Day>>, count: int, start: Day, offset: int) {
    exists k :: 0 <= k < count && k < |dates| && dates[k] == Some(start + offset)
  }

  /**
   * What dateStatistics requires to stay within Java's int shifts: the gap
   * between start and end, and every listed date's offset, is at most 30
   * days (1 << 31 is negative as an int, and shift counts wrap at 32).
   */
  predicate WithinShiftRange(dates: seq<Option<Day>>, startDate: Day, endDate: Day) {
    && 0 <= endDate - startDate <= 30
    && forall k :: 0 <= k < |dates| && dates[k].Some? ==> dates[k].value - startDate <= 30
  }

  /** The largest of the gap and of the non-negative offsets of the listed dates. */
  function TopOffset(dates: seq<Option<Day>>, start: Day, interval: nat): (top: nat)
    ensures top >= interval
    ensures forall k :: 0 <= k < |dates| && dates[k].Some? && dates[k].value - start >= 0 ==>
      dates[k].value - start <= top
    ensures top == interval || ListedAmong(dates, |dates|, start, top)
    decreases |dates|
  {
    if |dates| == 0 then interval
    else
      var rest := TopOffset(dates[..|dates| - 1], start, interval);
      match dates[|dates| - 1]
      case Some(d) => if d - start > rest then d - start else rest
      case None => rest
  }

  /**
   * The attendance string dateStatistics promises: one character per day
   * from start up to the last marked day, '1' for a listed date or for the
   * end date when later dates are listed, '0' otherwise; the last character
   * is always '0'.
   */
  ghost function Statistics(dates: seq<Option<Day>>, startDate: Day, endDate: Day): string
    requires WithinShiftRange(dates, startDate, endDate)
  {
    var interval := endDate - startDate;
    var top := TopOffset(dates, startDate, interval);
    seq(top + 1, i requires 0 <= i <= top =>
      if i == top then '0'
      else if i == interval || ListedAmong(dates, |dates|, startDate, i) then '1'
      else '0')
  }

  /** A Java long as its 64 bits, least significant first. */
  type Word = w: seq<bool> | |w| == 64 witness seq(64, _ => false)

  /** 1 << n for a shift count the int shift does not wrap. */
  function ShiftOne(n: int): (w: Word)
    requires 0 <= n <= 30
    ensures forall i :: 0 <= i < 64 ==> (w[i] <==> i == n)
  {
    seq(64, i => i == n)
  }

  /** a | b. */
  function Or(a: Word, b: Word): (w: Word)
    ensures forall i :: 0 <= i < 64 ==> (w[i] <==> a[i] || b[i])
  {
    seq(64, i requires 0 <= i < 64 => a[i] || b[i])
  }

  /** The highest set bit. */
  function TopBit(w: seq<bool>): (h: nat)
    requires true in w
    ensures h < |w| && w[h]
    ensures forall j :: h < j < |w| ==> !w[j]
    decreases |w|
  {
    if w[|w| - 1] then |w| - 1 else TopBit(w[..|w| - 1])
  }

  /** Long.toBinaryString of a positive long: the bits from the highest set one down to bit 0. */
  function ToBinaryString(w: Word): (s: string)
    requires true in w && !w[63]
    ensures |s| == TopBit(w) + 1
    ensures forall j :: 0 <= j < |s| ==> s[j] == if w[TopBit(w) - j] then '1' else '0'
  {
    var h := TopBit(w);
    seq(h + 1, j requires 0 <= j <= h => if w[h - j] then '1' else '0')
  }

  /**
   * dateStatistics(dateList, startDate, endDate): sets bit (end - start) and
   * the bit of every listed date not before start, writes the number in
   * binary, overwrites its leading digit with '0' and reverses it. The
   * source's test `dateList.contains(endDate)` asks a list of strings for a
   * LocalDate and is therefore always false, so the overwrite always happens.
   */
  method DateStatistics(dates: seq<Option<Day>>, startDate: Day, endDate: Day) returns (r: string)
    requires WithinShiftRange(dates, startDate, endDate)
    ensures r == Statistics(dates, startDate, endDate)
  {
    var interval := endDate - startDate;
    var num := ShiftOne(interval);
    for k := 0 to |dates|
      invariant forall i :: 0 <= i < 64 ==> (num[i] <==> i == interval || ListedAmong(dates, k, startDate, i))
    {
      if dates[k].Some? {
        var dayBetween := dates[k].value - startDate;
        if dayBetween > -1 {
          num := Or(num, ShiftOne(dayBetween));
        }
      }
    }
    StatisticsWord(dates, startDate, endDate, num);
    var sb := ToBinaryString(num);
    sb := sb[0 := '0'];
    r := Reverse(sb);
    RenderedWord(dates, startDate, endDate, num);
  }

  /** The number dateStatistics builds: bit i set exactly for the end offset and the listed offsets. */
  ghost predicate MarksDays(dates: seq<Option<Day>>, startDate: Day, endDate: Day, num: Word) {
    forall i :: 0 <= i < 64 ==> (num[i] <==> i == endDate - startDate || ListedAmong(dates, |dates|, startDate, i))
  }

  /** That number is positive and its highest set bit is the top offset. */
  lemma StatisticsWord(dates: seq<Option<Day>>, startDate: Day, endDate: Day, num: Word)
    requires WithinShiftRange(dates, startDate, endDate)
    requires MarksDays(dates, startDate, endDate, num)
    ensures true in num && !num[63]
    ensures TopBit(num) == TopOffset(dates, startDate, endDate - startDate)
  {
    var top := TopOffset(dates, startDate, endDate - startDate);
    assert num[endDate - startDate];
    assert num[top];
    forall j | top < j < 64
      ensures !num[j]
    {
      assert forall k :: 0 <= k < |dates| ==> dates[k] != Some(startDate + j);
    }
    TopBitIs(num, top);
  }

  lemma TopBitIs(w: seq<bool>, h: nat)
    requires h < |w| && w[h]
    requires forall j :: h < j < |w| ==> !w[j]
    ensures true in w && TopBit(w) == h
  {
  }

  /** Writing that number in binary, zeroing the leading digit and reversing gives the attendance string. */
  lemma RenderedWord(dates: seq<Option<Day>>, startDate: Day, endDate: Day, num: Word)
    requires WithinShiftRange(dates, startDate, endDate)
    requires MarksDays(dates, startDate, endDate, num)
    requires true in num && !num[63]
    requires TopBit(num) == TopOffset(dates, startDate, endDate - startDate)
    ensures Reverse(ToBinaryString(num)[0 := '0']) == Statistics(dates, startDate, endDate)
  {
  }

  /**
   * When every listed date lies no later than the end date, the string has
   * one character per day of [start, end]; before the end it marks exactly
   * the listed days, and the end date itself is always '0'.
   */
  lemma StatisticsWithinRange(dates: seq<Option<Day>>, startDate: Day, endDate: Day)
    requires WithinShiftRange(dates, startDate, endDate)
    requires forall k :: 0 <= k < |dates| && dates[k].Some? ==> dates[k].value <= endDate
    ensures |Statistics(dates, startDate, endDate)| == endDate - startDate + 1
    ensures Statistics(dates, startDate, endDate)[endDate - startDate] == '0'
    ensures forall i :: 0 <= i < endDate - startDate ==>
      (Statistics(dates, startDate, endDate)[i] == '1' <==> ListedAmong(dates, |dates|, startDate, i))
  {
    var interval := endDate - startDate;
    var top := TopOffset(dates, startDate, interval);
    forall t | t > interval
      ensures !ListedAmong(dates, |dates|, startDate, t)
    {
      assert forall k :: 0 <= k < |dates| ==> dates[k] != Some(startDate + t);
    }
  }

  /** Dates before the start date leave the string unchanged. */
  lemma EarlierDateIgnored(dates: seq<Option<Day>>, startDate: Day, endDate: Day, early: Day)
    requires WithinShiftRange(dates, startDate, endDate)
    requires early < startDate
    ensures WithinShiftRange(dates + [Some(early)], startDate, endDate)
    ensures Statistics(dates + [Some(early)], startDate, endDate) == Statistics(dates, startDate, endDate)
  {
    var more := dates + [Some(early)];
    var interval := endDate - startDate;
    assert more[..|more| - 1] == dates;
    assert TopOffset(more, startDate, interval) == TopOffset(dates, startDate, interval);
    forall i | 0 <= i
      ensures ListedAmong(more, |more|, startDate, i) <==> ListedAmong(dates, |dates|, startDate, i)
    {
      if ListedAmong(more, |more|, startDate, i) {
        var k :| 0 <= k < |more| && more[k] == Some(startDate + i);
        assert k < |dates| && dates[k] == Some(startDate + i);
      }
      if ListedAmong(dates, |dates|, startDate, i) {
        var k :| 0 <= k < |dates| && dates[k] == Some(startDate + i);
        assert more[k] == Some(startDate + i);
      }
    }
    SameMarksSameStatistics(more, dates, startDate, endDate);
  }

  /** Two date lists that mark the same days up to the same top offset give the same string. */
  lemma SameMarksSameStatistics(a: seq<Option<Day>>, b: seq<Option<Day>>, startDate: Day, endDate: Day)
    requires WithinShiftRange(a, startDate, endDate) && WithinShiftRange(b, startDate, endDate)
    requires TopOffset(a, startDate, endDate - startDate) == TopOffset(b, startDate, endDate - startDate)
    requires forall i :: 0 <= i ==> (ListedAmong(a, |a|, startDate, i) <==> ListedAmong(b, |b|, startDate, i))
    ensures Statistics(a, startDate, endDate) == Statistics(b, startDate, endDate)
  {
  }

  /** The documented example: {"2017-06-20", "2017-06-22"} from 2017-06-20 to 2017-06-23 gives "1010". */
  lemma StatisticsExample()
    ensures WithinShiftRange([Some(EpochDay(2017, 6, 20)), Some(EpochDay(2017, 6, 22))],
                             EpochDay(2017, 6, 20), EpochDay(2017, 6, 23))
    ensures Statistics([Some(EpochDay(2017, 6, 20)), Some(EpochDay(2017, 6, 22))],
                       EpochDay(2017, 6, 20), EpochDay(2017, 6, 23)) == "1010"
  {
    assert EpochDay(2017, 6, 22) == EpochDay(2017, 6, 20) + 2;
    assert EpochDay(2017, 6, 23) == EpochDay(2017, 6, 20) + 3;
    StatisticsPattern(EpochDay(2017, 6, 20));
  }

  /** Listing the first and third of four days. */
  lemma StatisticsPattern(start: Day)
    ensures WithinShiftRange([Some(start), Some(start + 2)], start, start + 3)
    ensures Statistics([Some(start), Some(start + 2)], start, start + 3) == "1010"
  {
    var dates := [Some(start), Some(start + 2)];
    StatisticsWithinRange(dates, start, start + 3);
    assert dates[0] == Some(start + 0);
    assert ListedAmong(dates, 2, start, 0) && ListedAmong(dates, 2, start, 2);
    assert !ListedAmong(dates, 2, start, 1);
  }

  /*---- DateUtils.Date ----*/

  const StartKey := "start_date"
  const EndKey := "end_date"

  /** getStartDate: the date at the first second of the day. */
  function GetStartDate(date: string): (r: string)
    ensures StartsWith(r, date) && r[|date|..] == " 00:00:00"
  {
    date + " 00:00:00"
  }

  /** getEndDate: the date at the last second of the day. */
  function GetEndDate(date: string): (r: string)
    ensures StartsWith(r, date) && r[|date|..] == " 23:59:59"
  {
    date + " 23:59:59"
  }

  /** The two puts shared by getStartTimeAndEndTime and fillStartTimeAndEndTime. */
  function WithStartAndEnd(params: map<string, string>, date: string): (r: map<string, string>)
    ensures r.Keys == params.Keys + {StartKey, EndKey}
    ensures r[StartKey] == GetStartDate(date) && r[EndKey] == GetEndDate(date)
    ensures forall k :: k in params && k != StartKey && k != EndKey ==> r[k] == params[k]
  {
    params[StartKey := GetStartDate(date)][EndKey := GetEndDate(date)]
  }

  /** getStartTimeAndEndTime: empty for a null date, otherwise exactly the two bounds of the day. */
  function GetStartTimeAndEndTime(date: Option<string>): (r: map<string, string>)
    ensures date.None? ==> r == map[]
    ensures date.Some? ==> r.Keys == {StartKey, EndKey}
    ensures date.Some? ==> r[StartKey] == GetStartDate(date.value) && r[EndKey] == GetEndDate(date.value)
  {
    match date
    case None => map[]
    case Some(d) => WithStartAndEnd(map[], d)
  }

  /** A caller's Map<String, Object>, updated in place; values are their string forms. */
  class ParamMap {
    var entries: map<string, string>

    constructor (entries: map<string, string>)
      ensures this.entries == entries
    {
      this.entries := entries;
    }
  }

  /**
   * fillStartTimeAndEndTime: a null date returns the map untouched;
   * otherwise the two bounds are put into the caller's map, which is
   * returned (a null map then raises NullPointerException).
   */
  method FillStartTimeAndEndTime(date: Option<string>, params: ParamMap?) returns (r: Result<ParamMap?>)
    modifies params
    ensures date.None? ==> r == Ok(params) && (params != null ==> params.entries == old(params.entries))
    ensures date.Some? && params == null ==> r == Err(NullPointerException)
    ensures date.Some? && params != null ==>
      r == Ok(params) && params.entries == WithStartAndEnd(old(params.entries), date.value)
  {
    if date.None? {
      return Ok(params);
    }
    if params == null {
      return Err(NullPointerException);
    }
    params.entries := params.entries[StartKey := GetStartDate(date.value)];
    params.entries := params.entries[EndKey := GetEndDate(date.value)];
    r := Ok(params);
  }

  /*---- DateUtils.DateRange ----*/

  const RangeSeparator := " 至 "

  /** String.split's removal of the trailing empty strings. */
  function DropTrailingEmpty(pieces: seq<string>): (r: seq<string>)
    ensures |r| <= |pieces| && r == pieces[..|r|]
    ensures forall i :: |r| <= i < |pieces| ==> pieces[i] == ""
    ensures r == [] || r[|r| - 1] != ""
    decreases |pieces|
  {
    if |pieces| > 0 && pieces[|pieces| - 1] == "" then DropTrailingEmpty(pieces[..|pieces| - 1]) else pieces
  }

  /**
   * getDateRange(dateRange): dateRange.split(" 至 "). Without any separator
   * the whole input is the only piece; otherwise the pieces between
   * separators, less the trailing empty ones.
   */
  function GetDateRange(dateRange: string): (r: seq<string>)
    ensures !Contains(dateRange, RangeSeparator) ==> r == [dateRange]
    ensures Contains(dateRange, RangeSeparator) ==> r == [] || r[|r| - 1] != ""
    ensures |r| <= |Split(dateRange, RangeSeparator)| && r == Split(dateRange, RangeSeparator)[..|r|]
    ensures forall i :: |r| <= i < |Split(dateRange, RangeSeparator)| ==> Split(dateRange, RangeSeparator)[i] == ""
  {
    var pieces := Split(dateRange, RangeSeparator);
    if !Contains(dateRange, RangeSeparator) then pieces else DropTrailingEmpty(pieces)
  }

  /**
   * The pieces of a date range are the input cut at its separators: put
   * back together with the trailing empty pieces that split dropped, they
   * give the input, and no piece contains a separator.
   */
  lemma DateRangeRoundTrip(dateRange: string)
    ensures var r := GetDateRange(dateRange);
      var dropped := |Split(dateRange, RangeSeparator)| - |r|;
      Join(r + seq(dropped, i => ""), RangeSeparator) == dateRange
    ensures NoneContain(GetDateRange(dateRange), RangeSeparator)
  {
    var pieces := Split(dateRange, RangeSeparator);
    var r := GetDateRange(dateRange);
    assert pieces == r + seq(|pieces| - |r|, i => "");
  }

  /** A date range of two dates without spaces is cut into exactly those two dates. */
  lemma TwoDatesSplit(first: string, second: string)
    requires forall i :: 0 <= i < |first| ==> first[i] != ' '
    requires forall i :: 0 <= i < |second| ==> second[i] != ' '
    requires second != ""
    ensures GetDateRange(first + RangeSeparator + second) == [first, second]
  {
    var s := first + RangeSeparator + second;
    SeparatorAt(first, second);
    assert s[|first| + |RangeSeparator|..] == second;
    assert s[..|first|] == first;
    NoSeparatorIn(second);
    assert Split(second, RangeSeparator) == [second];
    assert Split(s, RangeSeparator) == [first, second];
  }

  /** '2016-07-07 至 2016-07-08' is cut into its two dates. */
  lemma DateRangeExample()
    ensures GetDateRange("2016-07-07 至 2016-07-08") == ["2016-07-07", "2016-07-08"]
  {
    var first, second := "2016-07-07", "2016-07-08";
    assert "2016-07-07 至 2016-07-08" == first + RangeSeparator + second;
    TwoDatesSplit(first, second);
  }

  /**
   * The separator overlaps itself (" 至 至 " holds it at 0 and at 2); as in
   * String.split, the leftmost occurrence is taken and the text after it is
   * searched anew, so the pieces are "" and "至 ".
   */
  lemma OverlappingSeparatorExample()
    ensures GetDateRange(" 至 至 ") == ["", "至 "]
  {
    var s := " 至 至 ";
    assert s[0..] == s && s[..3] == RangeSeparator;
    IndexOfAt(s, RangeSeparator, 0);
    SplitLeftmost(s, RangeSeparator, 0);
    assert s[..0] == "" && s[3..] == "至 ";
    SplitWhole("至 ", RangeSeparator);
  }

  lemma SeparatorAt(first: string, second: string)
    requires forall i :: 0 <= i < |first| ==> first[i] != ' '
    ensures IndexOf(first + RangeSeparator + second, RangeSeparator) == Some(|first|)
  {
    var s := first + RangeSeparator + second;
    assert s[|first|..][..|RangeSeparator|] == RangeSeparator;
    forall j | 0 <= j < |first|
      ensures !StartsWith(s[j..], RangeSeparator)
    {
      assert s[j..][0] == first[j] != RangeSeparator[0];
    }
    IndexOfAt(s, RangeSeparator, |first|);
  }

  lemma NoSeparatorIn(s: string)
    requires forall i :: 0 <= i < |s| ==> s[i] != ' '
    ensures IndexOf(s, RangeSeparator).None?
  {
    forall j | 0 <= j <= |s|
      ensures !StartsWith(s[j..], RangeSeparator)
    {
      if j < |s| {
        assert s[j..][0] == s[j] != RangeSeparator[0];
      }
    }
    IndexOfAbsent(s, RangeSeparator);
  }
}
