/**
 Date-to-zodiac-sign lookup of the Cosmic Destiny site script.

 The lookup scans a fixed table of twelve signs, each with an inclusive
 (month, day) start and end, and returns the name of the first row whose
 start or end test accepts the input, or "Unknown" when none does. Months and
 days are unbounded integers: the lookup validates neither.
 */
module Zodiac {

  /** A calendar position as the table writes it: `[month, day]`. */
  datatype MonthDay = MonthDay(month: int, day: int)

  /** One row of the sign table. */
  datatype Sign = Sign(name: string, start: MonthDay, end: MonthDay)

  /** The sentinel returned when no row matches. */
  const Unknown: string := "Unknown"

  /** The table, in the order the lookup scans it. Capricorn, first, wraps across the year. */
  const Signs: seq<Sign> := [
    Sign("Capricorn", MonthDay(12, 22), MonthDay(1, 19)),
    Sign("Aquarius", MonthDay(1, 20), MonthDay(2, 18)),
    Sign("Pisces", MonthDay(2, 19), MonthDay(3, 20)),
    Sign("Aries", MonthDay(3, 21), MonthDay(4, 19)),
    Sign("Taurus", MonthDay(4, 20), MonthDay(5, 20)),
    Sign("Gemini", MonthDay(5, 21), MonthDay(6, 20)),
    Sign("Cancer", MonthDay(6, 21), MonthDay(7, 22)),
    Sign("Leo", MonthDay(7, 23), MonthDay(8, 22)),
    Sign("Virgo", MonthDay(8, 23), MonthDay(9, 22)),
    Sign("Libra", MonthDay(9, 23), MonthDay(10, 22)),
    Sign("Scorpio", MonthDay(10, 23), MonthDay(11, 21)),
    Sign("Sagittarius", MonthDay(11, 22), MonthDay(12, 21))
  ]

  /** The first test of a row: the date is in the start month, on or after the start day. */
  predicate StartTest(s: Sign, month: int, day: int) {
    s.start.month == month && day >= s.start.day
  }

  /** The second test of a row: the date is in the end month, on or before the end day. */
  predicate EndTest(s: Sign, month: int, day: int) {
    s.end.month == month && day <= s.end.day
  }

  /** The extra test for rows that wrap across the year (start month after end month). */
  predicate WrapTest(s: Sign, month: int, day: int) {
    && s.start.month > s.end.month
    && (month == s.start.month || month == s.end.month)
    && ((month == s.start.month && day >= s.start.day) || (month == s.end.month && day <= s.end.day))
  }

  /** A row accepts a date when any of its three tests does. */
  predicate RowMatches(s: Sign, month: int, day: int) {
    StartTest(s, month, day) || EndTest(s, month, day) || WrapTest(s, month, day)
  }

  /**
   The scan loop, over any table: the name of the first row some test accepts,
   otherwise "Unknown". The branches follow the loop body test by test.
   */
  function FirstMatch(rows: seq<Sign>, month: int, day: int): (r: string)
    ensures r == Unknown || exists k :: 0 <= k < |rows| && RowMatches(rows[k], month, day) && r == rows[k].name
    ensures (forall k :: 0 <= k < |rows| ==> !RowMatches(rows[k], month, day)) ==> r == Unknown
    ensures forall k ::
      (0 <= k < |rows| && RowMatches(rows[k], month, day) &&
       (forall j :: 0 <= j < k ==> !RowMatches(rows[j], month, day))) ==> r == rows[k].name
    decreases |rows|
  {
    if |rows| == 0 then Unknown
    else
      var s := rows[0];
      if s.start.month == month && day >= s.start.day then s.name
      else if s.end.month == month && day <= s.end.day then s.name
      else if s.start.month > s.end.month && (month == s.start.month || month == s.end.month) then
        if month == s.start.month && day >= s.start.day then s.name
        else if month == s.end.month && day <= s.end.day then s.name
        else FirstMatch(rows[1..], month, day)
      else FirstMatch(rows[1..], month, day)
  }

  /** The scan with the wrap-around block deleted: only the start and end tests. */
  function FirstMatchWithoutWrap(rows: seq<Sign>, month: int, day: int): string
    decreases |rows|
  {
    if |rows| == 0 then Unknown
    else if StartTest(rows[0], month, day) || EndTest(rows[0], month, day) then rows[0].name
    else FirstMatchWithoutWrap(rows[1..], month, day)
  }

  /**
   The lookup itself: the scan over the fixed table. It answers as the cusp
   table does, for every pair of integers, and so returns "Unknown" exactly for
   months outside 1..12, whatever the day.
   */
  function GetZodiacSign(month: int, day: int): (r: string)
    ensures r == ByCusp(month, day)
    ensures r == Unknown <==> !ValidMonth(month)
  {
    ScanIsByCusp(month, day);
    FirstMatch(Signs, month, day)
  }

  /**
   An independent reference: for each month, the day on which the sign changes
   (its cusp), the sign before the cusp and the sign from the cusp on.
   */
  datatype Cusp = Cusp(day: int, before: string, after: string)

  const Cusps: seq<Cusp> := [
    Cusp(20, "Capricorn", "Aquarius"),     // January
    Cusp(19, "Aquarius", "Pisces"),        // February
    Cusp(21, "Pisces", "Aries"),           // March
    Cusp(20, "Aries", "Taurus"),           // April
    Cusp(21, "Taurus", "Gemini"),          // May
    Cusp(21, "Gemini", "Cancer"),          // June
    Cusp(23, "Cancer", "Leo"),             // July
    Cusp(23, "Leo", "Virgo"),              // August
    Cusp(23, "Virgo", "Libra"),            // September
    Cusp(23, "Libra", "Scorpio"),          // October
    Cusp(22, "Scorpio", "Sagittarius"),    // November
    Cusp(22, "Sagittarius", "Capricorn")   // December
  ]

  predicate ValidMonth(month: int) {
    1 <= month <= 12
  }

  /** The sign by the cusp table: before or after the month's cusp; "Unknown" outside 1..12. */
  function ByCusp(month: int, day: int): string {
    if ValidMonth(month) then
      var c := Cusps[month - 1];
      if day >= c.day then c.after else c.before
    else Unknown
  }

  /** Index of the row whose start lies in `month`. */
  function StartingRow(month: int): (i: nat)
    requires ValidMonth(month)
    ensures i < |Signs| && Signs[i].start.month == month
  {
    month % 12
  }

  /** Index of the row whose end lies in `month`. */
  function EndingRow(month: int): (i: nat)
    requires ValidMonth(month)
    ensures i < |Signs| && Signs[i].end.month == month
  {
    month - 1
  }

  /**
   Every month begins exactly one sign and ends exactly one other; the sign
   that begins there starts one day after the other ends, and both agree with
   the cusp table.
   */
  lemma TableIsCuspTable(month: int)
    requires ValidMonth(month)
    ensures forall i :: 0 <= i < |Signs| && Signs[i].start.month == month ==> i == StartingRow(month)
    ensures forall i :: 0 <= i < |Signs| && Signs[i].end.month == month ==> i == EndingRow(month)
    ensures StartingRow(month) != EndingRow(month)
    ensures Signs[StartingRow(month)].start.day == Signs[EndingRow(month)].end.day + 1
    ensures Signs[StartingRow(month)].start.day == Cusps[month - 1].day
    ensures Signs[StartingRow(month)].name == Cusps[month - 1].after
    ensures Signs[EndingRow(month)].name == Cusps[month - 1].before
  {
  }

  /** The wrap test never accepts a date that the start or end test rejects. */
  lemma WrapTestImpliesDirectTest(s: Sign, month: int, day: int)
    ensures WrapTest(s, month, day) ==> StartTest(s, month, day) || EndTest(s, month, day)
    ensures RowMatches(s, month, day) <==> StartTest(s, month, day) || EndTest(s, month, day)
  {
  }

  /** Deleting the wrap-around block leaves the scan unchanged, on every table. */
  lemma {:induction false} WrapBlockRedundant(rows: seq<Sign>, month: int, day: int)
    ensures FirstMatch(rows, month, day) == FirstMatchWithoutWrap(rows, month, day)
    decreases |rows|
  {
    if |rows| > 0 {
      WrapTestImpliesDirectTest(rows[0], month, day);
      WrapBlockRedundant(rows[1..], month, day);
    }
  }

  /** If some row matches and every matching row carries the name `n`, the scan yields `n`. */
  lemma {:induction false} FirstMatchUniform(rows: seq<Sign>, month: int, day: int, n: string)
    requires exists k :: 0 <= k < |rows| && RowMatches(rows[k], month, day)
    requires forall k :: 0 <= k < |rows| && RowMatches(rows[k], month, day) ==> rows[k].name == n
    ensures FirstMatch(rows, month, day) == n
    decreases |rows|
  {
    if !RowMatches(rows[0], month, day) {
      var k :| 0 <= k < |rows| && RowMatches(rows[k], month, day);
      assert rows[1..][k - 1] == rows[k];
      forall j | 0 <= j < |rows| - 1 && RowMatches(rows[1..][j], month, day)
        ensures rows[1..][j].name == n
      {
        assert rows[1..][j] == rows[j + 1];
      }
      FirstMatchUniform(rows[1..], month, day, n);
    }
  }

  /**
   Outside 1..12 no row matches; inside, exactly the starting row matches on
   and after the cusp and exactly the ending row before it.
   */
  lemma MatchingRows(month: int, day: int)
    ensures !ValidMonth(month) ==> forall i :: 0 <= i < |Signs| ==> !RowMatches(Signs[i], month, day)
    ensures ValidMonth(month) ==> forall i :: 0 <= i < |Signs| ==>
      (RowMatches(Signs[i], month, day) <==>
        if day >= Cusps[month - 1].day then i == StartingRow(month) else i == EndingRow(month))
  {
    forall i | 0 <= i < |Signs|
      ensures RowMatches(Signs[i], month, day) <==> StartTest(Signs[i], month, day) || EndTest(Signs[i], month, day)
    {
      WrapTestImpliesDirectTest(Signs[i], month, day);
    }
    if ValidMonth(month) {
      TableIsCuspTable(month);
    }
  }

  /** For a valid month, exactly one row of the table accepts the date, whatever the day. */
  lemma ExactlyOneRowMatches(month: int, day: int)
    requires ValidMonth(month)
    ensures exists i :: 0 <= i < |Signs| && RowMatches(Signs[i], month, day)
    ensures forall i, j ::
      (0 <= i < |Signs| && 0 <= j < |Signs| && RowMatches(Signs[i], month, day) && RowMatches(Signs[j], month, day)) ==> i == j
  {
    MatchingRows(month, day);
    var k := if day >= Cusps[month - 1].day then StartingRow(month) else EndingRow(month);
    assert RowMatches(Signs[k], month, day);
  }

  /** The scan over the table agrees with the cusp table on every pair of integers. */
  lemma ScanIsByCusp(month: int, day: int)
    ensures FirstMatch(Signs, month, day) == ByCusp(month, day)
  {
    MatchingRows(month, day);
    if ValidMonth(month) {
      TableIsCuspTable(month);
      var k := if day >= Cusps[month - 1].day then StartingRow(month) else EndingRow(month);
      assert RowMatches(Signs[k], month, day);
      FirstMatchUniform(Signs, month, day, ByCusp(month, day));
    }
  }

  /**
   Within a month the result depends only on whether the day reaches the start
   day of the sign beginning that month; days are not range-checked.
   */
  lemma DayThreshold(month: int, day: int)
    requires ValidMonth(month)
    ensures day >= Signs[StartingRow(month)].start.day ==> GetZodiacSign(month, day) == Signs[StartingRow(month)].name
    ensures day < Signs[StartingRow(month)].start.day ==> GetZodiacSign(month, day) == Signs[EndingRow(month)].name
  {
    ScanIsByCusp(month, day);
    TableIsCuspTable(month);
  }

  /** For a valid month the result is the name of a row of the table that accepts the date. */
  lemma ResultIsAcceptingRow(month: int, day: int)
    requires ValidMonth(month)
    ensures exists i :: 0 <= i < |Signs| && RowMatches(Signs[i], month, day) && Signs[i].name == GetZodiacSign(month, day)
  {
    ExactlyOneRowMatches(month, day);
    MatchingRowsAgree(month, day);
  }

  /** Both boundary dates of one row map to that row's own name. */
  lemma RowBoundariesInclusive(i: int)
    requires 0 <= i < |Signs|
    ensures GetZodiacSign(Signs[i].start.month, Signs[i].start.day) == Signs[i].name
    ensures GetZodiacSign(Signs[i].end.month, Signs[i].end.day) == Signs[i].name
  {
    var s := Signs[i];
    assert ValidMonth(s.start.month) && ValidMonth(s.end.month);
    TableIsCuspTable(s.start.month);
    TableIsCuspTable(s.end.month);
    assert ByCusp(s.start.month, s.start.day) == s.name;
    assert ByCusp(s.end.month, s.end.day) == s.name;
    ScanIsByCusp(s.start.month, s.start.day);
    ScanIsByCusp(s.end.month, s.end.day);
  }

  /** Every table row that accepts a date carries the lookup's answer for it. */
  lemma MatchingRowsAgree(month: int, day: int)
    ensures forall x :: x in Signs && RowMatches(x, month, day) ==> x.name == GetZodiacSign(month, day)
  {
    MatchingRows(month, day);
    ScanIsByCusp(month, day);
    if ValidMonth(month) {
      TableIsCuspTable(month);
    }
  }

  /** The scan gives the same answer over any reordering of the table. */
  lemma OrderIndependent(rows: seq<Sign>, month: int, day: int)
    requires multiset(rows) == multiset(Signs)
    ensures FirstMatch(rows, month, day) == GetZodiacSign(month, day)
  {
    var n := GetZodiacSign(month, day);
    MatchingRowsAgree(month, day);
    forall i | 0 <= i < |rows|
      ensures rows[i] in Signs
    {
      assert rows[i] in multiset(rows);
    }
    if ValidMonth(month) {
      ExactlyOneRowMatches(month, day);
      var k :| 0 <= k < |Signs| && RowMatches(Signs[k], month, day);
      assert Signs[k] in multiset(rows);
      var j :| 0 <= j < |rows| && rows[j] == Signs[k];
      FirstMatchUniform(rows, month, day, n);
    } else {
      MatchingRows(month, day);
      assert forall i :: 0 <= i < |rows| ==> !RowMatches(rows[i], month, day);
    }
  }

  /** Sample dates, including days the lookup does not range-check. */
  lemma Examples()
    ensures GetZodiacSign(12, 22) == "Capricorn" && GetZodiacSign(1, 19) == "Capricorn"
    ensures GetZodiacSign(12, 25) == "Capricorn" && GetZodiacSign(1, 5) == "Capricorn"
    ensures GetZodiacSign(1, 20) == "Aquarius"
    ensures GetZodiacSign(2, 30) == "Pisces"
    ensures GetZodiacSign(1, 0) == "Capricorn"
    ensures GetZodiacSign(12, -5) == "Sagittarius"
    ensures GetZodiacSign(13, 1) == Unknown && GetZodiacSign(0, 15) == Unknown
  {
    ScanIsByCusp(12, 22);
    ScanIsByCusp(1, 19);
    ScanIsByCusp(12, 25);
    ScanIsByCusp(1, 5);
    ScanIsByCusp(1, 20);
    ScanIsByCusp(2, 30);
    ScanIsByCusp(1, 0);
    ScanIsByCusp(12, -5);
    ScanIsByCusp(13, 1);
    ScanIsByCusp(0, 15);
  }
}
