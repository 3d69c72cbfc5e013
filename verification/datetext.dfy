/** Date text as the two reports write it: `yyyy-mm-dd` headers in the detail
    report, `dd/mm/yyyy[ hh:mm]` timestamps in the list report, and the
    `parseVNDateTime` reader (services/excelProcessor.ts). Local-time `Date`
    construction is not modelled: a `Clock` turns year, month, day, hour and
    minute into minutes on a time line, and is a parameter. */
module DateText {
  import opened Wrappers
  import opened Text

  /** Local-time construction `new Date(y, m - 1, d, hh, mm)`, in minutes. */
  type Clock = (int, int, int, int, int) -> int

  /** `/^\d{4}-\d{2}-\d{2}$/`. */
  predicate IsIsoDate(s: string) {
    |s| == 10 && s[4] == '-' && s[7] == '-'
    && AllDigits(s[..4]) && AllDigits(s[5..7]) && AllDigits(s[8..])
  }

  /** `/^\d{2}\/\d{2}\/\d{4}$/`. */
  predicate IsVNDate(s: string) {
    |s| == 10 && s[2] == '/' && s[5] == '/'
    && AllDigits(s[..2]) && AllDigits(s[3..5]) && AllDigits(s[6..])
  }

  /** `/^\d+(\.\d+)?$/`: a sequence number such as `12` or `3.5`. */
  predicate IsNumberText(s: string) {
    var i := IndexOf(s, '.');
    if i == |s| then s != [] && AllDigits(s)
    else 0 < i && i + 1 < |s| && AllDigits(s[..i]) && AllDigits(s[i + 1..])
  }

  lemma IsoDateHasDash(s: string)
    requires IsIsoDate(s)
    ensures '-' in s
  {
    assert s[4] == '-';
  }

  /** A number written with digits and at most one point never contains a
      dash, so a patient header can never be mistaken for a number. */
  lemma NumberTextHasNoDash(s: string)
    requires IsNumberText(s)
    ensures '-' !in s
  {
    var i := IndexOf(s, '.');
    if i < |s| {
      forall k | 0 <= k < |s|
        ensures s[k] != '-'
      {
        if k < i {
          assert s[k] == s[..i][k];
        } else if k > i {
          assert s[k] == s[i + 1..][k - i - 1];
        }
      }
    }
  }

  /** The ISO day `yyyy-mm-dd` of a `dd/mm/yyyy` date, built as the source does
      by splitting at `/` (services/excelProcessor.ts:282-284). */
  function VNToIso(d: string): (iso: string)
    requires IsVNDate(d)
    ensures IsIsoDate(iso)
    ensures iso == d[6..] + "-" + d[3..5] + "-" + d[..2]
  {
    VNDateParts(d);
    var p := Split(d, '/');
    p[2] + "-" + p[1] + "-" + p[0]
  }

  /** The `dd/mm/yyyy` spelling of an ISO day. */
  function IsoToVN(iso: string): (d: string)
    requires IsIsoDate(iso)
    ensures IsVNDate(d)
  {
    var d := iso[8..] + "/" + iso[5..7] + "/" + iso[..4];
    assert d[..2] == iso[8..] && d[3..5] == iso[5..7] && d[6..] == iso[..4];
    d
  }

  /** Reading an ISO day back from its `dd/mm/yyyy` spelling gives the same
      day: the list report's end dates and the detail report's date headers
      name a day the same way. */
  lemma IsoVNRoundTrip(iso: string)
    requires IsIsoDate(iso)
    ensures VNToIso(IsoToVN(iso)) == iso
  {
    var d := IsoToVN(iso);
    assert d[6..] == iso[..4] && d[3..5] == iso[5..7] && d[..2] == iso[8..];
    assert iso == iso[..4] + "-" + iso[5..7] + "-" + iso[8..];
  }

  lemma VNDateParts(d: string)
    requires IsVNDate(d)
    ensures Split(d, '/') == [d[..2], d[3..5], d[6..]]
  {
    var parts := [d[..2], d[3..5], d[6..]];
    forall k | 0 <= k < 3
      ensures '/' !in parts[k]
    {
      DigitsHaveNo(parts[k], '/');
    }
    JoinTriple(d[..2], d[3..5], d[6..], '/');
    assert d == d[..2] + "/" + d[3..5] + "/" + d[6..];
    SplitJoin(parts, '/');
  }

  lemma DigitsHaveNo(s: string, c: char)
    requires AllDigits(s) && !IsDigit(c)
    ensures c !in s
  {
  }

  /** JavaScript truthiness of a `parseInt` result: not `NaN` and not zero. */
  predicate Truthy(n: Option<int>) {
    n.Some? && n.value != 0
  }

  /** The hour and minute of a `hh:mm` time part; an empty field reads as 0 and
      `None` stands for `NaN`. */
  function TimeOf(timePart: string): (Option<int>, Option<int>)
  {
    var hm := Split(timePart, ':');
    var h := if hm[0] == "" then "0" else hm[0];
    var m := if |hm| > 1 && hm[1] != "" then hm[1] else "0";
    (ParseInt(h), ParseInt(m))
  }

  /** Day, month and year of a `dd/mm/yyyy` date part, each as `parseInt`
      reads it; `None` for a missing field. */
  function DayMonthYear(datePart: string): (Option<int>, Option<int>, Option<int>)
  {
    var dmy := Split(datePart, '/');
    (ParseInt(dmy[0]),
     if |dmy| > 1 then ParseInt(dmy[1]) else None,
     if |dmy| > 2 then ParseInt(dmy[2]) else None)
  }

  /** `parseVNDateTime`: `dd/mm/yyyy[ hh:mm]` to a point in time, `None` when
      the text is empty, the day, month or year is missing, zero or not a
      number, or the time part is not a number (JavaScript's Invalid Date). */
  function ParseVNDateTime(value: string, clock: Clock): (t: Option<int>)
    ensures Trim(value) == "" ==> t == None
  {
    var s := Trim(value);
    if s == "" then None else ParsePieces(Split(s, ' '), clock)
  }

  /** The date piece and the optional time piece of a split timestamp. */
  function ParsePieces(pieces: seq<string>, clock: Clock): Option<int>
    requires |pieces| >= 1
  {
    var datePart := pieces[0];
    if datePart == "" then None
    else
      var (d, m, y) := DayMonthYear(datePart);
      if !Truthy(y) || !Truthy(m) || !Truthy(d) then None
      else
        var (hh, mm) := if |pieces| > 1 && pieces[1] != "" then TimeOf(pieces[1]) else (Some(0), Some(0));
        if hh.None? || mm.None? then None
        else Some(clock(y.value, m.value, d.value, hh.value, mm.value))
  }

  /** A well-formed `dd/mm/yyyy hh:mm` timestamp reads as the moment the clock
      assigns to its five numbers. */
  lemma {:induction false} ParseWrittenTimestamp(dd: string, mm: string, yyyy: string, hh: string, mi: string, clock: Clock)
    requires dd != [] && mm != [] && yyyy != [] && hh != [] && mi != []
    requires AllDigits(dd) && AllDigits(mm) && AllDigits(yyyy) && AllDigits(hh) && AllDigits(mi)
    requires Value(dd) != 0 && Value(mm) != 0 && Value(yyyy) != 0
    ensures ParseVNDateTime(dd + "/" + mm + "/" + yyyy + " " + hh + ":" + mi, clock)
            == Some(clock(Value(yyyy), Value(mm), Value(dd), Value(hh), Value(mi)))
  {
    var date := dd + "/" + mm + "/" + yyyy;
    var time := hh + ":" + mi;
    TimestampPieces(dd, mm, yyyy, hh, mi, clock);
    DateReads(dd, mm, yyyy);
    TimeReads(hh, mi);
    ReadFields([date, time], Value(dd), Value(mm), Value(yyyy), Value(hh), Value(mi), clock);
  }

  /** Without a time part the timestamp reads as midnight of that day. */
  lemma {:induction false} ParseWrittenDate(dd: string, mm: string, yyyy: string, clock: Clock)
    requires dd != [] && mm != [] && yyyy != []
    requires AllDigits(dd) && AllDigits(mm) && AllDigits(yyyy)
    requires Value(dd) != 0 && Value(mm) != 0 && Value(yyyy) != 0
    ensures ParseVNDateTime(dd + "/" + mm + "/" + yyyy, clock)
            == Some(clock(Value(yyyy), Value(mm), Value(dd), 0, 0))
  {
    var date := dd + "/" + mm + "/" + yyyy;
    NoSpaceInDate(dd, mm, yyyy);
    assert date[0] == dd[0] && date[|date| - 1] == yyyy[|yyyy| - 1];
    OnePiece(date, clock);
    DateReads(dd, mm, yyyy);
    ReadFields([date], Value(dd), Value(mm), Value(yyyy), 0, 0, clock);
  }

  /** A zero day, month or year makes the timestamp unreadable. */
  lemma {:induction false} ZeroFieldUnreadable(dd: string, mm: string, yyyy: string, clock: Clock)
    requires dd != [] && mm != [] && yyyy != []
    requires AllDigits(dd) && AllDigits(mm) && AllDigits(yyyy)
    requires Value(dd) == 0 || Value(mm) == 0 || Value(yyyy) == 0
    ensures ParseVNDateTime(dd + "/" + mm + "/" + yyyy, clock) == None
  {
    var date := dd + "/" + mm + "/" + yyyy;
    NoSpaceInDate(dd, mm, yyyy);
    assert date[0] == dd[0] && date[|date| - 1] == yyyy[|yyyy| - 1];
    OnePiece(date, clock);
    DateReads(dd, mm, yyyy);
  }

  lemma TimestampPieces(dd: string, mm: string, yyyy: string, hh: string, mi: string, clock: Clock)
    requires dd != [] && mm != [] && yyyy != [] && hh != [] && mi != []
    requires AllDigits(dd) && AllDigits(mm) && AllDigits(yyyy) && AllDigits(hh) && AllDigits(mi)
    ensures ParseVNDateTime(dd + "/" + mm + "/" + yyyy + " " + hh + ":" + mi, clock)
            == ParsePieces([dd + "/" + mm + "/" + yyyy, hh + ":" + mi], clock)
  {
    var date := dd + "/" + mm + "/" + yyyy;
    var time := hh + ":" + mi;
    NoSpaceInDate(dd, mm, yyyy);
    DigitsHaveNo(hh, ' ');
    DigitsHaveNo(mi, ' ');
    assert date[0] == dd[0];
    assert time[|time| - 1] == mi[|mi| - 1];
    TwoPieces(date, time, clock);
    Regroup(date + " ", hh, ":", mi);
  }

  lemma Regroup(x: string, a: string, b: string, c: string)
    ensures x + (a + b + c) == x + a + b + c
  {
  }

  lemma ReadFields(pieces: seq<string>, d: int, m: int, y: int, hh: int, mi: int, clock: Clock)
    requires 1 <= |pieces| <= 2 && pieces[0] != ""
    requires DayMonthYear(pieces[0]) == (Some(d), Some(m), Some(y))
    requires d != 0 && m != 0 && y != 0
    requires |pieces| == 2 ==> pieces[1] != "" && TimeOf(pieces[1]) == (Some(hh), Some(mi))
    requires |pieces| == 1 ==> hh == 0 && mi == 0
    ensures ParsePieces(pieces, clock) == Some(clock(y, m, d, hh, mi))
  {
  }

  lemma OnePiece(date: string, clock: Clock)
    requires date != [] && !IsSpace(date[0]) && !IsSpace(date[|date| - 1]) && ' ' !in date
    ensures ParseVNDateTime(date, clock) == ParsePieces([date], clock)
  {
    TrimOfTrimmed(date);
    assert Join([date], ' ') == date;
    SplitJoin([date], ' ');
  }

  lemma TwoPieces(date: string, time: string, clock: Clock)
    requires date != [] && time != [] && !IsSpace(date[0]) && !IsSpace(time[|time| - 1])
    requires ' ' !in date && ' ' !in time
    ensures ParseVNDateTime(date + " " + time, clock) == ParsePieces([date, time], clock)
  {
    var s := date + " " + time;
    assert s[0] == date[0] && s[|s| - 1] == time[|time| - 1];
    TrimOfTrimmed(s);
    JoinPair(date, time, ' ');
    SplitJoin([date, time], ' ');
  }

  lemma NoSpaceInDate(dd: string, mm: string, yyyy: string)
    requires AllDigits(dd) && AllDigits(mm) && AllDigits(yyyy)
    ensures ' ' !in dd + "/" + mm + "/" + yyyy
  {
    DigitsHaveNo(dd, ' ');
    DigitsHaveNo(mm, ' ');
    DigitsHaveNo(yyyy, ' ');
  }

  lemma DateReads(dd: string, mm: string, yyyy: string)
    requires dd != [] && mm != [] && yyyy != []
    requires AllDigits(dd) && AllDigits(mm) && AllDigits(yyyy)
    ensures DayMonthYear(dd + "/" + mm + "/" + yyyy) == (Some(Value(dd)), Some(Value(mm)), Some(Value(yyyy)))
  {
    DigitsHaveNo(dd, '/');
    DigitsHaveNo(mm, '/');
    DigitsHaveNo(yyyy, '/');
    JoinTriple(dd, mm, yyyy, '/');
    SplitJoin([dd, mm, yyyy], '/');
    ParseIntOfDigits(dd);
    ParseIntOfDigits(mm);
    ParseIntOfDigits(yyyy);
  }

  lemma TimeReads(hh: string, mi: string)
    requires hh != [] && mi != [] && AllDigits(hh) && AllDigits(mi)
    ensures TimeOf(hh + ":" + mi) == (Some(Value(hh)), Some(Value(mi)))
  {
    DigitsHaveNo(hh, ':');
    DigitsHaveNo(mi, ':');
    JoinPair(hh, mi, ':');
    SplitJoin([hh, mi], ':');
    ParseIntOfDigits(hh);
    ParseIntOfDigits(mi);
  }
}
