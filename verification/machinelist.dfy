/** The `DS_MA_MAY` sheet (services/excelProcessor.ts:1015-1040): one row per
    entry of the machine map, the entry's key split back on `-` into patient
    id, patient name, date and procedure name.

    The split is a guess at where the key's pieces were joined. When the id
    and the name hold no `-` and the date is `yyyy-mm-dd` (what the
    detail-sheet parser writes), the guess is right and every field comes
    back; a name holding a `-` shifts every later column. */
module MachineList {
  import opened Text
  import opened DateText
  import DetailSheet
  import opened Seqs

  /** One row of the sheet: `Mã BN`, `Tên bệnh nhân`, `Ngày phẫu thuật`,
      `Mã máy`, `Tên phẫu thuật`, `key`. */
  datatype MachineRow = MachineRow(
    patientId: string, patientName: string, date: string, machine: string, surgery: string, key: string)

  /** The four fields read back from a key. */
  datatype KeyParts = KeyParts(patientId: string, patientName: string, date: string, surgery: string)

  /** `/^\d{4}$/`. */
  predicate IsYear(s: string) {
    |s| == 4 && AllDigits(s)
  }

  /** `/^\d{1,2}$/`. */
  predicate IsDayOrMonth(s: string) {
    1 <= |s| <= 2 && AllDigits(s)
  }

  /** `s.padStart(width, "0")`: zeros in front until the string is `width`
      long; a string already that long is left alone. */
  function PadStart(s: string, width: nat): (r: string)
    ensures |r| == if |s| >= width then |s| else width
    ensures r[|r| - |s|..] == s
    ensures forall k :: 0 <= k < |r| - |s| ==> r[k] == '0'
    decreases width - |s|
  {
    if |s| >= width then s
    else
      var r := PadStart("0" + s, width);
      assert r[|r| - |s|..] == r[|r| - |s| - 1..][1..];
      r
  }

  /** Leading zeros do not change a decimal value. */
  lemma {:induction false} LeadingZeroValue(s: string)
    requires AllDigits(s)
    ensures AllDigits("0" + s) && Value("0" + s) == Value(s)
  {
    if |s| > 0 {
      var t := "0" + s;
      assert t[..|t| - 1] == "0" + s[..|s| - 1];
      LeadingZeroValue(s[..|s| - 1]);
    }
  }

  /** Padding a digit string with zeros keeps it a digit string of the same
      value. */
  lemma {:induction false} PadStartValue(s: string, width: nat)
    requires AllDigits(s)
    ensures AllDigits(PadStart(s, width)) && Value(PadStart(s, width)) == Value(s)
    decreases width - |s|
  {
    if |s| < width {
      LeadingZeroValue(s);
      PadStartValue("0" + s, width);
    }
  }

  /** `parts[i] || ""`. */
  function PartOr(parts: seq<string>, i: nat): (p: string)
    ensures i < |parts| ==> p == parts[i]
    ensures i >= |parts| ==> p == ""
  {
    if i < |parts| then parts[i] else ""
  }

  /** `parts.slice(i)`. */
  function SliceFrom(parts: seq<string>, i: nat): (s: seq<string>)
    ensures i <= |parts| ==> s == parts[i..]
    ensures i > |parts| ==> s == []
  {
    if i <= |parts| then parts[i..] else []
  }

  /** The test of 1027: at least five pieces, the third a four-digit year,
      the fourth and fifth one or two digits. */
  predicate DatedParts(parts: seq<string>) {
    |parts| >= 5 && IsYear(parts[2]) && IsDayOrMonth(parts[3]) && IsDayOrMonth(parts[4])
  }

  /** The loop body of 1019-1040 for one key. */
  function SplitKey(key: string): (r: KeyParts)
    ensures var parts := Split(key, '-');
            r.patientId == parts[0] && r.patientName == PartOr(parts, 1)
  {
    var parts := Split(key, '-');
    if DatedParts(parts) then
      var date := parts[2] + "-" + PadStart(parts[3], 2) + "-" + PadStart(parts[4], 2);
      KeyParts(parts[0], PartOr(parts, 1), date, Join(parts[5..], '-'))
    else
      KeyParts(parts[0], PartOr(parts, 1), PartOr(parts, 2), Join(SliceFrom(parts, 3), '-'))
  }

  /** One entry of the machine map as a row of the sheet. */
  function RowOf(key: string, machine: string): (row: MachineRow)
    ensures row.key == key && row.machine == machine
    ensures var p := SplitKey(key);
            row.patientId == p.patientId && row.patientName == p.patientName
            && row.date == p.date && row.surgery == p.surgery
  {
    var p := SplitKey(key);
    MachineRow(p.patientId, p.patientName, p.date, machine, p.surgery, key)
  }

  /** The rows of the sheet, the entries supplied in the map's insertion
      order. */
  function MachineRows(entries: seq<(string, string)>): (rows: seq<MachineRow>)
    ensures |rows| == |entries|
  {
    seq(|entries|, k requires 0 <= k < |entries| => RowOf(entries[k].0, entries[k].1))
  }

  /** `entries` lists every entry of `machines` exactly once. */
  predicate Enumerates(entries: seq<(string, string)>, machines: map<string, string>) {
    (forall k :: 0 <= k < |entries| ==> entries[k].0 in machines && machines[entries[k].0] == entries[k].1)
    && (forall key :: key in machines ==> exists k :: 0 <= k < |entries| && entries[k].0 == key)
    && (forall i, j :: 0 <= i < j < |entries| ==> entries[i].0 != entries[j].0)
  }

  /** Listing a map's entries gives one row per key, carrying that key's
      machine code; no key has two rows. */
  lemma MachineRowsCoverMap(entries: seq<(string, string)>, machines: map<string, string>)
    requires Enumerates(entries, machines)
    ensures var rows := MachineRows(entries);
            (forall k :: 0 <= k < |rows| ==> rows[k].key in machines && rows[k].machine == machines[rows[k].key])
            && (forall key :: key in machines <==> exists k :: 0 <= k < |rows| && rows[k].key == key)
            && (forall i, j :: 0 <= i < j < |rows| ==> rows[i].key != rows[j].key)
  {
    var rows := MachineRows(entries);
    forall key | key in machines
      ensures exists k :: 0 <= k < |rows| && rows[k].key == key
    {
      var k :| 0 <= k < |entries| && entries[k].0 == key;
      assert rows[k].key == key;
    }
  }

  // ----- splitting a joined key -----

  /** Splitting at the first separator when the head holds none. */
  lemma SplitCons(a: string, rest: string, sep: char)
    requires sep !in a
    ensures Split(a + [sep] + rest, sep) == [a] + Split(rest, sep)
  {
    var s := a + [sep] + rest;
    IndexOfAfterPrefix(a, sep, [sep] + rest);
    assert s == a + ([sep] + rest);
    assert IndexOf(s, sep) == |a|;
    assert s[..|a|] == a;
    assert s[|a| + 1..] == rest;
  }

  /** The pieces of a key built from a dash-free id and name, an ISO date
      and any procedure name. */
  lemma DetailKeyPieces(id: string, name: string, date: string, p: string)
    requires '-' !in id && '-' !in name && IsIsoDate(date)
    ensures Split(DetailSheet.DetailKey(id, name, date, p), '-')
            == [id, name, date[..4], date[5..7], date[8..]] + Split(p, '-')
  {
    var y, m, d := date[..4], date[5..7], date[8..];
    IsoDateDashFree(date);
    IsoDateShape(id, name, date, p);
    DashedKeyPieces(id, name, y, m + "-" + (d + "-" + p), DetailSheet.DetailKey(id, name, date, p));
    DashFreePair(m, d, p);
    SeqAssoc([id, name, y], [m, d], Split(p, '-'));
    assert [id, name, y] + [m, d] == [id, name, y, m, d];
  }

  /** The three numbers of an ISO date hold no `-`. */
  lemma IsoDateDashFree(date: string)
    requires IsIsoDate(date)
    ensures '-' !in date[..4] && '-' !in date[5..7] && '-' !in date[8..]
  {
    DigitsHaveNo(date[..4], '-');
    DigitsHaveNo(date[5..7], '-');
    DigitsHaveNo(date[8..], '-');
  }

  /** A key with an ISO date, its separators nested to the right. */
  lemma IsoDateShape(id: string, name: string, date: string, p: string)
    requires |date| == 10 && date[4] == '-' && date[7] == '-'
    ensures DetailSheet.DetailKey(id, name, date, p)
            == id + "-" + (name + "-" + (date[..4] + "-" + (date[5..7] + "-" + (date[8..] + "-" + p))))
  {
    assert date == date[..4] + "-" + date[5..7] + "-" + date[8..];
  }

  /** Two separator-free pieces in front of a tail. */
  lemma DashFreePair(m: string, d: string, p: string)
    requires '-' !in m && '-' !in d
    ensures Split(m + "-" + (d + "-" + p), '-') == [m, d] + Split(p, '-')
  {
    SplitCons(d, p, '-');
    SplitCons(m, d + "-" + p, '-');
    SeqAssoc([m], [d], Split(p, '-'));
    assert [m] + [d] == [m, d];
  }

  /** Round trip: a key the detail-sheet parser builds from a dash-free id
      and name and an ISO date is split back into exactly the four fields,
      whatever dashes the procedure name holds. */
  lemma SplitKeyOfDetailKey(id: string, name: string, date: string, p: string)
    requires '-' !in id && '-' !in name && IsIsoDate(date)
    ensures SplitKey(DetailSheet.DetailKey(id, name, date, p)) == KeyParts(id, name, date, p)
  {
    var key := DetailSheet.DetailKey(id, name, date, p);
    var y, m, d := date[..4], date[5..7], date[8..];
    var pre, tail := [id, name, y, m, d], Split(p, '-');
    DetailKeyPieces(id, name, date, p);
    ConcatSplit(pre, tail);
    IsoDateFields(date);
    SplitKeyDated(key);
    PadStartNoop(m, 2);
    PadStartNoop(d, 2);
  }

  /** The pieces of an ISO date pass the test of 1027 unpadded, and put
      back together they give the date. */
  lemma IsoDateFields(date: string)
    requires IsIsoDate(date)
    ensures IsYear(date[..4]) && IsDayOrMonth(date[5..7]) && IsDayOrMonth(date[8..])
    ensures |date[5..7]| == 2 && |date[8..]| == 2
    ensures date == date[..4] + "-" + date[5..7] + "-" + date[8..]
  {
  }

  /** Padding a string already wide enough leaves it alone. */
  lemma PadStartNoop(s: string, width: nat)
    requires |s| >= width
    ensures PadStart(s, width) == s
  {
  }

  /** A name holding a `-` shifts the columns: the second half of the name
      is read as the date and the real date lands in the procedure name. */
  lemma DashedNameShiftsColumns(id: string, first: string, second: string, date: string, p: string)
    requires '-' !in id && '-' !in first && '-' !in second && !IsYear(second) && IsIsoDate(date)
    ensures SplitKey(DetailSheet.DetailKey(id, first + "-" + second, date, p))
            == KeyParts(id, first, second, date + "-" + p)
  {
    var rest := date + "-" + p;
    var key := DetailSheet.DetailKey(id, first + "-" + second, date, p);
    var parts := Split(key, '-');
    DashedKeyShape(id, first, second, date, p);
    DashedKeyPieces(id, first, second, rest, key);
    assert !DatedParts(parts);
    SplitKeyUndated(key);
    assert SliceFrom(parts, 3) == Split(rest, '-');
  }

  /** A key whose name holds a `-`, its separators nested to the right. */
  lemma DashedKeyShape(id: string, first: string, second: string, date: string, p: string)
    ensures DetailSheet.DetailKey(id, first + "-" + second, date, p)
            == id + "-" + (first + "-" + (second + "-" + (date + "-" + p)))
  {
  }

  lemma DashedKeyPieces(id: string, first: string, second: string, rest: string, key: string)
    requires '-' !in id && '-' !in first && '-' !in second
    requires key == id + "-" + (first + "-" + (second + "-" + rest))
    ensures Split(key, '-') == [id, first, second] + Split(rest, '-')
  {
    var s3 := second + "-" + rest;
    var s2 := first + "-" + s3;
    var tail := Split(rest, '-');
    SplitCons(second, rest, '-');
    SplitCons(first, s3, '-');
    SplitCons(id, s2, '-');
    SeqAssoc([id], [first], [second] + tail);
    SeqAssoc([id, first], [second], tail);
    assert [id] + [first] == [id, first] && [id, first] + [second] == [id, first, second];
  }

  /** The fallback path of 1033-1037. */
  lemma SplitKeyUndated(key: string)
    requires !DatedParts(Split(key, '-'))
    ensures var parts := Split(key, '-');
            SplitKey(key) == KeyParts(parts[0], PartOr(parts, 1), PartOr(parts, 2), Join(SliceFrom(parts, 3), '-'))
  {
  }

  /** On the dated path the date column is always `yyyy-mm-dd`, its month
      and day the values written in the key, zero-padded. */
  lemma DatedPathIsIso(key: string)
    requires DatedParts(Split(key, '-'))
    ensures var parts, r := Split(key, '-'), SplitKey(key);
            IsIsoDate(r.date) && r.date[..4] == parts[2]
            && Value(r.date[5..7]) == Value(parts[3]) && Value(r.date[8..]) == Value(parts[4])
  {
    var parts := Split(key, '-');
    var mm, dd := PadStart(parts[3], 2), PadStart(parts[4], 2);
    PadStartValue(parts[3], 2);
    PadStartValue(parts[4], 2);
    IsoOfPieces(parts[2], mm, dd);
  }

  /** A year, a month and a day of the right widths joined with `-`. */
  lemma IsoOfPieces(y: string, mm: string, dd: string)
    requires IsYear(y) && |mm| == 2 && |dd| == 2 && AllDigits(mm) && AllDigits(dd)
    ensures var date := y + "-" + mm + "-" + dd;
            IsIsoDate(date) && date[..4] == y && date[5..7] == mm && date[8..] == dd
  {
    var date := y + "-" + mm + "-" + dd;
    assert date[..4] == y && date[5..7] == mm && date[8..] == dd;
  }

  /** Whenever no padding was needed and the pieces reached the procedure
      column, joining the row's four fields with `-` gives the key back. */
  lemma SplitKeyReassembles(key: string)
    requires var parts := Split(key, '-');
             if DatedParts(parts) then |parts| >= 6 && |parts[3]| == 2 && |parts[4]| == 2 else |parts| >= 4
    ensures var r := SplitKey(key);
            DetailSheet.DetailKey(r.patientId, r.patientName, r.date, r.surgery) == key
  {
    var parts := Split(key, '-');
    if DatedParts(parts) {
      JoinAfterFive(parts);
      SplitKeyDated(key);
    } else {
      JoinAfterThree(parts);
      SplitKeyUndated(key);
    }
  }

  /** The dated path of 1027-1032. */
  lemma SplitKeyDated(key: string)
    requires DatedParts(Split(key, '-'))
    ensures var parts := Split(key, '-');
            SplitKey(key) == KeyParts(parts[0], parts[1],
              parts[2] + "-" + PadStart(parts[3], 2) + "-" + PadStart(parts[4], 2), Join(parts[5..], '-'))
  {
  }

  lemma NestedKey(a: string, b: string, c: string, x: string, y: string, d: string)
    ensures DetailSheet.DetailKey(a, b, c + "-" + x + "-" + y, d) == a + "-" + (b + "-" + DetailSheet.DetailKey(c, x, y, d))
  {
  }

  lemma JoinAfterThree(parts: seq<string>)
    requires |parts| >= 4
    ensures Join(parts, '-') == DetailSheet.DetailKey(parts[0], parts[1], parts[2], Join(parts[3..], '-'))
  {
    var j1, j2, j3 := Join(parts[1..], '-'), Join(parts[2..], '-'), Join(parts[3..], '-');
    assert parts[1..][1..] == parts[2..];
    assert parts[2..][1..] == parts[3..];
    assert Join(parts, '-') == parts[0] + "-" + (parts[1] + "-" + (parts[2] + "-" + j3));
    KeyShape(parts[0], parts[1], parts[2], j3);
  }

  /** `DetailKey` with its separators nested to the right. */
  lemma KeyShape(a: string, b: string, c: string, d: string)
    ensures DetailSheet.DetailKey(a, b, c, d) == a + "-" + (b + "-" + (c + "-" + d))
  {
  }

  lemma JoinAfterFive(parts: seq<string>)
    requires |parts| >= 6
    ensures Join(parts, '-')
            == DetailSheet.DetailKey(parts[0], parts[1], parts[2] + "-" + parts[3] + "-" + parts[4], Join(parts[5..], '-'))
  {
    var rest := parts[2..];
    assert rest[3..] == parts[5..];
    JoinAfterThree(rest);
    assert parts[1..][1..] == rest;
    assert Join(parts, '-') == parts[0] + "-" + (parts[1] + "-" + Join(rest, '-'));
    NestedKey(parts[0], parts[1], parts[2], parts[3], parts[4], Join(parts[5..], '-'));
  }
}
