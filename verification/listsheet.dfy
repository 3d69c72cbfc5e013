/** The list report reader `processListData` (services/excelProcessor.ts:201-330).

    Data rows start at index 8 and end at the first row whose sequence number
    cell is empty. Every data row becomes one `SurgeryRecord`: the trimmed
    cells, gender and year of birth from whichever of the two year columns is
    filled, the procedure and technique grades from the first marked grade
    column, the duration from the two timestamps, and the machine looked up
    in the detail report's map under the same composite key. */
module ListSheet {
  import opened Wrappers
  import opened Text
  import opened DateText
  import opened Records
  import DetailSheet

  type Row = seq<string>
  type Grid = seq<Row>

  /** Data rows start at index 8 (spreadsheet row 9). */
  const FirstListRow: nat := 8

  /** What the model takes from the environment: local-time `Date`
      construction, the UTC calendar day of a moment as `yyyy-mm-dd`, and the
      billed quantity (the rate percentage times the count, rounded to
      hundredths and held here in hundredths), which the source computes in
      floating point. */
  datatype Runtime = Runtime(clock: Clock, utcDay: int -> string, quantity: (string, string) -> int)

  /** `row[k]` as the text it displays; a missing cell reads as "". */
  function RawAt(row: Row, k: nat): string {
    if k < |row| then row[k] else ""
  }

  /** Cell `k` of a row as trimmed text; a missing cell is "". */
  function Cell(row: Row, k: nat): string {
    Trim(RawAt(row, k))
  }

  /** A grade column is marked when its cell is truthy: not empty. */
  predicate Marked(row: Row, k: nat) {
    RawAt(row, k) != ""
  }

  /** Grade labels, column by column: surgery grades sit in columns 9 to 12,
      technique grades in columns 13 to 17. */
  const PtLabels: seq<string> := ["ĐB", "1", "2", "3"]
  const TtLabels: seq<string> := ["ĐB", "1", "2", "3", "KPL"]
  const FirstPtColumn: nat := 9
  const FirstTtColumn: nat := 13

  /** The first marked column among `from`, `from + 1`, ..., `from + n - 1`. */
  function FirstMarked(row: Row, from: nat, n: nat): (r: Option<nat>)
    ensures r.Some? ==> r.value < n && Marked(row, from + r.value)
    ensures r.Some? ==> forall k :: from <= k < from + r.value ==> !Marked(row, k)
    ensures r.None? ==> forall k :: from <= k < from + n ==> !Marked(row, k)
    decreases n
  {
    if n == 0 then None
    else if Marked(row, from) then Some(0)
    else
      match FirstMarked(row, from + 1, n - 1)
      case None => None
      case Some(c) => Some(c + 1)
  }

  /** The label of the first marked column, or "" when none is marked. */
  function Grade(labels: seq<string>, row: Row, from: nat): string {
    match FirstMarked(row, from, |labels|)
    case None => ""
    case Some(c) => labels[c]
  }

  /** `determineLoaiPT`: "ĐB", "1", "2" or "3" after the first marked column
      among 9 to 12; "" when none is. */
  function DetermineLoaiPT(row: Row): (r: string)
    ensures r == "" <==> forall k :: FirstPtColumn <= k < FirstPtColumn + |PtLabels| ==> !Marked(row, k)
    ensures r in PtLabels || r == ""
  {
    if Marked(row, 9) then "ĐB"
    else if Marked(row, 10) then "1"
    else if Marked(row, 11) then "2"
    else if Marked(row, 12) then "3"
    else ""
  }

  /** `determineLoaiTT`: "ĐB", "1", "2", "3" or "KPL" after the first marked
      column among 13 to 17; "" when none is. */
  function DetermineLoaiTT(row: Row): (r: string)
    ensures r == "" <==> forall k :: FirstTtColumn <= k < FirstTtColumn + |TtLabels| ==> !Marked(row, k)
    ensures r in TtLabels || r == ""
  {
    if Marked(row, 13) then "ĐB"
    else if Marked(row, 14) then "1"
    else if Marked(row, 15) then "2"
    else if Marked(row, 16) then "3"
    else if Marked(row, 17) then "KPL"
    else ""
  }

  /** Both grade readers agree with the column-order reading: the label of the
      first marked column wins, whatever the later columns hold. */
  lemma GradesFollowFirstMark(row: Row)
    ensures DetermineLoaiPT(row) == Grade(PtLabels, row, FirstPtColumn)
    ensures DetermineLoaiTT(row) == Grade(TtLabels, row, FirstTtColumn)
  {
    var p := FirstMarked(row, FirstPtColumn, |PtLabels|);
    if p.Some? {
      assert p.value in {0, 1, 2, 3};
    }
    var t := FirstMarked(row, FirstTtColumn, |TtLabels|);
    if t.Some? {
      assert t.value in {0, 1, 2, 3, 4};
    }
  }

  /** Gender and year of birth: the male year column wins, then the female
      one; neither filled leaves both empty (256-265). */
  function GenderAndYear(yearNam: string, yearNu: string): (gy: (string, string))
    ensures gy.0 == "" <==> gy.1 == ""
    ensures gy.1 == "" <==> yearNam == "" && yearNu == ""
    ensures gy.0 == "Nam" ==> gy.1 == yearNam
    ensures gy.0 == "Nữ" ==> gy.1 == yearNu && yearNam == ""
  {
    if yearNam != "" then ("Nam", yearNam)
    else if yearNu != "" then ("Nữ", yearNu)
    else ("", "")
  }

  /** Minutes from start to end, 0 unless both are known and the end is
      strictly later (270-275). */
  function Duration(start: Option<int>, end: Option<int>): (m: int)
    ensures m >= 0
    ensures m > 0 <==> start.Some? && end.Some? && end.value > start.value
    ensures m > 0 ==> start.value + m == end.value
  {
    if start.Some? && end.Some? && end.value > start.value then end.value - start.value else 0
  }

  /** The day part of the end timestamp as `yyyy-mm-dd`: rewritten from
      `dd/mm/yyyy` when it has that shape, otherwise the UTC day of the parsed
      end, or "" when it did not parse (277-288). */
  function EndDateKey(ngayKT: string, end: Option<int>, rt: Runtime): (key: string)
    ensures IsVNDate(Split(ngayKT, ' ')[0]) ==> IsIsoDate(key)
    ensures !IsVNDate(Split(ngayKT, ' ')[0]) && end.None? ==> key == ""
  {
    var raw := Split(ngayKT, ' ')[0];
    if IsVNDate(raw) then VNToIso(raw)
    else if end.Some? then rt.utcDay(end.value)
    else ""
  }

  /** The machine the map holds for the key, "" when it holds none. */
  function MachineFor(machines: map<string, string>, key: string): (code: string)
    ensures key !in machines ==> code == ""
    ensures key in machines ==> code == machines[key]
  {
    if key in machines then machines[key] else ""
  }

  /** One data row as a record (233-326). */
  function MakeRecord(row: Row, machines: map<string, string>, rt: Runtime): (r: SurgeryRecord)
    ensures r.timeMinutes >= 0
    ensures r.patientId == Cell(row, 20) && r.patientName == Cell(row, 1) && r.tenKT == Cell(row, 8)
    ensures r.key == DetailSheet.DetailKey(r.patientId, r.patientName, EndDateKey(r.ngayKT, r.end, rt), r.tenKT)
    ensures r.machine == MachineFor(machines, r.key)
    ensures r.timeMinutes > 0 <==> r.Timed() && r.end.value > r.start.value
  {
    var name := Cell(row, 1);
    var ngayBD := Cell(row, 6);
    var ngayKT := Cell(row, 7);
    var tenKT := Cell(row, 8);
    var maBN := Cell(row, 20);
    var (gender, yob) := GenderAndYear(Cell(row, 2), Cell(row, 3));
    var start := ParseVNDateTime(ngayBD, rt.clock);
    var end := ParseVNDateTime(ngayKT, rt.clock);
    var key := DetailSheet.DetailKey(maBN, name, EndDateKey(ngayKT, end, rt), tenKT);
    SurgeryRecord(
      stt := RawAt(row, 0),
      patientId := maBN,
      patientName := name,
      gender := gender,
      yob := yob,
      bhyt := Cell(row, 4),
      ngayCD := Cell(row, 5),
      ngayBD := ngayBD,
      ngayKT := ngayKT,
      tenKT := tenKT,
      loaiPT := DetermineLoaiPT(row),
      loaiTT := DetermineLoaiTT(row),
      soLuong := rt.quantity(RawAt(row, 18), RawAt(row, 19)),
      timeMinutes := Duration(start, end),
      ptChinh := Cell(row, 21),
      ptPhu := Cell(row, 22),
      bsGM := Cell(row, 23),
      ktvGM := Cell(row, 24),
      tdc := Cell(row, 25),
      gv := Cell(row, 26),
      machine := MachineFor(machines, key),
      start := start,
      end := end,
      key := key)
  }

  /** A row carries data when its sequence number cell is not blank: its
      trimmed text is not empty (lemma `SequenceNumberCell`). */
  predicate HasSequenceNumber(row: Row) {
    !AllSpace(RawAt(row, 0))
  }

  lemma SequenceNumberCell(row: Row)
    ensures HasSequenceNumber(row) <==> Cell(row, 0) != ""
  {
    TrimEmpty(RawAt(row, 0));
  }

  /** The index of the row that ends the data: the first row from index 8 on
      without a sequence number, or the end of the grid. */
  function DataEnd(grid: Grid, i: nat): (e: nat)
    requires i <= |grid|
    ensures i <= e <= |grid|
    ensures forall k :: i <= k < e ==> HasSequenceNumber(grid[k])
    ensures e < |grid| ==> !HasSequenceNumber(grid[e])
    decreases |grid| - i
  {
    if i == |grid| || !HasSequenceNumber(grid[i]) then i else DataEnd(grid, i + 1)
  }

  /** The loop of `processListData` over any per-row reading `make`: one
      value per data row, in row order, from row 8 up to the first row without
      a sequence number. */
  method CollectRows<T>(grid: Grid, make: Row -> T) returns (out: seq<T>)
    ensures |grid| < FirstListRow ==> out == []
    ensures |grid| >= FirstListRow ==> FirstListRow + |out| == DataEnd(grid, FirstListRow)
    ensures forall k :: 0 <= k < |out| ==> FirstListRow + k < |grid| && out[k] == make(grid[FirstListRow + k])
    ensures |grid| >= FirstListRow ==> out == RowsFrom(grid, FirstListRow, make)
  {
    out := [];
    var i := FirstListRow;
    while i < |grid|
      invariant FirstListRow <= i && (i <= |grid| || out == [])
      invariant |out| == i - FirstListRow
      invariant forall j :: FirstListRow <= j < i ==> HasSequenceNumber(grid[j])
      invariant forall k :: 0 <= k < |out| ==> out[k] == make(grid[FirstListRow + k])
      decreases |grid| - i
    {
      var row := grid[i];
      if !HasSequenceNumber(row) {
        return;
      }
      out := out + [make(row)];
      i := i + 1;
    }
  }

  /** `processListData`: one record per data row, in row order, up to the
      first row without a sequence number. */
  method ProcessListData(grid: Grid, machines: map<string, string>, rt: Runtime)
    returns (records: seq<SurgeryRecord>)
    ensures |grid| < FirstListRow ==> records == []
    ensures |grid| >= FirstListRow ==> FirstListRow + |records| == DataEnd(grid, FirstListRow)
    ensures forall k :: 0 <= k < |records| ==>
              FirstListRow + k < |grid| && records[k] == MakeRecord(grid[FirstListRow + k], machines, rt)
    ensures forall k :: 0 <= k < |records| ==> records[k].timeMinutes >= 0
  {
    records := CollectRows(grid, row => MakeRecord(row, machines, rt));
  }

  /** The values of the rows `i` to `DataEnd(grid, i)`, as a function. */
  function RowsFrom<T>(grid: Grid, i: nat, make: Row -> T): (rs: seq<T>)
    requires i <= |grid|
    ensures |rs| == DataEnd(grid, i) - i
    ensures forall k :: 0 <= k < |rs| ==> rs[k] == make(grid[i + k])
    decreases |grid| - i
  {
    if i == |grid| || !HasSequenceNumber(grid[i]) then []
    else [make(grid[i])] + RowsFrom(grid, i + 1, make)
  }

  /** Whatever follows the first row without a sequence number is ignored. */
  lemma {:induction false} RowsAfterEndIgnored<T>(before: Grid, stop: Row, after: Grid, i: nat, make: Row -> T)
    requires i <= |before| && !HasSequenceNumber(stop)
    ensures RowsFrom(before + [stop] + after, i, make) == RowsFrom(before + [stop], i, make)
    decreases |before| - i
  {
    var g1, g2 := before + [stop] + after, before + [stop];
    assert g1[i] == g2[i];
    if i < |before| && HasSequenceNumber(before[i]) {
      assert g1[i] == before[i];
      RowsAfterEndIgnored(before, stop, after, i + 1, make);
    }
  }

  // ----- agreement with the detail report -----

  /** The end day of a timestamp written `dd/mm/yyyy hh:mm` is the ISO day the
      detail report writes for the same date. */
  lemma EndDateKeyOfWrittenDay(iso: string, time: string, end: Option<int>, rt: Runtime)
    requires IsIsoDate(iso) && ' ' !in time
    ensures EndDateKey(IsoToVN(iso) + " " + time, end, rt) == iso
  {
    var vn := IsoToVN(iso);
    assert ' ' !in vn by {
      assert forall k :: 0 <= k < |vn| ==> vn[k] == '/' || IsDigit(vn[k]);
    }
    JoinPair(vn, time, ' ');
    SplitJoin([vn, time], ' ');
    IsoVNRoundTrip(iso);
  }

  /** Whatever follows the first space, an end whose date part is the
      `dd/mm/yyyy` form of an ISO day keys on that ISO day. */
  lemma EndDateKeyOfDatePart(iso: string, ngayKT: string, end: Option<int>, rt: Runtime)
    requires IsIsoDate(iso) && Split(ngayKT, ' ')[0] == IsoToVN(iso)
    ensures EndDateKey(ngayKT, end, rt) == iso
  {
    IsoVNRoundTrip(iso);
  }

  /** A list row whose end's date part (the text before the first space)
      is written `dd/mm/yyyy` is keyed exactly as the detail report keys the
      same patient id, name, ISO day and procedure, so it is given the
      machine of that detail entry, or "" when the detail report recorded
      none. This covers a date-only end, an end with a time, and an end with
      anything after the time. */
  lemma KeyAgreement(row: Row, machines: map<string, string>, rt: Runtime, iso: string)
    ensures IsIsoDate(iso) && Split(Cell(row, 7), ' ')[0] == IsoToVN(iso) ==>
              var key := DetailSheet.DetailKey(Cell(row, 20), Cell(row, 1), iso, Cell(row, 8));
              var r := MakeRecord(row, machines, rt);
              r.key == key && r.machine == MachineFor(machines, key)
    ensures IsIsoDate(iso) && Cell(row, 7) == IsoToVN(iso) ==>
              var key := DetailSheet.DetailKey(Cell(row, 20), Cell(row, 1), iso, Cell(row, 8));
              MakeRecord(row, machines, rt).key == key
  {
    if IsIsoDate(iso) {
      VNDateUnsplit(iso);
      if Split(Cell(row, 7), ' ')[0] == IsoToVN(iso) {
        EndDateKeyOfDatePart(iso, Cell(row, 7), MakeRecord(row, machines, rt).end, rt);
      }
    }
  }

  /** A `dd/mm/yyyy` date holds no space, so it is its own date part. */
  lemma VNDateUnsplit(iso: string)
    requires IsIsoDate(iso)
    ensures Split(IsoToVN(iso), ' ') == [IsoToVN(iso)]
  {
    var vn := IsoToVN(iso);
    assert ' ' !in vn by {
      assert forall k :: 0 <= k < |vn| ==> vn[k] == '/' || IsDigit(vn[k]);
    }
    SplitJoin([vn], ' ');
  }
}
