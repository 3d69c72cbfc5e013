/** The detail report parser `buildMachineMap` (services/excelProcessor.ts:92-169).

    The detail report has no delimiters: a patient header `id-name` opens a
    patient, a `yyyy-mm-dd` row opens a day, a lone first cell names the
    machine, and rows with a second cell list the procedures done on it. The
    parser walks the rows once from index 6 with four pieces of state and
    records `id-name-date-procedure ↦ machine` for every procedure line. */
module DetailSheet {
  import opened Text
  import opened DateText
  import opened Seqs

  type Row = seq<string>
  type Grid = seq<Row>

  /** Data rows start at index 6 (spreadsheet row 7). */
  const FirstDetailRow: nat := 6

  /** A missing row reads as an empty one. */
  function RowAt(grid: Grid, i: nat): Row {
    if i < |grid| then grid[i] else []
  }

  /** Cell `k` of a row as trimmed text; a missing cell is "". */
  function Cell(row: Row, k: nat): string {
    if k < |row| then Trim(row[k]) else ""
  }

  predicate IsBlank(row: Row) {
    Cell(row, 0) == "" && Cell(row, 1) == ""
  }

  /** Current patient id and name, current day, current machine. */
  datatype ParseState = ParseState(patientId: string, patientName: string, date: string, machine: string)

  const Start := ParseState("", "", "", "")

  /** What a row is, decided from its first two cells alone. */
  datatype RowKind =
    | Blank
    | PatientHeader(id: string, name: string)
    | DateHeader(date: string)
    | MachineHeader(code: string)
    | ProcedureLine(procedure: string)

  /** A first cell holding `-` that is neither an ISO day nor a number. */
  predicate IsPatientCell(a: string) {
    '-' in a && !IsIsoDate(a) && !IsNumberText(a)
  }

  /** The row classes, checked in the source's order (108, 126-130, 140, 147,
      153). A patient header is split at its first `-` and both halves are
      trimmed. */
  function Classify(a: string, b: string): (k: RowKind)
    ensures k.PatientHeader? ==>
              var i := IndexOf(a, '-');
              i < |a| && k.id == Trim(a[..i]) && k.name == Trim(a[i + 1..])
  {
    if a == "" && b == "" then Blank
    else if IsPatientCell(a) then
      var i := IndexOf(a, '-');
      PatientHeader(Trim(a[..i]), Trim(a[i + 1..]))
    else if IsIsoDate(a) then DateHeader(a)
    else if a != "" && b == "" then MachineHeader(a)
    else ProcedureLine(b)
  }

  /** The classes described by the cells alone, without the checking order:
      because the order is fixed, a row is a machine header exactly when its
      first cell is free of `-`, so a machine code containing `-` is read as
      a patient header. */
  lemma ClassifyCharacterisation(a: string, b: string)
    ensures Classify(a, b).Blank? <==> a == "" && b == ""
    ensures Classify(a, b).PatientHeader? <==> '-' in a && !IsIsoDate(a)
    ensures Classify(a, b).DateHeader? <==> IsIsoDate(a)
    ensures Classify(a, b).MachineHeader? <==> a != "" && b == "" && '-' !in a
    ensures Classify(a, b).ProcedureLine? <==> b != "" && '-' !in a
  {
    if IsNumberText(a) {
      NumberTextHasNoDash(a);
    }
    if IsIsoDate(a) {
      IsoDateHasDash(a);
    }
  }

  /** The composite key `id-name-date-procedure` (155-162). */
  function DetailKey(id: string, name: string, date: string, procedure: string): string {
    id + "-" + name + "-" + date + "-" + procedure
  }

  /** The parser's state and the entries recorded so far. */
  datatype Acc = Acc(state: ParseState, entries: map<string, string>)

  /** One non-blank row applied to the state (125-165). A later procedure line
      with the same key overwrites the earlier entry (163). */
  function Step(acc: Acc, kind: RowKind): Acc {
    var st := acc.state;
    match kind
    case Blank => acc
    case PatientHeader(id, name) => Acc(ParseState(id, name, "", ""), acc.entries)
    case DateHeader(d) => Acc(st.(date := d, machine := ""), acc.entries)
    case MachineHeader(code) => Acc(st.(machine := code), acc.entries)
    case ProcedureLine(p) =>
      if st.patientId != "" && st.date != "" then
        Acc(st, acc.entries[DetailKey(st.patientId, st.patientName, st.date, p) := st.machine])
      else acc
  }

  function KindOf(row: Row): (k: RowKind)
    ensures k.Blank? <==> IsBlank(row)
  {
    ClassifyCharacterisation(Cell(row, 0), Cell(row, 1));
    Classify(Cell(row, 0), Cell(row, 1))
  }

  /** The class of every row, in row order. */
  function KindsOf(grid: Grid): (ks: seq<RowKind>)
    ensures |ks| == |grid| && forall i :: 0 <= i < |grid| ==> ks[i] == KindOf(grid[i])
  {
    MapSeq(KindOf, grid)
  }

  lemma KindsOfConcat(a: Grid, b: Grid)
    ensures KindsOf(a + b) == KindsOf(a) + KindsOf(b)
  {
    MapConcat(KindOf, a, b);
  }

  /** The class of row `i`, a missing row being blank. */
  function KindAt(ks: seq<RowKind>, i: nat): RowKind {
    if i < |ks| then ks[i] else Blank
  }

  /** The loop of `buildMachineMap` from row `i`, over the rows' classes: a
      blank row followed by another blank row (or by the end of the grid)
      ends the walk (108-116); a single blank row is skipped (119). */
  function Walk(ks: seq<RowKind>, i: nat, acc: Acc): Acc
    decreases |ks| - i
  {
    if i >= |ks| then acc
    else if ks[i].Blank? then
      if KindAt(ks, i + 1).Blank? then acc else Walk(ks, i + 1, acc)
    else Walk(ks, i + 1, Step(acc, ks[i]))
  }

  // ----- well-formedness of what the parser records -----

  /** A key made of a non-empty, dash-free patient id, a name, an ISO day and
      a non-empty procedure name. */
  ghost predicate IsDetailKey(key: string) {
    exists id, name, date, p {:trigger DetailKey(id, name, date, p)} ::
      key == DetailKey(id, name, date, p) && id != "" && '-' !in id && IsIsoDate(date) && p != ""
  }

  ghost predicate GoodEntries(m: map<string, string>) {
    forall key :: key in m ==> IsDetailKey(key) && '-' !in m[key]
  }

  predicate GoodState(st: ParseState) {
    '-' !in st.patientId && (st.date == "" || IsIsoDate(st.date)) && '-' !in st.machine
  }

  /** What `Classify` can produce: dash-free ids and machine codes, ISO days,
      non-empty procedure names. */
  predicate GoodKind(k: RowKind) {
    match k
    case Blank => true
    case PatientHeader(id, _) => '-' !in id
    case DateHeader(d) => IsIsoDate(d)
    case MachineHeader(code) => '-' !in code
    case ProcedureLine(p) => p != ""
  }

  lemma ClassifyIsGood(a: string, b: string)
    ensures GoodKind(Classify(a, b))
  {
    ClassifyCharacterisation(a, b);
    var k := Classify(a, b);
    if k.PatientHeader? {
      var i := IndexOf(a, '-');
      TrimDropsOnly(a[..i], '-');
    }
  }

  lemma StepKeepsGood(acc: Acc, kind: RowKind)
    requires GoodState(acc.state) && GoodEntries(acc.entries) && GoodKind(kind)
    ensures GoodState(Step(acc, kind).state) && GoodEntries(Step(acc, kind).entries)
  {
    var st := acc.state;
    if kind.ProcedureLine? && st.patientId != "" && st.date != "" {
      var key := DetailKey(st.patientId, st.patientName, st.date, kind.procedure);
      assert IsDetailKey(key);
    }
  }

  lemma {:induction false} WalkKeepsGood(ks: seq<RowKind>, i: nat, acc: Acc)
    requires forall k :: 0 <= k < |ks| ==> GoodKind(ks[k])
    requires GoodState(acc.state) && GoodEntries(acc.entries)
    ensures GoodEntries(Walk(ks, i, acc).entries)
    decreases |ks| - i
  {
    if i < |ks| {
      if ks[i].Blank? {
        if !KindAt(ks, i + 1).Blank? {
          WalkKeepsGood(ks, i + 1, acc);
        }
      } else {
        StepKeepsGood(acc, ks[i]);
        WalkKeepsGood(ks, i + 1, Step(acc, ks[i]));
      }
    }
  }

  lemma KindsAreGood(grid: Grid)
    ensures forall k :: 0 <= k < |grid| ==> GoodKind(KindsOf(grid)[k])
  {
    forall k | 0 <= k < |grid|
      ensures GoodKind(KindsOf(grid)[k])
    {
      ClassifyIsGood(Cell(grid[k], 0), Cell(grid[k], 1));
    }
  }

  /** `buildMachineMap`: the walk from row 6 with an empty state and no entries. */
  function BuildMachineMap(grid: Grid): map<string, string> {
    Walk(KindsOf(grid), FirstDetailRow, Acc(Start, map[])).entries
  }

  /** Every key `buildMachineMap` records is `id-name-date-procedure` with a
      non-empty dash-free id, an ISO day and a non-empty procedure; no
      recorded machine code contains `-`, since such a code is taken for a
      patient header. */
  lemma MachineMapWellFormed(grid: Grid)
    ensures forall key :: key in BuildMachineMap(grid) ==>
              IsDetailKey(key) && '-' !in BuildMachineMap(grid)[key]
  {
    KindsAreGood(grid);
    WalkKeepsGood(KindsOf(grid), FirstDetailRow, Acc(Start, map[]));
  }

  // ----- where the walk stops -----

  /** Rows from a pair of blank rows onwards never contribute: walking all the
      rows gives the same result as walking only the rows before the pair. */
  lemma {:induction false} WalkStopsAtDoubleBlank(ks: seq<RowKind>, i: nat, s: nat, acc: Acc)
    requires i <= s <= |ks|
    requires KindAt(ks, s).Blank? && KindAt(ks, s + 1).Blank?
    ensures Walk(ks, i, acc) == Walk(ks[..s], i, acc)
    decreases s - i
  {
    var t := ks[..s];
    if i < s {
      assert t[i] == ks[i];
      if ks[i].Blank? {
        if i + 1 < s {
          assert KindAt(t, i + 1) == KindAt(ks, i + 1);
          if !KindAt(ks, i + 1).Blank? {
            WalkStopsAtDoubleBlank(ks, i + 1, s, acc);
          }
        }
      } else {
        WalkStopsAtDoubleBlank(ks, i + 1, s, Step(acc, ks[i]));
      }
    }
  }

  /** Whatever follows two blank rows is ignored by `buildMachineMap`. */
  lemma RowsAfterStopIgnored(before: Grid, blank1: Row, blank2: Row, after: Grid)
    requires |before| >= FirstDetailRow
    requires IsBlank(blank1) && IsBlank(blank2)
    ensures BuildMachineMap(before + [blank1, blank2] + after) == BuildMachineMap(before)
  {
    var s := |before|;
    var kb := KindsOf(before);
    var ks := kb + [KindOf(blank1), KindOf(blank2)] + KindsOf(after);
    KindsOfConcat(before + [blank1, blank2], after);
    KindsOfConcat(before, [blank1, blank2]);
    assert KindsOf([blank1, blank2]) == [KindOf(blank1), KindOf(blank2)];
    assert ks[..s] == kb;
    assert ks[s] == KindOf(blank1) && ks[s + 1] == KindOf(blank2);
    WalkStopsAtDoubleBlank(ks, FirstDetailRow, s, Acc(Start, map[]));
  }

  /** A single blank row between two non-blank rows is noise: deleting it
      changes nothing. (After another blank row it would instead have ended
      the walk.) */
  lemma {:induction false} IsolatedBlankRowSkipped(ks: seq<RowKind>, i: nat, b: nat, acc: Acc)
    requires i <= b < |ks| - 1
    requires ks[b].Blank? && !ks[b + 1].Blank?
    requires i < b ==> !ks[b - 1].Blank?
    ensures Walk(ks, i, acc) == Walk(ks[..b] + ks[b + 1..], i, acc)
    decreases b - i
  {
    var t := ks[..b] + ks[b + 1..];
    assert t[b..] == ks[b + 1..];
    if i == b {
      WalkSuffix(ks, b + 1, 0, acc);
      WalkSuffix(t, b, 0, acc);
    } else {
      assert t[i] == ks[i];
      if ks[i].Blank? {
        assert i + 1 < b;
        assert KindAt(t, i + 1) == KindAt(ks, i + 1);
        if !KindAt(ks, i + 1).Blank? {
          IsolatedBlankRowSkipped(ks, i + 1, b, acc);
        }
      } else {
        IsolatedBlankRowSkipped(ks, i + 1, b, Step(acc, ks[i]));
      }
    }
  }

  /** In the grid: an isolated blank row between two non-blank data rows can
      be deleted without changing the machine map. */
  lemma IsolatedBlankRowIsNoise(before: Grid, blank: Row, after: Grid)
    requires |before| > FirstDetailRow && after != []
    requires IsBlank(blank) && !IsBlank(before[|before| - 1]) && !IsBlank(after[0])
    ensures BuildMachineMap(before + [blank] + after) == BuildMachineMap(before + after)
  {
    BlankKindsAround(before, blank, after);
    KindsOfInsert(before, blank, after);
    KindsOfConcat(before, after);
  }

  lemma BlankKindsAround(before: Grid, blank: Row, after: Grid)
    requires |before| > FirstDetailRow && after != []
    requires IsBlank(blank) && !IsBlank(before[|before| - 1]) && !IsBlank(after[0])
    ensures var init := Acc(Start, map[]);
            Walk(KindsOf(before) + [KindOf(blank)] + KindsOf(after), FirstDetailRow, init)
            == Walk(KindsOf(before) + KindsOf(after), FirstDetailRow, init)
  {
    BlankRowBetween(before, blank, after);
    DeleteBlankKind(KindsOf(before), KindOf(blank), KindsOf(after));
  }

  /** A blank class between a non-blank last class of `kb`, past the header
      rows, and a non-blank first class of `ka`. */
  predicate BlankBetween(kb: seq<RowKind>, x: RowKind, ka: seq<RowKind>) {
    |kb| > FirstDetailRow && ka != [] && x.Blank? && !kb[|kb| - 1].Blank? && !ka[0].Blank?
  }

  lemma BlankRowBetween(before: Grid, blank: Row, after: Grid)
    requires |before| > FirstDetailRow && after != []
    requires IsBlank(blank) && !IsBlank(before[|before| - 1]) && !IsBlank(after[0])
    ensures BlankBetween(KindsOf(before), KindOf(blank), KindsOf(after))
  {
    LastKindNotBlank(before);
    FirstKindNotBlank(after);
    BlankKind(blank);
  }

  lemma BlankKind(row: Row)
    requires IsBlank(row)
    ensures KindOf(row) == Blank
  {
  }

  lemma LastKindNotBlank(grid: Grid)
    requires grid != [] && !IsBlank(grid[|grid| - 1])
    ensures var ks := KindsOf(grid); |ks| == |grid| && !ks[|ks| - 1].Blank?
  {
  }

  lemma FirstKindNotBlank(grid: Grid)
    requires grid != [] && !IsBlank(grid[0])
    ensures |KindsOf(grid)| == |grid| && !KindsOf(grid)[0].Blank?
  {
  }

  lemma KindsOfInsert(before: Grid, row: Row, after: Grid)
    ensures KindsOf(before + [row] + after) == KindsOf(before) + [KindOf(row)] + KindsOf(after)
  {
    KindsOfConcat(before + [row], after);
    KindsOfConcat(before, [row]);
    assert KindsOf([row]) == [KindOf(row)];
  }

  lemma DeleteBlankKind(kb: seq<RowKind>, x: RowKind, ka: seq<RowKind>)
    requires BlankBetween(kb, x, ka)
    ensures Walk(kb + [x] + ka, FirstDetailRow, Acc(Start, map[])) == Walk(kb + ka, FirstDetailRow, Acc(Start, map[]))
  {
    var ks := kb + [x] + ka;
    var b := |kb|;
    assert ks[b] == x && ks[b + 1] == ka[0] && ks[b - 1] == kb[b - 1];
    IsolatedBlankRowSkipped(ks, FirstDetailRow, b, Acc(Start, map[]));
    assert ks[..b] + ks[b + 1..] == kb + ka;
  }

  /** The walk from row `j + k` only looks at the rows from `j` on. */
  lemma {:induction false} WalkSuffix(ks: seq<RowKind>, j: nat, k: nat, acc: Acc)
    requires j <= |ks|
    ensures Walk(ks, j + k, acc) == Walk(ks[j..], k, acc)
    decreases |ks| - j - k
  {
    var t := ks[j..];
    if j + k < |ks| {
      assert t[k] == ks[j + k];
      assert KindAt(t, k + 1) == KindAt(ks, j + k + 1);
      if ks[j + k].Blank? {
        WalkSuffix(ks, j, k + 1, acc);
      } else {
        WalkSuffix(ks, j, k + 1, Step(acc, ks[j + k]));
      }
    }
  }

  // ----- what the walk records -----

  /** Entries are never removed: a key recorded before row `i` is still
      recorded at the end (a later line may only overwrite its machine). */
  lemma {:induction false} WalkKeepsKeys(ks: seq<RowKind>, i: nat, acc: Acc, key: string)
    requires key in acc.entries
    ensures key in Walk(ks, i, acc).entries
    decreases |ks| - i
  {
    if i < |ks| {
      if ks[i].Blank? {
        if !KindAt(ks, i + 1).Blank? {
          WalkKeepsKeys(ks, i + 1, acc, key);
        }
      } else {
        WalkKeepsKeys(ks, i + 1, Step(acc, ks[i]), key);
      }
    }
  }

  /** The hierarchy of the detail report: a patient, then a day, then a
      machine, then a procedure records `id-name-day-procedure ↦ machine`. */
  lemma HierarchyRecordsProcedure(pre: seq<RowKind>, id: string, name: string, day: string, code: string, p: string)
    requires |pre| == FirstDetailRow && id != ""  && day != ""
    ensures var ks := pre + [PatientHeader(id, name), DateHeader(day), MachineHeader(code), ProcedureLine(p)];
            Walk(ks, FirstDetailRow, Acc(Start, map[])).entries == map[DetailKey(id, name, day, p) := code]
  {
    var ks := pre + [PatientHeader(id, name), DateHeader(day), MachineHeader(code), ProcedureLine(p)];
    var a0 := Acc(Start, map[]);
    var a1 := Step(a0, ks[6]);
    var a2 := Step(a1, ks[7]);
    var a3 := Step(a2, ks[8]);
    var a4 := Step(a3, ks[9]);
    assert Walk(ks, 10, a4) == a4;
    assert Walk(ks, 9, a3) == a4;
    assert Walk(ks, 8, a2) == Walk(ks, 9, a3);
    assert Walk(ks, 7, a1) == Walk(ks, 8, a2);
  }

  /** A procedure line after a patient header but before any day is dropped:
      the header clears the day, and no key is recorded without one. */
  lemma ProcedureBeforeDayDropped(pre: seq<RowKind>, id: string, name: string, p: string)
    requires |pre| == FirstDetailRow
    ensures var ks := pre + [PatientHeader(id, name), ProcedureLine(p)];
            Walk(ks, FirstDetailRow, Acc(Start, map[])).entries == map[]
  {
    var ks := pre + [PatientHeader(id, name), ProcedureLine(p)];
    var a1 := Step(Acc(Start, map[]), ks[6]);
    assert a1.state.date == "";
    assert Walk(ks, 7, a1) == Walk(ks, 8, Step(a1, ks[7]));
  }
}
