/** What a run reports besides the sheets (services/excelProcessor.ts:570-580,
    1062-1128): the records left without a machine, the total duration, the
    counters, and the conflicts in the shape the interface shows them. */
module Summary {
  import opened Records
  import opened Conflicts
  import DetailSheet
  import ListSheet
  import opened Seqs

  // ----- records without a machine -----

  /** The records whose machine is empty (580). The configured ignore lists
      play no part here. */
  function MissingMachine(records: seq<SurgeryRecord>): (missing: seq<SurgeryRecord>)
    ensures |missing| <= |records|
    ensures forall r :: r in missing <==> r in records && r.machine == ""
  {
    if records == [] then []
    else
      assert forall r :: r in records <==> r == records[0] || r in records[1..];
      (if records[0].machine == "" then [records[0]] else []) + MissingMachine(records[1..])
  }

  /** The filter keeps the order of the records: filtering two runs of
      records one after the other is filtering each. */
  lemma {:induction false} MissingMachineConcat(a: seq<SurgeryRecord>, b: seq<SurgeryRecord>)
    ensures MissingMachine(a + b) == MissingMachine(a) + MissingMachine(b)
  {
    if a == [] {
      assert a + b == b;
    } else {
      var head := if a[0].machine == "" then [a[0]] else [];
      assert (a + b)[0] == a[0];
      assert (a + b)[1..] == a[1..] + b;
      MissingMachineConcat(a[1..], b);
      calc {
        MissingMachine(a + b);
        head + MissingMachine(a[1..] + b);
        head + (MissingMachine(a[1..]) + MissingMachine(b));
        { SeqAssoc(head, MissingMachine(a[1..]), MissingMachine(b)); }
        MissingMachine(a) + MissingMachine(b);
      }
    }
  }

  /** Filtering again changes nothing. */
  lemma {:induction false} MissingMachineIdempotent(records: seq<SurgeryRecord>)
    ensures MissingMachine(MissingMachine(records)) == MissingMachine(records)
  {
    if records != [] {
      var head := if records[0].machine == "" then [records[0]] else [];
      MissingMachineIdempotent(records[1..]);
      MissingMachineConcat(head, MissingMachine(records[1..]));
      if head != [] {
        assert MissingMachine(head) == head by {
          assert head[1..] == [];
        }
      }
    }
  }

  /** A record without a machine is never half of a machine conflict. */
  lemma MissingMachineNeverClashes(records: seq<SurgeryRecord>, c: Conflict)
    requires c in DetectMachineConflicts(records)
    ensures c.first !in MissingMachine(records) && c.second !in MissingMachine(records)
  {
    MachineConflictSound(records, c);
  }

  // ----- total duration -----

  /** The sum of the records' minutes, from 0 (1062-1065). */
  function TotalDuration(records: seq<SurgeryRecord>): int {
    if records == [] then 0 else TotalDuration(records[..|records| - 1]) + records[|records| - 1].timeMinutes
  }

  /** The total of two runs of records is the sum of their totals. */
  lemma {:induction false} TotalDurationConcat(a: seq<SurgeryRecord>, b: seq<SurgeryRecord>)
    ensures TotalDuration(a + b) == TotalDuration(a) + TotalDuration(b)
    decreases |b|
  {
    if b == [] {
      assert a + b == a;
    } else {
      assert (a + b)[..|a + b| - 1] == a + b[..|b| - 1];
      TotalDurationConcat(a, b[..|b| - 1]);
    }
  }

  /** With no negative durations (what the list reader produces) the total
      is never negative and bounds every single duration. */
  lemma {:induction false} TotalDurationBounds(records: seq<SurgeryRecord>)
    requires forall k :: 0 <= k < |records| ==> records[k].timeMinutes >= 0
    ensures TotalDuration(records) >= 0
    ensures forall r :: r in records ==> r.timeMinutes <= TotalDuration(records)
  {
    if records != [] {
      var init := records[..|records| - 1];
      assert forall k :: 0 <= k < |init| ==> init[k] == records[k];
      TotalDurationBounds(init);
      assert forall r :: r in records ==> r in init || r == records[|records| - 1];
    }
  }

  // ----- overlap minutes -----

  function Min(a: int, b: int): int {
    if a <= b then a else b
  }

  function Max(a: int, b: int): int {
    if a >= b then a else b
  }

  /** The earlier end less the later start (1075-1077, 1094-1096), in
      minutes. */
  function OverlapMinutes(aStart: int, aEnd: int, bStart: int, bEnd: int): int {
    Min(aEnd, bEnd) - Max(aStart, bStart)
  }

  /** For proper intervals the figure is positive exactly when the intervals
      overlap, and then the minutes both intervals share are exactly that
      many minutes from the later start on; it does not depend on which
      interval comes first. */
  lemma OverlapMinutesMeaning(aStart: int, aEnd: int, bStart: int, bEnd: int)
    requires aStart < aEnd && bStart < bEnd
    ensures OverlapMinutes(aStart, aEnd, bStart, bEnd) > 0 <==> IsOverlap(aStart, aEnd, bStart, bEnd)
    ensures IsOverlap(aStart, aEnd, bStart, bEnd) ==>
              forall t :: (Within(t, aStart, aEnd) && Within(t, bStart, bEnd))
                          <==> Within(t, Max(aStart, bStart), Max(aStart, bStart) + OverlapMinutes(aStart, aEnd, bStart, bEnd))
    ensures OverlapMinutes(aStart, aEnd, bStart, bEnd) == OverlapMinutes(bStart, bEnd, aStart, aEnd)
  {
  }

  /** An interval whose end precedes its start can be reported in a
      conflict whose overlap figure is negative. */
  lemma InvertedIntervalNegativeOverlap()
    ensures IsOverlap(0, 10, 5, 3) && OverlapMinutes(0, 10, 5, 3) == -2
  {
  }

  // ----- conflicts as the interface shows them -----

  datatype ConflictKind = Staff | Machine

  /** One entry of `toConflictFormat` (the random `id` is not modelled). */
  datatype ConflictView = ConflictView(
    resourceName: string, kind: ConflictKind, surgeryA: string, surgeryB: string,
    startA: int, endA: int, startB: int, endB: int, durationOverlap: int)

  /** Both records of every conflict carry their interval (the source's
      conflict objects hold the two `Date`s). */
  predicate AllTimed(cs: seq<Conflict>) {
    forall k :: 0 <= k < |cs| ==> cs[k].first.Timed() && cs[k].second.Timed()
  }

  /** The staff member's name or the machine code. */
  function ResourceName(res: Resource): string {
    match res
    case StaffSlot(_, name) => name
    case MachineSlot(code) => code
  }

  /** One conflict in the interface's shape (1074-1091, 1093-1110). */
  function ToView(c: Conflict, kind: ConflictKind): (v: ConflictView)
    requires c.first.Timed() && c.second.Timed()
    ensures v.kind == kind && v.resourceName == ResourceName(c.resource)
    ensures v.surgeryA == c.first.tenKT && v.surgeryB == c.second.tenKT
    ensures v.startA == c.first.start.value && v.endA == c.first.end.value
    ensures v.startB == c.second.start.value && v.endB == c.second.end.value
    ensures v.durationOverlap == OverlapMinutes(v.startA, v.endA, v.startB, v.endB)
    ensures v.startA < v.endA && v.startB < v.endB && Overlaps(c.first, c.second) ==> v.durationOverlap > 0
  {
    var (a, b) := (c.first, c.second);
    ConflictView(ResourceName(c.resource), kind, a.tenKT, b.tenKT,
      a.start.value, a.end.value, b.start.value, b.end.value,
      OverlapMinutes(a.start.value, a.end.value, b.start.value, b.end.value))
  }

  /** `toConflictFormat`: the staff conflicts, then the machine conflicts,
      each in the order detected. */
  function ToConflictFormat(staff: seq<Conflict>, machine: seq<Conflict>): (vs: seq<ConflictView>)
    requires AllTimed(staff) && AllTimed(machine)
    ensures |vs| == |staff| + |machine|
    ensures forall k :: 0 <= k < |vs| ==> (vs[k].kind == Staff <==> k < |staff|)
    ensures forall k :: 0 <= k < |staff| ==> vs[k] == ToView(staff[k], Staff)
    ensures forall k :: |staff| <= k < |vs| ==> vs[k] == ToView(machine[k - |staff|], Machine)
  {
    var vs := seq(|staff| + |machine|, k requires 0 <= k < |staff| + |machine| =>
      if k < |staff| then ToView(staff[k], Staff) else ToView(machine[k - |staff|], Machine));
    assert forall k :: 0 <= k < |vs| ==>
      vs[k] == if k < |staff| then ToView(staff[k], Staff) else ToView(machine[k - |staff|], Machine);
    vs
  }

  /** How many shown conflicts are of the given kind. */
  function CountKind(vs: seq<ConflictView>, kind: ConflictKind): nat {
    if vs == [] then 0 else (if vs[0].kind == kind then 1 else 0) + CountKind(vs[1..], kind)
  }

  /** A list whose first `n` entries are the staff conflicts and whose
      remaining entries are machine conflicts holds `n` staff and
      `|vs| - n` machine conflicts. */
  lemma {:induction false} CountKindSplit(vs: seq<ConflictView>, n: nat)
    requires n <= |vs|
    requires forall k :: 0 <= k < |vs| ==> (vs[k].kind == Staff <==> k < n)
    ensures CountKind(vs, Staff) == n && CountKind(vs, Machine) == |vs| - n
  {
    if vs != [] {
      assert vs[0].kind == Staff <==> 0 < n;
      var m := if n > 0 then n - 1 else 0;
      assert forall k :: 0 <= k < |vs[1..]| ==> vs[1..][k] == vs[k + 1];
      CountKindSplit(vs[1..], m);
    }
  }

  /** Every detected conflict carries both intervals, so the interface can
      show them. */
  lemma DetectedConflictsTimed(records: seq<SurgeryRecord>)
    ensures AllTimed(DetectStaffConflicts(records)) && AllTimed(DetectMachineConflicts(records))
  {
    var staff, machine := DetectStaffConflicts(records), DetectMachineConflicts(records);
    forall k | 0 <= k < |staff|
      ensures staff[k].first.Timed() && staff[k].second.Timed()
    {
      StaffConflictSound(records, staff[k]);
    }
    forall k | 0 <= k < |machine|
      ensures machine[k].first.Timed() && machine[k].second.Timed()
    {
      MachineConflictSound(records, machine[k]);
    }
  }

  /** Every timed record ends after it starts. */
  predicate ProperlyTimed(records: seq<SurgeryRecord>) {
    forall r :: r in records && r.Timed() ==> r.start.value < r.end.value
  }

  /** What the interface may rely on in one shown conflict. */
  predicate ShownWell(records: seq<SurgeryRecord>, v: ConflictView) {
    v.resourceName != "" && (ProperlyTimed(records) ==> v.durationOverlap > 0)
  }

  lemma StaffViewShown(records: seq<SurgeryRecord>, c: Conflict)
    requires c in DetectStaffConflicts(records) && c.first.Timed() && c.second.Timed()
    ensures ShownWell(records, ToView(c, Staff))
  {
    StaffConflictSound(records, c);
  }

  lemma MachineViewShown(records: seq<SurgeryRecord>, c: Conflict)
    requires c in DetectMachineConflicts(records) && c.first.Timed() && c.second.Timed()
    ensures ShownWell(records, ToView(c, Machine))
  {
    MachineConflictSound(records, c);
  }

  /** Every staff conflict, shown, is well formed. */
  lemma StaffShown(records: seq<SurgeryRecord>)
    ensures AllTimed(DetectStaffConflicts(records))
    ensures var staff := DetectStaffConflicts(records);
            forall i :: 0 <= i < |staff| ==> ShownWell(records, ToView(staff[i], Staff))
  {
    DetectedConflictsTimed(records);
    var staff := DetectStaffConflicts(records);
    forall i | 0 <= i < |staff|
      ensures ShownWell(records, ToView(staff[i], Staff))
    {
      StaffViewShown(records, staff[i]);
    }
  }

  /** Every machine conflict, shown, is well formed. */
  lemma MachineShown(records: seq<SurgeryRecord>)
    ensures AllTimed(DetectMachineConflicts(records))
    ensures var machine := DetectMachineConflicts(records);
            forall i :: 0 <= i < |machine| ==> ShownWell(records, ToView(machine[i], Machine))
  {
    DetectedConflictsTimed(records);
    var machine := DetectMachineConflicts(records);
    forall i | 0 <= i < |machine|
      ensures ShownWell(records, ToView(machine[i], Machine))
    {
      MachineViewShown(records, machine[i]);
    }
  }

  /** The interface's list is well formed when each of its parts is. */
  lemma FormatShown(records: seq<SurgeryRecord>, staff: seq<Conflict>, machine: seq<Conflict>)
    requires AllTimed(staff) && AllTimed(machine)
    requires forall i :: 0 <= i < |staff| ==> ShownWell(records, ToView(staff[i], Staff))
    requires forall i :: 0 <= i < |machine| ==> ShownWell(records, ToView(machine[i], Machine))
    ensures var vs := ToConflictFormat(staff, machine);
            forall k :: 0 <= k < |vs| ==> ShownWell(records, vs[k])
  {
    var vs := ToConflictFormat(staff, machine);
    forall k | 0 <= k < |vs|
      ensures ShownWell(records, vs[k])
    {
      if k >= |staff| {
        assert ShownWell(records, ToView(machine[k - |staff|], Machine));
      }
    }
  }

  /** A shown conflict names a person or a machine, and among records that
      end after they start its overlap is a positive number of minutes. */
  lemma ShownConflicts(records: seq<SurgeryRecord>)
    ensures AllTimed(DetectStaffConflicts(records)) && AllTimed(DetectMachineConflicts(records))
    ensures var vs := ToConflictFormat(DetectStaffConflicts(records), DetectMachineConflicts(records));
            forall k :: 0 <= k < |vs| ==> ShownWell(records, vs[k])
  {
    StaffShown(records);
    MachineShown(records);
    FormatShown(records, DetectStaffConflicts(records), DetectMachineConflicts(records));
  }

  // ----- the run -----

  /** The counters of the result (1121-1127). */
  datatype Stats = Stats(
    totalSurgeries: nat, totalDurationMinutes: int, staffConflicts: nat, machineConflicts: nat, missingMachines: nat)

  datatype Outcome = Outcome(records: seq<SurgeryRecord>, missing: seq<SurgeryRecord>, stats: Stats, conflicts: seq<ConflictView>)

  /** The outcome of a run over the records read from the list report:
      the missing-machine list, the counters and the conflicts as shown
      (1062-1128). */
  function Summarise(records: seq<SurgeryRecord>): (out: Outcome)
    requires forall k :: 0 <= k < |records| ==> records[k].timeMinutes >= 0
    ensures out.records == records && out.stats.totalSurgeries == |records|
    ensures out.stats.totalDurationMinutes >= 0
    ensures forall r :: r in records ==> r.timeMinutes <= out.stats.totalDurationMinutes
    ensures forall r :: r in out.missing <==> r in records && r.machine == ""
    ensures out.stats.missingMachines == |out.missing|
    ensures out.stats.totalDurationMinutes == TotalDuration(records)
    ensures out.stats.staffConflicts + out.stats.machineConflicts == |out.conflicts|
    ensures out.stats.staffConflicts == CountKind(out.conflicts, Staff)
    ensures out.stats.machineConflicts == CountKind(out.conflicts, Machine)
    ensures out.stats.staffConflicts == |DetectStaffConflicts(records)|
    ensures out.stats.machineConflicts == |DetectMachineConflicts(records)|
    ensures AllTimed(DetectStaffConflicts(records)) && AllTimed(DetectMachineConflicts(records))
    ensures out.conflicts == ToConflictFormat(DetectStaffConflicts(records), DetectMachineConflicts(records))
  {
    var staff, machine := DetectStaffConflicts(records), DetectMachineConflicts(records);
    var missing := MissingMachine(records);
    TotalDurationBounds(records);
    DetectedConflictsTimed(records);
    var vs := ToConflictFormat(staff, machine);
    CountKindSplit(vs, |staff|);
    var stats := Stats(|records|, TotalDuration(records), |staff|, |machine|, |missing|);
    Outcome(records, missing, stats, vs)
  }

  /** The core of `processExcelFiles` once both files have passed their
      format checks (570-580, 1062-1128): machine map, records, conflicts,
      the missing-machine list and the counters. */
  method Process(listGrid: ListSheet.Grid, detailGrid: DetailSheet.Grid, rt: ListSheet.Runtime) returns (out: Outcome)
    ensures out.stats.totalSurgeries == |out.records|
    ensures out.stats.totalDurationMinutes >= 0
    ensures forall r :: r in out.records ==> r.timeMinutes <= out.stats.totalDurationMinutes
    ensures forall r :: r in out.missing <==> r in out.records && r.machine == ""
    ensures out.stats.missingMachines == |out.missing|
    ensures out.stats.staffConflicts + out.stats.machineConflicts == |out.conflicts|
    ensures forall k :: 0 <= k < |out.records| ==>
              ListSheet.FirstListRow + k < |listGrid| && out.records[k] == ListSheet.MakeRecord(listGrid[ListSheet.FirstListRow + k], DetailSheet.BuildMachineMap(detailGrid), rt)
    ensures |listGrid| < ListSheet.FirstListRow ==> out.records == []
    ensures |listGrid| >= ListSheet.FirstListRow ==>
              ListSheet.FirstListRow + |out.records| == ListSheet.DataEnd(listGrid, ListSheet.FirstListRow)
    ensures forall k :: 0 <= k < |out.records| ==> out.records[k].timeMinutes >= 0
    ensures out == Summarise(out.records)
  {
    var machines := DetailSheet.BuildMachineMap(detailGrid);
    var records := ListSheet.ProcessListData(listGrid, machines, rt);
    out := Summarise(records);
  }
}
