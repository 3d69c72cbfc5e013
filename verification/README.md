# Surgical data reconciliation, modelled in Dafny

This project models the core of a hospital tool that reconciles two
spreadsheet reports of surgeries and procedures. Its behaviour is modelled
on `services/excelProcessor.ts`, `contexts/ConfigContext.tsx` and
`components/ConfigurationTab.tsx`.

- **Detail report parser** (`DetailSheet`). `buildMachineMap` walks the
  delimiter-free detail report once, as a fold over classified rows. The
  report has patient headers, day rows, machine rows and procedure lines. The
  walk records `id-name-day-procedure ↦ machine` for every procedure line. It
  stops at two blank rows in a row and skips a single blank row.
- **List report reader** (`ListSheet`). `processListData` turns every row
  from index 8 up to the first row with an empty sequence number into a
  canonical `SurgeryRecord`:
  - the gender and birth year;
  - the start and end moments and the duration;
  - the surgery and technique grades (`determineLoaiPT`/`determineLoaiTT`);
  - the end-day key, and the machine looked up under that key.
- **Timestamps** (`DateText`, `Text`). `parseVNDateTime` reads
  `dd/mm/yyyy[ hh:mm]`, using models of JavaScript's `trim`, `split`,
  `indexOf`, `join` and `parseInt`.
- **Conflict detection** (`Conflicts`). `detectStaffConflicts` and
  `detectMachineConflicts` are one scheme over claims on resources:
  1. group the claims by resource, in first-appearance order;
  2. stably sort each group by start;
  3. report every pair `i < j` whose intervals strictly overlap (`isOverlap`).
- **Payment pivot** (`Payment`). `collectThanhToanData` builds one row per
  person per role, in `ROLE_GROUPS` order. Each row sums the person's billed
  quantities per grade column.
- **Machine list sheet** (`MachineList`). The `DS_MA_MAY` sheet splits every
  machine-map key back into patient, name, date and procedure.
- **Run summary** (`Summary`):
  - the records with no machine;
  - the total duration;
  - the overlap minutes and the conflicts as the interface shows them;
  - the counters of the result;
  - the pipeline from the two grids to the outcome.
- **Settings** (`Configuration`, `ConfigEditor`):
  - the default price and time tables;
  - the shallow `updateConfig`;
  - the merge of saved settings over the defaults at start-up;
  - the settings screen's cell edits, its exempt-name list and its number
    cells with thousands separators.

The environment is a parameter. `ListSheet.Runtime` supplies:

- the local-time `Date` constructor, as a clock from the five numbers to a
  minute;
- the UTC day of a moment;
- the billed quantity of the rate and count cells, in hundredths.

Timestamps are whole minutes on that clock's time line.

The model follows the code where its behaviour is easy to misread:

- `isOverlap` is strict, so intervals that only touch do not clash.
- The missing-machine list at line 580 takes every record with an empty
  machine. The exempt procedure names play no part in it.
- The settings declare `ignoredMachineCodes`, but the settings screen reads
  and writes `ignoredMachineNames`. Both are the single field `ignoredNames`
  here, which starts empty; see "Left out" for what the code does instead.

## Model

Some definitions that model source functions are specified by lemmas rather
than by their own contracts, so their rows name those lemmas:

- `DetailSheet.BuildMachineMap`: `MachineMapWellFormed`, `RowsAfterStopIgnored`, `IsolatedBlankRowIsNoise`, `HierarchyRecordsProcedure`, `WalkKeepsKeys`, `ProcedureBeforeDayDropped`.
- `ListSheet.MachineFor`: `ListSheet.MakeRecord`, `ListSheet.KeyAgreement`.
- `Conflicts.Detect`, `DetectStaffConflicts`, `DetectMachineConflicts`: `DetectOn`, `DetectSound`, `DetectComplete`, `StaffConflictsOfPerson`, `MachineConflictsOfMachine`, `StaffConflictSound`, `MachineConflictSound`.
- `Payment.CollectThanhToanData`: `PaymentRowsExact`, `PaymentRowsGrouped`, `RoleRowsExact`.
- `MachineList.SplitKey`: `SplitKeyOfDetailKey`, `DatedPathIsIso`, `DashedNameShiftsColumns`, `SplitKeyReassembles`. `MachineList.MachineRows`: `MachineRowsCoverMap`.
- `Configuration.UpdateConfig`: `UpdateLaws`. `Configuration.Load` and `Save`: `MergeTableExact`, `SaveLoadRoundTrip`, `LoadCovers`, `LoadNothing`, `DefaultsSurviveReload`.
- `ConfigEditor.GetPrice`, `GetTime`: `CellsShowSettings`, `PriceChangeExact`, `TimeChangeExact`. `HandlePriceChange`, `HandleTimeChange`: `PriceChangeExact`, `TimeChangeExact`, `EditsKeepCover`.
- `ConfigEditor.AddIgnored`: `AddIgnoredExact`. `RemoveIgnored`: `RemoveIgnoredExact`. `AcceptEdit`: `EmptyEditIsZero`, `SignRefused`, `GroupedRoundTrip`.


| member | source | states |
|---|---|---|
| Text.Trim | services/excelProcessor.ts:103-104 | The trimmed text has no white space at either end and is no longer than the cell text. |
| Text.TrimEmpty | services/excelProcessor.ts:108 | A cell trims to the empty text exactly when it is all white space; this is the detail report's blank test. |
| Text.TrimDropsOnly | services/excelProcessor.ts:131-133 | Trimming never introduces a character: a dash-free text stays dash-free after the trim. |
| Text.IndexOf | services/excelProcessor.ts:131 | The index is the first occurrence: that position holds the character and no earlier one does. It is the length when the character is absent. |
| Text.Split | services/excelProcessor.ts:1020 | There is at least one piece, no piece holds the separator, and joining the pieces with the separator gives the text back. |
| Text.SplitJoin | services/excelProcessor.ts:1020 | Splitting the join of separator-free pieces gives exactly those pieces: split inverts join. |
| Text.ParseInt | services/excelProcessor.ts:60 | A text that reads as NaN (`None`) does not begin with a digit. |
| Text.NumberPartsExist | services/excelProcessor.ts:60 | Every text splits into leading white space, at most one sign, a run of digits and the rest, the way `parseInt` reads it. |
| Text.ParseIntReads | services/excelProcessor.ts:60 | Split any text into leading white space, at most one sign, a run of digits and the rest. The result is NaN exactly when the run of digits is empty. Otherwise it is the run's decimal value, negated after a minus sign. |
| Text.ParseIntOfDigits | services/excelProcessor.ts:60 | A non-empty all-digit text reads as its decimal value. |
| DateText.NumberTextHasNoDash | services/excelProcessor.ts:126-129 | A sequence-number text never holds a dash, so a patient header can never be taken for a sequence number. |
| DateText.IsoDateHasDash | services/excelProcessor.ts:126-128 | Every `yyyy-mm-dd` day holds a dash, so the header test must exclude days explicitly. |
| DateText.VNToIso | services/excelProcessor.ts:282-284 | A `dd/mm/yyyy` date becomes a well-formed `yyyy-mm-dd` day, with the year, month and day moved into place. |
| DateText.IsoVNRoundTrip | services/excelProcessor.ts:282-284 | Writing an ISO day as `dd/mm/yyyy` and converting it back gives the same ISO day. |
| DateText.ParseVNDateTime | services/excelProcessor.ts:54-56 | A blank value has no moment. |
| DateText.ParseWrittenTimestamp | services/excelProcessor.ts:54-72 | `dd/mm/yyyy hh:mm` with non-zero day, month and year reads as the clock's moment for the year, month, day, hour and minute written. |
| DateText.ParseWrittenDate | services/excelProcessor.ts:63-71 | A date with no time part reads as midnight of that day. |
| DateText.ZeroFieldUnreadable | services/excelProcessor.ts:61 | A zero day, month or year makes the timestamp unreadable. |
| Records.RoleIndex | services/excelProcessor.ts:844-851 | Every role has a position in the common role order. |
| DetailSheet.ClassifyCharacterisation | services/excelProcessor.ts:106-165 | A row's class is characterised exactly, each class in both directions. Blank: both cells empty. Patient header: a dash and not a day. Day: `yyyy-mm-dd`. Machine: a dash-free first cell alone. Procedure line: a second cell and a dash-free first cell. |
| DetailSheet.MachineMapWellFormed | services/excelProcessor.ts:125-165 | Every key is `id-name-day-procedure`, with a non-empty dash-free id, an ISO day and a non-empty procedure. No recorded machine code holds a dash. |
| DetailSheet.RowsAfterStopIgnored | services/excelProcessor.ts:106-116 | Rows after two consecutive blank rows never change the map. |
| DetailSheet.IsolatedBlankRowIsNoise | services/excelProcessor.ts:118-119 | Deleting a single blank row between two non-blank rows leaves the map unchanged. |
| DetailSheet.WalkKeepsKeys | services/excelProcessor.ts:163 | Once a key is recorded it stays; later rows only overwrite or add entries. |
| DetailSheet.HierarchyRecordsProcedure | services/excelProcessor.ts:125-165 | A patient header, a day, a machine and a procedure record exactly one entry: the composite key mapped to that machine. |
| DetailSheet.ProcedureBeforeDayDropped | services/excelProcessor.ts:125-153 | A procedure line after a patient header but before any day records nothing. |
| ListSheet.DetermineLoaiPT | services/excelProcessor.ts:201-211 | The surgery grade is empty exactly when none of columns 9 to 12 is marked; otherwise it is one of the four labels. |
| ListSheet.DetermineLoaiTT | services/excelProcessor.ts:213-225 | The technique grade is empty exactly when none of columns 13 to 17 is marked; otherwise it is one of the five labels. |
| ListSheet.GradesFollowFirstMark | services/excelProcessor.ts:201-225 | Each grade is the label of the first marked column, checked against a reference definition over the column list. |
| ListSheet.GenderAndYear | services/excelProcessor.ts:256-265 | A gender is set exactly when a year is. Neither is set when both year columns are empty. "Nam" takes the male column. "Nữ" takes the female column, only when the male column is empty. |
| ListSheet.Duration | services/excelProcessor.ts:270-275 | The duration is never negative. It is positive exactly when both moments parsed and the end is later, and then it is the distance from start to end. |
| ListSheet.EndDateKey | services/excelProcessor.ts:277-288 | A `dd/mm/yyyy` end date gives an ISO day. Otherwise the key is empty when the end did not parse. |
| ListSheet.MakeRecord | services/excelProcessor.ts:233-326 | The record carries the row's patient, name and procedure cells. Its key is the detail parser's composite key with the end day. Its machine is the map's entry for that key. Its minutes are non-negative and positive exactly when it is timed with a later end. |
| ListSheet.SequenceNumberCell | services/excelProcessor.ts:235-236 | A row carries a sequence number exactly when its first cell is not blank after trimming. |
| ListSheet.DataEnd | services/excelProcessor.ts:233-236 | Every row before the end position carries a sequence number, and the row at the end position (if any) does not. |
| ListSheet.CollectRows | services/excelProcessor.ts:233-236 | The loop yields one value per data row, in order, from row 8 up to the first row without a sequence number. It agrees with the recursive reference `RowsFrom`. |
| ListSheet.ProcessListData | services/excelProcessor.ts:227-330 | There is one record per data row, each made from its own row, each with non-negative minutes. A grid shorter than the header yields none. |
| ListSheet.RowsAfterEndIgnored | services/excelProcessor.ts:236 | Rows after a row without a sequence number never contribute. |
| ListSheet.EndDateKeyOfWrittenDay | services/excelProcessor.ts:277-284 | An end written as the `dd/mm/yyyy` form of an ISO day, plus a time, keys on that ISO day whatever the clock. |
| ListSheet.VNDateUnsplit | services/excelProcessor.ts:279 | A `dd/mm/yyyy` date holds no space, so a date-only end is its own date part. |
| ListSheet.EndDateKeyOfDatePart | services/excelProcessor.ts:277-284 | An end whose date part is the `dd/mm/yyyy` form of an ISO day keys on that ISO day, whatever follows the date and whatever the clock. |
| ListSheet.KeyAgreement | services/excelProcessor.ts:279-293 | A list row whose end has a `dd/mm/yyyy` date part (the text before the first space) builds exactly the key the detail parser builds for the same id, name, ISO day and procedure. This holds for a date-only end and for an end with anything after the date. So the row gets that entry's machine, or "" when the detail report has none. |
| MachineList.PadStart | services/excelProcessor.ts:1029-1030 | The result is the text behind enough zeros to reach the width, never cut. |
| MachineList.PadStartValue | services/excelProcessor.ts:1029-1030 | Padding a number with zeros keeps its value. |
| MachineList.MachineRowsCoverMap | services/excelProcessor.ts:1019-1040 | Listing the map's entries gives exactly one row per key, carrying that key's machine. |
| MachineList.SplitKeyOfDetailKey | services/excelProcessor.ts:1020-1032 | A key the detail parser builds from a dash-free id and name and an ISO day splits back into exactly those four fields, whatever dashes the procedure holds. |
| MachineList.DatedPathIsIso | services/excelProcessor.ts:1027-1031 | On the dated path the date column is a well-formed ISO day, with the year, month and day values of the key. |
| MachineList.DashedNameShiftsColumns | services/excelProcessor.ts:1033-1037 | A name holding a dash shifts the columns: the name's second half is taken as the date and the real date moves into the procedure. |
| MachineList.SplitKeyReassembles | services/excelProcessor.ts:1019-1037 | When no padding was needed, joining a row's four fields with dashes gives the key back. |
| Payment.ColumnsDistinct | services/excelProcessor.ts:880-889 | A surgery column and a technique column are never the same column. |
| Payment.AddRecord | services/excelProcessor.ts:880-889 | After adding a record, the bucket holds a column exactly when it did before or the record feeds it. Each column adds the record's quantity exactly when the record feeds it. |
| Payment.TallyRole | services/excelProcessor.ts:869-890 | The people listed are exactly the people with buckets, each listed once. |
| Payment.TallyMatchesSums | services/excelProcessor.ts:869-890 | A person's bucket holds a column exactly when one of their records in that role feeds it. It then holds the reference sum of their quantities. |
| Payment.RoleRowsExact | services/excelProcessor.ts:866-895 | A role has one row per person it names, with no duplicates and no one else. Each row carries the role's label, and exactly the fed columns with their sums. |
| Payment.NamesOnlyGrow | services/excelProcessor.ts:873-875 | People are listed in first-appearance order: the people of any prefix of the records come first, in the same order. |
| Payment.PaymentRowsExact | services/excelProcessor.ts:863-896 | The sheet holds exactly the rows of the six roles. |
| Payment.PaymentRowsGrouped | services/excelProcessor.ts:844-896 | The rows come in `ROLE_GROUPS` blocks. Every row carries one of the six labels, and no row's role comes later in the role order than the role of a row below it. |
| Conflicts.OverlapMeansSharedMinute | services/excelProcessor.ts:81-88 | For proper intervals the test holds exactly when they share a minute. |
| Conflicts.OverlapSymmetricStrict | services/excelProcessor.ts:81-88 | For any four numbers, proper intervals or not, the test is symmetric, and intervals that only touch do not overlap. |
| Conflicts.InvertedIntervalOverlaps | services/excelProcessor.ts:81-88 | An interval whose end precedes its start can pass the test without sharing any minute. |
| Conflicts.GroupMembers | services/excelProcessor.ts:376-377 | A group is empty exactly when nothing claims its resource, and every record in it claimed it. |
| Conflicts.NamedIn | services/excelProcessor.ts:373-378 | Only timed records naming the person in that role are listed. |
| Conflicts.OnMachine | services/excelProcessor.ts:426-431 | Only timed records on that machine code are listed. |
| Conflicts.StaffGroup | services/excelProcessor.ts:373-387 | The `role|name` group is exactly the timed records naming that person in that role, in record order. |
| Conflicts.MachineGroup | services/excelProcessor.ts:426-431 | A machine's group is exactly the timed records on it, in record order. |
| Conflicts.Keys | services/excelProcessor.ts:376 | The group keys are exactly the claimed resources, each once. |
| Conflicts.KeysOnlyGrow | services/excelProcessor.ts:376 | Keys are only ever appended, so groups come in first-appearance order. |
| Conflicts.SortByStart | services/excelProcessor.ts:393 | The sort returns a permutation of the group. |
| Conflicts.SortSorts | services/excelProcessor.ts:393 | The sorted group is ordered by start. |
| Conflicts.SortIsStable | services/excelProcessor.ts:393 | Records with the same start keep their order. |
| Conflicts.IndexPairsExact | services/excelProcessor.ts:394-395 | The double loop visits every pair `i < j` exactly once, in lexicographic order: `n(n-1)/2` pairs. |
| Conflicts.GroupConflictsExact | services/excelProcessor.ts:394-416 | A group reports exactly the overlapping pairs `i < j` of its sorted records. |
| Conflicts.MutualOverlapCount | services/excelProcessor.ts:394-416 | A group of `k` mutually overlapping records reports `k(k-1)/2` conflicts. |
| Conflicts.SmallGroupQuiet | services/excelProcessor.ts:394-395 | A group of fewer than two records reports nothing. |
| Conflicts.DetectOn | services/excelProcessor.ts:391-416 | The conflicts on one resource are exactly those of its own sorted group, in order. |
| Conflicts.DetectSound | services/excelProcessor.ts:391-416 | Every reported conflict is an overlapping pair `i < j` of its resource's sorted group, both records claimed it, and the earlier starts first. |
| Conflicts.DetectComplete | services/excelProcessor.ts:391-416 | Every overlapping pair `i < j` of a sorted group is reported. |
| Conflicts.StaffConflictsOfPerson | services/excelProcessor.ts:364-420 | One person's conflicts in one role are those among the timed records naming them in that role. |
| Conflicts.MachineConflictsOfMachine | services/excelProcessor.ts:422-462 | One machine's conflicts are those among the timed records on it. |
| Conflicts.StaffConflictSound | services/excelProcessor.ts:364-420 | A staff conflict names one non-empty person in the same role in both records, which overlap and are in start order. |
| Conflicts.MachineConflictSound | services/excelProcessor.ts:422-462 | A machine conflict names one non-empty machine code in both records, which overlap and are in start order. |
| Conflicts.LonePersonInRoleQuiet | services/excelProcessor.ts:364-420 | A person named in a role by at most one timed record is never reported in that role. |
| Summary.MissingMachine | services/excelProcessor.ts:580 | The list holds exactly the records with no machine, and is no longer than the records. |
| Summary.MissingMachineConcat | services/excelProcessor.ts:580 | The filter distributes over concatenation, so it keeps record order. |
| Summary.MissingMachineIdempotent | services/excelProcessor.ts:580 | Filtering twice is filtering once. |
| Summary.MissingMachineNeverClashes | services/excelProcessor.ts:580 | A record without a machine is never part of a machine conflict. |
| Summary.TotalDurationConcat | services/excelProcessor.ts:1062-1065 | The total of two batches is the sum of their totals. |
| Summary.TotalDurationBounds | services/excelProcessor.ts:1062-1065 | With non-negative minutes the total is non-negative and at least each record's minutes. |
| Summary.OverlapMinutesMeaning | services/excelProcessor.ts:1075-1077 | For proper intervals the overlap minutes are positive exactly when the intervals overlap, and are symmetric. |
| Summary.InvertedIntervalNegativeOverlap | services/excelProcessor.ts:1075-1077 | A pair the test flags can get a negative overlap when one interval is inverted. |
| Summary.ToView | services/excelProcessor.ts:1074-1091 | A shown conflict carries the resource name, its kind and the two procedure names. Its four times are the two records' starts and ends. Its overlap is the earlier end less the later start, which is positive when both intervals are proper and overlap. |
| Summary.ToConflictFormat | services/excelProcessor.ts:1068-1113 | All staff conflicts come first, then all machine conflicts, each in order: one entry per conflict, with the kind telling the two apart. |
| Summary.ShownConflicts | services/excelProcessor.ts:1068-1113 | Every shown conflict names a person or machine. Among records that end after they start, every overlap is a positive number of minutes. |
| Summary.Summarise | services/excelProcessor.ts:1117-1129 | The counters agree with the lists. The surgeries are the records. The total is the sum of the records' minutes, non-negative and at least each record's minutes. The missing count is the missing list's length. The staff and machine counters are the numbers of staff and machine conflicts detected and shown. The shown conflicts are those the two detectors report. |
| Summary.Process | services/excelProcessor.ts:570-580 | The run makes one record per data row of the list report, up to the first row without a sequence number, against the detail report's machine map. Its outcome is the summary of those records, so its counters and conflicts are those of the detectors. |
| Configuration.DefaultPriceOf | contexts/ConfigContext.tsx:27-37 | Every default type prices all three roles, none negatively. |
| Configuration.DefaultTimeOf | contexts/ConfigContext.tsx:39-49 | Every default type has both bounds, the least not above the greatest. |
| Configuration.DefaultTablesAgree | contexts/ConfigContext.tsx:27-49 | The price and time defaults cover the same nine types. Every type prices all three roles and has both time bounds, the least not above the greatest. |
| Configuration.UpdateLaws | contexts/ConfigContext.tsx:129-131 | An empty patch changes nothing and a patch is idempotent. Two updates are one update with the later patch winning field by field. |
| Configuration.MergeTableExact | contexts/ConfigContext.tsx:86-111 | The merged table has every default type and every truthy saved type, nothing else. Each has the union of roles, each role taking the saved value over the default. |
| Configuration.MergeWrapped | contexts/ConfigContext.tsx:86-111 | Merging a saved table that covers the defaults gives that table back. |
| Configuration.SaveLoadRoundTrip | contexts/ConfigContext.tsx:82-125 | Settings that keep every default type and role survive a save and a reload unchanged. |
| Configuration.LoadCovers | contexts/ConfigContext.tsx:82-113 | Whatever was saved, loading never loses a default type or role. |
| Configuration.DefaultsSurviveReload | contexts/ConfigContext.tsx:60-65 | The default settings survive a save and a reload. |
| Configuration.LoadNothing | contexts/ConfigContext.tsx:82-83 | With nothing saved, the settings are kept. |
| ConfigEditor.CellsShowSettings | components/ConfigurationTab.tsx:92-93 | Once the settings cover the defaults, no cell of a default type falls back to 0. Each shows its stored value, and on the defaults each shows the default table's entry. |
| ConfigEditor.PriceChangeExact | components/ConfigurationTab.tsx:57-67 | A price edit reads back as the value written. Every other price cell, the time table, the role order and the exempt list are unchanged, and no type or role is lost. |
| ConfigEditor.TimeChangeExact | components/ConfigurationTab.tsx:69-79 | A time edit reads back as the value written, and nothing else changes. |
| ConfigEditor.EditsKeepCover | components/ConfigurationTab.tsx:57-79 | Edits keep the tables covering the defaults, so edited settings survive a reload. |
| ConfigEditor.AddIgnoredExact | components/ConfigurationTab.tsx:81-86 | A new, non-blank trimmed name is appended and the input cleared; otherwise nothing changes. No name is ever listed twice, and only the exempt list changes. |
| ConfigEditor.Without | components/ConfigurationTab.tsx:278 | The list keeps exactly the other names. |
| ConfigEditor.WithoutConcat | components/ConfigurationTab.tsx:278 | Removal distributes over concatenation, so the remaining names keep their order. |
| ConfigEditor.WithoutDistinct | components/ConfigurationTab.tsx:278 | Removing a name from a duplicate-free list keeps it duplicate-free. |
| ConfigEditor.RemoveIgnoredExact | components/ConfigurationTab.tsx:277-279 | Removing deletes the name, keeps the others, and touches nothing else. It undoes adding a new name. |
| ConfigEditor.StripCommas | components/ConfigurationTab.tsx:39 | No comma survives, and nothing is added. |
| ConfigEditor.EmptyEditIsZero | components/ConfigurationTab.tsx:40-41 | Clearing a cell sets its value to 0. |
| ConfigEditor.SignRefused | components/ConfigurationTab.tsx:40 | Text with a minus sign or a decimal point is refused. |
| ConfigEditor.GroupedRoundTrip | components/ConfigurationTab.tsx:31-41 | A whole number, displayed with thousands separators, is read back as that number. |

## Left out

- File input and the workbook: reading the two files, sheet-to-grid conversion, every written sheet's layout and styling, and the download blob. The grids are given as rows of cell texts.
- The two file-format validators (services/excelProcessor.ts:13-51): the pipeline is modelled from the point where both files have passed them.
- JavaScript `Date`: local-time construction is the `clock` parameter, and the UTC day of a moment (`toDateKey`, 75-78) is the `utcDay` parameter. Out-of-range fields that `Date` would roll over are the clock's business.
- An Invalid Date (a time part that is not a number) is modelled as no moment. It never overlaps anything and gives duration 0, as in the source. The source still puts such a record in its groups and sorts with a NaN comparison, which is left out.
- The billed quantity is floating point in the source (298-299). It is the `quantity` parameter, in hundredths.
- The overlap rounding `Math.round(ms / 60000)` (1089, 1108): timestamps are whole minutes here, so the overlap is already in minutes.
- Conflict ids come from `crypto.randomUUID` (1080, 1099) and are not modelled.
- Cells are their display text. A cell holding the number 0 or `false`, which JavaScript treats as falsy, counts as filled here.
- The machine map's insertion order: `MachineList.MachineRows` takes the entries as a list in that order, and `MachineList.MachineRowsCoverMap` asks only that the list enumerate the map.
- `Number()` edge cases beyond digit strings (precision of very long numbers, exponent forms) and locale formatting other than English thousands grouping.
- `Text.Trim` treats the ASCII white space, no-break space and byte-order mark as spaces, not the other Unicode space separators.
- Dead or unused code is not modelled: the unused `handleChange` of the number cell (components/ConfigurationTab.tsx:18-24), `normalizeLoaiPT`/`normalizeLoaiTT`, `collectThanhToanData_PTV_CHINH`, and the malformed text after `collectThanhToanData` (897 onwards).
- Settings persistence is modelled as a pure `Save`/`Load` pair. `localStorage`, the JSON text, the React context, the reset confirmation dialog and a saved field holding `null` are left out.
- Money: the processor has no price lookup, so no amount is computed. The price table is only modelled as settings.
- `Summary.Process`: does not model the console logging and the workbook built between 581 and 1060.
- `ignoredNames` starts as the empty list here. In the source, `DEFAULT_CONFIG` (contexts/ConfigContext.tsx:60-65) defines only `ignoredMachineCodes`, and neither loading nor reset creates `ignoredMachineNames`. So `config.ignoredMachineNames.includes` (components/ConfigurationTab.tsx:82) and `.length` (272) would throw on the default settings. The model gives the field the empty list the code evidently intends.
- The loading gate: the settings screen waits on `isLoaded` (components/ConfigurationTab.tsx:55), but the context value (contexts/ConfigContext.tsx:140-142) never provides it. As written the screen would always show "Loading config...". The model treats the settings as loaded.
