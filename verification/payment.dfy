/** The payment pivot `collectThanhToanData` (services/excelProcessor.ts:844-896).

    For each of the six roles in `ROLE_GROUPS` order, every person the records
    name in that role gets one row, people in the order they first appear.
    A row's values add up the billed quantity of that person's records in
    that role: under `PT_<grade>` for the record's surgery grade and under
    `TT_<grade>` for its technique grade. */
module Payment {
  import opened Records
  import opened Seqs

  /** One row of the payment sheet: role label, person, and the sums per
      grade column. */
  datatype PaymentRow = PaymentRow(role: string, name: string, values: map<string, int>)

  /** The `ROLE_GROUPS` labels. */
  function Label(role: Role): string {
    match role
    case PtChinh => "PTV CHÍNH"
    case PtPhu => "PTV PHỤ"
    case BsGM => "BS GMHS"
    case KtvGM => "KTV GMHS"
    case Tdc => "TÍT DC"
    case Gv => "GIÚP VIỆC"
  }

  /** The record adds its quantity to column `key`. */
  predicate Contributes(r: SurgeryRecord, key: string) {
    (r.loaiPT != "" && key == "PT_" + r.loaiPT) || (r.loaiTT != "" && key == "TT_" + r.loaiTT)
  }

  /** A surgery column and a technique column are never the same column. */
  lemma ColumnsDistinct(x: string, y: string)
    ensures "PT_" + x != "TT_" + y
  {
    assert ("PT_" + x)[0] != ("TT_" + y)[0];
  }

  /** `bucket[key] = (bucket[key] || 0) + quantity`. */
  function AddTo(bucket: map<string, int>, key: string, quantity: int): map<string, int> {
    bucket[key := (if key in bucket then bucket[key] else 0) + quantity]
  }

  /** One record added to a person's bucket (880-889). */
  function AddRecord(bucket: map<string, int>, r: SurgeryRecord): (b: map<string, int>)
    ensures forall key :: key in b <==> key in bucket || Contributes(r, key)
    ensures forall key :: key in b ==>
              b[key] == (if key in bucket then bucket[key] else 0) + (if Contributes(r, key) then r.soLuong else 0)
  {
    ColumnsDistinct(r.loaiPT, r.loaiTT);
    var b1 := if r.loaiPT != "" then AddTo(bucket, "PT_" + r.loaiPT, r.soLuong) else bucket;
    if r.loaiTT != "" then AddTo(b1, "TT_" + r.loaiTT, r.soLuong) else b1
  }

  /** One role's pass: the people in first-appearance order and their
      buckets (the source's `Map`). */
  datatype Tally = Tally(names: seq<string>, buckets: map<string, map<string, int>>)

  /** The pass over `records` for `role`, as a left fold (869-890). */
  function TallyRole(records: seq<SurgeryRecord>, role: Role): (t: Tally)
    ensures forall n :: n in t.names <==> n in t.buckets
    ensures forall i, j :: 0 <= i < j < |t.names| ==> t.names[i] != t.names[j]
  {
    if records == [] then Tally([], map[])
    else
      var t := TallyRole(records[..|records| - 1], role);
      var r := records[|records| - 1];
      var name := r.Staff(role);
      if name == "" then t
      else
        var bucket := if name in t.buckets then t.buckets[name] else map[];
        var names := if name in t.buckets then t.names else t.names + [name];
        Tally(names, t.buckets[name := AddRecord(bucket, r)])
  }

  /** The rows of one role, in first-appearance order (892-894). */
  function RoleRows(records: seq<SurgeryRecord>, role: Role): (rows: seq<PaymentRow>)
    ensures |rows| == |TallyRole(records, role).names|
  {
    var t := TallyRole(records, role);
    seq(|t.names|, k requires 0 <= k < |t.names| => PaymentRow(Label(role), t.names[k], t.buckets[t.names[k]]))
  }

  /** `collectThanhToanData`: the roles' rows, role after role. */
  function CollectThanhToanData(records: seq<SurgeryRecord>): seq<PaymentRow> {
    RowsOver(records, Roles)
  }

  function RowsOver(records: seq<SurgeryRecord>, roles: seq<Role>): seq<PaymentRow> {
    if roles == [] then [] else RoleRows(records, roles[0]) + RowsOver(records, roles[1..])
  }

  // ----- reference definitions -----

  /** Someone is named in `role` by at least one record. */
  predicate Named(records: seq<SurgeryRecord>, role: Role, name: string) {
    name != "" && exists r :: r in records && r.Staff(role) == name
  }

  /** The quantity `name`'s records in `role` add to column `key`. */
  function SumOf(records: seq<SurgeryRecord>, role: Role, name: string, key: string): int {
    if records == [] then 0
    else
      var r := records[|records| - 1];
      SumOf(records[..|records| - 1], role, name, key)
      + (if r.Staff(role) == name && Contributes(r, key) then r.soLuong else 0)
  }

  /** Some record of `name` in `role` adds to column `key`. */
  predicate Feeds(records: seq<SurgeryRecord>, role: Role, name: string, key: string) {
    exists r :: r in records && r.Staff(role) == name && Contributes(r, key)
  }

  lemma {:induction false} TallyNames(records: seq<SurgeryRecord>, role: Role)
    ensures forall n :: n in TallyRole(records, role).buckets <==> Named(records, role, n)
  {
    if records != [] {
      TallyNames(records[..|records| - 1], role);
      TallyLast(records, role);
      NamedLast(records, role);
    }
  }

  lemma NamedLast(records: seq<SurgeryRecord>, role: Role)
    requires records != []
    ensures var r := records[|records| - 1];
            forall n :: Named(records, role, n)
                        <==> Named(records[..|records| - 1], role, n) || (n != "" && r.Staff(role) == n)
  {
    var init, r := records[..|records| - 1], records[|records| - 1];
    InitLast(records);
    assert forall x :: x in records <==> x in init || x == r;
  }

  /** What the buckets hold for one person and one column after the last
      record, given what they held before it. */
  lemma LastRecordStep(records: seq<SurgeryRecord>, role: Role, n: string, key: string)
    requires records != []
    requires BucketsMatch(records[..|records| - 1], role, n, key)
    ensures BucketsMatch(records, role, n, key)
  {
    if n == "" {
      TallyNames(records, role);
    } else if records[|records| - 1].Staff(role) != n {
      LastRecordOfOther(records, role, n, key);
    } else {
      LastRecordOfOwn(records, role, n, key);
    }
  }

  /** `n`'s bucket, when there is one, holds column `key` exactly when one of
      `n`'s records feeds it, and then holds their sum. */
  predicate BucketsMatch(records: seq<SurgeryRecord>, role: Role, n: string, key: string) {
    var t := TallyRole(records, role);
    n in t.buckets ==>
      (key in t.buckets[n] <==> Feeds(records, role, n, key))
      && (key in t.buckets[n] ==> t.buckets[n][key] == SumOf(records, role, n, key))
  }

  /** A last record naming someone else leaves `n`'s bucket and sums alone. */
  lemma LastRecordOfOther(records: seq<SurgeryRecord>, role: Role, n: string, key: string)
    requires records != [] && records[|records| - 1].Staff(role) != n
    requires BucketsMatch(records[..|records| - 1], role, n, key)
    ensures BucketsMatch(records, role, n, key)
  {
    TallyLast(records, role);
    FeedsLast(records, role, n, key);
  }

  /** A last record naming `n` adds its quantity to `n`'s bucket. */
  lemma LastRecordOfOwn(records: seq<SurgeryRecord>, role: Role, n: string, key: string)
    requires records != [] && n != "" && records[|records| - 1].Staff(role) == n
    requires BucketsMatch(records[..|records| - 1], role, n, key)
    ensures BucketsMatch(records, role, n, key)
  {
    var init, r := records[..|records| - 1], records[|records| - 1];
    var b0 := TallyRole(init, role).buckets;
    var prior := if n in b0 then b0[n] else map[];
    var before := SumOf(init, role, n, key);
    PriorBucket(init, role, n, key);
    TallyLast(records, role);
    FeedsLast(records, role, n, key);
    BucketStep(prior, r, key, before);
  }

  /** The bucket `n` starts the last record from: the one kept so far, or an
      empty one. */
  lemma PriorBucket(init: seq<SurgeryRecord>, role: Role, n: string, key: string)
    requires n != "" && BucketsMatch(init, role, n, key)
    ensures var b0 := TallyRole(init, role).buckets;
            var prior := if n in b0 then b0[n] else map[];
            (key in prior ==> prior[key] == SumOf(init, role, n, key))
            && (key !in prior ==> SumOf(init, role, n, key) == 0)
            && (key in prior <==> Feeds(init, role, n, key))
  {
    var b0 := TallyRole(init, role).buckets;
    if n !in b0 {
      TallyNames(init, role);
      assert !Feeds(init, role, n, key);
    }
    var prior := if n in b0 then b0[n] else map[];
    if key !in prior {
      SumOfAbsent(init, role, n, key);
    }
  }

  /** The buckets after the last record, in terms of those before it. */
  lemma TallyLast(records: seq<SurgeryRecord>, role: Role)
    requires records != []
    ensures var r := records[|records| - 1];
            var name := r.Staff(role);
            var b0 := TallyRole(records[..|records| - 1], role).buckets;
            TallyRole(records, role).buckets
            == if name == "" then b0 else b0[name := AddRecord(if name in b0 then b0[name] else map[], r)]
  {
  }

  /** Adding one record to a bucket that held `before` under `key`. */
  lemma BucketStep(bucket: map<string, int>, r: SurgeryRecord, key: string, before: int)
    requires key in bucket ==> bucket[key] == before
    requires key !in bucket ==> before == 0
    ensures var b := AddRecord(bucket, r);
            (key in b <==> key in bucket || Contributes(r, key))
            && (key in b ==> b[key] == before + (if Contributes(r, key) then r.soLuong else 0))
  {
  }

  lemma FeedsLast(records: seq<SurgeryRecord>, role: Role, n: string, key: string)
    requires records != []
    ensures var r := records[|records| - 1];
            Feeds(records, role, n, key)
            <==> Feeds(records[..|records| - 1], role, n, key) || (r.Staff(role) == n && Contributes(r, key))
  {
    var init, r := records[..|records| - 1], records[|records| - 1];
    InitLast(records);
    assert forall x :: x in records <==> x in init || x == r;
  }

  lemma {:induction false} SumOfAbsent(records: seq<SurgeryRecord>, role: Role, n: string, key: string)
    requires !Feeds(records, role, n, key)
    ensures SumOf(records, role, n, key) == 0
  {
    if records != [] {
      assert forall x :: x in records[..|records| - 1] ==> x in records;
      SumOfAbsent(records[..|records| - 1], role, n, key);
    }
  }

  lemma {:induction false} TallyMatchesSums(records: seq<SurgeryRecord>, role: Role)
    ensures forall n, key :: BucketsMatch(records, role, n, key)
  {
    if records != [] {
      var init := records[..|records| - 1];
      TallyMatchesSums(init, role);
      forall n, key
        ensures BucketsMatch(records, role, n, key)
      {
        assert BucketsMatch(init, role, n, key);
        LastRecordStep(records, role, n, key);
      }
    }
  }

  /** Every row is one person named in that role, every person named in the
      role has a row (even one with no graded record, whose values are
      empty), and each column holds exactly the sum of that person's
      quantities for that grade. */
  lemma RoleRowsExact(records: seq<SurgeryRecord>, role: Role)
    ensures var rows := RoleRows(records, role);
            forall n :: (exists k :: 0 <= k < |rows| && rows[k].name == n) <==> Named(records, role, n)
    ensures var rows := RoleRows(records, role);
            forall i, j :: 0 <= i < j < |rows| ==> rows[i].name != rows[j].name
    ensures var rows := RoleRows(records, role);
            forall k, key :: 0 <= k < |rows| ==>
              rows[k].role == Label(role)
              && (key in rows[k].values <==> Feeds(records, role, rows[k].name, key))
              && (key in rows[k].values ==> rows[k].values[key] == SumOf(records, role, rows[k].name, key))
  {
    RoleRowsPeople(records, role);
    RoleRowsValues(records, role);
  }

  lemma RoleRowsPeople(records: seq<SurgeryRecord>, role: Role)
    ensures var rows := RoleRows(records, role);
            forall n :: (exists k :: 0 <= k < |rows| && rows[k].name == n) <==> Named(records, role, n)
    ensures var rows := RoleRows(records, role);
            forall i, j :: 0 <= i < j < |rows| ==> rows[i].name != rows[j].name
  {
    TallyNames(records, role);
    var t := TallyRole(records, role);
    var rows := RoleRows(records, role);
    forall n
      ensures (exists k :: 0 <= k < |rows| && rows[k].name == n) <==> Named(records, role, n)
    {
      if n in t.names {
        var k :| 0 <= k < |t.names| && t.names[k] == n;
        assert rows[k].name == n;
      }
    }
  }

  lemma RoleRowsValues(records: seq<SurgeryRecord>, role: Role)
    ensures var rows := RoleRows(records, role);
            forall k, key :: 0 <= k < |rows| ==>
              rows[k].role == Label(role)
              && (key in rows[k].values <==> Feeds(records, role, rows[k].name, key))
              && (key in rows[k].values ==> rows[k].values[key] == SumOf(records, role, rows[k].name, key))
  {
    TallyMatchesSums(records, role);
    var t := TallyRole(records, role);
    var rows := RoleRows(records, role);
    forall k, key | 0 <= k < |rows|
      ensures rows[k].role == Label(role)
              && (key in rows[k].values <==> Feeds(records, role, rows[k].name, key))
              && (key in rows[k].values ==> rows[k].values[key] == SumOf(records, role, rows[k].name, key))
    {
      assert rows[k] == PaymentRow(Label(role), t.names[k], t.buckets[t.names[k]]);
      assert BucketsMatch(records, role, t.names[k], key);
    }
  }

  /** People are listed in the order they first appear: the people of any
      prefix of the records come first, in the same order. */
  lemma {:induction false} NamesOnlyGrow(records: seq<SurgeryRecord>, role: Role, k: nat)
    requires k <= |records|
    ensures TallyRole(records[..k], role).names <= TallyRole(records, role).names
    decreases |records| - k
  {
    if k < |records| {
      var init := records[..|records| - 1];
      NamesOnlyGrow(init, role, k);
      assert init[..k] == records[..k];
    } else {
      assert records[..k] == records;
    }
  }

  lemma {:induction false} RowsOverRoles(records: seq<SurgeryRecord>, roles: seq<Role>, row: PaymentRow)
    ensures row in RowsOver(records, roles) <==> exists role :: role in roles && row in RoleRows(records, role)
  {
    if roles != [] {
      RowsOverRoles(records, roles[1..], row);
      assert forall role :: role in roles <==> role == roles[0] || role in roles[1..];
    }
  }

  /** A label's place in `ROLE_GROUPS`; 6 for a label that is none of them. */
  function LabelRank(tag: string): nat {
    if tag == Label(PtChinh) then 0
    else if tag == Label(PtPhu) then 1
    else if tag == Label(BsGM) then 2
    else if tag == Label(KtvGM) then 3
    else if tag == Label(Tdc) then 4
    else if tag == Label(Gv) then 5
    else 6
  }

  /** The six labels are distinct, so a label gives its role's place back. */
  lemma LabelRankOfRole(role: Role)
    ensures LabelRank(Label(role)) == RoleIndex(role)
  {
    assert Label(PtChinh)[4] == 'C' && Label(PtPhu)[4] == 'P' && Label(BsGM)[0] == 'B';
    assert Label(KtvGM)[0] == 'K' && Label(Tdc)[1] == 'Í' && Label(Gv)[0] == 'G';
  }

  /** The rows' places in `ROLE_GROUPS` lie in `lo` to 5 and never decrease. */
  predicate RanksFrom(rows: seq<PaymentRow>, lo: nat) {
    (forall k :: 0 <= k < |rows| ==> lo <= LabelRank(rows[k].role) < |Roles|)
    && (forall i, j :: 0 <= i < j < |rows| ==> LabelRank(rows[i].role) <= LabelRank(rows[j].role))
  }

  lemma RoleRowsRank(records: seq<SurgeryRecord>, role: Role)
    ensures RanksFrom(RoleRows(records, role), RoleIndex(role))
  {
    LabelRankOfRole(role);
    var rows := RoleRows(records, role);
    assert forall k :: 0 <= k < |rows| ==> rows[k].role == Label(role);
  }

  lemma RanksConcat(head: seq<PaymentRow>, tail: seq<PaymentRow>, m: nat)
    requires (forall k :: 0 <= k < |head| ==> LabelRank(head[k].role) == m) && m < |Roles|
    requires RanksFrom(tail, m + 1)
    ensures RanksFrom(head + tail, m)
  {
    var rows := head + tail;
    forall i, j | 0 <= i < j < |rows|
      ensures LabelRank(rows[i].role) <= LabelRank(rows[j].role)
    {
      if j < |head| {
        assert rows[i] == head[i] && rows[j] == head[j];
      } else if i < |head| {
        assert rows[i] == head[i] && rows[j] == tail[j - |head|];
      } else {
        assert rows[i] == tail[i - |head|] && rows[j] == tail[j - |head|];
      }
    }
    forall k | 0 <= k < |rows|
      ensures m <= LabelRank(rows[k].role) < |Roles|
    {
      if k < |head| {
        assert rows[k] == head[k];
      } else {
        assert rows[k] == tail[k - |head|];
      }
    }
  }

  lemma {:induction false} RowsOverGrouped(records: seq<SurgeryRecord>, m: nat)
    requires m <= |Roles|
    ensures RanksFrom(RowsOver(records, Roles[m..]), m)
    decreases |Roles| - m
  {
    if m < |Roles| {
      var role := Roles[m];
      assert Roles[m..][0] == role && Roles[m..][1..] == Roles[m + 1..];
      assert RoleIndex(role) == m;
      RowsOverGrouped(records, m + 1);
      RoleRowsRank(records, role);
      RanksConcat(RoleRows(records, role), RowsOver(records, Roles[m + 1..]), m);
    }
  }

  /** The rows come in `ROLE_GROUPS` blocks: every row carries one of the
      six labels, and no row's role comes later in the role order than the
      role of a row below it. */
  lemma PaymentRowsGrouped(records: seq<SurgeryRecord>)
    ensures var rows := CollectThanhToanData(records);
            forall k :: 0 <= k < |rows| ==> LabelRank(rows[k].role) < |Roles|
    ensures var rows := CollectThanhToanData(records);
            forall i, j :: 0 <= i < j < |rows| ==> LabelRank(rows[i].role) <= LabelRank(rows[j].role)
  {
    assert Roles[0..] == Roles;
    RowsOverGrouped(records, 0);
    assert CollectThanhToanData(records) == RowsOver(records, Roles[0..]);
  }

  /** The sheet holds exactly the rows of the six roles; a row carries its
      role's label. */
  lemma PaymentRowsExact(records: seq<SurgeryRecord>, row: PaymentRow)
    ensures row in CollectThanhToanData(records) <==> exists role :: row in RoleRows(records, role)
  {
    RowsOverRoles(records, Roles, row);
    forall role | row in RoleRows(records, role)
      ensures role in Roles
    {
      assert Roles[RoleIndex(role)] == role;
    }
  }
}
