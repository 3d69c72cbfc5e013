/** The double-booking detectors `detectStaffConflicts` and
    `detectMachineConflicts` (services/excelProcessor.ts:81-88, 364-462).

    Both follow one scheme. Every timed record claims some resources: a
    person in a role (`role|name`) or a machine code. The claims are grouped
    by resource, groups in the order their resource first appears. Each group
    is sorted by start time, and every pair of positions `i < j` whose
    intervals strictly overlap is reported. The scheme is modelled once, over
    claims; the two detectors differ only in the claims they make. */
module Conflicts {
  import opened Wrappers
  import opened Records
  import opened Seqs

  // ----- intervals -----

  /** `isOverlap`: two intervals overlap when each starts strictly before the
      other ends. */
  predicate IsOverlap(aStart: int, aEnd: int, bStart: int, bEnd: int) {
    aStart < bEnd && bStart < aEnd
  }

  /** Minute `t` lies in the half-open interval from `start` to `end`. */
  predicate Within(t: int, start: int, end: int) {
    start <= t < end
  }

  /** For any four numbers, proper intervals or not, the test is symmetric,
      and intervals that only touch (one ends when the other starts) do not
      overlap. */
  lemma OverlapSymmetricStrict(aStart: int, aEnd: int, bStart: int, bEnd: int)
    ensures IsOverlap(aStart, aEnd, bStart, bEnd) <==> IsOverlap(bStart, bEnd, aStart, aEnd)
    ensures aEnd == bStart ==> !IsOverlap(aStart, aEnd, bStart, bEnd)
    ensures bEnd == aStart ==> !IsOverlap(aStart, aEnd, bStart, bEnd)
  {
  }

  /** For proper intervals (each starting before it ends) the test means the
      intervals share a minute. */
  lemma OverlapMeansSharedMinute(aStart: int, aEnd: int, bStart: int, bEnd: int)
    requires aStart < aEnd && bStart < bEnd
    ensures IsOverlap(aStart, aEnd, bStart, bEnd) <==> exists t :: Within(t, aStart, aEnd) && Within(t, bStart, bEnd)
  {
    if IsOverlap(aStart, aEnd, bStart, bEnd) {
      var t := if aStart < bStart then bStart else aStart;
      assert Within(t, aStart, aEnd) && Within(t, bStart, bEnd);
    }
  }

  /** The test does not check that an interval is proper: a record whose end
      precedes its start can still be reported as overlapping one whose time
      it does not share. */
  lemma InvertedIntervalOverlaps()
    ensures IsOverlap(0, 10, 5, 3)
    ensures !exists t :: Within(t, 0, 10) && Within(t, 5, 3)
  {
  }

  /** Two records clash: both are timed and their intervals overlap (the
      re-check at 398-399 and 441-442). */
  predicate Overlaps(a: SurgeryRecord, b: SurgeryRecord) {
    a.Timed() && b.Timed() && IsOverlap(a.start.value, a.end.value, b.start.value, b.end.value)
  }

  // ----- claims -----

  /** What can be double-booked: a person in one role, or a machine. */
  datatype Resource = StaffSlot(role: Role, name: string) | MachineSlot(code: string)

  /** A record's use of a resource. */
  datatype Claim = Claim(resource: Resource, rec: SurgeryRecord)

  /** A reported clash: two records claiming the same resource, the earlier
      start first. */
  datatype Conflict = Conflict(resource: Resource, first: SurgeryRecord, second: SurgeryRecord)

  /** `addStaff`: a timed record claims the person it names in `role`. */
  function StaffClaim(rec: SurgeryRecord, role: Role): (cs: seq<Claim>)
    ensures |cs| <= 1
  {
    if rec.Staff(role) == "" || !rec.Timed() then [] else [Claim(StaffSlot(role, rec.Staff(role)), rec)]
  }

  /** The `addStaff` calls for one record, one per role in `roles`. */
  function StaffClaimsOver(rec: SurgeryRecord, roles: seq<Role>): seq<Claim> {
    if roles == [] then [] else StaffClaim(rec, roles[0]) + StaffClaimsOver(rec, roles[1..])
  }

  /** The six `addStaff` calls for one record, in role order (381-386). */
  function StaffClaimsOf(rec: SurgeryRecord): seq<Claim> {
    StaffClaimsOver(rec, Roles)
  }

  function StaffClaims(records: seq<SurgeryRecord>): seq<Claim> {
    if records == [] then [] else StaffClaimsOf(records[0]) + StaffClaims(records[1..])
  }

  /** A timed record with a machine code claims that machine (426-431). */
  function MachineClaims(records: seq<SurgeryRecord>): seq<Claim> {
    if records == [] then []
    else
      var rec := records[0];
      (if rec.machine == "" || !rec.Timed() then [] else [Claim(MachineSlot(rec.machine), rec)])
      + MachineClaims(records[1..])
  }

  // ----- grouping -----

  /** The records claiming `res`, in claim order: the list kept for `res` in
      the source's map. */
  function Group(claims: seq<Claim>, res: Resource): (g: seq<SurgeryRecord>)
    ensures |g| <= |claims|
  {
    if claims == [] then []
    else (if claims[0].resource == res then [claims[0].rec] else []) + Group(claims[1..], res)
  }

  lemma {:induction false} GroupConcat(a: seq<Claim>, b: seq<Claim>, res: Resource)
    ensures Group(a + b, res) == Group(a, res) + Group(b, res)
  {
    if a == [] {
      assert a + b == b;
    } else {
      var head := if a[0].resource == res then [a[0].rec] else [];
      assert (a + b)[0] == a[0];
      assert (a + b)[1..] == a[1..] + b;
      GroupConcat(a[1..], b, res);
      calc {
        Group(a + b, res);
        head + Group(a[1..] + b, res);
        head + (Group(a[1..], res) + Group(b, res));
        { SeqAssoc(head, Group(a[1..], res), Group(b, res)); }
        Group(a, res) + Group(b, res);
      }
    }
  }

  lemma {:induction false} GroupMembers(claims: seq<Claim>, res: Resource)
    ensures Group(claims, res) == [] <==> forall c :: c in claims ==> c.resource != res
    ensures forall r :: r in Group(claims, res) ==> Claim(res, r) in claims
  {
    if claims != [] {
      GroupMembers(claims[1..], res);
      assert forall c :: c in claims ==> c == claims[0] || c in claims[1..];
    }
  }

  /** The timed records that name `name` in `role`, in record order. */
  function NamedIn(records: seq<SurgeryRecord>, role: Role, name: string): (g: seq<SurgeryRecord>)
    ensures forall r :: r in g ==> r in records && r.Timed() && name != "" && r.Staff(role) == name
  {
    if records == [] then []
    else
      var rec := records[0];
      (if rec.Timed() && name != "" && rec.Staff(role) == name then [rec] else [])
      + NamedIn(records[1..], role, name)
  }

  /** The timed records on machine `code`, in record order. */
  function OnMachine(records: seq<SurgeryRecord>, code: string): (g: seq<SurgeryRecord>)
    ensures forall r :: r in g ==> r in records && r.Timed() && code != "" && r.machine == code
  {
    if records == [] then []
    else
      var rec := records[0];
      (if rec.Timed() && code != "" && rec.machine == code then [rec] else [])
      + OnMachine(records[1..], code)
  }

  lemma {:induction false} StaffClaimsOverGroup(rec: SurgeryRecord, roles: seq<Role>, role: Role, name: string)
    requires forall i, j :: 0 <= i < j < |roles| ==> roles[i] != roles[j]
    ensures Group(StaffClaimsOver(rec, roles), StaffSlot(role, name))
            == if role in roles && rec.Timed() && name != "" && rec.Staff(role) == name then [rec] else []
  {
    if roles != [] {
      GroupConcat(StaffClaim(rec, roles[0]), StaffClaimsOver(rec, roles[1..]), StaffSlot(role, name));
      StaffClaimsOverGroup(rec, roles[1..], role, name);
      assert role in roles <==> role == roles[0] || role in roles[1..];
      if role == roles[0] {
        assert role !in roles[1..];
      }
    }
  }

  lemma StaffClaimsOfGroup(rec: SurgeryRecord, role: Role, name: string)
    ensures Group(StaffClaimsOf(rec), StaffSlot(role, name))
            == if rec.Timed() && name != "" && rec.Staff(role) == name then [rec] else []
  {
    StaffClaimsOverGroup(rec, Roles, role, name);
    assert Roles[RoleIndex(role)] == role;
  }

  /** The `role|name` group is exactly the timed records naming that person
      in that role: what the person does in other roles plays no part. */
  lemma {:induction false} StaffGroup(records: seq<SurgeryRecord>, role: Role, name: string)
    ensures Group(StaffClaims(records), StaffSlot(role, name)) == NamedIn(records, role, name)
  {
    if records != [] {
      GroupConcat(StaffClaimsOf(records[0]), StaffClaims(records[1..]), StaffSlot(role, name));
      StaffClaimsOfGroup(records[0], role, name);
      StaffGroup(records[1..], role, name);
    }
  }

  /** A machine's group is exactly the timed records on that machine. */
  lemma {:induction false} MachineGroup(records: seq<SurgeryRecord>, code: string)
    ensures Group(MachineClaims(records), MachineSlot(code)) == OnMachine(records, code)
  {
    if records != [] {
      var rec := records[0];
      var head := if rec.machine == "" || !rec.Timed() then [] else [Claim(MachineSlot(rec.machine), rec)];
      GroupConcat(head, MachineClaims(records[1..]), MachineSlot(code));
      MachineGroup(records[1..], code);
    }
  }

  /** The resources in the order their first claim appears: the key order of
      the source's `Map`. */
  function Keys(claims: seq<Claim>): (ks: seq<Resource>)
    ensures forall i, j :: 0 <= i < j < |ks| ==> ks[i] != ks[j]
    ensures forall r :: r in ks <==> exists c :: c in claims && c.resource == r
  {
    if claims == [] then []
    else
      var init := claims[..|claims| - 1];
      var last := claims[|claims| - 1];
      assert forall c :: c in claims <==> c in init || c == last;
      var ks := Keys(init);
      if last.resource in ks then ks else ks + [last.resource]
  }

  /** Keys are only ever appended: the keys of any prefix of the claims are a
      prefix of the keys of all of them. */
  lemma {:induction false} KeysOnlyGrow(claims: seq<Claim>, k: nat)
    requires k <= |claims|
    ensures Keys(claims[..k]) <= Keys(claims)
    decreases |claims| - k
  {
    if k < |claims| {
      var init := claims[..|claims| - 1];
      assert claims[..|claims|] == claims;
      KeysOnlyGrow(init, k);
      assert init[..k] == claims[..k];
    } else {
      assert claims[..k] == claims;
    }
  }

  // ----- sorting by start -----

  /** The sort key `rec.start.getTime()`; every record in a group is timed. */
  function StartKey(rec: SurgeryRecord): int {
    rec.start.GetOr(0)
  }

  predicate SortedByStart(s: seq<SurgeryRecord>) {
    forall i, j :: 0 <= i < j < |s| ==> StartKey(s[i]) <= StartKey(s[j])
  }

  /** `x` placed after every element whose start is not later than its own. */
  function Insert(x: SurgeryRecord, s: seq<SurgeryRecord>): (r: seq<SurgeryRecord>)
    ensures multiset(r) == multiset(s) + multiset{x}
  {
    if s == [] then [x]
    else if StartKey(x) < StartKey(s[0]) then [x] + s
    else
      HeadTail(s);
      [s[0]] + Insert(x, s[1..])
  }

  lemma {:induction false} InsertSorted(x: SurgeryRecord, s: seq<SurgeryRecord>)
    requires SortedByStart(s)
    ensures SortedByStart(Insert(x, s))
  {
    if s != [] && StartKey(x) >= StartKey(s[0]) {
      var t := Insert(x, s[1..]);
      InsertSorted(x, s[1..]);
      forall k | 0 <= k < |t|
        ensures StartKey(s[0]) <= StartKey(t[k])
      {
        assert t[k] in multiset(t);
        assert t[k] == x || t[k] in multiset(s[1..]);
        if t[k] != x {
          var m :| 0 <= m < |s[1..]| && s[1..][m] == t[k];
          assert s[m + 1] == t[k];
        }
      }
    }
  }

  /** `list.sort` by start time: a stable sort, modelled as insertion sort. */
  function SortByStart(s: seq<SurgeryRecord>): (r: seq<SurgeryRecord>)
    ensures multiset(r) == multiset(s) && |r| == |s|
  {
    if s == [] then []
    else
      var x := s[|s| - 1];
      var init := SortByStart(s[..|s| - 1]);
      assert multiset(s) == multiset(s[..|s| - 1]) + multiset{x} by {
        assert s == s[..|s| - 1] + [x];
      }
      Insert(x, init)
  }

  /** The sort orders by start. */
  lemma {:induction false} SortSorts(s: seq<SurgeryRecord>)
    ensures SortedByStart(SortByStart(s))
  {
    if s != [] {
      SortSorts(s[..|s| - 1]);
      InsertSorted(s[|s| - 1], SortByStart(s[..|s| - 1]));
    }
  }

  /** The elements starting at minute `k`, in order. */
  function WithStart(s: seq<SurgeryRecord>, k: int): seq<SurgeryRecord> {
    if s == [] then []
    else (if StartKey(s[0]) == k then [s[0]] else []) + WithStart(s[1..], k)
  }

  lemma {:induction false} WithStartConcat(a: seq<SurgeryRecord>, b: seq<SurgeryRecord>, k: int)
    ensures WithStart(a + b, k) == WithStart(a, k) + WithStart(b, k)
  {
    if a == [] {
      assert a + b == b;
    } else {
      var head := if StartKey(a[0]) == k then [a[0]] else [];
      assert (a + b)[0] == a[0];
      assert (a + b)[1..] == a[1..] + b;
      WithStartConcat(a[1..], b, k);
      calc {
        WithStart(a + b, k);
        head + WithStart(a[1..] + b, k);
        head + (WithStart(a[1..], k) + WithStart(b, k));
        { SeqAssoc(head, WithStart(a[1..], k), WithStart(b, k)); }
        WithStart(a, k) + WithStart(b, k);
      }
    }
  }

  lemma {:induction false} WithStartOfLater(s: seq<SurgeryRecord>, k: int)
    requires forall i :: 0 <= i < |s| ==> StartKey(s[i]) > k
    ensures WithStart(s, k) == []
  {
    if s != [] {
      WithStartOfLater(s[1..], k);
    }
  }

  lemma {:induction false} InsertWithStart(x: SurgeryRecord, s: seq<SurgeryRecord>, k: int)
    requires SortedByStart(s)
    ensures WithStart(Insert(x, s), k) == WithStart(s, k) + (if StartKey(x) == k then [x] else [])
  {
    var tail := if StartKey(x) == k then [x] else [];
    if s == [] {
      WithStartCons(x, [], k);
      assert [x] + [] == [x];
    } else if StartKey(x) < StartKey(s[0]) {
      WithStartCons(x, s, k);
      if StartKey(x) == k {
        WithStartOfLater(s, k);
      }
    } else {
      var rest := Insert(x, s[1..]);
      var h := if StartKey(s[0]) == k then [s[0]] else [];
      assert SortedByStart(s[1..]);
      InsertWithStart(x, s[1..], k);
      WithStartCons(s[0], rest, k);
      WithStartCons(s[0], s[1..], k);
      HeadTail(s);
      SeqAssoc(h, WithStart(s[1..], k), tail);
    }
  }

  /** The filter of a sequence with a given first element. */
  lemma WithStartCons(y: SurgeryRecord, t: seq<SurgeryRecord>, k: int)
    ensures WithStart([y] + t, k) == (if StartKey(y) == k then [y] else []) + WithStart(t, k)
  {
    assert ([y] + t)[0] == y && ([y] + t)[1..] == t;
  }

  /** The sort is stable: records with the same start keep their order. */
  lemma {:induction false} SortIsStable(s: seq<SurgeryRecord>, k: int)
    ensures WithStart(SortByStart(s), k) == WithStart(s, k)
  {
    if s != [] {
      var init, x := s[..|s| - 1], s[|s| - 1];
      assert WithStart(SortByStart(s), k) == WithStart(init, k) + WithStart([x], k) by {
        SortIsStable(init, k);
        SortSorts(init);
        InsertWithStart(x, SortByStart(init), k);
      }
      assert WithStart(s, k) == WithStart(init, k) + WithStart([x], k) by {
        InitLast(s);
        WithStartConcat(init, [x], k);
      }
    }
  }

  // ----- pairing -----

  /** The index pairs the double loop visits, from `(i, j)` on, in loop order. */
  function PairsFrom(i: nat, j: nat, n: nat): (ps: seq<(nat, nat)>)
    requires i < j <= n
    ensures forall k :: 0 <= k < |ps| ==> ps[k].0 < ps[k].1 < n
    decreases n - i, n - j
  {
    if j < n then [(i, j)] + PairsFrom(i, j + 1, n)
    else if i + 2 < n + 1 && i + 2 <= n then PairsFrom(i + 1, i + 2, n)
    else []
  }

  /** `for i < n, for j in i+1 .. n - 1`: every pair of positions. */
  function IndexPairs(n: nat): (ps: seq<(nat, nat)>)
    ensures forall k :: 0 <= k < |ps| ==> ps[k].0 < ps[k].1 < n
  {
    if n < 2 then [] else PairsFrom(0, 1, n)
  }

  lemma {:induction false} PairsFromMembers(i: nat, j: nat, n: nat, p: nat, q: nat)
    requires i < j <= n
    ensures (p, q) in PairsFrom(i, j, n) <==> (p == i && j <= q < n) || (i < p < q < n)
    decreases n - i, n - j
  {
    if j < n {
      var rest := PairsFrom(i, j + 1, n);
      assert PairsFrom(i, j, n) == [(i, j)] + rest;
      assert (p, q) in [(i, j)] + rest <==> (p, q) == (i, j) || (p, q) in rest;
      PairsFromMembers(i, j + 1, n, p, q);
    } else if i + 2 <= n {
      PairsFromMembers(i + 1, i + 2, n, p, q);
    }
  }

  /** Lexicographic order of index pairs. */
  predicate Before(a: (nat, nat), b: (nat, nat)) {
    a.0 < b.0 || (a.0 == b.0 && a.1 < b.1)
  }

  lemma {:induction false} PairsFromIncreasing(i: nat, j: nat, n: nat)
    requires i < j <= n
    ensures forall x, y :: 0 <= x < y < |PairsFrom(i, j, n)| ==> Before(PairsFrom(i, j, n)[x], PairsFrom(i, j, n)[y])
    decreases n - i, n - j
  {
    var ps := PairsFrom(i, j, n);
    if j < n {
      var tail := PairsFrom(i, j + 1, n);
      PairsFromIncreasing(i, j + 1, n);
      forall y | 0 <= y < |tail|
        ensures Before((i, j), tail[y])
      {
        PairsFromMembers(i, j + 1, n, tail[y].0, tail[y].1);
      }
      assert ps == [(i, j)] + tail;
    } else if i + 2 <= n {
      PairsFromIncreasing(i + 1, i + 2, n);
    }
  }

  lemma Triangle(m: int)
    requires m >= 0
    ensures (m + 1) * m / 2 == m + m * (m - 1) / 2
  {
    assert (m + 1) * m == 2 * m + m * (m - 1);
  }

  lemma {:induction false} PairsFromCount(i: nat, j: nat, n: nat)
    requires i < j <= n
    ensures |PairsFrom(i, j, n)| == (n - j) + (n - 1 - i) * (n - 2 - i) / 2
    decreases n - i, n - j
  {
    var m: int := n - 2 - i;
    if j < n {
      PairsFromCount(i, j + 1, n);
    } else if i + 2 <= n {
      PairsFromCount(i + 1, i + 2, n);
      assert |PairsFrom(i, j, n)| == m + m * (m - 1) / 2;
      Triangle(m);
      assert n - 1 - i == m + 1;
    } else {
      assert n - 1 - i == 0;
    }
  }

  /** The double loop visits every pair `i < j` of `n` positions, each once,
      in order: `n(n-1)/2` comparisons. */
  lemma IndexPairsExact(n: nat)
    ensures forall p: nat, q: nat :: (p, q) in IndexPairs(n) <==> p < q < n
    ensures forall x, y :: 0 <= x < y < |IndexPairs(n)| ==> Before(IndexPairs(n)[x], IndexPairs(n)[y])
    ensures |IndexPairs(n)| == n * (n - 1) / 2
  {
    if n >= 2 {
      forall p: nat, q: nat
        ensures (p, q) in IndexPairs(n) <==> p < q < n
      {
        PairsFromMembers(0, 1, n, p, q);
      }
      PairsFromIncreasing(0, 1, n);
      PairsFromCount(0, 1, n);
    } else {
      assert n * (n - 1) == 0;
    }
  }

  /** The conflicts the double loop reports for the visited pairs `ps`. */
  function Emit(res: Resource, s: seq<SurgeryRecord>, ps: seq<(nat, nat)>): seq<Conflict>
    requires forall k :: 0 <= k < |ps| ==> ps[k].0 < |s| && ps[k].1 < |s|
  {
    if ps == [] then []
    else
      var a, b := s[ps[0].0], s[ps[0].1];
      (if Overlaps(a, b) then [Conflict(res, a, b)] else []) + Emit(res, s, ps[1..])
  }

  /** The conflicts of one sorted group. */
  function GroupConflicts(res: Resource, s: seq<SurgeryRecord>): seq<Conflict> {
    Emit(res, s, IndexPairs(|s|))
  }

  lemma {:induction false} EmitMembers(res: Resource, s: seq<SurgeryRecord>, ps: seq<(nat, nat)>, c: Conflict)
    requires forall k :: 0 <= k < |ps| ==> ps[k].0 < |s| && ps[k].1 < |s|
    ensures c in Emit(res, s, ps) <==>
              exists k :: 0 <= k < |ps| && Overlaps(s[ps[k].0], s[ps[k].1]) && c == Conflict(res, s[ps[k].0], s[ps[k].1])
  {
    if ps != [] {
      EmitMembers(res, s, ps[1..], c);
      if c in Emit(res, s, ps[1..]) {
        var k :| 0 <= k < |ps[1..]| && Overlaps(s[ps[1..][k].0], s[ps[1..][k].1])
                 && c == Conflict(res, s[ps[1..][k].0], s[ps[1..][k].1]);
        assert ps[1..][k] == ps[k + 1];
      }
      if exists k :: 0 <= k < |ps| && Overlaps(s[ps[k].0], s[ps[k].1]) && c == Conflict(res, s[ps[k].0], s[ps[k].1]) {
        var k :| 0 <= k < |ps| && Overlaps(s[ps[k].0], s[ps[k].1]) && c == Conflict(res, s[ps[k].0], s[ps[k].1]);
        if k > 0 {
          assert ps[1..][k - 1] == ps[k];
        }
      }
    }
  }

  lemma GroupConflictsSound(res: Resource, s: seq<SurgeryRecord>, c: Conflict)
    requires c in GroupConflicts(res, s)
    ensures exists i, j :: 0 <= i < j < |s| && Overlaps(s[i], s[j]) && c == Conflict(res, s[i], s[j])
  {
    var ps := IndexPairs(|s|);
    EmitMembers(res, s, ps, c);
    var k :| 0 <= k < |ps| && Overlaps(s[ps[k].0], s[ps[k].1]) && c == Conflict(res, s[ps[k].0], s[ps[k].1]);
    var i, j := ps[k].0, ps[k].1;
    assert 0 <= i < j < |s| && Overlaps(s[i], s[j]) && c == Conflict(res, s[i], s[j]);
  }

  lemma GroupConflictsComplete(res: Resource, s: seq<SurgeryRecord>, i: nat, j: nat)
    requires i < j < |s| && Overlaps(s[i], s[j])
    ensures Conflict(res, s[i], s[j]) in GroupConflicts(res, s)
  {
    var ps := IndexPairs(|s|);
    IndexPairsExact(|s|);
    assert (i, j) in ps;
    var k :| 0 <= k < |ps| && ps[k] == (i, j);
    EmitMembers(res, s, ps, Conflict(res, s[i], s[j]));
  }

  /** Sound and complete: a group reports exactly the overlapping pairs of
      positions `i < j`. */
  lemma GroupConflictsExact(res: Resource, s: seq<SurgeryRecord>, c: Conflict)
    ensures c in GroupConflicts(res, s) <==>
              exists i, j :: 0 <= i < j < |s| && Overlaps(s[i], s[j]) && c == Conflict(res, s[i], s[j])
  {
    if c in GroupConflicts(res, s) {
      GroupConflictsSound(res, s, c);
    }
    if exists i, j :: 0 <= i < j < |s| && Overlaps(s[i], s[j]) && c == Conflict(res, s[i], s[j]) {
      var i, j :| 0 <= i < j < |s| && Overlaps(s[i], s[j]) && c == Conflict(res, s[i], s[j]);
      GroupConflictsComplete(res, s, i, j);
    }
  }

  lemma {:induction false} EmitAll(res: Resource, s: seq<SurgeryRecord>, ps: seq<(nat, nat)>)
    requires forall k :: 0 <= k < |ps| ==> ps[k].0 < |s| && ps[k].1 < |s|
    requires forall k :: 0 <= k < |ps| ==> Overlaps(s[ps[k].0], s[ps[k].1])
    ensures |Emit(res, s, ps)| == |ps|
  {
    if ps != [] {
      EmitAll(res, s, ps[1..]);
    }
  }

  /** A group of `k` mutually overlapping records reports `k(k-1)/2`
      conflicts: each pair exactly once. */
  lemma MutualOverlapCount(res: Resource, s: seq<SurgeryRecord>)
    requires forall i, j :: 0 <= i < j < |s| ==> Overlaps(s[i], s[j])
    ensures |GroupConflicts(res, s)| == |s| * (|s| - 1) / 2
  {
    IndexPairsExact(|s|);
    EmitAll(res, s, IndexPairs(|s|));
  }

  /** Groups with fewer than two records report nothing. */
  lemma SmallGroupQuiet(res: Resource, s: seq<SurgeryRecord>)
    requires |s| <= 1
    ensures GroupConflicts(res, s) == []
  {
  }

  // ----- the detector -----

  function ConflictsOver(claims: seq<Claim>, ks: seq<Resource>): seq<Conflict> {
    if ks == [] then []
    else GroupConflicts(ks[0], SortByStart(Group(claims, ks[0]))) + ConflictsOver(claims, ks[1..])
  }

  /** Groups in first-appearance order, each sorted, each paired. */
  function Detect(claims: seq<Claim>): seq<Conflict> {
    ConflictsOver(claims, Keys(claims))
  }

  /** The conflicts reported on resource `res`, in order. */
  function On(cs: seq<Conflict>, res: Resource): (r: seq<Conflict>)
    ensures forall c :: c in r <==> c in cs && c.resource == res
  {
    if cs == [] then []
    else (if cs[0].resource == res then [cs[0]] else []) + On(cs[1..], res)
  }

  lemma {:induction false} OnConcat(a: seq<Conflict>, b: seq<Conflict>, res: Resource)
    ensures On(a + b, res) == On(a, res) + On(b, res)
  {
    if a == [] {
      assert a + b == b;
    } else {
      var head := if a[0].resource == res then [a[0]] else [];
      assert (a + b)[0] == a[0];
      assert (a + b)[1..] == a[1..] + b;
      OnConcat(a[1..], b, res);
      calc {
        On(a + b, res);
        head + On(a[1..] + b, res);
        head + (On(a[1..], res) + On(b, res));
        { SeqAssoc(head, On(a[1..], res), On(b, res)); }
        On(a, res) + On(b, res);
      }
    }
  }

  lemma {:induction false} EmitOn(res: Resource, s: seq<SurgeryRecord>, ps: seq<(nat, nat)>, other: Resource)
    requires forall k :: 0 <= k < |ps| ==> ps[k].0 < |s| && ps[k].1 < |s|
    ensures On(Emit(res, s, ps), other) == if res == other then Emit(res, s, ps) else []
  {
    if ps != [] {
      var a, b := s[ps[0].0], s[ps[0].1];
      var head := if Overlaps(a, b) then [Conflict(res, a, b)] else [];
      OnConcat(head, Emit(res, s, ps[1..]), other);
      EmitOn(res, s, ps[1..], other);
    }
  }

  lemma {:induction false} ConflictsOverOn(claims: seq<Claim>, ks: seq<Resource>, res: Resource)
    requires forall i, j :: 0 <= i < j < |ks| ==> ks[i] != ks[j]
    ensures On(ConflictsOver(claims, ks), res)
            == if res in ks then GroupConflicts(res, SortByStart(Group(claims, res))) else []
  {
    if ks != [] {
      var g := SortByStart(Group(claims, ks[0]));
      OnConcat(GroupConflicts(ks[0], g), ConflictsOver(claims, ks[1..]), res);
      EmitOn(ks[0], g, IndexPairs(|g|), res);
      ConflictsOverOn(claims, ks[1..], res);
      assert res in ks <==> res == ks[0] || res in ks[1..];
      if res == ks[0] {
        assert res !in ks[1..];
      }
    }
  }

  /** The conflicts on one resource are exactly those of its own group,
      sorted: no other resource's claims play a part. */
  lemma DetectOn(claims: seq<Claim>, res: Resource)
    ensures On(Detect(claims), res) == GroupConflicts(res, SortByStart(Group(claims, res)))
  {
    ConflictsOverOn(claims, Keys(claims), res);
    GroupMembers(claims, res);
    if res !in Keys(claims) {
      assert Group(claims, res) == [];
    }
  }

  /** Every reported conflict pairs two positions `i < j` of its resource's
      sorted group whose intervals overlap; the first starts no later than
      the second. */
  lemma DetectSound(claims: seq<Claim>, c: Conflict)
    requires c in Detect(claims)
    ensures var s := SortByStart(Group(claims, c.resource));
            exists i, j :: 0 <= i < j < |s| && Overlaps(s[i], s[j]) && c == Conflict(c.resource, s[i], s[j])
    ensures Overlaps(c.first, c.second) && c.first.start.value <= c.second.start.value
    ensures Claim(c.resource, c.first) in claims && Claim(c.resource, c.second) in claims
  {
    var s := SortByStart(Group(claims, c.resource));
    DetectOn(claims, c.resource);
    assert c in On(Detect(claims), c.resource);
    GroupConflictsExact(c.resource, s, c);
    var i, j :| 0 <= i < j < |s| && Overlaps(s[i], s[j]) && c == Conflict(c.resource, s[i], s[j]);
    GroupMembers(claims, c.resource);
    SortSorts(Group(claims, c.resource));
    assert s[i] in multiset(s) && s[j] in multiset(s);
  }

  /** Every overlapping pair of positions `i < j` of a sorted group is
      reported. */
  lemma DetectComplete(claims: seq<Claim>, res: Resource, i: nat, j: nat)
    requires var s := SortByStart(Group(claims, res)); i < j < |s| && Overlaps(s[i], s[j])
    ensures var s := SortByStart(Group(claims, res)); Conflict(res, s[i], s[j]) in Detect(claims)
  {
    var s := SortByStart(Group(claims, res));
    GroupConflictsExact(res, s, Conflict(res, s[i], s[j]));
    DetectOn(claims, res);
  }

  // ----- the two detectors -----

  /** `detectStaffConflicts`. */
  function DetectStaffConflicts(records: seq<SurgeryRecord>): seq<Conflict> {
    Detect(StaffClaims(records))
  }

  /** `detectMachineConflicts`. */
  function DetectMachineConflicts(records: seq<SurgeryRecord>): seq<Conflict> {
    Detect(MachineClaims(records))
  }

  /** The conflicts of one person in one role are those among the timed
      records naming that person in that role, sorted by start; the person's
      records in any other role are never paired with them. */
  lemma StaffConflictsOfPerson(records: seq<SurgeryRecord>, role: Role, name: string)
    ensures On(DetectStaffConflicts(records), StaffSlot(role, name))
            == GroupConflicts(StaffSlot(role, name), SortByStart(NamedIn(records, role, name)))
  {
    DetectOn(StaffClaims(records), StaffSlot(role, name));
    StaffGroup(records, role, name);
  }

  /** The conflicts of one machine are those among the timed records on it,
      sorted by start. */
  lemma MachineConflictsOfMachine(records: seq<SurgeryRecord>, code: string)
    ensures On(DetectMachineConflicts(records), MachineSlot(code))
            == GroupConflicts(MachineSlot(code), SortByStart(OnMachine(records, code)))
  {
    DetectOn(MachineClaims(records), MachineSlot(code));
    MachineGroup(records, code);
  }

  lemma {:induction false} StaffClaimsMembers(records: seq<SurgeryRecord>, cl: Claim)
    requires cl in StaffClaims(records)
    ensures cl.resource.StaffSlot? && cl.rec in records && cl.rec.Timed()
    ensures cl.resource.name != "" && cl.rec.Staff(cl.resource.role) == cl.resource.name
  {
    if cl in StaffClaimsOf(records[0]) {
      StaffClaimsOverMembers(records[0], Roles, cl);
    } else {
      StaffClaimsMembers(records[1..], cl);
    }
  }

  lemma {:induction false} StaffClaimsOverMembers(rec: SurgeryRecord, roles: seq<Role>, cl: Claim)
    requires cl in StaffClaimsOver(rec, roles)
    ensures cl.resource.StaffSlot? && cl.rec == rec && rec.Timed()
    ensures cl.resource.name != "" && rec.Staff(cl.resource.role) == cl.resource.name
  {
    if cl !in StaffClaim(rec, roles[0]) {
      StaffClaimsOverMembers(rec, roles[1..], cl);
    }
  }

  lemma {:induction false} MachineClaimsMembers(records: seq<SurgeryRecord>, cl: Claim)
    requires cl in MachineClaims(records)
    ensures cl.resource.MachineSlot? && cl.rec in records && cl.rec.Timed()
    ensures cl.resource.code != "" && cl.rec.machine == cl.resource.code
  {
    var rec := records[0];
    if !(rec.machine != "" && rec.Timed() && cl == Claim(MachineSlot(rec.machine), rec)) {
      MachineClaimsMembers(records[1..], cl);
    }
  }

  /** A staff conflict names one person in one role in both of its records,
      both records are timed and overlap, and the first starts first. */
  lemma StaffConflictSound(records: seq<SurgeryRecord>, c: Conflict)
    requires c in DetectStaffConflicts(records)
    ensures c.resource.StaffSlot? && c.resource.name != ""
    ensures c.first in records && c.second in records
    ensures c.first.Staff(c.resource.role) == c.resource.name == c.second.Staff(c.resource.role)
    ensures Overlaps(c.first, c.second) && c.first.start.value <= c.second.start.value
  {
    DetectSound(StaffClaims(records), c);
    StaffClaimsMembers(records, Claim(c.resource, c.first));
    StaffClaimsMembers(records, Claim(c.resource, c.second));
  }

  /** A machine conflict names one non-empty machine code in both records;
      records without a machine or without times never appear. */
  lemma MachineConflictSound(records: seq<SurgeryRecord>, c: Conflict)
    requires c in DetectMachineConflicts(records)
    ensures c.resource.MachineSlot? && c.resource.code != ""
    ensures c.first in records && c.second in records
    ensures c.first.machine == c.resource.code == c.second.machine
    ensures Overlaps(c.first, c.second) && c.first.start.value <= c.second.start.value
  {
    DetectSound(MachineClaims(records), c);
    MachineClaimsMembers(records, Claim(c.resource, c.first));
    MachineClaimsMembers(records, Claim(c.resource, c.second));
  }

  /** A person named in a role by at most one timed record is never reported
      in that role, however their records in other roles overlap it. */
  lemma LonePersonInRoleQuiet(records: seq<SurgeryRecord>, role: Role, name: string)
    requires |NamedIn(records, role, name)| <= 1
    ensures On(DetectStaffConflicts(records), StaffSlot(role, name)) == []
  {
    StaffConflictsOfPerson(records, role, name);
  }
}
