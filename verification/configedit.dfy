/** The editing handlers of the settings screen
    (components/ConfigurationTab.tsx): the price and time cells, the list of
    procedure names exempt from the machine check, and the digit filter of
    the number cells. */
module ConfigEditor {
  import opened Wrappers
  import opened Text
  import opened Configuration
  import opened Seqs

  // ----- reading a cell -----

  /** `getPrice` (92): the price of `role` for `loai`, 0 when either is missing. */
  function GetPrice(c: AppConfig, loai: string, role: PayRole): (v: int)
    ensures loai !in c.priceConfig || role !in c.priceConfig[loai] ==> v == 0
    ensures loai in c.priceConfig && role in c.priceConfig[loai] ==> v == c.priceConfig[loai][role]
  {
    if loai in c.priceConfig && role in c.priceConfig[loai] then c.priceConfig[loai][role] else 0
  }

  /** `getTime` (93): the bound `field` of `loai`, 0 when either is missing. */
  function GetTime(c: AppConfig, loai: string, field: Bound): (v: int)
    ensures loai !in c.timeRules || field !in c.timeRules[loai] ==> v == 0
    ensures loai in c.timeRules && field in c.timeRules[loai] ==> v == c.timeRules[loai][field]
  {
    if loai in c.timeRules && field in c.timeRules[loai] then c.timeRules[loai][field] else 0
  }

  /** Once the settings cover the defaults (as loading guarantees), no
      cell of a default type falls back to 0: each shows its stored value,
      and on the defaults themselves each shows the default table's entry. */
  lemma CellsShowSettings(c: AppConfig, loai: string, role: PayRole, field: Bound)
    ensures Covers(c) && loai in DefaultPrices ==> GetPrice(c, loai, role) == c.priceConfig[loai][role]
    ensures Covers(c) && loai in DefaultTimes ==> GetTime(c, loai, field) == c.timeRules[loai][field]
    ensures loai in DefaultPrices ==> GetPrice(DefaultConfig, loai, role) == DefaultPrices[loai][role]
    ensures loai in DefaultTimes ==> GetTime(DefaultConfig, loai, field) == DefaultTimes[loai][field]
  {
    DefaultTablesAgree();
  }

  // ----- editing a cell -----

  /** `handlePriceChange` (57-67): the entry of `loai`, or `{}` when there is
      none, with `role` set to `val`, passed to `updateConfig`. */
  function HandlePriceChange(c: AppConfig, loai: string, role: PayRole, val: int): AppConfig {
    var entry := if loai in c.priceConfig then c.priceConfig[loai] else map[];
    UpdateConfig(c, NoChange.(priceConfig := Some(c.priceConfig[loai := entry[role := val]])))
  }

  /** `handleTimeChange` (69-79). */
  function HandleTimeChange(c: AppConfig, loai: string, field: Bound, val: int): AppConfig {
    var entry := if loai in c.timeRules then c.timeRules[loai] else map[];
    UpdateConfig(c, NoChange.(timeRules := Some(c.timeRules[loai := entry[field := val]])))
  }

  /** A price edit reads back as the value written; every other price cell,
      the time table, the role order and the exempt list are unchanged, and
      no type or role is lost. */
  lemma PriceChangeExact(c: AppConfig, loai: string, role: PayRole, val: int)
    ensures var d := HandlePriceChange(c, loai, role, val);
            GetPrice(d, loai, role) == val
            && (forall l, r :: (l, r) != (loai, role) ==> GetPrice(d, l, r) == GetPrice(c, l, r))
            && d.timeRules == c.timeRules && d.roleOrder == c.roleOrder && d.ignoredNames == c.ignoredNames
            && d.priceConfig.Keys == c.priceConfig.Keys + {loai}
            && (forall l :: l in c.priceConfig ==> c.priceConfig[l].Keys <= d.priceConfig[l].Keys)
  {
  }

  /** A time edit reads back as the value written and changes nothing else. */
  lemma TimeChangeExact(c: AppConfig, loai: string, field: Bound, val: int)
    ensures var d := HandleTimeChange(c, loai, field, val);
            GetTime(d, loai, field) == val
            && (forall l, f :: (l, f) != (loai, field) ==> GetTime(d, l, f) == GetTime(c, l, f))
            && d.priceConfig == c.priceConfig && d.roleOrder == c.roleOrder && d.ignoredNames == c.ignoredNames
            && d.timeRules.Keys == c.timeRules.Keys + {loai}
            && (forall l :: l in c.timeRules ==> c.timeRules[l].Keys <= d.timeRules[l].Keys)
  {
  }

  /** Edits keep the tables covering the defaults, so edited settings survive
      a save and a reload. */
  lemma EditsKeepCover(c: AppConfig, loai: string, role: PayRole, field: Bound, val: int)
    requires Covers(c)
    ensures Covers(HandlePriceChange(c, loai, role, val)) && Covers(HandleTimeChange(c, loai, field, val))
  {
    PriceChangeExact(c, loai, role, val);
    TimeChangeExact(c, loai, field, val);
  }

  // ----- the exempt list -----

  /** `handleAddMachineName` (81-86): the trimmed name is appended and the
      input cleared when it is not blank and not listed yet; otherwise
      nothing changes. Returns the settings and the input box's text. */
  function AddIgnored(c: AppConfig, input: string): (AppConfig, string) {
    var name := Trim(input);
    if name != "" && name !in c.ignoredNames then
      (UpdateConfig(c, NoChange.(ignoredNames := Some(c.ignoredNames + [name]))), "")
    else (c, input)
  }

  /** No name listed twice. */
  predicate Distinct(names: seq<string>) {
    forall i, j :: 0 <= i < j < |names| ==> names[i] != names[j]
  }

  /** Adding appends exactly the trimmed name when it is new and not blank,
      and changes nothing otherwise; it never lists a name twice and only
      touches the exempt list. */
  lemma AddIgnoredExact(c: AppConfig, input: string)
    ensures var (d, box) := AddIgnored(c, input);
            var name := Trim(input);
            (name != "" && name !in c.ignoredNames ==> d.ignoredNames == c.ignoredNames + [name] && box == "")
            && (name == "" || name in c.ignoredNames ==> d == c && box == input)
            && d.priceConfig == c.priceConfig && d.timeRules == c.timeRules && d.roleOrder == c.roleOrder
    ensures Distinct(c.ignoredNames) ==> Distinct(AddIgnored(c, input).0.ignoredNames)
  {
  }

  /** The list without `name`, the rest in order (277-279). */
  function Without(names: seq<string>, name: string): (rest: seq<string>)
    ensures forall n :: n in rest <==> n in names && n != name
    ensures |rest| <= |names|
  {
    if names == [] then []
    else
      assert forall n :: n in names <==> n == names[0] || n in names[1..];
      (if names[0] == name then [] else [names[0]]) + Without(names[1..], name)
  }

  /** The delete button of a listed name. */
  function RemoveIgnored(c: AppConfig, name: string): AppConfig {
    UpdateConfig(c, NoChange.(ignoredNames := Some(Without(c.ignoredNames, name))))
  }

  /** Removing keeps the order of the names left: the filter of a list made
      of two parts is the filters of the parts. */
  lemma {:induction false} WithoutConcat(a: seq<string>, b: seq<string>, name: string)
    ensures Without(a + b, name) == Without(a, name) + Without(b, name)
  {
    if a == [] {
      assert a + b == b;
    } else {
      var head := if a[0] == name then [] else [a[0]];
      assert (a + b)[0] == a[0];
      assert (a + b)[1..] == a[1..] + b;
      WithoutConcat(a[1..], b, name);
      calc {
        Without(a + b, name);
        head + Without(a[1..] + b, name);
        head + (Without(a[1..], name) + Without(b, name));
        { SeqAssoc(head, Without(a[1..], name), Without(b, name)); }
        Without(a, name) + Without(b, name);
      }
    }
  }

  /** Removing a name that is not listed changes nothing. */
  lemma {:induction false} WithoutAbsent(names: seq<string>, name: string)
    requires name !in names
    ensures Without(names, name) == names
  {
    if names != [] {
      WithoutAbsent(names[1..], name);
      assert names == [names[0]] + names[1..];
    }
  }

  /** Removing a name keeps the list free of repeats. */
  lemma {:induction false} WithoutDistinct(names: seq<string>, name: string)
    requires Distinct(names)
    ensures Distinct(Without(names, name))
  {
    if names != [] {
      WithoutDistinct(names[1..], name);
      var rest := Without(names[1..], name);
      assert names[0] !in names[1..];
      assert names[0] !in rest;
    }
  }

  /** Removing a name deletes it, keeps the others and their order, and is
      the inverse of adding it: adding a new name and removing it again
      gives the settings back. */
  lemma RemoveIgnoredExact(c: AppConfig, input: string, name: string)
    ensures var d := RemoveIgnored(c, name);
            name !in d.ignoredNames
            && (forall n :: n in d.ignoredNames <==> n in c.ignoredNames && n != name)
            && d.priceConfig == c.priceConfig && d.timeRules == c.timeRules && d.roleOrder == c.roleOrder
    ensures Distinct(c.ignoredNames) ==> Distinct(RemoveIgnored(c, name).ignoredNames)
    ensures Trim(input) != "" && Trim(input) !in c.ignoredNames ==>
              RemoveIgnored(AddIgnored(c, input).0, Trim(input)) == c
  {
    if Distinct(c.ignoredNames) {
      WithoutDistinct(c.ignoredNames, name);
    }
    var t := Trim(input);
    if t != "" && t !in c.ignoredNames {
      WithoutConcat(c.ignoredNames, [t], t);
      WithoutAbsent(c.ignoredNames, t);
      assert Without([t], t) == [] by {
        assert [t][1..] == [];
      }
      assert c.ignoredNames + [] == c.ignoredNames;
    }
  }

  // ----- the number cells -----

  /** The text with every comma removed. */
  function StripCommas(text: string): (r: string)
    ensures ',' !in r
    ensures |r| <= |text|
  {
    if text == [] then []
    else (if text[0] == ',' then [] else [text[0]]) + StripCommas(text[1..])
  }

  /** The `onChange` of a number cell (37-44): after removing commas the text
      must be digits only; the cell then reports its number, which is 0 for the empty text. Any other text is refused and nothing
      changes. */
  function AcceptEdit(text: string): (r: Option<nat>)
    ensures r.Some? <==> AllDigits(StripCommas(text))
    ensures r.Some? ==> r.value == Value(StripCommas(text))
  {
    var raw := StripCommas(text);
    if AllDigits(raw) then Some(Value(raw)) else None
  }

  /** Commas do not matter to the filter. */
  lemma {:induction false} StripCommasConcat(a: string, b: string)
    ensures StripCommas(a + b) == StripCommas(a) + StripCommas(b)
  {
    if a == [] {
      assert a + b == b;
    } else {
      var head := if a[0] == ',' then [] else [a[0]];
      assert (a + b)[0] == a[0];
      assert (a + b)[1..] == a[1..] + b;
      StripCommasConcat(a[1..], b);
      calc {
        StripCommas(a + b);
        head + StripCommas(a[1..] + b);
        head + (StripCommas(a[1..]) + StripCommas(b));
        { SeqAssoc(head, StripCommas(a[1..]), StripCommas(b)); }
        StripCommas(a) + StripCommas(b);
      }
    }
  }

  /** Digits lose nothing to the filter. */
  lemma {:induction false} StripCommasOfDigits(s: string)
    requires AllDigits(s)
    ensures StripCommas(s) == s
  {
    if s != [] {
      StripCommasOfDigits(s[1..]);
      assert s == [s[0]] + s[1..];
    }
  }

  /** A blank cell counts as 0. */
  lemma EmptyEditIsZero()
    ensures AcceptEdit("") == Some(0)
  {
  }

  /** A minus sign or a point is refused: a cell never becomes negative or
      fractional. */
  lemma SignRefused(text: string)
    requires '-' in text || '.' in text
    ensures AcceptEdit(text) == None
  {
    var k :| 0 <= k < |text| && (text[k] == '-' || text[k] == '.');
    StripKeeps(text, k);
  }

  /** A character other than a comma survives the filter. */
  lemma {:induction false} StripKeeps(text: string, k: nat)
    requires k < |text| && text[k] != ','
    ensures text[k] in StripCommas(text)
  {
    if k == 0 {
      assert StripCommas(text)[0] == text[0];
    } else {
      StripKeeps(text[1..], k - 1);
    }
  }

  // ----- the displayed value -----

  /** The three digits of `n < 1000`, with leading zeros. */
  function ThreeDigits(n: nat): (s: string)
    requires n < 1000
    ensures |s| == 3 && AllDigits(s) && Value(s) == n
  {
    var a, r := n / 100, n % 100;
    var b, c := r / 10, r % 10;
    var s := [DigitChar(a), DigitChar(b), DigitChar(c)];
    assert s[..2] == [DigitChar(a), DigitChar(b)];
    assert s[..2][..1] == [DigitChar(a)];
    assert [DigitChar(a)][..0] == [];
    assert Value(s[..2][..1]) == a;
    assert Value(s[..2]) == a * 10 + b;
    assert Value(s) == (a * 10 + b) * 10 + c;
    s
  }

  /** The English-locale display of a whole number (31): the
      digits in groups of three separated by commas. */
  function Grouped(n: nat): string
    decreases n
  {
    if n < 1000 then Digits(n) else Grouped(n / 1000) + "," + ThreeDigits(n % 1000)
  }

  /** A cell shows its value with separators; editing that text without
      changing a digit gives the same value back. */
  lemma {:induction false} GroupedRoundTrip(n: nat)
    ensures AcceptEdit(Grouped(n)) == Some(n)
  {
    StripGrouped(n);
  }

  /** Removing the separators of a grouped number leaves its decimal digits. */
  lemma {:induction false} StripGrouped(n: nat)
    ensures AllDigits(StripCommas(Grouped(n))) && Value(StripCommas(Grouped(n))) == n
    decreases n
  {
    if n < 1000 {
      StripCommasOfDigits(Digits(n));
    } else {
      StripGrouped(n / 1000);
      StripGroupedStep(n);
    }
  }

  /** One group of three digits more: the leading groups' digits followed
      by the last three. */
  lemma StripGroupedStep(n: nat)
    requires n >= 1000
    requires AllDigits(StripCommas(Grouped(n / 1000))) && Value(StripCommas(Grouped(n / 1000))) == n / 1000
    ensures AllDigits(StripCommas(Grouped(n))) && Value(StripCommas(Grouped(n))) == n
  {
    var s, tail := StripCommas(Grouped(n / 1000)), ThreeDigits(n % 1000);
    StripGroupedPieces(n);
    ValueConcat3(s, tail);
    assert n == n / 1000 * 1000 + n % 1000;
  }

  /** Without its commas a grouped number is the digits of its leading
      groups followed by its last three digits. */
  lemma StripGroupedPieces(n: nat)
    requires n >= 1000
    ensures StripCommas(Grouped(n)) == StripCommas(Grouped(n / 1000)) + ThreeDigits(n % 1000)
  {
    var head, tail := Grouped(n / 1000), ThreeDigits(n % 1000);
    assert Grouped(n) == head + "," + tail;
    StripCommasConcat(head + ",", tail);
    StripCommasConcat(head, ",");
    StripCommasOfDigits(tail);
    assert StripCommas(",") == [];
    assert StripCommas(head) + [] == StripCommas(head);
  }

  /** Appending three digits multiplies the value by a thousand and adds
      theirs. */
  lemma ValueConcat3(s: string, t: string)
    requires AllDigits(s) && AllDigits(t) && |t| == 3
    ensures AllDigits(s + t) && Value(s + t) == Value(s) * 1000 + Value(t)
  {
    var st := s + t;
    var d0, d1, d2 := DigitValue(t[0]), DigitValue(t[1]), DigitValue(t[2]);
    assert st[..|st| - 1] == s + t[..2];
    assert (s + t[..2])[..|st| - 2] == s + t[..1];
    assert (s + t[..1])[..|st| - 3] == s;
    assert Value(s + t[..1]) == Value(s) * 10 + d0;
    assert Value(s + t[..2]) == (Value(s) * 10 + d0) * 10 + d1;
    assert Value(st) == ((Value(s) * 10 + d0) * 10 + d1) * 10 + d2;
    assert t[..2][..1] == t[..1];
    assert t[..1][..0] == [];
    assert Value(t[..1]) == d0;
    assert Value(t[..2]) == d0 * 10 + d1;
    assert Value(t) == (d0 * 10 + d1) * 10 + d2;
  }
}
