/** The application settings (contexts/ConfigContext.tsx): the default price
    and time tables, the merge of saved settings over the defaults when the
    app starts, and the shallow `updateConfig`.

    The declared field `ignoredMachineCodes` and the `ignoredMachineNames`
    the settings screen reads and writes are one list here, `ignoredNames`. */
module Configuration {
  import opened Wrappers

  /** `SurgeryRole`: the main surgeon, the assistant and the helper. */
  datatype PayRole = Chinh | Phu | GiupViec

  /** The two fields of a `TimeRule`. */
  datatype Bound = Min | Max

  /** Per procedure type, a price per role. An entry need not hold every
      role: a saved entry for a type the defaults do not know keeps only the
      roles it names. */
  type PriceTable = map<string, map<PayRole, int>>

  /** Per procedure type, the least and greatest expected minutes. */
  type TimeTable = map<string, map<Bound, int>>

  datatype AppConfig = AppConfig(
    priceConfig: PriceTable, timeRules: TimeTable, roleOrder: map<string, int>, ignoredNames: seq<string>)

  /** The nine procedure types, surgeries then procedures. */
  const SurgeryTypes: set<string> := {"PĐB", "P1", "P2", "P3", "TĐB", "T1", "T2", "T3", "TKPL"}

  function Prices(chinh: int, phu: int, giupViec: int): (p: map<PayRole, int>)
    ensures p.Keys == {Chinh, Phu, GiupViec}
    ensures p[Chinh] == chinh && p[Phu] == phu && p[GiupViec] == giupViec
  {
    map[Chinh := chinh, Phu := phu, GiupViec := giupViec]
  }

  function Rule(min: int, max: int): (r: map<Bound, int>)
    ensures r.Keys == {Min, Max} && r[Min] == min && r[Max] == max
  {
    map[Min := min, Max := max]
  }

  /** The entry of one type in `DEFAULT_PRICE_CONFIG` (27-37): every role
      priced, no price negative. */
  function DefaultPriceOf(t: string): (p: map<PayRole, int>)
    ensures p.Keys == {Chinh, Phu, GiupViec} && p[Chinh] >= 0 && p[Phu] >= 0 && p[GiupViec] >= 0
  {
    if t == "PĐB" then Prices(280000, 200000, 120000)
    else if t == "P1" then Prices(125000, 90000, 70000)
    else if t == "P2" then Prices(65000, 50000, 30000)
    else if t == "P3" then Prices(50000, 30000, 15000)
    else if t == "TĐB" then Prices(84000, 60000, 36000)
    else if t == "T1" then Prices(37500, 27000, 21000)
    else if t == "T2" then Prices(19500, 15000, 9000)
    else if t == "T3" then Prices(15000, 9000, 4500)
    else Prices(0, 0, 0)
  }

  /** `DEFAULT_PRICE_CONFIG`: an entry for each of the nine types and no
      other (the last branch above is `TKPL`). */
  const DefaultPrices: PriceTable := map t | t in SurgeryTypes :: DefaultPriceOf(t)

  /** The rule of one type in `DEFAULT_TIME_RULES` (39-49): both bounds set,
      the least not above the greatest. A surgery and the procedure of the
      same grade share their rule. */
  function DefaultTimeOf(t: string): (r: map<Bound, int>)
    ensures r.Keys == {Min, Max} && r[Min] <= r[Max]
  {
    if t == "PĐB" || t == "TĐB" then Rule(180, 240)
    else if t == "P1" || t == "T1" then Rule(120, 180)
    else if t == "P2" || t == "T2" then Rule(60, 180)
    else if t == "P3" || t == "T3" then Rule(60, 120)
    else Rule(0, 0)
  }

  /** `DEFAULT_TIME_RULES`: a rule for each of the nine types. */
  const DefaultTimes: TimeTable := map t | t in SurgeryTypes :: DefaultTimeOf(t)

  /** `DEFAULT_ROLE_ORDER` (51-58). */
  const DefaultRoleOrder: map<string, int> := map[
    "PT Chính" := 1, "PT Phụ" := 2, "BS GM" := 3, "KTV GM" := 4, "TDC" := 5, "GV" := 6]

  /** The two default tables cover the same nine types; every type prices
      the three roles and has both time bounds, the least not above the
      greatest. */
  lemma DefaultTablesAgree()
    ensures DefaultPrices.Keys == SurgeryTypes && DefaultTimes.Keys == SurgeryTypes
    ensures forall t :: t in DefaultPrices ==> DefaultPrices[t].Keys == {Chinh, Phu, GiupViec}
    ensures forall t :: t in DefaultTimes ==> DefaultTimes[t].Keys == {Min, Max} && DefaultTimes[t][Min] <= DefaultTimes[t][Max]
    ensures DefaultPrices["P1"][Chinh] == 125000 && DefaultTimes["TKPL"] == Rule(0, 0)
  {
  }

  /** `DEFAULT_CONFIG` (60-65). */
  const DefaultConfig: AppConfig := AppConfig(DefaultPrices, DefaultTimes, DefaultRoleOrder, [])

  // ----- updateConfig -----

  /** `Partial<AppConfig>`: the fields to replace. */
  datatype Patch = Patch(
    priceConfig: Option<PriceTable>, timeRules: Option<TimeTable>,
    roleOrder: Option<map<string, int>>, ignoredNames: Option<seq<string>>)

  const NoChange: Patch := Patch(None, None, None, None)

  /** `updateConfig` (129-131): the fields the patch holds replace those of
      the previous settings. */
  function UpdateConfig(prev: AppConfig, patch: Patch): (c: AppConfig)
    ensures c.priceConfig == patch.priceConfig.GetOr(prev.priceConfig)
    ensures c.timeRules == patch.timeRules.GetOr(prev.timeRules)
    ensures c.roleOrder == patch.roleOrder.GetOr(prev.roleOrder)
    ensures c.ignoredNames == patch.ignoredNames.GetOr(prev.ignoredNames)
  {
    AppConfig(
      patch.priceConfig.GetOr(prev.priceConfig), patch.timeRules.GetOr(prev.timeRules),
      patch.roleOrder.GetOr(prev.roleOrder), patch.ignoredNames.GetOr(prev.ignoredNames))
  }

  /** A later patch wins over an earlier one field by field. */
  function Then(first: Patch, second: Patch): Patch {
    Patch(
      if second.priceConfig.Some? then second.priceConfig else first.priceConfig,
      if second.timeRules.Some? then second.timeRules else first.timeRules,
      if second.roleOrder.Some? then second.roleOrder else first.roleOrder,
      if second.ignoredNames.Some? then second.ignoredNames else first.ignoredNames)
  }

  /** An empty patch changes nothing, applying the same patch twice is
      applying it once, and two updates in a row are one update with the
      later patch winning. */
  lemma UpdateLaws(prev: AppConfig, p: Patch, q: Patch)
    ensures UpdateConfig(prev, NoChange) == prev
    ensures UpdateConfig(UpdateConfig(prev, p), p) == UpdateConfig(prev, p)
    ensures UpdateConfig(UpdateConfig(prev, p), q) == UpdateConfig(prev, Then(p, q))
  {
  }

  // ----- the merge of saved settings -----

  /** Settings as read back from storage: each field may be missing, and an
      entry of a table may be a value that is not a truthy object (`None`). */
  datatype Saved = Saved(
    priceConfig: Option<map<string, Option<map<PayRole, int>>>>,
    timeRules: Option<map<string, Option<map<Bound, int>>>>,
    roleOrder: Option<map<string, int>>,
    ignoredNames: Option<seq<string>>)

  /** The defaults, with every truthy saved entry spread over the default
      entry of its type (86-111); a type with no default starts empty. */
  function MergeTable<K(==), V>(defaults: map<string, map<K, V>>, saved: map<string, Option<map<K, V>>>)
    : map<string, map<K, V>>
  {
    map key | key in defaults.Keys + saved.Keys && (key in defaults || saved[key].Some?) ::
      if key in saved && saved[key].Some? then
        (if key in defaults then defaults[key] else map[]) + saved[key].value
      else defaults[key]
  }

  /** The merged table holds every default type and every type saved with a
      truthy entry, nothing else; a role takes the saved value when the saved
      entry names it and the default value otherwise. */
  lemma MergeTableExact<K, V>(defaults: map<string, map<K, V>>, saved: map<string, Option<map<K, V>>>)
    ensures var m := MergeTable(defaults, saved);
            forall key :: key in m <==> key in defaults || (key in saved && saved[key].Some?)
    ensures var m := MergeTable(defaults, saved);
            forall key, r :: key in m ==>
              (r in m[key] <==>
                 (key in defaults && r in defaults[key]) || (key in saved && saved[key].Some? && r in saved[key].value))
    ensures var m := MergeTable(defaults, saved);
            forall key, r :: key in m && r in m[key] ==>
              m[key][r] == if key in saved && saved[key].Some? && r in saved[key].value
                           then saved[key].value[r] else defaults[key][r]
  {
  }

  /** The load-time merge (82-113): the saved fields over the previous ones, then the two
      tables rebuilt from the defaults when the saved settings hold them. */
  function Load(prev: AppConfig, saved: Saved): AppConfig {
    AppConfig(
      if saved.priceConfig.Some? then MergeTable(DefaultPrices, saved.priceConfig.value) else prev.priceConfig,
      if saved.timeRules.Some? then MergeTable(DefaultTimes, saved.timeRules.value) else prev.timeRules,
      saved.roleOrder.GetOr(prev.roleOrder),
      saved.ignoredNames.GetOr(prev.ignoredNames))
  }

  /** Every entry present, as `JSON.stringify` writes the settings. */
  function Wrap<K, V>(table: map<string, map<K, V>>): (w: map<string, Option<map<K, V>>>)
    ensures w.Keys == table.Keys && forall key :: key in w ==> w[key] == Some(table[key])
  {
    map key | key in table :: Some(table[key])
  }

  /** The settings as stored (125). */
  function Save(c: AppConfig): Saved {
    Saved(Some(Wrap(c.priceConfig)), Some(Wrap(c.timeRules)), Some(c.roleOrder), Some(c.ignoredNames))
  }

  /** A table that keeps every default type and every default role. */
  predicate CoversDefaults<K, V>(table: map<string, map<K, V>>, defaults: map<string, map<K, V>>) {
    forall key :: key in defaults ==> key in table && defaults[key].Keys <= table[key].Keys
  }

  predicate Covers(c: AppConfig) {
    CoversDefaults(c.priceConfig, DefaultPrices) && CoversDefaults(c.timeRules, DefaultTimes)
  }

  /** Merging a saved table that covers the defaults gives the saved table
      back. */
  lemma MergeWrapped<K, V>(defaults: map<string, map<K, V>>, table: map<string, map<K, V>>)
    requires CoversDefaults(table, defaults)
    ensures MergeTable(defaults, Wrap(table)) == table
  {
    var m := MergeTable(defaults, Wrap(table));
    MergeTableExact(defaults, Wrap(table));
    assert m.Keys == table.Keys;
    forall key | key in m
      ensures m[key] == table[key]
    {
      assert m[key].Keys == table[key].Keys;
    }
  }

  /** Settings that keep every default type and role survive a save and a
      reload unchanged, whatever the settings were before the reload. */
  lemma SaveLoadRoundTrip(prev: AppConfig, c: AppConfig)
    requires Covers(c)
    ensures Load(prev, Save(c)) == c
  {
    MergeWrapped(DefaultPrices, c.priceConfig);
    MergeWrapped(DefaultTimes, c.timeRules);
  }

  /** Whatever was saved, the tables after loading still cover the
      defaults when they did before. */
  lemma LoadCovers(prev: AppConfig, saved: Saved)
    requires Covers(prev)
    ensures Covers(Load(prev, saved))
  {
    if saved.priceConfig.Some? {
      MergeTableExact(DefaultPrices, saved.priceConfig.value);
    }
    if saved.timeRules.Some? {
      MergeTableExact(DefaultTimes, saved.timeRules.value);
    }
  }

  /** The default settings survive a save and a reload. */
  lemma DefaultsSurviveReload(prev: AppConfig)
    ensures Load(prev, Save(DefaultConfig)) == DefaultConfig
  {
    SaveLoadRoundTrip(prev, DefaultConfig);
  }

  /** With nothing saved the settings are kept. */
  lemma LoadNothing(prev: AppConfig)
    ensures Load(prev, Saved(None, None, None, None)) == prev
  {
  }
}
