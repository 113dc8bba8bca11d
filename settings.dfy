/** Pricing rules and the application settings (`settingsService.ts`):
    the factor each rental mode multiplies the daily rate by, the defensive
    reading of the key/value `app_settings` table, and the nine-key save. */
module Settings {
  import opened Wrappers
  import opened Text
  import opened JsNumber
  import opened Domain

  // ---------------------------------------------------------------------
  // Pricing rules

  const DefaultPricingRules: PricingRules := PricingRules(6.0, 12.0, 24.0)

  const DefaultSettings: AppSettings :=
    AppSettings(DefaultPricingRules, BRL, "", "", "", OneDay, OneHour)

  /** Every factor is positive. */
  predicate PositiveRules(r: PricingRules) {
    r.weeklyFactor > 0.0 && r.fortnightlyFactor > 0.0 && r.monthlyFactor > 0.0
  }

  /** `getSuggestedValues`: the default rules, 6 / 12 / 24. */
  function GetSuggestedValues(): (r: PricingRules)
    ensures PositiveRules(r)
    ensures r.weeklyFactor < r.fortnightlyFactor < r.monthlyFactor
  {
    DefaultPricingRules
  }

  /** `getFactorForMode`: the rule's factor for weekly, fortnightly and
      monthly rentals, and 1 for daily ones. */
  function GetFactorForMode(mode: RentalMode, rules: PricingRules): (f: real)
    ensures mode == Daily ==> f == 1.0
    ensures PositiveRules(rules) ==> f > 0.0
  {
    if mode == Weekly then rules.weeklyFactor
    else if mode == Fortnightly then rules.fortnightlyFactor
    else if mode == Monthly then rules.monthlyFactor
    else 1.0
  }

  /** `calculateRateByMode`: the daily rate times the mode's factor. */
  function CalculateRateByMode(dailyRate: real, mode: RentalMode, rules: PricingRules): real {
    dailyRate * GetFactorForMode(mode, rules)
  }

  /** A daily rental costs the daily rate. */
  lemma RateDaily(dailyRate: real, rules: PricingRules)
    ensures CalculateRateByMode(dailyRate, Daily, rules) == dailyRate
  {
  }

  /** Under positive rules the rate has the sign of the daily rate. */
  lemma RateSign(dailyRate: real, mode: RentalMode, rules: PricingRules)
    requires PositiveRules(rules)
    ensures dailyRate > 0.0 <==> CalculateRateByMode(dailyRate, mode, rules) > 0.0
    ensures dailyRate == 0.0 <==> CalculateRateByMode(dailyRate, mode, rules) == 0.0
  {
    var f := GetFactorForMode(mode, rules);
    if dailyRate > 0.0 {
      assert dailyRate * f > 0.0;
    } else if dailyRate < 0.0 {
      assert dailyRate * f < 0.0;
    }
  }

  /** Under the default rules a daily rate of 100 is 600 a week, 1200 a
      fortnight and 2400 a month. */
  lemma DefaultRates()
    ensures CalculateRateByMode(100.0, Weekly, GetSuggestedValues()) == 600.0
    ensures CalculateRateByMode(100.0, Fortnightly, GetSuggestedValues()) == 1200.0
    ensures CalculateRateByMode(100.0, Monthly, GetSuggestedValues()) == 2400.0
  {
  }

  // ---------------------------------------------------------------------
  // Reading stored values

  /** `toNumber`: the fallback for an absent or empty value, for one
      parseFloat cannot read and for one that is not positive; otherwise
      the value parseFloat reads. */
  function ToNumber(value: Option<string>, fallback: real): (r: real)
    ensures r == fallback || (value.Some? && value.value != [] && ParseFloat(value.value) == Some(r) && r > 0.0)
    ensures (value.Some? && value.value != [] && ParseFloat(value.value).Some?
             && ParseFloat(value.value).value > 0.0) ==> r == ParseFloat(value.value).value
  {
    match value
    case None => fallback
    case Some(t) =>
      if t == [] then fallback
      else match ParseFloat(t)
        case None => fallback
        case Some(x) => if x <= 0.0 then fallback else x
  }

  /** With a positive fallback, toNumber is always positive. */
  lemma ToNumberPositive(value: Option<string>, fallback: real)
    requires fallback > 0.0
    ensures ToNumber(value, fallback) > 0.0
  {
  }

  /** A positive number that String writes exactly is read back by toNumber. */
  lemma ToNumberOfString(x: real, fallback: real)
    requires x > 0.0 && HasExactString(x)
    ensures ToNumber(Some(NumberToString(x)), fallback) == x
  {
    ParseFloatNumberToString(x);
  }

  /** `toCurrency`: USD and EUR are kept, anything else is BRL. */
  function ToCurrency(value: Option<string>): (c: CurrencyCode)
    ensures c == USD <==> value == Some("USD")
    ensures c == EUR <==> value == Some("EUR")
  {
    if value == Some("USD") then USD
    else if value == Some("EUR") then EUR
    else BRL
  }

  /** toCurrency reads back every currency's stored name. */
  lemma ToCurrencyOfName(c: CurrencyCode)
    ensures ToCurrency(Some(CurrencyName(c))) == c
  {
  }

  /** `toReminderOption`: none and 1h are kept, anything else is 1d. */
  function ToReminderOption(value: Option<string>): (r: ReminderOption)
    ensures r == NoReminder <==> value == Some("none")
    ensures r == OneHour <==> value == Some("1h")
  {
    if value == Some("none") then NoReminder
    else if value == Some("1h") then OneHour
    else OneDay
  }

  /** toReminderOption reads back every option's stored name. */
  lemma ToReminderOfName(r: ReminderOption)
    ensures ToReminderOption(Some(ReminderName(r))) == r
  {
  }

  /** As written, getSettings reads a missing or unknown end reminder as
      1d, although the default settings (and the seeded row) say 1h. */
  lemma EndReminderFallbackAsWritten()
    ensures ToReminderOption(None) != DefaultSettings.rentalEndReminder
    ensures ToReminderOption(Some("2h")) != DefaultSettings.rentalEndReminder
  {
  }

  /** toReminderOption with the field's own default as the fallback: the
      reading getSettings evidently intends. */
  function ToReminderOr(value: Option<string>, fallback: ReminderOption): (r: ReminderOption)
    ensures value == Some("none") ==> r == NoReminder
    ensures value == Some("1h") ==> r == OneHour
    ensures value == Some("1d") ==> r == OneDay
    ensures value !in {Some("none"), Some("1h"), Some("1d")} ==> r == fallback
  {
    if value == Some("none") then NoReminder
    else if value == Some("1h") then OneHour
    else if value == Some("1d") then OneDay
    else fallback
  }

  /** It reads back every option's stored name, and agrees with
      toReminderOption whenever the fallback is 1d. */
  lemma ToReminderOrOfName(r: ReminderOption, fallback: ReminderOption)
    ensures ToReminderOr(Some(ReminderName(r)), fallback) == r
  {
  }

  lemma ToReminderOrAgrees(value: Option<string>)
    ensures ToReminderOr(value, OneDay) == ToReminderOption(value)
  {
  }

  // ---------------------------------------------------------------------
  // The app_settings table

  /** The nine keys the settings live under. */
  const SettingsKeys: seq<string> := [
    "currency", "company_name", "company_document", "company_logo_uri",
    "rental_start_reminder", "rental_end_reminder",
    "weekly_factor", "fortnightly_factor", "monthly_factor"]

  /** `map.get(key)`: the value stored under `key`, if any. */
  function Lookup(rows: map<string, string>, key: string): (r: Option<string>)
    ensures r.Some? <==> key in rows
    ensures r.Some? ==> r.value == rows[key]
  {
    if key in rows then Some(rows[key]) else None
  }

  /** The rows `SELECT key, value ... WHERE key IN (the nine keys)` returns. */
  function SettingsRows(table: map<string, string>): (rows: map<string, string>)
    ensures forall k :: k in rows <==> k in table && k in SettingsKeys
    ensures forall k :: k in rows ==> rows[k] == table[k]
  {
    map k | k in table && k in SettingsKeys :: table[k]
  }

  /** The settings read from the values found under the nine keys, in key
      order: each field falls back to its default when its value is absent
      or unusable. */
  function FromStored(currency: Option<string>, companyName: Option<string>,
                      companyDocument: Option<string>, companyLogoUri: Option<string>,
                      startReminder: Option<string>, endReminder: Option<string>,
                      weekly: Option<string>, fortnightly: Option<string>,
                      monthly: Option<string>): (s: AppSettings)
    ensures PositiveRules(s.pricingRules)
  {
    ToNumberPositive(weekly, DefaultPricingRules.weeklyFactor);
    ToNumberPositive(fortnightly, DefaultPricingRules.fortnightlyFactor);
    ToNumberPositive(monthly, DefaultPricingRules.monthlyFactor);
    AppSettings(
      PricingRules(
        ToNumber(weekly, DefaultPricingRules.weeklyFactor),
        ToNumber(fortnightly, DefaultPricingRules.fortnightlyFactor),
        ToNumber(monthly, DefaultPricingRules.monthlyFactor)),
      ToCurrency(currency),
      companyName.GetOr(DefaultSettings.companyName),
      companyDocument.GetOr(DefaultSettings.companyDocument),
      companyLogoUri.GetOr(DefaultSettings.companyLogoUri),
      ToReminderOr(startReminder, DefaultSettings.rentalStartReminder),
      ToReminderOr(endReminder, DefaultSettings.rentalEndReminder))
  }

  /** `getSettings`: each field read defensively from its key, falling
      back to the default settings; it never fails. The reminders fall back
      to their own defaults; the code as written is GetSettingsAsWritten. */
  function GetSettings(table: map<string, string>): (s: AppSettings)
    ensures PositiveRules(s.pricingRules)
  {
    var rows := SettingsRows(table);
    FromStored(
      Lookup(rows, "currency"), Lookup(rows, "company_name"),
      Lookup(rows, "company_document"), Lookup(rows, "company_logo_uri"),
      Lookup(rows, "rental_start_reminder"), Lookup(rows, "rental_end_reminder"),
      Lookup(rows, "weekly_factor"), Lookup(rows, "fortnightly_factor"),
      Lookup(rows, "monthly_factor"))
  }

  /** An empty table reads as the default settings. */
  lemma GetSettingsOfEmpty()
    ensures GetSettings(map[]) == DefaultSettings
  {
    var rows := SettingsRows(map[]);
    assert forall k :: Lookup(rows, k) == None;
  }

  /** Only the nine keys matter: tables that agree on them read alike. */
  lemma GetSettingsOnlyKeys(t1: map<string, string>, t2: map<string, string>)
    requires forall k :: k in SettingsKeys ==> Lookup(t1, k) == Lookup(t2, k)
    ensures GetSettings(t1) == GetSettings(t2)
  {
    assert SettingsRows(t1) == SettingsRows(t2);
  }

  /** `getSettings` as written: both reminders go through toReminderOption,
      whose fallback is 1d. It differs from GetSettings in the end reminder
      alone, and only where that value is missing or unknown. */
  function GetSettingsAsWritten(table: map<string, string>): (s: AppSettings)
    ensures PositiveRules(s.pricingRules)
    ensures s == GetSettings(table).(rentalEndReminder := s.rentalEndReminder)
    ensures s.rentalEndReminder != GetSettings(table).rentalEndReminder <==>
              Lookup(table, "rental_end_reminder") !in {Some("none"), Some("1h"), Some("1d")}
  {
    var rows := SettingsRows(table);
    var corrected := GetSettings(table);
    ToReminderOrAgrees(Lookup(rows, "rental_start_reminder"));
    assert Lookup(rows, "rental_end_reminder") == Lookup(table, "rental_end_reminder");
    corrected.(rentalStartReminder := ToReminderOption(Lookup(rows, "rental_start_reminder")),
               rentalEndReminder := ToReminderOption(Lookup(rows, "rental_end_reminder")))
  }

  /** As written, an empty table reads its end reminder as 1d, not as the
      default settings' 1h. */
  lemma GetSettingsAsWrittenOfEmpty()
    ensures GetSettingsAsWritten(map[]).rentalEndReminder == OneDay
    ensures GetSettingsAsWritten(map[]) != DefaultSettings
    ensures GetSettingsAsWritten(map[]) == DefaultSettings.(rentalEndReminder := OneDay)
  {
    GetSettingsOfEmpty();
  }

  /** The values saveSettings writes under the nine keys, in key order: the
      names are trimmed and the factors written with String. */
  function PayloadValues(input: AppSettings): (v: seq<string>)
    ensures |v| == |SettingsKeys|
  {
    [CurrencyName(input.currency),
     Trim(input.companyName),
     Trim(input.companyDocument),
     Trim(input.companyLogoUri),
     ReminderName(input.rentalStartReminder),
     ReminderName(input.rentalEndReminder),
     NumberToString(input.pricingRules.weeklyFactor),
     NumberToString(input.pricingRules.fortnightlyFactor),
     NumberToString(input.pricingRules.monthlyFactor)]
  }

  /** The nine (key, value) pairs saveSettings upserts, in order. */
  function Payload(input: AppSettings): (p: seq<(string, string)>)
    ensures |p| == |SettingsKeys|
    ensures forall i :: 0 <= i < |p| ==> p[i] == (SettingsKeys[i], PayloadValues(input)[i])
  {
    Zip(SettingsKeys, PayloadValues(input))
  }

  /** Keys paired with values position by position. */
  function Zip(keys: seq<string>, values: seq<string>): (p: seq<(string, string)>)
    requires |keys| == |values|
    ensures |p| == |keys|
    ensures forall i :: 0 <= i < |p| ==> p[i] == (keys[i], values[i])
  {
    if keys == [] then []
    else [(keys[0], values[0])] + Zip(keys[1..], values[1..])
  }

  /** The table after upserting `pairs` in order. */
  function UpsertAll(table: map<string, string>, pairs: seq<(string, string)>): map<string, string>
    decreases |pairs|
  {
    if pairs == [] then table
    else
      var last := pairs[|pairs| - 1];
      UpsertAll(table, pairs[..|pairs| - 1])[last.0 := last.1]
  }

  /** A key no pair names keeps its entry, or its absence. */
  lemma {:induction false} UpsertOther(table: map<string, string>, pairs: seq<(string, string)>, k: string)
    requires forall i :: 0 <= i < |pairs| ==> pairs[i].0 != k
    ensures Lookup(UpsertAll(table, pairs), k) == Lookup(table, k)
    decreases |pairs|
  {
    if pairs != [] {
      UpsertOther(table, pairs[..|pairs| - 1], k);
    }
  }

  /** A key named by pair `i` and by no later pair holds that pair's value. */
  lemma {:induction false} UpsertLast(table: map<string, string>, pairs: seq<(string, string)>, i: nat)
    requires i < |pairs|
    requires forall j :: i < j < |pairs| ==> pairs[j].0 != pairs[i].0
    ensures Lookup(UpsertAll(table, pairs), pairs[i].0) == Some(pairs[i].1)
    decreases |pairs|
  {
    if i < |pairs| - 1 {
      UpsertLast(table, pairs[..|pairs| - 1], i);
    }
  }

  /** The nine keys are distinct. */
  lemma SettingsKeysDistinct()
    ensures forall i, j :: 0 <= i < j < |SettingsKeys| ==> SettingsKeys[i] != SettingsKeys[j]
  {
  }

  /** After a complete save, each of the nine keys holds its payload value. */
  lemma SavedValue(table: map<string, string>, input: AppSettings, i: nat)
    requires i < |SettingsKeys|
    ensures Lookup(UpsertAll(table, Payload(input)), SettingsKeys[i]) == Some(PayloadValues(input)[i])
  {
    SettingsKeysDistinct();
    UpsertLast(table, Payload(input), i);
  }

  /** The same, as getSettings' query sees it. */
  lemma SavedRow(table: map<string, string>, input: AppSettings, i: nat)
    requires i < |SettingsKeys|
    ensures Lookup(SettingsRows(UpsertAll(table, Payload(input))), SettingsKeys[i]) == Some(PayloadValues(input)[i])
  {
    SavedValue(table, input, i);
  }

  /** A complete save adds or overwrites exactly the nine keys; every other
      key keeps its entry, or its absence. */
  lemma SaveTouchesOnlyKeys(table: map<string, string>, input: AppSettings, k: string)
    ensures k in SettingsKeys ==> k in UpsertAll(table, Payload(input))
    ensures k !in SettingsKeys ==> Lookup(UpsertAll(table, Payload(input)), k) == Lookup(table, k)
  {
    if k in SettingsKeys {
      var i :| 0 <= i < |SettingsKeys| && SettingsKeys[i] == k;
      SavedValue(table, input, i);
    } else {
      UpsertOther(table, Payload(input), k);
    }
  }

  /** What a save stores can be read back unchanged: positive factors that
      String writes exactly, and names without surrounding white space. */
  predicate Storable(s: AppSettings) {
    PositiveRules(s.pricingRules)
    && HasExactString(s.pricingRules.weeklyFactor)
    && HasExactString(s.pricingRules.fortnightlyFactor)
    && HasExactString(s.pricingRules.monthlyFactor)
    && Trim(s.companyName) == s.companyName
    && Trim(s.companyDocument) == s.companyDocument
    && Trim(s.companyLogoUri) == s.companyLogoUri
  }

  /** Reading back the values a save writes gives the saved settings. */
  lemma FromStoredOfSaved(input: AppSettings)
    requires Storable(input)
    ensures FromStored(
              Some(CurrencyName(input.currency)), Some(Trim(input.companyName)),
              Some(Trim(input.companyDocument)), Some(Trim(input.companyLogoUri)),
              Some(ReminderName(input.rentalStartReminder)), Some(ReminderName(input.rentalEndReminder)),
              Some(NumberToString(input.pricingRules.weeklyFactor)),
              Some(NumberToString(input.pricingRules.fortnightlyFactor)),
              Some(NumberToString(input.pricingRules.monthlyFactor))) == input
  {
    var r := input.pricingRules;
    ToNumberOfString(r.weeklyFactor, DefaultPricingRules.weeklyFactor);
    ToNumberOfString(r.fortnightlyFactor, DefaultPricingRules.fortnightlyFactor);
    ToNumberOfString(r.monthlyFactor, DefaultPricingRules.monthlyFactor);
    FromStoredOfFactors(input, NumberToString(r.weeklyFactor),
                        NumberToString(r.fortnightlyFactor), NumberToString(r.monthlyFactor));
  }

  /** FromStoredOfSaved with the three factor texts given by what toNumber
      reads from them. */
  lemma FromStoredOfFactors(input: AppSettings, weekly: string, fortnightly: string, monthly: string)
    requires Trim(input.companyName) == input.companyName
    requires Trim(input.companyDocument) == input.companyDocument
    requires Trim(input.companyLogoUri) == input.companyLogoUri
    requires ToNumber(Some(weekly), DefaultPricingRules.weeklyFactor) == input.pricingRules.weeklyFactor
    requires ToNumber(Some(fortnightly), DefaultPricingRules.fortnightlyFactor) == input.pricingRules.fortnightlyFactor
    requires ToNumber(Some(monthly), DefaultPricingRules.monthlyFactor) == input.pricingRules.monthlyFactor
    ensures FromStored(
              Some(CurrencyName(input.currency)), Some(Trim(input.companyName)),
              Some(Trim(input.companyDocument)), Some(Trim(input.companyLogoUri)),
              Some(ReminderName(input.rentalStartReminder)), Some(ReminderName(input.rentalEndReminder)),
              Some(weekly), Some(fortnightly), Some(monthly)) == input
  {
    ToCurrencyOfName(input.currency);
    ToReminderOrOfName(input.rentalStartReminder, DefaultSettings.rentalStartReminder);
    ToReminderOrOfName(input.rentalEndReminder, DefaultSettings.rentalEndReminder);
  }

  /** Saving storable settings and reading them back gives the same settings. */
  lemma SaveThenGet(table: map<string, string>, input: AppSettings)
    requires Storable(input)
    ensures GetSettings(UpsertAll(table, Payload(input))) == input
  {
    SavedRow(table, input, 0);
    SavedRow(table, input, 1);
    SavedRow(table, input, 2);
    SavedRow(table, input, 3);
    SavedRow(table, input, 4);
    SavedRow(table, input, 5);
    SavedRow(table, input, 6);
    SavedRow(table, input, 7);
    SavedRow(table, input, 8);
    FromStoredOfSaved(input);
  }

  /** The code as written round-trips what the app saves too: a saved end
      reminder is always one of the three names, so the 1d fallback is
      never reached. */
  lemma SaveThenGetAsWritten(table: map<string, string>, input: AppSettings)
    requires Storable(input)
    ensures GetSettingsAsWritten(UpsertAll(table, Payload(input))) == input
  {
    SaveThenGet(table, input);
    SavedEndReminder(table, input);
    AsWrittenOfSaved(UpsertAll(table, Payload(input)), input);
  }

  /** A save stores the end reminder's name under its key. */
  lemma SavedEndReminder(table: map<string, string>, input: AppSettings)
    ensures Lookup(UpsertAll(table, Payload(input)), "rental_end_reminder")
            == Some(ReminderName(input.rentalEndReminder))
  {
    SavedValue(table, input, 5);
    var v := PayloadValues(input);
    assert v == [v[0], v[1], v[2], v[3], v[4], ReminderName(input.rentalEndReminder), v[6], v[7], v[8]];
  }

  /** Settings read back with their end reminder's name read alike as
      written. */
  lemma AsWrittenOfSaved(saved: map<string, string>, input: AppSettings)
    requires GetSettings(saved) == input
    requires Lookup(saved, "rental_end_reminder") == Some(ReminderName(input.rentalEndReminder))
    ensures GetSettingsAsWritten(saved) == input
  {
    AsWrittenOfNamedEnd(saved, input.rentalEndReminder);
  }

  /** A table whose end reminder is a stored option's name reads alike as
      written and corrected. */
  lemma AsWrittenOfNamedEnd(table: map<string, string>, r: ReminderOption)
    requires Lookup(table, "rental_end_reminder") == Some(ReminderName(r))
    ensures GetSettingsAsWritten(table) == GetSettings(table)
  {
    var name := ReminderName(r);
    assert name == "none" || name == "1h" || name == "1d";
  }

  /** The `app_settings` table, whose rows saveSettings upserts one by one. */
  class SettingsTable {
    var rows: map<string, string>

    constructor(initial: map<string, string>)
      ensures rows == initial
    {
      rows := initial;
    }

    /** `saveSettings`: the nine upserts, each its own statement and none in
        a transaction. `failAt` is the index of the statement the database
        rejects, if any; the upserts before it stay written. */
    method SaveSettings(input: AppSettings, failAt: Option<nat>) returns (ok: bool)
      modifies this
      ensures ok <==> failAt.None? || failAt.value >= |SettingsKeys|
      ensures ok ==> rows == UpsertAll(old(rows), Payload(input))
      ensures !ok ==> rows == UpsertAll(old(rows), Payload(input)[..failAt.value])
    {
      ok := UpsertEach(Payload(input), failAt);
    }

    /** The upserts of `pairs`, one statement each, stopping at the one
        numbered `failAt`. */
    method UpsertEach(pairs: seq<(string, string)>, failAt: Option<nat>) returns (ok: bool)
      modifies this
      ensures ok <==> failAt.None? || failAt.value >= |pairs|
      ensures ok ==> rows == UpsertAll(old(rows), pairs)
      ensures !ok ==> rows == UpsertAll(old(rows), pairs[..failAt.value])
    {
      var i := 0;
      while i < |pairs|
        invariant 0 <= i <= |pairs|
        invariant rows == UpsertAll(old(rows), pairs[..i])
        invariant failAt.Some? ==> i <= failAt.value
      {
        if failAt == Some(i) {
          return false;
        }
        assert pairs[..i + 1][..i] == pairs[..i];
        rows := rows[pairs[i].0 := pairs[i].1];
        i := i + 1;
      }
      assert pairs[..i] == pairs;
      return true;
    }
  }
}
