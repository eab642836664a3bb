/** SPM settings: a caller's choice resolved against the installed bundle, and the receipt that records it. */
module SpmSelection {
  import opened Outcome
  import opened CalendarText
  import Text

  const SUPPORTED_COUNTY_VINTAGE := "2020"

  datatype Kind = County | National | Metro

  /** A setting that the caller may leave out. */
  datatype Setting<+T> = Omitted | Sent(value: T)

  datatype Selection = Selection(
    forecastContentSha256: Setting<Option<string>>,
    scenario: Setting<Option<string>>,
    geographyKind: Setting<Kind>,
    geographyId: Setting<Option<string>>,
    countyVintage: Setting<string>,
    asOf: Setting<Option<string>>)

  /** All six settings. */
  datatype Values = Values(
    forecastContentSha256: Option<string>,
    scenario: Option<string>,
    geographyKind: Kind,
    geographyId: Option<string>,
    countyVintage: string,
    asOf: Option<string>)

  function Or<T>(setting: Setting<T>, default: T): T { if setting.Sent? then setting.value else default }

  /** The settings with the model's own defaults for the omitted ones. */
  function ValuesOf(s: Selection): Values {
    Values(Or(s.forecastContentSha256, None), Or(s.scenario, None), Or(s.geographyKind, County), Or(s.geographyId, None),
           Or(s.countyVintage, SUPPORTED_COUNTY_VINTAGE), Or(s.asOf, None))
  }

  /** A selection that sends every setting, as a resolved one does. */
  function AllSent(v: Values): Selection {
    Selection(Sent(v.forecastContentSha256), Sent(v.scenario), Sent(v.geographyKind), Sent(v.geographyId),
              Sent(v.countyVintage), Sent(v.asOf))
  }

  // ---- What the models accept ----

  predicate IsHash(text: string) {
    |text| == 64 && forall i :: 0 <= i < |text| ==> IsDigit(text[i]) || 'a' <= text[i] <= 'f'
  }

  /** White space to a regular expression. */
  predicate IsSpace(c: char) {
    || '\U{9}' <= c <= '\U{d}' || c == ' ' || c == '\U{85}' || c == '\U{a0}' || c == '\U{1680}'
    || '\U{2000}' <= c <= '\U{200a}' || c == '\U{2028}' || c == '\U{2029}' || c == '\U{202f}' || c == '\U{205f}'
    || c == '\U{3000}'
  }

  /** Only white space to `str.strip`, which strips four control characters more. */
  predicate IsBlank(text: string) {
    forall i :: 0 <= i < |text| ==> IsSpace(text[i]) || '\U{1c}' <= text[i] <= '\U{1f}'
  }

  predicate IsName(text: string) { text != "" && forall i :: 0 <= i < |text| ==> !IsSpace(text[i]) }

  predicate FieldsValid(v: Values) {
    && (v.forecastContentSha256.Some? ==> IsHash(v.forecastContentSha256.value))
    && (v.scenario.Some? ==> IsName(v.scenario.value))
    && v.geographyId != Some("")
    && |v.countyVintage| == 4 && AllDigits(v.countyVintage)
    && (v.asOf.Some? ==> FromIso(v.asOf.value).Some?)
  }

  /** A hash is 64 hexadecimal digits, in lower case. */
  lemma HashesAreHexadecimal(text: string)
    ensures IsHash(text) <==> |text| == 64 && forall c :: c in text ==> c in "0123456789abcdef"
  {
    if |text| == 64 && forall c :: c in text ==> c in "0123456789abcdef" {
      forall i | 0 <= i < |text| ensures IsDigit(text[i]) || 'a' <= text[i] <= 'f' { assert text[i] in text; }
    }
  }

  /** A name has no white space in it; visible ASCII is all allowed. */
  lemma NamesHaveNoSpace(text: string)
    ensures (exists c :: c in text && c in " \t\n\r\U{a0}\U{3000}") ==> !IsName(text)
    ensures text != "" && (forall c :: c in text ==> '!' <= c <= '~') ==> IsName(text)
    ensures IsBlank(text) ==> text == "" || !IsName(text) || exists c :: c in text && '\U{1c}' <= c <= '\U{1f}'
  {
    if text != "" && (forall c :: c in text ==> '!' <= c <= '~') {
      forall i | 0 <= i < |text| ensures !IsSpace(text[i]) { assert text[i] in text; }
    }
    if text != "" && IsBlank(text) && IsName(text) { assert text[0] in text; }
  }

  /** A metro needs an area that is not blank; nothing else accepts one. */
  predicate LocationValid(kind: Kind, geographyId: Option<string>) {
    if kind == Metro then geographyId.Some? && !IsBlank(geographyId.value) else geographyId.None?
  }

  /** A metro's area needs a character that is not white space; the other kinds need none to be sent. */
  lemma AreasAreVisible(kind: Kind, text: string)
    ensures kind == Metro && (exists c :: c in text && '!' <= c <= '~') ==> LocationValid(kind, Some(text))
    ensures (forall i :: 0 <= i < |text| ==> text[i] in " \t\n\r\U{1f}\U{3000}") ==> !LocationValid(kind, Some(text))
    ensures LocationValid(kind, None) <==> kind != Metro
    ensures kind != Metro ==> !LocationValid(kind, Some(text))
  {
    if kind == Metro && exists c :: c in text && '!' <= c <= '~' {
      var c :| c in text && '!' <= c <= '~';
      var i :| 0 <= i < |text| && text[i] == c;
      assert !IsBlank(text);
    }
  }

  predicate Valid(v: Values) { FieldsValid(v) && LocationValid(v.geographyKind, v.geographyId) }

  // ---- Merging a choice over the bundle's defaults ----

  /** The caller's settings over the defaults. Another kind than the default also replaces the
      default's area, and the hash always is the bundle's. */
  function Merged(chosen: Selection, defaults: Values): Values {
    Values(
      defaults.forecastContentSha256,
      if Or(chosen.scenario, None).Some? then chosen.scenario.value else defaults.scenario,
      Or(chosen.geographyKind, defaults.geographyKind),
      if chosen.geographyKind.Sent? && chosen.geographyKind.value != defaults.geographyKind then
        Or(chosen.geographyId, None)
      else Or(chosen.geographyId, defaults.geographyId),
      Or(chosen.countyVintage, defaults.countyVintage),
      Or(chosen.asOf, defaults.asOf))
  }

  method MergeSelectionValues(chosen: Selection, defaults: Values) returns (values: Values)
    ensures values == Merged(chosen, defaults)
  {
    values := defaults;
    if chosen.forecastContentSha256.Sent? { values := values.(forecastContentSha256 := chosen.forecastContentSha256.value); }
    if chosen.scenario.Sent? { values := values.(scenario := chosen.scenario.value); }
    if chosen.geographyKind.Sent? { values := values.(geographyKind := chosen.geographyKind.value); }
    if chosen.geographyId.Sent? { values := values.(geographyId := chosen.geographyId.value); }
    if chosen.countyVintage.Sent? { values := values.(countyVintage := chosen.countyVintage.value); }
    if chosen.asOf.Sent? { values := values.(asOf := chosen.asOf.value); }
    if chosen.geographyKind.Sent? && chosen.geographyKind.value != defaults.geographyKind {
      values := values.(geographyId := ValuesOf(chosen).geographyId);
    }
    values := values.(forecastContentSha256 := defaults.forecastContentSha256);
    var scenario := ValuesOf(chosen).scenario;
    values := values.(scenario := if scenario.Some? then scenario else defaults.scenario);
  }

  /** Valid settings over valid defaults are valid, except exactly when the caller sends a null
      area without a kind and the default is a metro. */
  lemma MergeBreaksLocationOnlyByNullId(chosen: Selection, defaults: Values)
    requires Valid(ValuesOf(chosen)) && Valid(defaults)
    ensures Valid(Merged(chosen, defaults))
       <==> !(chosen.geographyId == Sent(None) && chosen.geographyKind.Omitted? && defaults.geographyKind == Metro)
  {
    assert FieldsValid(Merged(chosen, defaults));
  }

  // ---- Resolving ----

  /** The installed bundle: its pinned defaults, and what its forecast accepts and offers. */
  datatype Bundle = Bundle(
    defaults: Values,
    accepts: (Option<string>, Option<string>) -> bool,
    offers: (Option<string>, Option<string>, Option<string>) -> bool)

  predicate Certified(bundle: Bundle) {
    Valid(bundle.defaults) && bundle.defaults.forecastContentSha256.Some? && bundle.defaults.scenario.Some?
  }

  function Resolve(chosen: Selection, bundle: Bundle, stored: bool): Result<Values> {
    var values := Merged(chosen, bundle.defaults);
    var hash := ValuesOf(chosen).forecastContentSha256;
    if hash.Some? && hash != bundle.defaults.forecastContentSha256 then
      Err(if stored then "SPM_CONFIGURATION_UNAVAILABLE" else "SPM_SETTINGS_INVALID")
    else if !Valid(values) || !bundle.accepts(values.scenario, values.asOf) then Err("SPM_SETTINGS_INVALID")
    else if values.countyVintage != SUPPORTED_COUNTY_VINTAGE then Err("SPM_SETTINGS_INVALID")
    else if values.geographyKind == Metro && !bundle.offers(values.scenario, values.geographyId, values.asOf) then
      Err("SPM_GEOGRAPHY_UNAVAILABLE")
    else Ok(values)
  }

  /** What the caller sends is what is resolved, and what the caller leaves out is the bundle's; but
      the hash always is the bundle's, a null scenario counts as left out, and so does not the area
      when another kind than the bundle's is sent: then there is none. */
  lemma SentSettingsWin(chosen: Selection, bundle: Bundle, stored: bool)
    requires Resolve(chosen, bundle, stored).Ok?
    ensures var resolved, defaults := Resolve(chosen, bundle, stored).value, bundle.defaults;
            && resolved.forecastContentSha256 == defaults.forecastContentSha256
            && (chosen.scenario.Sent? && chosen.scenario.value.Some? ==> resolved.scenario == chosen.scenario.value)
            && (chosen.scenario.Omitted? || chosen.scenario.value.None? ==> resolved.scenario == defaults.scenario)
            && (chosen.geographyKind.Sent? ==> resolved.geographyKind == chosen.geographyKind.value)
            && (chosen.geographyKind.Omitted? ==> resolved.geographyKind == defaults.geographyKind)
            && (chosen.geographyId.Sent? ==> resolved.geographyId == chosen.geographyId.value)
            && (chosen.geographyId.Omitted? && resolved.geographyKind == defaults.geographyKind ==>
                  resolved.geographyId == defaults.geographyId)
            && (chosen.geographyId.Omitted? && resolved.geographyKind != defaults.geographyKind ==> resolved.geographyId.None?)
            && (chosen.countyVintage.Sent? ==> resolved.countyVintage == chosen.countyVintage.value)
            && (chosen.countyVintage.Omitted? ==> resolved.countyVintage == defaults.countyVintage)
            && (chosen.asOf.Sent? ==> resolved.asOf == chosen.asOf.value)
            && (chosen.asOf.Omitted? ==> resolved.asOf == defaults.asOf)
  {
  }

  /** A hash that names another artifact than the bundle's. */
  predicate NamesOther(chosen: Selection, bundle: Bundle) {
    chosen.forecastContentSha256.Sent? && chosen.forecastContentSha256.value.Some?
    && chosen.forecastContentSha256.value != bundle.defaults.forecastContentSha256
  }

  /** What is resolved is supported by the bundle; and of the refusals, the configuration is
      unavailable exactly for a stored selection of another artifact, and a geography exactly for a
      metro that the artifact does not offer. */
  lemma ResolvedIsSupported(chosen: Selection, bundle: Bundle, stored: bool)
    ensures var resolved, values := Resolve(chosen, bundle, stored), Merged(chosen, bundle.defaults);
            && (resolved.Ok? ==>
                  && !NamesOther(chosen, bundle)
                  && bundle.accepts(resolved.value.scenario, resolved.value.asOf) && resolved.value.countyVintage == "2020"
                  && (resolved.value.geographyKind == Metro ==>
                        bundle.offers(resolved.value.scenario, resolved.value.geographyId, resolved.value.asOf)))
            && (NamesOther(chosen, bundle) ==>
                  resolved == Err(if stored then "SPM_CONFIGURATION_UNAVAILABLE" else "SPM_SETTINGS_INVALID"))
            && (!NamesOther(chosen, bundle) && (!Valid(values) || !bundle.accepts(values.scenario, values.asOf)
                                                || values.countyVintage != "2020") ==>
                  resolved == Err("SPM_SETTINGS_INVALID"))
            && (!NamesOther(chosen, bundle) && Valid(values) && bundle.accepts(values.scenario, values.asOf)
                && values.countyVintage == "2020" ==>
                  if values.geographyKind == Metro && !bundle.offers(values.scenario, values.geographyId, values.asOf) then
                    resolved == Err("SPM_GEOGRAPHY_UNAVAILABLE")
                  else resolved.Ok?)
  {
  }

  /** Resolving a resolved selection returns it unchanged, whether it comes from storage or not;
      and a resolved selection is valid and pins the bundle's artifact. */
  lemma ResolvingIsIdempotent(chosen: Selection, bundle: Bundle, stored: bool, again: bool)
    requires Certified(bundle) && Valid(ValuesOf(chosen))
    ensures var resolved := Resolve(chosen, bundle, stored);
            resolved.Ok? ==>
              && Valid(resolved.value)
              && resolved.value.forecastContentSha256 == bundle.defaults.forecastContentSha256
              && resolved.value.scenario.Some?
              && Resolve(AllSent(resolved.value), bundle, again) == resolved
  {
    var resolved := Resolve(chosen, bundle, stored);
    if resolved.Ok? {
      assert Merged(AllSent(resolved.value), bundle.defaults) == resolved.value;
    }
  }

  // ---- Receipts ----

  datatype RuntimeVersions = RuntimeVersions(policyengine: string, core: string, us: string, calculator: string)

  datatype Provenance = Provenance(
    forecastId: string,
    forecastSha256: string,
    scenario: string,
    geographyKind: Kind,
    geographyId: Option<string>,
    countyVintage: string,
    asOf: Option<Date>,
    years: seq<string>,
    versions: RuntimeVersions)

  predicate IsCalendarYear(text: string) { |text| == 4 && AllDigits(text) }

  /** Four-digit years in strictly ascending order. */
  predicate YearsValid(years: seq<string>) {
    && (forall i :: 0 <= i < |years| ==> IsCalendarYear(years[i]))
    && forall i, j :: 0 <= i < j < |years| ==> FourDigitValue(years[i]) < FourDigitValue(years[j])
  }

  lemma DigitsCompare(a: char, b: char)
    requires IsDigit(a) && IsDigit(b)
    ensures a < b <==> DigitValue(a) < DigitValue(b)
    ensures a == b <==> DigitValue(a) == DigitValue(b)
  {
  }

  /** Four-digit years compare as texts as they compare as numbers. */
  lemma YearsCompare(a: string, b: string)
    requires IsCalendarYear(a) && IsCalendarYear(b)
    ensures FourDigitValue(a) < FourDigitValue(b) <==> Text.Precedes(a, b)
  {
    DigitsCompare(a[0], b[0]);
    DigitsCompare(a[1], b[1]);
    DigitsCompare(a[2], b[2]);
    DigitsCompare(a[3], b[3]);
    if FourDigitValue(a) < FourDigitValue(b) {
      assert Text.PrecedesAt(a, b, if a[0] != b[0] then 0 else if a[1] != b[1] then 1 else if a[2] != b[2] then 2 else 3);
    }
  }

  lemma CalendarYearIs(text: string)
    ensures IsCalendarYear(text) <==> |text| == 4 && forall c :: c in text ==> c in "0123456789"
  {
    if |text| == 4 && forall c :: c in text ==> c in "0123456789" {
      forall k | 0 <= k < |text| ensures IsDigit(text[k]) { assert text[k] in text; }
    }
  }

  /** A receipt's years are four-digit texts that are sorted, as texts, without repetition. */
  lemma YearsAreSorted(years: seq<string>)
    ensures YearsValid(years)
       <==> (forall i :: 0 <= i < |years| ==> IsCalendarYear(years[i]))
            && forall i, j :: 0 <= i < j < |years| ==> Text.Precedes(years[i], years[j])
  {
    if forall i :: 0 <= i < |years| ==> IsCalendarYear(years[i]) {
      forall i, j | 0 <= i < j < |years|
        ensures FourDigitValue(years[i]) < FourDigitValue(years[j]) <==> Text.Precedes(years[i], years[j])
      {
        YearsCompare(years[i], years[j]);
      }
    }
  }

  predicate ReceiptValid(p: Provenance) {
    && IsName(p.forecastId) && IsHash(p.forecastSha256) && IsName(p.scenario)
    && p.geographyId != Some("") && LocationValid(p.geographyKind, p.geographyId)
    && |p.countyVintage| == 4 && AllDigits(p.countyVintage)
    && (p.asOf.Some? ==> OnCalendar(p.asOf.value))
    && YearsValid(p.years)
    && p.versions.policyengine != "" && p.versions.core != "" && p.versions.us != "" && p.versions.calculator != ""
  }

  function BuildProvenance(forecastId: string, forecastSha256: string, selection: Values, years: seq<string>,
                           versions: RuntimeVersions): (r: Result<Provenance>)
    ensures r.Ok? ==> ReceiptValid(r.value)
  {
    if selection.forecastContentSha256 != Some(forecastSha256) then
      Err("SPM receipt differs from the SPM configuration")
    else if selection.scenario.None? then Err("Resolved SPM configuration must include scenario")
    else
      var asOf := if selection.asOf.Some? then FromIso(selection.asOf.value) else None;
      if selection.asOf.Some? && asOf.None? then Err("as_of must be a date")
      else
        var receipt := Provenance(forecastId, forecastSha256, selection.scenario.value, selection.geographyKind,
                                  selection.geographyId, selection.countyVintage, asOf, years, versions);
        if ReceiptValid(receipt) then Ok(receipt) else Err("the receipt is not valid")
  }

  function ResolvedConfiguration(p: Provenance): Values
    requires ReceiptValid(p)
  {
    Values(Some(p.forecastSha256), Some(p.scenario), p.geographyKind, p.geographyId, p.countyVintage,
           if p.asOf.Some? then Some(IsoFormat(p.asOf.value)) else None)
  }

  /** A receipt built from a selection reads back as that selection; and one is built from every
      valid, complete selection whose artifact, forecast name, years and versions are in order. */
  lemma ReceiptRoundTrip(forecastId: string, forecastSha256: string, selection: Values, years: seq<string>,
                         versions: RuntimeVersions)
    requires Valid(selection)
    ensures var built := BuildProvenance(forecastId, forecastSha256, selection, years, versions);
            && (built.Ok? ==> ResolvedConfiguration(built.value) == selection)
            && (built.Ok? <==>
                  && selection.forecastContentSha256 == Some(forecastSha256) && selection.scenario.Some?
                  && IsName(forecastId) && YearsValid(years)
                  && versions.policyengine != "" && versions.core != "" && versions.us != "" && versions.calculator != "")
  {
    if selection.asOf.Some? { IsoRoundTrip(selection.asOf.value); }
  }
}
