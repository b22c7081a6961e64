/**
 * The transformation router: one death-review document and a program
 * configuration become exactly one DHIS2 tracker event, or the transform
 * throws (a string method called on a non-string value, or an invalid
 * reported date), which the callers catch.
 */
module FieldMapping {
  import opened Wrappers
  import opened JsValues
  import opened Documents
  import Text

  /** The form fields the C-MDN program maps, in the order of the `mappings` table. */
  datatype Field =
    | PatientAgeInYears | DateOfDeath | PregnantAtDeath | GavidaPregnancy | ParityPregnancy
    | MarriageStatusMaternal | EducationalLevelMaternal | MotherOccupationMaternal | WeeksPregnant
    | DaysSinceChildbirth | HoursDaysSince | Nationality | ChuName | ChuCodeDisp | HouseholdName
    | ChvName | ChvPhone | ReporterCadre | ReportDate

  /** The property name a field is stored under in the form. */
  function FieldName(f: Field): string {
    match f
    case PatientAgeInYears => "patient_age_in_years"
    case DateOfDeath => "date_of_death"
    case PregnantAtDeath => "pregnant_at_death"
    case GavidaPregnancy => "gavida_pregnancy"
    case ParityPregnancy => "parity_pregnancy"
    case MarriageStatusMaternal => "marriage_status_maternal"
    case EducationalLevelMaternal => "educational_level_maternal"
    case MotherOccupationMaternal => "mother_occupation_maternal"
    case WeeksPregnant => "weeks_pregnant"
    case DaysSinceChildbirth => "days_since_childbirth"
    case HoursDaysSince => "hours_days_since"
    case Nationality => "nationality"
    case ChuName => "chu_name"
    case ChuCodeDisp => "chu_code_disp"
    case HouseholdName => "household_name"
    case ChvName => "chv_name"
    case ChvPhone => "chv_phone"
    case ReporterCadre => "reporter_cadre"
    case ReportDate => "report_date"
  }

  /** The `mappings` table: the DHIS2 data element id of each field. */
  function DataElement(f: Field): string {
    match f
    case PatientAgeInYears => "SjKctl9bPGk"
    case DateOfDeath => "nOBOcP6XxzQ"
    case PregnantAtDeath => "J6aK3hgLN2q"
    case GavidaPregnancy => "rSPuQwsFMN1"
    case ParityPregnancy => "kzoFlZlVU18"
    case MarriageStatusMaternal => "vr9N7az7jCT"
    case EducationalLevelMaternal => "kdpNkAdLGwE"
    case MotherOccupationMaternal => "hqP4OGUgLxu"
    case WeeksPregnant => "PTSRgVFkCDa"
    case DaysSinceChildbirth => "S8z0bxQaNqx"
    case HoursDaysSince => "MvLTyFSCPgN"
    case Nationality => "QtP5E8twVr3"
    case ChuName => "ZZ0TDz8rqes"
    case ChuCodeDisp => "yXRsh8aPlbs"
    case HouseholdName => "zwYtA5MEuoS"
    case ChvName => "XuUjeqMdP1z"
    case ChvPhone => "wNIB1Wfqzvy"
    case ReporterCadre => "AjxNcaMDxdW"
    case ReportDate => "QGS1ZOw97zV"
  }

  /** Which object a field is read from: `fields` or `fields.group_review`. */
  datatype Source = TopLevel | Review

  /** The per-field transform handed to `addDataValue`. */
  datatype Normaliser = Verbatim | DateTime | Capitalised | EducationLabel | OccupationLabel | NationalityLabel

  datatype Rule = Rule(field: Field, source: Source, normaliser: Normaliser)

  /** The `addDataValue` calls, in the order they push onto `dataValues`. */
  const Rules: seq<Rule> := [
    Rule(PatientAgeInYears, TopLevel, Verbatim),
    Rule(DateOfDeath, TopLevel, DateTime),
    Rule(PregnantAtDeath, Review, Capitalised),
    Rule(GavidaPregnancy, Review, Verbatim),
    Rule(ParityPregnancy, Review, Verbatim),
    Rule(WeeksPregnant, Review, Verbatim),
    Rule(DaysSinceChildbirth, Review, Verbatim),
    Rule(HoursDaysSince, Review, Verbatim),
    Rule(MarriageStatusMaternal, Review, Capitalised),
    Rule(EducationalLevelMaternal, Review, EducationLabel),
    Rule(MotherOccupationMaternal, Review, OccupationLabel),
    Rule(Nationality, Review, NationalityLabel),
    Rule(ChuName, TopLevel, Verbatim),
    Rule(ChuCodeDisp, TopLevel, Verbatim),
    Rule(HouseholdName, TopLevel, Verbatim),
    Rule(ChvName, TopLevel, Verbatim),
    Rule(ChvPhone, TopLevel, Verbatim)
  ]

  const EducationMap: map<string, string> := map[
    "post-secondary" := "Higher than secondary",
    "none" := "None",
    "primary" := "Primary",
    "secondary" := "Secondary"
  ]

  const OccupationMap: map<string, string> := map[
    "employed" := "Employed",
    "self-employed" := "Self-employed",
    "not employed" := "Not employed",
    "unemployed" := "Not employed"
  ]

  const NationalityMap: map<string, string> := map[
    "kenyan" := "Kenyan",
    "other" := "Other"
  ]

  const DefaultNationality: string := "Kenyan"
  const CadreValue: string := "CHA"
  const DefaultStoredBy: string := "medic-integration"
  const CompletedStatus: string := "COMPLETED"

  /** The program the event is filed under; test mode supplies no program stage. */
  datatype Config = Config(program: Value, programStage: Value, orgUnit: Value)

  /**
   * What the transform reads from its runtime: the clock's ISO string, and
   * `new Date(x).toISOString()` for a reported date (`None` when it throws).
   */
  datatype Runtime = Runtime(now: string, isoString: Value -> Option<string>)

  datatype DataValue = DataValue(dataElement: string, value: string)

  datatype Coordinate = Coordinate(latitude: Value, longitude: Value)

  /** A DHIS2 tracker event; `event` is the optional event id (`undefined` when not set). */
  datatype Event = Event(
    program: Value,
    programStage: Value,
    orgUnit: Value,
    eventDate: string,
    occurredAt: string,
    status: string,
    storedBy: Value,
    dataValues: seq<DataValue>,
    coordinate: Option<Coordinate>,
    event: Value)

  /** Why the transform throws. */
  datatype TransformError =
    | DeathDateNotString        // `deathDate.includes` on a truthy non-string
    | NotAString(field: string) // a string normaliser applied to a non-string value
    | InvalidReportedDate       // `toISOString()` on an invalid date

  // ---------------------------------------------------------------------
  // Normalisers
  // ---------------------------------------------------------------------

  /** Education: the canonical label of the lower-cased value, or the value unchanged. */
  function NormaliseEducation(s: string): (r: string)
    ensures Text.ToLower(s) in EducationMap ==> r == EducationMap[Text.ToLower(s)]
    ensures Text.ToLower(s) !in EducationMap ==> r == s
  {
    var key := Text.ToLower(s);
    if key in EducationMap then EducationMap[key] else s
  }

  /** Occupation: the canonical label of the lower-cased value, or the value capitalised. */
  function NormaliseOccupation(s: string): (r: string)
    ensures Text.ToLower(s) in OccupationMap ==> r == OccupationMap[Text.ToLower(s)]
    ensures Text.ToLower(s) !in OccupationMap ==> r == Text.Capitalise(s)
  {
    var key := Text.ToLower(s);
    if key in OccupationMap then OccupationMap[key] else Text.Capitalise(s)
  }

  /** Nationality: the canonical label of the lower-cased value, or "Kenyan". */
  function NormaliseNationality(s: string): (r: string)
    ensures r == "Kenyan" || r == "Other"
    ensures r == "Other" <==> Text.ToLower(s) == "other"
    ensures Text.ToLower(s) !in NationalityMap ==> r == DefaultNationality
  {
    var key := Text.ToLower(s);
    if key in NationalityMap then NationalityMap[key] else DefaultNationality
  }

  /** The transform a normaliser applies to a string value. */
  function Normalise(n: Normaliser, s: string): string {
    match n
    case Verbatim => s
    case DateTime => Text.CompleteDate(s)
    case Capitalised => Text.Capitalise(s)
    case EducationLabel => NormaliseEducation(s)
    case OccupationLabel => NormaliseOccupation(s)
    case NationalityLabel => NormaliseNationality(s)
  }

  // ---------------------------------------------------------------------
  // The mapping table
  // ---------------------------------------------------------------------

  /** No two fields share a data element. */
  lemma DataElementInjective(f: Field, g: Field)
    requires DataElement(f) == DataElement(g)
    ensures f == g
  {
  }

  /** Every rule reads a distinct field, and none reads the cadre or the report date. */
  lemma RulesWellFormed()
    ensures |Rules| == 17
    ensures forall i, j :: 0 <= i < j < |Rules| ==> Rules[i].field != Rules[j].field
    ensures forall i :: 0 <= i < |Rules| ==> Rules[i].field != ReporterCadre && Rules[i].field != ReportDate
  {
  }

  // ---------------------------------------------------------------------
  // addDataValue
  // ---------------------------------------------------------------------

  /** The value `addDataValue` reads for a rule: `sourceObject[sourceField]`. */
  function SourceValue(doc: Doc, rule: Rule): Value {
    Get(if rule.source == TopLevel then FieldsOf(doc) else ReviewOf(doc), FieldName(rule.field))
  }

  /** The rule's transform does not throw: the value is absent, untransformed, or a string. */
  predicate Renderable(doc: Doc, rule: Rule) {
    var v := SourceValue(doc, rule);
    !Present(v) || rule.normaliser == Verbatim || v.Str?
  }

  /** `String(transform(value))`, or `String(value)` when the rule has no transform. */
  function Rendered(v: Value, n: Normaliser): string
    requires n == Verbatim || v.Str?
  {
    if n == Verbatim then ToJsString(v) else Normalise(n, v.s)
  }

  /** The entry a present value of a renderable rule contributes. */
  function EntryFor(doc: Doc, rule: Rule): DataValue
    requires Present(SourceValue(doc, rule)) && Renderable(doc, rule)
  {
    DataValue(DataElement(rule.field), Rendered(SourceValue(doc, rule), rule.normaliser))
  }

  /** One `addDataValue` call: pushes zero or one entry, or throws. */
  function AddDataValue(doc: Doc, rule: Rule): (r: Result<seq<DataValue>, TransformError>)
    ensures r.Success? <==> Renderable(doc, rule)
    ensures r.Failure? ==> r.error == NotAString(FieldName(rule.field))
    ensures r.Success? ==> |r.value| <= 1 && (r.value != [] <==> Present(SourceValue(doc, rule)))
  {
    var v := SourceValue(doc, rule);
    if !Present(v) then Success([])
    else if rule.normaliser == Verbatim || v.Str? then Success([EntryFor(doc, rule)])
    else Failure(NotAString(FieldName(rule.field)))
  }

  /** The `addDataValue` calls of `rules`, in order; the first throw aborts the rest. */
  function RuleEntries(doc: Doc, rules: seq<Rule>): (r: Result<seq<DataValue>, TransformError>)
    ensures r.Success? ==> |r.value| == |Emitted(doc, rules)|
  {
    if |rules| == 0 then Success([])
    else
      var head :- AddDataValue(doc, rules[0]);
      var tail :- RuleEntries(doc, rules[1..]);
      Success(head + tail)
  }

  /** The rules whose source value is present, in rule order: those that emit an entry. */
  function Emitted(doc: Doc, rules: seq<Rule>): (e: seq<Rule>)
    ensures |e| <= |rules|
    ensures forall r :: r in e <==> r in rules && Present(SourceValue(doc, r))
  {
    if |rules| == 0 then []
    else (if Present(SourceValue(doc, rules[0])) then [rules[0]] else []) + Emitted(doc, rules[1..])
  }

  /** Rules whose values are present and can be rendered. */
  predicate AllEmit(doc: Doc, e: seq<Rule>) {
    forall r :: r in e ==> Present(SourceValue(doc, r)) && Renderable(doc, r)
  }

  /** The entry of each rule of `e`, in order. */
  function Entries(doc: Doc, e: seq<Rule>): (dv: seq<DataValue>)
    requires AllEmit(doc, e)
  {
    seq(|e|, k requires 0 <= k < |e| => EntryFor(doc, e[k]))
  }

  lemma EntriesCons(doc: Doc, e: seq<Rule>)
    requires |e| > 0 && AllEmit(doc, e)
    ensures AllEmit(doc, e[1..])
    ensures Entries(doc, e) == [EntryFor(doc, e[0])] + Entries(doc, e[1..])
  {
    assert forall r :: r in e[1..] ==> r in e;
    var whole := Entries(doc, e);
    var expected := [EntryFor(doc, e[0])] + Entries(doc, e[1..]);
    assert |whole| == |expected|;
    forall k | 0 <= k < |whole|
      ensures whole[k] == expected[k]
    {
      if k > 0 {
        assert e[k] == e[1..][k - 1];
      }
    }
  }

  /** The entries `rules` emit when no rule throws: one per present value, in rule order. */
  function ExpectedEntries(doc: Doc, rules: seq<Rule>): (dv: seq<DataValue>)
    requires forall r :: r in rules ==> Renderable(doc, r)
  {
    Entries(doc, Emitted(doc, rules))
  }

  /** The `addDataValue` sequence throws exactly when some present value cannot be transformed. */
  lemma {:induction false} RuleEntriesSucceed(doc: Doc, rules: seq<Rule>)
    ensures RuleEntries(doc, rules).Success? <==> forall r :: r in rules ==> Renderable(doc, r)
    decreases |rules|
  {
    if |rules| > 0 {
      RuleEntriesSucceed(doc, rules[1..]);
      assert forall r :: r in rules <==> r == rules[0] || r in rules[1..];
    }
  }

  /** Prepending a rule prepends its entry exactly when its value is present. */
  lemma ExpectedEntriesCons(doc: Doc, rules: seq<Rule>)
    requires |rules| > 0
    requires forall r :: r in rules ==> Renderable(doc, r)
    ensures ExpectedEntries(doc, rules) ==
      (if Present(SourceValue(doc, rules[0])) then [EntryFor(doc, rules[0])] else []) + ExpectedEntries(doc, rules[1..])
  {
    assert forall r :: r in rules[1..] ==> r in rules;
    if Present(SourceValue(doc, rules[0])) {
      ExpectedEntriesConsPresent(doc, rules);
    } else {
      ExpectedEntriesConsAbsent(doc, rules);
    }
  }

  lemma ExpectedEntriesConsPresent(doc: Doc, rules: seq<Rule>)
    requires |rules| > 0 && Present(SourceValue(doc, rules[0]))
    requires forall r :: r in rules ==> Renderable(doc, r)
    requires forall r :: r in rules[1..] ==> Renderable(doc, r)
    ensures ExpectedEntries(doc, rules) == [EntryFor(doc, rules[0])] + ExpectedEntries(doc, rules[1..])
  {
    var e := Emitted(doc, rules);
    assert e == [rules[0]] + Emitted(doc, rules[1..]);
    EntriesCons(doc, e);
    assert e[1..] == Emitted(doc, rules[1..]);
  }

  lemma ExpectedEntriesConsAbsent(doc: Doc, rules: seq<Rule>)
    requires |rules| > 0 && !Present(SourceValue(doc, rules[0]))
    requires forall r :: r in rules ==> Renderable(doc, r)
    requires forall r :: r in rules[1..] ==> Renderable(doc, r)
    ensures ExpectedEntries(doc, rules) == ExpectedEntries(doc, rules[1..])
  {
    assert Emitted(doc, rules) == Emitted(doc, rules[1..]);
  }

  /**
   * When no rule throws, the `addDataValue` sequence emits exactly the present
   * fields, in rule order, each rendered by its rule.
   */
  lemma {:induction false} RuleEntriesMeaning(doc: Doc, rules: seq<Rule>)
    requires forall r :: r in rules ==> Renderable(doc, r)
    ensures RuleEntries(doc, rules) == Success(ExpectedEntries(doc, rules))
    decreases |rules|
  {
    if |rules| > 0 {
      assert forall r :: r in rules[1..] ==> r in rules;
      RuleEntriesMeaning(doc, rules[1..]);
      ExpectedEntriesCons(doc, rules);
      var head := AddDataValue(doc, rules[0]);
      assert rules[0] in rules;
      assert head == Success(if Present(SourceValue(doc, rules[0])) then [EntryFor(doc, rules[0])] else []);
      assert RuleEntries(doc, rules) == Success(head.value + ExpectedEntries(doc, rules[1..]));
    } else {
      assert |Emitted(doc, rules)| == 0;
      assert ExpectedEntries(doc, rules) == [];
    }
  }

  // ---------------------------------------------------------------------
  // transformToTrackerEvent
  // ---------------------------------------------------------------------

  /** `fields.date_of_death || new Date().toISOString()`. */
  function DeathDate(doc: Doc, rt: Runtime): (d: Value)
    ensures Truthy(Get(FieldsOf(doc), "date_of_death")) ==> d == Get(FieldsOf(doc), "date_of_death")
    ensures !Truthy(Get(FieldsOf(doc), "date_of_death")) ==> d == Str(rt.now)
  {
    Or(Get(FieldsOf(doc), "date_of_death"), Str(rt.now))
  }

  /** The report-date entry: the date part of the reported date's ISO form, when it is truthy. */
  function ReportDateEntries(doc: Doc, rt: Runtime): (r: Result<seq<DataValue>, TransformError>)
    ensures !Truthy(doc.reportedDate) ==> r == Success([])
    ensures Truthy(doc.reportedDate) ==> (r.Success? <==> rt.isoString(doc.reportedDate).Some?)
    ensures r.Success? && Truthy(doc.reportedDate) ==>
      r.value == [DataValue(DataElement(ReportDate), Text.BeforeFirst(rt.isoString(doc.reportedDate).value, 'T'))]
  {
    if !Truthy(doc.reportedDate) then Success([])
    else match rt.isoString(doc.reportedDate)
      case None => Failure(InvalidReportedDate)
      case Some(iso) => Success([DataValue(DataElement(ReportDate), Text.BeforeFirst(iso, 'T'))])
  }

  /** The coordinate pair, kept only when a geolocation has truthy latitude and longitude. */
  function CoordinateOf(doc: Doc): (c: Option<Coordinate>)
    ensures c.Some? <==> doc.geolocation.Some? && Truthy(doc.geolocation.value.latitude) && Truthy(doc.geolocation.value.longitude)
    ensures c.Some? ==> c.value == Coordinate(doc.geolocation.value.latitude, doc.geolocation.value.longitude)
  {
    match doc.geolocation
    case None => None
    case Some(g) => if Truthy(g.latitude) && Truthy(g.longitude) then Some(Coordinate(g.latitude, g.longitude)) else None
  }

  /** The cadre entry pushed after the mapped fields. */
  function CadreEntry(): DataValue {
    DataValue(DataElement(ReporterCadre), CadreValue)
  }

  /** Every condition under which the transform returns instead of throwing. */
  predicate Transformable(doc: Doc, rt: Runtime) {
    && DeathDate(doc, rt).Str?
    && (forall r :: r in Rules ==> Renderable(doc, r))
    && (Truthy(doc.reportedDate) ==> rt.isoString(doc.reportedDate).Some?)
  }

  /** `transformToTrackerEvent(doc, config)`: one event, or the error it throws. */
  function TransformToTrackerEvent(doc: Doc, cfg: Config, rt: Runtime): (r: Result<Event, TransformError>)
    ensures r.Success? <==> Transformable(doc, rt)
  {
    RuleEntriesSucceed(doc, Rules);
    var deathDate := DeathDate(doc, rt);
    if !deathDate.Str? then Failure(DeathDateNotString)
    else
      var eventDate := Text.CompleteDate(deathDate.s);
      var entries :- RuleEntries(doc, Rules);
      var report :- ReportDateEntries(doc, rt);
      var fields := FieldsOf(doc);
      Success(Event(
        program := cfg.program,
        programStage := cfg.programStage,
        orgUnit := Or(Get(fields, "chu_tracker_id"), cfg.orgUnit),
        eventDate := eventDate,
        occurredAt := eventDate,
        status := CompletedStatus,
        storedBy := Or(Get(fields, "chv_name"), Str(DefaultStoredBy)),
        dataValues := entries + [CadreEntry()] + report,
        coordinate := CoordinateOf(doc),
        event := Undefined))
  }

  // ---------------------------------------------------------------------
  // Properties of the transformed event
  // ---------------------------------------------------------------------

  predicate DistinctFields(rules: seq<Rule>) {
    forall i, j :: 0 <= i < j < |rules| ==> rules[i].field != rules[j].field
  }

  predicate DistinctElements(dv: seq<DataValue>) {
    forall i, j :: 0 <= i < j < |dv| ==> dv[i].dataElement != dv[j].dataElement
  }

  /** Filtering keeps the rules' fields pairwise distinct. */
  lemma {:induction false} EmittedFieldsDistinct(doc: Doc, rules: seq<Rule>)
    requires DistinctFields(rules)
    ensures DistinctFields(Emitted(doc, rules))
    decreases |rules|
  {
    if |rules| > 0 {
      var e' := Emitted(doc, rules[1..]);
      assert DistinctFields(rules[1..]) by {
        forall i, j | 0 <= i < j < |rules| - 1
          ensures rules[1..][i].field != rules[1..][j].field
        {
          assert rules[1..][i] == rules[i + 1] && rules[1..][j] == rules[j + 1];
        }
      }
      EmittedFieldsDistinct(doc, rules[1..]);
      forall r | r in e'
        ensures r.field != rules[0].field
      {
        var j :| 0 <= j < |rules| - 1 && rules[1..][j] == r;
        assert rules[j + 1] == r;
      }
    }
  }

  /** The entries of a transformed event: the present fields, then the cadre, then the report date. */
  lemma EventDataValues(doc: Doc, cfg: Config, rt: Runtime)
    requires TransformToTrackerEvent(doc, cfg, rt).Success?
    ensures forall r :: r in Rules ==> Renderable(doc, r)
    ensures TransformToTrackerEvent(doc, cfg, rt).value.dataValues ==
      ExpectedEntries(doc, Rules) + [CadreEntry()] + ReportDateEntries(doc, rt).value
  {
    RuleEntriesMeaning(doc, Rules);
  }

  /**
   * An event holds at least the cadre entry and at most one entry per mapped
   * field: one per present field, the cadre, and the report date exactly when
   * the document's reported date is truthy.
   */
  lemma DataValuesCount(doc: Doc, cfg: Config, rt: Runtime)
    requires TransformToTrackerEvent(doc, cfg, rt).Success?
    ensures var dv := TransformToTrackerEvent(doc, cfg, rt).value.dataValues;
      && |dv| == |Emitted(doc, Rules)| + 1 + (if Truthy(doc.reportedDate) then 1 else 0)
      && 1 <= |dv| <= 19
  {
    EventDataValues(doc, cfg, rt);
  }

  /** The cadre "CHA" always follows the mapped fields; the report date, when present, is a bare date. */
  lemma TrailingEntries(doc: Doc, cfg: Config, rt: Runtime)
    requires TransformToTrackerEvent(doc, cfg, rt).Success?
    ensures var dv := TransformToTrackerEvent(doc, cfg, rt).value.dataValues;
      var n := |Emitted(doc, Rules)|;
      && n < |dv| && dv[n] == DataValue("AjxNcaMDxdW", "CHA")
      && (n + 1 < |dv| <==> Truthy(doc.reportedDate))
      && (n + 1 < |dv| ==> dv[n + 1].dataElement == "QGS1ZOw97zV" && 'T' !in dv[n + 1].value)
  {
    EventDataValues(doc, cfg, rt);
    var dv := TransformToTrackerEvent(doc, cfg, rt).value.dataValues;
    TrailingShape(doc, rt);
    assert dv == ExpectedEntries(doc, Rules) + [CadreEntry()] + ReportDateEntries(doc, rt).value;
  }

  /** `TrailingEntries` for the entry list the transform assembles, stated without the transform. */
  lemma TrailingShape(doc: Doc, rt: Runtime)
    requires forall r :: r in Rules ==> Renderable(doc, r)
    requires ReportDateEntries(doc, rt).Success?
    ensures var dv := ExpectedEntries(doc, Rules) + [CadreEntry()] + ReportDateEntries(doc, rt).value;
      var n := |Emitted(doc, Rules)|;
      && n < |dv| && dv[n] == DataValue("AjxNcaMDxdW", "CHA")
      && (n + 1 < |dv| <==> Truthy(doc.reportedDate))
      && (n + 1 < |dv| ==> dv[n + 1].dataElement == "QGS1ZOw97zV" && 'T' !in dv[n + 1].value)
  {
    var ee := ExpectedEntries(doc, Rules);
    var report := ReportDateEntries(doc, rt).value;
    var dv := ee + [CadreEntry()] + report;
    assert |ee| == |Emitted(doc, Rules)|;
    assert dv[|ee|] == CadreEntry();
    if Truthy(doc.reportedDate) {
      assert dv[|ee| + 1] == report[0];
    }
  }

  /** Entries emitted by rules over distinct fields carry distinct data elements. */
  lemma ExpectedEntriesDistinct(doc: Doc, rules: seq<Rule>)
    requires DistinctFields(rules)
    requires forall r :: r in rules ==> Renderable(doc, r)
    ensures DistinctElements(ExpectedEntries(doc, rules))
  {
    var e := Emitted(doc, rules);
    EmittedFieldsDistinct(doc, rules);
    var ee := ExpectedEntries(doc, rules);
    forall i, j | 0 <= i < j < |ee|
      ensures ee[i].dataElement != ee[j].dataElement
    {
      if ee[i].dataElement == ee[j].dataElement {
        DataElementInjective(e[i].field, e[j].field);
      }
    }
  }

  /** No rule's entry uses the data element of the cadre or of the report date. */
  lemma ExpectedEntriesAvoidTrailing(doc: Doc)
    requires forall r :: r in Rules ==> Renderable(doc, r)
    ensures forall k :: 0 <= k < |ExpectedEntries(doc, Rules)| ==>
      ExpectedEntries(doc, Rules)[k].dataElement !in {DataElement(ReporterCadre), DataElement(ReportDate)}
  {
    RulesWellFormed();
    var e := Emitted(doc, Rules);
    var ee := ExpectedEntries(doc, Rules);
    forall k | 0 <= k < |ee|
      ensures ee[k].dataElement !in {DataElement(ReporterCadre), DataElement(ReportDate)}
    {
      assert e[k] in Rules;
      if ee[k].dataElement == DataElement(ReporterCadre) {
        DataElementInjective(e[k].field, ReporterCadre);
      }
      if ee[k].dataElement == DataElement(ReportDate) {
        DataElementInjective(e[k].field, ReportDate);
      }
    }
  }

  /** Concatenating entry lists with disjoint data elements keeps them distinct. */
  lemma DistinctConcat(a: seq<DataValue>, b: seq<DataValue>)
    requires DistinctElements(a) && DistinctElements(b)
    requires forall i, j :: 0 <= i < |a| && 0 <= j < |b| ==> a[i].dataElement != b[j].dataElement
    ensures DistinctElements(a + b)
  {
    var ab := a + b;
    forall i, j | 0 <= i < j < |ab|
      ensures ab[i].dataElement != ab[j].dataElement
    {
      if j < |a| {
        assert ab[i] == a[i] && ab[j] == a[j];
      } else if i >= |a| {
        assert ab[i] == b[i - |a|] && ab[j] == b[j - |a|];
      } else {
        assert ab[i] == a[i] && ab[j] == b[j - |a|];
      }
    }
  }

  /** The rules read pairwise distinct fields. */
  lemma RuleFieldsDistinct()
    ensures DistinctFields(Rules)
  {
    RulesWellFormed();
  }

  /** No data element occurs twice in an event. */
  lemma DataElementsDistinct(doc: Doc, cfg: Config, rt: Runtime)
    requires TransformToTrackerEvent(doc, cfg, rt).Success?
    ensures DistinctElements(TransformToTrackerEvent(doc, cfg, rt).value.dataValues)
  {
    EventDataValues(doc, cfg, rt);
    var ee := ExpectedEntries(doc, Rules);
    var report := ReportDateEntries(doc, rt).value;
    RuleFieldsDistinct();
    ExpectedEntriesDistinct(doc, Rules);
    ExpectedEntriesAvoidTrailing(doc);
    TrailingDistinct(ee, report, doc, rt);
  }

  lemma TrailingDistinct(ee: seq<DataValue>, report: seq<DataValue>, doc: Doc, rt: Runtime)
    requires ReportDateEntries(doc, rt).Success? && report == ReportDateEntries(doc, rt).value
    requires DistinctElements(ee)
    requires forall k :: 0 <= k < |ee| ==> ee[k].dataElement !in {DataElement(ReporterCadre), DataElement(ReportDate)}
    ensures DistinctElements(ee + [CadreEntry()] + report)
  {
    assert forall k :: 0 <= k < |report| ==> report[k].dataElement == DataElement(ReportDate);
    DistinctConcat(ee, [CadreEntry()]);
    DistinctConcat(ee + [CadreEntry()], report);
  }

  /**
   * A mapped field has an entry in the event exactly when its value is
   * present, and that entry is the rendered value.
   */
  lemma FieldEmittedIffPresent(doc: Doc, cfg: Config, rt: Runtime, rule: Rule)
    requires TransformToTrackerEvent(doc, cfg, rt).Success?
    requires rule in Rules
    ensures var dv := TransformToTrackerEvent(doc, cfg, rt).value.dataValues;
      (exists k :: 0 <= k < |dv| && dv[k].dataElement == DataElement(rule.field)) <==> Present(SourceValue(doc, rule))
    ensures Present(SourceValue(doc, rule)) ==> EntryFor(doc, rule) in TransformToTrackerEvent(doc, cfg, rt).value.dataValues
  {
    EventDataValues(doc, cfg, rt);
    var dv := TransformToTrackerEvent(doc, cfg, rt).value.dataValues;
    AssembledFieldIffPresent(doc, rt, rule);
    assert dv == ExpectedEntries(doc, Rules) + [CadreEntry()] + ReportDateEntries(doc, rt).value;
  }

  /** `FieldEmittedIffPresent` for the entry list the transform assembles, stated without the transform. */
  lemma AssembledFieldIffPresent(doc: Doc, rt: Runtime, rule: Rule)
    requires forall r :: r in Rules ==> Renderable(doc, r)
    requires ReportDateEntries(doc, rt).Success?
    requires rule in Rules
    ensures var dv := ExpectedEntries(doc, Rules) + [CadreEntry()] + ReportDateEntries(doc, rt).value;
      && ((exists k :: 0 <= k < |dv| && dv[k].dataElement == DataElement(rule.field)) <==> Present(SourceValue(doc, rule)))
      && (Present(SourceValue(doc, rule)) ==> EntryFor(doc, rule) in dv)
  {
    var e := Emitted(doc, Rules);
    var ee := ExpectedEntries(doc, Rules);
    var report := ReportDateEntries(doc, rt).value;
    var dv := ee + [CadreEntry()] + report;
    if Present(SourceValue(doc, rule)) {
      var k :| 0 <= k < |e| && e[k] == rule;
      assert dv[k] == ee[k] == EntryFor(doc, rule);
    }
    forall k | 0 <= k < |dv| && dv[k].dataElement == DataElement(rule.field)
      ensures Present(SourceValue(doc, rule))
    {
      RuleNotTrailing(rule);
      if k < |e| {
        assert dv[k] == ee[k] && e[k] in Rules;
        DataElementInjective(e[k].field, rule.field);
        RuleOfField(e[k], rule);
      } else if k == |e| {
        assert dv[k] == CadreEntry();
        DataElementInjective(ReporterCadre, rule.field);
      } else {
        assert dv[k] == report[k - |e| - 1];
        DataElementInjective(ReportDate, rule.field);
      }
    }
  }

  /** A field is read by at most one rule. */
  lemma RuleOfField(r1: Rule, r2: Rule)
    requires r1 in Rules && r2 in Rules && r1.field == r2.field
    ensures r1 == r2
  {
    RulesWellFormed();
    var i :| 0 <= i < |Rules| && Rules[i] == r1;
    var j :| 0 <= j < |Rules| && Rules[j] == r2;
    assert i == j;
  }

  /** No rule reads the cadre or the report date. */
  lemma RuleNotTrailing(rule: Rule)
    requires rule in Rules
    ensures rule.field != ReporterCadre && rule.field != ReportDate
  {
    RulesWellFormed();
  }

  /**
   * The event header: always COMPLETED, no event id, `occurredAt` equal to
   * `eventDate`, the org unit and the recorder resolved by fallback, and the
   * coordinate only for a geolocation with truthy latitude and longitude.
   */
  lemma EventHeader(doc: Doc, cfg: Config, rt: Runtime)
    requires TransformToTrackerEvent(doc, cfg, rt).Success?
    ensures var ev := TransformToTrackerEvent(doc, cfg, rt).value;
      var tracker := Get(FieldsOf(doc), "chu_tracker_id");
      var chv := Get(FieldsOf(doc), "chv_name");
      && ev.status == "COMPLETED"
      && ev.event == Undefined
      && ev.occurredAt == ev.eventDate
      && ev.program == cfg.program && ev.programStage == cfg.programStage
      && ev.orgUnit == (if Truthy(tracker) then tracker else cfg.orgUnit)
      && ev.storedBy == (if Truthy(chv) then chv else Str("medic-integration"))
      && (ev.coordinate.Some? <==>
            doc.geolocation.Some? && Truthy(doc.geolocation.value.latitude) && Truthy(doc.geolocation.value.longitude))
      && (ev.coordinate.Some? ==>
            ev.coordinate.value == Coordinate(doc.geolocation.value.latitude, doc.geolocation.value.longitude))
  {
  }

  /**
   * The event date is the date of death completed to a date-time, or the
   * clock's time when the date of death is falsy; the date-of-death entry,
   * when there is one, carries the same completed value.
   */
  lemma EventDateFromDeathDate(doc: Doc, cfg: Config, rt: Runtime)
    requires TransformToTrackerEvent(doc, cfg, rt).Success?
    ensures var ev := TransformToTrackerEvent(doc, cfg, rt).value;
      var d := Get(FieldsOf(doc), "date_of_death");
      && 'T' in ev.eventDate
      && (Truthy(d) ==> d.Str? && ev.eventDate == Text.CompleteDate(d.s))
      && (!Truthy(d) ==> ev.eventDate == Text.CompleteDate(rt.now))
      && (Present(d) ==> DataValue(DataElement(DateOfDeath), ev.eventDate) in ev.dataValues)
  {
    var d := Get(FieldsOf(doc), "date_of_death");
    if Present(d) {
      var rule := Rules[1];
      assert rule == Rule(DateOfDeath, TopLevel, DateTime);
      FieldEmittedIffPresent(doc, cfg, rt, rule);
      EventDataValues(doc, cfg, rt);
    }
  }

  // ---------------------------------------------------------------------
  // Properties of the normalisers
  // ---------------------------------------------------------------------

  lemma EducationLabelsStable()
    ensures forall k :: k in EducationMap ==> NormaliseEducation(EducationMap[k]) == EducationMap[k]
  {
    Text.ToLowerPointwise("Higher than secondary", "higher than secondary");
    Text.ToLowerPointwise("None", "none");
    Text.ToLowerPointwise("Primary", "primary");
    Text.ToLowerPointwise("Secondary", "secondary");
  }

  lemma OccupationLabelsStable()
    ensures forall k :: k in OccupationMap ==> NormaliseOccupation(OccupationMap[k]) == OccupationMap[k]
  {
    Text.ToLowerPointwise("Employed", "employed");
    Text.ToLowerPointwise("Self-employed", "self-employed");
    Text.ToLowerPointwise("Not employed", "not employed");
  }

  lemma NationalityLabelsStable()
    ensures forall k :: k in NationalityMap ==> NormaliseNationality(NationalityMap[k]) == NationalityMap[k]
  {
    Text.ToLowerPointwise("Kenyan", "kenyan");
    Text.ToLowerPointwise("Other", "other");
  }

  /** Normalising an already normalised value changes nothing. */
  lemma NormaliseIdempotent(n: Normaliser, s: string)
    ensures Normalise(n, Normalise(n, s)) == Normalise(n, s)
  {
    match n
    case Verbatim =>
    case DateTime => Text.CompleteDateIdempotent(s);
    case Capitalised => Text.CapitaliseIdempotent(s);
    case EducationLabel => EducationLabelsStable();
    case OccupationLabel => OccupationLabelsStable(); Text.CapitaliseIdempotent(s);
    case NationalityLabel => NationalityLabelsStable();
  }

  /** Occupation: a listed value maps to its label, any other is capitalised. */
  lemma OccupationExamples()
    ensures NormaliseOccupation("farmer") == "Farmer"
    ensures NormaliseOccupation("self-employed") == "Self-employed"
  {
    Text.ToLowerPointwise("farmer", "farmer");
    Text.ToLowerPointwise("armer", "armer");
    Text.ToLowerPointwise("self-employed", "self-employed");
  }

  /** Education keeps an unlisted value as written; nationality defaults to Kenyan. */
  lemma FallbackExamples()
    ensures NormaliseEducation("Post-Secondary") == "Higher than secondary"
    ensures NormaliseEducation("college") == "college"
    ensures NormaliseNationality("Ugandan") == "Kenyan"
  {
    Text.ToLowerPointwise("Post-Secondary", "post-secondary");
    Text.ToLowerPointwise("college", "college");
    Text.ToLowerPointwise("Ugandan", "ugandan");
  }

  /** A date-only value gains the midnight time; a date-time passes through. */
  lemma DateExamples()
    ensures Normalise(DateTime, "2024-03-01") == "2024-03-01T00:00:00.000Z"
    ensures Normalise(DateTime, "2024-03-01T08:00:00.000Z") == "2024-03-01T08:00:00.000Z"
  {
    assert 'T' !in "2024-03-01" by {
      assert forall i :: 0 <= i < 10 ==> "2024-03-01"[i] != 'T';
    }
    assert "2024-03-01T08:00:00.000Z"[10] == 'T';
  }

  /** `String(0)` is "0": a zero is present and emitted, not dropped. */
  lemma ZeroExample()
    ensures Present(Num(0)) && Rendered(Num(0), Verbatim) == "0"
  {
  }
}
