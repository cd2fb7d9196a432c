/** The computational part of the report-generation handler of Backend/server.js:
    request validation, the section/field mapping with its per-field fallback, and the
    section and field counts of the report metadata. */
module ReportAssembly {
  import opened Common
  import opened Values
  import opened DataExtractor

  /** What the handler keeps for one declared field: the record `processField` built,
      or, when processing threw, `{id, label, value: 'N/A', unit, error: 'Processing failed'}`. */
  datatype FieldOutcome =
    | Processed(record: FieldRecord)
    | Failed(id: Json, fieldLabel: Json, unit: Json)
  {
    /** The `value` member of either shape. */
    function Value(): Json
    {
      match this
      case Processed(record) => record.value
      case Failed(_, _, _) => NotAvailable
    }

    /** The `error` member, which only the fallback shape has. */
    function Error(): Option<string>
    {
      match this
      case Processed(_) => None
      case Failed(_, _, _) => Some(ProcessingFailed)
    }
  }

  const ProcessingFailed: string := "Processing failed"

  /** A section of an assessment configuration. */
  datatype Section = Section(id: Json, title: Json, fields: seq<Field>)

  /** The configuration of one assessment type. */
  datatype AssessmentConfig = AssessmentConfig(name: Json, sections: seq<Section>)

  /** A section of the report: the configuration's id and title with one outcome per field. */
  datatype ProcessedSection = ProcessedSection(id: Json, title: Json, fields: seq<FieldOutcome>)

  // ---------------------------------------------------------------------------
  // Section and field mapping

  /** The `try { processField } catch { ... }` around one field. */
  function ProcessFieldSafely(record: Json, field: Field): (r: FieldOutcome)
    ensures r.Failed? <==> ProcessField(record, field).Throw?
    ensures r.Failed? ==> r.id == field.id && r.fieldLabel == field.fieldLabel &&
                          r.unit == Or(field.unit, Str("")) && r.Value() == NotAvailable &&
                          r.Error() == Some("Processing failed")
    ensures r.Processed? ==> ProcessField(record, field) == Normal(r.record)
  {
    match ProcessField(record, field)
    case Normal(f) => Processed(f)
    case Throw => Failed(field.id, field.fieldLabel, Or(field.unit, Str("")))
  }

  /** `section.fields.map(...)`: exactly one outcome per declared field, in declaration
      order, each depending on its own field only. */
  function ProcessFields(record: Json, fields: seq<Field>): (r: seq<FieldOutcome>)
    ensures |r| == |fields|
    ensures forall j :: 0 <= j < |fields| ==> r[j] == ProcessFieldSafely(record, fields[j])
  {
    if |fields| == 0 then []
    else [ProcessFieldSafely(record, fields[0])] + ProcessFields(record, fields[1..])
  }

  /** `config.sections.map(...)`: the configuration's sections in order, each with its id,
      its title and the outcomes of its fields. */
  function ProcessSections(record: Json, sections: seq<Section>): (r: seq<ProcessedSection>)
    ensures |r| == |sections|
    ensures forall i :: 0 <= i < |sections| ==>
      && r[i].id == sections[i].id
      && r[i].title == sections[i].title
      && r[i].fields == ProcessFields(record, sections[i].fields)
  {
    if |sections| == 0 then []
    else
      [ProcessedSection(sections[0].id, sections[0].title, ProcessFields(record, sections[0].fields))]
      + ProcessSections(record, sections[1..])
  }

  /** A failing field never disturbs its siblings: replacing one declared field changes
      at most the outcome at its own position. */
  lemma SiblingsUnaffected(record: Json, fields: seq<Field>, j: nat, other: Field)
    requires j < |fields|
    ensures |ProcessFields(record, fields[j := other])| == |ProcessFields(record, fields)|
    ensures forall k :: 0 <= k < |fields| && k != j ==>
      ProcessFields(record, fields[j := other])[k] == ProcessFields(record, fields)[k]
  {
  }

  // ---------------------------------------------------------------------------
  // Metadata counts

  /** `sections.reduce((total, section) => total + section.fields.length, 0)`. */
  function FieldTotal(sections: seq<ProcessedSection>): nat
  {
    if |sections| == 0 then 0 else FieldTotal(sections[..|sections| - 1]) + |sections[|sections| - 1].fields|
  }

  /** The number of fields a configuration declares. */
  function DeclaredFields(sections: seq<Section>): nat
  {
    if |sections| == 0 then 0 else |sections[0].fields| + DeclaredFields(sections[1..])
  }

  lemma {:induction false} DeclaredFieldsAppend(sections: seq<Section>, s: Section)
    ensures DeclaredFields(sections + [s]) == DeclaredFields(sections) + |s.fields|
  {
    if |sections| > 0 {
      assert (sections + [s])[1..] == sections[1..] + [s];
      DeclaredFieldsAppend(sections[1..], s);
    } else {
      assert sections + [s] == [s];
    }
  }

  /** Sections holding as many fields as the declared ones hold as many fields in all. */
  lemma {:induction false} FieldTotalOfSizes(ps: seq<ProcessedSection>, sections: seq<Section>)
    requires |ps| == |sections|
    requires forall i :: 0 <= i < |ps| ==> |ps[i].fields| == |sections[i].fields|
    ensures FieldTotal(ps) == DeclaredFields(sections)
    decreases |ps|
  {
    var n := |ps|;
    if n > 0 {
      FieldTotalOfSizes(ps[..n - 1], sections[..n - 1]);
      assert sections == sections[..n - 1] + [sections[n - 1]];
      DeclaredFieldsAppend(sections[..n - 1], sections[n - 1]);
    }
  }

  /** The metadata's field count is the number of fields the configuration declares. */
  lemma FieldTotalIsDeclared(record: Json, sections: seq<Section>)
    ensures FieldTotal(ProcessSections(record, sections)) == DeclaredFields(sections)
  {
    FieldTotalOfSizes(ProcessSections(record, sections), sections);
  }

  // ---------------------------------------------------------------------------
  // Request validation

  /** `assessmentData.find(a => a.session_id === sessionId)`, as an index. */
  function FindSession(records: seq<Record>, sessionId: Json): (r: Option<nat>)
    ensures r.Some? ==> r.value < |records| && StrictEq(Prop(records[r.value], "session_id"), sessionId)
    ensures r.Some? ==> forall j :: 0 <= j < r.value ==> !StrictEq(Prop(records[j], "session_id"), sessionId)
    ensures r.None? ==> forall j :: 0 <= j < |records| ==> !StrictEq(Prop(records[j], "session_id"), sessionId)
  {
    if |records| == 0 then None
    else if StrictEq(Prop(records[0], "session_id"), sessionId) then Some(0)
    else
      match FindSession(records[1..], sessionId)
      case None => None
      case Some(k) => Some(k + 1)
  }

  /** `assessmentConfigs[assessmentId]`. The configurations are keyed by string codes;
      any other kind of identifier names none of them. */
  function ConfigFor(configs: map<string, AssessmentConfig>, assessmentId: Json): Option<AssessmentConfig>
  {
    if assessmentId.Str? && assessmentId.s in configs then Some(configs[assessmentId.s]) else None
  }

  /** How a report request is judged before any field is processed. */
  datatype Validation =
    | Accepted(index: nat, config: AssessmentConfig)
    | Rejected(status: nat, message: string)

  /** The three checks of the handler, in their order: a session id must be given (400),
      must name a stored assessment (404), whose type must have a configuration (400). */
  function ValidateReportRequest(sessionId: Json, records: seq<Record>,
                                 configs: map<string, AssessmentConfig>): (r: Validation)
    ensures !Truthy(sessionId) ==> r == Rejected(400, "session_id is required")
    ensures Truthy(sessionId) && FindSession(records, sessionId).None? ==>
      r == Rejected(404, "Assessment data not found")
    ensures r.Accepted? ==>
      && Truthy(sessionId)
      && FindSession(records, sessionId) == Some(r.index)
      && ConfigFor(configs, Prop(records[r.index], "assessment_id")) == Some(r.config)
    ensures (Truthy(sessionId) && FindSession(records, sessionId).Some? &&
             ConfigFor(configs, Prop(records[FindSession(records, sessionId).value], "assessment_id")).None?) ==>
      r == Rejected(400, "Assessment configuration not found")
  {
    if !Truthy(sessionId) then Rejected(400, "session_id is required")
    else
      match FindSession(records, sessionId)
      case None => Rejected(404, "Assessment data not found")
      case Some(k) =>
        match ConfigFor(configs, Prop(records[k], "assessment_id"))
        case None => Rejected(400, "Assessment configuration not found")
        case Some(config) => Accepted(k, config)
  }

  // ---------------------------------------------------------------------------
  // The report

  /** `reportData`: the configuration's name, the processed sections, and the session
      and assessment identifiers of its metadata. */
  datatype ReportData = ReportData(assessmentName: Json, sections: seq<ProcessedSection>,
                                   sessionId: Json, assessmentId: Json)

  /** The counts of `reportInfo.metadata`: how many sections and fields the report holds.
      The handler keeps them in a local record; they are not part of the response. */
  datatype ReportMetadata = ReportMetadata(sections: nat, fields: nat)

  /** The report holds the configuration's name, one processed section per configured
      section, and the request's session id with the record's assessment id. */
  function BuildReport(record: Record, config: AssessmentConfig, sessionId: Json): (r: ReportData)
    ensures r.assessmentName == config.name
    ensures r.sections == ProcessSections(record, config.sections)
    ensures |r.sections| == |config.sections|
    ensures r.sessionId == sessionId
    ensures r.assessmentId == Prop(record, "assessment_id")
  {
    ReportData(config.name, ProcessSections(record, config.sections), sessionId, Prop(record, "assessment_id"))
  }

  function Metadata(report: ReportData): ReportMetadata
  {
    ReportMetadata(|report.sections|, FieldTotal(report.sections))
  }

  /** The metadata counts the configuration's sections and declared fields. */
  lemma MetadataCountsDeclarations(record: Record, config: AssessmentConfig, sessionId: Json)
    ensures Metadata(BuildReport(record, config, sessionId)) ==
            ReportMetadata(|config.sections|, DeclaredFields(config.sections))
  {
    FieldTotalIsDeclared(record, config.sections);
  }

  /** The record the handler writes back: `reportGenerated = true` and the report path. */
  function MarkReported(record: Record, fileName: string): (r: Record)
    ensures Prop(r, "reportGenerated") == Bool(true)
    ensures Prop(r, "reportPath") == Str("/reports/" + fileName)
    ensures forall key :: key != "reportGenerated" && key != "reportPath" ==> Prop(r, key) == Prop(record, key)
  {
    Obj(record.fields["reportGenerated" := Bool(true)]["reportPath" := Str("/reports/" + fileName)])
  }
}
