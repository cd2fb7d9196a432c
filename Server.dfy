/** The in-memory assessment list of Backend/server.js and the two handlers that use
    it: the paginated list, which sorts the shared list in place when no filter applies,
    and report generation, which marks the found record as reported. */
module Server {
  import opened Common
  import opened Values
  import opened ReportAssembly
  import opened AssessmentList

  /** The body the report handler answers with: an error status and message, or the
      report's location and data. */
  datatype ReportResponse =
    | Refused(status: nat, error: string)
    | Generated(reportPath: string, fileName: string, sessionId: Json, reportData: ReportData)

  /** Marking one record as reported keeps every timestamp. */
  lemma MarkReportedTimed(rs: seq<Record>, k: nat, fileName: string)
    requires k < |rs| && Timed(rs)
    ensures Timed(rs[k := MarkReported(rs[k], fileName)])
  {
    var m := MarkReported(rs[k], fileName);
    assert Prop(m, "timestamp") == Prop(rs[k], "timestamp");
    assert rs[k] in rs;
    var t := rs[k := m];
    forall x | x in t ensures HasTimestamp(x) {
      var j :| 0 <= j < |t| && t[j] == x;
      if j != k {
        assert rs[j] in rs;
      }
    }
  }

  /** The shared `assessmentData` list. */
  class AssessmentStore {
    var records: seq<Record>

    /** Every record carries a numeric timestamp, so the list sort is well defined. */
    ghost predicate Valid()
      reads this
    {
      Timed(records)
    }

    constructor (initial: seq<Record>)
      requires Timed(initial)
      ensures Valid() && records == initial
    {
      records := initial;
    }

    /** `GET /api/assessments`. Filtering builds a new list, so the shared list is sorted
        in place only when neither filter applies. */
    method List(assessmentId: Option<string>, status: Option<string>,
                page: Option<string>, limit: Option<string>) returns (r: Listing)
      requires Valid()
      modifies this
      ensures Valid()
      ensures r == ListAssessments(old(records), assessmentId, status, page, limit)
      ensures records == if !Active(assessmentId) && !Active(status) then SortNewestFirst(old(records))
                         else old(records)
    {
      r := ListAssessments(records, assessmentId, status, page, limit);
      if !Active(assessmentId) && !Active(status) {
        records := SortNewestFirst(records);
      }
    }

    /** `POST /api/generate-report`, after the file is written under `fileName`: the
        request is validated, the report is assembled, and the found record is marked
        as reported; a refused request changes nothing. */
    method GenerateReport(sessionId: Json, configs: map<string, AssessmentConfig>, fileName: string)
      returns (r: ReportResponse)
      requires Valid()
      modifies this
      ensures Valid()
      ensures match ValidateReportRequest(sessionId, old(records), configs)
        case Rejected(status, message) =>
          r == Refused(status, message) && records == old(records)
        case Accepted(k, config) =>
          var report := BuildReport(old(records)[k], config, sessionId);
          && r == Generated("/reports/" + fileName, fileName, sessionId, report)
          && records == old(records)[k := MarkReported(old(records)[k], fileName)]
    {
      match ValidateReportRequest(sessionId, records, configs)
      case Rejected(status, message) =>
        r := Refused(status, message);
      case Accepted(k, config) =>
        var record := records[k];
        var report := BuildReport(record, config, sessionId);
        MarkReportedTimed(records, k, fileName);
        records := records[k := MarkReported(record, fileName)];
        r := Generated("/reports/" + fileName, fileName, sessionId, report);
    }
  }

  /** Generating a report does not change how the same request is judged: the marked
      record is still the first of its session and keeps its type. */
  lemma RepeatedRequestSameRecord(rs: seq<Record>, sessionId: Json,
                                  configs: map<string, AssessmentConfig>, fileName: string)
    requires ValidateReportRequest(sessionId, rs, configs).Accepted?
    ensures var k := ValidateReportRequest(sessionId, rs, configs).index;
            ValidateReportRequest(sessionId, rs[k := MarkReported(rs[k], fileName)], configs) ==
            ValidateReportRequest(sessionId, rs, configs)
  {
    var k := ValidateReportRequest(sessionId, rs, configs).index;
    var t := rs[k := MarkReported(rs[k], fileName)];
    assert Prop(t[k], "session_id") == Prop(rs[k], "session_id");
    assert Prop(t[k], "assessment_id") == Prop(rs[k], "assessment_id");
    assert forall j :: 0 <= j < k ==> t[j] == rs[j];
  }
}
