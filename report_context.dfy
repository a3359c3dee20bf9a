/**
 * The report-state store the form talks to. Only the part the form uses is
 * modelled: the current parameters and `updateReport`, which takes in a
 * patch naming the collections to replace.
 */
module ReportContext {
  import opened Wrappers
  import opened JsValues
  import opened ReportParameters

  class ReportStore {
    var websiteId: JsValue
    var dateRange: Option<DateRange>
    var fields: seq<Entry>
    var filters: seq<Entry>
    /** Every patch `updateReport` has received, oldest first. */
    ghost var received: seq<Patch>

    constructor (p: Parameters)
      ensures Parameters() == p && received == []
    {
      websiteId, dateRange, fields, filters := p.websiteId, p.dateRange, p.fields, p.filters;
      received := [];
    }

    /** The current `report.parameters`. */
    function Parameters(): Parameters
      reads this
    {
      ReportParameters.Parameters(websiteId, dateRange, fields, filters)
    }

    /** `updateReport({ parameters: patch })`. */
    method UpdateReport(patch: Patch)
      modifies this
      ensures Parameters() == Merged(old(Parameters()), patch)
      ensures received == old(received) + [patch]
    {
      if Fields in patch {
        fields := patch[Fields];
      }
      if Filters in patch {
        filters := patch[Filters];
      }
      received := received + [patch];
    }
  }
}
