/**
 * The report parameters an insights report is configured by: a website, a
 * date range and two ordered collections of entries, `fields` and `filters`,
 * plus the partial update the form sends to change one collection.
 */
module ReportParameters {
  import opened Wrappers
  import opened JsValues

  /** The two collection keys, `'fields'` and `'filters'`. */
  datatype CollectionId = Fields | Filters {
    function Other(): (o: CollectionId)
      ensures o != this
    {
      if this == Fields then Filters else Fields
    }
  }

  /** An entry of `fields` (a field name) or of `filters` (a field name, an operator tag and a value). */
  datatype Entry = FieldEntry(name: string) | FilterEntry(name: string, filter: string, value: string)

  datatype DateRange = DateRange(startDate: JsValue, endDate: JsValue)

  /** `report.parameters`; a missing date range is `None`. */
  datatype Parameters = Parameters(
    websiteId: JsValue,
    dateRange: Option<DateRange>,
    fields: seq<Entry>,
    filters: seq<Entry>)
  {
    /** `parameterData[id]` */
    function Collection(id: CollectionId): seq<Entry> {
      match id
      case Fields => fields
      case Filters => filters
    }
  }

  /** `{ parameters: { [id]: data } }`: the collections it names, each with its new contents. */
  type Patch = map<CollectionId, seq<Entry>>

  /** True when some entry of `data` is called `name`. */
  ghost predicate HasName(data: seq<Entry>, name: string) {
    exists i :: 0 <= i < |data| && data[i].name == name
  }

  /** No two entries of `data` share a name. */
  ghost predicate NamesUnique(data: seq<Entry>) {
    forall i, j :: 0 <= i < j < |data| ==> data[i].name != data[j].name
  }

  /** The parameters once the store has taken in `patch`: each collection it names is replaced, nothing else changes. */
  function Merged(p: Parameters, patch: Patch): (r: Parameters)
    ensures r.websiteId == p.websiteId && r.dateRange == p.dateRange
    ensures forall id :: r.Collection(id) == if id in patch then patch[id] else p.Collection(id)
  {
    p.(fields := if Fields in patch then patch[Fields] else p.fields,
       filters := if Filters in patch then patch[Filters] else p.filters)
  }
}
