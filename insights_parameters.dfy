/**
 * The insights report form: its table of selectable fields, the two values
 * that gate what it shows and whether it can be submitted, and the handlers
 * that add an entry to, or remove one from, the `fields` or `filters`
 * collection through the report store.
 */
module InsightsParameters {
  import opened Wrappers
  import opened JsValues
  import opened JsArrays
  import opened ReportParameters
  import opened ReportContext

  // ---------------------------------------------------------------------
  // The field table
  // ---------------------------------------------------------------------

  /** A selectable field; `labelKey` is the key of its localized label. */
  datatype FieldOption = FieldOption(name: string, fieldType: string, labelKey: string)

  /** `fieldOptions`, in display order. */
  const FieldOptions: seq<FieldOption> := [
    FieldOption("url", "string", "url"),
    FieldOption("title", "string", "pageTitle"),
    FieldOption("referrer", "string", "referrer"),
    FieldOption("query", "string", "query"),
    FieldOption("browser", "string", "browser"),
    FieldOption("os", "string", "os"),
    FieldOption("device", "string", "device"),
    FieldOption("country", "string", "country"),
    FieldOption("region", "string", "region"),
    FieldOption("city", "string", "city")
  ]

  /** `fieldOptions.find(f => f.name === name)?.label`: the label key of the field called `name`, if any. */
  function FieldLabel(name: string): (key: Option<string>)
    ensures key.Some? <==> exists i :: 0 <= i < |FieldOptions| && FieldOptions[i].name == name
    ensures key.Some? ==> exists i :: 0 <= i < |FieldOptions| && FieldOptions[i].name == name &&
                                        FieldOptions[i].labelKey == key.value
  {
    match Find(FieldOptions, (o: FieldOption) => o.name == name)
    case None => None
    case Some(o) => Some(o.labelKey)
  }

  /** The table holds ten string-typed fields with distinct names. */
  lemma FieldOptionsWellFormed()
    ensures |FieldOptions| == 10
    ensures forall i :: 0 <= i < |FieldOptions| ==> FieldOptions[i].fieldType == "string"
    ensures forall i, j :: 0 <= i < j < |FieldOptions| ==> FieldOptions[i].name != FieldOptions[j].name
  {
  }

  /** Every field of the table is shown with its own label. */
  lemma FieldLabelOfEachOption(i: int)
    requires 0 <= i < |FieldOptions|
    ensures FieldLabel(FieldOptions[i].name) == Some(FieldOptions[i].labelKey)
  {
    FieldOptionsWellFormed();
  }

  // ---------------------------------------------------------------------
  // The gates
  // ---------------------------------------------------------------------

  /** The component's locals after destructuring `report || {}`, `parameters || {}` and `dateRange || {}`. */
  datatype Locals = Locals(
    websiteId: JsValue,
    dateRange: JsValue,
    startDate: JsValue,
    endDate: JsValue,
    fields: Option<seq<Entry>>,
    filters: Option<seq<Entry>>)

  /** Destructures the store's parameters; `None` stands for a missing `report` or `report.parameters`. */
  function Destructure(report: Option<Parameters>): Locals {
    match report
    case None => Locals(Undefined, Undefined, Undefined, Undefined, None, None)
    case Some(p) =>
      match p.dateRange
      case None => Locals(p.websiteId, Undefined, Undefined, Undefined, Some(p.fields), Some(p.filters))
      case Some(d) => Locals(p.websiteId, Object, d.startDate, d.endDate, Some(p.fields), Some(p.filters))
  }

  /**
   * `parametersSelected = websiteId && startDate && endDate`, read as a
   * condition: holds exactly when the website, the start date and the end
   * date are all set.
   */
  function ParametersSelected(report: Option<Parameters>): (selected: bool)
    ensures selected <==>
      && report.Some?
      && Truthy(report.value.websiteId)
      && report.value.dateRange.Some?
      && Truthy(report.value.dateRange.value.startDate)
      && Truthy(report.value.dateRange.value.endDate)
  {
    var l := Destructure(report);
    Truthy(And(And(l.websiteId, l.startDate), l.endDate))
  }

  /**
   * `queryEnabled = websiteId && dateRange && (fields?.length || filters?.length)`,
   * read as a condition: holds exactly when the website and a date range are
   * set and at least one collection is non-empty.
   */
  function QueryEnabled(report: Option<Parameters>): (enabled: bool)
    ensures enabled <==>
      && report.Some?
      && Truthy(report.value.websiteId)
      && report.value.dateRange.Some?
      && (|report.value.fields| > 0 || |report.value.filters| > 0)
  {
    var l := Destructure(report);
    Truthy(And(And(l.websiteId, l.dateRange), Or(OptionalLength(l.fields), OptionalLength(l.filters))))
  }

  /** `queryEnabled` looks at the date range object only, never at the dates inside it. */
  lemma QueryEnabledIgnoresDates(p: Parameters, d: DateRange)
    requires p.dateRange.Some?
    ensures QueryEnabled(Some(p.(dateRange := Some(d)))) == QueryEnabled(Some(p))
  {
  }

  /** Neither gate implies the other: each can hold while the other does not. */
  lemma GatesAreIndependent()
    ensures exists p :: QueryEnabled(Some(p)) && !ParametersSelected(Some(p))
    ensures exists p :: ParametersSelected(Some(p)) && !QueryEnabled(Some(p))
  {
    var noDates := Parameters(Str("w"), Some(DateRange(Undefined, Undefined)), [FieldEntry("url")], []);
    assert QueryEnabled(Some(noDates)) && !ParametersSelected(Some(noDates));
    var noEntries := Parameters(Str("w"), Some(DateRange(Object, Object)), [], []);
    assert ParametersSelected(Some(noEntries)) && !QueryEnabled(Some(noEntries));
  }

  /** A patch from the form leaves `parametersSelected` as it was. */
  lemma PatchKeepsParametersSelected(p: Parameters, patch: Patch)
    ensures ParametersSelected(Some(Merged(p, patch))) == ParametersSelected(Some(p))
  {
  }

  // ---------------------------------------------------------------------
  // Adding an entry
  // ---------------------------------------------------------------------

  /**
   * The update `handleAdd(id, value)` sends for the collection `data`:
   * none when an entry of the same name is already there, otherwise a patch
   * naming only `id`, with `value` appended at the end.
   */
  function AddPatch(data: seq<Entry>, id: CollectionId, value: Entry): (patch: Option<Patch>)
    ensures patch.None? <==> HasName(data, value.name)
    ensures patch.Some? ==> patch.value.Keys == {id} && patch.value[id] == data + [value]
  {
    if Find(data, (e: Entry) => e.name == value.name).Some? then None
    else Some(map[id := data + [value]])
  }

  /** Adding keeps the names of a collection unique. */
  lemma AddKeepsNamesUnique(data: seq<Entry>, id: CollectionId, value: Entry)
    requires NamesUnique(data)
    ensures AddPatch(data, id, value).Some? ==> NamesUnique(AddPatch(data, id, value).value[id])
  {
    if AddPatch(data, id, value).Some? {
      var added := data + [value];
      forall i, j | 0 <= i < j < |added|
        ensures added[i].name != added[j].name
      {
        if j == |data| {
          assert !(0 <= i < |data| && data[i].name == value.name);
        }
      }
    }
  }

  /** Adding the same entry a second time sends nothing. */
  lemma AddIsIdempotent(data: seq<Entry>, id: CollectionId, value: Entry)
    ensures AddPatch(data + [value], id, value).None?
  {
    assert (data + [value])[|data|].name == value.name;
  }

  /** Removing the entry just added, by its position or as the last one, gives the collection back. */
  lemma RemoveUndoesAdd(data: seq<Entry>, id: CollectionId, value: Entry)
    requires AddPatch(data, id, value).Some?
    ensures Spliced(AddPatch(data, id, value).value[id], |data|) == data
    ensures Spliced(AddPatch(data, id, value).value[id], -1) == data
  {
    var added := data + [value];
    assert added[..|data|] == data;
    assert Spliced(added, |data|) == added[..|data|];
    assert Spliced(added, -1) == added[..|data|];
  }

  /**
   * `handleAdd(id, value)`: when no entry of `id` is named like `value`, the
   * store receives one patch replacing that collection by the old one with
   * `value` at its end; otherwise nothing is sent and nothing changes.
   */
  method HandleAdd(store: ReportStore, id: CollectionId, value: Entry)
    modifies store
    ensures var before := old(store.Parameters());
            var data := before.Collection(id);
            if HasName(data, value.name) then
              store.Parameters() == before && store.received == old(store.received)
            else
              store.Parameters() == Merged(before, map[id := data + [value]]) &&
              store.received == old(store.received) + [map[id := data + [value]]]
    ensures store.Parameters().Collection(id.Other()) == old(store.Parameters().Collection(id.Other()))
    ensures store.websiteId == old(store.websiteId) && store.dateRange == old(store.dateRange)
    ensures NamesUnique(old(store.Parameters().Collection(id))) ==> NamesUnique(store.Parameters().Collection(id))
  {
    var data := store.Parameters().Collection(id);
    ghost var before := store.Parameters();
    var patch := AddPatch(data, id, value);
    if patch.Some? {
      store.UpdateReport(patch.value);
      if NamesUnique(data) {
        AddKeepsNamesUnique(data, id, value);
      }
    }
    assert store.Parameters().Collection(id.Other()) == Merged(before, if patch.Some? then patch.value else map[]).Collection(id.Other());
  }

  // ---------------------------------------------------------------------
  // Removing an entry
  // ---------------------------------------------------------------------

  /** Removing by `splice` keeps the names of a collection unique. */
  lemma SplicedKeepsNamesUnique(data: seq<Entry>, index: int)
    requires NamesUnique(data)
    ensures NamesUnique(Spliced(data, index))
  {
    var r := Spliced(data, index);
    var k := SpliceStart(|data|, index);
    if k < |data| {
      assert RemovesAt(data, r, k);
      forall i, j | 0 <= i < j < |r|
        ensures r[i].name != r[j].name
      {
        var i' := if i < k then i else i + 1;
        var j' := if j < k then j else j + 1;
        assert r[i] == data[i'] && r[j] == data[j'] && i' < j';
      }
    }
  }

  /**
   * The update `handleRemove(id, index)` sends for the collection `data`:
   * a patch naming only `id`, holding a copy of `data` spliced at `index`.
   * The copy is a fresh array, so `data` itself is never changed.
   */
  method RemovePatch(data: seq<Entry>, id: CollectionId, index: int) returns (patch: Patch)
    ensures patch.Keys == {id} && patch[id] == Spliced(data, index)
  {
    var copy := new Entry[|data|](i requires 0 <= i < |data| => data[i]);
    assert copy[..] == data;
    var length := SpliceOne(copy, index);
    patch := map[id := copy[..length]];
  }

  /**
   * `handleRemove(id, index)`: the store always receives one patch, replacing
   * collection `id` by its copy spliced at `index`; nothing else changes.
   */
  method HandleRemove(store: ReportStore, id: CollectionId, index: int)
    modifies store
    ensures var before := old(store.Parameters());
            var data := Spliced(before.Collection(id), index);
            store.Parameters() == Merged(before, map[id := data]) &&
            store.received == old(store.received) + [map[id := data]]
    ensures store.Parameters().Collection(id.Other()) == old(store.Parameters().Collection(id.Other()))
    ensures store.websiteId == old(store.websiteId) && store.dateRange == old(store.dateRange)
    ensures NamesUnique(old(store.Parameters().Collection(id))) ==> NamesUnique(store.Parameters().Collection(id))
  {
    var data := store.Parameters().Collection(id);
    ghost var before := store.Parameters();
    var patch := RemovePatch(data, id, index);
    assert patch == map[id := Spliced(data, index)];
    store.UpdateReport(patch);
    if NamesUnique(data) {
      SplicedKeepsNamesUnique(data, index);
    }
    assert store.Parameters().Collection(id.Other()) == Merged(before, patch).Collection(id.Other());
    assert store.Parameters().Collection(id) == Merged(before, patch).Collection(id);
  }
}
