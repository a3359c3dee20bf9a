# Insights report parameters

A model of the parameter logic of umami's insights report form
(`InsightsParameters`). The form edits two ordered collections of a report's
parameters: `fields` (field names) and `filters` (a field name, an operator
and a value). It adds an entry only when no entry of that collection has the
same name. It removes an entry with `Array.prototype.splice`, working on a
copy. Every change is sent to the report store as a patch that names one
collection. Two values gate the form. `parametersSelected` decides whether
the collection editors are shown. `queryEnabled` decides whether the query
can be submitted.

Modules:

- `Wrappers`: `Option`.
- `JsValues`: JavaScript truthiness (ToBoolean), `&&` and `||`, which yield one of their operands, and `xs?.length`.
- `JsArrays`: `find`, and `splice(start, 1)` with ECMAScript's index rules. A negative start counts from the end, a start past the end removes nothing, and a start before the beginning removes the first element. It is given as a function and as the in-place algorithm on an array.
- `ReportParameters`: the report parameters, the patch type and the store's merge.
- `ReportContext`: the report store as a class. It holds the current parameters and a ghost log of every patch it received.
- `InsightsParameters`: the field table, the two gates and the add/remove handlers.

## Model

| member | source | states |
|---|---|---|
| `JsValues.And` | components/pages/reports/insights/InsightsParameters.js:31-32 | `a && b` is truthy iff both operands are; when `a` is falsy the result is `a` itself |
| `JsValues.Or` | components/pages/reports/insights/InsightsParameters.js:32 | `a \|\| b` is truthy iff either operand is; when `a` is truthy the result is `a` |
| `JsValues.OptionalLength` | components/pages/reports/insights/InsightsParameters.js:32 | `xs?.length` is truthy iff `xs` is present and non-empty; it is `undefined` when `xs` is missing |
| `JsArrays.Find` | components/pages/reports/insights/InsightsParameters.js:64 | `find` returns nothing iff no element satisfies the callback; otherwise it returns the first element that does |
| `JsArrays.Spliced` | components/pages/reports/insights/InsightsParameters.js:71 | the start position comes from the helper `SpliceStart`; for a valid index, length drops by one, earlier elements stay and later ones shift down one. A negative index removes at length+index, or removes the first element when below -length. An index at or past the end leaves the array unchanged |
| `JsArrays.SplicedMultiset` | components/pages/reports/insights/InsightsParameters.js:71 | removing at a valid index removes exactly that one element (multiset of the result plus it is the original) |
| `JsArrays.SplicedSubset` | components/pages/reports/insights/InsightsParameters.js:71 | splice never introduces an element that was not in the array |
| `JsArrays.SpliceOne` | components/pages/reports/insights/InsightsParameters.js:71 | the in-place shift-down algorithm of splice leaves exactly `Spliced(old contents, start)` in the first `length` slots |
| `ReportParameters.Merged` | components/pages/reports/insights/InsightsParameters.js:65 | taking in a patch replaces each collection the patch names; the other collection, the website and the date range are kept |
| `ReportContext.ReportStore.constructor` | components/pages/reports/insights/InsightsParameters.js:23-29 | a store starts with the given parameters and no patches received |
| `ReportContext.ReportStore.UpdateReport` | components/pages/reports/insights/InsightsParameters.js:65 | after `updateReport`, the parameters are the old ones merged with the patch, and the patch is logged as received |
| `InsightsParameters.FieldLabel` | components/pages/reports/insights/InsightsParameters.js:122 | a name has a label iff some table entry has that name, and the label is that entry's |
| `InsightsParameters.FieldOptionsWellFormed` | components/pages/reports/insights/InsightsParameters.js:34-45 | the field table has ten entries, all typed "string", with distinct names |
| `InsightsParameters.FieldLabelOfEachOption` | components/pages/reports/insights/InsightsParameters.js:34-45 | every field of the table is displayed with its own label |
| `InsightsParameters.ParametersSelected` | components/pages/reports/insights/InsightsParameters.js:28-31 | holds iff report parameters exist and the website id, start date and end date are all truthy |
| `InsightsParameters.QueryEnabled` | components/pages/reports/insights/InsightsParameters.js:28-32 | holds iff report parameters exist, the website id is truthy, a date range is present, and `fields` or `filters` is non-empty |
| `InsightsParameters.QueryEnabledIgnoresDates` | components/pages/reports/insights/InsightsParameters.js:32 | replacing the dates inside a present date range never changes `queryEnabled` |
| `InsightsParameters.GatesAreIndependent` | components/pages/reports/insights/InsightsParameters.js:31-32 | each gate can hold while the other does not (a date range without dates; empty collections) |
| `InsightsParameters.PatchKeepsParametersSelected` | components/pages/reports/insights/InsightsParameters.js:31 | no collection patch changes `parametersSelected` |
| `InsightsParameters.AddPatch` | components/pages/reports/insights/InsightsParameters.js:61-67 | no update iff an entry of the same name is present; otherwise the update names only `id` and holds the old collection with the entry appended at the end |
| `InsightsParameters.AddKeepsNamesUnique` | components/pages/reports/insights/InsightsParameters.js:61-67 | if the names of a collection are unique before an add, they are unique after it |
| `InsightsParameters.AddIsIdempotent` | components/pages/reports/insights/InsightsParameters.js:64 | adding an entry to a collection that just received it sends nothing |
| `InsightsParameters.RemoveUndoesAdd` | components/pages/reports/insights/InsightsParameters.js:61-73 | removing the just-added entry, at its index or at -1, gives back the original collection |
| `InsightsParameters.HandleAdd` | components/pages/reports/insights/InsightsParameters.js:61-67 | for a duplicate name, the store is unchanged and receives nothing. Otherwise it receives exactly one patch, appending the entry to `id`. The other collection, the website and the date range never change, and unique names stay unique |
| `InsightsParameters.SplicedKeepsNamesUnique` | components/pages/reports/insights/InsightsParameters.js:69-73 | removing by splice keeps the names of a collection unique |
| `InsightsParameters.RemovePatch` | components/pages/reports/insights/InsightsParameters.js:69-73 | the update names only `id` and holds the collection spliced at `index`. It is computed on a fresh copy, and the method may modify no existing object |
| `InsightsParameters.HandleRemove` | components/pages/reports/insights/InsightsParameters.js:69-73 | the store always receives exactly one patch, replacing `id` by its splice at `index` (the same contents when the index is at or past the end; an index below -length removes the first element). Nothing else changes, and unique names stay unique |

## Left out

- Rendering: the JSX, the popups, `AddButton`, `FieldSelectForm`/`FilterSelectForm`, `ParameterList` and `BaseParameters`. These components are not part of this model.
- `useMessages`, `useFormat`, `useFilters`: the localized labels, `formatValue` and `filterLabels` are not modelled. A field's label is represented by its message key (`labels.url`, `labels.pageTitle`, ...).
- `runReport`, `isRunning` and `handleSubmit`: running a report is asynchronous and belongs to the store. The submit handler only forwards its values.
- `ReportContext.ReportStore.UpdateReport`: the store's real merge is not visible. It is modelled as replacing the collections a patch names and keeping everything else.
- `InsightsParameters.HandleAdd`, `InsightsParameters.HandleRemove`: in the source, a handler is a closure over the parameters of the render that created it. The model reads the store's current parameters, which assumes the form re-rendered after the last update.
- `InsightsParameters.ParametersSelected`, `InsightsParameters.QueryEnabled`: the source yields the JavaScript value of the `&&` chain. The model gives its truthiness, which is all the form uses. NaN and non-integer numbers are not modelled.
- `fields` or `filters` missing while the parameters exist: `find` and the spread would throw, so both collections are modelled as always present. A missing report or parameters object is modelled by the gates.
- `JsArrays.Spliced`: the index is an integer, so ToIntegerOrInfinity on a fractional or non-numeric index is not modelled. The array of removed elements that `splice` returns is ignored by the source and is not modelled.
