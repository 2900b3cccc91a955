# PreparaCalda dosage and mixing-order engine, in Dafny

PreparaCalda prepares agrochemical tank mixes for grape and mango spraying.
The user picks products from a catalog, gives the tank volume and a dose per
product, and receives the quantity of each product for the tank and a mixing
protocol: half a tank of water, the products in category-priority order (with
a pre-dilution warning for products dosed in grams), and a final top-up.

This project models that engine as pure functions over immutable data:

- `Text` — upper-casing and substring containment, the two string operations
  every marker test uses, with the computable containment test proved equal to
  "some slice equals the marker".
- `Units` — unit inference from the formulation code (`obter_unidade`):
  grams for a solid marker, sachets for the sachet marker, millilitres otherwise.
- `Catalog` — the joined catalog as a sequence of rows (name, formulation,
  category name, priority), the first-row lookup by name, and the `isin` filter.
- `Sorting` — an insertion sort of rows by category priority, proved sorted and
  a permutation of its input.
- `Dosage` — scaling a per-reference dose to the tank (per 1000 L in sachets for
  the PROGIBB family, per 100 L in the inferred unit otherwise) and the dose map
  keyed by product name.
- `Protocol` — the protocol builder and its end-to-end properties.

Quantities are exact `real`s kept as a (value, unit) pair; the tank volume is an
`int`, as the volume field of the form yields whole litres. Errors that the
application would meet as a crash or as an empty page are explicit:
`NotFound(name)` when a selected product has no catalog row (the row lookup at
app_offline.py:101 would fail), and `NothingSelected` for an empty selection
(the whole dose and protocol section is skipped at app_offline.py:96).

Three behaviours of the code are easy to misread, so the model states them explicitly:

- The pre-dilution warning is given exactly when the inferred unit is grams
  (app_offline.py:145). There is no separate marker set, and `FERT PO` plays no
  part beyond containing `PO`. So `GR` and `SÓLIDO` formulations are warned too.
- The ordering is pandas' default `sort_values`, which is not stable. The model
  promises sortedness and permutation only. `PrioritiesDoNotDependOnTies` shows
  that the priority of every position is the same for every valid ordering.
- The dose unit comes from the first catalog row with the selected name
  (`.iloc[0]`, app_offline.py:101). The warning looks at each step's own row.
  A PROGIBB product with a solid formulation is therefore dosed in sachets and
  still carries the pre-dilution warning (`ProgibbStepWarnings`).

## Model

| member | source | states |
|---|---|---|
| Text.Upper | app_offline.py:59 | the result has the input's length and each character is replaced by its capital as Python's `upper()` gives it for ASCII and Latin-1 lower-case letters, every other character being kept |
| Text.UpperIdempotent | app_offline.py:59 | upper-casing an upper-cased string changes nothing, so the marker tests see the same text either way |
| Text.AccentedCapitals | app_offline.py:59-62 | `ê` and `ó` become `Ê` and `Ó`, so `sachê` and `sólido` reach the accented markers |
| Text.ContainsIsSubstring | app_offline.py:60-62 | the containment test holds exactly when some slice of the string equals the marker (Python `in` on strings), both directions |
| Text.UpperContains | app_offline.py:59-62 | a piece whose capitals are the marker, anywhere in the string and in any case, makes the upper-cased string contain the marker |
| Text.ContainsShort | app_offline.py:60-62 | a string no longer than the marker contains it only by being equal to it |
| Units.ContainsAnyIsSubstring | app_offline.py:60 | `any(x in f ...)` holds exactly when one of the markers is a slice of the string |
| Units.InferUnitSpec | app_offline.py:58-64 | every code gets exactly one unit: grams iff a solid marker occurs in the upper-cased code, sachets iff no solid marker but the sachet marker occurs, millilitres iff neither |
| Units.InferredLabel | app_offline.py:61-64 | the unit label is always one of `g`, `sachês`, `ml` |
| Units.InferUnitIgnoresCase | app_offline.py:59 | a code and its upper-cased form get the same unit |
| Units.SolidMarkerGivesGrams | app_offline.py:59-61 | a solid marker written in any case anywhere in the code gives grams, whatever surrounds it, the sachet marker included |
| Units.SachetMarkerGivesSachets | app_offline.py:59-63 | the sachet marker written in any case gives sachets when no solid marker is present |
| Units.SolidExamples | app_offline.py:60-61 | `WP`, lower-case `wg` and `Sachê WG` give grams |
| Units.LiquidExamples | app_offline.py:64 | `SC` and `EC` give millilitres |
| Catalog.Find | app_offline.py:101 | the lookup yields nothing iff no row has the name, and otherwise the first row with that name |
| Catalog.FindUnique | app_offline.py:101 | with unique names, the lookup of a row's name yields that row |
| Catalog.Filter | app_offline.py:131 | each row keeps its multiplicity when its name is selected and is dropped otherwise |
| Catalog.FilterMembership | app_offline.py:131 | a row is kept iff it is in the catalog and its name is selected |
| Sorting.Insert | app_offline.py:132 | inserting into a priority-sorted sequence keeps it sorted and adds exactly the one row |
| Sorting.SortByPriority | app_offline.py:132 | the sorted rows are non-decreasing by priority and a permutation of the input |
| Sorting.SortedPermutationsAgreeOnPriorities | app_offline.py:132 | two priority-sorted arrangements of the same rows have the same priority at every position |
| Dosage.ReferenceVolume | app_offline.py:113-117 | a dose is expressed per a positive reference volume |
| Dosage.ComputeQuantity | app_offline.py:112-119 | the quantity is to the tank what the dose is to the reference volume (1000 L for PROGIBB, 100 L otherwise); PROGIBB is in sachets, anything else in the inferred unit |
| Dosage.ProgibbIgnoresFormulation | app_offline.py:112-115 | for a PROGIBB product the formulation has no effect and the unit is sachets |
| Dosage.ProgibbIgnoresCase | app_offline.py:112 | the PROGIBB test gives the same answer on a name and on its upper-cased form |
| Dosage.QuantityLinearInRate | app_offline.py:114-118 | the quantity scales with the dose and adds over doses, in an unchanged unit |
| Dosage.QuantityLinearInVolume | app_offline.py:114-118 | the quantity adds over tank volumes; doubling the tank doubles it |
| Dosage.QuantityNonNegative | app_offline.py:92-118 | with dose at least 0 and tank at least 100 L the quantity is non-negative and grows with the dose |
| Dosage.ProgibbExample | app_offline.py:112-115 | `Progibb GA4` at 2 sachets per 1000 L in 3000 L is 6 sachets, for any formulation |
| Dosage.WettablePowderExample | app_offline.py:116-119 | a non-PROGIBB `WP` product at 50 per 100 L in 2000 L is 1000 g |
| Dosage.Names | app_offline.py:131 | the selected names, one per selection entry, in order |
| Dosage.DoseMap | app_offline.py:95-119 | the map succeeds iff every selected name has a catalog row; its keys are exactly the selected names; a failure names the first selected product without a row |
| Dosage.DoseMapEntry | app_offline.py:100-119 | each entry is the quantity from the product's last dose and the formulation of its first catalog row |
| Dosage.LastEntry | app_offline.py:100 | every selected name has a last entry in the selection, the one whose dose the map keeps |
| Dosage.ProgibbEntriesInSachets | app_offline.py:112-115 | every PROGIBB entry of the dose map is in sachets |
| Protocol.Products | app_offline.py:134 | the rows of the steps, position by position |
| Protocol.NumberSteps | app_offline.py:134-146 | steps carry the ordered rows, consecutive numbers, the dose-map quantity, and a warning iff the formulation is dosed in grams |
| Protocol.DoseLookupNeverMisses | app_offline.py:131-139 | every row kept by the filter has an entry in the dose map, so the lookup never misses |
| Protocol.OrderedRowsHaveDoses | app_offline.py:131-139 | every row of the ordered selection has an entry in the dose map |
| Protocol.Assemble | app_offline.py:128-148 | the assembled protocol follows the selection (see `Follows`) |
| Protocol.BuildProtocol | app_offline.py:96-148 | a protocol exists iff the selection is non-empty and fully listed; it opens with half the tank of water and closes at the full volume; its steps are a priority-sorted permutation of the selected rows, numbered 1..n, each with its dose-map quantity and a warning iff grams; otherwise it reports `NothingSelected` or `NotFound` of a selected name |
| Protocol.StepIsSelectedRow | app_offline.py:131-134 | every step's row is a catalog row whose name was selected |
| Protocol.StepQuantityFromOwnRow | app_offline.py:101-139 | with unique catalog names and each product selected once, a step's quantity is computed from its own row and its own dose |
| Protocol.ProgibbStepWarnings | app_offline.py:112-146 | a PROGIBB step is in sachets, and one whose formulation code is solid is also warned for pre-dilution |
| Protocol.PrioritiesDoNotDependOnTies | app_offline.py:132 | any other priority-sorted arrangement of the selected rows has the protocol's priority at every position |
| Protocol.MissingProductExample | app_offline.py:101 | selecting a product with no catalog row produces `NotFound` and no steps |
| Protocol.TwoRowsOrdered | app_offline.py:132 | two rows of different priorities have a single priority-sorted arrangement, lower priority first |
| Protocol.FungicideBeforeAdjuvantExample | app_offline.py:128-148 | a priority-1 `WP` fungicide selected after a priority-2 adjuvant comes first, at 1000 g with a warning, between 1000 L of water and a top-up to 2000 L |

## Left out

- Page setup, styling, widgets, columns, expanders and all HTML rendering (app_offline.py:7-55, 76-77, 86-92, 104-110, 122-125, 135-142): presentation only. The button that triggers the protocol (app_offline.py:123) is not modelled; `BuildProtocol` is what happens when it is pressed.
- Loading the two CSV files, the merge on the category id and the cached load (app_offline.py:67-83): file I/O. The joined catalog is an input sequence, and a missing file (no catalog) is not modelled.
- The list of names offered for selection (app_offline.py:89): a widget option list. Because it is drawn from the catalog, a real selection always satisfies `AllListed` and names each product once (`DistinctProducts`).
- Number formatting (`:,.2f`, `:.0f`): presentation. Quantities stay exact (value, unit) pairs rather than formatted strings.
- Floating point: doses are exact `real`s and the volume is whole litres, so float rounding in `(d / 100) * vol` is not modelled.
- Text.Upper: models Python's `upper()` on ASCII and on the Latin-1 lower-case letters only. It does not model `ß` to `SS`, `ÿ`, `µ`, the dotless `ı` or the long `ſ`, nor anything beyond Latin-1. `str()` of a missing spreadsheet cell is also not modelled; formulations are strings.
- The history log and any pre-dilution marker set other than "unit is grams": neither exists in this file.
- Stability of the ordering among equal priorities: the source's sort does not promise it, so the model proves sortedness and permutation only.
