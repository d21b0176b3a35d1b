# Near-Earth objects and close approaches: the record-level data contract

This project models, in Dafny, how the NEO / close-approach system turns its two input data
sets into records, and how it turns linked records into output rows. It covers three parts.

- **Record types** (`models.py`). A `NearEarthObject` has a designation, an optional name,
  a diameter (NaN when unknown) and a hazard flag. A `CloseApproach` has the NEO's designation,
  an approach time, a distance and a velocity. Both start unlinked: the NEO has no approaches
  and the approach has no NEO. `fullname` is the designation's Python `repr`, a space, then
  the name. `time_str` renders the approach time.
- **Decoding** (`extract.py`). One row of the NEO table (column name to cell text) becomes one
  NEO: an empty name becomes absent, an empty diameter becomes unknown, and the hazard cell
  is false exactly for `""` and `"N"`. One data entry of the close-approach document is zipped
  with the document's field list into a record (`dict(zip(fields, entry))`). The `des`, `cd`,
  `dist` and `v_rel` values of that record become one close approach. Each loader maps its
  input to its output one to one, in order. A missing column raises `KeyError` and bad number
  text raises `ValueError`; either one ends the load.
- **Output projection** (`write.py`). Each linked approach becomes a flat CSV row of seven
  columns in a fixed order, or a JSON entry with the NEO's fields nested under `neo`. An
  absent or empty name is written as `''`. A zero or unknown diameter is written as NaN.
  An approach with no NEO makes both writers raise.

Files, one module each:

- `wrappers.dfy`: `Option` and `Result`.
- `pyrepr.dfy`: Python's `repr` of a string, with a reader that inverts it.
- `models.dfy`: the records, their constructors, `fullname` and `time_str`.
- `extract.dfy`: row and entry decoding, `zip`, and the two loaders.
- `write.dfy`: the CSV and JSON projections and the two writers.
- `columns.dfy`: end-to-end lemmas from input cells to output columns.

Python's exceptions are `Failure` results. Each one names the first failing lookup in the
order Python evaluates it. Three things are parameters, because this model does not include
their code. They are `float` on text (`FloatParser`, where `None` means `ValueError`), and
`cd_to_datetime` and `datetime_to_str` from the `helpers` module (`Models.Helpers`).
`helpers.py` is not part of this model.

Three behaviours of the code are easy to miss:
- A missing `name` or `pha` column raises `KeyError`. It is not read as "absent".
- The writers turn a zero diameter into NaN, as well as an unknown one.
- `load_approaches` reads the document's `fields` member only inside the loop over `data`.
  So a document with no data entries loads even when it has no `fields`.

## Model

| member | source | states |
|---|---|---|
| Models.NewNeo | models.py:39-57 | a new NEO keeps the designation, name, diameter and hazard flag it was given, and has no approaches |
| Models.NewApproach | models.py:91-108 | a new approach keeps its designation, distance and velocity; its time is `cd_to_datetime` of the given text; it has no NEO |
| PyRepr.QuoteFor | models.py:62 | the `repr` quote is `"` exactly when the text holds a `'` and no `"`; otherwise it is `'` |
| PyRepr.Repr | models.py:62 | a `repr` literal starts and ends with the same quote character |
| PyRepr.ReprRoundTrip | models.py:62 | reading back a `repr` followed by any text gives the original string and stops exactly at the closing quote |
| PyRepr.ReprInjective | models.py:62 | two strings with the same `repr` are equal |
| Models.FullName | models.py:60-62 | reading the quoted literal at the start of a full name back gives the designation, and what follows it is exactly a space and the name text (empty when there is no name) |
| Models.FullNameParts | models.py:62 | a full name is the quoted designation, a space, then the name text: its prefix is the quoted designation and a space, and everything after that prefix is the name text |
| Models.FullNameDeterminesDesignation | models.py:62 | two NEOs with the same full name have the same designation and the same name text |
| Models.FullNameConflatesAbsentAndEmpty | models.py:62 | an absent name and an empty name give the same full name |
| Models.FullNameOfEros | models.py:62 | example: NEO 433 named Eros is displayed as `'433' Eros` |
| Models.TimeStrDependsOnlyOnTime | models.py:110-123 | sanity check: two approaches with the same instant have the same time string |
| Models.TimeStrOfNewApproach | models.py:103 | sanity check: time texts that `cd_to_datetime` maps to the same instant give approaches with the same time string |
| Extract.DecodeNeo | extract.py:36-44 | a row decodes iff it has all four columns and its diameter cell is empty or parses. The designation is the `pdes` cell. The name is absent iff its cell is empty, and otherwise it is the cell. The diameter is unknown iff its cell is empty, and otherwise it is the parsed cell. The NEO is not hazardous iff its `pha` cell is `""` or `"N"`. It has no approaches. Errors name a missing column or the diameter text, with `name` checked first, then `diameter` |
| Extract.DecodeNeoReadsOnlyItsColumns | extract.py:37-40 | columns other than `pdes`, `name`, `diameter` and `pha` do not affect the decoded NEO |
| Extract.NeoRowRoundTrip | extract.py:36-44 | decoding the table row written for a fresh NEO gives that NEO back, as long as its name is not the empty string |
| Extract.HazardMarkerIsCaseSensitive | extract.py:39 | example: only `""` and `"N"` mean not hazardous; `n`, `Y` and `No` all mean hazardous |
| Extract.LoadNeos | extract.py:25-46 | succeeds iff every row decodes, and then gives one NEO per row in row order; otherwise it gives the error of the first row that does not decode |
| Extract.ZipDict | extract.py:60 | the keys of the zipped record are exactly the field names among the first min(len(fields), len(entry)) |
| Extract.ZipDictSpec | extract.py:60 | a field name is a key of the zipped record iff it is among the first min(len(fields), len(entry)) field names; its value comes from the last position with that name |
| Extract.ZipDictOfEntryFor | extract.py:60 | zipping a field list with an entry laid out for that list gives back each listed field's value, in any field order |
| Extract.DecodeApproachRecord | extract.py:61-65 | a record decodes iff it has `des`, `cd`, `dist` and `v_rel` and both numbers parse. The approach then carries `des`, `cd_to_datetime` of `cd`, and the parsed distance and velocity, and has no NEO. Errors name a missing key or the number text that failed, with `des` checked first |
| Extract.DecodeApproach | extract.py:59-65 | only field names that `zip` pairs with a value count. A decoded entry has all four approach fields among them. A `KeyError` names one of the four that is not among them, and `des` is reported first when it is missing |
| Extract.ApproachEntryRoundTrip | extract.py:59-65 | an entry laid out from the four values, under any field list that names them, decodes to the approach built from those values |
| Extract.LoadApproaches | extract.py:49-67 | a missing `data` member is a `KeyError`. Empty data gives no approaches. A missing `fields` member is an error only when there is data. Otherwise the load succeeds iff every entry decodes, and then gives one approach per entry in entry order; if not, it gives the first entry's error |
| Write.NameOut | write.py:44 | the name output is empty iff the name is absent or empty; otherwise it is the name |
| Write.DiameterOut | write.py:45 | the diameter output is NaN iff the diameter is unknown or zero; otherwise it is the diameter |
| Write.CsvEntry | write.py:39-46 | the CSV dictionary of a linked approach has exactly the seven column keys |
| Write.CsvLine | write.py:36-48 | the writer emits one cell per column of the fixed header |
| Write.CsvLineInColumnOrder | write.py:31-36 | a dictionary that has every column is written as its values in the header's column order |
| Write.CsvLineOfApproach | write.py:31-46 | the CSV line of a linked approach is, in order: time string, distance, velocity, designation, name output, diameter output, hazard flag |
| Write.JsonEntry | write.py:65-74 | the JSON entry has exactly the time, distance, velocity and `neo` keys; `neo` is an object with exactly the designation, name, diameter and hazard keys |
| Write.JsonEntryNestsCsvEntry | write.py:67-74 | the JSON entry's top-level values and its `neo` values are the CSV row's values for the same columns |
| Write.JsonFlattensToCsv | write.py:64-75 | lifting the `neo` members of a JSON entry to the top level gives exactly the CSV dictionary of the same approach |
| Write.WriteCsv | write.py:21-48 | the header is the fixed column list. Either one row is written per approach, or the writer raises at an approach with no NEO after writing one row per earlier approach |
| Write.WriteCsvSpec | write.py:21-48 | the header is always written in the fixed column order. Then one row is written per approach, in order, up to the first approach with no NEO, where the writer raises. It completes iff every approach is linked |
| Write.WriteJson | write.py:51-78 | a completed dump has one entry per approach; otherwise the writer raised at a position holding an approach with no NEO |
| Write.WriteJsonOutcome | write.py:51-78 | completes iff every approach is linked; otherwise it raises at the first approach with no NEO, before anything is dumped |
| Write.WriteJsonEntries | write.py:63-75 | when it completes, there is one entry per approach, in input order, each the JSON entry of that approach |
| Write.CsvAndJsonFailTogether | write.py:38-70 | the CSV writer stops iff the JSON writer raises; both stop at the same approach, and it is the first with no NEO |
| Write.CsvRowsAreFlattenedJson | write.py:38-75 | when the JSON writer completes, there are as many CSV rows as JSON entries, and each CSV row is the flattened JSON entry at the same position |
| Columns.NeoColumnsFromRow | write.py:43-46 | the designation and name columns equal the table cells, and an empty name cell stays empty. The hazard column is false iff the cell is `""` or `"N"`. The diameter column is NaN iff its cell is empty or parses to zero, and otherwise it is the parsed cell |
| Columns.ApproachColumnsFromRecord | write.py:40-43 | the time column renders the parsed `cd` value; the distance and velocity columns are the parsed `dist` and `v_rel` values; the designation column is the linked NEO's |
| Columns.LoadedApproachIsNotWritable | models.py:108 | approaches as loaded have no NEO, so the JSON writer fails at the first one and the CSV writer writes only the header |
| Columns.ErosRecord | extract.py:60 | example: zipping the Eros approach entry with its field list gives the expected four-key record |
| Columns.ErosRoundTrip | extract.py:36-66 | example: the Eros row and its 2020-Jan-01 approach decode to the expected records; once linked, their CSV line is time, 0.15, 5.2, 433, Eros, 16.84, False |

## Left out

- File I/O and text formats: opening files, `csv.DictReader`/`DictWriter`, `json.load`/`json.dump`. Rows are in-memory maps and written values are `Write.Value`s. How the writers turn a value into text (`True`, `nan`, the number formats) is not modelled.
- `__str__` and `__repr__` of both records (models.py:64-73, 125-134) are left out. Each of them formats a float with `:.3f` or `:.2f`, and this model has no float formatting.
- `float` on text is the `FloatParser` parameter. It returns reals, so text such as `nan` or `inf` has no model value.
- `cd_to_datetime` and `datetime_to_str` are fields of the `Helpers` parameter. `cd_to_datetime` is taken to be total, so a malformed time text does not raise in this model.
- PyRepr.Repr: Python also escapes non-ASCII characters that it considers unprintable (as `\x`, `\u` or `\U`). This model copies them unchanged, because that test needs the Unicode character database.
- `csv.DictReader` gives `None` for the cells of a short row. This model treats every cell as text.
- Close-approach data cells are modelled as text. JSON `null` or numeric cells are not represented.
- A link is a copy of the linked record's value, not a shared object. Object identity and the NEO-to-approaches back-reference are not represented.
- `PROJECT_ROOT` and `DATA_ROOT` are left out because they are only default file paths.
- The database that links approaches to NEOs, the filters and `limit` are not part of this model. Their code is not among the files modelled.
