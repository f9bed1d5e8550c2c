# Street display register: record-table rules

`app.py` is a single Streamlit page for keeping a register of street display units ("Dialog Display"
boards and the like) in Berlin-Lichtenberg. The records live in one CSV file. Each record has an id, number,
federal number, street, postcode, city, type, last inspection date, latitude, longitude, photo path,
build year and manufacturer.

Beneath the widgets the page applies a handful of exact rules to that table. This project models those
rules and proves what they guarantee:

- **Loading the file** (`load.dfy`, module `Load`):
  - Any of the thirteen canonical columns missing from the file is added as empty text.
  - The inspection date is parsed, and unparsable dates become `NaT`.
  - Nine text columns are cleaned cell by cell. The whole cell `"nan"` becomes empty. A cell ending in
    `".0"` then loses *every* `".0"` it contains.
  - A missing file gives the empty table with exactly the canonical columns.
  - The table is held column by column as a `Frame` of cell texts. `LoadData` is the column loop of the
    source, and it is proved equal to the function `LoadResult`.
- **Importing a spreadsheet** (`importer.dfy`, module `Importer`):
  - `get_col` returns the first column in header order whose lower-cased name contains any keyword of a
    field's list. Header order wins over keyword order.
  - One record is built per spreadsheet row. Its id is the day (`%Y%m%d`) followed by the row index
    padded to four digits.
  - A field without a column gets a default: empty text, or "Berlin" for the city.
  - A number of "nan" becomes empty text.
  - The address is looked up only when both street and city are non-empty.
  - The new records are appended after the existing ones, and the file is written once.
  - `AppendImport` is the row loop and `BuildRow` is its body. Together they are proved equal to the
    function `ImportedRows`.
- **Worked import example** (`import_example.dfy`): the header `"Standort-Nr", "Straße", "PLZ", "Ort"`
  resolved column by column, plus one filled row and one blank row.
- **Editing** (`editing.dfy`, module `Editing`):
  - Delete-on-save keeps exactly the rows whose delete flag is `False`, in order.
  - Photos are named `"{id}.{ext}"` and placed with the rule of `os.path.join`.
  - Storing a photo sets the photo path of the first record with the chosen id, and of no other record.
  - A new entry's coordinates are the manual pair when the manual latitude is non-zero. Otherwise they
    come from a lookup of the entered address.
- **The table and its file** (`app.dfy`, class `App.Store`): the four administration actions as methods
  that update the in-memory table, the file contents and the number of writes.
- **Session state** (`navigation.dfy`, class `Navigation.Session`): the current page, the menu flag, the
  record shown in detail, and the initial map view, with `set_page` and `toggle_menu`.

The rest of the model is as follows:

- **Geocoder.** The rate-limited Nominatim geocoder is a function `Geocoder = string -> Option<Point>`.
  `None` covers both "nothing found" and "the call raised". Both leave the coordinates at (0.0, 0.0).
- **Clock.** The import reads the clock twice per row: `pd.Timestamp.now()` for the id's day
  (app.py:328) and `datetime.date.today()` for the inspection date (app.py:345). It is modelled as
  `Clock = nat -> Reading`, which gives for each row index both readings: the day as `%Y%m%d` and
  today's date. The new entry's timestamp and date are parameters.
- **Date parser.** The date parser that `load_data` uses is a parameter, `string -> Option<string>`.

## Behaviour worth knowing

- **No status field.** The records have no status field (app.py:195). No operation sets one or
  defaults one.
- **Type text.** The type given to imported rows is the text "Dialog Display", with a space
  (app.py:345).
- **City read from "Standort-Nr".** With the header `["Standort-Nr","Straße","PLZ","Ort"]` the city is
  not defaulted to "Berlin". The lower-cased name "standort-nr" contains "ort" and comes first, so the
  city is read from the number column. `ImportExample.HeaderExample` proves this mapping.
- **Blank cells read as "nan".** A blank spreadsheet cell is rendered by `str()` as "nan". A blank row
  therefore has street and city "nan", and it *is* looked up (`ImportExample.BlankExampleRow`). Only the
  number field turns "nan" into empty text.
- **Empty-address lookups.** Nothing stops a lookup for an empty address. The new-entry form looks up
  whatever was entered, even an empty street and city (`Editing.LookedUpCoordinates`). Only the import
  checks first that street and city are non-empty.
- **Id uniqueness.** Ids are distinct within one import batch (`Importer.ImportedIds`), not across the
  store. The row index restarts at 0 on every import.

## Model

| member | source | states |
|---|---|---|
| Load.LoadData | app.py:194-208 | The column-by-column load equals `LoadResult`: the empty canonical table without a file, else the file's table with the missing columns added, the dates parsed and the text columns cleaned |
| Load.FillColumns | app.py:200-201 | After the loop every canonical column is present; the file's columns keep their cells and each added column is empty text in every row |
| Load.CleanTextColumns | app.py:204-207 | Every text column present becomes its cleaned cells; every other column is kept |
| Load.AbsentMembers | app.py:200-201 | The columns added are exactly the canonical ones the file lacks, and the column list stays free of duplicates |
| Load.LoadedSchema | app.py:195-201 | After load the table is well formed, contains all thirteen canonical columns, keeps the file's columns first and in order, and keeps the row count |
| Load.MissingFileSchema | app.py:195-198 | Without a file the table has exactly the canonical columns, in order, and no rows |
| Load.AbsentColumnBlank | app.py:200-203 | A canonical column missing from the file is empty text in every row (the date column: the parse of empty text) |
| Load.TextCellsCleaned | app.py:204-207 | Each cell of a text column the file has is the clean-up of the file's cell |
| Load.DateCellsParsed | app.py:202-203 | Each inspection-date cell is the parser's date, or NaT when it fails |
| Load.OtherColumnsKept | app.py:199-207 | Id, coordinates and non-canonical columns are loaded unchanged |
| Load.ReloadOfCreatedFile | app.py:196-198 | The empty file written when none existed loads as the table returned then |
| Load.CleanCellCases | app.py:207 | "nan" becomes empty; a cell not ending in ".0" is unchanged; one ending in ".0" is strictly shortened by removing every ".0"; the result is never longer |
| Load.CleanPostcode | app.py:207 | "10115.0" is cleaned to "10115" |
| Load.CleanCellNotIdempotent | app.py:207 | Removing every ".0" can leave a new ".0" at the end: "7..00.0" cleans to "7.0", which cleans to "7" |
| Strings.LowerIdempotent | app.py:312 | Lower-casing a lower-cased header changes nothing more |
| ImportExample.UppercaseStreetHeader | app.py:312-317 | The header "STRAẞE" lower-cases to "straße" and is found as the street column |
| Strings.ContainsAt | app.py:316 | `kw in c` holds exactly when the keyword occurs at some position of the column name |
| Load.EndsWithContains | app.py:207 | A cell ending in ".0" contains ".0", so the clean-up then removes something |
| Strings.RemoveAllCount | app.py:207 | `replace(".0", "")` shortens the text by exactly one ".0" per occurrence the left-to-right scan finds |
| Strings.OccurrencesContains | app.py:207 | The scan finds an occurrence exactly when the text contains the pattern |
| Strings.RemoveAll | app.py:207 | The result is never longer; it is shorter exactly when the text contains the pattern, and otherwise it is the text itself |
| Strings.AfterLastDot | app.py:50 | `split('.')[-1]`: a dot-free suffix, the whole name when it has no dot, else preceded by a dot |
| Strings.ZeroPad4Value | app.py:328 | `f"{idx:04d}"` is all digits, at least four of them, exactly four below 10000, and reads back as `idx` |
| Strings.ZeroPad4Injective | app.py:328 | Different indices pad to different texts |
| Importer.AnyKeyword | app.py:315-316 | True exactly when the column name contains one of the keywords |
| Importer.GetColFrom | app.py:314-317 | From column `i` on: the first matching column, or none exactly when no column from `i` on matches |
| Importer.GetCol | app.py:312-317 | The first column, in header order, whose name contains a keyword; none exactly when no column matches |
| Importer.GetColFindsFirst | app.py:313-317 | Conversely, the first matching column is the one returned |
| Importer.Resolve | app.py:319-325 | Every column found for a field lies within the header |
| Importer.BuildRow | app.py:328-345 | The loop body builds exactly the record `ImportedRow` describes for that row |
| Importer.AppendImport | app.py:327-346 | The result is the existing rows followed by one record per uploaded row, in upload order |
| Importer.BatchIdsDistinct | app.py:328 | Ids from days of one length differ when their row indices differ |
| Importer.ImportedIds | app.py:328 | Within a batch the ids are pairwise distinct; each is the day followed by digits reading as the row index |
| Importer.CellOrTaken | app.py:329-335 | A field is the row's cell in the first matching column, or the default when no column matches |
| Importer.ImportedFields | app.py:329-345 | Each field comes from its first matching column or its default ("Berlin" for the city); only the number maps "nan" to empty; type "Dialog Display", empty photo path, the clock's date |
| Importer.ImportGeocodeGating | app.py:338-343 | Without street or city the coordinates are (0.0, 0.0); with both they are the geocoder's answer for "street, postcode city", or (0.0, 0.0) when it has none |
| Importer.GeocoderUnusedWithoutAddress | app.py:339 | A record lacking street or city does not depend on the geocoder |
| ImportExample.HeaderExample | app.py:312-325 | For "Standort-Nr", "Straße", "PLZ", "Ort": number and city from column 0, street 1, postcode 2, the rest absent |
| ImportExample.FilledExampleRow | app.py:327-345 | Row "A1", "Heerstr. 12", "10115", "Berlin" gets city "A1" and is looked up at "Heerstr. 12, 10115 A1" |
| ImportExample.BlankExampleRow | app.py:329-343 | A blank row gets an empty number, street and city "nan", and is looked up at "nan, nan nan" |
| Editing.KeptRowsSelect | app.py:370-372 | The rows saved are the records at exactly the positions whose flag is `False`, in increasing order, without the flag |
| Editing.KeptRowsAll | app.py:371 | Nothing is dropped exactly when every flag is `False` |
| Editing.KeptRowsAppend | app.py:371 | The filter distributes over concatenation (order is kept) |
| Editing.UntickedKeepsAll | app.py:355-372 | Saving the table as offered, every flag false, writes it back unchanged |
| Editing.PhotoPathExtension | app.py:50-52 | A stored photo keeps the uploaded file's extension |
| Editing.PhotoPathShape | app.py:50-52 | For an id that is not an absolute path, the photo is "data/images/{id}.{ext}" |
| Editing.PhotoPathInjective | app.py:48-52 | Two photos share a path only for the same id and extension |
| Editing.IndexOfId | app.py:388 | The first row with the id, or none exactly when no row has it |
| Editing.WithPhoto | app.py:388-389 | Only the first row with the id changes, and only its photo path |
| Editing.WithPhotoOnlyOneCell | app.py:388-389 | Every row keeps its id and all fields but the photo path; the first row with the id has the new path |
| Editing.ManualCoordinates | app.py:420 | A non-zero manual latitude gives the manual pair, whatever the geocoder answers |
| Editing.LookedUpCoordinates | app.py:421-425 | Otherwise the manual longitude is ignored and the address is looked up as entered, falling back to (0.0, 0.0) |
| Editing.NewEntryRecord | app.py:417-426 | The new record's id is the timestamp; its photo keeps the upload's extension and is "data/images/{id}.{ext}"; its coordinates are the manual pair when the manual latitude is non-zero, else the geocoder's answer or (0.0, 0.0); the text fields are the form's |
| App.Store.Save | app.py:210-211 | The file holds the given table; one more write |
| App.Store.Import | app.py:307-351 | An unreadable file reports "Fehler: " and the message and changes nothing; otherwise the table gains the imported rows and is written once |
| App.Store.SaveEdits | app.py:370-372 | The file holds the kept rows; one write |
| App.Store.SavePhoto | app.py:385-390 | Without a photo nothing changes; with one the first row with the id gets the photo's path in place and the table is written |
| App.Store.AddEntry | app.py:416-427 | The file holds the table followed by the new record; one write |
| Navigation.Session.constructor | app.py:20-32 | A new session starts on "Übersicht", menu closed, no detail, map at (52.51, 13.48), zoom 13 |
| Navigation.Session.SetPage | app.py:34-37 | The page is the one named, the detail view is left, the menu is closed; the map view is kept |
| Navigation.Session.ToggleMenu | app.py:39-40 | The menu flag flips and nothing else changes |
| Navigation.Session.OpenDetail | app.py:265 | The chosen record is shown in detail; nothing else changes |
| Navigation.Session.CloseDetail | app.py:222-224 | The detail view is left; nothing else changes |

## Left out

- Page layout, CSS, the header bar, buttons, expanders, `st.rerun` and messages other than the import error are UI and state nothing statable. The folium map, its markers, the bounds fitted over the coordinates and base64 image embedding are presentation with floating-point work.
- Load.LoadData: starts from the file's cells as text. CSV parsing, pandas' dtype inference, the `str()` rendering of numbers, and the way `to_datetime` picks a date format are not modelled. The date parser is a parameter.
- The loaded `Frame` of cell texts and the typed `Record` rows used by the other actions are not connected, so a save-then-load round trip is not stated.
- App.Store: the rerun after an action reads the file afresh through `load_data`. The store does not reload its table from its file.
- Reading the uploaded spreadsheet (`read_csv`, `read_excel`) is not modelled. The upload arrives as a header and rows of `str()`-rendered cells, or as the error message.
- App.Store.Import: the header is taken to be text. A header cell that is a number or a date in an .xlsx or .ods file gives a column label that is not text; `c.lower()` then raises inside the `try` (app.py:312), the import reports "Fehler: …" and nothing is written. Such an upload must arrive as a `Failure` carrying that message.
- Strings.Lower: lower-cases A–Z, the Latin-1 capitals À–Þ (except ×), ẞ (to ß) and the Kelvin sign (to k). Other characters that Python lower-cases are kept as they are. None of them lower-cases to a character of any keyword; "İ" becomes "i" plus a combining dot, which never completes a keyword. So which column `get_col` finds is the same. The lowered header text itself can differ from Python's.
- The geocoder's network call and its 1.5-second rate limit are not modelled. A lookup is an uninterpreted function, and a raised error counts as "nothing found".
- Writing the photo bytes, `os.makedirs`, `os.path.exists` and writing the CSV file are not modelled. A write is recorded as the new file contents plus a write count.
- The table editor's own editing (changed cells, added and deleted rows) is not modelled. Its output is a parameter of `SaveEdits`.
- The selection list of the photo action, keyed by number, so that duplicate numbers keep only the last id, is not modelled. `SavePhoto` takes the chosen id and requires that some row has it, as every id offered does.
- App.Store.AddEntry: the form's date and type widgets are not modelled. Their values arrive in the form.
