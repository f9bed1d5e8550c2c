/** The table one run of the page works on and the file it is saved to, with the administration actions
    that change them: the spreadsheet import, saving the table editor, storing a photo and adding an entry. */
module App {
  import opened Wrappers
  import opened Schema
  import opened Geocoding
  import opened Importer
  import opened Editing

  class Store {
    /** The table as loaded at the start of the run. */
    var df: seq<Record>
    /** The table as it was last written to the data file. */
    var file: seq<Record>
    /** How many times the data file has been written. */
    var saves: nat

    constructor (loaded: seq<Record>, stored: seq<Record>)
      ensures df == loaded && file == stored && saves == 0
    {
      df := loaded;
      file := stored;
      saves := 0;
    }

    /** `save_data`: the data file is overwritten with the given table. */
    method Save(t: seq<Record>)
      modifies this
      ensures file == t && saves == old(saves) + 1 && df == old(df)
    {
      file := t;
      saves := saves + 1;
    }

    /** "Import starten": a spreadsheet that cannot be read reports "Fehler: " and its message and changes
        nothing; otherwise one record per spreadsheet row is appended to the table, in row order, and the
        table is written once, after the last row. */
    method Import(parsed: Result<Upload, string>, clock: Clock, geo: Geocoder) returns (error: Option<string>)
      requires parsed.Success? ==> Rectangular(parsed.value)
      modifies this
      ensures parsed.Failure? ==>
        error == Some("Fehler: " + parsed.error) && df == old(df) && file == old(file) && saves == old(saves)
      ensures parsed.Success? ==>
        && error.None?
        && df == old(df) + ImportedRows(parsed.value, clock, geo)
        && file == df && saves == old(saves) + 1
    {
      match parsed
      case Failure(e) =>
        error := Some("Fehler: " + e);
      case Success(u) =>
        df := AppendImport(df, u, clock, geo);
        Save(df);
        error := None;
    }

    /** "Speichern" below the table editor: the edited rows whose delete flag is false are written, in
        their order and without the flag; the loaded table itself is not touched. */
    method SaveEdits(edited: seq<EditedRow>)
      modifies this
      ensures file == KeptRows(edited) && saves == old(saves) + 1 && df == old(df)
    {
      Save(KeptRows(edited));
    }

    /** "Foto speichern": without an uploaded photo nothing happens; with one, the photo path of the first
        row with the chosen id is set to where the photo is stored, in place, and the table is written. */
    method SavePhoto(selId: string, upload: Option<string>)
      requires exists i :: 0 <= i < |df| && df[i].id == selId
      modifies this
      ensures upload.None? ==> df == old(df) && file == old(file) && saves == old(saves)
      ensures upload.Some? ==>
        && df == WithPhoto(old(df), selId, PhotoPath(selId, upload.value))
        && file == df && saves == old(saves) + 1
    {
      if upload.Some? {
        var np := PhotoPath(selId, upload.value);
        var idx := IndexOfId(df, selId, 0).value;
        df := df[idx := df[idx].(bildPfad := np)];
        Save(df);
      }
    }

    /** "Speichern" on the entry form: the table is written with the new record after all existing rows;
        the loaded table itself is not rebound. */
    method AddEntry(form: EntryForm, stamp: string, photo: Option<string>, geo: Geocoder)
      modifies this
      ensures file == old(df) + [NewEntry(form, stamp, photo, geo)] && saves == old(saves) + 1
      ensures df == old(df)
    {
      var newRow := NewEntry(form, stamp, photo, geo);
      Save(df + [newRow]);
    }
  }
}
