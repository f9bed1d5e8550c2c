/** The administration rules that rewrite the table: saving the table editor's rows without the ones marked
    for deletion, storing a photo for one record, and building a new record from the entry form. */
module Editing {
  import opened Wrappers
  import opened Strings
  import opened Schema
  import opened Geocoding

  // ---------------------------------------------------------------------------------------------
  // Delete on save
  // ---------------------------------------------------------------------------------------------

  /** A row as the table editor hands it back: the record and its "Löschen?" cell. The cell is `false`
      for every row the table was offered with; a ticked row holds `true`, and a row added in the editor
      may hold no value at all. */
  datatype EditedRow = EditedRow(record: Record, delete: Option<bool>)

  /** The flag compares equal to `False`: an empty cell does not. */
  predicate Kept(e: EditedRow)
  {
    e.delete == Some(false)
  }

  /** The table as the editor is first offered it: every row with the flag cleared. */
  function Unticked(df: seq<Record>): (rows: seq<EditedRow>)
    ensures |rows| == |df|
    ensures forall i :: 0 <= i < |df| ==> rows[i] == EditedRow(df[i], Some(false))
  {
    seq(|df|, i requires 0 <= i < |df| => EditedRow(df[i], Some(false)))
  }

  /** The rows that are written back: those whose flag is false, without the flag. */
  function KeptRows(rows: seq<EditedRow>): (kept: seq<Record>)
    ensures |kept| <= |rows|
  {
    if rows == [] then []
    else KeptRows(rows[..|rows| - 1]) + (if Kept(rows[|rows| - 1]) then [rows[|rows| - 1].record] else [])
  }

  /** The positions of the kept rows, in increasing order. */
  function KeptIndices(rows: seq<EditedRow>): (idx: seq<nat>)
    ensures |idx| == |KeptRows(rows)|
  {
    if rows == [] then []
    else KeptIndices(rows[..|rows| - 1]) + (if Kept(rows[|rows| - 1]) then [|rows| - 1] else [])
  }

  /** Positions below `n`, in increasing order. */
  ghost predicate IncreasingBelow(idx: seq<nat>, n: nat)
  {
    && (forall k :: 0 <= k < |idx| ==> idx[k] < n)
    && (forall k, l :: 0 <= k < l < |idx| ==> idx[k] < idx[l])
  }

  /** The kept positions lie within the table and increase. */
  lemma {:induction false} KeptIndicesIncrease(rows: seq<EditedRow>)
    ensures IncreasingBelow(KeptIndices(rows), |rows|)
  {
    if rows != [] {
      var init := rows[..|rows| - 1];
      KeptIndicesIncrease(init);
      var idx, prev := KeptIndices(rows), KeptIndices(init);
      assert forall k :: 0 <= k < |prev| ==> idx[k] == prev[k];
      assert forall k :: |prev| <= k < |idx| ==> idx[k] == |rows| - 1;
    }
  }

  /** The kept positions are exactly those whose flag is false. */
  lemma {:induction false} KeptIndicesExact(rows: seq<EditedRow>)
    ensures forall i :: 0 <= i < |rows| ==> (i in KeptIndices(rows) <==> Kept(rows[i]))
  {
    if rows != [] {
      var init := rows[..|rows| - 1];
      KeptIndicesExact(init);
      KeptIndicesIncrease(init);
      var idx, prev := KeptIndices(rows), KeptIndices(init);
      assert forall i :: 0 <= i < |init| ==> init[i] == rows[i];
      assert |rows| - 1 !in prev;
      assert forall i :: i in idx <==> i in prev || (Kept(rows[|rows| - 1]) && i == |rows| - 1);
    }
  }

  /** The kept rows are the records at the kept positions, in that order. */
  lemma {:induction false} KeptRowsAtIndices(rows: seq<EditedRow>)
    ensures var idx := KeptIndices(rows);
      forall k :: 0 <= k < |idx| ==> idx[k] < |rows| && KeptRows(rows)[k] == rows[idx[k]].record
  {
    if rows != [] {
      var init := rows[..|rows| - 1];
      KeptRowsAtIndices(init);
      assert forall i :: 0 <= i < |init| ==> init[i] == rows[i];
    }
  }

  /** Delete on save: the rows written are the records at exactly the positions whose flag is false,
      in their original order. */
  lemma KeptRowsSelect(rows: seq<EditedRow>)
    ensures var idx := KeptIndices(rows);
      && |KeptRows(rows)| == |idx|
      && IncreasingBelow(idx, |rows|)
      && (forall i :: 0 <= i < |rows| ==> (i in idx <==> Kept(rows[i])))
      && (forall k :: 0 <= k < |idx| ==> idx[k] < |rows| && KeptRows(rows)[k] == rows[idx[k]].record)
  {
    KeptIndicesIncrease(rows);
    KeptIndicesExact(rows);
    KeptRowsAtIndices(rows);
  }

  /** Saving an edited table keeps everything kept from each part, part after part. */
  lemma {:induction false} KeptRowsAppend(a: seq<EditedRow>, b: seq<EditedRow>)
    ensures KeptRows(a + b) == KeptRows(a) + KeptRows(b)
    decreases |b|
  {
    if b == [] {
      assert a + b == a;
    } else {
      var b' := b[..|b| - 1];
      assert (a + b)[..|a + b| - 1] == a + b';
      KeptRowsAppend(a, b');
    }
  }

  /** Nothing is dropped exactly when no row is ticked or blank. */
  lemma {:induction false} KeptRowsAll(rows: seq<EditedRow>)
    ensures |KeptRows(rows)| == |rows| <==> forall i :: 0 <= i < |rows| ==> Kept(rows[i])
  {
    if rows != [] {
      var init := rows[..|rows| - 1];
      KeptRowsAll(init);
      assert forall i :: 0 <= i < |init| ==> init[i] == rows[i];
    }
  }

  /** Saving the table as it was offered writes it back unchanged. */
  lemma {:induction false} UntickedKeepsAll(df: seq<Record>)
    ensures KeptRows(Unticked(df)) == df
  {
    if df != [] {
      var init := df[..|df| - 1];
      assert Unticked(df)[..|df| - 1] == Unticked(init);
      UntickedKeepsAll(init);
    }
  }

  // ---------------------------------------------------------------------------------------------
  // Photo file names
  // ---------------------------------------------------------------------------------------------

  /** `os.path.join` of two parts on a POSIX system: an absolute second part replaces the first. */
  function Join(dir: string, name: string): string
  {
    if |name| > 0 && name[0] == '/' then name
    else if dir == [] || dir[|dir| - 1] == '/' then dir + name
    else dir + "/" + name
  }

  /** The stored file's name, `"{id}.{ext}"`, where the extension is whatever follows the last dot of the
      uploaded file's name, or the whole name when it has no dot. */
  function PhotoFileName(id: string, upload: string): string
  {
    id + "." + AfterLastDot(upload)
  }

  /** Where an uploaded photo for record `id` is written. */
  function PhotoPath(id: string, upload: string): string
  {
    Join(ImageFolder, PhotoFileName(id, upload))
  }

  predicate Absolute(s: string)
  {
    |s| > 0 && s[0] == '/'
  }

  /** A stored photo keeps the uploaded file's extension. */
  lemma PhotoPathExtension(id: string, upload: string)
    ensures AfterLastDot(PhotoPath(id, upload)) == AfterLastDot(upload)
  {
    var ext := AfterLastDot(upload);
    if Absolute(id) {
      AfterLastDotOfJoin(id, ext);
    } else {
      assert PhotoPath(id, upload) == (ImageFolder + "/" + id) + "." + ext;
      AfterLastDotOfJoin(ImageFolder + "/" + id, ext);
    }
  }

  /** For an id that is not an absolute path, the photo lies directly in the image folder. */
  lemma PhotoPathShape(id: string, upload: string)
    requires !Absolute(id)
    ensures PhotoPath(id, upload) == ImageFolder + "/" + id + "." + AfterLastDot(upload)
  {
    assert !Absolute(PhotoFileName(id, upload)) by {
      if id == [] {
        assert PhotoFileName(id, upload)[0] == '.';
      } else {
        assert PhotoFileName(id, upload)[0] == id[0];
      }
    }
  }

  /** Under one prefix, a name followed by a dot-free extension determines both. */
  lemma SplitAtLastDot(pre: string, a: string, ea: string, b: string, eb: string)
    requires '.' !in ea && '.' !in eb
    requires pre + a + "." + ea == pre + b + "." + eb
    ensures a == b && ea == eb
  {
    var p := pre + a + "." + ea;
    assert p == (pre + a) + "." + ea;
    assert p == (pre + b) + "." + eb;
    AfterLastDotOfJoin(pre + a, ea);
    AfterLastDotOfJoin(pre + b, eb);
    assert p[|pre|..|p| - |ea| - 1] == a;
    assert p[|pre|..|p| - |eb| - 1] == b;
  }

  /** Two photos share a path only when they belong to the same record and have the same extension:
      one record's photo never overwrites another's. */
  lemma PhotoPathInjective(id1: string, up1: string, id2: string, up2: string)
    requires !Absolute(id1) && !Absolute(id2)
    requires PhotoPath(id1, up1) == PhotoPath(id2, up2)
    ensures id1 == id2 && AfterLastDot(up1) == AfterLastDot(up2)
  {
    PhotoPathShape(id1, up1);
    PhotoPathShape(id2, up2);
    SplitAtLastDot(ImageFolder + "/", id1, AfterLastDot(up1), id2, AfterLastDot(up2));
  }

  // ---------------------------------------------------------------------------------------------
  // Photo update
  // ---------------------------------------------------------------------------------------------

  /** Row `k` is the first row with this id. */
  ghost predicate FirstWithId(df: seq<Record>, id: string, k: int)
  {
    && 0 <= k < |df|
    && df[k].id == id
    && forall j :: 0 <= j < k ==> df[j].id != id
  }

  /** The position of the first row with this id from row `i` on. */
  function IndexOfId(df: seq<Record>, id: string, i: nat): (r: Option<nat>)
    requires i <= |df|
    ensures r.Some? ==> i <= r.value < |df| && df[r.value].id == id
                        && forall j :: i <= j < r.value ==> df[j].id != id
    ensures r.None? <==> forall j :: i <= j < |df| ==> df[j].id != id
    decreases |df| - i
  {
    if i == |df| then None
    else if df[i].id == id then Some(i)
    else IndexOfId(df, id, i + 1)
  }

  /** The table after the photo path of the first row with this id is set; the id must occur, as it
      does when it is chosen from the table itself. */
  function WithPhoto(df: seq<Record>, id: string, path: string): (r: seq<Record>)
    requires exists i :: 0 <= i < |df| && df[i].id == id
    ensures |r| == |df|
    ensures forall k :: FirstWithId(df, id, k) ==>
      && r[k] == df[k].(bildPfad := path)
      && forall j :: 0 <= j < |df| && j != k ==> r[j] == df[j]
  {
    var k := IndexOfId(df, id, 0).value;
    df[k := df[k].(bildPfad := path)]
  }

  /** Apart from that one photo path, the table is what it was: the same ids in the same order, and every
      other row with this id (should there be one) untouched. */
  lemma WithPhotoOnlyOneCell(df: seq<Record>, id: string, path: string, j: nat)
    requires exists i :: 0 <= i < |df| && df[i].id == id
    requires j < |df|
    ensures WithPhoto(df, id, path)[j].id == df[j].id
    ensures WithPhoto(df, id, path)[j].bildPfad == path || WithPhoto(df, id, path)[j] == df[j]
    ensures WithPhoto(df, id, path)[j] == df[j].(bildPfad := WithPhoto(df, id, path)[j].bildPfad)
    ensures exists k :: FirstWithId(df, id, k) && WithPhoto(df, id, path)[k].bildPfad == path
  {
    var k := IndexOfId(df, id, 0).value;
    assert FirstWithId(df, id, k);
  }

  // ---------------------------------------------------------------------------------------------
  // New entry
  // ---------------------------------------------------------------------------------------------

  /** The entry form as submitted: the text fields, the manual coordinates (0.0 unless changed), the
      chosen type and the inspection date. */
  datatype EntryForm = EntryForm(nummer: string, bundesnummer: string, strasse: string, plz: string,
                                 stadt: string, hersteller: string, baujahr: string, mlat: real, mlon: real,
                                 typ: string, letzteKontrolle: string)

  /** The coordinates of a new entry: the manual pair when the manual latitude is not 0.0, otherwise the
      lookup of the entered address, whatever it holds. */
  function EntryPoint(f: EntryForm, geo: Geocoder): (p: Point)
  {
    if f.mlat != 0.0 then Point(f.mlat, f.mlon) else Lookup(geo, Query(f.strasse, f.plz, f.stadt))
  }

  /** A non-zero manual latitude selects the manual pair and the geocoder is not consulted. */
  lemma ManualCoordinates(f: EntryForm, g1: Geocoder, g2: Geocoder)
    requires f.mlat != 0.0
    ensures EntryPoint(f, g1) == EntryPoint(f, g2) == Point(f.mlat, f.mlon)
  {
  }

  /** With the manual latitude at 0.0 the manual longitude is ignored, and the address is looked up
      even when street or city are empty; nothing found leaves (0.0, 0.0). */
  lemma LookedUpCoordinates(f: EntryForm, geo: Geocoder, lon: real)
    requires f.mlat == 0.0
    ensures EntryPoint(f, geo) == EntryPoint(f.(mlon := lon), geo)
    ensures geo(Query(f.strasse, f.plz, f.stadt)).None? ==> EntryPoint(f, geo) == Unset
    ensures geo(Query(f.strasse, f.plz, f.stadt)).Some? ==>
      EntryPoint(f, geo) == geo(Query(f.strasse, f.plz, f.stadt)).value
  {
  }

  /** The record a submitted form becomes: the id is the submission's timestamp, the photo path is where
      the uploaded photo was stored for that id (empty without a photo), the rest comes from the form. */
  function NewEntry(f: EntryForm, stamp: string, photo: Option<string>, geo: Geocoder): (r: Record)
    ensures r.id == stamp
    ensures photo.None? ==> r.bildPfad == ""
    ensures photo.Some? ==> r.bildPfad == PhotoPath(stamp, photo.value)
    ensures Point(r.breitengrad, r.laengengrad) == EntryPoint(f, geo)
    ensures r.nummer == f.nummer && r.bundesnummer == f.bundesnummer && r.strasse == f.strasse
    ensures r.plz == f.plz && r.stadt == f.stadt && r.typ == f.typ && r.letzteKontrolle == f.letzteKontrolle
    ensures r.hersteller == f.hersteller && r.baujahr == f.baujahr
  {
    var imgPath := if photo.Some? then PhotoPath(stamp, photo.value) else "";
    var pos := EntryPoint(f, geo);
    Record(stamp, f.nummer, f.bundesnummer, f.strasse, f.plz, f.stadt, f.typ, f.letzteKontrolle, pos.lat, pos.lon,
           imgPath, f.baujahr, f.hersteller)
  }

  /** A submitted form becomes a record with the timestamp as its id. Its photo, if one was uploaded, keeps
      the upload's extension and lies in the image folder under that id (a timestamp is never an absolute
      path). Its coordinates are the manual pair when the manual latitude is non-zero; otherwise they are the
      geocoder's answer for the address as entered, or (0.0, 0.0) when it has none. Every text field is the
      form's. */
  lemma NewEntryRecord(f: EntryForm, stamp: string, photo: Option<string>, geo: Geocoder)
    ensures var r := NewEntry(f, stamp, photo, geo);
      var q := Query(f.strasse, f.plz, f.stadt);
      && r.id == stamp
      && (photo.None? ==> r.bildPfad == "")
      && (photo.Some? ==> AfterLastDot(r.bildPfad) == AfterLastDot(photo.value))
      && (photo.Some? && !Absolute(stamp) ==>
            r.bildPfad == ImageFolder + "/" + r.id + "." + AfterLastDot(photo.value))
      && (f.mlat != 0.0 ==> r.breitengrad == f.mlat && r.laengengrad == f.mlon)
      && (f.mlat == 0.0 && geo(q).Some? ==> Point(r.breitengrad, r.laengengrad) == geo(q).value)
      && (f.mlat == 0.0 && geo(q).None? ==> r.breitengrad == 0.0 && r.laengengrad == 0.0)
      && r.nummer == f.nummer && r.bundesnummer == f.bundesnummer && r.strasse == f.strasse
      && r.plz == f.plz && r.stadt == f.stadt && r.typ == f.typ && r.letzteKontrolle == f.letzteKontrolle
      && r.hersteller == f.hersteller && r.baujahr == f.baujahr
  {
    if photo.Some? {
      PhotoPathExtension(stamp, photo.value);
      if !Absolute(stamp) {
        PhotoPathShape(stamp, photo.value);
      }
    }
  }
}
