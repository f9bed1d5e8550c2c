/** Importing a spreadsheet: its columns are matched to the record fields by keywords in their names,
    one record is built per spreadsheet row, and the records are appended to the table. */
module Importer {
  import opened Wrappers
  import opened Strings
  import opened Schema
  import opened Geocoding

  /** A parsed spreadsheet: its header and its rows, each cell as the text `str()` makes of it
      (a blank cell reads as "nan"). */
  datatype Upload = Upload(header: seq<string>, rows: seq<seq<string>>)

  /** Every row has one cell per header column, as a parsed table does. */
  ghost predicate Rectangular(u: Upload)
  {
    forall i :: 0 <= i < |u.rows| ==> |u.rows[i]| == |u.header|
  }

  const NummerKeys: seq<string> := ["nummer", "nr.", "standort"]
  const BundesKeys: seq<string> := ["bundes", "b-nr"]
  const StrasseKeys: seq<string> := ["straße", "strasse", "adr"]
  const PlzKeys: seq<string> := ["plz", "post"]
  const StadtKeys: seq<string> := ["stadt", "ort", "bezirk"]
  const BaujahrKeys: seq<string> := ["baujahr", "jahr"]
  const HerstellerKeys: seq<string> := ["hersteller", "firma"]

  /** The header names, lower-cased. */
  function Lowered(header: seq<string>): (cols: seq<string>)
    ensures |cols| == |header|
  {
    seq(|header|, i requires 0 <= i < |header| => Lower(header[i]))
  }

  /** Column name `c` contains one of the keywords. */
  ghost predicate Matches(c: string, kws: seq<string>)
  {
    exists k :: k in kws && Contains(c, k)
  }

  /** Column `j` is the first, in header order, whose name contains a keyword. */
  ghost predicate FirstMatch(cols: seq<string>, kws: seq<string>, j: int)
  {
    && 0 <= j < |cols|
    && Matches(cols[j], kws)
    && forall j' :: 0 <= j' < j ==> !Matches(cols[j'], kws)
  }

  /** No column name contains any keyword. */
  ghost predicate NoMatch(cols: seq<string>, kws: seq<string>)
  {
    forall j :: 0 <= j < |cols| ==> !Matches(cols[j], kws)
  }

  /** The inner loop of `get_col`: the keywords are tried in turn against one column name. */
  function AnyKeyword(c: string, kws: seq<string>): (b: bool)
    ensures b <==> Matches(c, kws)
  {
    if kws == [] then false else Contains(c, kws[0]) || AnyKeyword(c, kws[1..])
  }

  /** The outer loop of `get_col` from column `i` on, returning at the first column that matches. */
  function GetColFrom(cols: seq<string>, kws: seq<string>, i: nat): (r: Option<nat>)
    requires i <= |cols|
    ensures r.Some? ==> i <= r.value < |cols| && Matches(cols[r.value], kws)
                        && forall j :: i <= j < r.value ==> !Matches(cols[j], kws)
    ensures r.None? <==> forall j :: i <= j < |cols| ==> !Matches(cols[j], kws)
    decreases |cols| - i
  {
    if i == |cols| then None
    else if AnyKeyword(cols[i], kws) then Some(i)
    else GetColFrom(cols, kws, i + 1)
  }

  /** `get_col`: the index of the first column, in header order, whose name contains any of the keywords,
      or None when none does. */
  function GetCol(cols: seq<string>, kws: seq<string>): (r: Option<nat>)
    ensures r.Some? ==> FirstMatch(cols, kws, r.value)
    ensures r.None? <==> NoMatch(cols, kws)
  {
    GetColFrom(cols, kws, 0)
  }

  /** The uniqueness of the first match. */
  lemma FirstMatchUnique(cols: seq<string>, kws: seq<string>, j: int, k: int)
    requires FirstMatch(cols, kws, j) && FirstMatch(cols, kws, k)
    ensures j == k
  {
  }

  /** Conversely, the first matching column is the one found. */
  lemma GetColFindsFirst(cols: seq<string>, kws: seq<string>, j: int)
    requires FirstMatch(cols, kws, j)
    ensures GetCol(cols, kws) == Some(j)
  {
    var r := GetCol(cols, kws);
    assert r.Some? by {
      assert !NoMatch(cols, kws);
    }
    FirstMatchUnique(cols, kws, j, r.value);
  }

  /** The column found for each field. */
  datatype Mapping = Mapping(nummer: Option<nat>, bundesnummer: Option<nat>, strasse: Option<nat>,
                             plz: Option<nat>, stadt: Option<nat>, baujahr: Option<nat>, hersteller: Option<nat>)

  predicate Within(col: Option<nat>, n: nat)
  {
    col.Some? ==> col.value < n
  }

  predicate Fits(m: Mapping, n: nat)
  {
    && Within(m.nummer, n) && Within(m.bundesnummer, n) && Within(m.strasse, n) && Within(m.plz, n)
    && Within(m.stadt, n) && Within(m.baujahr, n) && Within(m.hersteller, n)
  }

  function Resolve(header: seq<string>): (m: Mapping)
    ensures Fits(m, |header|)
  {
    var cols := Lowered(header);
    Mapping(GetCol(cols, NummerKeys), GetCol(cols, BundesKeys), GetCol(cols, StrasseKeys), GetCol(cols, PlzKeys),
            GetCol(cols, StadtKeys), GetCol(cols, BaujahrKeys), GetCol(cols, HerstellerKeys))
  }

  /** The cell of row `idx` in column `col`, or `default` when no column was found. */
  function CellOr(u: Upload, col: Option<nat>, idx: nat, default: string): string
    requires Rectangular(u) && idx < |u.rows| && Within(col, |u.header|)
  {
    if col.Some? then u.rows[idx][col.value] else default
  }

  /** One reading of the clock: the day as `%Y%m%d` and today's date. */
  datatype Reading = Reading(ymd: string, date: string)

  /** The clock as read while building row `idx`. */
  type Clock = nat -> Reading

  /** The id of the row at index `idx` of a batch: the day followed by the zero-padded index. */
  function BatchId(ymd: string, idx: nat): string
  {
    ymd + ZeroPad4(idx)
  }

  /** The record built from row `idx` of the upload. */
  function ImportedRow(u: Upload, m: Mapping, idx: nat, now: Reading, geo: Geocoder): Record
    requires Rectangular(u) && idx < |u.rows| && Fits(m, |u.header|)
  {
    var nr := CellOr(u, m.nummer, idx, "");
    var s := CellOr(u, m.strasse, idx, "");
    var p := CellOr(u, m.plz, idx, "");
    var o := CellOr(u, m.stadt, idx, "Berlin");
    var pos := if s != "" && o != "" then Lookup(geo, Query(s, p, o)) else Unset;
    Record(BatchId(now.ymd, idx), if nr == "nan" then "" else nr, CellOr(u, m.bundesnummer, idx, ""), s, p, o,
           DialogDisplay, now.date, pos.lat, pos.lon, "", CellOr(u, m.baujahr, idx, ""),
           CellOr(u, m.hersteller, idx, ""))
  }

  /** The records an import builds, one per uploaded row, in upload order. */
  function ImportedRows(u: Upload, clock: Clock, geo: Geocoder): (rows: seq<Record>)
    requires Rectangular(u)
    ensures |rows| == |u.rows|
  {
    var m := Resolve(u.header);
    seq(|u.rows|, idx requires 0 <= idx < |u.rows| => ImportedRow(u, m, idx, clock(idx), geo))
  }

  lemma ImportedRowAt(u: Upload, clock: Clock, geo: Geocoder, i: nat)
    requires Rectangular(u) && i < |u.rows|
    ensures ImportedRows(u, clock, geo)[i] == ImportedRow(u, Resolve(u.header), i, clock(i), geo)
  {
  }

  /** The body of the import loop: the cells of row `idx`, their defaults, the "nan" number, and the
      lookup when both street and city are present. */
  method BuildRow(u: Upload, m: Mapping, idx: nat, now: Reading, geo: Geocoder) returns (newRow: Record)
    requires Rectangular(u) && idx < |u.rows| && Fits(m, |u.header|)
    ensures newRow == ImportedRow(u, m, idx, now, geo)
  {
    var nid := now.ymd + ZeroPad4(idx);
    var row := u.rows[idx];
    var vNr := if m.nummer.Some? then row[m.nummer.value] else "";
    var vB := if m.bundesnummer.Some? then row[m.bundesnummer.value] else "";
    var vS := if m.strasse.Some? then row[m.strasse.value] else "";
    var vP := if m.plz.Some? then row[m.plz.value] else "";
    var vO := if m.stadt.Some? then row[m.stadt.value] else "Berlin";
    var vBau := if m.baujahr.Some? then row[m.baujahr.value] else "";
    var vHer := if m.hersteller.Some? then row[m.hersteller.value] else "";
    if vNr == "nan" {
      vNr := "";
    }
    var lat, lon := 0.0, 0.0;
    if vS != "" && vO != "" {
      var loc := geo(Query(vS, vP, vO));
      if loc.Some? {
        lat, lon := loc.value.lat, loc.value.lon;
      }
    }
    newRow := Record(nid, vNr, vB, vS, vP, vO, DialogDisplay, now.date, lat, lon, "", vBau, vHer);
  }

  /** The column lookups and the row loop of the import: each uploaded row becomes one record,
      appended after the rows already there. */
  method AppendImport(df: seq<Record>, u: Upload, clock: Clock, geo: Geocoder) returns (res: seq<Record>)
    requires Rectangular(u)
    ensures res == df + ImportedRows(u, clock, geo)
  {
    var m := Resolve(u.header);
    ghost var rows := ImportedRows(u, clock, geo);
    res := df;
    var idx := 0;
    while idx < |u.rows|
      invariant 0 <= idx <= |u.rows|
      invariant res == df + rows[..idx]
    {
      var newRow := BuildRow(u, m, idx, clock(idx), geo);
      assert rows[..idx + 1] == rows[..idx] + [newRow];
      res := res + [newRow];
      idx := idx + 1;
    }
    assert rows[..idx] == rows;
  }

  /** Ids built from days of one length differ whenever their indices differ. */
  lemma BatchIdsDistinct(ymd1: string, ymd2: string, i: nat, j: nat)
    requires |ymd1| == |ymd2| && i != j
    ensures BatchId(ymd1, i) != BatchId(ymd2, j)
  {
    if BatchId(ymd1, i) == BatchId(ymd2, j) {
      assert BatchId(ymd1, i)[|ymd1|..] == ZeroPad4(i);
      assert BatchId(ymd2, j)[|ymd2|..] == ZeroPad4(j);
      ZeroPad4Injective(i, j);
    }
  }

  /** Within one batch the ids are pairwise distinct, as long as the clock gives eight-character days;
      each id is the day followed by digits that read as the row's index. */
  lemma ImportedIds(u: Upload, clock: Clock, geo: Geocoder)
    requires Rectangular(u)
    requires forall i :: 0 <= i < |u.rows| ==> |clock(i).ymd| == 8
    ensures var rows := ImportedRows(u, clock, geo);
      && (forall i, j :: 0 <= i < j < |rows| ==> rows[i].id != rows[j].id)
      && (forall i :: 0 <= i < |rows| ==>
            |rows[i].id| >= 12 && rows[i].id[..8] == clock(i).ymd
            && AllDigits(rows[i].id[8..]) && ValueOf(rows[i].id[8..]) == i)
  {
    var rows := ImportedRows(u, clock, geo);
    forall i, j | 0 <= i < j < |rows|
      ensures rows[i].id != rows[j].id
    {
      BatchIdsDistinct(clock(i).ymd, clock(j).ymd, i, j);
    }
    forall i | 0 <= i < |rows|
      ensures |rows[i].id| >= 12 && rows[i].id[..8] == clock(i).ymd
      ensures AllDigits(rows[i].id[8..]) && ValueOf(rows[i].id[8..]) == i
    {
      ZeroPad4Value(i);
      assert rows[i].id[8..] == ZeroPad4(i);
    }
  }

  /** Field `v` of a row built from upload row `i` is that row's cell in the first column matching the
      keywords, or `default` when no column matches. */
  ghost predicate TakenFrom(u: Upload, i: nat, kws: seq<string>, default: string, v: string)
    requires Rectangular(u) && i < |u.rows|
  {
    var cols := Lowered(u.header);
    && (NoMatch(cols, kws) ==> v == default)
    && (forall j :: FirstMatch(cols, kws, j) ==> v == u.rows[i][j])
  }

  lemma CellOrTaken(u: Upload, i: nat, kws: seq<string>, default: string)
    requires Rectangular(u) && i < |u.rows|
    ensures TakenFrom(u, i, kws, default, CellOr(u, GetCol(Lowered(u.header), kws), i, default))
  {
    var cols := Lowered(u.header);
    var r := GetCol(cols, kws);
    forall j | FirstMatch(cols, kws, j)
      ensures CellOr(u, r, i, default) == u.rows[i][j]
    {
      FirstMatchUnique(cols, kws, j, r.value);
    }
  }

  /** The fields of a new record: each text field comes from the first column, in header order, whose
      lower-cased name holds one of the field's keywords, and is empty when there is none, except the city,
      which is "Berlin" then. Only the number turns "nan" into empty text. The type is "Dialog Display", the
      photo path empty and the inspection date the clock's date. */
  lemma ImportedFields(u: Upload, clock: Clock, geo: Geocoder, i: nat)
    requires Rectangular(u) && i < |u.rows|
    ensures var r := ImportedRows(u, clock, geo)[i];
      && (exists raw :: TakenFrom(u, i, NummerKeys, "", raw) && r.nummer == (if raw == "nan" then "" else raw))
      && TakenFrom(u, i, BundesKeys, "", r.bundesnummer)
      && TakenFrom(u, i, StrasseKeys, "", r.strasse)
      && TakenFrom(u, i, PlzKeys, "", r.plz)
      && TakenFrom(u, i, StadtKeys, "Berlin", r.stadt)
      && TakenFrom(u, i, BaujahrKeys, "", r.baujahr)
      && TakenFrom(u, i, HerstellerKeys, "", r.hersteller)
      && r.typ == DialogDisplay && r.bildPfad == "" && r.letzteKontrolle == clock(i).date
  {
    ImportedRowAt(u, clock, geo, i);
    CellOrTaken(u, i, NummerKeys, "");
    CellOrTaken(u, i, BundesKeys, "");
    CellOrTaken(u, i, StrasseKeys, "");
    CellOrTaken(u, i, PlzKeys, "");
    CellOrTaken(u, i, StadtKeys, "Berlin");
    CellOrTaken(u, i, BaujahrKeys, "");
    CellOrTaken(u, i, HerstellerKeys, "");
  }

  /** A lookup is made only for a record with both a street and a city, with the query "street, postcode
      city" built from that record's fields, and its answer is the record's coordinates; otherwise, or when
      the lookup finds nothing or fails, its coordinates are (0.0, 0.0). */
  lemma ImportGeocodeGating(u: Upload, clock: Clock, geo: Geocoder, i: nat)
    requires Rectangular(u) && i < |u.rows|
    ensures var r := ImportedRows(u, clock, geo)[i];
      var q := Query(r.strasse, r.plz, r.stadt);
      && (r.strasse == "" || r.stadt == "" ==> r.breitengrad == 0.0 && r.laengengrad == 0.0)
      && (r.strasse != "" && r.stadt != "" && geo(q).Some? ==> Point(r.breitengrad, r.laengengrad) == geo(q).value)
      && (r.strasse != "" && r.stadt != "" && geo(q).None? ==> r.breitengrad == 0.0 && r.laengengrad == 0.0)
  {
    ImportedRowAt(u, clock, geo, i);
    RowGating(u, Resolve(u.header), i, clock(i), geo);
  }

  lemma RowGating(u: Upload, m: Mapping, i: nat, now: Reading, geo: Geocoder)
    requires Rectangular(u) && i < |u.rows| && Fits(m, |u.header|)
    ensures var r := ImportedRow(u, m, i, now, geo);
      var q := Query(r.strasse, r.plz, r.stadt);
      && (r.strasse == "" || r.stadt == "" ==> r.breitengrad == 0.0 && r.laengengrad == 0.0)
      && (r.strasse != "" && r.stadt != "" && geo(q).Some? ==> Point(r.breitengrad, r.laengengrad) == geo(q).value)
      && (r.strasse != "" && r.stadt != "" && geo(q).None? ==> r.breitengrad == 0.0 && r.laengengrad == 0.0)
  {
  }

  /** Without a street or a city the record does not depend on the geocoder at all. */
  lemma GeocoderUnusedWithoutAddress(u: Upload, clock: Clock, g1: Geocoder, g2: Geocoder, i: nat)
    requires Rectangular(u) && i < |u.rows|
    requires ImportedRows(u, clock, g1)[i].strasse == "" || ImportedRows(u, clock, g1)[i].stadt == ""
    ensures ImportedRows(u, clock, g1)[i] == ImportedRows(u, clock, g2)[i]
  {
    ImportedRowAt(u, clock, g1, i);
    ImportedRowAt(u, clock, g2, i);
  }
}
