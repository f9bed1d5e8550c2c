/** A two-row upload with the header "Standort-Nr", "Straße", "PLZ", "Ort", worked through the import
    rules. The city is read from "Standort-Nr" (it holds "ort" and comes first), not defaulted to "Berlin". */
module ImportExample {
  import opened Wrappers
  import opened Strings
  import opened Schema
  import opened Geocoding
  import opened Importer

  const ExampleHeader: seq<string> := ["Standort-Nr", "Straße", "PLZ", "Ort"]

  lemma LackingChar(s: string, p: string, ch: char)
    requires ch in p && ch !in s
    ensures !Contains(s, p)
  {
    if Contains(s, p) {
      ContainsChars(s, p, ch);
    }
  }

  /** `c` matches none of the keywords, each keyword having a character `c` lacks. */
  lemma LacksAll(c: string, kws: seq<string>, chs: seq<char>)
    requires |chs| == |kws| && forall i :: 0 <= i < |kws| ==> chs[i] in kws[i] && chs[i] !in c
    ensures !Matches(c, kws)
  {
    forall k | k in kws
      ensures !Contains(c, k)
    {
      var i :| 0 <= i < |kws| && kws[i] == k;
      LackingChar(c, k, chs[i]);
    }
  }

  lemma NotHere(s: string, p: string, i: nat)
    requires i < |p| && i < |s| && s[i] != p[i] && !Contains(s[1..], p)
    ensures !Contains(s, p)
  {
    if |p| <= |s| {
      assert s[..|p|][i] != p[i];
    }
  }

  /** "adr" does not occur in "standort-nr", although each of its letters does. */
  lemma NoAdr()
    ensures !Contains("standort-nr", "adr")
  {
    assert !Contains("r", "adr");
    NotHere("nr", "adr", 0);
    NotHere("-nr", "adr", 0);
    NotHere("t-nr", "adr", 0);
    NotHere("rt-nr", "adr", 0);
    NotHere("ort-nr", "adr", 0);
    NotHere("dort-nr", "adr", 0);
    NotHere("ndort-nr", "adr", 0);
    NotHere("andort-nr", "adr", 1);
    NotHere("tandort-nr", "adr", 0);
    NotHere("standort-nr", "adr", 0);
  }

  lemma ExampleColumns()
    ensures Lowered(ExampleHeader) == ["standort-nr", "straße", "plz", "ort"]
  {
    assert Lower("Standort-Nr") == "standort-nr";
    assert Lower("Straße") == "straße";
    assert Lower("PLZ") == "plz";
    assert Lower("Ort") == "ort";
  }

  /** Python lower-cases the capital sharp s, so an upper-case street header is still found. */
  lemma UppercaseStreetHeader()
    ensures Lowered(["STRAẞE"]) == ["straße"]
    ensures GetCol(Lowered(["STRAẞE"]), StrasseKeys) == Some(0)
  {
    assert Lower("STRAẞE") == "straße";
    assert Contains("straße", "straße");
  }

  lemma ExampleUnmatched()
    ensures NoMatch(Lowered(ExampleHeader), BundesKeys)
    ensures NoMatch(Lowered(ExampleHeader), BaujahrKeys)
    ensures NoMatch(Lowered(ExampleHeader), HerstellerKeys)
  {
    ExampleColumns();
    var cols := Lowered(ExampleHeader);
    forall j | 0 <= j < |cols|
      ensures !Matches(cols[j], BundesKeys) && !Matches(cols[j], BaujahrKeys) && !Matches(cols[j], HerstellerKeys)
    {
      LacksAll(cols[j], BundesKeys, "bb");
      LacksAll(cols[j], BaujahrKeys, "jj");
      LacksAll(cols[j], HerstellerKeys, "hf");
    }
  }

  lemma ExampleNumberAndCity()
    ensures GetCol(Lowered(ExampleHeader), NummerKeys) == Some(0)
    ensures GetCol(Lowered(ExampleHeader), StadtKeys) == Some(0)
  {
    ExampleColumns();
    assert Contains("standort-nr", "standort");
    assert Contains("standort-nr", "ort");
  }

  /** `c` matches none of the keywords when it contains none of them. */
  lemma NoneContained(c: string, kws: seq<string>)
    requires forall i :: 0 <= i < |kws| ==> !Contains(c, kws[i])
    ensures !Matches(c, kws)
  {
    forall k | k in kws
      ensures !Contains(c, k)
    {
      var i :| 0 <= i < |kws| && kws[i] == k;
    }
  }

  lemma StreetKeywordsAbsent()
    ensures !Contains("standort-nr", "straße") && !Contains("standort-nr", "strasse")
    ensures !Contains("standort-nr", "adr")
  {
    LackingChar("standort-nr", "straße", 'ß');
    LackingChar("standort-nr", "strasse", 'e');
    NoAdr();
  }

  lemma NoneOfThree(c: string, k1: string, k2: string, k3: string)
    requires !Contains(c, k1) && !Contains(c, k2) && !Contains(c, k3)
    ensures !Matches(c, [k1, k2, k3])
  {
    NoneContained(c, [k1, k2, k3]);
  }

  lemma NoStreetKeyword()
    ensures !Matches("standort-nr", StrasseKeys)
  {
    StreetKeywordsAbsent();
    NoneOfThree("standort-nr", "straße", "strasse", "adr");
  }

  lemma StreetSecond(cols: seq<string>)
    requires |cols| == 4 && cols[0] == "standort-nr" && cols[1] == "straße"
    ensures GetCol(cols, StrasseKeys) == Some(1)
  {
    assert Matches(cols[1], StrasseKeys) by {
      assert Contains("straße", "straße");
    }
    NoStreetKeyword();
    GetColFindsFirst(cols, StrasseKeys, 1);
  }

  lemma PostcodeThird(cols: seq<string>)
    requires |cols| == 4 && cols[0] == "standort-nr" && cols[1] == "straße" && cols[2] == "plz"
    ensures GetCol(cols, PlzKeys) == Some(2)
  {
    assert Matches(cols[2], PlzKeys) by {
      assert Contains("plz", "plz");
    }
    LacksAll(cols[0], PlzKeys, "pp");
    LacksAll(cols[1], PlzKeys, "pp");
    GetColFindsFirst(cols, PlzKeys, 2);
  }

  lemma ExampleStreetAndPostcode()
    ensures GetCol(Lowered(ExampleHeader), StrasseKeys) == Some(1)
    ensures GetCol(Lowered(ExampleHeader), PlzKeys) == Some(2)
  {
    ExampleColumns();
    StreetSecond(Lowered(ExampleHeader));
    PostcodeThird(Lowered(ExampleHeader));
  }

  /** Number and city come from column 0, street from column 1, postcode from column 2; the federal
      number, build year and manufacturer have no column. */
  lemma HeaderExample()
    ensures Resolve(ExampleHeader) == ExampleMapping
  {
    ExampleUnmatched();
    ExampleNumberAndCity();
    ExampleStreetAndPostcode();
  }

  const ExampleMapping: Mapping := Mapping(Some(0), None, Some(1), Some(2), Some(0), None, None)

  /** A record built under the example's column mapping. */
  lemma UnderExampleMapping(u: Upload, clock: Clock, geo: Geocoder, i: nat)
    requires Rectangular(u) && i < |u.rows| && |u.header| == 4 && Resolve(u.header) == ExampleMapping
    ensures var r := ImportedRows(u, clock, geo)[i];
      var row := u.rows[i];
      && r.nummer == (if row[0] == "nan" then "" else row[0])
      && r.strasse == row[1] && r.plz == row[2] && r.stadt == row[0]
      && Point(r.breitengrad, r.laengengrad)
         == if row[1] != "" && row[0] != "" then Lookup(geo, Query(row[1], row[2], row[0])) else Unset
  {
    ImportedRowAt(u, clock, geo, i);
  }

  lemma ExampleMappingOf(u: Upload)
    requires u.header == ExampleHeader
    ensures Resolve(u.header) == ExampleMapping
  {
    HeaderExample();
  }

  lemma ExampleQueries()
    ensures Query("Heerstr. 12", "10115", "A1") == "Heerstr. 12, 10115 A1"
    ensures Query("nan", "nan", "nan") == "nan, nan nan"
  {
  }

  /** Under the example header a filled row, "A1", "Heerstr. 12", "10115", "Berlin", takes its number and
      its city from "A1" and is looked up at "Heerstr. 12, 10115 A1". */
  lemma FilledExampleRow(u: Upload, clock: Clock, geo: Geocoder, i: nat)
    requires Rectangular(u) && i < |u.rows| && u.header == ExampleHeader
    requires u.rows[i] == ["A1", "Heerstr. 12", "10115", "Berlin"]
    ensures var r := ImportedRows(u, clock, geo)[i];
      && r.nummer == "A1" && r.strasse == "Heerstr. 12" && r.plz == "10115" && r.stadt == "A1"
      && Point(r.breitengrad, r.laengengrad) == Lookup(geo, "Heerstr. 12, 10115 A1")
  {
    ExampleMappingOf(u);
    UnderExampleMapping(u, clock, geo, i);
    ExampleQueries();
  }

  /** Under the example header a row left blank, which reads as "nan" in every cell, gets an empty number
      but keeps "nan" as street and city, so it is looked up at "nan, nan nan". */
  lemma BlankExampleRow(u: Upload, clock: Clock, geo: Geocoder, i: nat)
    requires Rectangular(u) && i < |u.rows| && u.header == ExampleHeader
    requires u.rows[i] == ["nan", "nan", "nan", "nan"]
    ensures var r := ImportedRows(u, clock, geo)[i];
      && r.nummer == "" && r.strasse == "nan" && r.plz == "nan" && r.stadt == "nan"
      && Point(r.breitengrad, r.laengengrad) == Lookup(geo, "nan, nan nan")
  {
    ExampleMappingOf(u);
    UnderExampleMapping(u, clock, geo, i);
    ExampleQueries();
  }
}
