/** The record table of street display units: its canonical columns and one row of it. */
module Schema {

  /** The thirteen columns every loaded table has, in the order a fresh file is created with. */
  const Columns: seq<string> := ["id", "nummer", "bundesnummer", "strasse", "plz", "stadt", "typ",
                                 "letzte_kontrolle", "breitengrad", "laengengrad", "bild_pfad", "baujahr", "hersteller"]

  /** The columns whose cells are cleaned up as text on load. */
  const TextColumns: seq<string> := ["nummer", "bundesnummer", "plz", "strasse", "stadt", "typ", "bild_pfad",
                                     "baujahr", "hersteller"]

  /** The inspection-date column, parsed as a date on load. */
  const DateColumn: string := "letzte_kontrolle"

  /** The directory uploaded photos are stored in. */
  const ImageFolder: string := "data/images"

  /** The display type every imported row gets. */
  const DialogDisplay: string := "Dialog Display"

  /** One asset record with the canonical columns as fields; `breitengrad` and `laengengrad` are the
      latitude and longitude, 0.0 meaning "no coordinates", and `letzteKontrolle` is the inspection date
      as the date's text. */
  datatype Record = Record(id: string, nummer: string, bundesnummer: string, strasse: string, plz: string,
                           stadt: string, typ: string, letzteKontrolle: string, breitengrad: real,
                           laengengrad: real, bildPfad: string, baujahr: string, hersteller: string)
}
