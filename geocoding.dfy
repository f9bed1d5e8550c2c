/** The address lookup, an external forward-geocoding service seen only through what it answers. */
module Geocoding {
  import opened Wrappers

  datatype Point = Point(lat: real, lon: real)

  /** The sentinel for "no coordinates". */
  const Unset: Point := Point(0.0, 0.0)

  /** The rate-limited lookup: a coordinate pair, or None when the service finds nothing or fails. */
  type Geocoder = string -> Option<Point>

  /** The query text, "street, postcode city". */
  function Query(strasse: string, plz: string, stadt: string): string
  {
    strasse + ", " + plz + " " + stadt
  }

  /** The coordinates a lookup leaves behind: the answer, or the sentinel when there is none
      (a failed call is caught and ignored the same way). */
  function Lookup(geo: Geocoder, query: string): (p: Point)
    ensures geo(query).None? ==> p == Unset
    ensures geo(query).Some? ==> p == geo(query).value
  {
    geo(query).GetOr(Unset)
  }
}
