/**
 * The feature schema the build script produces: a GeoJSON-like feature whose
 * properties object is modelled as a record. A property that the script never
 * sets, or deletes, is `None`.
 */
module Features {
  import opened Wrappers

  datatype Point = Point(lon: real, lat: real)

  /** Boundary geometries are passed through untouched; a label carries a
      single point, where `None` stands for the coordinate pair the script
      builds when neither placement method yields a number. */
  datatype Geometry =
    | Polygon(rings: seq<seq<Point>>)
    | MultiPolygon(polygons: seq<seq<seq<Point>>>)
    | LabelPoint(anchor: Option<Point>)

  datatype Props = Props(
    state: string,               // USPS abbreviation
    stateName: string,           // full state name
    number: string,              // two-character district number, "00" = at large
    labelPtLon: Option<real>,    // Census interior point, primary records only
    labelPtLat: Option<real>,
    fill: Option<string>,        // opaque token from the map-coloring library
    colorIndex: Option<nat>,     // dense index that replaces `fill`
    titleShort: Option<string>,
    titleLong: Option<string>,
    group: Option<string>)       // "label" or "boundary"

  datatype Feature = Feature(props: Props, geometry: Geometry)

  /** Properties with only the three identifying fields set. */
  function BareProps(state: string, stateName: string, number: string): Props
  {
    Props(state, stateName, number, None, None, None, None, None, None, None)
  }
}
