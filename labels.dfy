/**
 * Label assembly: for every district, a point feature carrying its titles is
 * emitted, followed by the district itself tagged as a boundary.
 */
module Labels {
  import opened Wrappers
  import opened Features
  import opened Titles

  const LabelGroup := "label"
  const BoundaryGroup := "boundary"

  /** The stored Census interior point, present when both coordinates are. */
  function Fallback(p: Props): Option<Point>
  {
    if p.labelPtLon.Some? && p.labelPtLat.Some? then Some(Point(p.labelPtLon.value, p.labelPtLat.value))
    else None
  }

  /** The label anchor: the pole-of-inaccessibility point when the solver
      produced a number (`solved` is `None` for NaN), else the fallback. */
  function Anchor(solved: Option<Point>, p: Props): (a: Option<Point>)
    ensures solved.Some? ==> a == solved
    ensures solved.None? ==> a == Fallback(p)
    ensures a.None? <==> solved.None? && (p.labelPtLon.None? || p.labelPtLat.None?)
  {
    if solved.Some? then solved else Fallback(p)
  }

  /** The label feature of district `d`: a copy of its properties without the
      interior-point fields, with the two titles and the label group. */
  function LabelOf(d: Feature, solved: Option<Point>): (l: Feature)
    ensures l.geometry == LabelPoint(Anchor(solved, d.props))
    ensures l.props.group == Some(LabelGroup)
    ensures l.props.labelPtLon.None? && l.props.labelPtLat.None?
    ensures l.props.titleShort.Some? && l.props.titleLong.Some?
    ensures l.props.(titleShort := d.props.titleShort, titleLong := d.props.titleLong,
      labelPtLon := d.props.labelPtLon, labelPtLat := d.props.labelPtLat, group := d.props.group) == d.props
  {
    var p := d.props.(
      titleShort := Some(TitleShort(d.props)),
      titleLong := Some(TitleLong(d.props)),
      labelPtLon := None,
      labelPtLat := None,
      group := Some(LabelGroup));
    Feature(p, LabelPoint(Anchor(solved, d.props)))
  }

  /** The district as emitted: tagged as a boundary. */
  function AsBoundary(d: Feature): (b: Feature)
    ensures b.geometry == d.geometry && b.props.group == Some(BoundaryGroup)
    ensures b.props.(group := d.props.group) == d.props
  {
    d.(props := d.props.(group := Some(BoundaryGroup)))
  }

  /** The output list for the districts `ds`: label, then boundary, per district. */
  function MapFeatures(ds: seq<Feature>, solved: seq<Option<Point>>): (r: seq<Feature>)
    requires |solved| == |ds|
    ensures |r| == 2 * |ds|
  {
    if ds == [] then []
    else
      var n := |ds| - 1;
      MapFeatures(ds[..n], solved[..n]) + [LabelOf(ds[n], solved[n]), AsBoundary(ds[n])]
  }

  /** Walks the districts in order, appends each one's label and then the
      district to the output list, and tags the district in place. */
  method PlaceLabels(districts: array<Feature>, solved: seq<Option<Point>>) returns (mapFeatures: seq<Feature>)
    requires |solved| == districts.Length
    modifies districts
    ensures mapFeatures == MapFeatures(old(districts[..]), solved)
    ensures forall i :: 0 <= i < districts.Length ==> districts[i] == AsBoundary(old(districts[i]))
  {
    ghost var orig := districts[..];
    mapFeatures := [];
    var i := 0;
    while i < districts.Length
      invariant 0 <= i <= districts.Length
      invariant mapFeatures == MapFeatures(orig[..i], solved[..i])
      invariant forall j :: 0 <= j < i ==> districts[j] == AsBoundary(orig[j])
      invariant forall j :: i <= j < districts.Length ==> districts[j] == orig[j]
    {
      var d := districts[i];
      var pt := LabelOf(d, solved[i]);
      districts[i] := AsBoundary(d);
      mapFeatures := mapFeatures + [pt, districts[i]];
      assert orig[..i + 1][..i] == orig[..i] && solved[..i + 1][..i] == solved[..i];
      i := i + 1;
    }
    assert orig[..i] == orig && solved[..i] == solved;
  }

  /** Sequence-index helper for `MapFeaturesLayout`: the two elements
      appended last sit at |s| and |s|+1. It states nothing about the
      script. */
  lemma AppendedPair<T>(s: seq<T>, a: T, b: T)
    ensures (s + [a, b])[|s|] == a && (s + [a, b])[|s| + 1] == b
  {
  }

  /** Two features per district: its label at 2i and the district at 2i+1. */
  lemma {:induction false} MapFeaturesLayout(ds: seq<Feature>, solved: seq<Option<Point>>)
    requires |solved| == |ds|
    ensures |MapFeatures(ds, solved)| == 2 * |ds|
    ensures forall i :: 0 <= i < |ds| ==>
      MapFeatures(ds, solved)[2 * i] == LabelOf(ds[i], solved[i]) &&
      MapFeatures(ds, solved)[2 * i + 1] == AsBoundary(ds[i])
  {
    if ds != [] {
      var n := |ds| - 1;
      MapFeaturesLayout(ds[..n], solved[..n]);
      var prev := MapFeatures(ds[..n], solved[..n]);
      var out := MapFeatures(ds, solved);
      assert out == prev + [LabelOf(ds[n], solved[n]), AsBoundary(ds[n])];
      forall i | 0 <= i < |ds|
        ensures out[2 * i] == LabelOf(ds[i], solved[i]) && out[2 * i + 1] == AsBoundary(ds[i])
      {
        if i < n {
          assert out[2 * i] == prev[2 * i] && out[2 * i + 1] == prev[2 * i + 1];
          assert ds[..n][i] == ds[i] && solved[..n][i] == solved[i];
        } else {
          AppendedPair(prev, LabelOf(ds[n], solved[n]), AsBoundary(ds[n]));
        }
      }
    }
  }

  /** The label sits at the solver's point when there is one, else at the
      stored interior point; it has no point only when both are missing. */
  lemma LabelAnchor(d: Feature, solved: Option<Point>)
    ensures var a := LabelOf(d, solved).geometry.anchor;
      (solved.Some? ==> a == solved) &&
      (solved.None? && d.props.labelPtLon.Some? && d.props.labelPtLat.Some? ==>
        a == Some(Point(d.props.labelPtLon.value, d.props.labelPtLat.value))) &&
      (a.None? <==> solved.None? && (d.props.labelPtLon.None? || d.props.labelPtLat.None?))
  {
  }

  /** The label keeps every property of its district except the interior
      point, adds the titles, and is in the label group; the district gains
      only the boundary group. */
  lemma LabelAndBoundaryProps(d: Feature, solved: Option<Point>)
    ensures var l := LabelOf(d, solved).props;
      l.state == d.props.state && l.stateName == d.props.stateName && l.number == d.props.number &&
      l.fill == d.props.fill && l.colorIndex == d.props.colorIndex &&
      l.labelPtLon.None? && l.labelPtLat.None? &&
      l.titleShort == Some(TitleShort(d.props)) && l.titleLong == Some(TitleLong(d.props)) &&
      l.group == Some(LabelGroup)
    ensures var b := AsBoundary(d);
      b.geometry == d.geometry && b.props.group == Some(BoundaryGroup) &&
      b.props.(group := d.props.group) == d.props
  {
  }

  /** The odd positions of the output are the districts, in order. */
  function Boundaries(fs: seq<Feature>): seq<Feature>
  {
    if |fs| < 2 then [] else Boundaries(fs[..|fs| - 2]) + [fs[|fs| - 1]]
  }

  /** Dropping the labels from the output gives back the districts, each
      tagged as a boundary, in their original order. */
  lemma {:induction false} BoundariesOfMapFeatures(ds: seq<Feature>, solved: seq<Option<Point>>)
    requires |solved| == |ds|
    ensures Boundaries(MapFeatures(ds, solved)) == seq(|ds|, i requires 0 <= i < |ds| => AsBoundary(ds[i]))
  {
    if ds != [] {
      var n := |ds| - 1;
      BoundariesOfMapFeatures(ds[..n], solved[..n]);
      MapFeaturesLayout(ds[..n], solved[..n]);
      var out := MapFeatures(ds, solved);
      assert out[..|out| - 2] == MapFeatures(ds[..n], solved[..n]);
    }
  }
}
