/**
 * The build's core in order: normalize and merge the two district files,
 * attach the coloring library's fills and renumber them, emit labels and
 * boundaries, and aggregate bounding boxes.
 */
module Pipeline {
  import opened Wrappers
  import opened Features
  import opened Normalize
  import opened Colors
  import opened Labels
  import opened Bboxes

  /** The collection as the map-coloring library returns it: every feature
      carries its fill token. */
  function WithFills(fs: seq<Feature>, fills: seq<string>): (r: seq<Feature>)
    requires |fills| == |fs|
    ensures |r| == |fs|
    ensures forall i :: 0 <= i < |fs| ==>
      r[i].geometry == fs[i].geometry && r[i].props.fill == Some(fills[i]) &&
      r[i].props.(fill := fs[i].props.fill) == fs[i].props
  {
    seq(|fs|, i requires 0 <= i < |fs| => fs[i].(props := fs[i].props.(fill := Some(fills[i]))))
  }

  datatype Output = Output(mapFeatures: seq<Feature>, bboxes: Dict<Box>)

  /** The external services' answers are given per feature, in collection
      order: the fill token, the pole-of-inaccessibility point (`None` when
      it is NaN) and the feature's own bounding box. */
  method Run(rs: seq<CensusRecord>, ncs: seq<NcRecord>, table: FipsTable,
             fills: seq<string>, solved: seq<Option<Point>>, boxes: seq<Box>)
    returns (res: Result<Output, NormalizeError>)
    requires NormalizeAll(rs, ncs, table).Ok? ==>
      |fills| == |solved| == |boxes| == |NormalizeAll(rs, ncs, table).value|
    ensures res.Err? <==> NormalizeAll(rs, ncs, table).Err?
    ensures res.Ok? ==>
      var colored := Recolored(WithFills(NormalizeAll(rs, ncs, table).value, fills));
      |res.value.mapFeatures| == 2 * (|KeptRecords(rs)| + |ncs|) &&
      res.value.mapFeatures == MapFeatures(colored, solved) &&
      res.value.bboxes == AllBoxes(seq(|colored|, i requires 0 <= i < |colored| => AsBoundary(colored[i])), boxes)
  {
    var normalized := NormalizeAll(rs, ncs, table);
    if normalized.Err? {
      return Err(normalized.error);
    }
    assert |normalized.value| == |KeptRecords(rs)| + |ncs| by {
      NormalizeAllShape(rs, ncs, table);
    }
    var fs := WithFills(normalized.value, fills);
    var districts := new Feature[|fs|](i requires 0 <= i < |fs| => fs[i]);
    assert districts[..] == fs;
    var _ := CanonicalizeColors(districts);
    ghost var colored := districts[..];
    var mapFeatures := PlaceLabels(districts, solved);
    assert |mapFeatures| == 2 * |colored| by {
      MapFeaturesLayout(colored, solved);
    }
    var boundaries := districts[..];
    assert boundaries == seq(|colored|, i requires 0 <= i < |colored| => AsBoundary(colored[i]));
    var bboxes := AggregateBoxes(boundaries, boxes);
    return Ok(Output(mapFeatures, bboxes));
  }
}
