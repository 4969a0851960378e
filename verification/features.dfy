/** OSM features as the building and park processors receive them: an id, the element type
    (`node`/`way`/`relation`, or `point` for bare points), a geometry and the OSM tags. A frame
    also records which tag columns exist, since selecting a missing one raises `KeyError`. */
module Features {
  import opened Wrappers
  import opened Seqs
  import opened Geo

  datatype OsmFeature = OsmFeature(osmid: int, elementType: string, geometry: Geometry, tags: map<string, string>)

  datatype OsmFrame = OsmFrame(columns: set<string>, rows: seq<OsmFeature>)

  /** A tag cell, missing when the feature lacks the tag. */
  function Tag(f: OsmFeature, key: string): Option<string> {
    if key in f.tags then Some(f.tags[key]) else None
  }

  /** A feature survives the element-type mask and the polygon mask. */
  predicate Areal(f: OsmFeature) {
    f.elementType != "point" && IsPolygonal(f.geometry)
  }

  /** The two masks one after the other: the areal features, unchanged and in order. */
  function KeepAreal(rows: seq<OsmFeature>): (r: seq<OsmFeature>)
    ensures |r| <= |rows|
    ensures forall i :: 0 <= i < |r| ==> r[i].elementType != "point" && IsPolygonal(r[i].geometry)
    ensures forall i :: 0 <= i < |r| ==> r[i] in rows
    ensures forall i :: 0 <= i < |rows| ==> (rows[i] in r <==> Areal(rows[i]))
    ensures |r| == |Kept(rows, Areal)|
    ensures forall t :: 0 <= t < |r| ==> r[t] == rows[Kept(rows, Areal)[t]]
  {
    FilterAtKept(rows, Areal);
    Filter(rows, Areal)
  }

  /** The offline readers set `element_type` to `relation` on every feature. */
  function TagRelation(frame: OsmFrame): (r: OsmFrame)
    ensures r.columns == frame.columns + {"element_type"}
    ensures |r.rows| == |frame.rows|
    ensures forall i :: 0 <= i < |r.rows| ==>
      r.rows[i].elementType == "relation" && r.rows[i] == frame.rows[i].(elementType := "relation")
  {
    OsmFrame(frame.columns + {"element_type"},
      seq(|frame.rows|, i requires 0 <= i < |frame.rows| => frame.rows[i].(elementType := "relation")))
  }

  /** After tagging, the element-type mask removes nothing: only the polygon mask bites. */
  lemma TaggedKeepsAllPolygons(frame: OsmFrame)
    ensures KeepAreal(TagRelation(frame).rows) == Filter(TagRelation(frame).rows, (f: OsmFeature) => IsPolygonal(f.geometry))
    ensures Filter(TagRelation(frame).rows, (f: OsmFeature) => f.elementType != "point") == TagRelation(frame).rows
  {
    var rows := TagRelation(frame).rows;
    FilterKeepsAll(rows, (f: OsmFeature) => f.elementType != "point");
    FilterSame(rows, Areal, (f: OsmFeature) => IsPolygonal(f.geometry));
  }
}
