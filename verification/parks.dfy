/** The park cleaning of `parks/parks_processor.py`: areal features only, three columns. */
module Parks {
  import opened Wrappers
  import opened Seqs
  import opened Geo
  import opened Features

  datatype Park = Park(osmid: int, name: Option<string>, geometry: Geometry)

  /** The columns `clean_parks` keeps. */
  const ParkColumns: set<string> := {"osmid", "name", "geometry"}

  /** `clean_parks`: the areal features in order, each reduced to id, name and geometry. The
      masks read `element_type`, then `geometry`, before the column selection. */
  function CleanParks(frame: OsmFrame): (r: Result<seq<Park>>)
    ensures r.Ok? <==> "element_type" in frame.columns && ParkColumns <= frame.columns
    ensures "element_type" in frame.columns && "geometry" !in frame.columns ==> r == Err(KeyError("geometry"))
    ensures r.Ok? ==> |r.value| == |KeepAreal(frame.rows)|
    ensures r.Ok? ==> forall i :: 0 <= i < |r.value| ==>
      var f := KeepAreal(frame.rows)[i];
      && f.elementType != "point"
      && r.value[i] == Park(f.osmid, Tag(f, "name"), f.geometry)
      && IsPolygonal(r.value[i].geometry)
  {
    if "element_type" !in frame.columns then Err(KeyError("element_type"))
    else if "geometry" !in frame.columns then Err(KeyError("geometry"))
    else if "osmid" !in frame.columns then Err(KeyError("osmid"))
    else if "name" !in frame.columns then Err(KeyError("name"))
    else
      var kept := KeepAreal(frame.rows);
      Ok(seq(|kept|, i requires 0 <= i < |kept| => Park(kept[i].osmid, Tag(kept[i], "name"), kept[i].geometry)))
  }

  /** Every areal feature appears in the output as its park record. */
  lemma CleanParksMembership(frame: OsmFrame, f: OsmFeature)
    requires CleanParks(frame).Ok? && f in frame.rows
    ensures Areal(f) ==> Park(f.osmid, Tag(f, "name"), f.geometry) in CleanParks(frame).value
  {
    if Areal(f) {
      var kept := KeepAreal(frame.rows);
      var j :| 0 <= j < |frame.rows| && frame.rows[j] == f;
      assert f in kept;
      var k :| 0 <= k < |kept| && kept[k] == f;
      assert CleanParks(frame).value[k] == Park(f.osmid, Tag(f, "name"), f.geometry);
    }
  }

  /** The offline path of `retrieve_park_data`: the `relation` tag lets every polygon through. */
  lemma OfflineParksKeepPolygons(frame: OsmFrame)
    requires ParkColumns <= frame.columns
    ensures CleanParks(TagRelation(frame)).Ok?
    ensures |CleanParks(TagRelation(frame)).value|
      == |Filter(TagRelation(frame).rows, (f: OsmFeature) => IsPolygonal(f.geometry))|
  {
    TaggedKeepsAllPolygons(frame);
  }
}
