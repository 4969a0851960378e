/** The highway and SUMO-emission reconciliation of
    `line_emission_sources/highway_data_processor.py`: lane counts (from SUMO or imputed from
    the positive lane counts), widths, the source group, the SUMO-edge to OSM-id join, the
    per-way emission totals and the road-class cleaning. The SUMO network is a given pair of
    maps in place of sumolib. */
module Highways {
  import opened Wrappers
  import opened Text
  import opened Seqs
  import opened Geo
  import opened Sampling

  // ---------------------------------------------------------------------------
  // The SUMO network

  /** A SUMO edge: its id, number of lanes and length in metres. */
  datatype SumoEdge = SumoEdge(id: string, lanes: nat, length: real)

  /** What the model needs of a SUMO network: edges by id (`getEdge`) and, for each OSM way id,
      the edges SUMO built from it (`getEdgesByOrigID`), in iteration order. */
  datatype SumoNet = SumoNet(edges: map<string, SumoEdge>, byOrigId: map<string, seq<SumoEdge>>)

  function EdgesByOrigId(net: SumoNet, osmid: string): seq<SumoEdge> {
    if osmid in net.byOrigId then net.byOrigId[osmid] else []
  }

  // ---------------------------------------------------------------------------
  // Highway rows

  /** A raw OSM feature as downloaded: id, element type and the columns kept later. */
  datatype OsmHighway = OsmHighway(
    osmid: int, elementType: string, highway: Option<string>, geometry: Option<Geometry>,
    lanes: Option<string>)

  /** A highway row. `edgeId` is set on rows built from a SUMO network; `lanes`, `width` and
      `group` are filled in by the processing steps. */
  datatype Road = Road(
    osmid: string, edgeId: string, highway: Option<string>, geometry: Option<Geometry>,
    lanesTag: Option<string>, lanes: int, width: int, group: Option<string>)

  /** The columns `clean_highway` keeps. */
  const HighwayColumns: set<string> := {"osmid", "highway", "geometry", "lanes"}

  /** `clean_highway`: only ways, with the four needed columns and the id turned into text. The
      `element_type` mask comes first, then the column selection; a column the download lacks
      raises `KeyError`. */
  function CleanHighway(columns: set<string>, rows: seq<OsmHighway>): (r: Result<seq<Road>>)
    ensures r.Ok? <==> "element_type" in columns && HighwayColumns <= columns
    ensures !("element_type" in columns) ==> r == Err(KeyError("element_type"))
    ensures r.Ok? ==> |r.value| == |Filter(rows, (h: OsmHighway) => h.elementType == "way")|
    ensures r.Ok? ==> forall i :: 0 <= i < |r.value| ==>
      var h := Filter(rows, (h: OsmHighway) => h.elementType == "way")[i];
      && r.value[i].osmid == IntToString(h.osmid)
      && r.value[i].highway == h.highway && r.value[i].geometry == h.geometry
      && r.value[i].lanesTag == h.lanes
  {
    if "element_type" !in columns then Err(KeyError("element_type"))
    else if "osmid" !in columns then Err(KeyError("osmid"))
    else if "highway" !in columns then Err(KeyError("highway"))
    else if "geometry" !in columns then Err(KeyError("geometry"))
    else if "lanes" !in columns then Err(KeyError("lanes"))
    else
      var ways := Filter(rows, (h: OsmHighway) => h.elementType == "way");
      Ok(seq(|ways|, i requires 0 <= i < |ways| =>
        Road(IntToString(ways[i].osmid), "", ways[i].highway, ways[i].geometry, ways[i].lanes, 0, 0, None)))
  }

  /** The ids `clean_highway` writes read back as the OSM ids. */
  lemma CleanHighwayIdsRoundTrip(columns: set<string>, rows: seq<OsmHighway>, i: nat)
    requires CleanHighway(columns, rows).Ok? && i < |CleanHighway(columns, rows).value|
    ensures ParseInt(CleanHighway(columns, rows).value[i].osmid)
      == Some(Filter(rows, (h: OsmHighway) => h.elementType == "way")[i].osmid)
  {
    ParseIntOfIntToString(Filter(rows, (h: OsmHighway) => h.elementType == "way")[i].osmid);
  }

  // ---------------------------------------------------------------------------
  // Lanes

  /** The `lanes` column. */
  function LaneColumn(roads: seq<Road>): seq<int> {
    Field(roads, (r: Road) => r.lanes)
  }

  /** `generate_lanes_probability`: each positive lane count over their total. */
  function GenerateLanesProbability(roads: seq<Road>): (w: seq<real>)
    ensures |w| == |PositivePool(LaneColumn(roads))|
    ensures |w| > 0 ==> Sum(PositivePool(LaneColumn(roads))) > 0
    ensures forall i :: 0 <= i < |w| ==> w[i] > 0.0
    ensures forall i :: 0 <= i < |w| ==>
      w[i] == PositivePool(LaneColumn(roads))[i] as real / Sum(PositivePool(LaneColumn(roads))) as real
  {
    Weights(LaneColumn(roads))
  }

  /** The lane probabilities form a distribution whenever some road has lanes. */
  lemma LanesProbabilitySumsToOne(roads: seq<Road>)
    requires exists i :: 0 <= i < |roads| && roads[i].lanes > 0
    ensures SumReal(GenerateLanesProbability(roads)) == 1.0
  {
    var i :| 0 <= i < |roads| && roads[i].lanes > 0;
    assert LaneColumn(roads)[i] in PositivePool(LaneColumn(roads));
    WeightsSumToOne(LaneColumn(roads));
  }

  /** Offline: every road takes the lane number of its SUMO edge; an unknown edge raises. */
  function InsertLanesOffline(roads: seq<Road>, net: SumoNet): (r: Result<seq<Road>>)
    ensures r.Ok? <==> forall i :: 0 <= i < |roads| ==> roads[i].edgeId in net.edges
    ensures r.Ok? ==> |r.value| == |roads| && forall i :: 0 <= i < |roads| ==>
      r.value[i] == roads[i].(lanes := net.edges[roads[i].edgeId].lanes)
  {
    MapAll(roads, (road: Road) =>
      if road.edgeId in net.edges then Ok(road.(lanes := net.edges[road.edgeId].lanes))
      else Err(KeyError(road.edgeId)))
  }

  /** `fillna(0).astype(int)` on the lanes tag. */
  function LanesFromTag(tag: Option<string>): (r: Result<int>)
    ensures tag.None? ==> r == Ok(0)
    ensures tag.Some? ==> (r.Ok? <==> ParseInt(tag.value).Some?)
    ensures tag.Some? && r.Ok? ==> r.value == ParseInt(tag.value).value
  {
    match tag
    case None => Ok(0)
    case Some(t) => if ParseInt(t).Some? then Ok(ParseInt(t).value) else Err(ValueError(t))
  }

  /** The lane count SUMO gives a way: that of the last of its edges, if it has any. */
  function SumoLanes(road: Road, net: SumoNet): (r: int)
    ensures |EdgesByOrigId(net, road.osmid)| > 0 ==> r == EdgesByOrigId(net, road.osmid)[|EdgesByOrigId(net, road.osmid)| - 1].lanes
    ensures |EdgesByOrigId(net, road.osmid)| == 0 ==> r == road.lanes
  {
    var edges := EdgesByOrigId(net, road.osmid);
    if |edges| > 0 then edges[|edges| - 1].lanes else road.lanes
  }

  /** The online steps before imputation: tag lanes, then the SUMO lane count where SUMO knows
      the way. */
  function KnownLanes(roads: seq<Road>, net: SumoNet): (r: Result<seq<Road>>)
    ensures r.Ok? <==> forall i :: 0 <= i < |roads| ==> LanesFromTag(roads[i].lanesTag).Ok?
    ensures r.Ok? ==> |r.value| == |roads| && forall i :: 0 <= i < |roads| ==>
      var tagged := roads[i].(lanes := LanesFromTag(roads[i].lanesTag).value);
      r.value[i] == tagged.(lanes := SumoLanes(tagged, net))
  {
    MapAll(roads, (road: Road) =>
      match LanesFromTag(road.lanesTag)
      case Ok(n) => var tagged := road.(lanes := n); Ok(tagged.(lanes := SumoLanes(tagged, net)))
      case Err(e) => Err(e))
  }

  /** `insert_lanes_to_highway` online: after the SUMO step, every road at zero or fewer lanes
      gets a lane count drawn from the positive ones (`choose` stands for the random draw). It
      fails when a tag is not a whole number, or when some road needs a draw and no road has a
      positive count. */
  function InsertLanesOnline(roads: seq<Road>, net: SumoNet, choose: nat -> nat): (r: Result<seq<Road>>)
    ensures KnownLanes(roads, net).Err? ==> r.Err?
    ensures KnownLanes(roads, net).Ok? ==>
      var known := KnownLanes(roads, net).value;
      && (r.Err? <==> (PositivePool(LaneColumn(known)) == [] && exists i :: 0 <= i < |known| && known[i].lanes <= 0))
      && (r.Ok? ==>
            && |r.value| == |roads|
            && (forall i :: 0 <= i < |roads| ==> r.value[i] == known[i].(lanes := r.value[i].lanes))
            && (forall i :: 0 <= i < |roads| ==> r.value[i].lanes > 0)
            && (forall i :: 0 <= i < |roads| && known[i].lanes > 0 ==> r.value[i].lanes == known[i].lanes)
            && (forall i :: 0 <= i < |roads| ==> r.value[i].lanes in LaneColumn(known)))
  {
    var known :- KnownLanes(roads, net);
    var column := LaneColumn(known);
    var pool := PositivePool(column);
    var filled :- Impute(column, v => v <= 0, pool, choose);
    Ok(seq(|known|, i requires 0 <= i < |known| => known[i].(lanes := filled[i])))
  }

  /** `insert_lanes_to_highway`. */
  function InsertLanes(isOnline: bool, roads: seq<Road>, net: SumoNet, choose: nat -> nat): (r: Result<seq<Road>>)
    ensures r.Ok? ==> |r.value| == |roads|
    ensures r.Ok? && isOnline ==> forall i :: 0 <= i < |roads| ==> r.value[i].lanes > 0
    ensures r.Ok? && !isOnline ==> forall i :: 0 <= i < |roads| ==>
      roads[i].edgeId in net.edges && r.value[i].lanes == net.edges[roads[i].edgeId].lanes
  {
    if isOnline then InsertLanesOnline(roads, net, choose) else InsertLanesOffline(roads, net)
  }

  /** `calculate_width_of_highway`: three metres a lane; nothing else changes. */
  function CalculateWidth(roads: seq<Road>): (r: seq<Road>)
    ensures |r| == |roads|
    ensures forall i :: 0 <= i < |roads| ==> r[i].width == 3 * roads[i].lanes && r[i].(width := roads[i].width) == roads[i]
  {
    seq(|roads|, i requires 0 <= i < |roads| => roads[i].(width := roads[i].lanes * 3))
  }

  /** `add_emission_src_group`: every road is in the `highway` source group. */
  function AddEmissionSrcGroup(roads: seq<Road>): (r: seq<Road>)
    ensures |r| == |roads|
    ensures forall i :: 0 <= i < |roads| ==> r[i].group == Some("highway") && r[i].(group := roads[i].group) == roads[i]
  {
    seq(|roads|, i requires 0 <= i < |roads| => roads[i].(group := Some("highway")))
  }

  /** `process_highway_data` after retrieval. */
  function ProcessHighwayData(isOnline: bool, roads: seq<Road>, net: SumoNet, choose: nat -> nat): (r: Result<seq<Road>>)
    ensures r.Ok? ==> |r.value| == |roads|
    ensures r.Ok? ==> forall i :: 0 <= i < |roads| ==> r.value[i].group == Some("highway") && r.value[i].width == 3 * r.value[i].lanes
  {
    var laned :- InsertLanes(isOnline, roads, net, choose);
    Ok(AddEmissionSrcGroup(CalculateWidth(laned)))
  }

  /** Online, every processed road is at least one lane, so at least three metres, wide. */
  lemma OnlineWidthAtLeastThree(roads: seq<Road>, net: SumoNet, choose: nat -> nat, i: nat)
    requires ProcessHighwayData(true, roads, net, choose).Ok? && i < |roads|
    ensures ProcessHighwayData(true, roads, net, choose).value[i].width >= 3
  {
    var laned := InsertLanes(true, roads, net, choose).value;
    assert laned[i].lanes > 0;
  }

  // ---------------------------------------------------------------------------
  // SUMO edge emissions

  /** One edge of the SUMO emission output, with the length and OSM id added later. */
  datatype EdgeEmission = EdgeEmission(
    edgeId: string, nox: real, pmx: real, co: real, length: real, osmid: Option<string>)

  /** `add_edge_length_to_df`: each edge's length from the network; an unknown edge raises. */
  function AddEdgeLength(rows: seq<EdgeEmission>, net: SumoNet): (r: Result<seq<EdgeEmission>>)
    ensures r.Ok? <==> forall i :: 0 <= i < |rows| ==> rows[i].edgeId in net.edges
    ensures r.Ok? ==> |r.value| == |rows| && forall i :: 0 <= i < |rows| ==>
      r.value[i] == rows[i].(length := net.edges[rows[i].edgeId].length)
  {
    MapAll(rows, (e: EdgeEmission) =>
      if e.edgeId in net.edges then Ok(e.(length := net.edges[e.edgeId].length))
      else Err(KeyError(e.edgeId)))
  }

  /** The position of the first occurrence of `x` in `ids`. */
  function FirstIndex(ids: seq<string>, x: string): (k: nat)
    requires x in ids
    ensures k < |ids| && ids[k] == x && forall k' :: 0 <= k' < k ==> ids[k'] != x
  {
    if ids[0] == x then 0 else 1 + FirstIndex(ids[1..], x)
  }

  /** A first occurrence inside a prefix is the first occurrence in the whole sequence. */
  lemma FirstIndexOfPrefix(ids: seq<string>, n: nat, x: string)
    requires n <= |ids| && x in ids[..n]
    ensures x in ids && FirstIndex(ids, x) == FirstIndex(ids[..n], x)
  {
    var k := FirstIndex(ids[..n], x);
    assert ids[k] == x;
  }

  /** The keys of a dict built from `ids`: each id once, in the order of first occurrence. */
  function Dedup(ids: seq<string>): (r: seq<string>)
    ensures forall x :: x in r <==> x in ids
    ensures forall i, j :: 0 <= i < j < |r| ==> r[i] != r[j]
    ensures forall i, j :: 0 <= i < j < |r| ==> FirstIndex(ids, r[i]) < FirstIndex(ids, r[j])
  {
    if |ids| == 0 then []
    else
      var n := |ids| - 1;
      var front := Dedup(ids[..n]);
      assert ids == ids[..n] + [ids[n]];
      assert forall i :: 0 <= i < |front| ==> FirstIndex(ids, front[i]) == FirstIndex(ids[..n], front[i]) by {
        forall i | 0 <= i < |front| ensures FirstIndex(ids, front[i]) == FirstIndex(ids[..n], front[i]) {
          FirstIndexOfPrefix(ids, n, front[i]);
        }
      }
      if ids[n] in front then front
      else
        assert ids[n] !in ids[..n];
        assert FirstIndex(ids, ids[n]) == n;
        front + [ids[n]]
  }

  /** SUMO built the edge `edgeId` from the way `osmid`. */
  predicate Owns(net: SumoNet, osmid: string, edgeId: string) {
    exists k :: 0 <= k < |EdgesByOrigId(net, osmid)| && EdgesByOrigId(net, osmid)[k].id == edgeId
  }

  /** `id` is the last of `ids` owning the edge `edgeId`. */
  predicate LastOwner(net: SumoNet, ids: seq<string>, edgeId: string, id: string) {
    exists k :: 0 <= k < |ids| && ids[k] == id && Owns(net, ids[k], edgeId)
      && forall k' :: k < k' < |ids| ==> !Owns(net, ids[k'], edgeId)
  }

  /** The join after the ways `ids` have been visited in order: every row whose edge the last
      visited way owns is tagged with it. */
  function AssignOwners(rows: seq<EdgeEmission>, net: SumoNet, ids: seq<string>): (r: seq<EdgeEmission>)
    ensures |r| == |rows|
    ensures forall i :: 0 <= i < |rows| ==> r[i] == rows[i].(osmid := r[i].osmid)
    decreases |ids|
  {
    if |ids| == 0 then rows
    else
      var before := AssignOwners(rows, net, ids[..|ids| - 1]);
      var osm := ids[|ids| - 1];
      seq(|before|, i requires 0 <= i < |before| =>
        if Owns(net, osm, before[i].edgeId) then before[i].(osmid := Some(osm)) else before[i])
  }

  /** After the visit a row carries the last way owning its edge, and is untouched if none does. */
  lemma {:induction false} AssignOwnersRow(rows: seq<EdgeEmission>, net: SumoNet, ids: seq<string>, i: nat)
    requires i < |rows|
    ensures (exists k :: 0 <= k < |ids| && Owns(net, ids[k], rows[i].edgeId)) ==>
      AssignOwners(rows, net, ids)[i].osmid.Some?
      && LastOwner(net, ids, rows[i].edgeId, AssignOwners(rows, net, ids)[i].osmid.value)
    ensures (forall k :: 0 <= k < |ids| ==> !Owns(net, ids[k], rows[i].edgeId)) ==>
      AssignOwners(rows, net, ids)[i] == rows[i]
    decreases |ids|
  {
    if |ids| > 0 {
      var front := ids[..|ids| - 1];
      var osm := ids[|ids| - 1];
      var edge := rows[i].edgeId;
      AssignOwnersRow(rows, net, front, i);
      var r := AssignOwners(rows, net, ids);
      var before := AssignOwners(rows, net, front);
      assert before[i].edgeId == edge;
      if Owns(net, osm, edge) {
        assert r[i].osmid == Some(osm);
        assert LastOwner(net, ids, edge, osm) by {
          assert ids[|ids| - 1] == osm;
        }
      } else {
        assert r[i] == before[i];
        if exists k :: 0 <= k < |ids| && Owns(net, ids[k], edge) {
          var k :| 0 <= k < |ids| && Owns(net, ids[k], edge);
          assert k < |ids| - 1;
          assert front[k] == ids[k];
          var id := before[i].osmid.value;
          var j :| 0 <= j < |front| && front[j] == id && Owns(net, front[j], edge)
            && forall k' :: j < k' < |front| ==> !Owns(net, front[k'], edge);
          assert ids[j] == id;
          assert forall k' :: j < k' < |ids| ==> !Owns(net, ids[k'], edge) by {
            forall k' | j < k' < |ids|
              ensures !Owns(net, ids[k'], edge)
            {
              if k' < |front| {
                assert ids[k'] == front[k'];
              }
            }
          }
        } else {
          assert forall k :: 0 <= k < |front| ==> front[k] == ids[k];
        }
      }
    }
  }

  /** `convert_sumo_edges_to_osm_id`: clear the id column, then visit the ways (duplicates
      once, at their first position) and tag every row whose edge the way owns. A row ends up
      with the last way in that order that owns its edge, or with no id. */
  function ConvertSumoEdgesToOsmId(rows: seq<EdgeEmission>, net: SumoNet, osmIds: seq<string>): (r: seq<EdgeEmission>)
    ensures |r| == |rows|
    ensures forall i :: 0 <= i < |rows| ==> r[i] == rows[i].(osmid := r[i].osmid)
    ensures forall i :: 0 <= i < |rows| ==> r[i].osmid.Some? ==>
      r[i].osmid.value in osmIds && Owns(net, r[i].osmid.value, rows[i].edgeId)
    ensures forall i :: 0 <= i < |rows| ==>
      (r[i].osmid.None? <==> forall x :: x in osmIds ==> !Owns(net, x, rows[i].edgeId))
    ensures forall i :: 0 <= i < |rows| && r[i].osmid.Some? ==>
      LastOwner(net, Dedup(osmIds), rows[i].edgeId, r[i].osmid.value)
  {
    var cleared := seq(|rows|, i requires 0 <= i < |rows| => rows[i].(osmid := None));
    var keys := Dedup(osmIds);
    var r := AssignOwners(cleared, net, keys);
    forall i | 0 <= i < |rows|
      ensures r[i].osmid.Some? ==> r[i].osmid.value in osmIds && Owns(net, r[i].osmid.value, rows[i].edgeId)
      ensures r[i].osmid.None? <==> forall x :: x in osmIds ==> !Owns(net, x, rows[i].edgeId)
      ensures r[i].osmid.Some? ==> LastOwner(net, keys, rows[i].edgeId, r[i].osmid.value)
    {
      assert cleared[i].edgeId == rows[i].edgeId;
      AssignOwnersRow(cleared, net, keys, i);
      if r[i].osmid.None? {
        forall x | x in osmIds
          ensures !Owns(net, x, rows[i].edgeId)
        {
          assert x in keys;
          var k :| 0 <= k < |keys| && keys[k] == x;
        }
      } else {
        var k :| 0 <= k < |keys| && keys[k] == r[i].osmid.value && Owns(net, keys[k], rows[i].edgeId)
          && forall k' :: k < k' < |keys| ==> !Owns(net, keys[k'], rows[i].edgeId);
        assert keys[k] in keys;
      }
    }
    r
  }

  // ---------------------------------------------------------------------------
  // Per-way totals

  /** The aggregated emissions of one way: summed NOx, PMx and CO, first length. */
  datatype Totals = Totals(nox: real, pmx: real, co: real, length: real)

  /** The rows tagged with way `id`, in order. */
  function Group(rows: seq<EdgeEmission>, id: string): (g: seq<EdgeEmission>)
    ensures forall i :: 0 <= i < |g| ==> g[i].osmid == Some(id)
  {
    Filter(rows, (e: EdgeEmission) => e.osmid == Some(id))
  }

  function SumNox(rows: seq<EdgeEmission>): real {
    if |rows| == 0 then 0.0 else SumNox(rows[..|rows| - 1]) + rows[|rows| - 1].nox
  }

  function SumPmx(rows: seq<EdgeEmission>): real {
    if |rows| == 0 then 0.0 else SumPmx(rows[..|rows| - 1]) + rows[|rows| - 1].pmx
  }

  function SumCo(rows: seq<EdgeEmission>): real {
    if |rows| == 0 then 0.0 else SumCo(rows[..|rows| - 1]) + rows[|rows| - 1].co
  }

  /** The totals `groupby('osmid').agg(...)` gives a non-empty group. */
  function GroupTotals(g: seq<EdgeEmission>): Totals
    requires |g| > 0
  {
    Totals(SumNox(g), SumPmx(g), SumCo(g), g[0].length)
  }

  /** Adds one row to the running totals; rows without a way id are skipped. */
  function AddRow(m: map<string, Totals>, e: EdgeEmission): map<string, Totals> {
    match e.osmid
    case None => m
    case Some(id) =>
      if id in m then m[id := Totals(m[id].nox + e.nox, m[id].pmx + e.pmx, m[id].co + e.co, m[id].length)]
      else m[id := Totals(e.nox, e.pmx, e.co, e.length)]
  }

  lemma AddRowAt(m: map<string, Totals>, e: EdgeEmission, id: string)
    ensures e.osmid != Some(id) ==> (id in AddRow(m, e) <==> id in m) && (id in m ==> AddRow(m, e)[id] == m[id])
    ensures e.osmid == Some(id) ==> id in AddRow(m, e)
    ensures e.osmid == Some(id) && id in m ==>
      AddRow(m, e)[id] == Totals(m[id].nox + e.nox, m[id].pmx + e.pmx, m[id].co + e.co, m[id].length)
    ensures e.osmid == Some(id) && id !in m ==> AddRow(m, e)[id] == Totals(e.nox, e.pmx, e.co, e.length)
  {
  }

  /** The group-by as a left-to-right accumulation over the rows. */
  function Accumulate(rows: seq<EdgeEmission>): (m: map<string, Totals>)
    ensures forall id :: id in m ==> exists i :: 0 <= i < |rows| && rows[i].osmid == Some(id)
  {
    if |rows| == 0 then map[] else AddRow(Accumulate(rows[..|rows| - 1]), rows[|rows| - 1])
  }

  lemma GroupSplit(front: seq<EdgeEmission>, e: EdgeEmission, id: string)
    ensures Group(front + [e], id) == if e.osmid == Some(id) then Group(front, id) + [e] else Group(front, id)
  {
    FilterConcat(front, [e], (x: EdgeEmission) => x.osmid == Some(id));
  }

  /** Appending a row to a non-empty group adds it to each sum and keeps the first length. */
  lemma GroupTotalsSnoc(g: seq<EdgeEmission>, e: EdgeEmission)
    requires |g| > 0
    ensures GroupTotals(g + [e]) == Totals(GroupTotals(g).nox + e.nox, GroupTotals(g).pmx + e.pmx, GroupTotals(g).co + e.co, GroupTotals(g).length)
  {
    assert (g + [e])[..|g|] == g;
  }

  lemma GroupTotalsSingle(e: EdgeEmission)
    ensures GroupTotals([e]) == Totals(e.nox, e.pmx, e.co, e.length)
  {
    assert [e][..0] == [];
    assert SumNox([e]) == SumNox([]) + e.nox;
    assert SumPmx([e]) == SumPmx([]) + e.pmx;
    assert SumCo([e]) == SumCo([]) + e.co;
  }

  /** One accumulation step keeps the running totals equal to the group totals. */
  lemma AddRowStep(m: map<string, Totals>, e: EdgeEmission, id: string, g: seq<EdgeEmission>, g': seq<EdgeEmission>)
    requires id in m <==> |g| > 0
    requires id in m ==> m[id] == GroupTotals(g)
    requires g' == if e.osmid == Some(id) then g + [e] else g
    ensures id in AddRow(m, e) <==> |g'| > 0
    ensures id in AddRow(m, e) ==> AddRow(m, e)[id] == GroupTotals(g')
  {
    AddRowAt(m, e, id);
    if e.osmid == Some(id) {
      if |g| == 0 {
        assert g' == [e];
        GroupTotalsSingle(e);
      } else {
        GroupTotalsSnoc(g, e);
      }
    }
  }

  /** The accumulation holds, for each way, exactly the totals of its group. */
  lemma {:induction false} AccumulateGroups(rows: seq<EdgeEmission>, id: string)
    ensures id in Accumulate(rows) <==> |Group(rows, id)| > 0
    ensures id in Accumulate(rows) ==> Accumulate(rows)[id] == GroupTotals(Group(rows, id))
    decreases |rows|
  {
    if |rows| > 0 {
      var front := rows[..|rows| - 1];
      var e := rows[|rows| - 1];
      assert rows == front + [e];
      AccumulateGroups(front, id);
      GroupSplit(front, e, id);
      var g := Group(front, id);
      var m := Accumulate(front);
      assert Accumulate(rows) == AddRow(m, e);
      AddRowStep(m, e, id, g, Group(rows, id));
    }
  }

  /** The per-way totals kept by `process_sumo_edges_emissions_file`: all three sums positive. */
  function AggregateEmissions(rows: seq<EdgeEmission>): (m: map<string, Totals>)
    ensures forall id :: id in m <==>
      |Group(rows, id)| > 0
      && SumNox(Group(rows, id)) > 0.0 && SumPmx(Group(rows, id)) > 0.0 && SumCo(Group(rows, id)) > 0.0
    ensures forall id :: id in m ==> m[id] == GroupTotals(Group(rows, id))
  {
    var acc := Accumulate(rows);
    forall id
      ensures id in acc <==> |Group(rows, id)| > 0
      ensures id in acc ==> acc[id] == GroupTotals(Group(rows, id))
    {
      AccumulateGroups(rows, id);
    }
    map id | id in acc && acc[id].nox > 0.0 && acc[id].pmx > 0.0 && acc[id].co > 0.0 :: acc[id]
  }

  /** The online path of `process_sumo_edges_emissions_file`: lengths, OSM ids, per-way totals. */
  function ProcessSumoEdgesEmissions(rows: seq<EdgeEmission>, net: SumoNet, osmIds: seq<string>): (r: Result<map<string, Totals>>)
    ensures r.Ok? <==> forall i :: 0 <= i < |rows| ==> rows[i].edgeId in net.edges
    ensures r.Ok? ==> forall id :: id in r.value ==> id in osmIds
    ensures r.Ok? ==> forall id :: id in r.value ==>
      r.value[id].nox > 0.0 && r.value[id].pmx > 0.0 && r.value[id].co > 0.0
    ensures r.Ok? ==>
      var tagged := ConvertSumoEdgesToOsmId(AddEdgeLength(rows, net).value, net, osmIds);
      forall id :: id in r.value <==>
        && |Group(tagged, id)| > 0
        && SumNox(Group(tagged, id)) > 0.0 && SumPmx(Group(tagged, id)) > 0.0 && SumCo(Group(tagged, id)) > 0.0
    ensures r.Ok? ==>
      var tagged := ConvertSumoEdgesToOsmId(AddEdgeLength(rows, net).value, net, osmIds);
      forall id :: id in r.value ==> r.value[id] == GroupTotals(Group(tagged, id))
  {
    var measured :- AddEdgeLength(rows, net);
    var tagged := ConvertSumoEdgesToOsmId(measured, net, osmIds);
    var m := AggregateEmissions(tagged);
    assert forall id :: id in m ==> id in osmIds by {
      forall id | id in m
        ensures id in osmIds
      {
        var g := Group(tagged, id);
        assert g[0] in tagged;
      }
    }
    Ok(m)
  }

  // ---------------------------------------------------------------------------
  // Road-class cleaning

  /** A row of the merged emission and highway table. */
  datatype CombinedRow = CombinedRow(
    osmid: string, highway: Option<string>, geometry: Option<Geometry>,
    nox: real, pmx: real, lanes: Option<int>, length: Option<real>, width: Option<int>, group: Option<string>)

  /** A merged row that stays: it has a geometry and is neither a cycleway nor a footway. */
  predicate Drivable(row: CombinedRow) {
    row.geometry.Some? && row.highway != Some("cycleway") && row.highway != Some("footway")
  }

  /** The three masks of the cleaning step, in the order they are applied. */
  predicate Located(row: CombinedRow) { row.geometry.Some? }
  predicate NoCycleway(row: CombinedRow) { row.highway != Some("cycleway") }
  predicate NoFootway(row: CombinedRow) { row.highway != Some("footway") }

  predicate LocatedNoCycleway(row: CombinedRow) { Located(row) && NoCycleway(row) }

  /** The masks one after the other select the drivable rows. */
  lemma CleaningMasksDrivable(rows: seq<CombinedRow>)
    ensures Filter(Filter(Filter(rows, Located), NoCycleway), NoFootway) == Filter(rows, Drivable)
  {
    FilterFilter(rows, Located, NoCycleway, LocatedNoCycleway);
    FilterFilter(rows, LocatedNoCycleway, NoFootway, Drivable);
  }

  /** `clean_sumo_emisisons_highway_data`: its three masks in a row keep the drivable rows,
      unchanged and in order, so a pedestrian way with a geometry survives. */
  function CleanSumoEmissionsHighwayData(rows: seq<CombinedRow>): (r: seq<CombinedRow>)
    ensures |r| <= |rows|
    ensures forall i :: 0 <= i < |r| ==> r[i].geometry.Some?
    ensures forall i :: 0 <= i < |r| ==> r[i].highway != Some("cycleway") && r[i].highway != Some("footway")
    ensures forall i :: 0 <= i < |r| ==> r[i] in rows
    ensures forall i :: 0 <= i < |rows| ==> (rows[i] in r <==> Drivable(rows[i]))
    ensures r == Filter(rows, Drivable)
    ensures |r| == |Kept(rows, Drivable)|
    ensures forall t :: 0 <= t < |r| ==> r[t] == rows[Kept(rows, Drivable)[t]]
  {
    CleaningMasksDrivable(rows);
    FilterAtKept(rows, Drivable);
    Filter(Filter(Filter(rows, Located), NoCycleway), NoFootway)
  }
}
