/** The building cleaning of `buildings/buildings_processor.py`: areal features only, levels
    with a comma discarded, missing levels imputed from the positive ones, and heights of three
    metres a level with at least one level's height. */
module Buildings {
  import opened Wrappers
  import opened Text
  import opened Seqs
  import opened Geo
  import opened Sampling
  import opened Features

  /** A building row: the four kept columns, then the level count and height filled in later. */
  datatype Building = Building(
    osmid: int, building: Option<string>, geometry: Geometry, levelsTag: Option<string>,
    levels: int, height: int)

  const LevelsKey: string := "building:levels"

  /** The columns `clean_buildings` keeps. */
  const BuildingColumns: set<string> := {"osmid", "building", "geometry", LevelsKey}

  /** `replace(r'.*,.*', nan, regex=True)`: a level tag with a comma in it becomes missing. */
  function SanitiseLevels(tag: Option<string>): (r: Option<string>)
    ensures tag.Some? && ',' in tag.value ==> r.None?
    ensures !(tag.Some? && ',' in tag.value) ==> r == tag
  {
    match tag
    case Some(s) => if ',' in s then None else tag
    case None => None
  }

  /** `clean_buildings`: the areal features in order, with the four kept columns and sanitised
      levels. The masks read `element_type`, then `geometry`; the level column is touched next,
      before the selection of the other columns. */
  function CleanBuildings(frame: OsmFrame): (r: Result<seq<Building>>)
    ensures r.Ok? <==> "element_type" in frame.columns && BuildingColumns <= frame.columns
    ensures "element_type" in frame.columns && "geometry" !in frame.columns ==> r == Err(KeyError("geometry"))
    ensures r.Ok? ==> |r.value| == |KeepAreal(frame.rows)|
    ensures r.Ok? ==> forall i :: 0 <= i < |r.value| ==>
      var f := KeepAreal(frame.rows)[i];
      && r.value[i].osmid == f.osmid && r.value[i].geometry == f.geometry
      && IsPolygonal(r.value[i].geometry)
      && r.value[i].building == Tag(f, "building")
      && r.value[i].levelsTag == SanitiseLevels(Tag(f, LevelsKey))
    ensures r.Ok? ==> forall i :: 0 <= i < |r.value| ==>
      r.value[i].levelsTag.Some? ==> ',' !in r.value[i].levelsTag.value
  {
    if "element_type" !in frame.columns then Err(KeyError("element_type"))
    else if "geometry" !in frame.columns then Err(KeyError("geometry"))
    else if LevelsKey !in frame.columns then Err(KeyError(LevelsKey))
    else if "osmid" !in frame.columns then Err(KeyError("osmid"))
    else if "building" !in frame.columns then Err(KeyError("building"))
    else
      var kept := KeepAreal(frame.rows);
      Ok(seq(|kept|, i requires 0 <= i < |kept| =>
        Building(kept[i].osmid, Tag(kept[i], "building"), kept[i].geometry,
          SanitiseLevels(Tag(kept[i], LevelsKey)), 0, 0)))
  }

  /** `retrieve_building_data` from a local OSM file: every feature is tagged `relation`, so
      only the polygon mask removes rows. */
  lemma OfflineBuildingsKeepPolygons(frame: OsmFrame)
    requires BuildingColumns <= frame.columns
    ensures CleanBuildings(TagRelation(frame)).Ok?
    ensures |CleanBuildings(TagRelation(frame)).value|
      == |Filter(TagRelation(frame).rows, (f: OsmFeature) => IsPolygonal(f.geometry))|
  {
    TaggedKeepsAllPolygons(frame);
  }

  // ---------------------------------------------------------------------------
  // Levels

  /** `fillna(-1).astype(int)` on a level tag. */
  function LevelsFromTag(tag: Option<string>): (r: Result<int>)
    ensures tag.None? ==> r == Ok(-1)
    ensures tag.Some? ==> (r.Ok? <==> ParseInt(tag.value).Some?)
    ensures tag.Some? && r.Ok? ==> r.value == ParseInt(tag.value).value
  {
    match tag
    case None => Ok(-1)
    case Some(s) => if ParseInt(s).Some? then Ok(ParseInt(s).value) else Err(ValueError(s))
  }

  /** The `building:levels` column. */
  function LevelColumn(rows: seq<Building>): seq<int> {
    Field(rows, (b: Building) => b.levels)
  }

  /** `generate_height_probability`: for vector data each positive level count over their
      total; the raster branch returns nothing. */
  function GenerateHeightProbability(rows: seq<Building>, isRasterData: bool): (w: Option<seq<real>>)
    ensures isRasterData <==> w.None?
    ensures w.Some? ==> |w.value| == |PositivePool(LevelColumn(rows))|
    ensures w.Some? ==> forall i :: 0 <= i < |w.value| ==> w.value[i] > 0.0
    ensures w.Some? && |w.value| > 0 ==> Sum(PositivePool(LevelColumn(rows))) > 0
    ensures w.Some? ==> forall i :: 0 <= i < |w.value| ==>
      w.value[i] == PositivePool(LevelColumn(rows))[i] as real / Sum(PositivePool(LevelColumn(rows))) as real
  {
    if isRasterData then None else Some(Weights(LevelColumn(rows)))
  }

  /** The level probabilities form a distribution whenever some building has levels. */
  lemma HeightProbabilitySumsToOne(rows: seq<Building>)
    requires exists i :: 0 <= i < |rows| && rows[i].levels > 0
    ensures SumReal(GenerateHeightProbability(rows, false).value) == 1.0
  {
    var i :| 0 <= i < |rows| && rows[i].levels > 0;
    assert LevelColumn(rows)[i] in PositivePool(LevelColumn(rows));
    WeightsSumToOne(LevelColumn(rows));
  }

  /** The level tags read as numbers, before imputation. */
  function ReadLevels(rows: seq<Building>): (r: Result<seq<Building>>)
    ensures r.Ok? <==> forall i :: 0 <= i < |rows| ==> LevelsFromTag(rows[i].levelsTag).Ok?
    ensures r.Ok? ==> |r.value| == |rows| && forall i :: 0 <= i < |rows| ==>
      r.value[i] == rows[i].(levels := LevelsFromTag(rows[i].levelsTag).value)
  {
    MapAll(rows, (b: Building) =>
      match LevelsFromTag(b.levelsTag)
      case Ok(n) => Ok(b.(levels := n))
      case Err(e) => Err(e))
  }

  /** `insert_levels_to_buildings`: a building with a negative (so far: missing) level count
      gets one drawn from the positive counts; zero and positive counts are kept. It fails on a
      tag that is not a whole number, and when a draw is needed from an empty pool. */
  function InsertLevels(rows: seq<Building>, choose: nat -> nat): (r: Result<seq<Building>>)
    ensures ReadLevels(rows).Err? ==> r.Err?
    ensures ReadLevels(rows).Ok? ==>
      var read := ReadLevels(rows).value;
      && (r.Err? <==> (PositivePool(LevelColumn(read)) == [] && exists i :: 0 <= i < |read| && read[i].levels < 0))
      && (r.Ok? ==>
            && |r.value| == |rows|
            && (forall i :: 0 <= i < |rows| ==> r.value[i] == read[i].(levels := r.value[i].levels))
            && (forall i :: 0 <= i < |rows| ==> r.value[i].levels >= 0)
            && (forall i :: 0 <= i < |rows| && read[i].levels >= 0 ==> r.value[i].levels == read[i].levels)
            && (forall i :: 0 <= i < |rows| && read[i].levels < 0 ==>
                  r.value[i].levels > 0 && r.value[i].levels in LevelColumn(read)))
  {
    var read :- ReadLevels(rows);
    var column := LevelColumn(read);
    var filled :- Impute(column, v => v < 0, PositivePool(column), choose);
    Ok(seq(|read|, i requires 0 <= i < |read| => read[i].(levels := filled[i])))
  }

  // ---------------------------------------------------------------------------
  // Heights

  /** Three metres a level, a zero height counting as one level. */
  function HeightOf(levels: int): (h: int)
    ensures levels != 0 ==> h == 3 * levels
    ensures levels == 0 ==> h == 3
  {
    var h := levels * 3;
    if h == 0 then 3 else h
  }

  /** `convert_levels_to_height`: heights from levels; nothing else changes. */
  function ConvertLevelsToHeight(rows: seq<Building>): (r: seq<Building>)
    ensures |r| == |rows|
    ensures forall i :: 0 <= i < |rows| ==> r[i] == rows[i].(height := HeightOf(rows[i].levels))
    ensures forall i :: 0 <= i < |rows| && rows[i].levels >= 0 ==> r[i].height >= 3 && r[i].height % 3 == 0
  {
    seq(|rows|, i requires 0 <= i < |rows| => rows[i].(height := HeightOf(rows[i].levels)))
  }

  /** `process_buildings` after retrieval: levels, then heights. */
  function ProcessBuildings(rows: seq<Building>, choose: nat -> nat): (r: Result<seq<Building>>)
    ensures r.Ok? ==> |r.value| == |rows|
  {
    var levelled :- InsertLevels(rows, choose);
    Ok(ConvertLevelsToHeight(levelled))
  }

  /** Every processed building is at least three metres high, a whole number of levels. */
  lemma ProcessedHeightsAtLeastThree(rows: seq<Building>, choose: nat -> nat, i: nat)
    requires ProcessBuildings(rows, choose).Ok? && i < |rows|
    ensures ProcessBuildings(rows, choose).value[i].height >= 3
    ensures ProcessBuildings(rows, choose).value[i].height == 3 * ProcessBuildings(rows, choose).value[i].levels
      || ProcessBuildings(rows, choose).value[i].levels == 0
  {
    var levelled := InsertLevels(rows, choose).value;
    assert levelled[i].levels >= 0;
  }
}
