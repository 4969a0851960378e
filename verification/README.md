# SUMO2GRAL core rules in Dafny

SUMO2GRAL prepares input for the GRAL dispersion model from OpenStreetMap data, SUMO traffic
emissions and a weather-station file, and reads GRAL's result grids back. Most of the program
is glue around pandas, geopandas, osmnx, sumolib and pyproj. This project models the exact
rules underneath that glue as pure functions over immutable records and proves their
contracts:

- **GRAL input encoding** (`Gral`, `GralGenerator`). This covers the GRAL.geb cell counts from
  a truncated bounding box, the wind-direction half-sector, the meteopgt.all and
  mettimeseries.dat records, the pollutant check, the emission-rate conversion, line-source row
  selection and constants, and the renaming of GRAL's result files. `GralGenerator` is the
  older writer, with 10 m cells, grams-to-kilograms emissions and no row filtering.
- **Highway and emission reconciliation** (`Highways`). This covers the lane counts from SUMO
  or imputed from the positive counts, widths, the source group, the SUMO-edge to OSM-id join
  ("the last way owning an edge wins"), the per-way totals with the positivity filter, and the
  road-class cleaning.
- **Building and park cleaning** (`Buildings`, `Parks`, `Features`). This covers the
  element-type and polygon masks, sanitising of comma levels, level imputation and heights of
  three metres a level.
- **Weather normalisation** (`Weather`, on the column-major data frames of `Frames`). This
  covers decimal commas, column renaming, `dropna`, the date and hour reformatting, the
  Pasquill stability-class table and the met-file column drop.
- **Result-grid parsing** (`Results`). This covers the six-line header, the data rows with
  nodata cells blanked, the row-major gathering of `(x, y, value)` points, the pollutant name
  taken from the file name, and the dropping of zero values.

Shared modules:

- `Wrappers` holds `Option`, and a `Result` whose faults name the Python exception raised.
- `Numeric` holds `int()` as truncation toward zero, `round()` as round-half-to-even, and
  `round(x, 1)`.
- `Text` holds `split`, `strip`, `int` and `float` on text, and `str` of an integer.
- `Seqs` holds boolean-mask selection as `Filter` and a conversion that raises on the first
  bad row as `MapAll`.
- `Sampling` holds the positive pool, its weights and the random draw.
- `Geo` holds geometries. Only the type tag and the bounds of a geometry are visible.

Modelling conventions:

- Pandas `NaN` becomes `None` or the cell `Missing`.
- Python floats become exact `real`s.
- An exception becomes an `Err`.
- `np.random.choice` becomes an oracle parameter `choose: nat -> nat`. The model keeps only the
  fact that the drawn value comes from the pool.
- The SUMO network becomes a pair of given maps: edges by id, and edges by OSM way id.

Each rule is stated against a partner:

- an inverse: header and data lines written and parsed back, `ParseInt` of `IntToString`, a
  situation label read back;
- an invariant: heights at least 3 m, lanes positive, weights summing to 1, only the listed
  columns touched;
- or an independent reference: a point is in the gathered list iff it is a visited,
  non-missing cell; a row's osmid is the last listed way that owns its edge; the sector
  lies within 0.25 of a tenth of the direction.

Grid placement follows the code. Cell `(i, j)` of the data rows is placed at
`(xll + j·cellsize, yll + i·cellsize)`, so the first data row sits at the lower-left corner.

## Model

| member | source | states |
|---|---|---|
| Numeric.Trunc | gral/gral_processor.py:71-77 | `int()` of a float is the integer between it and zero, less than one away |
| Numeric.RoundHalfEven | gral/gral_processor.py:200 | `round()` gives an integer within one half, and an even one on a tie |
| Numeric.RoundTenths | gral/gral_processor.py:182 | `round(x, 1)` is a whole number of tenths within 0.05 of `x` |
| Numeric.RoundTenthsOfHalfStep | gral/gral_processor.py:403-406 | rounding a half-step sector to a tenth leaves it unchanged |
| Text.Split | gral/gral_processor.py:179 | `split(sep)` gives one more piece than there are separators, none containing one |
| Text.JoinSplit | gral/gral_processor.py:179 | joining the pieces of a split gives back the string |
| Text.SplitJoin | gral/gral_processor.py:395-396 | splitting a join of separator-free pieces gives back the pieces |
| Text.Tokens | display_results/results_processor.py:48 | `split()` gives non-blank runs only |
| Text.TokensJoin | display_results/results_processor.py:48-53 | words joined by blanks split back into the same words |
| Text.StripLeft | gral/gral_processor.py:178 | stripping removes only leading blanks and leaves a non-blank first character |
| Text.StripRight | gral/gral_processor.py:178 | stripping removes only trailing blanks and leaves a non-blank last character |
| Text.ReplaceChar | weather/weather_processor.py:60 | `replace` changes exactly the occurrences of one character |
| Text.NatToString | gral/gral_processor.py:472-479 | `str(n)` is the shortest decimal spelling whose digit value is `n` |
| Text.ParseIntOfIntToString | line_emission_sources/highway_data_processor.py:98 | `int(str(i)) == i` for every integer |
| Text.ParseIntThenDecimal | gral/gral_processor.py:183-184 | text `int` accepts is read by `float` as the same number |
| Seqs.Filter | line_emission_sources/highway_data_processor.py:377-383 | a mask keeps exactly the rows passing it, and nothing that is not an input row |
| Seqs.FilterConcat | line_emission_sources/highway_data_processor.py:377-383 | masks distribute over concatenation, so kept rows keep their relative order |
| Seqs.FilterFilter | line_emission_sources/highway_data_processor.py:377-383 | masks applied in turn are one mask by the conjunction |
| Seqs.Kept | line_emission_sources/highway_data_processor.py:377-383 | the positions a mask selects, strictly increasing, every passing position included |
| Seqs.FilterAtKept | line_emission_sources/highway_data_processor.py:377-383 | a selection reads the input at the selected positions, in order |
| Seqs.MapAll | weather/weather_processor.py:58-61 | a column conversion succeeds iff every cell converts, and then converts cell by cell |
| Sampling.Weights | line_emission_sources/highway_data_processor.py:114-118 | the probabilities are each positive value over their sum: one per positive row, all positive |
| Sampling.WeightsSumToOne | buildings/buildings_processor.py:154-157 | the probabilities of a non-empty positive pool sum to 1 |
| Sampling.Draw | line_emission_sources/highway_data_processor.py:169-170 | a draw is an element of the pool |
| Sampling.DrawReachesPool | buildings/buildings_processor.py:132-133 | every pool element can be drawn |
| Sampling.Impute | buildings/buildings_processor.py:130-133 | flagged values are replaced by pool draws and others kept; with an empty pool it fails iff some value is flagged |
| Gral.CellCount | gral/gral_processor.py:76-77 | `int(abs(a-b)/size)` is the `n` with `size·n <= abs(a-b) < size·(n+1)` |
| Gral.WholeCells | gral/gral_processor.py:76-77 | a truncated quotient brackets the dividend between two multiples of the cell size |
| Gral.GrebFor | gral/gral_processor.py:71-77 | the borders are the truncated box; the counts are the whole cells between them |
| Gral.CreateGreb | gral/gral_processor.py:68-77 | GRAL.geb: 5 m cells, `5n <= abs(E-W) < 5(n+1)` and likewise north-south |
| Gral.Sector | gral/gral_processor.py:197-201 | the sector is a multiple of 0.5 within 0.25 of direction/10 |
| Gral.SectorOfWholeDegrees | gral/gral_processor.py:183-201 | a whole-degree direction is strictly within 0.25 of its sector (no rounding tie) |
| Gral.PgtEntryFrom | gral/gral_processor.py:177-184 | a met line is read iff its fields parse; speed a whole number of tenths within 0.05 of its field, sector as above, class read, frequency 1000 |
| Gral.PgtEntryOfFields | gral/gral_processor.py:181-184 | the entry of parsed fields: speed a whole number of tenths within 0.05 of its field, half-step sector within 0.25 of a tenth of the direction, class read, frequency 1000 |
| Gral.PgtEntryAsWritten | gral/gral_processor.py:181-184 | as written, the speed is read from the fourth field (a whole number of tenths within 0.05) and the direction from the third; frequency 1000, half-step sector, class from the fifth |
| Gral.PgtEntryIntended | gral/gral_processor.py:181-184 | the corrected reader: speed from the third field (a whole number of tenths within 0.05), direction from the fourth; frequency 1000, half-step sector, class from the fifth |
| Gral.Meteopgt | gral/gral_processor.py:172-203 | meteopgt.all has one entry per met line, entry i being line i read as written (direction from the third field, speed from the fourth), all at frequency 1000 with half-step sectors; fails iff some line is unreadable |
| Gral.MetTimeEntryOfLine | gral/gral_processor.py:389-406 | date is day.month, hour is the int before ':', speed truncated, sector of the direction, class truncated; fails iff the row is malformed |
| Gral.MetTimeSeries | gral/gral_processor.py:389-406 | succeeds iff every non-blank met line converts (lines of only spaces and tabs are skipped); then one entry per such line, in order, each the line's conversion with a half-step sector |
| Gral.MetRowsOfFullLines | gral/gral_processor.py:391 | a met file without blank lines is read row for row |
| Gral.PgtAsWrittenDisagrees | gral/gral_processor.py:181-184 | on a line both readers accept, meteopgt.all and mettimeseries.dat give different sectors whenever fields 3 and 4 differ by 5 or more |
| Gral.PgtIntendedAgrees | gral/gral_processor.py:395-406 | with the corrected field order both files agree on sector and class for every line |
| Gral.SplitDay | gral/gral_processor.py:395-396 | `dd.mm.yyyy` splits on dots into day, month and year |
| Gral.DateDropsYear | gral/gral_processor.py:395-397 | the written date plus `.yyyy` is the original day field |
| Gral.CheckPollutant | gral/gral_processor.py:501-505 | succeeds iff the name is NOx, PM10, PM2.5 or CO, returning it unchanged; otherwise the invalid-pollutant error |
| Gral.EmissionRate | gral/gral_processor.py:542-550 | rate × hours × km equals kilograms; the division fails iff length or time is zero |
| Gral.EmissionRateOneHour | gral/gral_processor.py:529-550 | with the default 3600 s the rate is mg/(1000·length), whatever the error argument |
| Gral.LineParamsFor | gral/gral_processor.py:340-358 | PM10 reads PMx with mode 2, shares 100/60 and depositions 0.032/0.0032; other pollutants keep mode 0 and zeros; id column osm_id online, edge_id offline |
| Gral.SelectLines | gral/gral_processor.py:359-363 | kept rows are exactly those with a present value >= 0, in order; a missing column or a text value raises |
| Gral.LineSourceOf | gral/gral_processor.py:369-374 | fails iff the id, width or length column is missing, the length is not a number, or it is zero; else the line carries id, bounds, width, city height, the pollutant's shares, depositions and mode, and a rate that times the length in km gives the emission in kg (NaN for a missing length) |
| Gral.CreateLineEmissions | gral/gral_processor.py:328-374 | succeeds iff the selection succeeds and every selected row gives a line; then line i is the line of selected row i, with mode 2 for PM10 and 0 otherwise |
| Gral.NatToStringLength | gral/gral_processor.py:472-479 | `str(i)` has one to four digits for i below 10, 100, 1000, 10000 |
| Gral.ConditionLabelRoundTrip | gral/gral_processor.py:472-479 | the label of situations 1 to 9999 has five characters and reads back as the situation |
| Gral.ConditionRenames | gral/gral_processor.py:481-482 | situation i gives one rename per layer, `label-j01.txt` to `results_weather_i_p_hm.txt` |
| Gral.RenameResults | gral/gral_processor.py:470-488 | at most one situation: fails iff there is no layer, else renames each layer of situation 1; several situations: succeeds, and a rename is emitted iff it is of some layer of a situation from 1000 to n - 1 |
| Gral.RenameFromAsWritten | gral/gral_processor.py:470-482 | every rename of the loop from lo belongs to a layer of a situation in [lo, n) that is at least 1000 |
| Gral.RenamedByAsWritten | gral/gral_processor.py:470-482 | every layer of every situation in [lo, n) from 1000 on is renamed by the loop from lo |
| Gral.NothingBelowThousand | gral/gral_processor.py:471-482 | the multi-situation loop renames nothing for situations below 1000 |
| Gral.RenameResultsSkipsSituations | gral/gral_processor.py:470-482 | with 2 to 1000 situations no file is renamed |
| Gral.RenamesUpTo | gral/gral_processor.py:471-482 | the intended loop gives n × layers renames |
| Gral.RenameResultsIntended | gral/gral_processor.py:470-488 | the corrected renaming matches the code for one situation and renames n × layers files otherwise |
| Gral.RenamesUpToCovers | gral/gral_processor.py:470-482 | every result file of every situation 1..n and layer is renamed by the corrected version |
| GralGenerator.CreateGreb | gral/gral_files_generator.py:59-68 | 10 m cells: `10n <= abs(E-W) < 10(n+1)` and likewise north-south |
| GralGenerator.PgtEntryOfLine | gral/gral_files_generator.py:169-175 | speed from the third field as a whole number of tenths within 0.05, direction from the fourth, class from the fifth, frequency 1000, half-step sector |
| GralGenerator.PgtEntryMatchesIntended | gral/gral_files_generator.py:169-175 | this reader is the corrected reader of gral_processor.py |
| GralGenerator.Meteopgt | gral/gral_files_generator.py:163-194 | one entry per line, entry i being line i read with speed from the third field and direction from the fourth, frequency 1000, half-step sectors; fails iff a line is unreadable |
| GralGenerator.ConvertGToKg | gral/gral_files_generator.py:376-377 | the result times 1000 is the input |
| GralGenerator.ConvertGToKgLinear | gral/gral_files_generator.py:376-377 | the conversion is linear |
| GralGenerator.EmissionOf | gral/gral_files_generator.py:306 | a number is converted from grams; a missing value stays missing; text succeeds iff `float` reads it, and is then converted |
| GralGenerator.CreateLineEmissions | gral/gral_files_generator.py:285-306 | an empty table gives an empty file; otherwise it succeeds iff osmid, width and the emission column exist and every emission cell converts, and then every row gives a line in order with its id, bounds, width and converted emission |
| GralGenerator.MetTimeSeries | gral/gral_files_generator.py:321-338 | succeeds iff every non-blank met line converts (lines of only spaces and tabs are skipped); then one entry per such line, in order, each the line's conversion with a half-step sector |
| GralGenerator.FilesAgree | gral/gral_files_generator.py:169-175 | for a met file of stripped, readable lines, meteopgt.all and mettimeseries.dat agree entry by entry on sector and class |
| Highways.CleanHighway | line_emission_sources/highway_data_processor.py:79-99 | succeeds iff `element_type` and the four needed columns exist (`element_type` is looked up first); only `way` rows remain, with osmid as text and the other three columns as they were |
| Highways.CleanHighwayIdsRoundTrip | line_emission_sources/highway_data_processor.py:98 | the text ids read back as the OSM ids |
| Highways.GenerateLanesProbability | line_emission_sources/highway_data_processor.py:102-119 | one positive probability per row with lanes > 0: lanes over their total |
| Highways.LanesProbabilitySumsToOne | line_emission_sources/highway_data_processor.py:116-118 | if some road has lanes the probabilities sum to 1 |
| Highways.InsertLanesOffline | line_emission_sources/highway_data_processor.py:136-143 | each road takes its SUMO edge's lane number; fails iff some edge is unknown |
| Highways.LanesFromTag | line_emission_sources/highway_data_processor.py:147 | a missing tag is 0, a number is read, other text raises |
| Highways.SumoLanes | line_emission_sources/highway_data_processor.py:150-156 | a way with SUMO edges takes the lane count of the last one, else keeps its own |
| Highways.KnownLanes | line_emission_sources/highway_data_processor.py:146-156 | the tag step then the SUMO step, row by row; fails iff some tag is not a whole number |
| Highways.InsertLanesOnline | line_emission_sources/highway_data_processor.py:145-170 | after imputation every road has lanes > 0, positive counts are kept, drawn ones come from the known counts; fails iff a draw is needed from an empty pool |
| Highways.InsertLanes | line_emission_sources/highway_data_processor.py:121-172 | online every road has lanes > 0; offline each has its edge's lane number |
| Highways.CalculateWidth | line_emission_sources/highway_data_processor.py:185-189 | width is three times lanes; nothing else changes |
| Highways.AddEmissionSrcGroup | line_emission_sources/highway_data_processor.py:400-403 | every road is in group `highway`; nothing else changes |
| Highways.ProcessHighwayData | line_emission_sources/highway_data_processor.py:203-208 | every processed road is in group highway with width three times lanes |
| Highways.OnlineWidthAtLeastThree | line_emission_sources/highway_data_processor.py:160-188 | online every processed road is at least 3 m wide |
| Highways.AddEdgeLength | line_emission_sources/highway_data_processor.py:210-218 | each edge gets its network length; fails iff some edge is unknown |
| Highways.Dedup | line_emission_sources/highway_data_processor.py:300-301 | the dict keys are the ids without repeats, nothing added or lost, in order of first occurrence |
| Highways.FirstIndex | line_emission_sources/highway_data_processor.py:300-301 | the position of the first occurrence of an id |
| Highways.AssignOwners | line_emission_sources/highway_data_processor.py:307-316 | visiting ways changes only the osmid column |
| Highways.AssignOwnersRow | line_emission_sources/highway_data_processor.py:307-316 | a row ends with the last visited way owning its edge, or unchanged if none does |
| Highways.ConvertSumoEdgesToOsmId | line_emission_sources/highway_data_processor.py:293-318 | only osmid changes; it is missing iff no listed id owns the edge, and otherwise the last listed way, in first-occurrence order, that owns it |
| Highways.Group | line_emission_sources/highway_data_processor.py:254-255 | a group holds only rows tagged with its id |
| Highways.AddRowAt | line_emission_sources/highway_data_processor.py:254-255 | adding a row changes only its own way's totals: sums grow, the first length stays |
| Highways.Accumulate | line_emission_sources/highway_data_processor.py:254-255 | every accumulated way id occurs on some row |
| Highways.GroupTotalsSnoc | line_emission_sources/highway_data_processor.py:254-255 | appending a row to a group adds to each sum and keeps the first length |
| Highways.AccumulateGroups | line_emission_sources/highway_data_processor.py:254-255 | the accumulation has an entry iff the way has rows, and then holds its group totals |
| Highways.AggregateEmissions | line_emission_sources/highway_data_processor.py:254-260 | a way is kept iff it has rows and all three sums are positive; its entry is the group totals |
| Highways.ProcessSumoEdgesEmissions | line_emission_sources/highway_data_processor.py:234-261 | fails iff an edge is unknown; else an id is kept iff its tagged rows are non-empty with positive NOx, PMx and CO sums, and its entry is those rows' totals |
| Highways.CleanSumoEmissionsHighwayData | line_emission_sources/highway_data_processor.py:375-387 | a row is kept iff it has a geometry and is neither cycleway nor footway; the survivors are the input rows at increasing kept positions, so order and multiplicity are preserved |
| Highways.CleaningMasksDrivable | line_emission_sources/highway_data_processor.py:377-385 | the three masks applied in turn select the drivable rows |
| Features.KeepAreal | buildings/buildings_processor.py:63-66 | a row is kept iff it is not a point and is a (multi)polygon; the survivors are the input rows at increasing kept positions, so order and multiplicity are preserved |
| Features.TagRelation | parks/parks_processor.py:92 | every feature is tagged `relation`; nothing else changes |
| Features.TaggedKeepsAllPolygons | parks/parks_processor.py:92-104 | after tagging the point mask removes nothing and only the polygon mask selects |
| Seqs.FilterSame | parks/parks_processor.py:58-61 | masks agreeing on every row select the same rows |
| Buildings.SanitiseLevels | buildings/buildings_processor.py:70-71 | a level tag containing a comma becomes missing, any other tag is kept |
| Buildings.CleanBuildings | buildings/buildings_processor.py:50-73 | succeeds iff element_type and the four columns exist, a missing geometry raising right after element_type; the areal rows in order with id, building, geometry and sanitised levels |
| Buildings.OfflineBuildingsKeepPolygons | buildings/buildings_processor.py:92-106 | a local file loses only its non-polygon rows |
| Buildings.LevelsFromTag | buildings/buildings_processor.py:121-122 | a missing level is -1, a number is read, other text raises |
| Buildings.GenerateHeightProbability | buildings/buildings_processor.py:138-160 | the raster branch gives nothing; otherwise one positive probability per positive level: level over their total |
| Buildings.HeightProbabilitySumsToOne | buildings/buildings_processor.py:154-157 | if some building has levels the probabilities sum to 1 |
| Buildings.ReadLevels | buildings/buildings_processor.py:121-122 | every level tag is read; fails iff some tag is not a whole number |
| Buildings.InsertLevels | buildings/buildings_processor.py:109-135 | negative levels are replaced by a positive count from the pool, zero and positive ones kept, other columns unchanged; fails iff a draw is needed from an empty pool |
| Buildings.HeightOf | buildings/buildings_processor.py:175-178 | height is three times levels, a zero height becoming 3 |
| Buildings.ConvertLevelsToHeight | buildings/buildings_processor.py:163-179 | only the height changes; for non-negative levels it is a positive multiple of 3 |
| Buildings.ProcessBuildings | buildings/buildings_processor.py:181-191 | one processed row per input row |
| Buildings.ProcessedHeightsAtLeastThree | buildings/buildings_processor.py:188-191 | every processed building is at least 3 m high, three times its levels unless it has none |
| Parks.CleanParks | parks/parks_processor.py:45-66 | succeeds iff element_type and the three columns exist, a missing geometry raising right after element_type; the areal rows in order reduced to id, name and geometry |
| Parks.CleanParksMembership | parks/parks_processor.py:58-65 | every areal input row appears in the output as its park |
| Parks.OfflineParksKeepPolygons | parks/parks_processor.py:83-104 | a local file loses only its non-polygon rows |
| Frames.MapColumn | weather/weather_processor.py:152 | a conversion of one column succeeds iff every cell converts; no other column changes |
| Frames.StrMapColumn | weather/weather_processor.py:150 | `.str` on a non-text column raises; on a text column it is the cell-wise conversion |
| Frames.AddColumn | weather/weather_processor.py:97 | assigning an absent column appends it on the right, all missing |
| Frames.SelectRows | weather/weather_processor.py:149 | selecting rows keeps the columns and takes each cell from its source row |
| Frames.FirstAbsent | weather/weather_processor.py:131-132 | finds a name that is not a column iff there is one |
| Frames.ProjectColumns | weather/weather_processor.py:131-132 | after projection a name is a column iff it was and was not dropped; the cells are kept |
| Frames.DropColumns | weather/weather_processor.py:131-132 | `drop(columns=...)` succeeds iff every name exists; then exactly those go and the rest keep their cells |
| Weather.StabilityClass | weather/weather_processor.py:89-116 | the class is in {1,2,3,5,6} and >= 5 iff night; day: 1 below 2, 3 from 5; night: 5 below 3 |
| Weather.StabilityMonotone | weather/weather_processor.py:95-116 | more wind never gives a lower class (never a less stable hour) within day or night |
| Weather.NightMoreStable | weather/weather_processor.py:95-116 | at the same speed the night class is at least two above the day class |
| Weather.ParseClockText | weather/weather_processor.py:164-165 | a time written `HH:MM` parses back to itself |
| Weather.NightClock | weather/weather_processor.py:91-92 | a time's text is a night hour iff it is a full hour from 21:00 to 06:00 |
| Weather.ClockTextInjective | weather/weather_processor.py:164-165 | different times are written differently |
| Weather.StrReplaceCell | weather/weather_processor.py:60 | `.str.replace` rewrites text and turns non-text cells into NaN |
| Weather.FloatCell | weather/weather_processor.py:61 | `astype(float)` reads text iff it is a decimal; numbers and NaN pass |
| Weather.DecimalCell | weather/weather_processor.py:60-61 | the comma conversion of a cell gives a number or NaN |
| Weather.DecimalCommaReading | weather/weather_processor.py:60-61 | `w,f` is read as the decimal w.f |
| Weather.IntCell | weather/weather_processor.py:152 | `astype(int)` reads whole-number text, truncates floats and fails on NaN |
| Weather.HourCell | weather/weather_processor.py:151 | text gets ":00" appended, an integer is written out first, NaN becomes "nan:00", a float or time raises |
| Weather.StampCell | weather/weather_processor.py:155-156 | a text time parses iff it is `H:MM` in range |
| Weather.ClockCell | weather/weather_processor.py:164-165 | the hour cell comes out as `HH:MM` text of a valid time, or missing |
| Weather.ConvertNamed | weather/weather_processor.py:58-61 | a listed column is converted cell by cell (and needs text); others are returned as they are |
| Weather.ChangeCommaToDot | weather/weather_processor.py:47-62 | succeeds iff every listed column present is readable; those become numbers/NaN, every other column is unchanged |
| Weather.ConvertedOk | weather/weather_processor.py:57-61 | the column-wise conversion succeeds iff every listed column present is readable |
| Weather.ConvertedData | weather/weather_processor.py:57-61 | each converted column is the conversion of the named column, or the column itself |
| Weather.RenameColumns | weather/weather_processor.py:75 | only FECHA and HORA are renamed, to fecha and hora; no cell changes |
| Weather.RenameColumnsIdempotent | weather/weather_processor.py:75 | renaming twice is renaming once |
| Weather.RenameKeepsColumn | weather/weather_processor.py:75 | a column the renaming does not touch keeps its cells |
| Weather.CompleteRows | weather/weather_processor.py:149 | the kept positions are increasing and exactly the rows without NaN |
| Weather.DropNa | weather/weather_processor.py:149 | `dropna` keeps the columns, and the height is the number of complete rows |
| Weather.DropNaCells | weather/weather_processor.py:149 | the kept cells are those of the complete rows, none missing |
| Weather.DateWithDots | weather/weather_processor.py:150 | fecha has every '/' made '.', no '/' remains, and other columns are unchanged |
| Weather.HourWithMinutes | weather/weather_processor.py:151 | hora gets ":00" cell by cell; other columns are unchanged |
| Weather.DirectionToInt | weather/weather_processor.py:152 | Direc. becomes whole numbers; other columns are unchanged |
| Weather.HourToStamp | weather/weather_processor.py:155-156 | hora becomes times or NaT, no text left; other columns are unchanged |
| Weather.HourToText | weather/weather_processor.py:164-165 | hora becomes `HH:MM` text; other columns are unchanged |
| Weather.StabilityToInt | weather/weather_processor.py:159-160 | the class column becomes integers; fails iff it is absent or some class (NaN among them) does not convert |
| Weather.ClassCell | weather/weather_processor.py:95-116 | one row's class cell: the class of its hour and numeric speed, unchanged for a NaN speed, an error for a text speed |
| Weather.CreateStabilityClass | weather/weather_processor.py:79-118 | each row with a numeric speed gets the class of its hour and speed, a NaN speed keeps the old class; other columns are unchanged; a non-empty frame fails iff hora or Veloc. is absent or a speed is text |
| Weather.CreateMetFile | weather/weather_processor.py:121-133 | exactly the six listed columns are dropped; fails iff one is absent |
| Weather.CleanWeather | weather/weather_processor.py:146-149 | after cleaning, every wind speed is a number |
| Weather.CleanedSpeeds | weather/weather_processor.py:146-149 | a speed column of numbers and NaN holds only numbers after renaming and dropna |
| Weather.TypeColumns | weather/weather_processor.py:150-156 | the typing keeps columns and height; hora holds times; only fecha, hora and Direc. change |
| Weather.PrepareWeather | weather/weather_processor.py:145-156 | the frame reaching the classes has hora as times and numeric speeds |
| Weather.ClassifyRows | weather/weather_processor.py:158-160 | each numeric-speed row has the integer class of its hour and speed; other columns are kept |
| Weather.MetKeepsClassInputs | weather/weather_processor.py:131-132 | the met file keeps hora, Veloc. and stability_class |
| Weather.FinishAsWritten | weather/weather_processor.py:158-167 | the last steps, in the code's order, give a well-formed frame |
| Weather.ProcessWeatherData | weather/weather_processor.py:135-169 | both returned frames are the same, without the six dropped columns |
| Weather.StampedRowsAreDay | weather/weather_processor.py:95 | classes computed on parsed times are all day classes 1 to 3 |
| Weather.FinishAsWrittenIsDay | weather/weather_processor.py:155-167 | in the code's order every row gets the day class of its speed |
| Weather.ProcessWeatherNeverNight | weather/weather_processor.py:135-169 | as written every output row has a day class 1 to 3 for its speed, whatever its hour |
| Weather.FinishIntended | weather/weather_processor.py:158-167 | the last steps, hours written back before classing, give a well-formed frame |
| Weather.ProcessWeatherDataIntended | weather/weather_processor.py:135-169 | the corrected pipeline returns the same frame twice, without the six dropped columns |
| Weather.FinishIntendedClasses | weather/weather_processor.py:91-116 | in the corrected order each row is classed by its own hour text and speed |
| Weather.ProcessWeatherIntendedClasses | weather/weather_processor.py:91-116 | the corrected pipeline classes each output row by its hour and speed |
| Weather.ProcessWeatherIntendedNight | weather/weather_processor.py:91-116 | corrected: a row gets class 5 or 6 iff its hour is a full hour from 21:00 to 06:00 |
| Results.HeaderField | display_results/results_processor.py:48-53 | field k is the second blank-separated word of line k, raising iff the line or word is missing |
| Results.ReadInt | display_results/results_processor.py:48-49 | `int` of a field, failing iff the field is missing or not an integer |
| Results.ReadReal | display_results/results_processor.py:50-53 | `float` of a field, failing iff the field is missing or not a decimal |
| Results.HeaderOf | display_results/results_processor.py:48-55 | the header succeeds iff all six fields read; its values are those fields |
| Results.ExtractHeader | display_results/results_processor.py:48-55 | a header can be read only from at least six lines |
| Results.HeaderLines | display_results/results_processor.py:48-53 | a written header has six lines |
| Results.HeaderLineValue | display_results/results_processor.py:48-53 | the second word of a written header line reads back as its value |
| Results.WrittenField | display_results/results_processor.py:48-53 | a written field reads back as both int and float |
| Results.HeaderRoundTrip | display_results/results_processor.py:48-55 | a written header reads back as the header, whatever the data rows |
| Results.HeaderIgnoresData | display_results/results_processor.py:48-55 | lines after the sixth do not change the header |
| Results.DataLines | display_results/results_processor.py:68 | data rows are the lines from the seventh on |
| Results.ParseCell | display_results/results_processor.py:68 | a cell reads iff it is a decimal |
| Results.ParseRow | display_results/results_processor.py:68 | a row parses iff every word is a decimal, giving one value per word |
| Results.ParseWords | display_results/results_processor.py:68 | a word list converts iff every word is a decimal |
| Results.Blank | display_results/results_processor.py:70 | a cell is missing iff it equals nodata, else it is kept |
| Results.ParseRows | display_results/results_processor.py:68 | all data rows parse iff each one does, row by row |
| Results.BlankCells | display_results/results_processor.py:70 | every cell is blanked against nodata, shape kept |
| Results.ExtractData | display_results/results_processor.py:68-71 | succeeds iff the rows parse and are rectangular; each cell is its token's value, or missing iff it equals nodata |
| Results.GridLineRoundTrip | display_results/results_processor.py:68 | a written integer row parses back to its values |
| Results.DataRoundTrip | display_results/results_processor.py:68-71 | written integer rows read back as the grid with nodata blanked |
| Results.CellPoint | display_results/results_processor.py:96-97 | cell (i, j) is at (xll + j·cs, yll + i·cs) |
| Results.RowPoints | display_results/results_processor.py:95-103 | a row gives at most one point per visited cell |
| Results.Gather | display_results/results_processor.py:90-108 | succeeds iff every visited cell exists (else IndexError); gives the present cells row by row |
| Results.RowPointsAreCells | display_results/results_processor.py:95-103 | a point is in a row's list iff it is a present visited cell of that row |
| Results.GridPointsAreCells | display_results/results_processor.py:94-103 | a point is gathered iff it is a present cell within nrows × ncols |
| Results.FullRowOrder | display_results/results_processor.py:95-103 | a full row gives exactly one point per cell, in order |
| Results.GridPrefix | display_results/results_processor.py:94-103 | the points of the first rows come first |
| Results.FullGridLength | display_results/results_processor.py:94-103 | a full grid gives nrows × ncols points |
| Results.FullGridOrder | display_results/results_processor.py:94-103 | in a full grid, cell (i, j) is point i·ncols + j |
| Results.PollutantFromPath | display_results/results_processor.py:175 | the pollutant is the fourth '_' field; IndexError iff fewer than three '_' |
| Results.PollutantOfResultName | display_results/results_processor.py:174-175 | a renamed result file gives back its pollutant |
| Results.DropZeros | display_results/results_processor.py:185 | a point is kept iff its value is not 0; nothing else is added |
| Results.GatherPoints | display_results/results_processor.py:90-108 | succeeds iff every visited cell exists in the grid |
| Results.ProcessResults | display_results/results_processor.py:160-185 | the pollutant is that of the path and the header was read |
| Results.ExtractedCell | display_results/results_processor.py:68-70 | a present cell comes from a decimal token of its line and is not nodata |
| Results.GatheredFromLines | display_results/results_processor.py:94-103 | a gathered point is a present visited cell at its coordinates |
| Results.ProcessResultsPoints | display_results/results_processor.py:174-185 | every output point is non-zero and is a visited cell whose token parses to its value, is not nodata, and sits at its coordinates |

## Left out

- File and network I/O are not modelled. This covers `open`/`write` of fixed text blocks,
  `read_csv`, `read_file`, `read_xml`, `to_csv` and the osmnx downloads. Each writer is
  modelled by the records it prints, and each reader by the lines it receives.
- The GRAL files with only fixed or trivial content are not modelled: in.dat,
  pollutant.txt, Percent.txt, Max_Proc.txt, DispNr.txt and the optional files.
  `get_number_of_weather_conditions` only counts the file's lines.
- `create_buildings_file` and `create_vegetation_file` are not modelled. They rely on
  geometry internals (centroids, exterior coordinates).
- `check_horizontal_layers` is not modelled. It runs `eval` on arbitrary strings.
- Coordinate reprojection with pyproj (`convert_coordinates`), plotting (`graph_results`),
  the GRAL subprocess and the command-line orchestration are foreign code or I/O.
- Coordinate rounding and the groupby mean in `process_results` (display_results/results_processor.py:188-193)
  are left out. They are float output formatting.
- The explode of multipolygons on the offline building and park paths is left out. It is
  geometry internals.
- `combine_sumo_emissions_and_highway_data` is left out. Its outer merge and groupby are
  pandas joins; only the cleaning step after it is modelled.
- The offline branch of `process_sumo_edges_emissions_file` is left out beyond `AddEdgeLength`.
  So is the reading of the SUMO XML.
- Sampling.Draw: the probability distribution of `np.random.choice` is not modelled. A draw
  is some element of the pool, chosen by an oracle.
- Highways.SumoLanes: `getEdgesByOrigID` returns a set. It is modelled as a sequence in
  iteration order, and that order decides which edge is last.
- Highways.AggregateEmissions: the result is a map, so the sorted row order of `groupby` is
  not modelled.
- Weather.TypeColumns: `sort_values(by=['fecha', 'hora'])` is not modelled, so rows stay in
  file order. The date parsing of `to_datetime(fecha)` and its `strftime` round trip are
  also not modelled, so the dates stay as text.
- Weather.HourCell: a float hour is an error here. The source fails one step later, at
  `to_datetime`.
- Frames.MapColumn: pandas allows repeated column names. The model requires the selected
  column to be unique and reports the repeated case as an error.
- Text.ParseDecimal: `float` accepts more spellings than are modelled, such as exponents,
  `nan`, `inf` and digit underscores. Text using them is treated as unreadable.
- Text.ParseInt: Python's `int` also accepts digit underscores (`1_000`) and non-ASCII
  Unicode digits. The model accepts only ASCII digits with an optional sign, between blanks,
  so lane tags, met fields and header integers written that way are a ValueError here.
- Gral.MetTimeSeries: the column type guessing of `read_csv` is not modelled. Every field is
  kept as text, so a time column read as integers (a file whose times have no colon), on
  which `.split` raises AttributeError, is read here as hours. GralGenerator.MetTimeSeries
  shares this gap.
- Results.HeaderRoundTrip: only integer-valued headers are written and read back.
- Results.PollutantOfResultName: requires that neither the directory nor the pollutant
  contains '_'.
- Results.ExtractHeader: its own contract only bounds the line count. The field values are
  stated by Results.HeaderOf, and the round trip by Results.HeaderRoundTrip.
- Results.ProcessResults: the contract names only the pollutant and the header. The points
  are stated by Results.ProcessResultsPoints.
- Buildings.ProcessBuildings: the contract states only the row count. The heights are
  stated by Buildings.ProcessedHeightsAtLeastThree.
- The `round(..., 1)` output formatting of floats is left out. Sectors and speeds are exact
  reals.

## Findings

| source | as written | input that shows it | evidently intended | confidence | as-written member | corrected member |
|---|---|---|---|---|---|---|
| gral/gral_processor.py:181-184 | meteopgt.all reads the wind speed from the fourth met-file field and the direction from the third | met line `01.01.2020,10:00,3,180,1` gives sector 0.5 and speed 180.0, while mettimeseries.dat gives sector 18.0 | speed from the third field and direction from the fourth, as mettimeseries.dat and gral/gral_files_generator.py:169-175 read them | not executed | Gral.PgtAsWrittenDisagrees | Gral.PgtIntendedAgrees |
| gral/gral_processor.py:470-482 | the multi-situation loop runs `i` over `range(1, n)`, and the rename loop sits inside the final `else` (i >= 1000) | `n_meteo_conditions = 2` with one layer renames no file | every situation from 1 to n, each layer, renamed | not executed | Gral.RenameResultsSkipsSituations | Gral.RenamesUpToCovers |
| weather/weather_processor.py:155-158 | `hora` is parsed to a Timestamp before `create_stability_class`, whose `row["hora"] not in night_hours` then never matches a string | a row with HORA `22` and Veloc. `1,0` gets class 1 | class 5: night hours classed as night, by classing while `hora` is `HH:MM` text | not executed | Weather.ProcessWeatherNeverNight | Weather.ProcessWeatherIntendedNight |
