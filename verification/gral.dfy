/** The record transforms behind the GRAL input files written by `gral/gral_processor.py`:
    the GRAL.geb grid, meteopgt.all, mettimeseries.dat, line.dat, the pollutant check and the
    renaming of GRAL's result files. File writing itself is not modelled; each writer is
    represented by the sequence of records it would print. */
module Gral {
  import opened Wrappers
  import opened Numeric
  import opened Text
  import opened Seqs
  import opened Geo

  // ---------------------------------------------------------------------------
  // GRAL.geb

  /** A bounding box in the projected coordinate system. */
  datatype BBox = BBox(north: real, south: real, east: real, west: real)

  /** The numeric content of GRAL.geb. */
  datatype GrebGrid = GrebGrid(
    cellSize: nat, cellsX: nat, cellsY: nat, slices: int,
    west: int, east: int, south: int, north: int)

  lemma CellsBelow(d: nat, size: nat, t: int)
    requires size > 0 && t as real <= d as real / size as real
    ensures size * t <= d
  {
    var s := size as real;
    DivMul(d as real, s);
    MulMono(t as real, d as real / s, s);
    assert (size * t) as real == t as real * s;
  }

  lemma CellsAbove(d: nat, size: nat, m: int)
    requires size > 0 && d as real / size as real < m as real
    ensures d < size * m
  {
    var s := size as real;
    DivMul(d as real, s);
    MulStrict(d as real / s, m as real, s);
    assert (size * m) as real == m as real * s;
  }

  lemma WholeCells(d: nat, size: nat, t: int)
    requires size > 0
    requires t as real <= d as real / size as real < t as real + 1.0
    ensures size * t <= d < size * (t + 1)
  {
    CellsBelow(d, size, t);
    CellsAbove(d, size, t + 1);
  }

  /** `int(abs(a - b) / size)`: how many whole cells of width `size` fit between two borders. */
  function CellCount(a: int, b: int, size: nat): (n: nat)
    requires size > 0
    ensures size * n <= Abs(a - b) < size * (n + 1)
  {
    var t := Trunc(Abs(a - b) as real / size as real);
    WholeCells(Abs(a - b), size, t);
    t
  }

  /** GRAL.geb for square cells of width `size`: the borders are the box truncated to whole
      metres, and the counts are the whole cells between them. */
  function GrebFor(bbox: BBox, slices: int, size: nat): (g: GrebGrid)
    requires size > 0
    ensures g.cellSize == size && g.slices == slices
    ensures g.west == Trunc(bbox.west) && g.east == Trunc(bbox.east)
    ensures g.south == Trunc(bbox.south) && g.north == Trunc(bbox.north)
    ensures size * g.cellsX <= Abs(g.east - g.west) < size * (g.cellsX + 1)
    ensures size * g.cellsY <= Abs(g.north - g.south) < size * (g.cellsY + 1)
  {
    var e := Trunc(bbox.east);
    var w := Trunc(bbox.west);
    var n := Trunc(bbox.north);
    var s := Trunc(bbox.south);
    GrebGrid(size, CellCount(e, w, size), CellCount(n, s, size), slices, w, e, s, n)
  }

  /** `create_greb_file`: 5 m cells. */
  function CreateGreb(bbox: BBox, horizontalSlices: int): (g: GrebGrid)
    ensures g.cellSize == 5 && g.slices == horizontalSlices
    ensures g.west == Trunc(bbox.west) && g.east == Trunc(bbox.east)
    ensures g.south == Trunc(bbox.south) && g.north == Trunc(bbox.north)
    ensures 5 * g.cellsX <= Abs(g.east - g.west) < 5 * (g.cellsX + 1)
    ensures 5 * g.cellsY <= Abs(g.north - g.south) < 5 * (g.cellsY + 1)
  {
    GrebFor(bbox, horizontalSlices, 5)
  }

  // ---------------------------------------------------------------------------
  // Wind-direction sectors

  /** `round(direction / 10 * 2) / 2`: the direction in tens of degrees, to the nearest half. */
  function Sector(direction: real): (s: real)
    ensures IsHalfStep(s)
    ensures -0.25 <= s - direction / 10.0 <= 0.25
  {
    var x := direction / 10.0 * 2.0;
    var r := RoundHalfEven(x);
    assert 2.0 * (r as real / 2.0) == r as real;
    assert r as real / 2.0 - direction / 10.0 == (r as real - x) / 2.0;
    r as real / 2.0
  }

  /** A whole-degree direction never lands on a rounding tie, so its sector is the unique
      half-step nearest to a tenth of it. */
  lemma SectorOfWholeDegrees(d: int)
    ensures -0.25 < Sector(d as real) - d as real / 10.0 < 0.25
  {
    var x := d as real / 10.0 * 2.0;
    var r := RoundHalfEven(x);
    var k := d - 5 * r;
    assert (x - r as real) * 5.0 == k as real;
  }

  // ---------------------------------------------------------------------------
  // meteopgt.all

  /** One line of meteopgt.all: sector, speed, stability class and a frequency of 1000. */
  datatype PgtEntry = PgtEntry(sector: real, speed: real, stability: int, frequency: nat)

  const PgtFrequency: nat := 1000

  /** Whether a met-file line is read without error for meteopgt.all when, counting the date
      and time, field `speedField` holds the speed and field `dirField` the direction. */
  predicate PgtReadable(line: string, speedField: nat, dirField: nat) {
    PgtFieldsReadable(Split(Strip(line), ','), speedField, dirField)
  }

  /** Fields `speedField`, `dirField` and 4 of a met-file line parse as numbers. */
  predicate PgtFieldsReadable(f: seq<string>, speedField: nat, dirField: nat) {
    |f| > speedField && ParseDecimal(f[speedField]).Some?
    && |f| > dirField && ParseInt(f[dirField]).Some?
    && |f| > 4 && ParseInt(f[4]).Some?
  }

  /** What an entry read from readable met-file fields holds: the speed is a whole number of
      tenths within 0.05 of field `speedField`, the sector the half step within 0.25 of a tenth
      of field `dirField`, the class is the fifth field and the frequency is 1000. */
  predicate ReadsPgtFields(f: seq<string>, speedField: nat, dirField: nat, e: PgtEntry)
    requires PgtFieldsReadable(f, speedField, dirField)
  {
    && e.frequency == PgtFrequency && IsHalfStep(e.sector)
    && (10.0 * e.speed).Floor as real == 10.0 * e.speed
    && -0.05 <= e.speed - ParseDecimal(f[speedField]).value <= 0.05
    && -0.25 < e.sector - ParseInt(f[dirField]).value as real / 10.0 < 0.25
    && e.stability == ParseInt(f[4]).value
  }

  /** The same, for the fields of a stripped line. */
  predicate ReadsPgt(line: string, speedField: nat, dirField: nat, e: PgtEntry)
    requires PgtReadable(line, speedField, dirField)
  {
    ReadsPgtFields(Split(Strip(line), ','), speedField, dirField, e)
  }

  /** Reads one met-file line for meteopgt.all: strip, split on commas, drop date and time,
      then read the speed with `float` rounded to a tenth, the direction with `int`, the class
      with `int`. */
  function PgtEntryFrom(line: string, speedField: nat, dirField: nat): (r: Result<PgtEntry>)
    requires 2 <= speedField <= 4 && 2 <= dirField <= 4
    ensures r.Ok? <==> PgtReadable(line, speedField, dirField)
    ensures r.Ok? ==> ReadsPgt(line, speedField, dirField, r.value)
  {
    var f := Split(Strip(line), ',');
    if |f| < 2 then Err(IndexError("pop from empty list"))
    else if |f| <= speedField then Err(IndexError("list index out of range"))
    else if ParseDecimal(f[speedField]).None? then Err(ValueError(f[speedField]))
    else if |f| <= dirField then Err(IndexError("list index out of range"))
    else if ParseInt(f[dirField]).None? then Err(ValueError(f[dirField]))
    else if |f| <= 4 then Err(IndexError("list index out of range"))
    else if ParseInt(f[4]).None? then Err(ValueError(f[4]))
    else
      Ok(PgtEntryOfFields(f, speedField, dirField))
  }

  /** The numbers an entry holds for a whole-degree direction `d` and a speed. */
  lemma PgtNumbers(d: int, speed: real)
    ensures IsHalfStep(Sector(d as real)) && -0.25 < Sector(d as real) - d as real / 10.0 < 0.25
    ensures (10.0 * RoundTenths(speed)).Floor as real == 10.0 * RoundTenths(speed)
    ensures -0.05 <= RoundTenths(speed) - speed <= 0.05
  {
    SectorOfWholeDegrees(d);
  }

  /** The entry of a readable line's fields. */
  function PgtEntryOfFields(f: seq<string>, speedField: nat, dirField: nat): (e: PgtEntry)
    requires PgtFieldsReadable(f, speedField, dirField)
    ensures ReadsPgtFields(f, speedField, dirField, e)
  {
    var d := ParseInt(f[dirField]).value;
    var speed := ParseDecimal(f[speedField]).value;
    PgtNumbers(d, speed);
    PgtEntry(Sector(d as real), RoundTenths(speed), ParseInt(f[4]).value, PgtFrequency)
  }

  /** `create_meteopgt_file` as written: the third field is read as the direction and the
      fourth as the speed. */
  function PgtEntryAsWritten(line: string): (r: Result<PgtEntry>)
    ensures r.Ok? <==> PgtReadable(line, 3, 2)
    ensures r.Ok? ==> ReadsPgt(line, 3, 2, r.value)
  {
    PgtEntryFrom(line, 3, 2)
  }

  /** The meteopgt reader with the field order every other reader of the met file uses: the
      third field is the speed, the fourth the direction. */
  function PgtEntryIntended(line: string): (r: Result<PgtEntry>)
    ensures r.Ok? <==> PgtReadable(line, 2, 3)
    ensures r.Ok? ==> ReadsPgt(line, 2, 3, r.value)
  {
    PgtEntryFrom(line, 2, 3)
  }

  /** meteopgt.all as written: one entry per met-file line, each with frequency 1000; a line
      that cannot be read aborts the file. */
  function Meteopgt(lines: seq<string>): (r: Result<seq<PgtEntry>>)
    ensures r.Ok? <==> forall i :: 0 <= i < |lines| ==> PgtReadable(lines[i], 3, 2)
    ensures r.Ok? ==> |r.value| == |lines|
    ensures r.Ok? ==> forall i :: 0 <= i < |r.value| ==>
      r.value[i] == PgtEntryAsWritten(lines[i]).value
      && r.value[i].frequency == PgtFrequency && IsHalfStep(r.value[i].sector)
  {
    MapAll(lines, PgtEntryAsWritten)
  }

  // ---------------------------------------------------------------------------
  // mettimeseries.dat

  /** One line of mettimeseries.dat: day.month, hour, whole speed, sector, stability class. */
  datatype MetTimeEntry = MetTimeEntry(date: string, hour: int, speed: int, sector: real, stability: int)

  /** Whether a met-file row is converted without error: five fields, numeric speed, direction
      and class, a dotted day and an integer hour before the colon. */
  predicate MetTimeReadable(line: string) {
    var f := Split(line, ',');
    && |f| == 5
    && ParseDecimal(f[2]).Some? && ParseDecimal(f[3]).Some? && ParseDecimal(f[4]).Some?
    && |Split(f[0], '.')| >= 2
    && ParseInt(Split(f[1], ':')[0]).Some?
  }

  /** One row of `create_met_time_series_data_file`, the columns being day, time, wind speed,
      wind direction and stability class. The sector is rounded to a tenth once more, which
      leaves a half step unchanged. */
  function MetTimeEntryOfLine(line: string): (r: Result<MetTimeEntry>)
    ensures r.Ok? <==> MetTimeReadable(line)
    ensures r.Ok? ==>
      var f := Split(line, ',');
      var day := Split(f[0], '.');
      && r.value.date == day[0] + "." + day[1]
      && r.value.hour == ParseInt(Split(f[1], ':')[0]).value
      && r.value.speed == Trunc(ParseDecimal(f[2]).value)
      && r.value.sector == Sector(ParseDecimal(f[3]).value)
      && -0.25 <= r.value.sector - ParseDecimal(f[3]).value / 10.0 <= 0.25
      && r.value.stability == Trunc(ParseDecimal(f[4]).value)
  {
    var f := Split(line, ',');
    if |f| != 5 then Err(ValueError("Length mismatch: expected 5 columns"))
    else if ParseDecimal(f[2]).None? then Err(ValueError(f[2]))
    else if ParseDecimal(f[3]).None? then Err(ValueError(f[3]))
    else if ParseDecimal(f[4]).None? then Err(ValueError(f[4]))
    else
      var day := Split(f[0], '.');
      if |day| < 2 then Err(IndexError("list index out of range"))
      else
        var hour := ParseInt(Split(f[1], ':')[0]);
        if hour.None? then Err(ValueError(f[1]))
        else
          var sector := Sector(ParseDecimal(f[3]).value);
          RoundTenthsOfHalfStep(sector);
          Ok(MetTimeEntry(day[0] + "." + day[1], hour.value,
            Trunc(ParseDecimal(f[2]).value), RoundTenths(sector),
            Trunc(ParseDecimal(f[4]).value)))
  }

  /** A met-file line `read_csv` turns into a row: a line that is empty or holds only spaces
      and tabs is blank and skipped. */
  predicate NonBlank(line: string) {
    exists k :: 0 <= k < |line| && line[k] != ' ' && line[k] != '\t'
  }

  /** The met-file rows, in file order. */
  function MetRows(lines: seq<string>): seq<string> {
    Filter(lines, NonBlank)
  }

  /** mettimeseries.dat: one entry per met-file row, in order; a row that does not convert
      aborts the whole file. */
  function MetTimeSeries(lines: seq<string>): (r: Result<seq<MetTimeEntry>>)
    ensures r.Ok? <==> forall i :: 0 <= i < |MetRows(lines)| ==> MetTimeReadable(MetRows(lines)[i])
    ensures r.Ok? ==> |r.value| == |MetRows(lines)|
    ensures r.Ok? ==> forall i :: 0 <= i < |r.value| ==>
      r.value[i] == MetTimeEntryOfLine(MetRows(lines)[i]).value && IsHalfStep(r.value[i].sector)
  {
    MapAll(MetRows(lines), MetTimeEntryOfLine)
  }

  /** A file without blank lines is read row for row. */
  lemma MetRowsOfFullLines(lines: seq<string>)
    requires forall i :: 0 <= i < |lines| ==> NonBlank(lines[i])
    ensures MetRows(lines) == lines
  {
    FilterKeepsAll(lines, NonBlank);
  }

  /** The field-order discrepancy: on a line both readers accept, meteopgt.all as written takes
      its sector from the third field while mettimeseries.dat takes it from the fourth, so the
      two files disagree whenever those fields are five or more degrees apart. */
  lemma PgtAsWrittenDisagrees(line: string)
    requires Strip(line) == line
    requires PgtReadable(line, 3, 2) && MetTimeReadable(line)
    requires var f := Split(line, ',');
      ParseInt(f[2]).value as real - ParseDecimal(f[3]).value >= 5.0
      || ParseDecimal(f[3]).value - ParseInt(f[2]).value as real >= 5.0
    ensures PgtEntryAsWritten(line).value.sector != MetTimeEntryOfLine(line).value.sector
  {
  }

  /** With the intended field order the two files agree on the sector and the stability class
      of every line both accept. */
  lemma PgtIntendedAgrees(line: string)
    requires Strip(line) == line
    requires PgtReadable(line, 2, 3) && MetTimeReadable(line)
    ensures PgtEntryIntended(line).value.sector == MetTimeEntryOfLine(line).value.sector
    ensures PgtEntryIntended(line).value.stability == MetTimeEntryOfLine(line).value.stability
  {
    var f := Split(line, ',');
    ParseIntThenDecimal(f[3]);
    ParseIntThenDecimal(f[4]);
    var d := ParseInt(f[3]).value;
    SectorOfWholeDegrees(d);
    assert Trunc(ParseInt(f[4]).value as real) == ParseInt(f[4]).value;
  }

  /** A `dd.mm.yyyy` day splits on its dots into day, month and year. */
  lemma SplitDay(dd: string, mm: string, yyyy: string)
    requires '.' !in dd && '.' !in mm && '.' !in yyyy
    ensures Split(dd + "." + mm + "." + yyyy, '.') == [dd, mm, yyyy]
  {
    var ds := [dd, mm, yyyy];
    assert Join(ds[2..], '.') == yyyy;
    assert Join(ds[1..], '.') == mm + "." + yyyy;
    assert Join(ds, '.') == dd + "." + mm + "." + yyyy;
    SplitJoin(ds, '.');
  }

  /** For a `dd.mm.yyyy` day the date written is the day with its year removed. */
  lemma DateDropsYear(line: string, dd: string, mm: string, yyyy: string)
    requires '.' !in dd && '.' !in mm && '.' !in yyyy
    requires MetTimeReadable(line) && Split(line, ',')[0] == dd + "." + mm + "." + yyyy
    ensures MetTimeEntryOfLine(line).value.date == dd + "." + mm
    ensures MetTimeEntryOfLine(line).value.date + "." + yyyy == Split(line, ',')[0]
  {
    SplitDay(dd, mm, yyyy);
  }

  // ---------------------------------------------------------------------------
  // Pollutant check and emission rate

  const ValidPollutants: seq<string> := ["NOx", "PM10", "PM2.5", "CO"]

  /** `check_pollutant`: the name itself when GRAL knows the pollutant, an exception otherwise. */
  function CheckPollutant(pollutant: string): (r: Result<string>)
    ensures r.Ok? <==> pollutant in ValidPollutants
    ensures r.Ok? ==> r.value == pollutant
    ensures r.Err? ==> r.fault == InvalidPollutant(pollutant)
  {
    if pollutant !in ValidPollutants then Err(InvalidPollutant(pollutant)) else Ok(pollutant)
  }

  /** `calculate_emission_rate`: milligrams emitted on an edge during `simTime` seconds, as
      kilograms per hour and kilometre. `errorPollutant` is accepted and not used. */
  function EmissionRate(errorPollutant: real, mg: real, edgeLength: real, simTime: real): (r: Result<real>)
    ensures r.Err? <==> edgeLength == 0.0 || simTime == 0.0
    ensures r.Ok? ==> r.value * ((simTime / 3600.0) * (edgeLength / 1000.0)) == mg / 1000000.0
  {
    var kg := mg / 1000000.0;
    var km := edgeLength / 1000.0;
    var hours := simTime / 3600.0;
    if hours * km == 0.0 then Err(ZeroDivisionError) else Ok(kg / (hours * km))
  }

  /** Over the default one-hour simulation the rate is milligrams per metre over 1000, whatever
      the error argument. */
  lemma EmissionRateOneHour(errorPollutant: real, mg: real, edgeLength: real)
    requires edgeLength != 0.0
    ensures EmissionRate(errorPollutant, mg, edgeLength, 3600.0) == Ok(mg / (1000.0 * edgeLength))
  {
    var km := edgeLength / 1000.0;
    assert 3600.0 / 3600.0 * km == km;
    assert (mg / 1000000.0) / km == mg / (1000.0 * edgeLength);
  }

  // ---------------------------------------------------------------------------
  // line.dat

  /** A shapefile attribute value. */
  datatype Attr = Num(x: real) | Str(s: string) | Null

  /** One feature of the highways shapefile: its attribute row and its geometry. */
  datatype LineFeature = LineFeature(attrs: map<string, Attr>, geometry: Geometry)

  /** The highways shapefile: its column names and its features. */
  datatype LineTable = LineTable(columns: set<string>, rows: seq<LineFeature>)

  /** The per-pollutant constants of `create_line_emissions_file`. */
  datatype LineParams = LineParams(
    valueLabel: string, idColumn: string, mode: int,
    depositionPm10: real, depositionPm25: real, sharePm10: real, sharePm25: real,
    cityHeight: real, meanError: real)

  /** One line of line.dat. */
  datatype LineSource = LineSource(
    id: Attr, bounds: Bounds, width: Attr, cityHeight: real, rate: Option<real>,
    sharePm25: real, sharePm10: real, depositionPm25: real, depositionPm10: real, mode: int)

  /** The constants for `pollutant`: PM10 is read from the PMx column and written with particle
      shares, deposition velocities and mode 2; the gases keep mode 0 and zero shares. The id
      column is `osm_id` online and `edge_id` offline. */
  function LineParamsFor(pollutant: string, isOnline: bool): (p: LineParams)
    ensures p.idColumn == (if isOnline then "osm_id" else "edge_id")
    ensures p.mode != 0 <==> pollutant == "PM10"
    ensures pollutant == "PM10" ==>
      && p.valueLabel == "PMx" && p.mode == 2 && p.sharePm10 == 100.0 && p.sharePm25 == 60.0
      && p.depositionPm10 == 0.032 && p.depositionPm25 == 0.0032
    ensures pollutant != "PM10" ==>
      && p.valueLabel == pollutant && p.sharePm10 == 0.0 && p.sharePm25 == 0.0
      && p.depositionPm10 == 0.0 && p.depositionPm25 == 0.0
    ensures p.cityHeight == 0.0 && p.meanError == 1.0
  {
    var id := if isOnline then "osm_id" else "edge_id";
    if pollutant == "PM10" then LineParams("PMx", id, 2, 0.032, 0.0032, 100.0, 60.0, 0.0, 1.0)
    else LineParams(pollutant, id, 0, 0.0, 0.0, 0.0, 0.0, 0.0, 1.0)
  }

  /** `row[column]`, a cell the row does not hold being missing. */
  function Cell(f: LineFeature, column: string): Attr {
    if column in f.attrs then f.attrs[column] else Null
  }

  /** `float(value)`: numbers pass, a missing value is NaN, text is parsed. */
  function AsFloat(a: Attr): Result<Option<real>> {
    match a
    case Num(x) => Ok(Some(x))
    case Null => Ok(None)
    case Str(s) => if ParseDecimal(s).Some? then Ok(Some(ParseDecimal(s).value)) else Err(ValueError(s))
  }

  /** A row survives `dropna` and the `>= 0` mask: its value is present and not negative. */
  predicate KeptLine(f: LineFeature, column: string) {
    Cell(f, column).Num? && Cell(f, column).x >= 0.0
  }

  /** The rows of line.dat: `dropna` on the pollutant column followed by `>= 0`, so a zero
      emission is kept. A missing column raises `KeyError`; text in it cannot be compared with
      zero and raises `TypeError`. */
  function SelectLines(table: LineTable, column: string): (r: Result<seq<LineFeature>>)
    ensures r.Err? <==> column !in table.columns || exists i :: 0 <= i < |table.rows| && Cell(table.rows[i], column).Str?
    ensures r.Ok? ==> forall i :: 0 <= i < |r.value| ==> KeptLine(r.value[i], column)
    ensures r.Ok? ==> forall i :: 0 <= i < |table.rows| ==> (table.rows[i] in r.value <==> KeptLine(table.rows[i], column))
    ensures r.Ok? ==> r.value == Filter(table.rows, f => KeptLine(f, column))
  {
    if column !in table.columns then Err(KeyError(column))
    else if exists i :: 0 <= i < |table.rows| && Cell(table.rows[i], column).Str? then
      Err(TypeError("'>=' not supported between instances of 'str' and 'int'"))
    else Ok(Filter(table.rows, f => KeptLine(f, column)))
  }

  /** `float(row["length"])` of a feature. */
  function LengthOf(f: LineFeature): Result<Option<real>> {
    AsFloat(Cell(f, "length"))
  }

  /** One row of line.dat from a kept feature. It fails on a missing id, width or length
      column, on a length that is not a number, and on a zero length (division by zero). The
      rate is in kg/(km·h) over one hour; a missing length gives NaN. */
  function LineSourceOf(table: LineTable, f: LineFeature, p: LineParams, column: string): (r: Result<LineSource>)
    requires KeptLine(f, column)
    ensures r.Ok? <==>
      && p.idColumn in table.columns && "width" in table.columns && "length" in table.columns
      && LengthOf(f).Ok? && LengthOf(f).value != Some(0.0)
    ensures r.Ok? ==> r.value.mode == p.mode && r.value.sharePm10 == p.sharePm10 && r.value.sharePm25 == p.sharePm25
    ensures r.Ok? ==> r.value.depositionPm10 == p.depositionPm10 && r.value.depositionPm25 == p.depositionPm25
    ensures r.Ok? ==> r.value.id == Cell(f, p.idColumn) && r.value.bounds == f.geometry.bounds
    ensures r.Ok? ==> r.value.width == Cell(f, "width") && r.value.cityHeight == p.cityHeight
    ensures r.Ok? ==> (r.value.rate.None? <==> LengthOf(f).value.None?)
    ensures r.Ok? && r.value.rate.Some? ==>
      r.value.rate.value * (LengthOf(f).value.value / 1000.0) == Cell(f, column).x / 1000000.0
  {
    if p.idColumn !in table.columns then Err(KeyError(p.idColumn))
    else if "width" !in table.columns then Err(KeyError("width"))
    else if "length" !in table.columns then Err(KeyError("length"))
    else
      var length :- LengthOf(f);
      var rate :-
        match length
        case None => Ok(None)
        case Some(len) =>
          match EmissionRate(p.meanError, Cell(f, column).x, len, 3600.0)
          case Ok(v) => Ok(Some(v))
          case Err(e) => Err(e);
      Ok(LineSource(Cell(f, p.idColumn), f.geometry.bounds, Cell(f, "width"), p.cityHeight, rate,
        p.sharePm25, p.sharePm10, p.depositionPm25, p.depositionPm10, p.mode))
  }

  /** `create_line_emissions_file`: one line per kept feature, in table order, all carrying the
      pollutant's constants. */
  function CreateLineEmissions(table: LineTable, pollutant: string, isOnline: bool): (r: Result<seq<LineSource>>)
    ensures
      var p := LineParamsFor(pollutant, isOnline);
      var column := p.valueLabel + "_abs";
      r.Ok? <==>
        && SelectLines(table, column).Ok?
        && forall i :: 0 <= i < |SelectLines(table, column).value| ==>
             LineSourceOf(table, SelectLines(table, column).value[i], p, column).Ok?
    ensures r.Ok? ==>
      var p := LineParamsFor(pollutant, isOnline);
      var column := p.valueLabel + "_abs";
      && SelectLines(table, column).Ok?
      && |r.value| == |SelectLines(table, column).value|
      && forall i :: 0 <= i < |r.value| ==>
           r.value[i] == LineSourceOf(table, SelectLines(table, column).value[i], p, column).value
    ensures r.Ok? ==> forall i :: 0 <= i < |r.value| ==>
      r.value[i].mode == (if pollutant == "PM10" then 2 else 0)
  {
    var p := LineParamsFor(pollutant, isOnline);
    var column := p.valueLabel + "_abs";
    var kept :- SelectLines(table, column);
    MapAll(kept, (f: LineFeature) =>
      if KeptLine(f, column) then LineSourceOf(table, f, p, column) else Err(KeyError(column)))
  }

  // ---------------------------------------------------------------------------
  // Renaming GRAL's result files

  /** The five-character weather-situation label GRAL uses: `0000i`, `000i`, `00i` or `0i`. */
  function ConditionLabel(i: nat): string {
    if i < 10 then "0000" + NatToString(i)
    else if i < 100 then "000" + NatToString(i)
    else if i < 1000 then "00" + NatToString(i)
    else "0" + NatToString(i)
  }

  lemma NatToStringLength(i: nat)
    ensures i < 10 ==> |NatToString(i)| == 1
    ensures 10 <= i < 100 ==> |NatToString(i)| == 2
    ensures 100 <= i < 1000 ==> |NatToString(i)| == 3
    ensures 1000 <= i < 10000 ==> |NatToString(i)| == 4
  {
    if i >= 10 {
      NatToStringLength(i / 10);
    }
  }

  /** Labels of situations 1 to 9999 are five digits long and read back as the situation. */
  lemma ConditionLabelRoundTrip(i: nat)
    requires 1 <= i <= 9999
    ensures |ConditionLabel(i)| == 5
    ensures ParseNat(ConditionLabel(i)) == Some(i)
  {
    NatToStringLength(i);
    var s := NatToString(i);
    var s1 := "0" + s;
    LeadingZero(s);
    var s2 := "0" + s1;
    LeadingZero(s1);
    assert s2 == "00" + s;
    var s3 := "0" + s2;
    LeadingZero(s2);
    assert s3 == "000" + s;
    var s4 := "0" + s3;
    LeadingZero(s3);
    assert s4 == "0000" + s;
  }

  /** A pair of file names handed to `os.rename`. */
  datatype Rename = Rename(source: string, target: string)

  /** The file GRAL writes for situation label `label` and horizontal layer number `layer`. */
  function GralResultName(situation: string, layer: nat): string {
    situation + "-" + NatToString(layer) + "01.txt"
  }

  /** The descriptive name a result file is given. */
  function ResultName(condition: nat, pollutant: string, layerText: string): string {
    "results_weather_" + NatToString(condition) + "_" + pollutant + "_" + layerText + "m.txt"
  }

  /** The renames of situation `i`: one per horizontal layer, layers numbered from 1. */
  function ConditionRenames(i: nat, pollutant: string, layers: seq<string>): (r: seq<Rename>)
    ensures |r| == |layers|
    ensures forall j :: 0 <= j < |layers| ==>
      r[j] == Rename(GralResultName(ConditionLabel(i), j + 1), ResultName(i, pollutant, layers[j]))
  {
    seq(|layers|, j requires 0 <= j < |layers| =>
      Rename(GralResultName(ConditionLabel(i), j + 1), ResultName(i, pollutant, layers[j])))
  }

  /** The multi-situation loop as written: situations `lo` to `n - 1`, renaming only those of
      1000 and above, the rename loop sitting inside the last branch of the label choice. */
  function RenamesFromAsWritten(lo: nat, n: nat, pollutant: string, layers: seq<string>): seq<Rename>
    decreases n - lo
  {
    if lo >= n then []
    else
      var here := if lo >= 1000 then ConditionRenames(lo, pollutant, layers) else [];
      here + RenamesFromAsWritten(lo + 1, n, pollutant, layers)
  }

  /** Every rename the as-written loop from `lo` to `n - 1` emits belongs to a layer of a
      situation from 1000 on. */
  lemma {:induction false} RenameFromAsWritten(lo: nat, n: nat, pollutant: string, layers: seq<string>, x: Rename)
    returns (i: nat, j: nat)
    requires x in RenamesFromAsWritten(lo, n, pollutant, layers)
    ensures lo <= i < n && 1000 <= i && j < |layers| && x == ConditionRenames(i, pollutant, layers)[j]
    decreases n - lo
  {
    var here := if lo >= 1000 then ConditionRenames(lo, pollutant, layers) else [];
    if x in here {
      var k :| 0 <= k < |here| && here[k] == x;
      i, j := lo, k;
    } else {
      i, j := RenameFromAsWritten(lo + 1, n, pollutant, layers, x);
    }
  }

  /** One step of the as-written loop: situation `lo`'s renames, if any, then the rest. */
  lemma RenamesFromAsWrittenStep(lo: nat, n: nat, pollutant: string, layers: seq<string>)
    requires lo < n
    ensures RenamesFromAsWritten(lo, n, pollutant, layers) ==
      (if lo >= 1000 then ConditionRenames(lo, pollutant, layers) else []) + RenamesFromAsWritten(lo + 1, n, pollutant, layers)
  {
  }

  /** Every layer of every situation from 1000 to `n - 1` is renamed by the as-written loop
      from `lo`. */
  lemma {:induction false} RenamedByAsWritten(lo: nat, n: nat, pollutant: string, layers: seq<string>, i: nat, j: nat)
    requires lo <= i < n && 1000 <= i && j < |layers|
    ensures ConditionRenames(i, pollutant, layers)[j] in RenamesFromAsWritten(lo, n, pollutant, layers)
    decreases n - lo
  {
    RenamesFromAsWrittenStep(lo, n, pollutant, layers);
    if i == lo {
      var here := ConditionRenames(i, pollutant, layers);
      assert here[j] in here;
    } else {
      RenamedByAsWritten(lo + 1, n, pollutant, layers, i, j);
    }
  }

  /** `rename_results` as written. `layers` are the printed horizontal layers. With several
      situations only those from 1000 to one below the count are renamed. */
  function RenameResults(pollutant: string, layers: seq<string>, conditions: int): (r: Result<seq<Rename>>)
    ensures conditions <= 1 ==> (r.Ok? <==> |layers| > 0)
    ensures conditions <= 1 && |layers| > 0 ==> r == Ok(ConditionRenames(1, pollutant, layers))
    ensures conditions > 1 ==> r.Ok?
    ensures conditions > 1 ==> forall x ::
      x in r.value <==>
        exists i: nat, j: nat :: 1000 <= i < conditions && j < |layers| && x == ConditionRenames(i, pollutant, layers)[j]
  {
    if conditions > 1 then
      var renames := RenamesFromAsWritten(1, conditions, pollutant, layers);
      assert forall x :: x in renames <==>
        exists i: nat, j: nat :: 1000 <= i < conditions && j < |layers| && x == ConditionRenames(i, pollutant, layers)[j] by {
        forall x | x in renames
          ensures exists i: nat, j: nat :: 1000 <= i < conditions && j < |layers| && x == ConditionRenames(i, pollutant, layers)[j]
        {
          var i, j := RenameFromAsWritten(1, conditions, pollutant, layers, x);
        }
        forall i: nat, j: nat | 1000 <= i < conditions && j < |layers|
          ensures ConditionRenames(i, pollutant, layers)[j] in renames
        {
          RenamedByAsWritten(1, conditions, pollutant, layers, i, j);
        }
      }
      Ok(renames)
    else if |layers| > 1 then Ok(ConditionRenames(1, pollutant, layers))
    else if |layers| == 0 then Err(IndexError("list index out of range"))
    else
      assert ConditionLabel(1) == "00001";
      var one := [Rename(GralResultName("00001", 1), ResultName(1, pollutant, layers[0]))];
      assert ConditionRenames(1, pollutant, layers)[0] == one[0];
      assert ConditionRenames(1, pollutant, layers) == one;
      Ok([Rename(GralResultName("00001", 1), ResultName(1, pollutant, layers[0]))])
  }

  lemma {:induction false} NothingBelowThousand(lo: nat, n: nat, pollutant: string, layers: seq<string>)
    requires n <= 1000
    ensures RenamesFromAsWritten(lo, n, pollutant, layers) == []
    decreases n - lo
  {
    if lo < n {
      NothingBelowThousand(lo + 1, n, pollutant, layers);
    }
  }

  /** With 2 to 1000 weather situations the code as written renames no file at all. */
  lemma RenameResultsSkipsSituations(pollutant: string, layers: seq<string>, conditions: int)
    requires 2 <= conditions <= 1000
    ensures RenameResults(pollutant, layers, conditions) == Ok([])
  {
    NothingBelowThousand(1, conditions, pollutant, layers);
  }

  /** The renames of situations 1 to `n`, in order. */
  function RenamesUpTo(n: nat, pollutant: string, layers: seq<string>): (r: seq<Rename>)
    ensures |r| == n * |layers|
    decreases n
  {
    if n == 0 then [] else RenamesUpTo(n - 1, pollutant, layers) + ConditionRenames(n, pollutant, layers)
  }

  /** `rename_results` with the evident intent: every situation from 1 to the count, each layer. */
  function RenameResultsIntended(pollutant: string, layers: seq<string>, conditions: int): (r: Result<seq<Rename>>)
    ensures conditions <= 1 ==> r == RenameResults(pollutant, layers, conditions)
    ensures conditions > 1 ==> r.Ok? && |r.value| == conditions * |layers|
  {
    if conditions > 1 then Ok(RenamesUpTo(conditions, pollutant, layers))
    else RenameResults(pollutant, layers, conditions)
  }

  /** Every result file of every situation and layer is renamed by the intended version. */
  lemma {:induction false} RenamesUpToCovers(n: nat, pollutant: string, layers: seq<string>, i: nat, j: nat)
    requires 1 <= i <= n && j < |layers|
    ensures Rename(GralResultName(ConditionLabel(i), j + 1), ResultName(i, pollutant, layers[j]))
      in RenamesUpTo(n, pollutant, layers)
    decreases n
  {
    var here := ConditionRenames(n, pollutant, layers);
    if i == n {
      assert here[j] in here;
    } else {
      RenamesUpToCovers(n - 1, pollutant, layers, i, j);
    }
  }
}
