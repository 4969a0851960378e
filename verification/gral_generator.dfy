/** The older GRAL writer `gral/gral_files_generator.py`: 10 m cells, the met-file fields read
    in the order the time-series writer uses, emissions converted from grams and no line-source
    filtering. Shared rules come from `Gral`. */
module GralGenerator {
  import opened Wrappers
  import opened Numeric
  import opened Text
  import opened Seqs
  import opened Geo
  import Gral

  /** GRAL.geb with 10 m cells. */
  function CreateGreb(bbox: Gral.BBox, horizontalSlices: int): (g: Gral.GrebGrid)
    ensures g.cellSize == 10 && g.slices == horizontalSlices
    ensures g.west == Trunc(bbox.west) && g.east == Trunc(bbox.east)
    ensures g.south == Trunc(bbox.south) && g.north == Trunc(bbox.north)
    ensures 10 * g.cellsX <= Abs(g.east - g.west) < 10 * (g.cellsX + 1)
    ensures 10 * g.cellsY <= Abs(g.north - g.south) < 10 * (g.cellsY + 1)
  {
    Gral.GrebFor(bbox, horizontalSlices, 10)
  }

  /** One meteopgt.all line: after date and time, speed, then direction, then class. */
  function PgtEntryOfLine(line: string): (r: Result<Gral.PgtEntry>)
    ensures r.Ok? <==> Gral.PgtReadable(line, 2, 3)
    ensures r.Ok? ==> Gral.ReadsPgt(line, 2, 3, r.value)
  {
    Gral.PgtEntryFrom(line, 2, 3)
  }

  /** This reader is the corrected reader of `Gral`, line for line. */
  lemma PgtEntryMatchesIntended(line: string)
    ensures PgtEntryOfLine(line) == Gral.PgtEntryIntended(line)
  {
  }

  /** meteopgt.all: one entry per line, each with frequency 1000 and a half-step sector. */
  function Meteopgt(lines: seq<string>): (r: Result<seq<Gral.PgtEntry>>)
    ensures r.Ok? <==> forall i :: 0 <= i < |lines| ==> Gral.PgtReadable(lines[i], 2, 3)
    ensures r.Ok? ==> |r.value| == |lines|
    ensures r.Ok? ==> forall i :: 0 <= i < |r.value| ==>
      r.value[i] == PgtEntryOfLine(lines[i]).value
      && r.value[i].frequency == Gral.PgtFrequency && IsHalfStep(r.value[i].sector)
  {
    MapAll(lines, PgtEntryOfLine)
  }

  /** `convert_g_to_kg`. */
  function ConvertGToKg(g: real): (kg: real)
    ensures kg * 1000.0 == g
  {
    g / 1000.0
  }

  /** The conversion is linear. */
  lemma ConvertGToKgLinear(a: real, b: real, c: real)
    ensures ConvertGToKg(a * c + b) == ConvertGToKg(a) * c + ConvertGToKg(b)
  {
    assert (a * c + b) / 1000.0 == (a / 1000.0) * c + b / 1000.0;
  }

  /** One line of this writer's line.dat. */
  datatype LineRow = LineRow(id: Gral.Attr, bounds: Bounds, width: Gral.Attr, emission: Option<real>)

  /** `convert_g_to_kg(float(value))`, a missing value staying NaN. */
  function EmissionOf(a: Gral.Attr): (r: Result<Option<real>>)
    ensures a.Num? ==> r == Ok(Some(ConvertGToKg(a.x)))
    ensures a.Null? ==> r == Ok(None)
    ensures a.Str? ==> (r.Ok? <==> ParseDecimal(a.s).Some?)
    ensures a.Str? && r.Ok? ==> r == Ok(Some(ConvertGToKg(ParseDecimal(a.s).value)))
  {
    var v :- Gral.AsFloat(a);
    match v
    case None => Ok(None)
    case Some(x) => Ok(Some(ConvertGToKg(x)))
  }

  /** `create_line_emissions_file`: every feature gives a line, in table order, with the
      `edge_{pollutant}_n` value converted from grams to kilograms. The columns are only looked
      up inside the row loop (`osmid`, then `width`, then the emission column), so a table
      without features gives an empty file whatever its columns. */
  function CreateLineEmissions(table: Gral.LineTable, pollutant: string): (r: Result<seq<LineRow>>)
    ensures |table.rows| == 0 ==> r == Ok([])
    ensures r.Ok? <==>
      || |table.rows| == 0
      || (&& "osmid" in table.columns && "width" in table.columns && ("edge_" + pollutant + "_n") in table.columns
          && forall i :: 0 <= i < |table.rows| ==> EmissionOf(Gral.Cell(table.rows[i], "edge_" + pollutant + "_n")).Ok?)
    ensures r.Ok? ==> |r.value| == |table.rows|
    ensures r.Ok? ==> forall i :: 0 <= i < |r.value| ==>
      && r.value[i].id == Gral.Cell(table.rows[i], "osmid")
      && r.value[i].bounds == table.rows[i].geometry.bounds
      && r.value[i].width == Gral.Cell(table.rows[i], "width")
      && r.value[i].emission == EmissionOf(Gral.Cell(table.rows[i], "edge_" + pollutant + "_n")).value
    ensures r.Ok? ==> forall i :: 0 <= i < |r.value| ==>
      Gral.Cell(table.rows[i], "edge_" + pollutant + "_n").Num? ==>
        r.value[i].emission == Some(Gral.Cell(table.rows[i], "edge_" + pollutant + "_n").x / 1000.0)
  {
    var column := "edge_" + pollutant + "_n";
    MapAll(table.rows, (f: Gral.LineFeature) =>
      if "osmid" !in table.columns then Err(KeyError("osmid"))
      else if "width" !in table.columns then Err(KeyError("width"))
      else if column !in table.columns then Err(KeyError(column))
      else
        match EmissionOf(Gral.Cell(f, column))
        case Ok(e) => Ok(LineRow(Gral.Cell(f, "osmid"), f.geometry.bounds, Gral.Cell(f, "width"), e))
        case Err(x) => Err(x))
  }

  /** mettimeseries.dat is written by the same rules as in `Gral`: one entry per met-file row. */
  function MetTimeSeries(lines: seq<string>): (r: Result<seq<Gral.MetTimeEntry>>)
    ensures r.Ok? <==> forall i :: 0 <= i < |Gral.MetRows(lines)| ==> Gral.MetTimeReadable(Gral.MetRows(lines)[i])
    ensures r.Ok? ==> |r.value| == |Gral.MetRows(lines)|
    ensures r.Ok? ==> forall i :: 0 <= i < |r.value| ==>
      r.value[i] == Gral.MetTimeEntryOfLine(Gral.MetRows(lines)[i]).value && IsHalfStep(r.value[i].sector)
  {
    Gral.MetTimeSeries(lines)
  }

  /** The two files this writer produces from one met file agree, entry by entry, on the wind
      sector and the stability class. */
  lemma FilesAgree(lines: seq<string>)
    requires forall i :: 0 <= i < |lines| ==>
      && lines[i] != "" && Strip(lines[i]) == lines[i]
      && Gral.PgtReadable(lines[i], 2, 3) && Gral.MetTimeReadable(lines[i])
    ensures Meteopgt(lines).Ok? && MetTimeSeries(lines).Ok?
    ensures |Meteopgt(lines).value| == |MetTimeSeries(lines).value| == |lines|
    ensures forall i :: 0 <= i < |lines| ==>
      && Meteopgt(lines).value[i].sector == MetTimeSeries(lines).value[i].sector
      && Meteopgt(lines).value[i].stability == MetTimeSeries(lines).value[i].stability
  {
    forall i | 0 <= i < |lines| ensures Gral.NonBlank(lines[i]) {
      var l := lines[i];
      assert !IsSpace(Strip(l)[|Strip(l)| - 1]);
      assert l[|l| - 1] != ' ' && l[|l| - 1] != '\t';
    }
    Gral.MetRowsOfFullLines(lines);
    forall i | 0 <= i < |lines|
      ensures Meteopgt(lines).value[i].sector == MetTimeSeries(lines).value[i].sector
      ensures Meteopgt(lines).value[i].stability == MetTimeSeries(lines).value[i].stability
    {
      Gral.PgtIntendedAgrees(lines[i]);
    }
  }
}
