/** The reading of a GRAL result file in `display_results/results_processor.py`: an ESRI ASCII
    grid with a six-line header (`key value` per line), then one line of blank-separated cells
    per grid row. Cells equal to the header's no-data value are missing; the present ones
    become points placed by their row and column. */
module Results {
  import opened Wrappers
  import opened Text
  import opened Seqs
  import Gral

  // ---------------------------------------------------------------------------
  // extract_results_header_info

  datatype Header = Header(ncols: int, nrows: int, xll: real, yll: real, cellsize: real, nodata: real)

  /** The header keys, one per line, in the order GRAL writes them. */
  const HeaderKeys: seq<string> := ["ncols", "nrows", "xllcorner", "yllcorner", "cellsize", "NODATA_value"]

  /** `lines[k].split()[1]`: the second word of header line `k`. */
  function HeaderField(lines: seq<string>, k: nat): (r: Result<string>)
    ensures r.Ok? <==> k < |lines| && |Tokens(lines[k])| >= 2
    ensures r.Ok? ==> r.value == Tokens(lines[k])[1] && IsWord(r.value)
  {
    if k >= |lines| then Err(IndexError("list index out of range"))
    else
      var words := Tokens(lines[k]);
      if |words| < 2 then Err(IndexError("list index out of range")) else Ok(words[1])
  }

  /** `int(...)` of a header field. */
  function ReadInt(field: Result<string>): (r: Result<int>)
    ensures r.Ok? <==> field.Ok? && ParseInt(field.value).Some?
    ensures r.Ok? ==> r.value == ParseInt(field.value).value
  {
    var word :- field;
    match ParseInt(word)
    case Some(n) => Ok(n)
    case None => Err(ValueError(word))
  }

  /** `float(...)` of a header field. */
  function ReadReal(field: Result<string>): (r: Result<real>)
    ensures r.Ok? <==> field.Ok? && ParseDecimal(field.value).Some?
    ensures r.Ok? ==> r.value == ParseDecimal(field.value).value
  {
    var word :- field;
    match ParseDecimal(word)
    case Some(x) => Ok(x)
    case None => Err(ValueError(word))
  }

  /** The header from its six fields, read in order: the first failure is the one raised. */
  function HeaderOf(f0: Result<string>, f1: Result<string>, f2: Result<string>,
                    f3: Result<string>, f4: Result<string>, f5: Result<string>): (r: Result<Header>)
    ensures r.Ok? <==>
      && ReadInt(f0).Ok? && ReadInt(f1).Ok?
      && ReadReal(f2).Ok? && ReadReal(f3).Ok? && ReadReal(f4).Ok? && ReadReal(f5).Ok?
    ensures r.Ok? ==> r.value == Header(ReadInt(f0).value, ReadInt(f1).value,
      ReadReal(f2).value, ReadReal(f3).value, ReadReal(f4).value, ReadReal(f5).value)
  {
    var ncols :- ReadInt(f0);
    var nrows :- ReadInt(f1);
    var xll :- ReadReal(f2);
    var yll :- ReadReal(f3);
    var cellsize :- ReadReal(f4);
    var nodata :- ReadReal(f5);
    Ok(Header(ncols, nrows, xll, yll, cellsize, nodata))
  }

  /** `extract_results_header_info`: the six values, each the second word of its line; the
      keys themselves are never checked. */
  function ExtractHeader(lines: seq<string>): (r: Result<Header>)
    ensures r.Ok? ==> |lines| >= 6
  {
    HeaderOf(HeaderField(lines, 0), HeaderField(lines, 1), HeaderField(lines, 2),
      HeaderField(lines, 3), HeaderField(lines, 4), HeaderField(lines, 5))
  }

  /** A header line as GRAL writes it: the key, a blank, the value. */
  function HeaderLine(key: string, value: int): string {
    Join([key, IntToString(value)], ' ')
  }

  /** The six header lines of a grid whose corner, cell size and no-data value are whole
      numbers. */
  function HeaderLines(ncols: int, nrows: int, xll: int, yll: int, cellsize: int, nodata: int): (lines: seq<string>)
    ensures |lines| == 6
  {
    [HeaderLine(HeaderKeys[0], ncols), HeaderLine(HeaderKeys[1], nrows), HeaderLine(HeaderKeys[2], xll),
     HeaderLine(HeaderKeys[3], yll), HeaderLine(HeaderKeys[4], cellsize), HeaderLine(HeaderKeys[5], nodata)]
  }

  /** `str` of an integer is one word. */
  lemma IntToStringIsWord(i: int)
    ensures IsWord(IntToString(i))
  {
    var s := NatToString(if i < 0 then -i else i);
    assert forall k :: 0 <= k < |s| ==> !IsSpace(s[k]);
  }

  /** The second word of a written header line is the value. */
  lemma HeaderLineValue(key: string, value: int)
    requires IsWord(key)
    ensures |Tokens(HeaderLine(key, value))| >= 2
    ensures Tokens(HeaderLine(key, value))[1] == IntToString(value)
    ensures ParseInt(Tokens(HeaderLine(key, value))[1]) == Some(value)
    ensures ParseDecimal(Tokens(HeaderLine(key, value))[1]) == Some(value as real)
  {
    IntToStringIsWord(value);
    TokensJoin([key, IntToString(value)]);
    ParseIntOfIntToString(value);
    ParseIntThenDecimal(IntToString(value));
  }

  lemma HeaderKeysAreWords()
    ensures forall k :: 0 <= k < 6 ==> IsWord(HeaderKeys[k])
  {
  }

  /** A written header line reads back as its value, as an integer and as a float. */
  lemma WrittenField(lines: seq<string>, k: nat, key: string, value: int)
    requires k < |lines| && lines[k] == HeaderLine(key, value) && IsWord(key)
    ensures ReadInt(HeaderField(lines, k)) == Ok(value)
    ensures ReadReal(HeaderField(lines, k)) == Ok(value as real)
  {
    HeaderLineValue(key, value);
    assert HeaderField(lines, k) == Ok(IntToString(value));
  }

  /** Reading back a written header gives its values, whatever data lines follow. */
  lemma HeaderRoundTrip(ncols: int, nrows: int, xll: int, yll: int, cellsize: int, nodata: int, rows: seq<string>)
    ensures ExtractHeader(HeaderLines(ncols, nrows, xll, yll, cellsize, nodata) + rows)
      == Ok(Header(ncols, nrows, xll as real, yll as real, cellsize as real, nodata as real))
  {
    var lines := HeaderLines(ncols, nrows, xll, yll, cellsize, nodata) + rows;
    HeaderKeysAreWords();
    WrittenField(lines, 0, HeaderKeys[0], ncols);
    WrittenField(lines, 1, HeaderKeys[1], nrows);
    WrittenField(lines, 2, HeaderKeys[2], xll);
    WrittenField(lines, 3, HeaderKeys[3], yll);
    WrittenField(lines, 4, HeaderKeys[4], cellsize);
    WrittenField(lines, 5, HeaderKeys[5], nodata);
  }

  /** The data lines never change the header. */
  lemma HeaderIgnoresData(lines: seq<string>, rows: seq<string>)
    requires |lines| >= 6
    ensures ExtractHeader(lines + rows) == ExtractHeader(lines)
  {
    forall k | 0 <= k < 6
      ensures HeaderField(lines + rows, k) == HeaderField(lines, k)
    {
      assert (lines + rows)[k] == lines[k];
    }
  }

  // ---------------------------------------------------------------------------
  // extract_pollutant_data

  /** The lines after the six header lines (`lines[6:]`, empty for a short file). */
  function DataLines(lines: seq<string>): (rows: seq<string>)
    ensures |lines| >= 6 ==> rows == lines[6..]
    ensures |lines| < 6 ==> rows == []
  {
    if |lines| < 6 then [] else lines[6..]
  }

  /** `float(word)` on one grid cell. */
  function ParseCell(word: string): (r: Result<real>)
    ensures r.Ok? <==> ParseDecimal(word).Some?
    ensures r.Ok? ==> r.value == ParseDecimal(word).value
  {
    match ParseDecimal(word)
    case Some(x) => Ok(x)
    case None => Err(ValueError(word))
  }

  /** `list(map(float, line.split()))`. */
  function ParseRow(line: string): (r: Result<seq<real>>)
    ensures r.Ok? <==> forall j :: 0 <= j < |Tokens(line)| ==> ParseDecimal(Tokens(line)[j]).Some?
    ensures r.Ok? ==> |r.value| == |Tokens(line)|
    ensures r.Ok? ==> forall j :: 0 <= j < |r.value| ==> r.value[j] == ParseDecimal(Tokens(line)[j]).value
  {
    ParseWords(Tokens(line));
    MapAll(Tokens(line), ParseCell)
  }

  /** Reading a list of words succeeds exactly when `float` reads each of them. */
  lemma ParseWords(words: seq<string>)
    ensures MapAll(words, ParseCell).Ok? <==> forall j :: 0 <= j < |words| ==> ParseDecimal(words[j]).Some?
  {
    var r := MapAll(words, ParseCell);
    if r.Ok? {
      forall j | 0 <= j < |words|
        ensures ParseDecimal(words[j]).Some?
      {
        assert ParseCell(words[j]).Ok?;
      }
    } else {
      var j :| 0 <= j < |words| && ParseCell(words[j]) == Err(r.fault);
      assert ParseDecimal(words[j]).None?;
    }
  }

  /** All rows of one width, as `np.array` needs to build a two-dimensional array. */
  predicate Rectangular<T>(rows: seq<seq<T>>) {
    forall i :: 0 <= i < |rows| ==> |rows[i]| == |rows[0]|
  }

  /** A cell after `data[data == nodata] = nan`. */
  function Blank(x: real, nodata: real): (c: Option<real>)
    ensures c.None? <==> x == nodata
    ensures c.Some? ==> c.value == x
  {
    if x == nodata then None else Some(x)
  }

  /** Every data line read as numbers. */
  function ParseRows(lines: seq<string>): (r: Result<seq<seq<real>>>)
    ensures r.Ok? <==> forall i :: 0 <= i < |DataLines(lines)| ==> ParseRow(DataLines(lines)[i]).Ok?
    ensures r.Ok? ==> |r.value| == |DataLines(lines)|
    ensures r.Ok? ==> forall i :: 0 <= i < |r.value| ==> r.value[i] == ParseRow(DataLines(lines)[i]).value
  {
    MapAll(DataLines(lines), ParseRow)
  }

  /** `data[data == nodata] = nan` on a whole grid. */
  function BlankCells(rows: seq<seq<real>>, nodata: real): (cells: seq<seq<Option<real>>>)
    ensures |cells| == |rows|
    ensures forall i :: 0 <= i < |rows| ==> |cells[i]| == |rows[i]|
    ensures forall i, j :: 0 <= i < |rows| && 0 <= j < |rows[i]| ==> cells[i][j] == Blank(rows[i][j], nodata)
  {
    seq(|rows|, i requires 0 <= i < |rows| =>
      seq(|rows[i]|, j requires 0 <= j < |rows[i]| => Blank(rows[i][j], nodata)))
  }

  /** `extract_pollutant_data`: each data line as a row of numbers, with the cells equal to
      `nodata` missing. Rows of different widths do not form a two-dimensional array and raise
      `ValueError`, after every cell has been read. */
  function ExtractData(lines: seq<string>, nodata: real): (r: Result<seq<seq<Option<real>>>>)
    ensures r.Ok? <==> ParseRows(lines).Ok? && Rectangular(ParseRows(lines).value)
    ensures r.Ok? ==> |r.value| == |DataLines(lines)| && Rectangular(r.value)
    ensures r.Ok? ==> forall i :: 0 <= i < |r.value| ==> |r.value[i]| == |Tokens(DataLines(lines)[i])|
    ensures r.Ok? ==> forall i, j :: 0 <= i < |r.value| && 0 <= j < |r.value[i]| ==>
      r.value[i][j] == Blank(ParseRows(lines).value[i][j], nodata)
  {
    var rows :- ParseRows(lines);
    if !Rectangular(rows) then Err(ValueError("inhomogeneous shape"))
    else Ok(BlankCells(rows, nodata))
  }

  /** A grid row as text: the values separated by blanks. */
  function GridLine(row: seq<int>): string {
    Join(seq(|row|, j requires 0 <= j < |row| => IntToString(row[j])), ' ')
  }

  /** A written row of whole numbers reads back as those numbers. */
  lemma GridLineRoundTrip(row: seq<int>)
    ensures ParseRow(GridLine(row)).Ok?
    ensures ParseRow(GridLine(row)).value == seq(|row|, j requires 0 <= j < |row| => row[j] as real)
  {
    var words := seq(|row|, j requires 0 <= j < |row| => IntToString(row[j]));
    forall j | 0 <= j < |row|
      ensures IsWord(words[j])
      ensures ParseDecimal(words[j]) == Some(row[j] as real)
    {
      IntToStringIsWord(row[j]);
      ParseIntOfIntToString(row[j]);
      ParseIntThenDecimal(words[j]);
    }
    TokensJoin(words);
  }

  /** A written grid of whole numbers, of one width, reads back cell for cell, with the
      no-data cells missing. */
  lemma DataRoundTrip(header: seq<string>, grid: seq<seq<int>>, nodata: real)
    requires |header| == 6 && Rectangular(grid)
    ensures ExtractData(header + seq(|grid|, i requires 0 <= i < |grid| => GridLine(grid[i])), nodata).Ok?
    ensures var cells := ExtractData(header + seq(|grid|, i requires 0 <= i < |grid| => GridLine(grid[i])), nodata).value;
      && |cells| == |grid|
      && forall i, j :: 0 <= i < |grid| && 0 <= j < |grid[i]| ==>
           |cells[i]| == |grid[i]| && cells[i][j] == Blank(grid[i][j] as real, nodata)
  {
    var text := seq(|grid|, i requires 0 <= i < |grid| => GridLine(grid[i]));
    var lines := header + text;
    assert DataLines(lines) == text;
    forall i | 0 <= i < |grid|
      ensures ParseRow(text[i]).Ok?
      ensures |Tokens(text[i])| == |grid[i]|
      ensures forall j :: 0 <= j < |grid[i]| ==> ParseDecimal(Tokens(text[i])[j]).value == grid[i][j] as real
    {
      GridLineRoundTrip(grid[i]);
    }
  }

  // ---------------------------------------------------------------------------
  // gather_coordinates_and_values

  datatype Point = Point(x: real, y: real, value: real)

  /** How many rows and columns the loops visit: `range` of a count below one is empty, and
      no column loop means no row is read. */
  function RowsVisited(h: Header): nat {
    if h.ncols <= 0 || h.nrows <= 0 then 0 else h.nrows
  }

  function ColsVisited(h: Header): nat {
    if h.ncols <= 0 then 0 else h.ncols
  }

  /** The grid has every cell the loops read. */
  predicate Covers(grid: seq<seq<Option<real>>>, m: nat, n: nat) {
    m <= |grid| && forall i :: 0 <= i < m ==> n <= |grid[i]|
  }

  /** Cell `(i, j)` sits `j` cells east and `i` cells north of the lower-left corner. */
  function CellPoint(h: Header, i: nat, j: nat, v: real): (p: Point)
    ensures p.x == h.xll + j as real * h.cellsize && p.y == h.yll + i as real * h.cellsize && p.value == v
  {
    Point(h.xll + j as real * h.cellsize, h.yll + i as real * h.cellsize, v)
  }

  /** The points of the first `n` cells of row `i`, left to right, missing cells skipped. */
  function RowPoints(row: seq<Option<real>>, i: nat, n: nat, h: Header): (ps: seq<Point>)
    requires n <= |row|
    ensures |ps| <= n
  {
    if n == 0 then []
    else RowPoints(row, i, n - 1, h) + (if row[n - 1].Some? then [CellPoint(h, i, n - 1, row[n - 1].value)] else [])
  }

  /** The points of the first `m` rows, row after row. */
  function GridPoints(grid: seq<seq<Option<real>>>, m: nat, n: nat, h: Header): seq<Point>
    requires Covers(grid, m, n)
  {
    if m == 0 then [] else GridPoints(grid, m - 1, n, h) + RowPoints(grid[m - 1], m - 1, n, h)
  }

  /** `gather_coordinates_and_values`: the present cells as points, row by row and left to
      right within a row; a cell outside the grid raises `IndexError`. */
  method Gather(grid: seq<seq<Option<real>>>, h: Header) returns (r: Result<seq<Point>>)
    ensures r.Ok? <==> Covers(grid, RowsVisited(h), ColsVisited(h))
    ensures r.Ok? ==> r.value == GridPoints(grid, RowsVisited(h), ColsVisited(h), h)
  {
    var rows := RowsVisited(h);
    var cols := ColsVisited(h);
    var points: seq<Point> := [];
    var i := 0;
    while i < rows
      invariant i <= rows
      invariant Covers(grid, i, cols)
      invariant points == GridPoints(grid, i, cols, h)
    {
      if i >= |grid| {
        return Err(IndexError("index out of bounds"));
      }
      var rowPoints: seq<Point> := [];
      var j := 0;
      while j < cols
        invariant j <= cols && j <= |grid[i]|
        invariant rowPoints == RowPoints(grid[i], i, j, h)
      {
        if j >= |grid[i]| {
          return Err(IndexError("index out of bounds"));
        }
        if grid[i][j].Some? {
          rowPoints := rowPoints + [CellPoint(h, i, j, grid[i][j].value)];
        }
        j := j + 1;
      }
      points := points + rowPoints;
      i := i + 1;
    }
    return Ok(points);
  }

  /** A present cell of a row is among the row's points, and every point of the row comes
      from a present cell. */
  lemma {:induction false} RowPointsAreCells(row: seq<Option<real>>, i: nat, n: nat, h: Header, p: Point)
    requires n <= |row|
    ensures p in RowPoints(row, i, n, h) <==>
      exists j :: 0 <= j < n && row[j] == Some(p.value) && p == CellPoint(h, i, j, p.value)
    decreases n
  {
    if n > 0 {
      RowPointsAreCells(row, i, n - 1, h, p);
      var last := if row[n - 1].Some? then [CellPoint(h, i, n - 1, row[n - 1].value)] else [];
      assert RowPoints(row, i, n, h) == RowPoints(row, i, n - 1, h) + last;
      if p in RowPoints(row, i, n, h) && p !in RowPoints(row, i, n - 1, h) {
        assert p in last;
        assert row[n - 1] == Some(p.value) && p == CellPoint(h, i, n - 1, p.value);
      }
      if exists j :: 0 <= j < n && row[j] == Some(p.value) && p == CellPoint(h, i, j, p.value) {
        var j :| 0 <= j < n && row[j] == Some(p.value) && p == CellPoint(h, i, j, p.value);
        if j == n - 1 {
          assert p in last;
        }
      }
    }
  }

  /** The gathered points are exactly the present cells, each at its own place: cell `(i, j)`
      at `(xll + j·cellsize, yll + i·cellsize)`, so row 0 lies on `yll`. */
  lemma {:induction false} GridPointsAreCells(grid: seq<seq<Option<real>>>, m: nat, n: nat, h: Header, p: Point)
    requires Covers(grid, m, n)
    ensures p in GridPoints(grid, m, n, h) <==>
      exists i, j :: 0 <= i < m && 0 <= j < n && grid[i][j] == Some(p.value) && p == CellPoint(h, i, j, p.value)
    decreases m
  {
    if m > 0 {
      assert Covers(grid, m - 1, n);
      GridPointsAreCells(grid, m - 1, n, h, p);
      RowPointsAreCells(grid[m - 1], m - 1, n, h, p);
      if exists i, j :: 0 <= i < m && 0 <= j < n && grid[i][j] == Some(p.value) && p == CellPoint(h, i, j, p.value) {
        var i, j :| 0 <= i < m && 0 <= j < n && grid[i][j] == Some(p.value) && p == CellPoint(h, i, j, p.value);
        if i == m - 1 {
          assert p in RowPoints(grid[m - 1], m - 1, n, h);
        } else {
          assert p in GridPoints(grid, m - 1, n, h);
        }
      }
    }
  }

  /** In a row without missing cells, the `j`-th point is cell `j`. */
  lemma {:induction false} FullRowOrder(row: seq<Option<real>>, i: nat, n: nat, h: Header)
    requires n <= |row| && forall j :: 0 <= j < n ==> row[j].Some?
    ensures |RowPoints(row, i, n, h)| == n
    ensures forall j :: 0 <= j < n ==> RowPoints(row, i, n, h)[j] == CellPoint(h, i, j, row[j].value)
    decreases n
  {
    if n > 0 {
      FullRowOrder(row, i, n - 1, h);
    }
  }

  /** The points of the first `i` rows are the first points of the first `m` rows. */
  lemma {:induction false} GridPrefix(grid: seq<seq<Option<real>>>, m: nat, n: nat, h: Header, i: nat)
    requires Covers(grid, m, n) && i <= m
    ensures Covers(grid, i, n)
    ensures GridPoints(grid, i, n, h) <= GridPoints(grid, m, n, h)
    decreases m
  {
    if i < m {
      assert Covers(grid, m - 1, n);
      GridPrefix(grid, m - 1, n, h, i);
    }
  }

  /** A grid without missing cells gives one point per cell. */
  lemma {:induction false} FullGridLength(grid: seq<seq<Option<real>>>, m: nat, n: nat, h: Header)
    requires Covers(grid, m, n)
    requires forall a, b :: 0 <= a < m && 0 <= b < n ==> grid[a][b].Some?
    ensures |GridPoints(grid, m, n, h)| == m * n
    decreases m
  {
    if m > 0 {
      assert Covers(grid, m - 1, n);
      FullGridLength(grid, m - 1, n, h);
      FullRowOrder(grid[m - 1], m - 1, n, h);
      assert (m - 1) * n + n == m * n;
    }
  }

  lemma RowMajorIndex(i: nat, j: nat, m: nat, n: nat)
    requires i < m && j < n
    ensures i * n + j < (i + 1) * n <= m * n
  {
    assert (i + 1) * n == i * n + n;
    assert (i + 1) * n <= m * n;
  }

  /** A grid without missing cells gives one point per cell, in row-major order: cell
      `(i, j)` is point `i·n + j`. */
  lemma FullGridOrder(grid: seq<seq<Option<real>>>, m: nat, n: nat, h: Header, i: nat, j: nat)
    requires Covers(grid, m, n)
    requires forall a, b :: 0 <= a < m && 0 <= b < n ==> grid[a][b].Some?
    requires i < m && j < n
    ensures |GridPoints(grid, m, n, h)| == m * n
    ensures i * n + j < m * n
    ensures GridPoints(grid, m, n, h)[i * n + j] == CellPoint(h, i, j, grid[i][j].value)
  {
    FullGridLength(grid, m, n, h);
    GridPrefix(grid, m, n, h, i + 1);
    assert Covers(grid, i, n);
    FullGridLength(grid, i, n, h);
    FullRowOrder(grid[i], i, n, h);
    RowMajorIndex(i, j, m, n);
    var upto := GridPoints(grid, i + 1, n, h);
    assert upto == GridPoints(grid, i, n, h) + RowPoints(grid[i], i, n, h);
    assert upto[i * n + j] == CellPoint(h, i, j, grid[i][j].value);
  }

  // ---------------------------------------------------------------------------
  // process_results

  /** `results_file.split('_')[3]`: the pollutant named in a result file's path. */
  function PollutantFromPath(path: string): (r: Result<string>)
    ensures r.Ok? <==> Occurrences(path, '_') >= 3
    ensures r.Ok? ==> r.value == Split(path, '_')[3] && '_' !in r.value
  {
    var parts := Split(path, '_');
    if |parts| < 4 then Err(IndexError("list index out of range")) else Ok(parts[3])
  }

  /** The pollutant is read back from the name the results were renamed to, as long as
      neither the directory nor the pollutant holds an underscore. */
  lemma PollutantOfResultName(dir: string, condition: nat, pollutant: string, layerText: string)
    requires '_' !in dir && '_' !in pollutant
    ensures PollutantFromPath(dir + Gral.ResultName(condition, pollutant, layerText)) == Ok(pollutant)
  {
    var number := NatToString(condition);
    assert forall k :: 0 <= k < |number| ==> number[k] != '_';
    var tail := layerText + "m.txt";
    var fourth := pollutant + "_" + tail;
    var third := number + "_" + fourth;
    var second := "weather" + "_" + third;
    var path := dir + Gral.ResultName(condition, pollutant, layerText);
    assert path == (dir + "results") + "_" + second;
    assert '_' !in dir + "results";
    SplitAtSeparator(dir + "results", second, '_');
    SplitAtSeparator("weather", third, '_');
    SplitAtSeparator(number, fourth, '_');
    SplitAtSeparator(pollutant, tail, '_');
  }

  /** `df[df[pollutant] != 0.0]`: the points with a non-zero value, in order. */
  function DropZeros(points: seq<Point>): (r: seq<Point>)
    ensures |r| <= |points|
    ensures forall k :: 0 <= k < |r| ==> r[k].value != 0.0 && r[k] in points
    ensures forall k :: 0 <= k < |points| ==> (points[k] in r <==> points[k].value != 0.0)
  {
    Filter(points, (p: Point) => p.value != 0.0)
  }

  /** `gather_coordinates_and_values` as a function. */
  function GatherPoints(grid: seq<seq<Option<real>>>, h: Header): (r: Result<seq<Point>>)
    ensures r.Ok? <==> Covers(grid, RowsVisited(h), ColsVisited(h))
  {
    if Covers(grid, RowsVisited(h), ColsVisited(h)) then Ok(GridPoints(grid, RowsVisited(h), ColsVisited(h), h))
    else Err(IndexError("index out of bounds"))
  }

  /** `process_results` up to the plot, without the change of coordinate system: the
      pollutant's name and its non-zero points. */
  function ProcessResults(path: string, lines: seq<string>): (r: Result<(string, seq<Point>)>)
    ensures r.Ok? ==> PollutantFromPath(path) == Ok(r.value.0) && ExtractHeader(lines).Ok?
  {
    var pollutant :- PollutantFromPath(path);
    var header :- ExtractHeader(lines);
    var grid :- ExtractData(lines, header.nodata);
    var points :- GatherPoints(grid, header);
    Ok((pollutant, DropZeros(points)))
  }

  /** A present cell of the extracted grid is a word of its data line that `float` reads as
      that value, and the value is not `nodata`. */
  lemma ExtractedCell(lines: seq<string>, nodata: real, i: nat, j: nat, v: real)
    requires ExtractData(lines, nodata).Ok?
    requires i < |ExtractData(lines, nodata).value| && j < |ExtractData(lines, nodata).value[i]|
    requires ExtractData(lines, nodata).value[i][j] == Some(v)
    ensures 6 + i < |lines| && j < |Tokens(lines[6 + i])|
    ensures ParseDecimal(Tokens(lines[6 + i])[j]) == Some(v) && v != nodata
  {
    var rows := DataLines(lines);
    assert rows[i] == lines[6 + i];
    assert ParseRows(lines).value[i] == ParseRow(rows[i]).value;
  }

  /** The points `process_results` plots, as those gathered from the grid. */
  lemma ProcessResultsGathered(path: string, lines: seq<string>)
    requires ProcessResults(path, lines).Ok?
    ensures var h := ExtractHeader(lines).value;
      && ExtractData(lines, h.nodata).Ok?
      && GatherPoints(ExtractData(lines, h.nodata).value, h).Ok?
      && ProcessResults(path, lines).value.1 == DropZeros(GatherPoints(ExtractData(lines, h.nodata).value, h).value)
  {
  }

  /** Every gathered point is a present cell of the file inside the header's extent, placed
      at its cell. */
  lemma GatheredFromLines(lines: seq<string>, h: Header, p: Point)
    requires ExtractData(lines, h.nodata).Ok?
    requires GatherPoints(ExtractData(lines, h.nodata).value, h).Ok?
    requires p in GatherPoints(ExtractData(lines, h.nodata).value, h).value
    ensures exists i, j ::
      && 0 <= i < RowsVisited(h) && 0 <= j < ColsVisited(h) && 6 + i < |lines|
      && j < |Tokens(lines[6 + i])|
      && ParseDecimal(Tokens(lines[6 + i])[j]) == Some(p.value)
      && p.value != h.nodata
      && p == CellPoint(h, i, j, p.value)
  {
    var grid := ExtractData(lines, h.nodata).value;
    GridPointsAreCells(grid, RowsVisited(h), ColsVisited(h), h, p);
    var i, j :| 0 <= i < RowsVisited(h) && 0 <= j < ColsVisited(h) && grid[i][j] == Some(p.value)
      && p == CellPoint(h, i, j, p.value);
    ExtractedCell(lines, h.nodata, i, j, p.value);
  }

  /** Every plotted point is a non-zero, non-missing cell of the file inside the header's
      extent, placed at its cell. */
  lemma ProcessResultsPoints(path: string, lines: seq<string>, p: Point)
    requires ProcessResults(path, lines).Ok? && p in ProcessResults(path, lines).value.1
    ensures p.value != 0.0
    ensures var h := ExtractHeader(lines).value;
      exists i, j ::
        && 0 <= i < RowsVisited(h) && 0 <= j < ColsVisited(h) && 6 + i < |lines|
        && j < |Tokens(lines[6 + i])|
        && ParseDecimal(Tokens(lines[6 + i])[j]) == Some(p.value)
        && p.value != h.nodata
        && p == CellPoint(h, i, j, p.value)
  {
    ProcessResultsGathered(path, lines);
    var h := ExtractHeader(lines).value;
    var points := GatherPoints(ExtractData(lines, h.nodata).value, h).value;
    assert p in DropZeros(points);
    assert p in points && p.value != 0.0;
    GatheredFromLines(lines, h, p);
  }
}
