/** The slice of a pandas data frame the weather processor relies on: named columns over rows
    of cells, a column selected by name, and a column replaced by a new one. A cell is text, a
    float, an integer, a time of day (a `Timestamp` whose date part is never looked at), or
    missing (`NaN`/`NaT`). */
module Frames {
  import opened Wrappers
  import opened Seqs

  datatype Cell = Txt(s: string) | Num(x: real) | Int(n: int) | Stamp(hour: nat, minute: nat) | Missing

  /** A frame stored column by column: `data[j]` holds the cells of `columns[j]`, top to
      bottom, and every column is `height` cells tall. */
  datatype Frame = Frame(columns: seq<string>, data: seq<seq<Cell>>, height: nat)

  /** One cell list per column name, all of the frame's height. */
  predicate WellFormed(f: Frame) {
    |f.data| == |f.columns| && forall j :: 0 <= j < |f.data| ==> |f.data[j]| == f.height
  }

  /** How many columns carry a name. */
  function Count(names: seq<string>, name: string): (n: nat)
    ensures n == 0 <==> name !in names
    ensures n <= |names|
  {
    if |names| == 0 then 0
    else (if names[0] == name then 1 else 0) + Count(names[1..], name)
  }

  /** The position of the first column with a name. */
  function IndexOf(names: seq<string>, name: string): (r: Option<nat>)
    ensures r.None? <==> name !in names
    ensures r.Some? ==> r.value < |names| && names[r.value] == name
    ensures r.Some? ==> forall k :: 0 <= k < r.value ==> names[k] != name
  {
    if |names| == 0 then None
    else if names[0] == name then Some(0)
    else
      match IndexOf(names[1..], name)
      case None => None
      case Some(k) => Some(k + 1)
  }

  /** `df[name]` for a name that occurs: the cells of its (first) column, top to bottom. */
  function Column(f: Frame, name: string): (cells: seq<Cell>)
    requires WellFormed(f) && name in f.columns
    ensures |cells| == f.height
    ensures cells == f.data[IndexOf(f.columns, name).value]
  {
    f.data[IndexOf(f.columns, name).value]
  }

  /** Row `i`, one cell per column. */
  function Row(f: Frame, i: nat): (row: seq<Cell>)
    requires WellFormed(f) && i < f.height
    ensures |row| == |f.columns|
    ensures forall j :: 0 <= j < |f.columns| ==> row[j] == f.data[j][i]
  {
    seq(|f.columns|, j requires 0 <= j < |f.columns| => f.data[j][i])
  }

  /** `df[name] = cells` for a name that occurs: that column replaced, every other column kept. */
  function SetColumn(f: Frame, name: string, cells: seq<Cell>): (r: Frame)
    requires WellFormed(f) && name in f.columns && |cells| == f.height
    ensures WellFormed(r) && r.columns == f.columns && r.height == f.height
    ensures Column(r, name) == cells
    ensures forall n :: n in f.columns && n != name ==> Column(r, n) == Column(f, n)
  {
    Frame(f.columns, f.data[IndexOf(f.columns, name).value := cells], f.height)
  }

  /** A column pandas stores as text: some cell is text, or there are no rows to say otherwise.
      A column of numbers, or of nothing but `NaN`, has a numeric type and no `.str`. */
  predicate StrDtype(cells: seq<Cell>) {
    |cells| == 0 || exists i :: 0 <= i < |cells| && cells[i].Txt?
  }

  /** `df[name] = op(df[name])` applied cell by cell: a missing column raises `KeyError`, a
      repeated one selects a frame rather than a column and the access fails with
      `AttributeError`, and the first failing cell decides the error. */
  function MapColumn(f: Frame, name: string, op: Cell -> Result<Cell>): (r: Result<Frame>)
    requires WellFormed(f)
    ensures name !in f.columns ==> r == Err(KeyError(name))
    ensures name in f.columns && Count(f.columns, name) > 1 ==> r == Err(AttributeError(name))
    ensures r.Ok? <==>
      && name in f.columns && Count(f.columns, name) == 1
      && forall i :: 0 <= i < f.height ==> op(Column(f, name)[i]).Ok?
    ensures r.Ok? ==>
      && WellFormed(r.value) && r.value.columns == f.columns && r.value.height == f.height
      && (forall i :: 0 <= i < f.height ==> Column(r.value, name)[i] == op(Column(f, name)[i]).value)
      && (forall n :: n in f.columns && n != name ==> Column(r.value, n) == Column(f, n))
  {
    if name !in f.columns then Err(KeyError(name))
    else if Count(f.columns, name) > 1 then Err(AttributeError(name))
    else
      var cells :- MapAll(Column(f, name), op);
      Ok(SetColumn(f, name, cells))
  }

  /** A `.str` operation: as `MapColumn`, and a column without text has no `.str` accessor. */
  function StrMapColumn(f: Frame, name: string, op: Cell -> Result<Cell>): (r: Result<Frame>)
    requires WellFormed(f)
    ensures name in f.columns && Count(f.columns, name) == 1 && !StrDtype(Column(f, name)) ==>
      r == Err(AttributeError(name))
    ensures !(name in f.columns && Count(f.columns, name) == 1 && !StrDtype(Column(f, name))) ==>
      r == MapColumn(f, name, op)
  {
    if name in f.columns && Count(f.columns, name) == 1 && !StrDtype(Column(f, name)) then
      Err(AttributeError(name))
    else MapColumn(f, name, op)
  }

  /** No column name occurs twice. */
  predicate Distinct(names: seq<string>) {
    forall a, b :: 0 <= a < b < |names| ==> names[a] != names[b]
  }

  /** The first position holding a name is its `IndexOf`. */
  lemma IndexOfIs(names: seq<string>, name: string, k: nat)
    requires k < |names| && names[k] == name
    requires forall j :: 0 <= j < k ==> names[j] != name
    ensures IndexOf(names, name) == Some(k)
  {
  }

  /** A new column added at the right-hand end, all `NaN`. */
  function AddColumn(f: Frame, name: string): (r: Frame)
    requires WellFormed(f) && name !in f.columns
    ensures WellFormed(r) && r.columns == f.columns + [name] && r.height == f.height
    ensures forall i :: 0 <= i < f.height ==> Column(r, name)[i] == Missing
    ensures forall n :: n in f.columns ==> Column(r, n) == Column(f, n)
  {
    var r := Frame(f.columns + [name], f.data + [seq(f.height, i => Missing)], f.height);
    assert IndexOf(r.columns, name) == Some(|f.columns|) by {
      IndexOfIs(r.columns, name, |f.columns|);
    }
    assert forall n :: n in f.columns ==> IndexOf(r.columns, n) == IndexOf(f.columns, n) by {
      forall n | n in f.columns
        ensures IndexOf(r.columns, n) == IndexOf(f.columns, n)
      {
        IndexOfIs(r.columns, n, IndexOf(f.columns, n).value);
      }
    }
    r
  }

  /** The frame cut down to some of its rows (`df.iloc[rows]`), in the order given. */
  function SelectRows(f: Frame, rows: seq<nat>): (r: Frame)
    requires WellFormed(f) && forall t :: 0 <= t < |rows| ==> rows[t] < f.height
    ensures WellFormed(r) && r.columns == f.columns && r.height == |rows|
    ensures forall j, t :: 0 <= j < |f.columns| && 0 <= t < |rows| ==> r.data[j][t] == f.data[j][rows[t]]
  {
    Frame(f.columns,
      seq(|f.columns|, j requires 0 <= j < |f.columns| =>
        seq(|rows|, t requires 0 <= t < |rows| => f.data[j][rows[t]])),
      |rows|)
  }

  /** Each column of the selection holds the column's cells at the selected rows. */
  lemma SelectedColumn(f: Frame, rows: seq<nat>, name: string, t: nat)
    requires WellFormed(f) && forall t :: 0 <= t < |rows| ==> rows[t] < f.height
    requires name in f.columns && t < |rows|
    ensures Column(SelectRows(f, rows), name)[t] == Column(f, name)[rows[t]]
  {
    var j := IndexOf(f.columns, name).value;
    assert Column(SelectRows(f, rows), name) == SelectRows(f, rows).data[j];
  }

  /** The first name of `names` that is not a column, if any. */
  function FirstAbsent(names: seq<string>, columns: seq<string>): (r: Option<string>)
    ensures r.None? <==> forall d :: d in names ==> d in columns
    ensures r.Some? ==> r.value in names && r.value !in columns
  {
    if |names| == 0 then None
    else if names[0] !in columns then Some(names[0])
    else FirstAbsent(names[1..], columns)
  }

  /** The positions among the first `n` whose column is not dropped, left to right. */
  function KeptPositions(names: seq<string>, dropped: seq<string>, n: nat): (kept: seq<nat>)
    requires n <= |names|
    ensures forall k :: 0 <= k < |kept| ==> kept[k] < n && names[kept[k]] !in dropped
    ensures forall a, b :: 0 <= a < b < |kept| ==> kept[a] < kept[b]
    ensures forall j :: 0 <= j < n && names[j] !in dropped ==> j in kept
  {
    if n == 0 then []
    else KeptPositions(names, dropped, n - 1) + (if names[n - 1] !in dropped then [n - 1] else [])
  }

  /** The frame restricted to the columns at the kept positions. */
  function Project(f: Frame, kept: seq<nat>): (r: Frame)
    requires WellFormed(f) && forall k :: 0 <= k < |kept| ==> kept[k] < |f.columns|
    ensures WellFormed(r) && r.height == f.height && |r.columns| == |kept|
    ensures forall k :: 0 <= k < |kept| ==> r.columns[k] == f.columns[kept[k]] && r.data[k] == f.data[kept[k]]
  {
    Frame(seq(|kept|, k requires 0 <= k < |kept| => f.columns[kept[k]]),
      seq(|kept|, k requires 0 <= k < |kept| => f.data[kept[k]]), f.height)
  }

  /** Projecting on the kept positions keeps each kept column under its name. */
  lemma ProjectKeeps(f: Frame, dropped: seq<string>, n: string)
    requires WellFormed(f) && n in f.columns && n !in dropped
    ensures n in Project(f, KeptPositions(f.columns, dropped, |f.columns|)).columns
    ensures Column(Project(f, KeptPositions(f.columns, dropped, |f.columns|)), n) == Column(f, n)
  {
    var kept := KeptPositions(f.columns, dropped, |f.columns|);
    var r := Project(f, kept);
    var j := IndexOf(f.columns, n).value;
    var k :| 0 <= k < |kept| && kept[k] == j;
    forall k' | 0 <= k' < k
      ensures r.columns[k'] != n
    {
      assert kept[k'] < j;
    }
    IndexOfIs(r.columns, n, k);
  }

  /** The projection has exactly the columns not dropped, each with its cells. */
  lemma ProjectColumns(f: Frame, dropped: seq<string>)
    requires WellFormed(f)
    ensures forall n ::
      n in Project(f, KeptPositions(f.columns, dropped, |f.columns|)).columns <==> n in f.columns && n !in dropped
    ensures forall n :: n in f.columns && n !in dropped ==>
      Column(Project(f, KeptPositions(f.columns, dropped, |f.columns|)), n) == Column(f, n)
  {
    var kept := KeptPositions(f.columns, dropped, |f.columns|);
    var r := Project(f, kept);
    forall n | n in f.columns && n !in dropped
      ensures n in r.columns && Column(r, n) == Column(f, n)
    {
      ProjectKeeps(f, dropped, n);
    }
    forall n | n in r.columns
      ensures n in f.columns && n !in dropped
    {
      var k :| 0 <= k < |r.columns| && r.columns[k] == n;
      assert f.columns[kept[k]] == n;
    }
  }

  /** `df.drop(columns=dropped)`: every named column must exist (`KeyError` otherwise); the
      others keep their cells. */
  function DropColumns(f: Frame, dropped: seq<string>): (r: Result<Frame>)
    requires WellFormed(f)
    ensures r.Ok? <==> forall d :: d in dropped ==> d in f.columns
    ensures r.Ok? ==> WellFormed(r.value) && r.value.height == f.height
    ensures r.Ok? ==> forall n :: n in r.value.columns <==> n in f.columns && n !in dropped
    ensures r.Ok? ==> forall n :: n in f.columns && n !in dropped ==> Column(r.value, n) == Column(f, n)
  {
    match FirstAbsent(dropped, f.columns)
    case Some(d) => Err(KeyError(d))
    case None =>
      ProjectColumns(f, dropped);
      Ok(Project(f, KeptPositions(f.columns, dropped, |f.columns|)))
  }
}
