/** The weather normalisation of `weather/weather_processor.py`: decimal commas read as
    numbers, the date and hour columns renamed and reformatted, a Pasquill stability class per
    hour from wind speed and time of day, and the met file reduced to the columns GRAL reads. */
module Weather {
  import opened Wrappers
  import opened Numeric
  import opened Text
  import opened Seqs
  import opened Frames

  // ---------------------------------------------------------------------------
  // Stability classes

  /** The hours `create_stability_class` treats as night, as `%H:%M` text. */
  const NightHours: seq<string> :=
    ["21:00", "22:00", "23:00", "00:00", "01:00", "02:00", "03:00", "04:00", "05:00", "06:00"]

  /** The class of one hour: by day 1 below 2 m/s, 2 up to 5 m/s, 3 above; by night 5 below
      3 m/s, 6 above. Classes 4 and 7 are never given. */
  function StabilityClass(night: bool, speed: real): (c: int)
    ensures c in {1, 2, 3, 5, 6}
    ensures night <==> c >= 5
    ensures !night ==> (c == 1 <==> speed < 2.0) && (c == 3 <==> speed >= 5.0)
    ensures night ==> (c == 5 <==> speed < 3.0)
  {
    if !night then
      if speed < 2.0 then 1
      else if speed < 3.0 then 2
      else if speed < 5.0 then 2
      else if speed < 6.0 then 3
      else 3
    else
      if speed < 2.0 then 5
      else if speed < 3.0 then 5
      else if speed < 5.0 then 6
      else if speed < 6.0 then 6
      else 6
  }

  /** More wind never gives a lower class, so never a less stable hour. */
  lemma StabilityMonotone(night: bool, slower: real, faster: real)
    requires slower <= faster
    ensures StabilityClass(night, slower) <= StabilityClass(night, faster)
  {
  }

  /** At the same wind speed a night hour is always more stable than a day hour. */
  lemma NightMoreStable(speed: real)
    ensures StabilityClass(true, speed) > StabilityClass(false, speed) + 1
  {
  }

  // ---------------------------------------------------------------------------
  // Times of day: `%H:%M`

  /** A number below 100 as two digits, zero-padded. */
  function TwoDigits(n: nat): (s: string)
    requires n < 100
    ensures |s| == 2 && IsDigits(s) && DigitsValue(s) == n
  {
    var s := [DigitChar(n / 10), DigitChar(n % 10)];
    assert s[..1] == [DigitChar(n / 10)];
    assert [DigitChar(n / 10)][..0] == [];
    assert DigitValue(DigitChar(n / 10)) == n / 10 && DigitValue(DigitChar(n % 10)) == n % 10;
    assert DigitsValue([DigitChar(n / 10)]) == n / 10;
    s
  }

  /** `strftime('%H:%M')`. */
  function ClockText(hour: nat, minute: nat): (s: string)
    requires hour < 24 && minute < 60
    ensures |s| == 5 && s[2] == ':'
  {
    TwoDigits(hour) + ":" + TwoDigits(minute)
  }

  /** One field of `%H` or `%M`: one or two digits, below the bound. */
  function ClockField(s: string, bound: nat): (r: Option<nat>)
    ensures r.Some? <==> 1 <= |s| <= 2 && IsDigits(s) && DigitsValue(s) < bound
    ensures r.Some? ==> r.value == DigitsValue(s)
  {
    if 1 <= |s| <= 2 && ParseNat(s).Some? && ParseNat(s).value < bound then ParseNat(s) else None
  }

  /** `to_datetime(s, format='%H:%M')`: hours and minutes separated by one colon. */
  function ParseClock(s: string): (r: Option<(nat, nat)>)
    ensures r.Some? ==> r.value.0 < 24 && r.value.1 < 60
    ensures r.Some? <==>
      && |Split(s, ':')| == 2
      && ClockField(Split(s, ':')[0], 24).Some? && ClockField(Split(s, ':')[1], 60).Some?
  {
    var parts := Split(s, ':');
    if |parts| != 2 then None
    else
      match (ClockField(parts[0], 24), ClockField(parts[1], 60))
      case (Some(h), Some(m)) => Some((h, m))
      case _ => None
  }

  /** Formatting a time and parsing it again gives the time back. */
  lemma ParseClockText(hour: nat, minute: nat)
    requires hour < 24 && minute < 60
    ensures ParseClock(ClockText(hour, minute)) == Some((hour, minute))
  {
    var hh := TwoDigits(hour);
    var mm := TwoDigits(minute);
    assert ':' !in hh by { assert forall k :: 0 <= k < |hh| ==> IsDigit(hh[k]); }
    assert ':' !in mm by { assert forall k :: 0 <= k < |mm| ==> IsDigit(mm[k]); }
    SplitAtSeparator(hh, mm, ':');
    SplitNoSeparator(mm, ':');
    assert ClockText(hour, minute) == hh + [':'] + mm;
  }

  /** The night hours are exactly the full hours from 21:00 to 06:00. */
  lemma NightClock(hour: nat, minute: nat)
    requires hour < 24 && minute < 60
    ensures ClockText(hour, minute) in NightHours <==> minute == 0 && (hour >= 21 || hour <= 6)
  {
    NightHoursAreClocks();
    if ClockText(hour, minute) in NightHours {
      var k :| 0 <= k < |NightHours| && NightHours[k] == ClockText(hour, minute);
      ClockTextInjective(hour, minute, NightHourOf(k), 0);
    }
    if minute == 0 && (hour >= 21 || hour <= 6) {
      var k := if hour >= 21 then hour - 21 else hour + 3;
      assert NightHourOf(k) == hour;
      assert NightHours[k] == ClockText(hour, minute);
    }
  }

  /** The hour of the `k`-th night entry. */
  function NightHourOf(k: nat): (h: nat)
    requires k < 10
    ensures h < 24
  {
    if k < 3 then 21 + k else k - 3
  }

  lemma NightHoursAreClocks()
    ensures |NightHours| == 10
    ensures forall k :: 0 <= k < 10 ==> NightHours[k] == ClockText(NightHourOf(k), 0)
  {
    assert DigitChar(0) == '0' && DigitChar(1) == '1' && DigitChar(2) == '2' && DigitChar(3) == '3';
    assert DigitChar(4) == '4' && DigitChar(5) == '5' && DigitChar(6) == '6';
  }

  /** Different times of day are written differently. */
  lemma ClockTextInjective(h1: nat, m1: nat, h2: nat, m2: nat)
    requires h1 < 24 && m1 < 60 && h2 < 24 && m2 < 60
    requires ClockText(h1, m1) == ClockText(h2, m2)
    ensures h1 == h2 && m1 == m2
  {
    var s := ClockText(h1, m1);
    assert s[0] == DigitChar(h1 / 10) == DigitChar(h2 / 10);
    assert s[1] == DigitChar(h1 % 10) == DigitChar(h2 % 10);
    assert s[3] == DigitChar(m1 / 10) == DigitChar(m2 / 10);
    assert s[4] == DigitChar(m1 % 10) == DigitChar(m2 % 10);
  }

  // ---------------------------------------------------------------------------
  // Cell conversions

  /** `.str.replace(from, to)` on one cell of a text column: text is rewritten, anything else
      (a number among text, `NaN`) comes out `NaN`. */
  function StrReplaceCell(c: Cell, from: char, to: char): (r: Cell)
    ensures c.Txt? ==> r == Txt(ReplaceChar(c.s, from, to))
    ensures !c.Txt? ==> r == Missing
  {
    match c
    case Txt(s) => Txt(ReplaceChar(s, from, to))
    case _ => Missing
  }

  /** `astype(float)` on one cell. */
  function FloatCell(c: Cell): (r: Result<Cell>)
    ensures c.Txt? ==> (r.Ok? <==> ParseDecimal(c.s).Some?)
    ensures c.Txt? && r.Ok? ==> r.value == Num(ParseDecimal(c.s).value)
    ensures c.Num? || c.Missing? ==> r == Ok(c)
    ensures c.Int? ==> r == Ok(Num(c.n as real))
    ensures c.Stamp? ==> r.Err?
  {
    match c
    case Txt(s) => if ParseDecimal(s).Some? then Ok(Num(ParseDecimal(s).value)) else Err(ValueError(s))
    case Num(_) => Ok(c)
    case Int(n) => Ok(Num(n as real))
    case Stamp(_, _) => Err(TypeError("Timestamp"))
    case Missing => Ok(Missing)
  }

  /** One cell of `change_comma_to_dot`: the decimal comma made a point, then read as a float. */
  function DecimalCell(c: Cell): (r: Result<Cell>)
    ensures r.Ok? ==> r.value.Num? || r.value.Missing?
    ensures c.Txt? ==> (r.Ok? <==> ParseDecimal(ReplaceChar(c.s, ',', '.')).Some?)
    ensures c.Txt? && r.Ok? ==> r.value == Num(ParseDecimal(ReplaceChar(c.s, ',', '.')).value)
    ensures !c.Txt? ==> r == Ok(Missing)
  {
    FloatCell(StrReplaceCell(c, ',', '.'))
  }

  /** A Spanish decimal such as `3,5` is read as the number it denotes. */
  lemma DecimalCommaReading(whole: string, fraction: string)
    requires |whole| > 0 && IsDigits(whole) && |fraction| > 0 && IsDigits(fraction)
    ensures DecimalCell(Txt(whole + "," + fraction))
      == Ok(Num(DecimalValue(whole, fraction)))
  {
    assert ',' !in whole by { assert forall k :: 0 <= k < |whole| ==> IsDigit(whole[k]); }
    assert ',' !in fraction by { assert forall k :: 0 <= k < |fraction| ==> IsDigit(fraction[k]); }
    ReplaceOne(whole, fraction, ',', '.');
    assert whole + "," + fraction == whole + [','] + fraction;
    PointDecimal(whole, fraction);
  }

  /** Replacing the one separator between two pieces that lack it. */
  lemma ReplaceOne(a: string, b: string, from: char, to: char)
    requires from !in a && from !in b
    ensures ReplaceChar(a + [from] + b, from, to) == a + [to] + b
  {
    var s := a + [from] + b;
    var t := a + [to] + b;
    var r := ReplaceChar(s, from, to);
    forall k | 0 <= k < |s|
      ensures r[k] == t[k]
    {
      if k < |a| {
        assert s[k] == a[k] == t[k];
      } else if k > |a| {
        assert s[k] == b[k - |a| - 1] == t[k];
      }
    }
  }

  /** `float` on digits, a point and digits. */
  lemma PointDecimal(whole: string, fraction: string)
    requires |whole| > 0 && IsDigits(whole) && |fraction| > 0 && IsDigits(fraction)
    ensures ParseDecimal(whole + ['.'] + fraction)
      == Some(DecimalValue(whole, fraction))
  {
    var t := whole + ['.'] + fraction;
    assert t[0] == whole[0] && IsDigit(t[0]);
    assert t[|t| - 1] == fraction[|fraction| - 1] && IsDigit(t[|t| - 1]);
    StripUnchanged(t);
    assert !(t[0] == '-' || t[0] == '+');
    UnsignedPointDecimal(whole, fraction);
  }

  lemma UnsignedPointDecimal(whole: string, fraction: string)
    requires |whole| > 0 && IsDigits(whole) && |fraction| > 0 && IsDigits(fraction)
    ensures ParseUnsignedDecimal(whole + ['.'] + fraction)
      == Some(DecimalValue(whole, fraction))
  {
    assert '.' !in whole by { assert forall k :: 0 <= k < |whole| ==> IsDigit(whole[k]); }
    assert '.' !in fraction by { assert forall k :: 0 <= k < |fraction| ==> IsDigit(fraction[k]); }
    SplitAtSeparator(whole, fraction, '.');
    SplitNoSeparator(fraction, '.');
    var parts := Split(whole + ['.'] + fraction, '.');
    assert |parts| == 2 && parts[0] == whole && parts[1] == fraction;
  }

  /** `astype(int)` on one cell: text is read as a whole number, a float is truncated, and
      `NaN` cannot be converted. */
  function IntCell(c: Cell): (r: Result<Cell>)
    ensures r.Ok? ==> r.value.Int?
    ensures c.Int? ==> r == Ok(c)
    ensures c.Num? ==> r == Ok(Int(Trunc(c.x)))
    ensures c.Txt? ==> (r.Ok? <==> ParseInt(c.s).Some?) && (r.Ok? ==> r.value == Int(ParseInt(c.s).value))
    ensures c.Missing? || c.Stamp? ==> r.Err?
  {
    match c
    case Txt(s) => if ParseInt(s).Some? then Ok(Int(ParseInt(s).value)) else Err(ValueError(s))
    case Num(x) => Ok(Int(Trunc(x)))
    case Int(_) => Ok(c)
    case Stamp(_, _) => Err(TypeError("Timestamp"))
    case Missing => Err(ValueError("cannot convert NaN to integer"))
  }

  /** `astype(str) + ":00"` on one hour cell. */
  function HourCell(c: Cell): (r: Result<Cell>)
    ensures c.Txt? ==> r == Ok(Txt(c.s + ":00"))
    ensures c.Int? ==> r == Ok(Txt(IntToString(c.n) + ":00"))
    ensures c.Missing? ==> r == Ok(Txt("nan:00"))
    ensures c.Num? || c.Stamp? ==> r.Err?
  {
    match c
    case Txt(s) => Ok(Txt(s + ":00"))
    case Int(n) => Ok(Txt(IntToString(n) + ":00"))
    case Missing => Ok(Txt("nan:00"))
    case Num(_) => Err(ValueError("not a time of day"))
    case Stamp(_, _) => Err(ValueError("not a time of day"))
  }

  /** `to_datetime(format='%H:%M')` on one cell: text must be a time of day, `NaN` stays `NaT`. */
  function StampCell(c: Cell): (r: Result<Cell>)
    ensures c.Txt? ==> (r.Ok? <==> ParseClock(c.s).Some?)
    ensures c.Txt? && r.Ok? ==> r.value == Stamp(ParseClock(c.s).value.0, ParseClock(c.s).value.1)
    ensures c.Stamp? || c.Missing? ==> r == Ok(c)
    ensures r.Ok? ==> r.value.Stamp? || r.value.Missing?
  {
    match c
    case Txt(s) =>
      (match ParseClock(s)
       case Some((h, m)) => Ok(Stamp(h, m))
       case None => Err(ValueError(s)))
    case Stamp(_, _) => Ok(c)
    case Missing => Ok(Missing)
    case _ => Err(ValueError("not a time of day"))
  }

  /** `.dt.strftime('%H:%M')` after `to_datetime`: a time of day written as `HH:MM`. */
  function ClockCell(c: Cell): (r: Result<Cell>)
    ensures r.Ok? ==> r.value.Missing? || (r.value.Txt? && exists h, m :: h < 24 && m < 60 && r.value.s == ClockText(h, m))
    ensures c.Stamp? && c.hour < 24 && c.minute < 60 ==> r == Ok(Txt(ClockText(c.hour, c.minute)))
    ensures c.Missing? ==> r == Ok(Missing)
  {
    var stamped :- StampCell(c);
    match stamped
    case Stamp(h, m) =>
      if h < 24 && m < 60 then Ok(Txt(ClockText(h, m))) else Err(ValueError("not a time of day"))
    case _ => Ok(Missing)
  }

  // ---------------------------------------------------------------------------
  // change_comma_to_dot

  /** The columns written with a decimal comma. */
  const CommaColumns: seq<string> := ["Veloc.", "Veloc.máx.", "Precip.", "Temp."]

  /** A comma column that converts: it has `.str`, and every cell reads as a float. */
  predicate CommaReadable(cells: seq<Cell>) {
    StrDtype(cells) && forall i :: 0 <= i < |cells| ==> DecimalCell(cells[i]).Ok?
  }

  /** One column of `change_comma_to_dot`: a comma column is converted cell by cell (and a
      numeric one has no `.str`), any other column is returned as it is. */
  function ConvertNamed(column: (string, seq<Cell>)): (r: Result<seq<Cell>>)
    ensures column.0 !in CommaColumns ==> r == Ok(column.1)
    ensures column.0 in CommaColumns ==> (r.Ok? <==> CommaReadable(column.1))
    ensures column.0 in CommaColumns && r.Ok? ==>
      && |r.value| == |column.1|
      && forall i :: 0 <= i < |column.1| ==> r.value[i] == DecimalCell(column.1[i]).value
  {
    var (name, cells) := column;
    if name !in CommaColumns then Ok(cells)
    else if !StrDtype(cells) then Err(AttributeError(name))
    else MapAll(cells, DecimalCell)
  }

  /** The frame's columns paired with their names, left to right. */
  function NamedColumns(f: Frame): (pairs: seq<(string, seq<Cell>)>)
    requires WellFormed(f)
    ensures |pairs| == |f.columns|
    ensures forall j :: 0 <= j < |f.columns| ==> pairs[j] == (f.columns[j], f.data[j])
  {
    seq(|f.columns|, j requires 0 <= j < |f.columns| => (f.columns[j], f.data[j]))
  }

  /** `change_comma_to_dot`: every comma column present is read as floats, every other column
      is left alone; a comma column without text has no `.str` and one unreadable cell stops
      the conversion. The frame comes from `read_csv`, which never repeats a column name. */
  function ChangeCommaToDot(f: Frame): (r: Result<Frame>)
    requires WellFormed(f) && Distinct(f.columns)
    ensures r.Ok? <==> forall n :: n in f.columns && n in CommaColumns ==> CommaReadable(Column(f, n))
    ensures r.Ok? ==> WellFormed(r.value) && r.value.columns == f.columns && r.value.height == f.height
    ensures r.Ok? ==> forall n :: n in f.columns && n in CommaColumns ==>
      forall i :: 0 <= i < f.height ==>
        && Column(r.value, n)[i] == DecimalCell(Column(f, n)[i]).value
        && (Column(r.value, n)[i].Num? || Column(r.value, n)[i].Missing?)
    ensures r.Ok? ==> forall n :: n in f.columns && n !in CommaColumns ==> Column(r.value, n) == Column(f, n)
  {
    ConvertedOk(f);
    var data :- MapAll(NamedColumns(f), ConvertNamed);
    ConvertedData(f);
    Ok(Frame(f.columns, data, f.height))
  }

  /** The conversion succeeds exactly when every comma column is readable. */
  lemma ConvertedOk(f: Frame)
    requires WellFormed(f) && Distinct(f.columns)
    ensures MapAll(NamedColumns(f), ConvertNamed).Ok? <==>
      forall n :: n in f.columns && n in CommaColumns ==> CommaReadable(Column(f, n))
  {
    var pairs := NamedColumns(f);
    if MapAll(pairs, ConvertNamed).Ok? {
      forall n | n in f.columns && n in CommaColumns
        ensures CommaReadable(Column(f, n))
      {
        var j := IndexOf(f.columns, n).value;
        assert ConvertNamed(pairs[j]).Ok?;
      }
    } else {
      var j :| 0 <= j < |pairs| && ConvertNamed(pairs[j]).Err?;
      var n := f.columns[j];
      assert forall k :: 0 <= k < j ==> f.columns[k] != n;
      IndexOfIs(f.columns, n, j);
      assert n in CommaColumns && !CommaReadable(Column(f, n));
    }
  }

  /** Each converted column is the conversion of the named column, or the column itself. */
  lemma ConvertedData(f: Frame)
    requires WellFormed(f) && MapAll(NamedColumns(f), ConvertNamed).Ok?
    ensures forall n :: n in f.columns ==>
      var data := MapAll(NamedColumns(f), ConvertNamed).value;
      var j := IndexOf(f.columns, n).value;
      && |data| == |f.columns|
      && (n !in CommaColumns ==> data[j] == Column(f, n))
      && (n in CommaColumns ==> |data[j]| == f.height)
      && (n in CommaColumns ==> forall i :: 0 <= i < f.height ==> data[j][i] == DecimalCell(Column(f, n)[i]).value)
  {
    var pairs := NamedColumns(f);
    forall n | n in f.columns
      ensures ConvertNamed(pairs[IndexOf(f.columns, n).value]).Ok?
      ensures pairs[IndexOf(f.columns, n).value] == (n, Column(f, n))
    {
    }
  }

  // ---------------------------------------------------------------------------
  // rename_df_columns

  function RenameColumn(name: string): string {
    if name == "FECHA" then "fecha" else if name == "HORA" then "hora" else name
  }

  /** `rename_df_columns`: `FECHA` becomes `fecha` and `HORA` becomes `hora`; no other name and
      no cell changes. */
  function RenameColumns(f: Frame): (r: Frame)
    ensures r.data == f.data && r.height == f.height && |r.columns| == |f.columns|
    ensures forall j :: 0 <= j < |f.columns| ==>
      && (f.columns[j] == "FECHA" ==> r.columns[j] == "fecha")
      && (f.columns[j] == "HORA" ==> r.columns[j] == "hora")
      && (f.columns[j] != "FECHA" && f.columns[j] != "HORA" ==> r.columns[j] == f.columns[j])
    ensures "FECHA" !in r.columns && "HORA" !in r.columns
    ensures WellFormed(f) ==> WellFormed(r)
  {
    Frame(seq(|f.columns|, j requires 0 <= j < |f.columns| => RenameColumn(f.columns[j])), f.data, f.height)
  }

  /** Renaming twice is renaming once. */
  lemma RenameColumnsIdempotent(f: Frame)
    ensures RenameColumns(RenameColumns(f)) == RenameColumns(f)
  {
    var once := RenameColumns(f);
    assert RenameColumns(once).columns == once.columns;
  }

  /** A column whose name the renaming neither reads nor writes keeps its cells. */
  lemma RenameKeepsColumn(f: Frame, n: string)
    requires WellFormed(f) && n in f.columns && n !in ["FECHA", "HORA", "fecha", "hora"]
    ensures n in RenameColumns(f).columns
    ensures Column(RenameColumns(f), n) == Column(f, n)
  {
    var r := RenameColumns(f);
    var j := IndexOf(f.columns, n).value;
    forall k | 0 <= k < |f.columns|
      ensures r.columns[k] == n <==> f.columns[k] == n
    {
    }
    IndexOfIs(r.columns, n, j);
  }

  // ---------------------------------------------------------------------------
  // The string steps of process_weather_data

  /** Row `i` has no `NaN`. */
  predicate CompleteAt(f: Frame, i: nat)
    requires WellFormed(f) && i < f.height
  {
    forall j :: 0 <= j < |f.columns| ==> !f.data[j][i].Missing?
  }

  /** The rows among the first `n` without `NaN`, top to bottom. */
  function CompleteRows(f: Frame, n: nat): (kept: seq<nat>)
    requires WellFormed(f) && n <= f.height
    ensures forall t :: 0 <= t < |kept| ==> kept[t] < n && CompleteAt(f, kept[t])
    ensures forall a, b :: 0 <= a < b < |kept| ==> kept[a] < kept[b]
    ensures forall i :: 0 <= i < n && CompleteAt(f, i) ==> i in kept
  {
    if n == 0 then []
    else CompleteRows(f, n - 1) + (if CompleteAt(f, n - 1) then [n - 1] else [])
  }

  /** `dropna`: the rows without a missing cell, in order; every column keeps its name. */
  function DropNa(f: Frame): (r: Frame)
    requires WellFormed(f)
    ensures WellFormed(r) && r.columns == f.columns && r.height == |CompleteRows(f, f.height)| <= f.height
  {
    KeptBound(CompleteRows(f, f.height), f.height);
    SelectRows(f, CompleteRows(f, f.height))
  }

  /** The cells `dropna` keeps are those of the complete rows, none of them missing. */
  lemma DropNaCells(f: Frame)
    requires WellFormed(f)
    ensures forall n, t :: n in f.columns && 0 <= t < DropNa(f).height ==>
      && Column(DropNa(f), n)[t] == Column(f, n)[CompleteRows(f, f.height)[t]]
      && !Column(DropNa(f), n)[t].Missing?
  {
    var kept := CompleteRows(f, f.height);
    assert DropNa(f) == SelectRows(f, kept);
    forall n, t | n in f.columns && 0 <= t < |kept|
      ensures Column(SelectRows(f, kept), n)[t] == Column(f, n)[kept[t]]
      ensures !Column(SelectRows(f, kept), n)[t].Missing?
    {
      SelectedColumn(f, kept, n, t);
      assert CompleteAt(f, kept[t]);
      assert !f.data[IndexOf(f.columns, n).value][kept[t]].Missing?;
    }
  }

  /** A strictly increasing list of positions below `n` has at most `n` entries. */
  lemma {:induction false} KeptBound(kept: seq<nat>, n: nat)
    requires forall t :: 0 <= t < |kept| ==> kept[t] < n
    requires forall a, b :: 0 <= a < b < |kept| ==> kept[a] < kept[b]
    ensures |kept| <= n
    decreases n
  {
    if |kept| > 0 {
      var front := kept[..|kept| - 1];
      assert forall t :: 0 <= t < |front| ==> front[t] < kept[|kept| - 1] <= n - 1;
      KeptBound(front, n - 1);
    }
  }

  /** `fecha.str.replace('/', '.')`: a date `dd/mm/yyyy` becomes `dd.mm.yyyy`. */
  function DateWithDots(f: Frame): (r: Result<Frame>)
    requires WellFormed(f)
    ensures r.Ok? <==> "fecha" in f.columns && Count(f.columns, "fecha") == 1 && StrDtype(Column(f, "fecha"))
    ensures r.Ok? ==>
      && WellFormed(r.value) && r.value.columns == f.columns && r.value.height == f.height
      && (forall i :: 0 <= i < f.height ==> Column(r.value, "fecha")[i] == StrReplaceCell(Column(f, "fecha")[i], '/', '.'))
      && (forall i :: 0 <= i < f.height ==> !Column(r.value, "fecha")[i].Txt? || '/' !in Column(r.value, "fecha")[i].s)
      && (forall n :: n in f.columns && n != "fecha" ==> Column(r.value, n) == Column(f, n))
  {
    var r := StrMapColumn(f, "fecha", c => Ok(StrReplaceCell(c, '/', '.')));
    assert r.Ok? ==> forall i :: 0 <= i < f.height ==> !Column(r.value, "fecha")[i].Txt? || '/' !in Column(r.value, "fecha")[i].s by {
      if r.Ok? {
        forall i | 0 <= i < f.height && Column(r.value, "fecha")[i].Txt?
          ensures '/' !in Column(r.value, "fecha")[i].s
        {
          var t := Column(r.value, "fecha")[i].s;
          assert forall k :: 0 <= k < |t| ==> t[k] != '/';
        }
      }
    }
    r
  }

  /** `hora.astype(str) + ":00"`: an hour becomes an `H:MM` time. */
  function HourWithMinutes(f: Frame): (r: Result<Frame>)
    requires WellFormed(f)
    ensures r.Ok? <==>
      && "hora" in f.columns && Count(f.columns, "hora") == 1
      && forall i :: 0 <= i < f.height ==> HourCell(Column(f, "hora")[i]).Ok?
    ensures r.Ok? ==>
      && WellFormed(r.value) && r.value.columns == f.columns && r.value.height == f.height
      && (forall i :: 0 <= i < f.height ==> Column(r.value, "hora")[i] == HourCell(Column(f, "hora")[i]).value)
      && (forall n :: n in f.columns && n != "hora" ==> Column(r.value, n) == Column(f, n))
  {
    MapColumn(f, "hora", HourCell)
  }

  /** `Direc.astype(int)`: wind directions as whole degrees. */
  function DirectionToInt(f: Frame): (r: Result<Frame>)
    requires WellFormed(f)
    ensures r.Ok? <==>
      && "Direc." in f.columns && Count(f.columns, "Direc.") == 1
      && forall i :: 0 <= i < f.height ==> IntCell(Column(f, "Direc.")[i]).Ok?
    ensures r.Ok? ==>
      && WellFormed(r.value) && r.value.columns == f.columns && r.value.height == f.height
      && (forall i :: 0 <= i < f.height ==> Column(r.value, "Direc.")[i].Int?)
      && (forall n :: n in f.columns && n != "Direc." ==> Column(r.value, n) == Column(f, n))
  {
    MapColumn(f, "Direc.", IntCell)
  }

  /** `to_datetime(hora, format='%H:%M')`: hours become times of day; no text is left. */
  function HourToStamp(f: Frame): (r: Result<Frame>)
    requires WellFormed(f)
    ensures r.Ok? <==>
      && "hora" in f.columns && Count(f.columns, "hora") == 1
      && forall i :: 0 <= i < f.height ==> StampCell(Column(f, "hora")[i]).Ok?
    ensures r.Ok? ==>
      && WellFormed(r.value) && r.value.columns == f.columns && r.value.height == f.height
      && (forall i :: 0 <= i < f.height ==> Column(r.value, "hora")[i].Stamp? || Column(r.value, "hora")[i].Missing?)
      && (forall n :: n in f.columns && n != "hora" ==> Column(r.value, n) == Column(f, n))
  {
    MapColumn(f, "hora", StampCell)
  }

  /** `to_datetime(hora, format='%H:%M').dt.strftime('%H:%M')`: every hour as `HH:MM` text. */
  function HourToText(f: Frame): (r: Result<Frame>)
    requires WellFormed(f)
    ensures r.Ok? <==>
      && "hora" in f.columns && Count(f.columns, "hora") == 1
      && forall i :: 0 <= i < f.height ==> ClockCell(Column(f, "hora")[i]).Ok?
    ensures r.Ok? ==>
      && WellFormed(r.value) && r.value.columns == f.columns && r.value.height == f.height
      && (forall i :: 0 <= i < f.height ==> Column(r.value, "hora")[i] == ClockCell(Column(f, "hora")[i]).value)
      && (forall n :: n in f.columns && n != "hora" ==> Column(r.value, n) == Column(f, n))
  {
    MapColumn(f, "hora", ClockCell)
  }

  /** `stability_class.astype(int)`: a row left without a class cannot be converted. */
  function StabilityToInt(f: Frame): (r: Result<Frame>)
    requires WellFormed(f)
    ensures r.Ok? <==>
      && "stability_class" in f.columns && Count(f.columns, "stability_class") == 1
      && forall i :: 0 <= i < f.height ==> IntCell(Column(f, "stability_class")[i]).Ok?
    ensures r.Ok? ==>
      && WellFormed(r.value) && r.value.columns == f.columns && r.value.height == f.height
      && (forall i :: 0 <= i < f.height ==> Column(r.value, "stability_class")[i] == IntCell(Column(f, "stability_class")[i]).value)
      && (forall n :: n in f.columns && n != "stability_class" ==> Column(r.value, n) == Column(f, n))
  {
    MapColumn(f, "stability_class", IntCell)
  }

  // ---------------------------------------------------------------------------
  // create_stability_class

  /** An hour `create_stability_class` counts as night: text equal to a night hour. A
      `Timestamp` never equals a string, so a parsed time is never night. */
  predicate IsNight(hora: Cell) {
    hora.Txt? && hora.s in NightHours
  }

  predicate IsNumber(c: Cell) {
    c.Num? || c.Int?
  }

  function ValueOf(c: Cell): real
    requires IsNumber(c)
  {
    if c.Num? then c.x else c.n as real
  }

  /** The class cell of one row: the hour's class when the speed is a number; when it is
      `NaN` every comparison is false and the cell stays as it was; anything else cannot be
      compared with a number. */
  function ClassCell(hora: Cell, speed: Cell, before: Cell): (r: Result<Cell>)
    ensures IsNumber(speed) ==> r == Ok(Int(StabilityClass(IsNight(hora), ValueOf(speed))))
    ensures speed.Missing? ==> r == Ok(before)
    ensures speed.Txt? || speed.Stamp? ==> r.Err?
  {
    match speed
    case Num(x) => Ok(Int(StabilityClass(IsNight(hora), x)))
    case Int(n) => Ok(Int(StabilityClass(IsNight(hora), n as real)))
    case Missing => Ok(before)
    case _ => Err(TypeError("'<' not supported between the speed and int"))
  }

  /** The cells one row of the loop reads: hour, speed and the class so far. */
  function ClassInputs(g: Frame): (t: seq<(Cell, Cell, Cell)>)
    requires WellFormed(g) && "hora" in g.columns && "Veloc." in g.columns && "stability_class" in g.columns
    ensures |t| == g.height
    ensures forall i :: 0 <= i < g.height ==>
      t[i] == (Column(g, "hora")[i], Column(g, "Veloc.")[i], Column(g, "stability_class")[i])
  {
    seq(g.height, i requires 0 <= i < g.height =>
      (Column(g, "hora")[i], Column(g, "Veloc.")[i], Column(g, "stability_class")[i]))
  }

  function ClassOf(t: (Cell, Cell, Cell)): Result<Cell> {
    ClassCell(t.0, t.1, t.2)
  }

  /** `create_stability_class`: every row with a numeric speed gets the class of its hour and
      speed in `stability_class`, which is added on the right when absent; a row with a `NaN`
      speed keeps what it had. The loop reads `hora` and `Veloc.` only when there is a row. */
  function CreateStabilityClass(f: Frame): (r: Result<Frame>)
    requires WellFormed(f)
    ensures r.Ok? <==>
      || f.height == 0
      || ("hora" in f.columns && "Veloc." in f.columns
          && forall i :: 0 <= i < f.height ==> !Column(f, "Veloc.")[i].Txt? && !Column(f, "Veloc.")[i].Stamp?)
    ensures r.Ok? ==> WellFormed(r.value) && r.value.height == f.height
    ensures r.Ok? ==> forall n :: n in f.columns ==> n in r.value.columns
    ensures r.Ok? ==> forall n :: n in f.columns && n != "stability_class" ==> Column(r.value, n) == Column(f, n)
    ensures r.Ok? && f.height > 0 ==>
      "stability_class" in r.value.columns && "hora" in f.columns && "Veloc." in f.columns
    ensures r.Ok? && f.height > 0 ==> forall i :: 0 <= i < f.height && IsNumber(Column(f, "Veloc.")[i]) ==>
      Column(r.value, "stability_class")[i]
        == Int(StabilityClass(IsNight(Column(f, "hora")[i]), ValueOf(Column(f, "Veloc.")[i])))
    ensures r.Ok? && f.height > 0 ==> forall i :: 0 <= i < f.height && Column(f, "Veloc.")[i].Missing? ==>
      Column(r.value, "stability_class")[i]
        == (if "stability_class" in f.columns then Column(f, "stability_class")[i] else Missing)
  {
    if f.height == 0 then Ok(f)
    else if "hora" !in f.columns then Err(KeyError("hora"))
    else if "Veloc." !in f.columns then Err(KeyError("Veloc."))
    else
      var g := if "stability_class" in f.columns then f else AddColumn(f, "stability_class");
      var cells :- MapAll(ClassInputs(g), ClassOf);
      Ok(SetColumn(g, "stability_class", cells))
  }

  // ---------------------------------------------------------------------------
  // create_met_file

  /** The columns the met file does without. */
  const MetDropped: seq<string> := ["H.Rel.", "Veloc.máx.", "Precip.", "Temp.", "R.Sol.", "Pres."]

  /** `create_met_file`: the six columns GRAL does not read are dropped, all of them or, when
      one is absent, none (`KeyError`); every other column keeps its cells. */
  function CreateMetFile(f: Frame): (r: Result<Frame>)
    requires WellFormed(f)
    ensures r.Ok? <==> forall d :: d in MetDropped ==> d in f.columns
    ensures r.Ok? ==> WellFormed(r.value) && r.value.height == f.height
    ensures r.Ok? ==> forall n :: n in r.value.columns <==> n in f.columns && n !in MetDropped
    ensures r.Ok? ==> forall n :: n in f.columns && n !in MetDropped ==> Column(r.value, n) == Column(f, n)
  {
    DropColumns(f, MetDropped)
  }

  // ---------------------------------------------------------------------------
  // process_weather_data

  /** The cleaning steps of `process_weather_data`: decimal commas, renaming, `dropna`. */
  function CleanWeather(raw: Frame): (r: Result<Frame>)
    requires WellFormed(raw) && Distinct(raw.columns)
    ensures r.Ok? ==> WellFormed(r.value)
    ensures r.Ok? && "Veloc." in r.value.columns ==>
      forall i :: 0 <= i < r.value.height ==> Column(r.value, "Veloc.")[i].Num?
  {
    var converted :- ChangeCommaToDot(raw);
    CleanedSpeeds(converted);
    Ok(DropNa(RenameColumns(converted)))
  }

  /** A speed column of numbers and `NaN` holds only numbers once renamed and `dropna`ed. */
  lemma CleanedSpeeds(converted: Frame)
    requires WellFormed(converted)
    requires "Veloc." in converted.columns ==> forall i :: 0 <= i < converted.height ==>
      Column(converted, "Veloc.")[i].Num? || Column(converted, "Veloc.")[i].Missing?
    ensures "Veloc." in DropNa(RenameColumns(converted)).columns ==>
      forall i :: 0 <= i < DropNa(RenameColumns(converted)).height ==>
        Column(DropNa(RenameColumns(converted)), "Veloc.")[i].Num?
  {
    var renamed := RenameColumns(converted);
    var complete := DropNa(renamed);
    var v := "Veloc.";
    if v in complete.columns {
      var j :| 0 <= j < |renamed.columns| && renamed.columns[j] == v;
      assert converted.columns[j] == v;
      RenameKeepsColumn(converted, v);
      DropNaCells(renamed);
      forall i | 0 <= i < complete.height
        ensures Column(complete, v)[i].Num?
      {
        var m := CompleteRows(renamed, renamed.height)[i];
        assert Column(complete, v)[i] == Column(converted, v)[m];
      }
    }
  }

  /** The typing steps of `process_weather_data`: the date with dots, the hour as a time,
      whole-degree directions and the time parsed. Sorting by date and time is not modelled
      (rows stay in file order), nor is the date check of `to_datetime`. */
  function TypeColumns(f: Frame): (r: Result<Frame>)
    requires WellFormed(f)
    ensures r.Ok? ==> WellFormed(r.value) && r.value.columns == f.columns && r.value.height == f.height
    ensures r.Ok? ==> forall n :: n in f.columns && n != "fecha" && n != "hora" && n != "Direc." ==>
      Column(r.value, n) == Column(f, n)
    ensures r.Ok? ==> "hora" in f.columns && forall i :: 0 <= i < f.height ==>
      Column(r.value, "hora")[i].Stamp? || Column(r.value, "hora")[i].Missing?
  {
    var dated :- DateWithDots(f);
    var timed :- HourWithMinutes(dated);
    var directed :- DirectionToInt(timed);
    HourToStamp(directed)
  }

  /** Every step before the stability classes. */
  function PrepareWeather(raw: Frame): (r: Result<Frame>)
    requires WellFormed(raw) && Distinct(raw.columns)
    ensures r.Ok? ==> WellFormed(r.value) && "hora" in r.value.columns
    ensures r.Ok? ==> forall i :: 0 <= i < r.value.height ==>
      Column(r.value, "hora")[i].Stamp? || Column(r.value, "hora")[i].Missing?
    ensures r.Ok? && "Veloc." in r.value.columns ==>
      forall i :: 0 <= i < r.value.height ==> Column(r.value, "Veloc.")[i].Num?
  {
    var complete :- CleanWeather(raw);
    TypeColumns(complete)
  }

  /** `create_stability_class` followed by `stability_class.astype(int)`. */
  function ClassifyRows(f: Frame): (r: Result<Frame>)
    requires WellFormed(f)
    ensures r.Ok? ==> WellFormed(r.value) && r.value.height == f.height && "stability_class" in r.value.columns
    ensures r.Ok? ==> forall n :: n in f.columns ==> n in r.value.columns
    ensures r.Ok? ==> forall n :: n in f.columns && n != "stability_class" ==> Column(r.value, n) == Column(f, n)
    ensures r.Ok? && f.height > 0 ==> "hora" in f.columns && "Veloc." in f.columns
    ensures r.Ok? && f.height > 0 ==> forall i :: 0 <= i < f.height && IsNumber(Column(f, "Veloc.")[i]) ==>
      Column(r.value, "stability_class")[i]
        == Int(StabilityClass(IsNight(Column(f, "hora")[i]), ValueOf(Column(f, "Veloc.")[i])))
  {
    var classified :- CreateStabilityClass(f);
    StabilityToInt(classified)
  }

  /** The met file keeps the hour, the speed and the class. */
  lemma MetKeepsClassInputs()
    ensures "hora" !in MetDropped && "Veloc." !in MetDropped && "stability_class" !in MetDropped
  {
  }

  /** The steps of `process_weather_data` after the hours were parsed, in the order written:
      classes, integer classes, hours back to text, the met-file columns. */
  function FinishAsWritten(stamped: Frame): (r: Result<Frame>)
    requires WellFormed(stamped)
    ensures r.Ok? ==> WellFormed(r.value)
  {
    var classified :- ClassifyRows(stamped);
    var formatted :- HourToText(classified);
    CreateMetFile(formatted)
  }

  /** `process_weather_data` after reading the file, step for step; both frames it returns
      are the same object, cut down to the met-file columns. The classes are computed while
      the hours are parsed times, and only then are the hours written back as text. */
  function ProcessWeatherData(raw: Frame): (r: Result<(Frame, Frame)>)
    requires WellFormed(raw) && Distinct(raw.columns)
    ensures r.Ok? ==> r.value.0 == r.value.1 && WellFormed(r.value.0)
    ensures r.Ok? ==> forall d :: d in MetDropped ==> d !in r.value.0.columns
  {
    var stamped :- PrepareWeather(raw);
    var met :- FinishAsWritten(stamped);
    Ok((met, met))
  }

  /** Classes computed on parsed times are day classes: no time equals a night-hour string. */
  lemma StampedRowsAreDay(f: Frame)
    requires WellFormed(f) && ClassifyRows(f).Ok? && f.height > 0
    requires forall i :: 0 <= i < f.height ==> Column(f, "hora")[i].Stamp? || Column(f, "hora")[i].Missing?
    requires forall i :: 0 <= i < f.height ==> Column(f, "Veloc.")[i].Num?
    ensures forall i :: 0 <= i < f.height ==>
      Column(ClassifyRows(f).value, "stability_class")[i] == Int(StabilityClass(false, Column(f, "Veloc.")[i].x))
    ensures forall i :: 0 <= i < f.height ==> 1 <= Column(ClassifyRows(f).value, "stability_class")[i].n <= 3
  {
    forall i | 0 <= i < f.height
      ensures Column(ClassifyRows(f).value, "stability_class")[i] == Int(StabilityClass(false, Column(f, "Veloc.")[i].x))
    {
      assert !IsNight(Column(f, "hora")[i]);
      assert IsNumber(Column(f, "Veloc.")[i]);
    }
  }

  /** The steps after parsing, as written, class every row of parsed times as day. */
  lemma FinishAsWrittenIsDay(stamped: Frame)
    requires WellFormed(stamped) && FinishAsWritten(stamped).Ok?
    requires "hora" in stamped.columns && forall i :: 0 <= i < stamped.height ==>
      Column(stamped, "hora")[i].Stamp? || Column(stamped, "hora")[i].Missing?
    requires "Veloc." in stamped.columns ==> forall i :: 0 <= i < stamped.height ==> Column(stamped, "Veloc.")[i].Num?
    ensures "stability_class" in FinishAsWritten(stamped).value.columns
    ensures FinishAsWritten(stamped).value.height == stamped.height
    ensures stamped.height > 0 ==> "Veloc." in FinishAsWritten(stamped).value.columns
    ensures forall i :: 0 <= i < FinishAsWritten(stamped).value.height ==>
      var out := FinishAsWritten(stamped).value;
      && Column(out, "Veloc.")[i].Num?
      && Column(out, "stability_class")[i] == Int(StabilityClass(false, Column(out, "Veloc.")[i].x))
      && 1 <= Column(out, "stability_class")[i].n <= 3
  {
    var classified := ClassifyRows(stamped).value;
    var formatted := HourToText(classified).value;
    var out := CreateMetFile(formatted).value;
    assert out == FinishAsWritten(stamped).value;
    var sc := "stability_class";
    var v := "Veloc.";
    MetKeepsClassInputs();
    assert Column(out, sc) == Column(formatted, sc);
    if out.height > 0 {
      assert Column(out, v) == Column(formatted, v) == Column(classified, v) == Column(stamped, v);
      StampedRowsAreDay(stamped);
    }
  }

  /** As written, every hour is classed as day, whatever its time: a night hour with a
      light wind gets class 1 where 5 was meant. */
  lemma ProcessWeatherNeverNight(raw: Frame)
    requires WellFormed(raw) && Distinct(raw.columns) && ProcessWeatherData(raw).Ok?
    ensures "stability_class" in ProcessWeatherData(raw).value.0.columns
    ensures ProcessWeatherData(raw).value.0.height > 0 ==> "Veloc." in ProcessWeatherData(raw).value.0.columns
    ensures forall i :: 0 <= i < ProcessWeatherData(raw).value.0.height ==>
      var out := ProcessWeatherData(raw).value.0;
      && Column(out, "Veloc.")[i].Num?
      && Column(out, "stability_class")[i] == Int(StabilityClass(false, Column(out, "Veloc.")[i].x))
      && 1 <= Column(out, "stability_class")[i].n <= 3
  {
    var stamped := PrepareWeather(raw).value;
    assert ProcessWeatherData(raw).value.0 == FinishAsWritten(stamped).value;
    FinishAsWrittenIsDay(stamped);
  }

  /** The steps after parsing in the intended order: hours back to text first, then the
      classes, so that the night-hour comparison sees text. */
  function FinishIntended(stamped: Frame): (r: Result<Frame>)
    requires WellFormed(stamped)
    ensures r.Ok? ==> WellFormed(r.value)
  {
    var formatted :- HourToText(stamped);
    var classified :- ClassifyRows(formatted);
    CreateMetFile(classified)
  }

  /** `process_weather_data` with the classes computed once the hours are `HH:MM` text
      again. */
  function ProcessWeatherDataIntended(raw: Frame): (r: Result<(Frame, Frame)>)
    requires WellFormed(raw) && Distinct(raw.columns)
    ensures r.Ok? ==> r.value.0 == r.value.1 && WellFormed(r.value.0)
    ensures r.Ok? ==> forall d :: d in MetDropped ==> d !in r.value.0.columns
  {
    var stamped :- PrepareWeather(raw);
    var met :- FinishIntended(stamped);
    Ok((met, met))
  }

  /** In the intended order each row is classed by its own hour text and speed. */
  lemma FinishIntendedClasses(stamped: Frame)
    requires WellFormed(stamped) && FinishIntended(stamped).Ok?
    requires "Veloc." in stamped.columns ==> forall i :: 0 <= i < stamped.height ==> Column(stamped, "Veloc.")[i].Num?
    ensures "stability_class" in FinishIntended(stamped).value.columns
    ensures FinishIntended(stamped).value.height > 0 ==>
      "Veloc." in FinishIntended(stamped).value.columns && "hora" in FinishIntended(stamped).value.columns
    ensures forall i :: 0 <= i < FinishIntended(stamped).value.height ==>
      var out := FinishIntended(stamped).value;
      && Column(out, "Veloc.")[i].Num?
      && Column(out, "stability_class")[i]
        == Int(StabilityClass(IsNight(Column(out, "hora")[i]), Column(out, "Veloc.")[i].x))
  {
    var formatted := HourToText(stamped).value;
    var classified := ClassifyRows(formatted).value;
    var out := CreateMetFile(classified).value;
    assert out == FinishIntended(stamped).value;
    var sc := "stability_class";
    var v := "Veloc.";
    MetKeepsClassInputs();
    assert Column(out, sc) == Column(classified, sc);
    if out.height > 0 {
      assert Column(out, v) == Column(classified, v) == Column(formatted, v) == Column(stamped, v);
      assert Column(out, "hora") == Column(classified, "hora") == Column(formatted, "hora");
      forall i | 0 <= i < out.height
        ensures Column(out, sc)[i] == Int(StabilityClass(IsNight(Column(out, "hora")[i]), Column(out, v)[i].x))
      {
        assert IsNumber(Column(formatted, v)[i]);
      }
    }
  }

  /** With the corrected order, each row's class is the one of its own hour and speed. */
  lemma ProcessWeatherIntendedClasses(raw: Frame)
    requires WellFormed(raw) && Distinct(raw.columns) && ProcessWeatherDataIntended(raw).Ok?
    ensures "stability_class" in ProcessWeatherDataIntended(raw).value.0.columns
    ensures ProcessWeatherDataIntended(raw).value.0.height > 0 ==>
      "Veloc." in ProcessWeatherDataIntended(raw).value.0.columns
      && "hora" in ProcessWeatherDataIntended(raw).value.0.columns
    ensures forall i :: 0 <= i < ProcessWeatherDataIntended(raw).value.0.height ==>
      var out := ProcessWeatherDataIntended(raw).value.0;
      && Column(out, "Veloc.")[i].Num?
      && Column(out, "stability_class")[i]
        == Int(StabilityClass(IsNight(Column(out, "hora")[i]), Column(out, "Veloc.")[i].x))
  {
    var stamped := PrepareWeather(raw).value;
    assert ProcessWeatherDataIntended(raw).value.0 == FinishIntended(stamped).value;
    FinishIntendedClasses(stamped);
  }

  /** With the corrected order, a row whose hour reads `HH:MM` gets a night class (5 or 6)
      exactly when it is a full hour from 21:00 to 06:00. */
  lemma ProcessWeatherIntendedNight(raw: Frame, i: nat, h: nat, m: nat)
    requires WellFormed(raw) && Distinct(raw.columns) && ProcessWeatherDataIntended(raw).Ok?
    requires i < ProcessWeatherDataIntended(raw).value.0.height && h < 24 && m < 60
    requires "hora" in ProcessWeatherDataIntended(raw).value.0.columns
    requires Column(ProcessWeatherDataIntended(raw).value.0, "hora")[i] == Txt(ClockText(h, m))
    ensures "stability_class" in ProcessWeatherDataIntended(raw).value.0.columns
    ensures Column(ProcessWeatherDataIntended(raw).value.0, "stability_class")[i].Int?
    ensures Column(ProcessWeatherDataIntended(raw).value.0, "stability_class")[i].n >= 5
      <==> m == 0 && (h >= 21 || h <= 6)
  {
    ProcessWeatherIntendedClasses(raw);
    NightClock(h, m);
  }
}
