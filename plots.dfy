/** The table-shaping side of the plotting helpers: `prep_for_plot` derives
    columns from the url, the user agent and the address; `plot_most_popular`
    counts the values of one column. The drawing itself is not modelled. */
module PlotFunctions {
  import opened Wrappers
  import opened Seqs
  import opened Text
  import opened Counting
  import opened Records

  // ------------------------------------------------------- split pieces

  /** Piece 0 of a split: the text before the first separator, or all of it. */
  lemma FirstPieceSpec(s: string, sep: char)
    ensures var p := Split(s, sep)[0];
      && p <= s && sep !in p
      && (sep in s ==> p + [sep] <= s)
      && (sep !in s ==> p == s)
  {
    var pieces := Split(s, sep);
    SplitJoin(s, sep);
    SplitCountsSeparators(s, sep);
    if |pieces| > 1 {
      assert s == pieces[0] + [sep] + Join(pieces[1..], sep);
      assert pieces[0] + [sep] <= s;
    }
  }

  /** Piece 1 of a split: it exists exactly when the separator occurs, and it
      is the text between the first separator and the second one (or the
      end). */
  lemma SecondPieceSpec(s: string, sep: char)
    ensures Piece(s, sep, 1).None? <==> sep !in s
    ensures Piece(s, sep, 1).Some? ==>
              var pre, k := Split(s, sep)[0], Piece(s, sep, 1).value;
              && sep !in pre && sep !in k
              && pre + [sep] + k <= s
              && (pre + [sep] + k == s || pre + [sep] + k + [sep] <= s)
  {
    var pieces := Split(s, sep);
    SplitJoin(s, sep);
    SplitCountsSeparators(s, sep);
    if |pieces| >= 2 {
      JoinExtend(pieces, 1, sep);
      assert pieces[..1] == [pieces[0]];
      var two := pieces[0] + [sep] + pieces[1];
      assert Join(pieces[..2], sep) == two;
      if |pieces| == 2 {
        assert pieces[..2] == pieces;
      } else {
        JoinExtend(pieces, 2, sep);
        JoinPrefixIsPrefix(pieces, 3, sep);
        assert two + [sep] <= two + [sep] + pieces[2];
      }
    }
  }

  // ------------------------------------------------------- prep_for_plot

  /** The url with its spaces removed, as `str.replace(' ', '')` leaves it. */
  function Stripped(url: string): string
  {
    Without(url, ' ')
  }

  /** The part of the stripped url before the first `?`. */
  function PathPart(url: string): string
  {
    Split(Stripped(url), '?')[0]
  }

  /** One row of the table `prep_for_plot` returns. */
  function PrepRow(r: Row): Row
  {
    r.(country := Some(r.country.GetOr("unknown")),
       baseUrl := Some(Split(PathPart(r.url), '.')[0]),
       requestKwargs := Piece(Stripped(r.url), '?', 1),
       fileType := Piece(PathPart(r.url), '.', 1),
       userAgentBase := match r.userAgent
                        case None => None
                        case Some(ua) => Some(Split(Split(ua, ' ')[0], '/')[0]),
       ipGroup := IpPrefix(r.ip, 2),
       ipSubnet := IpPrefix(r.ip, 3))
  }

  const PlotColumns: set<string> :=
    {"base_url", "request_kwargs", "file_type", "user_agent_base", "ip_group", "ip_subnet"}

  /** `prep_for_plot(df)`. Reading a column the table lacks raises, and so
      does taking an expanded split piece that no row has. */
  function PrepForPlot(f: Frame): (r: Result<Frame, Error>)
  {
    if "country" !in f.columns then Err(MissingColumn("country"))
    else if "url" !in f.columns then Err(MissingColumn("url"))
    else if !exists i :: 0 <= i < |f.rows| && '?' in Stripped(f.rows[i].url) then Err(MissingPiece("request_kwargs"))
    else if !exists i :: 0 <= i < |f.rows| && '.' in PathPart(f.rows[i].url) then Err(MissingPiece("file_type"))
    else if "user-agent" !in f.columns then Err(MissingColumn("user-agent"))
    else if "ip" !in f.columns then Err(MissingColumn("ip"))
    else if !SomeIpHasPieces(f.rows, 2) then Err(MissingPiece("ip_group"))
    else if !SomeIpHasPieces(f.rows, 3) then Err(MissingPiece("ip_subnet"))
    else Ok(Frame(seq(|f.rows|, i requires 0 <= i < |f.rows| => PrepRow(f.rows[i])), f.columns + PlotColumns))
  }

  /** `prep_for_plot` keeps the rows, their number and their order, adds its
      columns, and changes no field it does not derive. */
  lemma PrepForPlotShape(f: Frame)
    requires PrepForPlot(f).Ok?
    ensures var g := PrepForPlot(f).value;
      && |g.rows| == |f.rows|
      && g.columns == f.columns + PlotColumns
      && forall i :: 0 <= i < |f.rows| ==>
           g.rows[i].(country := f.rows[i].country, baseUrl := f.rows[i].baseUrl,
                      requestKwargs := f.rows[i].requestKwargs, fileType := f.rows[i].fileType,
                      userAgentBase := f.rows[i].userAgentBase, ipGroup := f.rows[i].ipGroup,
                      ipSubnet := f.rows[i].ipSubnet) == f.rows[i]
  {
  }

  /** Removing spaces keeps every `?`. */
  lemma StrippedKeepsQuestionMarks(url: string)
    ensures '?' in Stripped(url) <==> '?' in url
  {
  }

  /** A row whose address has three pieces has two. */
  lemma ThreePiecesHaveTwo(rows: seq<Row>)
    requires SomeIpHasPieces(rows, 3)
    ensures SomeIpHasPieces(rows, 2)
  {
    var i :| 0 <= i < |rows| && |Split(rows[i].ip, '.')| >= 3;
    assert |Split(rows[i].ip, '.')| >= 2;
  }

  /** `prep_for_plot` fails on the table exactly when a column is missing or
      no row has the split piece it takes. */
  lemma PrepForPlotFails(f: Frame)
    ensures PrepForPlot(f).Err? <==>
              || "country" !in f.columns || "url" !in f.columns
              || "user-agent" !in f.columns || "ip" !in f.columns
              || !(exists i :: 0 <= i < |f.rows| && '?' in f.rows[i].url)
              || !(exists i :: 0 <= i < |f.rows| && '.' in PathPart(f.rows[i].url))
              || !SomeIpHasPieces(f.rows, 3)
  {
    forall i | 0 <= i < |f.rows| ensures '?' in Stripped(f.rows[i].url) <==> '?' in f.rows[i].url {
      StrippedKeepsQuestionMarks(f.rows[i].url);
    }
    if SomeIpHasPieces(f.rows, 3) {
      ThreePiecesHaveTwo(f.rows);
    }
  }

  /** Null countries become "unknown"; known ones are kept. */
  lemma CountryFilled(r: Row)
    ensures PrepRow(r).country.Some?
    ensures r.country.Some? ==> PrepRow(r).country == r.country
    ensures r.country.None? ==> PrepRow(r).country == Some("unknown")
  {
  }

  /** `request_kwargs` is null exactly when the url has no `?`; otherwise it
      is the space-free text between the first `?` and the second one (or the
      end). */
  lemma RequestKwargsSpec(r: Row)
    ensures PrepRow(r).requestKwargs.None? <==> '?' !in r.url
    ensures PrepRow(r).requestKwargs.Some? ==>
              var k, pre := PrepRow(r).requestKwargs.value, PathPart(r.url);
              && '?' !in pre && '?' !in k && ' ' !in k
              && (pre + ['?'] + k == Stripped(r.url) || pre + ['?'] + k + ['?'] <= Stripped(r.url))
  {
    QueryPiece(r.url);
  }

  /** The query-string piece of one url. */
  lemma QueryPiece(url: string)
    ensures Piece(Stripped(url), '?', 1).None? <==> '?' !in url
    ensures Piece(Stripped(url), '?', 1).Some? ==>
              var k, pre := Piece(Stripped(url), '?', 1).value, PathPart(url);
              && '?' !in pre && '?' !in k && ' ' !in k
              && (pre + ['?'] + k == Stripped(url) || pre + ['?'] + k + ['?'] <= Stripped(url))
  {
    var s := Stripped(url);
    SecondPieceSpec(s, '?');
    if Piece(s, '?', 1).Some? {
      var k, pre := Piece(s, '?', 1).value, PathPart(url);
      InfixAvoids(pre + ['?'], k, s, ' ');
    }
  }

  /** A piece of a string lacks every character the string lacks. */
  lemma InfixAvoids(a: string, k: string, s: string, c: char)
    requires a + k <= s && c !in s
    ensures c !in k
  {
    assert forall j :: 0 <= j < |k| ==> k[j] == (a + k)[|a| + j] == s[|a| + j];
  }

  /** `base_url` is the path up to its first `.`, and `file_type` is the text
      between the first `.` and the second (or the end of the path); it is
      null when the path has no `.`. */
  lemma BaseUrlAndFileType(r: Row)
    ensures var path, b := PathPart(r.url), PrepRow(r).baseUrl.value;
      && b <= path && '.' !in b && ' ' !in b && '?' !in b
      && ('.' !in path ==> b == path && PrepRow(r).fileType.None?)
      && ('.' in path ==> b + ['.'] <= path && PrepRow(r).fileType.Some?)
      && (PrepRow(r).fileType.Some? ==>
            var t := PrepRow(r).fileType.value;
            '.' !in t && (b + ['.'] + t == path || b + ['.'] + t + ['.'] <= path))
  {
    var path := PathPart(r.url);
    FirstPieceSpec(Stripped(r.url), '?');
    FirstPieceSpec(path, '.');
    SecondPieceSpec(path, '.');
    var b := Split(path, '.')[0];
    assert forall c :: c in b ==> c in path by {
      assert forall j :: 0 <= j < |b| ==> b[j] == path[j];
    }
    assert forall c :: c in path ==> c in Stripped(r.url) by {
      assert forall j :: 0 <= j < |path| ==> path[j] == Stripped(r.url)[j];
    }
  }

  /** `user_agent_base` is the user agent up to its first space, then up to
      that part's first `/`; null user agents stay null. */
  lemma UserAgentBaseSpec(r: Row)
    ensures r.userAgent.None? <==> PrepRow(r).userAgentBase.None?
    ensures r.userAgent.Some? ==>
              var ua, b := r.userAgent.value, PrepRow(r).userAgentBase.value;
              && b <= ua && ' ' !in b && '/' !in b
              && (b == ua || b + [' '] <= ua || b + ['/'] <= ua)
  {
    if r.userAgent.Some? {
      var ua := r.userAgent.value;
      var first := Split(ua, ' ')[0];
      FirstPieceSpec(ua, ' ');
      FirstPieceSpec(first, '/');
      var b := Split(first, '/')[0];
      assert forall j :: 0 <= j < |b| ==> b[j] == first[j];
      assert ' ' !in b by {
        assert forall c :: c in b ==> c in first;
      }
    }
  }

  /** `prep_for_plot` writes the two-octet prefix into `ip_group`, where
      `get_ip_info` has the three-octet one, and the three-octet prefix into
      `ip_subnet`: its `ip_group` is `get_ip_info`'s `ip_root`. */
  lemma IpColumnsRenamed(r: Row)
    ensures PrepRow(r).ipGroup == IpPrefix(r.ip, 2)
    ensures PrepRow(r).ipSubnet == IpPrefix(r.ip, 3)
    ensures PrepRow(r).ipRoot == r.ipRoot
  {
  }

  // ------------------------------------------------------- most popular

  /** A value of a table cell, as Python sees it in `to_list()`: None, a
      str, an int or a datetime. */
  datatype Cell = Null | Text(text: string) | Number(number: int) | Time(time: int)

  function OptText(o: Option<string>): Cell
  {
    match o
    case None => Null
    case Some(s) => Text(s)
  }

  /** The cell of row `r` in the column called `name`. */
  function CellOf(r: Row, name: string): Cell
  {
    match name
    case "ip" => Text(r.ip)
    case "datetime" => Time(r.datetime)
    case "url" => Text(r.url)
    case "user-agent" => OptText(r.userAgent)
    case "status-code" => Number(r.statusCode)
    case "query" => OptText(r.query)
    case "country" => OptText(r.country)
    case "org" => OptText(r.org)
    case "isp" => OptText(r.isp)
    case "ip_root" => OptText(r.ipRoot)
    case "ip_group" => OptText(r.ipGroup)
    case "base_url" => OptText(r.baseUrl)
    case "request_kwargs" => OptText(r.requestKwargs)
    case "file_type" => OptText(r.fileType)
    case "user_agent_base" => OptText(r.userAgentBase)
    case "ip_subnet" => OptText(r.ipSubnet)
    case _ => Null
  }

  function ColumnCells(rows: seq<Row>, name: string): (r: seq<Cell>)
    ensures |r| == |rows| && forall i :: 0 <= i < |rows| ==> r[i] == CellOf(rows[i], name)
  {
    seq(|rows|, i requires 0 <= i < |rows| => CellOf(rows[i], name))
  }

  /** `fill_null("unknown")` on the value column of the count table. */
  function Label(c: Cell): Cell
  {
    if c == Null then Text("unknown") else c
  }

  /** `_plot_popularity_bar`'s table: `Counter(...).most_common()`, cut to the
      first `rows` entries, nulls labelled "unknown". */
  function PopularityTable(rows: seq<Row>, name: string, n: int): (t: seq<(Cell, nat)>)
  {
    LabelledTop(MostCommon(ColumnCells(rows, name)), n)
  }

  /** The first `n` pairs, nulls labelled "unknown". */
  function LabelledTop(m: seq<(Cell, nat)>, n: int): seq<(Cell, nat)>
  {
    var top := Take(m, n);
    seq(|top|, i requires 0 <= i < |top| => (Label(top[i].0), top[i].1))
  }

  /** `plot_most_popular(df, col_name, rows)`: ValueError for a column the
      table lacks, else the count table. */
  function MostPopular(f: Frame, name: string, n: int): (r: Result<seq<(Cell, nat)>, Error>)
    ensures r.Err? <==> name !in f.columns
    ensures r.Ok? ==> r.value == PopularityTable(f.rows, name, n)
  {
    if name !in f.columns then Err(MissingColumn(name)) else Ok(PopularityTable(f.rows, name, n))
  }

  /** The count table has at most `n` entries and no more than there are
      distinct values, lists counts in non-increasing order, has no null
      label, lists no label twice (save "unknown", which a null and a literal
      "unknown" value share), and each entry carries the true count of its value (read back
      through the "unknown" label). */
  lemma PopularityTableSpec(rows: seq<Row>, name: string, n: int)
    ensures var t, cells := PopularityTable(rows, name, n), ColumnCells(rows, name);
      && (n >= 0 ==> |t| <= n)
      && |t| <= |Distinct(cells)|
      && NonIncreasing(t)
      && (forall i :: 0 <= i < |t| ==> t[i].0 != Null)
      && (forall i, j :: 0 <= i < j < |t| && t[i].0 != Text("unknown") ==> t[i].0 != t[j].0)
      && (forall i :: 0 <= i < |t| ==>
            && t[i].1 >= 1
            && (t[i].1 == Count(cells, t[i].0) || (t[i].0 == Text("unknown") && t[i].1 == Count(cells, Null))))
  {
    var cells := ColumnCells(rows, name);
    var m := MostCommon(cells);
    var top := Take(m, n);
    MostCommonSpec(cells);
    SameElemsSameLength(Keys(m), Distinct(cells));
    forall i | 0 <= i < |top| ensures top[i] == m[i] {
      assert top <= m;
    }
    assert forall i :: 0 <= i < |m| ==> Keys(m)[i] == m[i].0;
  }

  /** A value left out of the table occurs no more often than the last entry
      listed. */
  lemma PopularityTableTop(rows: seq<Row>, name: string, n: nat, v: Cell)
    requires 0 < n <= |MostCommon(ColumnCells(rows, name))|
    requires v in ColumnCells(rows, name) && v !in Keys(MostCommon(ColumnCells(rows, name))[..n])
    ensures Count(ColumnCells(rows, name), v) <= PopularityTable(rows, name, n)[n - 1].1
  {
    var m := MostCommon(ColumnCells(rows, name));
    MostCommonTop(ColumnCells(rows, name), n, v);
    assert Take(m, n) == m[..n];
  }

  // ------------------------------------- the count table as polars builds it

  /** A polars column type. A column holding only nulls has the null type. */
  datatype Dtype = NullType | StringType | IntType | DatetimeType

  function DtypeOf(c: Cell): Dtype
  {
    match c
    case Null => NullType
    case Text(_) => StringType
    case Number(_) => IntType
    case Time(_) => DatetimeType
  }

  /** The type polars gives a column: that of its first non-null value. */
  function ColumnDtype(cells: seq<Cell>): Dtype
    decreases |cells|
  {
    if cells == [] then NullType
    else if cells[0] != Null then DtypeOf(cells[0])
    else ColumnDtype(cells[1..])
  }

  /** The non-null values share one type, so polars can build the column. */
  predicate OneType(cells: seq<Cell>)
  {
    forall i, j :: 0 <= i < |cells| && 0 <= j < |cells| && cells[i] != Null && cells[j] != Null ==>
      DtypeOf(cells[i]) == DtypeOf(cells[j])
  }

  /** A named, typed column of a polars frame. */
  datatype Column = Column(name: string, dtype: Dtype, cells: seq<Cell>)

  function HasColumn(cols: seq<Column>, name: string): bool
  {
    exists i :: 0 <= i < |cols| && cols[i].name == name
  }

  /** The decimal digits of `n`. */
  function Digits(n: nat): (r: string)
    ensures |r| >= 1 && (n >= 10 ==> |r| >= 2)
    decreases n
  {
    if n < 10 then [(48 + n) as char] else Digits(n / 10) + [(48 + n % 10) as char]
  }

  /** The name polars gives the i-th column of a frame built without a schema. */
  function ColumnName(i: nat): string
  {
    "column_" + Digits(i)
  }

  /** The counts of the pairs, as int cells. */
  function CountCells(counts: seq<(Cell, nat)>): (r: seq<Cell>)
    ensures |r| == |counts| && forall i :: 0 <= i < |counts| ==> r[i] == Number(counts[i].1)
  {
    seq(|counts|, i requires 0 <= i < |counts| => Number(counts[i].1))
  }

  /** polars' guess when `pl.DataFrame` gets a list of tuples and no `orient`:
      the tuples are columns when the non-null values of the first one share
      one type. A count is an int, so that is when the first value is null or
      an int. */
  predicate InfersColumns(counts: seq<(Cell, nat)>)
  {
    counts != [] && (counts[0].0 == Null || DtypeOf(counts[0].0) == IntType)
  }

  /** The named cells `pl.DataFrame(counts)` lays out, before typing. By rows
      the values are `column_0` and the counts `column_1`; by columns the i-th
      pair is the two-cell `column_i`. No pairs give no columns. */
  function CountColumns(counts: seq<(Cell, nat)>, byColumns: bool): seq<(string, seq<Cell>)>
  {
    if counts == [] then []
    else if byColumns then
      seq(|counts|, i requires 0 <= i < |counts| => (ColumnName(i), [counts[i].0, Number(counts[i].1)]))
    else [("column_0", Keys(counts)), ("column_1", CountCells(counts))]
  }

  /** Building the frame types every column, and fails on a column whose
      values differ in type. */
  function BuildFrame(cols: seq<(string, seq<Cell>)>): Result<seq<Column>, Error>
  {
    if forall i :: 0 <= i < |cols| ==> OneType(cols[i].1) then
      Ok(seq(|cols|, i requires 0 <= i < |cols| => Column(cols[i].0, ColumnDtype(cols[i].1), cols[i].1)))
    else Err(MixedTypes)
  }

  /** `frame[:rows]`. */
  function HeadRows(cols: seq<Column>, n: int): seq<Column>
  {
    seq(|cols|, i requires 0 <= i < |cols| => cols[i].(cells := Take(cols[i].cells, n)))
  }

  /** `fill_null("unknown")`, which polars applies to the string columns only. */
  function Labelled(cells: seq<Cell>): (r: seq<Cell>)
    ensures |r| == |cells| && forall i :: 0 <= i < |cells| ==> r[i] == Label(cells[i])
  {
    seq(|cells|, i requires 0 <= i < |cells| => Label(cells[i]))
  }

  function FillNullText(cols: seq<Column>): seq<Column>
  {
    seq(|cols|, i requires 0 <= i < |cols| =>
      if cols[i].dtype == StringType then cols[i].(cells := Labelled(cols[i].cells)) else cols[i])
  }

  /** `rename({'column_0': name, 'column_1': 'counts'})`, which fails when
      either column is absent. */
  function RenameCounts(cols: seq<Column>, name: string): Result<seq<Column>, Error>
  {
    if !HasColumn(cols, "column_0") then Err(MissingColumn("column_0"))
    else if !HasColumn(cols, "column_1") then Err(MissingColumn("column_1"))
    else Ok(seq(|cols|, i requires 0 <= i < |cols| =>
      if cols[i].name == "column_0" then cols[i].(name := name)
      else if cols[i].name == "column_1" then cols[i].(name := "counts")
      else cols[i]))
  }

  /** `_plot_popularity_bar`'s table as written: `pl.DataFrame(counts)` with
      the orientation polars infers, then `[:rows]`, `fill_null("unknown")`
      and the rename. */
  function CountTableAsWritten(counts: seq<(Cell, nat)>, name: string, n: int): Result<seq<Column>, Error>
  {
    var built := BuildFrame(CountColumns(counts, InfersColumns(counts)));
    if built.Err? then Err(built.error) else RenameCounts(FillNullText(HeadRows(built.value, n)), name)
  }

  /** `plot_most_popular(df, col_name, rows)` as written: ValueError for a
      column the table lacks; an empty table gives no `column_0` to rename. */
  function MostPopularAsWritten(f: Frame, name: string, n: int): (r: Result<seq<Column>, Error>)
    ensures name !in f.columns ==> r == Err(MissingColumn(name))
    ensures name in f.columns && f.rows == [] ==> r == Err(MissingColumn("column_0"))
  {
    if name !in f.columns then Err(MissingColumn(name))
    else
      assert f.rows == [] ==> MostCommon(ColumnCells(f.rows, name)) == [] by {
        if f.rows == [] { MostCommonSpec(ColumnCells(f.rows, name)); }
      }
      CountTableAsWritten(MostCommon(ColumnCells(f.rows, name)), name, n)
  }

  /** The count table laid out as the two columns the plot reads. */
  function TableColumns(t: seq<(Cell, nat)>, name: string, dtype: Dtype): seq<Column>
  {
    [Column(name, dtype, Keys(t)), Column("counts", IntType, CountCells(t))]
  }

  /** All non-null cells of one column share a type. */
  lemma CellsOneType(rows: seq<Row>, name: string)
    ensures OneType(ColumnCells(rows, name))
  {
    var cells := ColumnCells(rows, name);
    forall i, j | 0 <= i < |cells| && 0 <= j < |cells| && cells[i] != Null && cells[j] != Null
      ensures DtypeOf(cells[i]) == DtypeOf(cells[j])
    {
      CellTypeByName(rows[i], rows[j], name);
    }
  }

  lemma CellTypeByName(a: Row, b: Row, name: string)
    requires CellOf(a, name) != Null && CellOf(b, name) != Null
    ensures DtypeOf(CellOf(a, name)) == DtypeOf(CellOf(b, name))
  {
  }

  /** By rows, a string value column and the counts build without error. */
  lemma BuildByRows(m: seq<(Cell, nat)>)
    requires m != [] && m[0].0.Text? && OneType(Keys(m))
    ensures BuildFrame(CountColumns(m, false)) ==
              Ok([Column("column_0", StringType, Keys(m)), Column("column_1", IntType, CountCells(m))])
  {
    var cols := CountColumns(m, false);
    assert cols == [("column_0", Keys(m)), ("column_1", CountCells(m))];
    assert OneType(CountCells(m));
    assert ColumnDtype(Keys(m)) == StringType;
    assert ColumnDtype(CountCells(m)) == IntType;
    assert forall i :: 0 <= i < |cols| ==> OneType(cols[i].1);
    var built := BuildFrame(cols).value;
    assert |built| == 2;
    assert built[0] == Column("column_0", StringType, Keys(m));
    assert built[1] == Column("column_1", IntType, CountCells(m));
    assert built == [Column("column_0", StringType, Keys(m)), Column("column_1", IntType, CountCells(m))];
    assert BuildFrame(cols).Ok?;
  }

  /** `[:rows]` and `fill_null("unknown")` on the row-built frame give the
      first pairs with nulls labelled. */
  lemma HeadFillByRows(m: seq<(Cell, nat)>, n: int)
    ensures var t := LabelledTop(m, n);
      FillNullText(HeadRows([Column("column_0", StringType, Keys(m)), Column("column_1", IntType, CountCells(m))], n))
        == [Column("column_0", StringType, Keys(t)), Column("column_1", IntType, CountCells(t))]
  {
    var t := LabelledTop(m, n);
    var top := Take(m, n);
    assert Labelled(Take(Keys(m), n)) == Keys(t) by {
      forall i | 0 <= i < |top| ensures Take(Keys(m), n)[i] == top[i].0 {
        assert top <= m;
      }
    }
    assert Take(CountCells(m), n) == CountCells(t) by {
      forall i | 0 <= i < |top| ensures Take(CountCells(m), n)[i] == Number(top[i].1) {
        assert top <= m;
      }
    }
  }

  lemma RenameTwo(a: Column, b: Column, name: string)
    requires a.name == "column_0" && b.name == "column_1"
    ensures RenameCounts([a, b], name) == Ok([a.(name := name), b.(name := "counts")])
  {
    assert [a, b][0].name == "column_0" && [a, b][1].name == "column_1";
    var r := RenameCounts([a, b], name).value;
    assert |r| == 2 && r[0] == a.(name := name) && r[1] == b.(name := "counts");
    assert r == [a.(name := name), b.(name := "counts")];
    assert RenameCounts([a, b], name).Ok?;
  }

  /** For a column whose most common value is a string, the table as written
      is the count table, laid out as the value column and `counts`. */
  lemma AsWrittenMatchesOnText(f: Frame, name: string, n: int)
    requires name in f.columns
    requires MostCommon(ColumnCells(f.rows, name)) != [] && MostCommon(ColumnCells(f.rows, name))[0].0.Text?
    ensures MostPopularAsWritten(f, name, n) == Ok(TableColumns(PopularityTable(f.rows, name, n), name, StringType))
  {
    var cells := ColumnCells(f.rows, name);
    var m := MostCommon(cells);
    MostCommonSpec(cells);
    CellsOneType(f.rows, name);
    assert OneType(Keys(m)) by {
      forall i, j | 0 <= i < |m| && 0 <= j < |m| && Keys(m)[i] != Null && Keys(m)[j] != Null
        ensures DtypeOf(Keys(m)[i]) == DtypeOf(Keys(m)[j])
      {
        assert Keys(m)[i] in cells && Keys(m)[j] in cells;
      }
    }
    assert !InfersColumns(m);
    BuildByRows(m);
    HeadFillByRows(m, n);
    var t := LabelledTop(m, n);
    RenameTwo(Column("column_0", StringType, Keys(t)), Column("column_1", IntType, CountCells(t)), name);
  }

  /** As written, a column of ints (the status code) is read by columns:
      the renamed value column holds the top value and its count, `counts`
      holds the second value and its count, and with one distinct value
      there is no `column_1` to rename. */
  lemma AsWrittenIntColumnTransposed(f: Frame, name: string, n: int)
    requires name in f.columns && f.rows != []
    requires forall i :: 0 <= i < |f.rows| ==> CellOf(f.rows[i], name).Number?
    ensures var m, r := MostCommon(ColumnCells(f.rows, name)), MostPopularAsWritten(f, name, n);
      && m != []
      && (|m| == 1 ==> r == Err(MissingColumn("column_1")))
      && (|m| >= 2 ==>
            && r.Ok? && |r.value| == |m|
            && r.value[0] == Column(name, IntType, Take([m[0].0, Number(m[0].1)], n))
            && r.value[1] == Column("counts", IntType, Take([m[1].0, Number(m[1].1)], n)))
  {
    var cells := ColumnCells(f.rows, name);
    var m := MostCommon(cells);
    KeysAreCells(cells);
    assert forall i :: 0 <= i < |m| ==> m[i].0.Number?;
    assert InfersColumns(m);
    BuildByColumns(m);
    var built := BuildFrame(CountColumns(m, true)).value;
    HeadFillInts(built, n);
    RenameByColumns(HeadRows(built, n), name);
  }

  /** Each value listed by most_common is a cell of the column, and a
      non-empty column lists some value. */
  lemma KeysAreCells(cells: seq<Cell>)
    ensures cells != [] ==> MostCommon(cells) != []
    ensures forall i :: 0 <= i < |MostCommon(cells)| ==> MostCommon(cells)[i].0 in cells
  {
    var m := MostCommon(cells);
    MostCommonSpec(cells);
    if cells != [] {
      assert cells[0] in cells;
    }
    forall i | 0 <= i < |m| ensures m[i].0 in cells {
      assert Keys(m)[i] in cells;
    }
  }

  /** By columns, pairs of int values and counts build without error. */
  lemma BuildByColumns(m: seq<(Cell, nat)>)
    requires m != [] && forall i :: 0 <= i < |m| ==> m[i].0.Number?
    ensures BuildFrame(CountColumns(m, true)).Ok?
    ensures var b := BuildFrame(CountColumns(m, true)).value;
      |b| == |m| && forall i :: 0 <= i < |m| ==> b[i] == Column(ColumnName(i), IntType, [m[i].0, Number(m[i].1)])
  {
    var cols := CountColumns(m, true);
    forall i | 0 <= i < |cols| ensures OneType(cols[i].1) && ColumnDtype(cols[i].1) == IntType {
      assert cols[i].1 == [m[i].0, Number(m[i].1)];
    }
  }

  /** `fill_null("unknown")` leaves int columns alone. */
  lemma HeadFillInts(b: seq<Column>, n: int)
    requires forall i :: 0 <= i < |b| ==> b[i].dtype == IntType
    ensures FillNullText(HeadRows(b, n)) == HeadRows(b, n)
  {
  }

  /** Renaming the columns of a frame built by columns. */
  lemma RenameByColumns(c: seq<Column>, name: string)
    requires c != [] && forall i :: 0 <= i < |c| ==> c[i].name == ColumnName(i)
    ensures |c| == 1 ==> RenameCounts(c, name) == Err(MissingColumn("column_1"))
    ensures |c| >= 2 ==>
              var r := RenameCounts(c, name);
              r.Ok? && |r.value| == |c| && r.value[0] == c[0].(name := name) && r.value[1] == c[1].(name := "counts")
  {
    assert ColumnName(0) == "column_0" && ColumnName(1) == "column_1";
    assert HasColumn(c, "column_0") by { assert c[0].name == "column_0"; }
    if |c| >= 2 {
      assert HasColumn(c, "column_1") by { assert c[1].name == "column_1"; }
    }
  }

  /** As written, when null is the most common value of a string column the
      pairs are read as columns, and a column then pairs a string with an
      int, which polars refuses. */
  lemma AsWrittenNullTopFails(f: Frame, name: string, n: int, k: nat)
    requires name in f.columns
    requires MostCommon(ColumnCells(f.rows, name)) != [] && MostCommon(ColumnCells(f.rows, name))[0].0 == Null
    requires k < |f.rows| && CellOf(f.rows[k], name).Text?
    ensures MostPopularAsWritten(f, name, n) == Err(MixedTypes)
  {
    var cells := ColumnCells(f.rows, name);
    var m := MostCommon(cells);
    MostCommonSpec(cells);
    assert cells[k] in cells;
    var p :| 0 <= p < |m| && Keys(m)[p] == cells[k];
    var cols := CountColumns(m, true);
    assert InfersColumns(m);
    assert !OneType(cols[p].1) by {
      assert cols[p].1 == [m[p].0, Number(m[p].1)];
      assert DtypeOf(cols[p].1[0]) == StringType && DtypeOf(cols[p].1[1]) == IntType;
    }
  }
}

