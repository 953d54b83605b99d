/** The pipeline's data model: one row of the working table, a table with
    its column names, the errors the pipeline raises, sorting by datetime
    and the IP-prefix columns. */
module Records {
  import opened Wrappers
  import opened Seqs
  import opened Text

  /** One row of the working table. Columns a frame does not have are None
      in every row. `datetime` is microseconds since the epoch, timezone-free.
      The enrichment fields come from the left join against the IP cache,
      `ipRoot`/`ipGroup` from get_ip_info and the last five from prep_for_plot. */
  datatype Row = Row(
    ip: string,
    datetime: int,
    url: string,
    userAgent: Option<string>,
    statusCode: int,
    query: Option<string>,
    country: Option<string>,
    org: Option<string>,
    isp: Option<string>,
    ipRoot: Option<string>,
    ipGroup: Option<string>,
    baseUrl: Option<string>,
    requestKwargs: Option<string>,
    fileType: Option<string>,
    userAgentBase: Option<string>,
    ipSubnet: Option<string>)

  /** A row as a log adapter produces it: the five log columns, nothing else. */
  function LogRow(ip: string, datetime: int, url: string, userAgent: Option<string>, statusCode: int): (r: Row)
    ensures r.ip == ip && r.datetime == datetime && r.url == url
    ensures r.userAgent == userAgent && r.statusCode == statusCode
    ensures r.country.None? && r.org.None? && r.isp.None? && r.query.None?
  {
    Row(ip, datetime, url, userAgent, statusCode,
        None, None, None, None, None, None, None, None, None, None, None)
  }

  /** A polars DataFrame: its rows and the names of its columns. */
  datatype Frame = Frame(rows: seq<Row>, columns: set<string>)

  /** The columns both log adapters produce. */
  const LogColumns: set<string> := {"ip", "datetime", "url", "user-agent", "status-code"}

  /** The exceptions the pipeline raises. */
  datatype Error =
    | NoLogFiles                // ValueError: directory holds no matching log file
    | TimestampFormat           // strptime failed on a matched nginx line
    | SchemaMismatch            // pl.concat of frames with different columns
    | ZeroDivision              // subset_df(entries=0)
    | InvalidStride(stride: int)  // gather_every with a stride below 1
    | MissingColumn(name: string) // a column the operation reads is absent
    | MissingPiece(column: string) // pandas split(expand=True) has too few columns
    | NotLoaded                 // undo_filter before unfiltered_df was ever set
    | UnexpectedArgument        // TypeError: the stats wrapper takes no arguments
    | BytesLine                 // TypeError: a str regex searched in a bytes line
    | MixedTypes                // polars cannot build a column whose values differ in type

  // ------------------------------------------------------------ sorting

  predicate SortedByTime(rows: seq<Row>)
  {
    forall i, j :: 0 <= i < j < |rows| ==> rows[i].datetime <= rows[j].datetime
  }

  function InsertByTime(x: Row, rows: seq<Row>): (r: seq<Row>)
    requires SortedByTime(rows)
    ensures SortedByTime(r)
    ensures multiset(r) == multiset(rows) + multiset{x}
    ensures |r| == |rows| + 1
    ensures r[0] == x || (rows != [] && r[0] == rows[0])
    decreases |rows|
  {
    if rows == [] || x.datetime <= rows[0].datetime then [x] + rows
    else
      assert rows == [rows[0]] + rows[1..];
      [rows[0]] + InsertByTime(x, rows[1..])
  }

  /** `df.sort("datetime")`: an ordering by datetime of the same rows. polars
      does not promise an order among equal timestamps and the model does not
      claim one. */
  function SortByTime(rows: seq<Row>): (r: seq<Row>)
    ensures SortedByTime(r)
    ensures multiset(r) == multiset(rows)
    decreases |rows|
  {
    if rows == [] then []
    else
      assert rows == [rows[0]] + rows[1..];
      InsertByTime(rows[0], SortByTime(rows[1..]))
  }

  lemma SortByTimeElems(rows: seq<Row>)
    ensures |SortByTime(rows)| == |rows|
    ensures forall x :: x in SortByTime(rows) <==> x in rows
  {
    var r := SortByTime(rows);
    assert |multiset(r)| == |multiset(rows)|;
    forall x ensures x in r <==> x in rows {
      assert x in r <==> x in multiset(r);
      assert x in rows <==> x in multiset(rows);
    }
  }

  // --------------------------------------------------------- IP prefixes

  /** The first `k` dot-separated octets of `ip` joined by dots, or None
      when `ip` has fewer than `k` pieces (pandas' `ip_grid[0] + "." + ...`
      is NaN for such a row). */
  function IpPrefix(ip: string, k: nat): Option<string>
    requires k >= 1
  {
    var pieces := Split(ip, '.');
    if |pieces| < k then None else Some(Join(pieces[..k], '.'))
  }

  /** Whether some row's ip has at least `k` pieces, so that pandas'
      `ip.str.split(".", expand=True)` has a column `k - 1`. */
  predicate SomeIpHasPieces(rows: seq<Row>, k: nat)
  {
    exists i :: 0 <= i < |rows| && |Split(rows[i].ip, '.')| >= k
  }

  /** Joining a prefix of the pieces gives a prefix of the string. */
  lemma {:induction false} JoinPrefixIsPrefix(pieces: seq<string>, k: nat, sep: char)
    requires 1 <= k <= |pieces|
    ensures Join(pieces[..k], sep) <= Join(pieces, sep)
    decreases k
  {
    if k == 1 {
      assert pieces[..1] == [pieces[0]];
      if |pieces| > 1 {
        assert Join(pieces, sep) == pieces[0] + ([sep] + Join(pieces[1..], sep));
      }
    } else {
      JoinPrefixIsPrefix(pieces[1..], k - 1, sep);
      assert pieces[..k][1..] == pieces[1..][..k - 1];
      assert Join(pieces[..k], sep) == pieces[0] + [sep] + Join(pieces[1..][..k - 1], sep);
      assert Join(pieces, sep) == pieces[0] + [sep] + Join(pieces[1..], sep);
    }
  }

  lemma {:induction false} JoinExtend(pieces: seq<string>, k: nat, sep: char)
    requires 1 <= k < |pieces|
    ensures Join(pieces[..k + 1], sep) == Join(pieces[..k], sep) + [sep] + pieces[k]
    decreases k
  {
    if k == 1 {
      assert pieces[..2][1..] == [pieces[1]];
      assert pieces[..1] == [pieces[0]];
    } else {
      JoinExtend(pieces[1..], k - 1, sep);
      assert pieces[..k + 1][1..] == pieces[1..][..k];
      assert pieces[..k][1..] == pieces[1..][..k - 1];
    }
  }

  /** The prefix columns: each is a leading part of the address, the
      three-octet prefix extends the two-octet one by a dot and the third
      octet, and neither exists for an address with too few dots. */
  lemma IpPrefixSpec(ip: string)
    ensures IpPrefix(ip, 2).Some? <==> '.' in ip
    ensures IpPrefix(ip, 2).Some? ==> IpPrefix(ip, 2).value <= ip
    ensures IpPrefix(ip, 3).Some? ==>
              && IpPrefix(ip, 2).Some?
              && IpPrefix(ip, 3).value <= ip
              && IpPrefix(ip, 3).value == IpPrefix(ip, 2).value + ['.'] + Split(ip, '.')[2]
  {
    var pieces := Split(ip, '.');
    SplitJoin(ip, '.');
    SplitCountsSeparators(ip, '.');
    if |pieces| >= 2 {
      JoinPrefixIsPrefix(pieces, 2, '.');
    }
    if |pieces| >= 3 {
      JoinPrefixIsPrefix(pieces, 3, '.');
      JoinExtend(pieces, 2, '.');
    }
  }

  /** A string splits into more than one piece exactly when it contains the separator. */
  lemma {:induction false} SplitCountsSeparators(s: string, sep: char)
    ensures |Split(s, sep)| > 1 <==> sep in s
    decreases |s|
  {
    if s != [] {
      SplitCountsSeparators(s[1..], sep);
      assert sep in s <==> s[0] == sep || sep in s[1..];
    }
  }

  lemma JoinTwo(a: string, b: string, sep: char)
    ensures Join([a, b], sep) == a + [sep] + b
  {
    assert [a, b][1..] == [b];
  }

  lemma JoinThree(a: string, b: string, c: string, sep: char)
    ensures Join([a, b, c], sep) == a + [sep] + b + [sep] + c
  {
    assert [a, b, c][1..] == [b, c];
    JoinTwo(b, c, sep);
  }

  lemma JoinFour(a: string, b: string, c: string, d: string, sep: char)
    ensures Join([a, b, c, d], sep) == a + [sep] + b + [sep] + c + [sep] + d
  {
    assert [a, b, c, d][1..] == [b, c, d];
    JoinThree(b, c, d, sep);
  }

  /** A dotted quad `a.b.c.d`: `ip_root` is `a.b` and `ip_group` is `a.b.c`. */
  lemma IpPrefixOfQuad(a: string, b: string, c: string, d: string)
    requires '.' !in a && '.' !in b && '.' !in c && '.' !in d
    ensures var ip := a + "." + b + "." + c + "." + d;
      && Split(ip, '.') == [a, b, c, d]
      && IpPrefix(ip, 2) == Some(a + "." + b)
      && IpPrefix(ip, 3) == Some(a + "." + b + "." + c)
  {
    var pieces := [a, b, c, d];
    JoinFour(a, b, c, d, '.');
    JoinSplit(pieces, '.');
    assert pieces[..2] == [a, b] && pieces[..3] == [a, b, c];
    JoinTwo(a, b, '.');
    JoinThree(a, b, c, '.');
  }

}
