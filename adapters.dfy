/** The two log-format adapters, reduced to what they do per entry or per
    line: the Apache adapter turns each parsed entry into a row, taking the
    URL from the request line; the nginx adapter keeps only lines its regular
    expression finds a match in. Directory globbing, file reading, the
    apachelogs parser and the nginx regular expression itself are inputs. */
module Adapters {
  import opened Wrappers
  import opened Seqs
  import opened Text
  import opened Records

  // ------------------------------------------------------------- Apache

  /** What apachelogs yields for one line of the combined log format. */
  datatype ApacheEntry = ApacheEntry(
    requestTime: int,             // entry.request_time as pandas nanoseconds, offset dropped
    remoteHost: string,           // entry.remote_host
    requestLine: Option<string>,  // entry.request_line
    userAgent: Option<string>,    // entry.headers_in["User-Agent"]
    finalStatus: int)             // entry.final_status

  /** `request_line.split(" ")[1]`, or "" when that raises (no second token,
      or no request line at all). */
  function ApacheUrl(requestLine: Option<string>): string
  {
    match requestLine
    case None => ""
    case Some(line) =>
      var tokens := Split(line, ' ');
      if |tokens| >= 2 then tokens[1] else ""
  }

  /** The URL is the second space-separated token of a well-formed request
      line, never contains a space, and is empty when the line has no space. */
  lemma ApacheUrlSpec(verb: string, target: string, protocol: string)
    requires ' ' !in verb && ' ' !in target
    ensures ApacheUrl(Some(verb + " " + target + " " + protocol)) == target
    ensures ' ' !in ApacheUrl(Some(verb))
    ensures ApacheUrl(Some(verb)) == ""
    ensures ApacheUrl(None) == ""
  {
    var rest := Split(protocol, ' ');
    assert forall i :: 0 <= i < |rest| ==> ' ' !in rest[i] by { SplitJoin(protocol, ' '); }
    SplitJoin(protocol, ' ');
    var pieces := [verb, target] + rest;
    assert pieces[2..] == rest;
    assert pieces[1..][1..] == rest;
    assert Join(pieces[1..], ' ') == target + " " + Join(rest, ' ');
    assert Join(pieces, ' ') == verb + " " + (target + " " + protocol);
    assert verb + " " + target + " " + protocol == verb + " " + (target + " " + protocol);
    JoinSplit(pieces, ' ');
    SplitCountsSeparators(verb, ' ');
  }

  /** One row per entry; the datetime column is cut from nanoseconds to
      microseconds by floor division (`cast(int) // 1_000`). */
  function ApacheRow(e: ApacheEntry): Row
  {
    LogRow(e.remoteHost, e.requestTime / 1000, ApacheUrl(e.requestLine), e.userAgent, e.finalStatus)
  }

  function EntryRows(entries: seq<ApacheEntry>): (r: seq<Row>)
    ensures |r| == |entries| && forall i :: 0 <= i < |entries| ==> r[i] == ApacheRow(entries[i])
  {
    seq(|entries|, i requires 0 <= i < |entries| => ApacheRow(entries[i]))
  }

  /** The rows of every entry of every file, file after file. */
  function ApacheRows(files: seq<seq<ApacheEntry>>): seq<Row>
    decreases |files|
  {
    if files == [] then [] else ApacheRows(files[..|files| - 1]) + EntryRows(files[|files| - 1])
  }

  /** `_load_apache_logs`: fails when there is no file, otherwise one row per
      entry, sorted by datetime. */
  method LoadApacheFiles(files: seq<seq<ApacheEntry>>) returns (r: Result<Frame, Error>)
    ensures files == [] ==> r == Err(NoLogFiles)
    ensures files != [] ==> r.Ok?
    ensures r.Ok? ==> r.value.columns == LogColumns
    ensures r.Ok? ==> SortedByTime(r.value.rows)
    ensures r.Ok? ==> multiset(r.value.rows) == multiset(ApacheRows(files))
  {
    if |files| == 0 {
      return Err(NoLogFiles);
    }
    var rows: seq<Row> := [];
    for f := 0 to |files|
      invariant rows == ApacheRows(files[..f])
    {
      for j := 0 to |files[f]|
        invariant rows == ApacheRows(files[..f]) + EntryRows(files[f][..j])
      {
        assert EntryRows(files[f][..j + 1]) == EntryRows(files[f][..j]) + [ApacheRow(files[f][j])];
        rows := rows + [ApacheRow(files[f][j])];
      }
      assert files[f][..|files[f]|] == files[f];
      assert files[..f + 1][..f] == files[..f];
    }
    assert files[..|files|] == files;
    return Ok(Frame(SortByTime(rows), LogColumns));
  }

  // -------------------------------------------------------------- nginx

  /** A log file found by the glob: its path and its lines. */
  datatype LogFile = LogFile(name: string, lines: seq<string>)

  predicate EndsWith(s: string, suffix: string)
  {
    |suffix| <= |s| && s[|s| - |suffix|..] == suffix
  }

  /** The lines the nginx loader searches, AS WRITTEN: a ".gz" file is opened
      with `gzip.open(f)`, whose default mode is binary, so each line is
      bytes and `re.search` with a str pattern raises TypeError on the first
      one. */
  function NginxLinesAsWritten(file: LogFile): (r: Result<seq<string>, Error>)
    ensures r.Err? <==> EndsWith(file.name, ".gz") && file.lines != []
    ensures r.Err? ==> r.error == BytesLine
    ensures r.Ok? ==> r.value == file.lines
  {
    if EndsWith(file.name, ".gz") && file.lines != [] then Err(BytesLine) else Ok(file.lines)
  }

  /** A compressed log with one well-formed line is refused as written. */
  lemma GzipLinesAsWrittenRaise(line: string)
    ensures NginxLinesAsWritten(LogFile("tomcat-access.log.1.gz", [line])) == Err(BytesLine)
  {
    assert "tomcat-access.log.1.gz"[19..] == ".gz";
  }

  /** The lines the nginx loader searches once gzip files are opened in text
      mode (`gzip.open(f, "rt")`): the decompressed lines whatever the suffix. */
  function NginxLines(file: LogFile): (r: Result<seq<string>, Error>)
    ensures r == Ok(file.lines)
  {
    Ok(file.lines)
  }

  /** What a successful `re.search(lineformat, line)` yields: the named
      groups, with the timestamp already passed through
      `strptime("%d/%b/%Y:%H:%M:%S +0000")` (None when that format rejects it). */
  datatype NginxMatch = NginxMatch(
    ip: string,
    timestamp: Option<int>,
    url: string,
    statusCode: int,
    userAgent: string)

  /** The captures of the lines the search matches, in order; the rest are skipped. */
  function LineMatches(lines: seq<string>, search: string -> Option<NginxMatch>): seq<NginxMatch>
    decreases |lines|
  {
    if lines == [] then []
    else
      var init := LineMatches(lines[..|lines| - 1], search);
      match search(lines[|lines| - 1])
      case Some(m) => init + [m]
      case None => init
  }

  function NginxMatches(files: seq<LogFile>, search: string -> Option<NginxMatch>): seq<NginxMatch>
    decreases |files|
  {
    if files == [] then []
    else NginxMatches(files[..|files| - 1], search) + LineMatches(files[|files| - 1].lines, search)
  }

  /** The lenient-parse policy: the loader keeps exactly the captures of the
      lines the regular expression matches, and nothing from any other line. */
  lemma {:induction false} LineMatchesSpec(lines: seq<string>, search: string -> Option<NginxMatch>)
    ensures |LineMatches(lines, search)| <= |lines|
    ensures forall l :: l in lines && search(l).Some? ==> search(l).value in LineMatches(lines, search)
    ensures forall m :: m in LineMatches(lines, search) ==> exists l :: l in lines && search(l) == Some(m)
    decreases |lines|
  {
    if lines != [] {
      var init := lines[..|lines| - 1];
      var last := lines[|lines| - 1];
      LineMatchesSpec(init, search);
      assert lines == init + [last];
      assert forall l :: l in lines <==> l in init || l == last;
      var ms := LineMatches(init, search);
      forall m | m in LineMatches(lines, search) ensures exists l :: l in lines && search(l) == Some(m) {
        if m in ms {
          var l :| l in init && search(l) == Some(m);
          assert l in lines;
        } else {
          assert search(last) == Some(m);
        }
      }
    }
  }

  function NginxRow(m: NginxMatch, datetime: int): Row
  {
    LogRow(m.ip, datetime, m.url, Some(m.userAgent), m.statusCode)
  }

  /** Whether strptime accepts every matched timestamp. */
  predicate AllTimestampsParse(ms: seq<NginxMatch>)
  {
    forall i :: 0 <= i < |ms| ==> ms[i].timestamp.Some?
  }

  function MatchRows(ms: seq<NginxMatch>): (r: seq<Row>)
    requires AllTimestampsParse(ms)
    ensures |r| == |ms|
    ensures forall i :: 0 <= i < |ms| ==> r[i] == NginxRow(ms[i], ms[i].timestamp.value)
  {
    seq(|ms|, i requires 0 <= i < |ms| => NginxRow(ms[i], ms[i].timestamp.value))
  }

  /** `_load_nginx_logs`: fails when there is no file or when strptime rejects
      a matched timestamp; otherwise one row per matched line, sorted by
      datetime. */
  method LoadNginxFiles(files: seq<LogFile>, search: string -> Option<NginxMatch>)
    returns (r: Result<Frame, Error>)
    ensures files == [] ==> r == Err(NoLogFiles)
    ensures files != [] && !AllTimestampsParse(NginxMatches(files, search)) ==> r == Err(TimestampFormat)
    ensures files != [] && AllTimestampsParse(NginxMatches(files, search)) ==> r.Ok?
    ensures r.Ok? ==> r.value.columns == LogColumns
    ensures r.Ok? ==> SortedByTime(r.value.rows)
    ensures r.Ok? ==> multiset(r.value.rows) == multiset(MatchRows(NginxMatches(files, search)))
  {
    if |files| == 0 {
      return Err(NoLogFiles);
    }
    var matched: seq<NginxMatch> := [];
    for f := 0 to |files|
      invariant matched == NginxMatches(files[..f], search)
    {
      var lines := NginxLines(files[f]);
      var ls := lines.value;
      for j := 0 to |ls|
        invariant matched == NginxMatches(files[..f], search) + LineMatches(ls[..j], search)
      {
        assert ls[..j + 1][..j] == ls[..j];
        var data := search(ls[j]);
        if data.Some? {
          matched := matched + [data.value];
        }
      }
      assert ls[..|ls|] == ls;
      assert files[..f + 1][..f] == files[..f];
    }
    assert files[..|files|] == files;
    // strptime over the whole column: one bad timestamp fails the load
    var rows: seq<Row> := [];
    for i := 0 to |matched|
      invariant AllTimestampsParse(matched[..i])
      invariant rows == MatchRows(matched[..i])
    {
      if matched[i].timestamp.None? {
        return Err(TimestampFormat);
      }
      rows := rows + [NginxRow(matched[i], matched[i].timestamp.value)];
    }
    assert matched[..|matched|] == matched;
    return Ok(Frame(SortByTime(rows), LogColumns));
  }
}
