/** The filter stages of the log parser, as functions on the rows of the
    working table. Each stage of `ErddapLogParser` loops over its pattern list
    and narrows the table once per pattern; the functions here say what one
    pass keeps and what the whole loop keeps. */
module Filters {
  import opened Wrappers
  import opened Seqs
  import opened Text
  import opened Counting
  import opened Records

  // ------------------------------------------------------- stage arguments

  const DefaultOrganisations: seq<string> := ["Google", "Crawlers", "SEMrush"]
  const DefaultBots: seq<string> :=
    ["bot", "Googlebot", "Bingbot", "spider", "Yandex", "Crawl", "SEMRush", "zh-CN", "zh_CN",
     "LieBaoFast", "MicroMessenger", "Kinza", "OPPO A33", "Aspeigel", "PetalBot", "Yeti", "QQBrowser",
     "slurp", "TheWorld", "GoogleOther", "loc.gov", "scrapy", "Mb2345Browser"]
  const DefaultLocales: seq<string> := ["zh-CN", "zh-TW", "ZH"]
  const DefaultSpam: seq<string> := [".env", "env.", ".php", ".git", "robots.txt", "phpinfo", "/config", "aws", ".xml"]
  const DefaultCommonStrings: seq<string> := ["/version", "favicon.ico", ".js", ".css", "/erddap/images"]

  /** How a caller invokes a stage that takes a pattern list: with no
      argument, or with its own list. */
  datatype FilterCall = DefaultCall | WithPatterns(patterns: seq<string>)

  /** The stats decorator as written: its wrapper accepts only `self`, so a
      stage called with any argument raises TypeError before it runs. */
  function AsWrittenPatterns(call: FilterCall, defaults: seq<string>): (r: Result<seq<string>, Error>)
    ensures r.Ok? <==> call == DefaultCall
    ensures r.Ok? ==> r.value == defaults
  {
    match call
    case DefaultCall => Ok(defaults)
    case WithPatterns(_) => Err(UnexpectedArgument)
  }

  /** Even passing the default list explicitly fails as written. */
  lemma DecoratorRejectsExplicitBots()
    ensures AsWrittenPatterns(WithPatterns(DefaultBots), DefaultBots) == Err(UnexpectedArgument)
    ensures AsWrittenPatterns(DefaultCall, DefaultBots) == Ok(DefaultBots)
  {
  }

  /** The decorator as intended: the caller's list reaches the stage, and
      the stage's default applies only without one. */
  function Forwarded(call: FilterCall, defaults: seq<string>): (r: seq<string>)
    ensures call.WithPatterns? ==> r == call.patterns
    ensures call == DefaultCall ==> r == defaults
  {
    match call
    case DefaultCall => defaults
    case WithPatterns(ps) => ps
  }

  // ------------------------------------------------------- single passes

  /** The string columns the stages test. */
  datatype Column = Url | UserAgent | Org | Isp

  function ColumnName(c: Column): string
  {
    match c
    case Url => "url"
    case UserAgent => "user-agent"
    case Org => "org"
    case Isp => "isp"
  }

  function ColumnValue(r: Row, c: Column): Option<string>
  {
    match c
    case Url => Some(r.url)
    case UserAgent => r.userAgent
    case Org => r.org
    case Isp => r.isp
  }

  /** Whether `filter(~col.str.contains(pattern))` keeps the row: a null
      cell gives a null predicate, and polars keeps only true rows. */
  predicate Survives(r: Row, c: Column, pattern: string, ignoreCase: bool)
  {
    ColumnValue(r, c).Some? && !RegexContains(ColumnValue(r, c).value, pattern, ignoreCase)
  }

  /** One pass `df.filter(~pl.col(c).str.contains(pattern))`. */
  function DropMatching(rows: seq<Row>, c: Column, pattern: string, ignoreCase: bool): (r: seq<Row>)
    ensures IsSubsequence(r, rows)
    ensures forall x :: x in r <==> x in rows && Survives(x, c, pattern, ignoreCase)
  {
    KeepSpec(rows, (x: Row) => Survives(x, c, pattern, ignoreCase));
    Keep(rows, (x: Row) => Survives(x, c, pattern, ignoreCase))
  }

  /** `df.filter(pl.col("url").str.contains(pattern))`. */
  function KeepMatchingUrl(rows: seq<Row>, pattern: string): (r: seq<Row>)
    ensures IsSubsequence(r, rows)
    ensures forall x :: x in r <==> x in rows && RegexContains(x.url, pattern, false)
  {
    KeepSpec(rows, (x: Row) => RegexContains(x.url, pattern, false));
    Keep(rows, (x: Row) => RegexContains(x.url, pattern, false))
  }

  // ------------------------------------------------------- pattern loops

  /** The loop `for p in patterns: df = df.filter(~col.str.contains(p))`. */
  function DropAll(rows: seq<Row>, c: Column, patterns: seq<string>, ignoreCase: bool): seq<Row>
    decreases |patterns|
  {
    if patterns == [] then rows
    else DropMatching(DropAll(rows, c, patterns[..|patterns| - 1], ignoreCase), c, patterns[|patterns| - 1], ignoreCase)
  }

  /** `s` matches none of `patterns`. */
  predicate AvoidsAll(s: string, patterns: seq<string>, ignoreCase: bool)
  {
    forall i :: 0 <= i < |patterns| ==> !RegexContains(s, patterns[i], ignoreCase)
  }

  /** The loop keeps, in order, exactly the rows whose cell is non-null and
      matches no pattern; with an empty list it keeps everything (null
      cells included). */
  lemma {:induction false} DropAllSpec(rows: seq<Row>, c: Column, patterns: seq<string>, ignoreCase: bool)
    ensures IsSubsequence(DropAll(rows, c, patterns, ignoreCase), rows)
    ensures patterns == [] ==> DropAll(rows, c, patterns, ignoreCase) == rows
    ensures patterns != [] ==>
              forall x :: x in DropAll(rows, c, patterns, ignoreCase) <==>
                x in rows && ColumnValue(x, c).Some? && AvoidsAll(ColumnValue(x, c).value, patterns, ignoreCase)
    decreases |patterns|
  {
    if patterns == [] {
      SubsequenceReflexive(rows);
    } else {
      var init := patterns[..|patterns| - 1];
      var last := patterns[|patterns| - 1];
      var mid := DropAll(rows, c, init, ignoreCase);
      DropAllSpec(rows, c, init, ignoreCase);
      SubsequenceTransitive(DropAll(rows, c, patterns, ignoreCase), mid, rows);
      forall x ensures x in DropAll(rows, c, patterns, ignoreCase) <==>
                x in rows && ColumnValue(x, c).Some? && AvoidsAll(ColumnValue(x, c).value, patterns, ignoreCase)
      {
        if ColumnValue(x, c).Some? {
          var v := ColumnValue(x, c).value;
          assert AvoidsAll(v, patterns, ignoreCase) <==> AvoidsAll(v, init, ignoreCase) && !RegexContains(v, last, ignoreCase) by {
            assert forall i :: 0 <= i < |init| ==> init[i] == patterns[i];
          }
        }
      }
    }
  }

  lemma DropAllShrinks(rows: seq<Row>, c: Column, patterns: seq<string>, ignoreCase: bool)
    ensures |DropAll(rows, c, patterns, ignoreCase)| <= |rows|
  {
    DropAllSpec(rows, c, patterns, ignoreCase);
    SubsequenceElems(DropAll(rows, c, patterns, ignoreCase), rows);
  }

  /** The default locale strings contain no `.`, so `filter_locales` with its
      defaults removes exactly the urls containing one of them literally. */
  lemma DefaultLocalesAreLiteral(rows: seq<Row>)
    ensures forall x :: x in DropAll(rows, Url, DefaultLocales, false) <==>
              x in rows && !ContainsLiteral(x.url, "zh-CN") && !ContainsLiteral(x.url, "zh-TW") && !ContainsLiteral(x.url, "ZH")
  {
    DropAllSpec(rows, Url, DefaultLocales, false);
    assert DefaultLocales[0] == "zh-CN" && DefaultLocales[1] == "zh-TW" && DefaultLocales[2] == "ZH";
    assert '.' !in "zh-CN" && '.' !in "zh-TW" && '.' !in "ZH";
    forall u: string ensures AvoidsAll(u, DefaultLocales, false) <==>
              !ContainsLiteral(u, "zh-CN") && !ContainsLiteral(u, "zh-TW") && !ContainsLiteral(u, "ZH")
    {
      PlainPatternIsLiteral(u, "zh-CN");
      PlainPatternIsLiteral(u, "zh-TW");
      PlainPatternIsLiteral(u, "ZH");
    }
  }

  /** In the default common strings `.` is a wildcard: `.js` also removes a
      url with `_js` in it. */
  lemma CommonStringsDotIsWildcard()
    ensures RegexContains("/a_js", ".js", false)
    ensures !ContainsLiteral("/a_js", ".js")
  {
    var pat := Compile(".js");
    assert pat == [AnyChar, Literal('j'), Literal('s')];
    assert "/a_js"[2..] == "_js";
    assert MatchesPrefix("_js", pat, false);
    assert Search("_js", pat, false);
    assert "/a_js"[1..] == "a_js" && "a_js"[1..] == "_js";
    assert Search("a_js", pat, false);
    assert Search("/a_js", pat, false);
    assert !ContainsLiteral("", ".js");
    assert "s"[1..] == "" && !ContainsLiteral("s", ".js");
    assert "js"[1..] == "s" && !ContainsLiteral("js", ".js");
    assert ".js"[0] == '.' && "_js"[0] == '_';
    assert "_js"[1..] == "js" && !(".js" <= "_js") && !ContainsLiteral("_js", ".js");
    assert !(".js" <= "a_js") && !ContainsLiteral("a_js", ".js");
    assert !(".js" <= "/a_js");
  }

  // ------------------------------------------------------- organisations

  /** `fill_null("unknown")` on `org` and `isp`. */
  function FillOrg(r: Row): Row
  {
    r.(org := Some(r.org.GetOr("unknown")))
  }

  function FillIsp(r: Row): Row
  {
    r.(isp := Some(r.isp.GetOr("unknown")))
  }

  function FillOrgColumn(rows: seq<Row>): (r: seq<Row>)
    ensures |r| == |rows| && forall i :: 0 <= i < |rows| ==> r[i] == FillOrg(rows[i])
  {
    seq(|rows|, i requires 0 <= i < |rows| => FillOrg(rows[i]))
  }

  function FillIspColumn(rows: seq<Row>): (r: seq<Row>)
    ensures |r| == |rows| && forall i :: 0 <= i < |rows| ==> r[i] == FillIsp(rows[i])
  {
    seq(|rows|, i requires 0 <= i < |rows| => FillIsp(rows[i]))
  }

  /** Null-filling gives every row an org and an isp, and changes a value
      only where it was null. */
  lemma FillUnknownSpec(rows: seq<Row>)
    ensures var f := FillIspColumn(FillOrgColumn(rows));
      && |f| == |rows|
      && forall i :: 0 <= i < |rows| ==>
           && f[i].org.Some? && f[i].isp.Some?
           && (rows[i].org.Some? ==> f[i].org == rows[i].org)
           && (rows[i].org.None? ==> f[i].org == Some("unknown"))
           && (rows[i].isp.Some? ==> f[i].isp == rows[i].isp)
           && (rows[i].isp.None? ==> f[i].isp == Some("unknown"))
           && f[i].(org := rows[i].org, isp := rows[i].isp) == rows[i]
  {
  }

  /** The organisation loop: each name is matched case-insensitively
      against `org`, then against `isp`. */
  function DropOrganisations(rows: seq<Row>, organisations: seq<string>): seq<Row>
    decreases |organisations|
  {
    if organisations == [] then rows
    else
      var o := organisations[|organisations| - 1];
      DropMatching(DropMatching(DropOrganisations(rows, organisations[..|organisations| - 1]), Org, o, true), Isp, o, true)
  }

  /** Avoiding a list is avoiding all but its last pattern and the last one. */
  lemma AvoidsAllSnoc(s: string, patterns: seq<string>, ignoreCase: bool)
    requires patterns != []
    ensures AvoidsAll(s, patterns, ignoreCase) <==>
              AvoidsAll(s, patterns[..|patterns| - 1], ignoreCase)
              && !RegexContains(s, patterns[|patterns| - 1], ignoreCase)
  {
    assert forall i :: 0 <= i < |patterns| - 1 ==> patterns[..|patterns| - 1][i] == patterns[i];
  }

  /** The organisation loop only deletes rows. */
  lemma {:induction false} DropOrganisationsSubsequence(rows: seq<Row>, organisations: seq<string>)
    ensures IsSubsequence(DropOrganisations(rows, organisations), rows)
    decreases |organisations|
  {
    if organisations == [] {
      SubsequenceReflexive(rows);
    } else {
      var init := organisations[..|organisations| - 1];
      var mid := DropOrganisations(rows, init);
      DropOrganisationsSubsequence(rows, init);
      var mid2 := DropMatching(mid, Org, organisations[|organisations| - 1], true);
      SubsequenceTransitive(mid2, mid, rows);
      SubsequenceTransitive(DropOrganisations(rows, organisations), mid2, rows);
    }
  }

  /** Which rows the organisation loop keeps, for a non-empty list. */
  lemma {:induction false} DropOrganisationsMember(rows: seq<Row>, organisations: seq<string>, x: Row)
    requires organisations != []
    ensures x in DropOrganisations(rows, organisations) <==>
              && x in rows && x.org.Some? && x.isp.Some?
              && AvoidsAll(x.org.value, organisations, true) && AvoidsAll(x.isp.value, organisations, true)
    decreases |organisations|
  {
    var init := organisations[..|organisations| - 1];
    if init != [] {
      DropOrganisationsMember(rows, init, x);
    }
    if x.org.Some? {
      AvoidsAllSnoc(x.org.value, organisations, true);
    }
    if x.isp.Some? {
      AvoidsAllSnoc(x.isp.value, organisations, true);
    }
  }

  /** After the loop no row's org or isp matches a blocked name (ignoring
      ASCII case), every row has an org and an isp when the list is not
      empty, and exactly the other rows remain, in order. */
  lemma DropOrganisationsSpec(rows: seq<Row>, organisations: seq<string>)
    ensures IsSubsequence(DropOrganisations(rows, organisations), rows)
    ensures organisations == [] ==> DropOrganisations(rows, organisations) == rows
    ensures organisations != [] ==>
              forall x :: x in DropOrganisations(rows, organisations) <==>
                && x in rows && x.org.Some? && x.isp.Some?
                && AvoidsAll(x.org.value, organisations, true) && AvoidsAll(x.isp.value, organisations, true)
  {
    DropOrganisationsSubsequence(rows, organisations);
    if organisations != [] {
      forall x ensures x in DropOrganisations(rows, organisations) <==>
                && x in rows && x.org.Some? && x.isp.Some?
                && AvoidsAll(x.org.value, organisations, true) && AvoidsAll(x.isp.value, organisations, true)
      {
        DropOrganisationsMember(rows, organisations, x);
      }
    }
  }

  lemma DropOrganisationsShrinks(rows: seq<Row>, organisations: seq<string>)
    ensures |DropOrganisations(rows, organisations)| <= |rows|
  {
    DropOrganisationsSpec(rows, organisations);
    SubsequenceElems(DropOrganisations(rows, organisations), rows);
  }

  /** What `filter_organisations` leaves of a table with both columns:
      nulls filled, then the organisation loop. */
  function OrganisationsFiltered(rows: seq<Row>, organisations: seq<string>): seq<Row>
  {
    DropOrganisations(FillIspColumn(FillOrgColumn(rows)), organisations)
  }

  /** `filter_organisations` as a whole on a table that has both columns:
      every remaining row has an org and an isp, none matching a blocked
      name, and each is an input row with only its nulls replaced. */
  lemma OrganisationsOutcome(rows: seq<Row>, organisations: seq<string>)
    ensures var filled := FillIspColumn(FillOrgColumn(rows));
      && IsSubsequence(DropOrganisations(filled, organisations), filled)
      && forall x :: x in DropOrganisations(filled, organisations) ==>
           && x.org.Some? && x.isp.Some?
           && AvoidsAll(x.org.value, organisations, true) && AvoidsAll(x.isp.value, organisations, true)
           && exists i :: 0 <= i < |rows| && x == FillIsp(FillOrg(rows[i]))
  {
    var filled := FillIspColumn(FillOrgColumn(rows));
    DropOrganisationsSpec(filled, organisations);
    SubsequenceElems(DropOrganisations(filled, organisations), filled);
    forall x | x in DropOrganisations(filled, organisations)
      ensures x.org.Some? && x.isp.Some? && exists i :: 0 <= i < |rows| && x == FillIsp(FillOrg(rows[i]))
    {
      var i :| 0 <= i < |filled| && filled[i] == x;
      assert x == FillIsp(FillOrg(rows[i]));
    }
  }

  // ------------------------------------------------------- spam

  /** `any(phrase in url for phrase in phrases)`, with Python's literal `in`. */
  predicate AnyLiteral(url: string, phrases: seq<string>)
    decreases |phrases|
  {
    phrases != [] && (ContainsLiteral(url, phrases[0]) || AnyLiteral(url, phrases[1..]))
  }

  lemma {:induction false} AnyLiteralIff(url: string, phrases: seq<string>)
    ensures AnyLiteral(url, phrases) <==> exists j :: 0 <= j < |phrases| && ContainsLiteral(url, phrases[j])
    decreases |phrases|
  {
    if phrases != [] {
      AnyLiteralIff(url, phrases[1..]);
      if AnyLiteral(url, phrases[1..]) {
        var j :| 0 <= j < |phrases[1..]| && ContainsLiteral(url, phrases[1..][j]);
        assert ContainsLiteral(url, phrases[j + 1]);
      }
      if exists j :: 0 <= j < |phrases| && ContainsLiteral(url, phrases[j]) {
        var j :| 0 <= j < |phrases| && ContainsLiteral(url, phrases[j]);
        if j > 0 {
          assert ContainsLiteral(url, phrases[1..][j - 1]);
        }
      }
    }
  }

  /** The table `filter_spam` leaves: the rows whose url contains no phrase. */
  function SpamFree(rows: seq<Row>, phrases: seq<string>): (r: seq<Row>)
    ensures IsSubsequence(r, rows)
    ensures forall x :: x in r <==> x in rows && !AnyLiteral(x.url, phrases)
    decreases |rows|
  {
    if rows == [] then []
    else
      var rest := SpamFree(rows[1..], phrases);
      assert forall x :: x in rows <==> x == rows[0] || x in rows[1..];
      if AnyLiteral(rows[0].url, phrases) then SubsequenceOfTail(rest, rows); rest
      else [rows[0]] + rest
  }

  /** `df.filter(~pl.col("url").is_in(bad_pages))`. */
  function WithoutUrls(rows: seq<Row>, badPages: seq<string>): (r: seq<Row>)
    decreases |rows|
  {
    if rows == [] then []
    else (if rows[0].url in badPages then [] else [rows[0]]) + WithoutUrls(rows[1..], badPages)
  }

  /** Removing the blacklisted urls is the spam filter whenever the
      blacklist holds exactly the spam urls of the table. */
  lemma {:induction false} BlacklistIsSpamFilter(rows: seq<Row>, badPages: seq<string>, phrases: seq<string>)
    requires forall x :: x in rows ==> (x.url in badPages <==> AnyLiteral(x.url, phrases))
    ensures WithoutUrls(rows, badPages) == SpamFree(rows, phrases)
    decreases |rows|
  {
    if rows != [] {
      assert rows[0] in rows;
      assert forall x :: x in rows[1..] ==> x in rows;
      BlacklistIsSpamFilter(rows[1..], badPages, phrases);
    }
  }

  /** `filter_spam` removes exactly the rows whose url contains some phrase
      as a plain substring, keeps the others in order, and treats equal urls
      alike. */
  lemma SpamFreeSpec(rows: seq<Row>, phrases: seq<string>)
    ensures forall x :: x in SpamFree(rows, phrases) <==>
              x in rows && forall j :: 0 <= j < |phrases| ==> !ContainsLiteral(x.url, phrases[j])
    ensures forall x, y :: x in rows && y in rows && x.url == y.url ==>
              (x in SpamFree(rows, phrases) <==> y in SpamFree(rows, phrases))
  {
    forall x: Row ensures AnyLiteral(x.url, phrases) <==> exists j :: 0 <= j < |phrases| && ContainsLiteral(x.url, phrases[j]) {
      AnyLiteralIff(x.url, phrases);
    }
  }

  /** A blacklist of exactly the spam urls of the table filters it as
      `SpamFree` does. */
  lemma SpamBlacklistRemovesSpam(rows: seq<Row>, badPages: seq<string>, phrases: seq<string>)
    requires forall u :: u in badPages <==> u in Urls(rows) && AnyLiteral(u, phrases)
    ensures WithoutUrls(rows, badPages) == SpamFree(rows, phrases)
    ensures |WithoutUrls(rows, badPages)| <= |rows|
  {
    forall x | x in rows ensures x.url in badPages <==> AnyLiteral(x.url, phrases) {
      var k :| 0 <= k < |rows| && rows[k] == x;
      assert Urls(rows)[k] == x.url;
    }
    BlacklistIsSpamFilter(rows, badPages, phrases);
    SubsequenceElems(SpamFree(rows, phrases), rows);
  }

  /** The urls of the table, as the spam stage counts them. */
  function Urls(rows: seq<Row>): (r: seq<string>)
    ensures |r| == |rows| && forall i :: 0 <= i < |rows| ==> r[i] == rows[i].url
  {
    seq(|rows|, i requires 0 <= i < |rows| => rows[i].url)
  }
}
