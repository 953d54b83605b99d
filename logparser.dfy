/** `ErddapLogParser`: a working table `df`, the baseline `unfiltered_df`
    it is reset to by `undo_filter`, the row count `original_total_requests`
    of that baseline, the name of the last filter stage and the IP cache of
    the last enrichment. Loading merges a batch into `df`; filter stages
    narrow `df`; loading, subsetting and undoing take a new baseline. */
module LogParser {
  import opened Wrappers
  import opened Seqs
  import opened Text
  import opened Counting
  import opened Records
  import opened Adapters
  import opened IpInfo
  import opened Filters

  // ------------------------------------------------------- subsampling

  /** `int(len / entries)`: the quotient truncated toward zero. */
  function Stride(n: nat, entries: int): (r: int)
    requires entries != 0
    ensures entries > 0 ==> r * entries <= n < (r + 1) * entries
    ensures entries < 0 ==> r <= 0
  {
    if entries > 0 then n / entries else -(n / -entries)
  }

  /** `gather_every(stride)`: rows 0, stride, 2·stride, … */
  function GatherEvery(s: seq<Row>, stride: nat): seq<Row>
    requires stride >= 1
    decreases |s|
  {
    if s == [] then []
    else if |s| <= stride then [s[0]]
    else [s[0]] + GatherEvery(s[stride..], stride)
  }

  /** ceil(n / k). */
  function Ceil(n: nat, k: nat): nat
    requires k >= 1
  {
    (n + k - 1) / k
  }

  lemma MulLe(a: int, b: int, k: nat)
    requires a <= b
    ensures a * k <= b * k
  {
    var d := b - a;
    assert b * k == a * k + d * k;
  }

  /** `Ceil(n, k)` is the least count of k-blocks covering n. */
  lemma CeilSpec(n: nat, k: nat)
    requires k >= 1
    ensures n <= Ceil(n, k) * k < n + k
  {
    var c := Ceil(n, k);
    var m := (n + k - 1) % k;
    assert n + k - 1 == c * k + m;
  }

  lemma CeilStep(a: nat, k: nat)
    requires k >= 1
    ensures Ceil(a + k, k) == Ceil(a, k) + 1
  {
    CeilSpec(a, k);
    CeilSpec(a + k, k);
    var c, c2 := Ceil(a, k), Ceil(a + k, k);
    assert (c + 1) * k == c * k + k;
    if c2 < c + 1 {
      MulLe(c2, c, k);
    } else if c2 > c + 1 {
      MulLe(c + 2, c2, k);
    }
  }

  /** The subsample has ceil(n / stride) rows. */
  lemma {:induction false} GatherEveryLength(s: seq<Row>, stride: nat)
    requires stride >= 1
    ensures |GatherEvery(s, stride)| == Ceil(|s|, stride)
    decreases |s|
  {
    if s == [] {
      CeilSpec(0, stride);
      if Ceil(0, stride) >= 1 {
        MulLe(1, Ceil(0, stride), stride);
      }
    } else if |s| <= stride {
      CeilSpec(|s|, stride);
      var c := Ceil(|s|, stride);
      if c >= 2 {
        MulLe(2, c, stride);
      }
    } else {
      GatherEveryLength(s[stride..], stride);
      CeilStep(|s| - stride, stride);
    }
  }

  /** Row i of the subsample is row i·stride of the table. */
  lemma {:induction false} GatherEveryIndex(s: seq<Row>, stride: nat)
    requires stride >= 1
    ensures forall i :: 0 <= i < |GatherEvery(s, stride)| ==>
              i * stride < |s| && GatherEvery(s, stride)[i] == s[i * stride]
    decreases |s|
  {
    if |s| > stride {
      var r, rest := GatherEvery(s, stride), GatherEvery(s[stride..], stride);
      GatherEveryIndex(s[stride..], stride);
      forall i | 0 <= i < |r| ensures i * stride < |s| && r[i] == s[i * stride] {
        if i > 0 {
          assert r[i] == rest[i - 1];
          assert (i - 1) * stride + stride == i * stride;
        }
      }
    }
  }

  /** The subsample is an ordered subsequence of the table. */
  lemma {:induction false} GatherEverySubsequence(s: seq<Row>, stride: nat)
    requires stride >= 1
    ensures IsSubsequence(GatherEvery(s, stride), s)
    decreases |s|
  {
    var r := GatherEvery(s, stride);
    if s != [] && |s| <= stride {
      assert r[1..] == [];
    } else if |s| > stride {
      var rest := GatherEvery(s[stride..], stride);
      GatherEverySubsequence(s[stride..], stride);
      assert r[1..] == rest;
      assert s[1..][stride - 1..] == s[stride..];
      SubsequenceOfSuffix(rest, s[1..], stride - 1);
    }
  }

  /** The subsample has ceil(n / stride) rows, row i being row i·stride of
      the table, in order. */
  lemma GatherEverySpec(s: seq<Row>, stride: nat)
    requires stride >= 1
    ensures |GatherEvery(s, stride)| == Ceil(|s|, stride)
    ensures forall i :: 0 <= i < |GatherEvery(s, stride)| ==>
              i * stride < |s| && GatherEvery(s, stride)[i] == s[i * stride]
    ensures IsSubsequence(GatherEvery(s, stride), s)
  {
    GatherEveryLength(s, stride);
    GatherEveryIndex(s, stride);
    GatherEverySubsequence(s, stride);
  }

  lemma CoverLower(n: nat, st: nat, e: nat, c: nat)
    requires st >= 1 && st * e <= n && n <= c * st
    ensures e <= c
  {
    if c < e {
      MulLe(c, e - 1, st);
    }
  }

  lemma CoverUpper(n: nat, st: nat, e: nat, c: nat)
    requires st >= 1 && e >= 1 && n < st * e + e && c * st < n + st
    ensures c <= 2 * e - 1
  {
    if c >= 2 * e {
      MulLe(2 * e, c, st);
      MulLe(0, e - 1, st - 1);
    }
  }

  /** With 0 < entries <= n the stride is at least 1 and the subsample
      keeps between `entries` and 2·entries − 1 rows. */
  lemma SubsetSize(n: nat, entries: int)
    requires 0 < entries <= n
    ensures Stride(n, entries) >= 1
    ensures entries <= Ceil(n, Stride(n, entries)) <= 2 * entries - 1
  {
    var st := Stride(n, entries);
    assert st >= 1 by {
      if st <= 0 {
        MulLe(st + 1, 1, entries);
      }
    }
    CeilSpec(n, st);
    assert (st + 1) * entries == st * entries + entries;
    CoverLower(n, st, entries, Ceil(n, st));
    CoverUpper(n, st, entries, Ceil(n, st));
  }

  // ------------------------------------------------------- spam blacklist

  /** The `bad_pages` loop of `filter_spam`: every distinct url, most
      frequent first, is blacklisted when it contains some phrase. */
  method SpamBlacklist(urls: seq<string>, phrases: seq<string>) returns (badPages: seq<string>)
    ensures forall u :: u in badPages <==> u in urls && AnyLiteral(u, phrases)
  {
    var pageCounts := MostCommon(urls);
    badPages := [];
    for i := 0 to |pageCounts|
      invariant forall u :: u in badPages <==> u in Keys(pageCounts)[..i] && AnyLiteral(u, phrases)
    {
      var page := pageCounts[i].0;
      ghost var earlier := badPages;
      for j := 0 to |phrases|
        invariant forall u :: u in badPages <==>
                    u in earlier || (u == page && exists k :: 0 <= k < j && ContainsLiteral(page, phrases[k]))
      {
        if ContainsLiteral(page, phrases[j]) {
          badPages := badPages + [page];
        }
      }
      AnyLiteralIff(page, phrases);
      assert Keys(pageCounts)[..i + 1] == Keys(pageCounts)[..i] + [page];
    }
    assert Keys(pageCounts)[..|pageCounts|] == Keys(pageCounts);
    MostCommonSpec(urls);
  }

  /** The rows `filter_spam` keeps: build the blacklist, then drop the
      blacklisted urls. */
  method SpamRows(rows: seq<Row>, phrases: seq<string>) returns (kept: seq<Row>)
    ensures kept == SpamFree(rows, phrases)
    ensures |kept| <= |rows|
  {
    var badPages := SpamBlacklist(Urls(rows), phrases);
    SpamBlacklistRemovesSpam(rows, badPages, phrases);
    kept := WithoutUrls(rows, badPages);
  }

  // ------------------------------------------------------- the parser

  class ErddapLogParser {
    var df: Frame
    /** `unfiltered_df`: absent until the first load, subset or undo. */
    var baseline: Option<Frame>
    var originalTotal: nat
    var filterName: Option<string>
    /** `self.ip`: the IP cache of the last enrichment. */
    var ip: IpCache

    /** The baseline and its row count are taken together. */
    ghost predicate Valid()
      reads this
    {
      && (baseline.None? ==> originalTotal == 0)
      && (baseline.Some? ==> originalTotal == |baseline.value.rows|)
    }

    constructor ()
      ensures Valid()
      ensures df == Frame([], {}) && baseline.None? && originalTotal == 0
      ensures filterName.None? && ip == IpCache([], {})
    {
      df := Frame([], {});
      baseline := None;
      originalTotal := 0;
      filterName := None;
      ip := IpCache([], {});
    }

    /** `_update_original_total_requests`: the current table becomes the baseline. */
    method UpdateOriginalTotalRequests()
      modifies this
      ensures Valid()
      ensures baseline == Some(df) && originalTotal == |df.rows|
      ensures df == old(df) && filterName == old(filterName) && ip == old(ip)
    {
      originalTotal := |df.rows|;
      baseline := Some(df);
    }

    /** `subset_df(entries)`: keep every stride-th row and take a new baseline.
        The source's default of 100 entries is left to the caller, which passes
        `entries` explicitly. */
    method SubsetDf(entries: int) returns (r: Result<(), Error>)
      requires Valid()
      modifies this
      ensures Valid()
      ensures entries == 0 ==> r == Err(ZeroDivision)
      ensures entries != 0 && Stride(|old(df.rows)|, entries) <= 0 ==>
                r == Err(InvalidStride(Stride(|old(df.rows)|, entries)))
      ensures r.Err? ==> unchanged(this)
      ensures entries != 0 && Stride(|old(df.rows)|, entries) >= 1 ==>
                && r.Ok?
                && df == Frame(GatherEvery(old(df.rows), Stride(|old(df.rows)|, entries)), old(df.columns))
                && baseline == Some(df) && originalTotal == |df.rows|
                && filterName == old(filterName) && ip == old(ip)
    {
      if entries == 0 {
        return Err(ZeroDivision);
      }
      var stride := Stride(|df.rows|, entries);
      if stride <= 0 {
        return Err(InvalidStride(stride));
      }
      df := df.(rows := GatherEvery(df.rows, stride));
      UpdateOriginalTotalRequests();
      r := Ok(());
    }

    /** The shared tail of both loaders: concatenate, sort, `unique()`, and
        take a new baseline. Concatenation needs the same columns unless the
        table has none yet. */
    method Merge(batch: Frame) returns (r: Result<(), Error>)
      requires Valid()
      modifies this
      ensures Valid()
      ensures r.Err? <==> old(df.columns) != {} && old(df.columns) != batch.columns
      ensures r.Err? ==> r == Err(SchemaMismatch) && unchanged(this)
      ensures r.Ok? ==>
                && df.columns == batch.columns
                && NoDup(df.rows)
                && (forall x :: x in df.rows <==> x in old(df.rows) || x in batch.rows)
                && baseline == Some(df) && originalTotal == |df.rows|
                && filterName == old(filterName) && ip == old(ip)
    {
      if df.columns != {} && df.columns != batch.columns {
        return Err(SchemaMismatch);
      }
      var combined := SortByTime(df.rows + batch.rows);
      SortByTimeElems(df.rows + batch.rows);
      df := Frame(Distinct(combined), batch.columns);
      UpdateOriginalTotalRequests();
      r := Ok(());
    }

    /** `load_apache_logs` over the entries the parser library yields per file. */
    method LoadApacheLogs(files: seq<seq<ApacheEntry>>) returns (r: Result<(), Error>)
      requires Valid()
      modifies this
      ensures Valid()
      ensures files == [] ==> r == Err(NoLogFiles)
      ensures files != [] ==> (r.Err? <==> old(df.columns) != {} && old(df.columns) != LogColumns)
      ensures r.Err? ==> unchanged(this)
      ensures r.Ok? ==>
                && df.columns == LogColumns
                && NoDup(df.rows)
                && (forall x :: x in df.rows <==> x in old(df.rows) || x in ApacheRows(files))
                && baseline == Some(df) && originalTotal == |df.rows|
                && filterName == old(filterName) && ip == old(ip)
    {
      var batch := LoadApacheFiles(files);
      if batch.Err? {
        return Err(batch.error);
      }
      assert forall x :: x in batch.value.rows <==> x in ApacheRows(files) by {
        assert forall x :: x in batch.value.rows <==> x in multiset(batch.value.rows);
      }
      r := Merge(batch.value);
    }

    /** `load_nginx_logs` over the lines of each file and the line regex. */
    method LoadNginxLogs(files: seq<LogFile>, search: string -> Option<NginxMatch>) returns (r: Result<(), Error>)
      requires Valid()
      modifies this
      ensures Valid()
      ensures files == [] ==> r == Err(NoLogFiles)
      ensures files != [] && !AllTimestampsParse(NginxMatches(files, search)) ==> r == Err(TimestampFormat)
      ensures files != [] && AllTimestampsParse(NginxMatches(files, search)) ==>
                (r.Err? <==> old(df.columns) != {} && old(df.columns) != LogColumns)
      ensures r.Err? ==> unchanged(this)
      ensures r.Ok? ==>
                && AllTimestampsParse(NginxMatches(files, search))
                && df.columns == LogColumns
                && NoDup(df.rows)
                && (forall x :: x in df.rows <==> x in old(df.rows) || x in MatchRows(NginxMatches(files, search)))
                && baseline == Some(df) && originalTotal == |df.rows|
                && filterName == old(filterName) && ip == old(ip)
    {
      var batch := LoadNginxFiles(files, search);
      if batch.Err? {
        return Err(batch.error);
      }
      assert forall x :: x in batch.value.rows <==> x in MatchRows(NginxMatches(files, search)) by {
        assert forall x :: x in batch.value.rows <==> x in multiset(batch.value.rows);
      }
      r := Merge(batch.value);
    }

    /** The tail of `get_ip_info`: left-join the cache, derive the prefix
        columns (which raises when no address has three pieces) and sort by
        time. */
    method Enrich(cache: IpCache) returns (r: Result<(), Error>)
      requires Valid()
      modifies this
      ensures Valid()
      ensures !SomeIpHasPieces(LeftJoin(old(df.rows), cache.records), 3) ==>
                r == Err(MissingPiece("ip")) && unchanged(this)
      ensures SomeIpHasPieces(LeftJoin(old(df.rows), cache.records), 3) ==>
                && r.Ok? && ip == cache
                && SortedByTime(df.rows)
                && multiset(df.rows) == multiset(WithPrefixes(LeftJoin(old(df.rows), cache.records)))
                && df.columns == old(df.columns) + cache.columns + {"ip_root", "ip_group"}
                && baseline == old(baseline) && originalTotal == old(originalTotal)
                && filterName == old(filterName)
    {
      var joined := LeftJoin(df.rows, cache.records);
      if !SomeIpHasPieces(joined, 3) {
        return Err(MissingPiece("ip"));
      }
      df := Frame(SortByTime(WithPrefixes(joined)), df.columns + cache.columns + {"ip_root", "ip_group"});
      ip := cache;
      r := Ok(());
    }

    /** `get_ip_info`: nothing to do once the table has a `country` column;
        otherwise fill the cache, left-join it, derive the prefixes and sort
        by time. `queried` is the addresses requested. */
    method GetIpInfo(existing: Option<IpCache>, downloadNew: bool, respond: (nat, string) -> Response)
      returns (r: Result<(), Error>, queried: seq<string>)
      requires Valid()
      modifies this
      ensures Valid()
      ensures "country" in old(df.columns) ==> r.Ok? && queried == [] && unchanged(this)
      ensures "country" !in old(df.columns) ==>
                var cache := Finish(StartCache(existing), Lookups(old(df.rows), existing, downloadNew, respond));
                && queried == Lookups(old(df.rows), existing, downloadNew, respond).queried
                && (cache.Err? ==> r == Err(cache.error))
                && (cache.Ok? && !SomeIpHasPieces(LeftJoin(old(df.rows), cache.value.records), 3) ==>
                      r == Err(MissingPiece("ip")))
                && (cache.Ok? && SomeIpHasPieces(LeftJoin(old(df.rows), cache.value.records), 3) ==> r.Ok?)
                && (r.Err? ==> unchanged(this))
                && (r.Ok? ==>
                      && cache.Ok? && ip == cache.value
                      && SortedByTime(df.rows)
                      && multiset(df.rows) == multiset(WithPrefixes(LeftJoin(old(df.rows), ip.records)))
                      && df.columns == old(df.columns) + ip.columns + {"ip_root", "ip_group"}
                      && baseline == old(baseline) && originalTotal == old(originalTotal)
                      && filterName == old(filterName))
    {
      queried := [];
      if "country" in df.columns {
        return Ok(()), queried;
      }
      var cache;
      cache, queried := FetchIpInfo(df.rows, existing, downloadNew, respond);
      if cache.Err? {
        return Err(cache.error), queried;
      }
      r := Enrich(cache.value);
    }

    // ----------------------------------------------------- filter stages
    // Each stage reports `len_before - len_after` rows dropped, as the
    // stats decorator prints it, and leaves the baseline alone.

    /** `filter_non_erddap`: keep the urls matching "erddap". The stage
        name is set before the filter runs. */
    method FilterNonErddap() returns (r: Result<nat, Error>)
      requires Valid()
      modifies this
      ensures Valid()
      ensures filterName == Some("non erddap")
      ensures baseline == old(baseline) && originalTotal == old(originalTotal) && ip == old(ip)
      ensures df.columns == old(df.columns)
      ensures "url" !in old(df.columns) ==> r == Err(MissingColumn("url")) && df == old(df)
      ensures "url" in old(df.columns) ==>
                && df.rows == KeepMatchingUrl(old(df.rows), "erddap")
                && r == Ok(|old(df.rows)| - |df.rows|)
    {
      filterName := Some("non erddap");
      if "url" !in df.columns {
        return Err(MissingColumn("url"));
      }
      var before := df.rows;
      df := df.(rows := KeepMatchingUrl(df.rows, "erddap"));
      SubsequenceElems(df.rows, before);
      r := Ok(|before| - |df.rows|);
    }

    /** The loop shared by the stages that drop rows matching any of a list
        of patterns in one column; the first pass raises when the column is
        absent. */
    method DropEach(c: Column, patterns: seq<string>, ignoreCase: bool) returns (r: Result<nat, Error>)
      requires Valid()
      modifies this
      ensures Valid()
      ensures baseline == old(baseline) && originalTotal == old(originalTotal) && ip == old(ip)
      ensures filterName == old(filterName) && df.columns == old(df.columns)
      ensures patterns != [] && ColumnName(c) !in old(df.columns) ==>
                r == Err(MissingColumn(ColumnName(c))) && df == old(df)
      ensures patterns == [] || ColumnName(c) in old(df.columns) ==>
                && df.rows == DropAll(old(df.rows), c, patterns, ignoreCase)
                && r == Ok(|old(df.rows)| - |df.rows|)
    {
      var before := df.rows;
      if patterns != [] && ColumnName(c) !in df.columns {
        return Err(MissingColumn(ColumnName(c)));
      }
      for i := 0 to |patterns|
        invariant df.rows == DropAll(before, c, patterns[..i], ignoreCase)
        invariant df.columns == old(df.columns)
        invariant baseline == old(baseline) && originalTotal == old(originalTotal) && ip == old(ip)
        invariant filterName == old(filterName)
      {
        assert patterns[..i + 1][..i] == patterns[..i];
        df := df.(rows := DropMatching(df.rows, c, patterns[i], ignoreCase));
      }
      assert patterns[..|patterns|] == patterns;
      DropAllShrinks(before, c, patterns, ignoreCase);
      r := Ok(|before| - |df.rows|);
    }

    /** The loop of `filter_organisations` over the blocked names. */
    method DropOrganisationsLoop(organisations: seq<string>)
      requires Valid()
      modifies this
      ensures Valid()
      ensures df == old(df).(rows := DropOrganisations(old(df.rows), organisations))
      ensures baseline == old(baseline) && originalTotal == old(originalTotal) && ip == old(ip)
      ensures filterName == old(filterName)
    {
      var start := df.rows;
      for i := 0 to |organisations|
        invariant df == old(df).(rows := DropOrganisations(start, organisations[..i]))
        invariant baseline == old(baseline) && originalTotal == old(originalTotal) && ip == old(ip)
        invariant filterName == old(filterName)
      {
        assert organisations[..i + 1][..i] == organisations[..i];
        df := df.(rows := DropMatching(df.rows, Org, organisations[i], true));
        df := df.(rows := DropMatching(df.rows, Isp, organisations[i], true));
      }
      assert organisations[..|organisations|] == organisations;
    }

    /** `filter_organisations` for a given list of names. */
    method FillAndDropOrganisations(organisations: seq<string>) returns (r: Result<nat, Error>)
      requires Valid()
      modifies this
      ensures Valid()
      ensures baseline == old(baseline) && originalTotal == old(originalTotal) && ip == old(ip)
      ensures df.columns == old(df.columns)
      ensures "org" !in old(df.columns) ==> r == Err(MissingColumn("org")) && unchanged(this)
      ensures "org" in old(df.columns) && "isp" !in old(df.columns) ==>
                && r == Err(MissingColumn("isp"))
                && df.rows == FillOrgColumn(old(df.rows)) && filterName == old(filterName)
      ensures "org" in old(df.columns) && "isp" in old(df.columns) ==>
                && df.rows == OrganisationsFiltered(old(df.rows), organisations)
                && r == Ok(|old(df.rows)| - |df.rows|)
                && filterName == Some("organisations")
    {
      var before := |df.rows|;
      if "org" !in df.columns {
        return Err(MissingColumn("org"));
      }
      df := df.(rows := FillOrgColumn(df.rows));
      if "isp" !in df.columns {
        return Err(MissingColumn("isp"));
      }
      df := df.(rows := FillIspColumn(df.rows));
      var filled := df.rows;
      DropOrganisationsLoop(organisations);
      DropOrganisationsShrinks(filled, organisations);
      filterName := Some("organisations");
      r := Ok(before - |df.rows|);
    }

    /** `filter_organisations`: null org/isp become "unknown", then rows whose
        org or isp matches a blocked name (ignoring case) are dropped. */
    method FilterOrganisations(call: FilterCall) returns (r: Result<nat, Error>)
      requires Valid()
      modifies this
      ensures Valid()
      ensures baseline == old(baseline) && originalTotal == old(originalTotal) && ip == old(ip)
      ensures df.columns == old(df.columns)
      ensures "org" !in old(df.columns) ==> r == Err(MissingColumn("org")) && unchanged(this)
      ensures "org" in old(df.columns) && "isp" !in old(df.columns) ==>
                && r == Err(MissingColumn("isp"))
                && df.rows == FillOrgColumn(old(df.rows)) && filterName == old(filterName)
      ensures "org" in old(df.columns) && "isp" in old(df.columns) ==>
                && df.rows == OrganisationsFiltered(old(df.rows), Forwarded(call, DefaultOrganisations))
                && r == Ok(|old(df.rows)| - |df.rows|)
                && filterName == Some("organisations")
    {
      r := FillAndDropOrganisations(Forwarded(call, DefaultOrganisations));
    }

    /** `filter_user_agents`: drop user agents matching a bot name (ignoring
        case); rows without a user agent go too. */
    method FilterUserAgents(call: FilterCall) returns (r: Result<nat, Error>)
      requires Valid()
      modifies this
      ensures Valid()
      ensures baseline == old(baseline) && originalTotal == old(originalTotal) && ip == old(ip)
      ensures df.columns == old(df.columns)
      ensures r.Err? ==> df == old(df) && filterName == old(filterName)
      ensures Forwarded(call, DefaultBots) != [] && "user-agent" !in old(df.columns) ==>
                r == Err(MissingColumn("user-agent"))
      ensures Forwarded(call, DefaultBots) == [] || "user-agent" in old(df.columns) ==>
                && df.rows == DropAll(old(df.rows), UserAgent, Forwarded(call, DefaultBots), true)
                && r == Ok(|old(df.rows)| - |df.rows|)
                && filterName == Some("user agents")
    {
      r := DropEach(UserAgent, Forwarded(call, DefaultBots), true);
      if r.Ok? {
        filterName := Some("user agents");
      }
    }

    /** `filter_locales`: drop urls matching a locale string. */
    method FilterLocales(call: FilterCall) returns (r: Result<nat, Error>)
      requires Valid()
      modifies this
      ensures Valid()
      ensures baseline == old(baseline) && originalTotal == old(originalTotal) && ip == old(ip)
      ensures df.columns == old(df.columns)
      ensures r.Err? ==> df == old(df) && filterName == old(filterName)
      ensures Forwarded(call, DefaultLocales) != [] && "url" !in old(df.columns) ==>
                r == Err(MissingColumn("url"))
      ensures Forwarded(call, DefaultLocales) == [] || "url" in old(df.columns) ==>
                && df.rows == DropAll(old(df.rows), Url, Forwarded(call, DefaultLocales), false)
                && r == Ok(|old(df.rows)| - |df.rows|)
                && filterName == Some("locales")
    {
      r := DropEach(Url, Forwarded(call, DefaultLocales), false);
      if r.Ok? {
        filterName := Some("locales");
      }
    }

    /** `filter_common_strings`: drop urls matching a common-file pattern. */
    method FilterCommonStrings(call: FilterCall) returns (r: Result<nat, Error>)
      requires Valid()
      modifies this
      ensures Valid()
      ensures baseline == old(baseline) && originalTotal == old(originalTotal) && ip == old(ip)
      ensures df.columns == old(df.columns)
      ensures r.Err? ==> df == old(df) && filterName == old(filterName)
      ensures Forwarded(call, DefaultCommonStrings) != [] && "url" !in old(df.columns) ==>
                r == Err(MissingColumn("url"))
      ensures Forwarded(call, DefaultCommonStrings) == [] || "url" in old(df.columns) ==>
                && df.rows == DropAll(old(df.rows), Url, Forwarded(call, DefaultCommonStrings), false)
                && r == Ok(|old(df.rows)| - |df.rows|)
                && filterName == Some("common files")
    {
      r := DropEach(Url, Forwarded(call, DefaultCommonStrings), false);
      if r.Ok? {
        filterName := Some("common files");
      }
    }

    /** `filter_files`: drop urls matching "/files". */
    method FilterFiles() returns (r: Result<nat, Error>)
      requires Valid()
      modifies this
      ensures Valid()
      ensures baseline == old(baseline) && originalTotal == old(originalTotal) && ip == old(ip)
      ensures df.columns == old(df.columns)
      ensures "url" !in old(df.columns) ==>
                r == Err(MissingColumn("url")) && df == old(df) && filterName == old(filterName)
      ensures "url" in old(df.columns) ==>
                && df.rows == DropMatching(old(df.rows), Url, "/files", false)
                && r == Ok(|old(df.rows)| - |df.rows|)
                && filterName == Some("files")
    {
      if "url" !in df.columns {
        return Err(MissingColumn("url"));
      }
      var before := df.rows;
      df := df.(rows := DropMatching(df.rows, Url, "/files", false));
      SubsequenceElems(df.rows, before);
      filterName := Some("files");
      r := Ok(|before| - |df.rows|);
    }

    /** The body of `filter_spam` for a given phrase list. */
    method DropSpam(phrases: seq<string>) returns (r: Result<nat, Error>)
      requires Valid()
      modifies this
      ensures Valid()
      ensures baseline == old(baseline) && originalTotal == old(originalTotal) && ip == old(ip)
      ensures df.columns == old(df.columns) && filterName == old(filterName)
      ensures "url" !in old(df.columns) ==> r == Err(MissingColumn("url")) && df == old(df)
      ensures "url" in old(df.columns) ==>
                && df.rows == SpamFree(old(df.rows), phrases)
                && r == Ok(|old(df.rows)| - |df.rows|)
    {
      if "url" !in df.columns {
        return Err(MissingColumn("url"));
      }
      var before := df.rows;
      var kept := SpamRows(before, phrases);
      df := df.(rows := kept);
      r := Ok(|before| - |kept|);
    }

    /** `filter_spam`: blacklist every distinct url that contains a spam
        phrase (Python's literal `in`), then drop the blacklisted urls. */
    method FilterSpam(call: FilterCall) returns (r: Result<nat, Error>)
      requires Valid()
      modifies this
      ensures Valid()
      ensures baseline == old(baseline) && originalTotal == old(originalTotal) && ip == old(ip)
      ensures df.columns == old(df.columns)
      ensures r.Err? ==> df == old(df) && filterName == old(filterName)
      ensures "url" !in old(df.columns) ==> r == Err(MissingColumn("url"))
      ensures "url" in old(df.columns) ==>
                && df.rows == SpamFree(old(df.rows), Forwarded(call, DefaultSpam))
                && r == Ok(|old(df.rows)| - |df.rows|)
                && filterName == Some("spam")
    {
      r := DropSpam(Forwarded(call, DefaultSpam));
      if r.Ok? {
        filterName := Some("spam");
      }
    }

    /** `undo_filter`: restore the baseline and take it again. Before any
        load there is no baseline and the call fails. */
    method UndoFilter() returns (r: Result<(), Error>)
      requires Valid()
      modifies this
      ensures Valid()
      ensures old(baseline).None? ==> r == Err(NotLoaded) && unchanged(this)
      ensures old(baseline).Some? ==>
                && r.Ok?
                && df == old(baseline).value && baseline == old(baseline)
                && originalTotal == old(originalTotal)
                && filterName == old(filterName) && ip == old(ip)
    {
      if baseline.None? {
        return Err(NotLoaded);
      }
      df := baseline.value;
      UpdateOriginalTotalRequests();
      r := Ok(());
    }
  }

  /** Undoing twice leaves the parser as undoing once does. */
  method UndoTwice(p: ErddapLogParser)
    requires p.Valid() && p.baseline.Some?
    modifies p
    ensures p.Valid()
    ensures p.df == old(p.baseline).value && p.baseline == old(p.baseline)
    ensures p.originalTotal == old(p.originalTotal) && p.filterName == old(p.filterName) && p.ip == old(p.ip)
  {
    var first := p.UndoFilter();
    var df1, baseline1, total1 := p.df, p.baseline, p.originalTotal;
    var second := p.UndoFilter();
    assert p.df == df1 && p.baseline == baseline1 && p.originalTotal == total1;
  }

  /** Loading a batch whose rows are all in the table already leaves its
      rows and their number as they were. */
  lemma ReloadKeepsRows(before: seq<Row>, batch: seq<Row>, after: seq<Row>)
    requires NoDup(before) && NoDup(after)
    requires forall x :: x in after <==> x in before || x in batch
    requires forall x :: x in batch ==> x in before
    ensures forall x :: x in after <==> x in before
    ensures |after| == |before|
  {
    SameElemsSameLength(after, before);
  }
}
