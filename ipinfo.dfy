/** The IP-enrichment cache: `_get_ip_info` asks an external geolocation
    service about every visitor address the cache does not know yet, most
    frequent visitor first, and stops at the first rate-limit answer; the
    working table is then left-joined against the cache. The HTTP service is a
    parameter: `respond(k, ip)` is the answer to the k-th request of the call. */
module IpInfo {
  import opened Wrappers
  import opened Seqs
  import opened Counting
  import opened Records

  /** One cache row, keyed by `query`. Only the fields the pipeline reads are
      modelled; a None is a missing value (or a key the response lacked). */
  datatype IpRecord = IpRecord(
    query: Option<string>,
    country: Option<string>,
    org: Option<string>,
    isp: Option<string>)

  /** The cache table: its rows and its column names. */
  datatype IpCache = IpCache(records: seq<IpRecord>, columns: set<string>)

  /** The columns a response contributes when it is appended to the cache. */
  function RecordColumns(rec: IpRecord): set<string>
  {
    (if rec.query.Some? then {"query"} else {}) +
    (if rec.country.Some? then {"country"} else {}) +
    (if rec.org.Some? then {"org"} else {}) +
    (if rec.isp.Some? then {"isp"} else {})
  }

  /** The cache used when no cache file exists: `pd.DataFrame({"query": [None]})`. */
  const FreshCache: IpCache := IpCache([IpRecord(None, None, None, None)], {"query"})

  /** An answer of the geolocation service: HTTP 429, or the decoded JSON. */
  datatype Response = RateLimited | Answer(record: IpRecord)

  /** The cache's `query` column. */
  function Queries(records: seq<IpRecord>): (r: seq<Option<string>>)
    ensures |r| == |records| && forall i :: 0 <= i < |records| ==> r[i] == records[i].query
  {
    seq(|records|, i requires 0 <= i < |records| => records[i].query)
  }

  /** `ip in df_ip["query"].values`. */
  predicate Cached(records: seq<IpRecord>, ip: string)
  {
    Some(ip) in Queries(records)
  }

  /** The ip column of the working table. */
  function Ips(rows: seq<Row>): (r: seq<string>)
    ensures |r| == |rows| && forall i :: 0 <= i < |rows| ==> r[i] == rows[i].ip
  {
    seq(|rows|, i requires 0 <= i < |rows| => rows[i].ip)
  }

  /** What a run of lookups added: the new records, the columns they
      brought and the addresses that were requested, in request order. */
  datatype Fetched = Fetched(records: seq<IpRecord>, columns: set<string>, queried: seq<string>)

  /** The lookup loop over `ips` against a cache holding `cache`, numbering
      requests from `k`: a cached address is skipped, a 429 ends the loop
      (the request was made but nothing is added), any other answer is
      appended and the loop goes on. */
  function Fetch(ips: seq<string>, cache: seq<IpRecord>, k: nat, respond: (nat, string) -> Response): Fetched
    decreases |ips|
  {
    if ips == [] then Fetched([], {}, [])
    else if Cached(cache, ips[0]) then Fetch(ips[1..], cache, k, respond)
    else match respond(k, ips[0])
      case RateLimited => Fetched([], {}, [ips[0]])
      case Answer(rec) =>
        var rest := Fetch(ips[1..], cache + [rec], k + 1, respond);
        Fetched([rec] + rest.records, RecordColumns(rec) + rest.columns, [ips[0]] + rest.queried)
  }

  /** The addresses requested come from `ips`, in its order, were all absent
      from the cache, and none is requested twice. */
  lemma {:induction false} FetchQueriesOnlyUncached(ips: seq<string>, cache: seq<IpRecord>, k: nat,
                                                    respond: (nat, string) -> Response)
    ensures IsSubsequence(Fetch(ips, cache, k, respond).queried, ips)
    ensures forall q :: q in Fetch(ips, cache, k, respond).queried ==> !Cached(cache, q)
    ensures NoDup(ips) ==> NoDup(Fetch(ips, cache, k, respond).queried)
    decreases |ips|
  {
    var r := Fetch(ips, cache, k, respond);
    if ips != [] {
      if Cached(cache, ips[0]) {
        FetchQueriesOnlyUncached(ips[1..], cache, k, respond);
        SubsequenceOfTail(r.queried, ips);
      } else {
        match respond(k, ips[0]) {
          case RateLimited =>
            assert r.queried == [ips[0]];
            assert r.queried[1..] == [];
          case Answer(rec) =>
            var rest := Fetch(ips[1..], cache + [rec], k + 1, respond);
            FetchQueriesOnlyUncached(ips[1..], cache + [rec], k + 1, respond);
            assert r.queried[1..] == rest.queried;
            forall q | q in rest.queried ensures !Cached(cache, q) {
              assert Queries(cache + [rec]) == Queries(cache) + [rec.query];
            }
        }
        if NoDup(ips) {
          SubsequenceNoDup(r.queried, ips);
        }
      }
      if NoDup(ips) {
        SubsequenceNoDup(r.queried, ips);
      }
    }
  }

  /** At most one request goes unanswered, and it is the last. */
  lemma {:induction false} FetchAnswerCount(ips: seq<string>, cache: seq<IpRecord>, k: nat,
                                            respond: (nat, string) -> Response)
    ensures var r := Fetch(ips, cache, k, respond);
      |r.records| <= |r.queried| <= |r.records| + 1
    decreases |ips|
  {
    if ips != [] {
      if Cached(cache, ips[0]) {
        FetchAnswerCount(ips[1..], cache, k, respond);
      } else if respond(k, ips[0]).Answer? {
        FetchAnswerCount(ips[1..], cache + [respond(k, ips[0]).record], k + 1, respond);
      }
    }
  }

  /** The j-th answered request got the j-th appended record. */
  lemma {:induction false} FetchAnswerAt(ips: seq<string>, cache: seq<IpRecord>, k: nat,
                                         respond: (nat, string) -> Response, j: nat)
    requires j < |Fetch(ips, cache, k, respond).records|
    ensures j < |Fetch(ips, cache, k, respond).queried|
    ensures var r := Fetch(ips, cache, k, respond);
      respond(k + j, r.queried[j]) == Answer(r.records[j])
    decreases |ips|
  {
    if Cached(cache, ips[0]) {
      FetchAnswerAt(ips[1..], cache, k, respond, j);
    } else {
      var rec := respond(k, ips[0]).record;
      if j > 0 {
        FetchAnswerAt(ips[1..], cache + [rec], k + 1, respond, j - 1);
      }
    }
  }

  /** The last request, when unanswered, got the 429. */
  lemma {:induction false} FetchRateLimitLast(ips: seq<string>, cache: seq<IpRecord>, k: nat,
                                              respond: (nat, string) -> Response)
    requires |Fetch(ips, cache, k, respond).queried| == |Fetch(ips, cache, k, respond).records| + 1
    ensures var r := Fetch(ips, cache, k, respond);
      respond(k + |r.records|, r.queried[|r.records|]) == RateLimited
    decreases |ips|
  {
    if Cached(cache, ips[0]) {
      FetchRateLimitLast(ips[1..], cache, k, respond);
    } else if respond(k, ips[0]).Answer? {
      FetchRateLimitLast(ips[1..], cache + [respond(k, ips[0]).record], k + 1, respond);
    }
  }

  /** Every request but possibly the last was answered, and its answer was
      appended in request order; a last request without an answer is the 429
      that stopped the loop. */
  lemma FetchStopsAtRateLimit(ips: seq<string>, cache: seq<IpRecord>, k: nat,
                              respond: (nat, string) -> Response)
    ensures var r := Fetch(ips, cache, k, respond);
      && |r.records| <= |r.queried| <= |r.records| + 1
      && (forall j :: 0 <= j < |r.records| ==> respond(k + j, r.queried[j]) == Answer(r.records[j]))
      && (|r.queried| == |r.records| + 1 ==> respond(k + |r.records|, r.queried[|r.records|]) == RateLimited)
  {
    var r := Fetch(ips, cache, k, respond);
    FetchAnswerCount(ips, cache, k, respond);
    forall j | 0 <= j < |r.records| ensures respond(k + j, r.queried[j]) == Answer(r.records[j]) {
      FetchAnswerAt(ips, cache, k, respond, j);
    }
    if |r.queried| == |r.records| + 1 {
      FetchRateLimitLast(ips, cache, k, respond);
    }
  }

  /** Growing the cache keeps what it had. */
  lemma CachedAppend(a: seq<IpRecord>, b: seq<IpRecord>, ip: string)
    requires Cached(a, ip)
    ensures Cached(a + b, ip)
  {
    var i :| 0 <= i < |a| && Queries(a)[i] == Some(ip);
    assert Queries(a + b)[i] == Some(ip);
  }

  /** Without a 429, a given address ends up requested or in the grown cache. */
  lemma {:induction false} FetchCompleteAt(ips: seq<string>, cache: seq<IpRecord>, k: nat,
                                           respond: (nat, string) -> Response, ip: string)
    requires |Fetch(ips, cache, k, respond).queried| == |Fetch(ips, cache, k, respond).records|
    requires ip in ips
    ensures ip in Fetch(ips, cache, k, respond).queried || Cached(cache + Fetch(ips, cache, k, respond).records, ip)
    decreases |ips|
  {
    var r := Fetch(ips, cache, k, respond);
    if Cached(cache, ips[0]) {
      if ip == ips[0] {
        CachedAppend(cache, r.records, ip);
      } else {
        assert ip in ips[1..];
        FetchCompleteAt(ips[1..], cache, k, respond, ip);
      }
    } else {
      var rec := respond(k, ips[0]).record;
      var rest := Fetch(ips[1..], cache + [rec], k + 1, respond);
      assert r.records == [rec] + rest.records && r.queried == [ips[0]] + rest.queried;
      if ip != ips[0] {
        assert ip in ips[1..];
        FetchCompleteAt(ips[1..], cache + [rec], k + 1, respond, ip);
        assert cache + [rec] + rest.records == cache + r.records;
      }
    }
  }

  /** Without a 429, every address ends up either requested or already in
      the (grown) cache. */
  lemma FetchCompleteWithoutRateLimit(ips: seq<string>, cache: seq<IpRecord>, k: nat,
                                      respond: (nat, string) -> Response)
    requires |Fetch(ips, cache, k, respond).queried| == |Fetch(ips, cache, k, respond).records|
    ensures forall ip :: ip in ips ==>
              ip in Fetch(ips, cache, k, respond).queried ||
              Cached(cache + Fetch(ips, cache, k, respond).records, ip)
  {
    forall ip | ip in ips
      ensures ip in Fetch(ips, cache, k, respond).queried || Cached(cache + Fetch(ips, cache, k, respond).records, ip)
    {
      FetchCompleteAt(ips, cache, k, respond, ip);
    }
  }

  /** When a 429 ends the loop, a given address placed before the
      rate-limited one in a duplicate-free list was requested or is in the
      grown cache. */
  lemma {:induction false} FetchCompleteBefore(ips: seq<string>, cache: seq<IpRecord>, k: nat,
                                               respond: (nat, string) -> Response, j: nat, ip: string)
    requires NoDup(ips)
    requires |Fetch(ips, cache, k, respond).queried| == |Fetch(ips, cache, k, respond).records| + 1
    requires j < |ips| && ips[j] == Fetch(ips, cache, k, respond).queried[|Fetch(ips, cache, k, respond).records|]
    requires ip in ips[..j]
    ensures ip in Fetch(ips, cache, k, respond).queried || Cached(cache + Fetch(ips, cache, k, respond).records, ip)
    decreases |ips|
  {
    var r := Fetch(ips, cache, k, respond);
    assert ips[..j] == [ips[0]] + ips[1..][..j - 1];
    if Cached(cache, ips[0]) {
      if ip == ips[0] {
        CachedAppend(cache, r.records, ip);
      } else {
        FetchCompleteBefore(ips[1..], cache, k, respond, j - 1, ip);
      }
    } else if ip != ips[0] {
      var rec := respond(k, ips[0]).record;
      var rest := Fetch(ips[1..], cache + [rec], k + 1, respond);
      assert r.records == [rec] + rest.records && r.queried == [ips[0]] + rest.queried;
      FetchCompleteBefore(ips[1..], cache + [rec], k + 1, respond, j - 1, ip);
      assert cache + [rec] + rest.records == cache + r.records;
    }
  }

  /** When a 429 ends the loop over a duplicate-free list, every address
      before the rate-limited one was requested or is in the grown cache: no
      uncached address is skipped. */
  lemma FetchCompleteUpToRateLimit(ips: seq<string>, cache: seq<IpRecord>, k: nat,
                                   respond: (nat, string) -> Response, j: nat)
    requires NoDup(ips)
    requires |Fetch(ips, cache, k, respond).queried| == |Fetch(ips, cache, k, respond).records| + 1
    requires j < |ips| && ips[j] == Fetch(ips, cache, k, respond).queried[|Fetch(ips, cache, k, respond).records|]
    ensures forall i :: 0 <= i < j ==>
              ips[i] in Fetch(ips, cache, k, respond).queried ||
              Cached(cache + Fetch(ips, cache, k, respond).records, ips[i])
  {
    forall i | 0 <= i < j
      ensures ips[i] in Fetch(ips, cache, k, respond).queried ||
              Cached(cache + Fetch(ips, cache, k, respond).records, ips[i])
    {
      assert ips[i] in ips[..j];
      FetchCompleteBefore(ips, cache, k, respond, j, ips[i]);
    }
  }

  /** Each address is in the cache at most once. */
  predicate UniqueQueries(records: seq<IpRecord>)
  {
    forall i, j :: 0 <= i < j < |records| && records[i].query.Some? ==> records[i].query != records[j].query
  }

  /** A service that echoes the requested address in `query` (as the
      geolocation service does) keeps the cache keys unique. */
  lemma {:induction false} FetchKeepsQueriesUnique(ips: seq<string>, cache: seq<IpRecord>, k: nat,
                                                   respond: (nat, string) -> Response)
    requires UniqueQueries(cache)
    requires forall n: nat, ip :: respond(n, ip).Answer? ==> respond(n, ip).record.query == Some(ip)
    ensures UniqueQueries(cache + Fetch(ips, cache, k, respond).records)
    decreases |ips|
  {
    if ips == [] {
      assert cache + [] == cache;
    } else if Cached(cache, ips[0]) {
      FetchKeepsQueriesUnique(ips[1..], cache, k, respond);
    } else {
      match respond(k, ips[0]) {
        case RateLimited =>
          assert cache + [] == cache;
        case Answer(rec) =>
          var grown := cache + [rec];
          assert UniqueQueries(grown) by {
            forall i | 0 <= i < |cache| && cache[i].query.Some? ensures cache[i].query != rec.query {
              assert Queries(cache)[i] == cache[i].query;
            }
          }
          FetchKeepsQueriesUnique(ips[1..], grown, k + 1, respond);
          var rest := Fetch(ips[1..], grown, k + 1, respond);
          assert grown + rest.records == cache + Fetch(ips, cache, k, respond).records;
      }
    }
  }

  /** The example of a stub that answers the first of three new addresses
      and rate-limits the second: exactly one record is added and the third
      address is never requested. */
  lemma RateLimitExample(a: string, b: string, c: string, rec: IpRecord, respond: (nat, string) -> Response)
    requires a != b && rec.query == Some(a)
    requires respond(0, a) == Answer(rec) && respond(1, b) == RateLimited
    ensures Fetch([a, b, c], [], 0, respond) == Fetched([rec], RecordColumns(rec), [a, b])
  {
    assert [a, b, c][1..] == [b, c];
    assert [b, c][1..] == [c];
    assert Queries([rec]) == [Some(a)];
    assert !Cached([rec], b);
    assert Queries([]) == [];
    assert Fetch([b, c], [rec], 1, respond) == Fetched([], {}, [b]);
  }

  /** `df_ip.dropna(subset='country')`. */
  function DropNullCountry(records: seq<IpRecord>): (r: seq<IpRecord>)
    ensures forall i :: 0 <= i < |r| ==> r[i].country.Some?
    ensures IsSubsequence(r, records)
    ensures forall x :: x in r <==> x in records && x.country.Some?
  {
    KeepSpec(records, (x: IpRecord) => x.country.Some?);
    var kept := Keep(records, (x: IpRecord) => x.country.Some?);
    assert forall i :: 0 <= i < |kept| ==> kept[i] in kept;
    kept
  }

  /** The cache `_get_ip_info` starts from: the file's contents, or a fresh one. */
  function StartCache(existing: Option<IpCache>): IpCache
  {
    existing.GetOr(FreshCache)
  }

  /** The end of `_get_ip_info`: drop rows without a country; that raises
      KeyError when the cache never got a `country` column. */
  function Finish(start: IpCache, f: Fetched): (r: Result<IpCache, Error>)
    ensures r.Err? <==> "country" !in start.columns + f.columns
    ensures r.Ok? ==> r.value.columns == start.columns + f.columns
    ensures r.Ok? ==> forall i :: 0 <= i < |r.value.records| ==> r.value.records[i].country.Some?
    ensures r.Ok? ==> IsSubsequence(r.value.records, start.records + f.records)
  {
    var columns := start.columns + f.columns;
    if "country" !in columns then Err(MissingColumn("country"))
    else Ok(IpCache(DropNullCountry(start.records + f.records), columns))
  }

  /** The lookups `_get_ip_info` makes: none unless `download_new`, else
      the loop over the visitors, most frequent first. */
  function Lookups(rows: seq<Row>, existing: Option<IpCache>, downloadNew: bool,
                   respond: (nat, string) -> Response): Fetched
  {
    if downloadNew then Fetch(Keys(MostCommon(Ips(rows))), StartCache(existing).records, 0, respond)
    else Fetched([], {}, [])
  }

  /** `_get_ip_info` requests only addresses of the table that the starting
      cache lacks, each once, most frequent visitor first, and none at all
      when `download_new` is false. */
  lemma LookupsSpec(rows: seq<Row>, existing: Option<IpCache>, downloadNew: bool,
                    respond: (nat, string) -> Response)
    ensures var q := Lookups(rows, existing, downloadNew, respond).queried;
      && (!downloadNew ==> q == [])
      && NoDup(q)
      && ByFrequency(q, Ips(rows))
      && (forall ip :: ip in q ==> ip in Ips(rows) && !Cached(StartCache(existing).records, ip))
  {
    if downloadNew {
      var ips := Keys(MostCommon(Ips(rows)));
      var q := Lookups(rows, existing, downloadNew, respond).queried;
      MostCommonSpec(Ips(rows));
      MostCommonByFrequency(Ips(rows));
      FetchQueriesOnlyUncached(ips, StartCache(existing).records, 0, respond);
      SubsequenceByFrequency(q, ips, Ips(rows));
      SubsequenceElems(q, ips);
    }
  }

  /** `acc` followed by `rest`. */
  function Extend(acc: Fetched, rest: Fetched): Fetched
  {
    Fetched(acc.records + rest.records, acc.columns + rest.columns, acc.queried + rest.queried)
  }

  /** One step of the lookup loop at position `i`, in terms of `Fetch`. */
  lemma FetchStep(ips: seq<string>, i: nat, cache: seq<IpRecord>, k: nat, respond: (nat, string) -> Response)
    requires i < |ips|
    ensures Cached(cache, ips[i]) ==> Fetch(ips[i..], cache, k, respond) == Fetch(ips[i + 1..], cache, k, respond)
    ensures !Cached(cache, ips[i]) && respond(k, ips[i]).RateLimited? ==>
              Fetch(ips[i..], cache, k, respond) == Fetched([], {}, [ips[i]])
    ensures !Cached(cache, ips[i]) && respond(k, ips[i]).Answer? ==>
              var rec := respond(k, ips[i]).record;
              Fetch(ips[i..], cache, k, respond) ==
              Extend(Fetched([rec], RecordColumns(rec), [ips[i]]), Fetch(ips[i + 1..], cache + [rec], k + 1, respond))
  {
    assert ips[i..][0] == ips[i] && ips[i..][1..] == ips[i + 1..];
  }

  lemma ExtendAssoc(a: Fetched, b: Fetched, c: Fetched)
    ensures Extend(Extend(a, b), c) == Extend(a, Extend(b, c))
  {
    assert (a.records + b.records) + c.records == a.records + (b.records + c.records);
    assert (a.queried + b.queried) + c.queried == a.queried + (b.queried + c.queried);
  }

  /** The lookup loop of `_get_ip_info` over the visitors `ips`, most
      frequent first, against the starting cache `cache`. */
  method FetchLoop(ips: seq<string>, cache: seq<IpRecord>, respond: (nat, string) -> Response)
    returns (acc: Fetched)
    ensures acc == Fetch(ips, cache, 0, respond)
  {
    var records := cache;
    acc := Fetched([], {}, []);
    ghost var total := Fetch(ips, cache, 0, respond);
    var i := 0;
    var stopped := false;
    while i < |ips| && !stopped
      invariant 0 <= i <= |ips|
      invariant records == cache + acc.records
      invariant !stopped ==> |acc.records| == |acc.queried|
      invariant !stopped ==> total == Extend(acc, Fetch(ips[i..], records, |acc.queried|, respond))
      invariant stopped ==> total == acc
    {
      var ip := ips[i];
      FetchStep(ips, i, records, |acc.queried|, respond);
      if !Cached(records, ip) {
        var resp := respond(|acc.queried|, ip);
        if resp.RateLimited? {
          acc := Extend(acc, Fetched([], {}, [ip]));
          stopped := true;
        } else {
          var step := Fetched([resp.record], RecordColumns(resp.record), [ip]);
          ExtendAssoc(acc, step, Fetch(ips[i + 1..], records + [resp.record], |acc.queried| + 1, respond));
          acc := Extend(acc, step);
          records := records + [resp.record];
        }
      }
      i := i + 1;
    }
    if !stopped {
      assert ips[i..] == [];
      assert acc.records + [] == acc.records && acc.queried + [] == acc.queried;
    }
  }

  /** `_get_ip_info(df, ip_info_csv, download_new)`; `existing` is the cache
      file's table when the file exists, `queried` the addresses requested. */
  method FetchIpInfo(rows: seq<Row>, existing: Option<IpCache>, downloadNew: bool,
                   respond: (nat, string) -> Response)
    returns (r: Result<IpCache, Error>, queried: seq<string>)
    ensures queried == Lookups(rows, existing, downloadNew, respond).queried
    ensures r == Finish(StartCache(existing), Lookups(rows, existing, downloadNew, respond))
  {
    var start := StartCache(existing);
    var acc := Fetched([], {}, []);
    if downloadNew {
      var ipCounts := MostCommon(Ips(rows));
      acc := FetchLoop(Keys(ipCounts), start.records, respond);
    }
    queried := acc.queried;
    r := Finish(start, acc);
  }

  // ----------------------------------------------------------- left join

  /** The cache rows whose `query` is exactly `ip`, in cache order. */
  function Matching(records: seq<IpRecord>, ip: string): (r: seq<IpRecord>)
    ensures forall x :: x in r <==> x in records && x.query == Some(ip)
    decreases |records|
  {
    if records == [] then []
    else (if records[0].query == Some(ip) then [records[0]] else []) + Matching(records[1..], ip)
  }

  /** A row with the cache fields of `rec` attached, or with them null. */
  function Attach(row: Row, rec: Option<IpRecord>): Row
  {
    match rec
    case None => row.(query := None, country := None, org := None, isp := None)
    case Some(x) => row.(query := x.query, country := x.country, org := x.org, isp := x.isp)
  }

  /** The rows a left merge produces for one row: one per matching cache
      row, or the row with null cache fields when nothing matches. */
  function JoinRow(row: Row, records: seq<IpRecord>): (r: seq<Row>)
    ensures |r| >= 1
  {
    var ms := Matching(records, row.ip);
    if ms == [] then [Attach(row, None)]
    else seq(|ms|, i requires 0 <= i < |ms| => Attach(row, Some(ms[i])))
  }

  /** `pd.merge(df, df_ip, left_on="ip", right_on="query", how="left")`. */
  function LeftJoin(rows: seq<Row>, records: seq<IpRecord>): (r: seq<Row>)
    ensures |r| >= |rows|
    decreases |rows|
  {
    if rows == [] then [] else JoinRow(rows[0], records) + LeftJoin(rows[1..], records)
  }

  /** The cache row for `ip`, if any, when keys are unique. */
  function Lookup(records: seq<IpRecord>, ip: string): Option<IpRecord>
  {
    var ms := Matching(records, ip);
    if ms == [] then None else Some(ms[0])
  }

  lemma {:induction false} MatchingNone(records: seq<IpRecord>, ip: string)
    requires forall x :: x in records ==> x.query != Some(ip)
    ensures Matching(records, ip) == []
    decreases |records|
  {
    if records != [] {
      assert records[0] in records;
      assert forall x :: x in records[1..] ==> x in records;
      MatchingNone(records[1..], ip);
    }
  }

  lemma {:induction false} UniqueMatching(records: seq<IpRecord>, ip: string)
    requires UniqueQueries(records)
    ensures |Matching(records, ip)| <= 1
    decreases |records|
  {
    if records != [] {
      assert UniqueQueries(records[1..]);
      UniqueMatching(records[1..], ip);
      if records[0].query == Some(ip) {
        forall x | x in records[1..] ensures x.query != Some(ip) {
          var j :| 0 <= j < |records[1..]| && records[1..][j] == x;
          assert records[j + 1] == x;
        }
        MatchingNone(records[1..], ip);
      }
    }
  }

  /** With unique cache keys the join keeps the table's rows one for one and
      in order: each row gets the cache fields of its own address, or nulls;
      every other column is untouched. */
  lemma {:induction false} LeftJoinUnique(rows: seq<Row>, records: seq<IpRecord>)
    requires UniqueQueries(records)
    ensures |LeftJoin(rows, records)| == |rows|
    ensures forall i :: 0 <= i < |rows| ==> LeftJoin(rows, records)[i] == Attach(rows[i], Lookup(records, rows[i].ip))
    decreases |rows|
  {
    if rows != [] {
      UniqueMatching(records, rows[0].ip);
      LeftJoinUnique(rows[1..], records);
      var first := JoinRow(rows[0], records);
      assert first == [Attach(rows[0], Lookup(records, rows[0].ip))];
      forall i | 0 <= i < |rows| ensures LeftJoin(rows, records)[i] == Attach(rows[i], Lookup(records, rows[i].ip)) {
        if i > 0 {
          assert LeftJoin(rows, records)[i] == LeftJoin(rows[1..], records)[i - 1];
        }
      }
    }
  }

  /** Deleting cache rows keeps the keys unique. */
  lemma {:induction false} SubsequenceUnique(a: seq<IpRecord>, b: seq<IpRecord>)
    requires IsSubsequence(a, b) && UniqueQueries(b)
    ensures UniqueQueries(a)
    decreases |b|
  {
    if a != [] && b != [] {
      assert UniqueQueries(b[1..]) by {
        forall i, j | 0 <= i < j < |b[1..]| && b[1..][i].query.Some? ensures b[1..][i].query != b[1..][j].query {
          assert b[1..][i] == b[i + 1] && b[1..][j] == b[j + 1];
        }
      }
      if a[0] == b[0] {
        SubsequenceUnique(a[1..], b[1..]);
        SubsequenceElems(a[1..], b[1..]);
        forall i, j | 0 <= i < j < |a| && a[i].query.Some? ensures a[i].query != a[j].query {
          assert a[j] == a[1..][j - 1];
          assert a[j] in b[1..];
          if i == 0 {
            var m :| 0 <= m < |b[1..]| && b[1..][m] == a[j];
            assert b[m + 1] == a[j];
          } else {
            assert a[i] == a[1..][i - 1];
          }
        }
      } else {
        SubsequenceUnique(a, b[1..]);
      }
    }
  }

  /** When the starting cache has unique keys and the service echoes the
      requested address, the merge in `get_ip_info` gives each row of the
      table, one for one and in order, the cache fields of its own address
      or nulls. */
  lemma EnrichmentSpec(rows: seq<Row>, existing: Option<IpCache>, downloadNew: bool,
                       respond: (nat, string) -> Response)
    requires UniqueQueries(StartCache(existing).records)
    requires forall n: nat, ip :: respond(n, ip).Answer? ==> respond(n, ip).record.query == Some(ip)
    ensures var c := Finish(StartCache(existing), Lookups(rows, existing, downloadNew, respond));
      c.Ok? ==>
        && |LeftJoin(rows, c.value.records)| == |rows|
        && forall i :: 0 <= i < |rows| ==>
             LeftJoin(rows, c.value.records)[i] == Attach(rows[i], Lookup(c.value.records, rows[i].ip))
  {
    var start := StartCache(existing);
    var f := Lookups(rows, existing, downloadNew, respond);
    if downloadNew {
      FetchKeepsQueriesUnique(Keys(MostCommon(Ips(rows))), start.records, 0, respond);
    } else {
      assert start.records + f.records == start.records;
    }
    var c := Finish(start, f);
    if c.Ok? {
      SubsequenceUnique(c.value.records, start.records + f.records);
      LeftJoinUnique(rows, c.value.records);
    }
  }

  /** The columns `ip_root` and `ip_group`: the first two and the first three
      dotted pieces of the address, null when it has fewer. */
  function WithPrefixes(rows: seq<Row>): (r: seq<Row>)
    ensures |r| == |rows|
    ensures forall i :: 0 <= i < |rows| ==>
              r[i] == rows[i].(ipRoot := IpPrefix(rows[i].ip, 2), ipGroup := IpPrefix(rows[i].ip, 3))
  {
    seq(|rows|, i requires 0 <= i < |rows| =>
      rows[i].(ipRoot := IpPrefix(rows[i].ip, 2), ipGroup := IpPrefix(rows[i].ip, 3)))
  }
}
