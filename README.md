# erddaplogs log-cleaning pipeline in Dafny

This project models the core of erddaplogs, a Python tool that reads ERDDAP
web-server access logs into a polars table, enriches the visitor addresses
with geolocation data and removes bot, spam and housekeeping traffic before
plotting.

The model covers the following:

- **The stateful parser.** `ErddapLogParser` is a class with these fields:
  - the working table `df`;
  - the baseline `unfiltered_df` that `undo_filter` restores;
  - its row count `original_total_requests`;
  - the last filter name;
  - the IP cache.
- **Loading.** Log batches are merged into the table. The merge concatenates, sorts and deduplicates.
- **Stride subsampling.** `subset_df` keeps every stride-th row.
- **The seven filter stages.** Each runs behind the decorator that reports how many rows were dropped.
- **IP enrichment.**
  - The cache-filling loop of `_get_ip_info` skips cached addresses and stops at the first HTTP 429.
  - A pandas left merge joins the cache into the table.
  - Two- and three-octet prefix columns are derived.
- **`undo_filter`.**
- **The loaders' per-entry logic.**
  - Apache: the request line is turned into a URL.
  - nginx: lines the line regex does not match are skipped.
- **From `plot_funtions.py`:**
  - the column derivations of `prep_for_plot`;
  - the count table and the column check of `plot_most_popular`.

The files are listed below in dependency order:

| file | module | what it holds |
|---|---|---|
| `wrappers.dfy` | `Wrappers` | `Option` and `Result` |
| `seqs.dfy` | `Seqs` | subsequences, filtering, duplicates |
| `text.dfy` | `Text` | `str.split`/`join`, Python's literal `in`, and the `.`-wildcard, ASCII-case-folding regex search that polars `str.contains` performs on these patterns |
| `counting.dfy` | `Counting` | `Counter.most_common` and the Python slice |
| `records.dfy` | `Records` | rows, tables, errors, sorting by time, IP prefixes |
| `adapters.dfy` | `Adapters` | the Apache and nginx loaders |
| `ipinfo.dfy` | `IpInfo` | the lookup loop, the cache, the left join |
| `filters.dfy` | `Filters` | what one pass and one whole stage keep |
| `logparser.dfy` | `LogParser` | the subsampling functions and the `ErddapLogParser` class |
| `plots.dfy` | `PlotFunctions` | `prep_for_plot` and `plot_most_popular` |

External effects become parameters:

- **Apache parser.** apachelogs' parsed entries are an input (`ApacheEntry`).
- **nginx matcher.** The nginx line regex is an input function from a line to its captures.
- **Geolocation service.** It is a function `respond(k, ip)`, the answer to the k-th request of the call.
- **Cache file.** The cache CSV file is an optional input table.

Timestamps are integers. A missing value (None, NaN or null) is `None`.

## Model

| member | source | states |
|---|---|---|
| Adapters.ApacheUrlSpec | logparse.py:23-26 | For a request line `verb target protocol` whose verb and target have no spaces, the URL is the target. It is "" when the line has no space or there is no request line. |
| Adapters.LoadApacheFiles | logparse.py:12-40 | No log file is the ValueError. Otherwise the table has the five log columns, is sorted by time, and holds exactly one row per entry, a permutation of the entries across all files. Each row's datetime is the nanosecond time floor-divided by 1000. |
| Adapters.GzipLinesAsWrittenRaise | logparse.py:55-60 | As written, a one-line "tomcat-access.log.1.gz" is read as bytes, so searching it with a str regex raises. |
| Adapters.NginxLines | logparse.py:55-59 | Corrected: the decompressed lines are searched, whatever the file suffix. |
| Adapters.LineMatchesSpec | logparse.py:59-70 | Lines without a match are skipped. There are never more captures than lines. Every matching line's capture is kept, and every capture comes from a line. |
| Adapters.NginxLinesAsWritten | logparse.py:55-60 | As written, a ".gz" file with lines is read as bytes and the search raises (`BytesLine`). Any other file's lines are searched unchanged. |
| Adapters.LoadNginxFiles | logparse.py:43-82 | Corrected (see Findings): compressed files are read as text. No log file is the ValueError. A matched timestamp that the "+0000" format rejects fails the whole load. Otherwise the table is sorted by time and is a permutation of the matched lines' rows, with status as an int. |
| IpInfo.FetchQueriesOnlyUncached | logparse.py:95-100 | The addresses requested are a subsequence of the visitor list. None of them was in the cache, and none is requested twice. |
| IpInfo.FetchStopsAtRateLimit | logparse.py:95-104 | Every request but the last was answered, and its answer is appended in request order. A last unanswered request is the 429 that ended the loop, so later addresses are never requested. |
| IpInfo.FetchCompleteWithoutRateLimit | logparse.py:95-104 | Without a 429, every address was requested or found in the grown cache. |
| IpInfo.FetchCompleteUpToRateLimit | logparse.py:95-104 | When a 429 ends the loop over distinct addresses, every address listed before the rate-limited one was requested or found in the grown cache. So no uncached address is skipped before the stop. |
| IpInfo.FetchKeepsQueriesUnique | logparse.py:96-104 | Suppose the service echoes the requested address. Then the cache keys stay unique. |
| IpInfo.RateLimitExample | logparse.py:95-104 | Take three new addresses where the second gets a 429. Then one record is added and the third address is never requested. |
| IpInfo.DropNullCountry | logparse.py:105 | The returned cache rows all have a country. They are exactly the input rows with a country, in order. |
| IpInfo.Finish | logparse.py:105 | A cache that never got a `country` column raises KeyError. Otherwise the result keeps the columns and only rows with a country. |
| IpInfo.LookupsSpec | logparse.py:87-104 | Nothing is requested without `download_new`. Each address is requested at most once, most frequent visitor first. Only table addresses absent from the starting cache are requested. |
| IpInfo.FetchLoop | logparse.py:95-104 | The imperative loop (skip cached addresses, stop at the first 429, append every other answer and grow the cache) computes exactly `Fetch` from request number 0. |
| IpInfo.FetchIpInfo | logparse.py:85-109 | The loop method's requests and result equal the `Lookups` specification followed by `Finish`. |
| IpInfo.LeftJoinUnique | logparse.py:180 | With unique cache keys, the merge keeps the rows one for one and in order. Each row gets its address's cache fields, or nulls. |
| IpInfo.EnrichmentSpec | logparse.py:179-180 | Suppose the starting cache (fresh or from file) has unique keys and the service echoes the address. Then the enriched table has one row per original row, carrying that row's cache fields or nulls. |
| IpInfo.WithPrefixes | logparse.py:181-185 | `ip_root`/`ip_group` are the first two and first three dotted pieces of the address, or null when it has fewer. |
| Records.IpPrefixSpec | logparse.py:181-183 | The two-piece prefix exists iff the address has a dot, and it is a prefix of the address. The three-piece prefix, when it exists, extends it by a dot and the third piece. |
| Records.IpPrefixOfQuad | logparse.py:181-183 | For a dotted quad `a.b.c.d` with dot-free parts, the split gives the four parts, `ip_root` is `a.b` and `ip_group` is `a.b.c`. |
| Records.SortByTime | logparse.py:186 | The result is sorted by datetime and is a permutation of its input. |
| Filters.AsWrittenPatterns | logparse.py:120-127 | As written, the stats wrapper takes only `self`, so a stage succeeds only when called without an argument. |
| Filters.DecoratorRejectsExplicitBots | logparse.py:120-127 | Passing the default bot list explicitly raises TypeError as written. |
| Filters.Forwarded | logparse.py:120-127 | Corrected: the caller's list reaches the stage, and the default applies only without one. |
| Filters.DropMatching | logparse.py:206-211 | One `filter(~contains)` pass keeps, in order, exactly the rows whose cell is non-null and does not match. |
| Filters.KeepMatchingUrl | logparse.py:192-194 | Keeps, in order, exactly the rows whose url matches. |
| Filters.DropAllSpec | logparse.py:223-226 | For a non-empty list, the pattern loop keeps in order exactly the rows whose cell is non-null and matches no pattern, so null user agents are dropped. For an empty list it keeps everything. |
| Filters.DefaultLocalesAreLiteral | logparse.py:230-235 | With the default locales, the regex filter removes exactly the urls containing one of them as a plain substring. |
| Filters.CommonStringsDotIsWildcard | logparse.py:259-263 | In `.js` the dot is a regex wildcard: "/a_js" matches though it has no literal ".js". |
| Filters.FillUnknownSpec | logparse.py:203-204 | After null-filling, every row has an org and an isp. Nulls become "unknown" and no other field changes. |
| Filters.DropOrganisationsSpec | logparse.py:205-211 | After the organisation loop, exactly the rows remain (in order) whose org and isp match no blocked name, ignoring ASCII case. |
| Filters.OrganisationsOutcome | logparse.py:203-211 | Every row remaining after `filter_organisations` has an org and an isp that avoid every blocked name. Each such row is an input row with only its nulls filled. |
| Filters.AnyLiteralIff | logparse.py:245-247 | A url is spam iff some phrase is a substring of it. |
| Filters.SpamFreeSpec | logparse.py:239-249 | The spam stage removes exactly the rows whose url contains a spam phrase literally. Rows with equal urls share their fate. |
| Filters.BlacklistIsSpamFilter | logparse.py:248 | Removing a blacklist that holds exactly the spam urls is the spam filter. |
| Filters.SpamBlacklistRemovesSpam | logparse.py:242-248 | A blacklist built from the table's urls filters the table as `SpamFree` does, and never grows it. |
| LogParser.SpamBlacklist | logparse.py:242-247 | The loop over most_common pages and phrases blacklists exactly the urls of the table that contain a phrase. |
| LogParser.Stride | logparse.py:136 | For positive `entries`, the stride is the truncated quotient. A negative `entries` gives a stride of at most 0. |
| LogParser.GatherEverySpec | logparse.py:139 | The subsample has ceil(n / stride) rows. Row i is row i·stride, so the subsample is an ordered subsequence. |
| LogParser.SubsetSize | logparse.py:135-139 | When 0 < entries ≤ n, the stride is at least 1 and the subsample has between `entries` and 2·entries − 1 rows. |
| LogParser.ErddapLogParser.constructor | logparse.py:113-118 | Starts with an empty table without columns, no baseline, a total of 0, no filter name and an empty cache. |
| LogParser.ErddapLogParser.UpdateOriginalTotalRequests | logparse.py:129-133 | The current table becomes the baseline and its length the total. Nothing else changes. |
| LogParser.ErddapLogParser.SubsetDf | logparse.py:135-142 | The caller passes `entries`, whose source default is 100. `entries == 0` is ZeroDivisionError, and a stride below 1 is an error; both leave the state unchanged. Otherwise the table is the stride subsample and the new baseline. |
| LogParser.ErddapLogParser.Merge | logparse.py:149-157 | A batch whose columns differ from a table that already has columns fails and changes nothing. Otherwise the table has no duplicate rows, its row set is the old rows plus the batch, and it becomes the baseline. |
| LogParser.ErddapLogParser.LoadApacheLogs | logparse.py:144-157 | The merge applied to the Apache loader's rows, with the loader's errors leaving the state unchanged. |
| LogParser.ErddapLogParser.LoadNginxLogs | logparse.py:159-172 | Corrected (see Findings): compressed files are read as text. The merge applied to the nginx loader's rows, with the loader's errors leaving the state unchanged. |
| LogParser.ErddapLogParser.Enrich | logparse.py:180-186 | No joined address with three pieces raises and changes nothing. Otherwise the table becomes a time-sorted permutation of the joined rows with the prefix columns, and the cache is stored. The baseline, total and name are untouched. |
| LogParser.ErddapLogParser.GetIpInfo | logparse.py:174-187 | Does nothing once `country` is a column. Otherwise the cache comes from `Finish` of the lookups, and errors leave the state unchanged. The table becomes the time-sorted permutation of the merged rows with prefixes, with the cache's columns added. The baseline and total are untouched. |
| LogParser.ErddapLogParser.FilterNonErddap | logparse.py:189-194 | The name is set even when the url column is missing. The table keeps the rows whose url matches "erddap". The result is the number dropped. The baseline is untouched. |
| LogParser.ErddapLogParser.DropEach | logparse.py:223-226 | The pattern loop shared by three stages. The first pass raises on a missing column. Otherwise the table is `DropAll` of its rows, and the result is the number dropped. |
| LogParser.ErddapLogParser.DropOrganisationsLoop | logparse.py:205-211 | The rows become `DropOrganisations` of the old rows: for each name, an `org` pass then an `isp` pass, ignoring case. The columns, baseline, total, filter name and cache are unchanged. |
| LogParser.ErddapLogParser.FillAndDropOrganisations | logparse.py:198-212 | For a given list of names, the missing-column errors are as in `filter_organisations`. Otherwise the table is the null-filled, organisation-filtered rows, the result is the number dropped and the name is set. |
| LogParser.ErddapLogParser.FilterOrganisations | logparse.py:196-212 | Corrected (see Findings): a supplied list is forwarded to the stage. A missing `org` raises with nothing changed. A missing `isp` raises after `org` was filled. Otherwise the table is the organisation loop over the filled rows, the result is the number dropped, and the name is set. |
| LogParser.ErddapLogParser.FilterUserAgents | logparse.py:214-227 | Corrected (see Findings): a supplied list is forwarded to the stage. The table is the bot loop (case-insensitive, nulls dropped) and the result is the number dropped. The name is set and the baseline is untouched. |
| LogParser.ErddapLogParser.FilterLocales | logparse.py:229-236 | Corrected (see Findings): a supplied list is forwarded to the stage. The table is the locale loop over urls and the result is the number dropped. The name is set and the baseline is untouched. |
| LogParser.SpamRows | logparse.py:242-248 | Building the blacklist and dropping its urls keeps exactly `SpamFree` of the rows, never more rows than given. |
| LogParser.ErddapLogParser.DropSpam | logparse.py:242-248 | The table becomes `SpamFree` of its rows, and the result is the number dropped. |
| LogParser.ErddapLogParser.FilterSpam | logparse.py:238-249 | Corrected (see Findings): a supplied list is forwarded to the stage. A missing url column raises. Otherwise the table is `SpamFree` with the forwarded phrases and the result is the number dropped. The name is set. |
| LogParser.ErddapLogParser.FilterFiles | logparse.py:251-256 | The table drops the urls matching "/files" and the result is the number dropped. The name is set. |
| LogParser.ErddapLogParser.FilterCommonStrings | logparse.py:258-264 | Corrected (see Findings): a supplied list is forwarded to the stage. The table is the common-strings loop over urls and the result is the number dropped. The name is set. |
| LogParser.ErddapLogParser.UndoFilter | logparse.py:266-270 | Without a baseline it fails and changes nothing. Otherwise the table is the baseline, which is taken again with the same total. |
| LogParser.UndoTwice | logparse.py:266-270 | Undoing twice leaves the same state as undoing once. |
| LogParser.ReloadKeepsRows | logparse.py:149-157 | Merging a batch whose rows are all present leaves the row set and the row count unchanged. |
| PlotFunctions.PrepForPlotFails | plot_funtions.py:11-25 | `prep_for_plot` fails in exactly these cases: a needed column is absent, no url has `?`, no pre-`?` path has `.`, or no address has three pieces. |
| PlotFunctions.PrepForPlotShape | plot_funtions.py:11-26 | The row count and order are kept, the derived columns are added, and no other field changes. |
| PlotFunctions.CountryFilled | plot_funtions.py:12 | Null countries become "unknown" and known ones are kept. |
| PlotFunctions.RequestKwargsSpec | plot_funtions.py:13-15 | `request_kwargs` is null iff the url has no `?`. Otherwise it is the space-free text between the first `?` and the second `?` or the end. |
| PlotFunctions.BaseUrlAndFileType | plot_funtions.py:13-16 | `base_url` is the path before its first `.`. `file_type` is the text between the first and second `.`, or null when there is no `.`. |
| PlotFunctions.UserAgentBaseSpec | plot_funtions.py:17-19 | `user_agent_base` is the user agent up to the first space, then up to the first `/`. It is a prefix with neither character, and null stays null. |
| PlotFunctions.IpColumnsRenamed | plot_funtions.py:21-25 | Here the two-octet prefix is named `ip_group` and the three-octet one `ip_subnet`, one name later than `get_ip_info` uses. |
| PlotFunctions.MostPopular | plot_funtions.py:60-65 | Corrected (see Findings): the tuples are read as rows whatever the value type. A column name not in the table is the ValueError. Otherwise the result is the count table. |
| PlotFunctions.MostPopularAsWritten | plot_funtions.py:51-53 | As written, with polars' inferred orientation: a column name not in the table is the ValueError, and an empty table has no `column_0` to rename. |
| PlotFunctions.AsWrittenMatchesOnText | plot_funtions.py:51-53 | When a column's most common value is a string, the table as written is the count table: a string value column with nulls labelled "unknown", and `counts`. |
| PlotFunctions.AsWrittenIntColumnTransposed | plot_funtions.py:51-53 | As written, an int column (the status code) is read by columns. The renamed value column holds the top value and its count, and `counts` holds the second value and its count. A single distinct value leaves no `column_1` to rename. |
| PlotFunctions.AsWrittenNullTopFails | plot_funtions.py:51-53 | As written, when null is the most common value of a column that also has strings, a column pairs a string with an int, and building the frame fails. |
| PlotFunctions.PopularityTableSpec | plot_funtions.py:51-57 | Corrected (see Findings): the tuples are read as rows whatever the value type. The table has at most `rows` entries, and no label appears twice except "unknown", which a null and a literal "unknown" can share. Counts are non-increasing. There is no null label, and each entry has its value's true count. |
| PlotFunctions.PopularityTableTop | plot_funtions.py:51-57 | Corrected (see Findings): the tuples are read as rows whatever the value type. No value left out of the table occurs more often than the last entry listed. |
| Counting.MostCommonSpec | plot_funtions.py:52 | most_common lists every distinct value once, with its true count, by non-increasing count. |
| Counting.MostCommonTop | plot_funtions.py:52-53 | A value outside the first k entries has a count no larger than the k-th. |
| Counting.Take | plot_funtions.py:53 | The Python slice `[:n]` is a prefix of length min(n, len), or len + n for a negative n. |
| Text.PlainPatternIsLiteral | logparse.py:234 | A pattern without `.` matches as a plain substring. |
| Text.IgnoreCaseIsFolding | logparse.py:207 | `(?i)` matching equals matching after ASCII lower-casing both sides. |
| Text.SplitJoin | plot_funtions.py:13 | Splitting then joining gives the string back, and no piece contains the separator. |
| Text.JoinSplit | logparse.py:182-183 | Joining separator-free pieces then splitting gives the pieces back. |
| Text.ContainsLiteralIff | logparse.py:246 | Python's `in` holds iff the phrase occurs at some position. |

## Left out

- **I/O.** Globbing, opening files, reading lines, CSV read/write and matplotlib/cartopy drawing are left out. The per-file lines, parsed Apache entries and the cache file's table are inputs. The other plotting functions are not modelled.
- **External libraries.**
  - The apachelogs parser is left out: its entries are an input type.
  - The nginx line regex is an input function. Also, its url capture keeps the space before `HTTP/` inside the regex.
  - `pd.to_datetime`, time-zone removal and `strptime` are represented by integer times. strptime's rejection of any offset but "+0000" is represented by a None timestamp.
  - The HTTP requests are left out; the response function stands for them. It models only a 429 or a decoded answer. A connection error or a non-JSON reply (logparse.py:97, 101) raises out of `_get_ip_info`, so the records fetched in that call are lost: `to_csv` (logparse.py:106) is never reached.
- **The regex engine.** Only `.` is treated as a metacharacter, matching any character but a newline. `(?i)` folds ASCII letters only. The default patterns use no other metacharacters. User-supplied patterns with other metacharacters are read literally.
- **Diagnostics.** The `verbose` prints and the percentage in the decorator are left out. The percentage uses float division by a possibly zero total. The decorator's dropped count is the stage's result instead.
- **LogParser.Stride: float rounding is not modelled.** `int(n / entries)` is treated as exact truncation, which holds while n is below 2^53.
- **LogParser.ErddapLogParser.Merge: the row order after `unique()` is not stated.** polars leaves it unspecified. The contract promises no duplicate rows and the right row set, not an order (the model happens to keep first occurrences). Dtype-only schema differences are not modelled; only column names are.
- **LogParser.ErddapLogParser.GetIpInfo: sort stability is not stated.** Rows with equal times may come in any order, and only the permutation is stated. Merge suffixes for clashing column names are not modelled. The new column set is the union of both tables' columns.
- **IpInfo.IpRecord: only the fields used downstream are kept.** Those are `query`, `country`, `org` and `isp`. The service's other fields (latitude, longitude, region and so on) are left out. A response adds only the keys it carries.
- **Counting.MostCommonSpec: the order among equal counts is not stated.** `Counter.most_common` breaks ties by first occurrence.
- **PlotFunctions.PrepForPlot: empty and all-null columns are not modelled.** When every user agent is null or the table is empty, pandas' expanded splits may lack column 0; the model treats the user-agent split as always present. A literal "unknown" value colliding with the null label in the count table is not treated specially.
- **PlotFunctions.MostPopularAsWritten: the rename's duplicate-name error is not modelled.** A `col_name` of `counts`, or of another frame column such as `column_2`, makes polars raise; the model keeps both columns. `barh` is assumed to accept every table that is built.
- **PlotFunctions.MostPopular: the empty table gives the empty count table.** That is the intended behaviour; as written, the rename fails (`MostPopularAsWritten`).

## Findings

| source | as written | input that shows it | evidently intended | confidence | as-written member | corrected member |
|---|---|---|---|---|---|---|
| logparse.py:120-127 | The decorator's `magic(self)` neither accepts nor forwards arguments, so every stage with a pattern parameter raises TypeError when given one. | `filter_user_agents(bots=[...])`, even with the default list | The wrapper forwards `*args, **kwargs`, so callers can supply their own lists | high, not executed | Filters.AsWrittenPatterns, Filters.DecoratorRejectsExplicitBots | Filters.Forwarded |
| logparse.py:55-60 | `gzip.open(f)` opens in binary mode, so `readlines()` yields bytes and `re.search` with a str pattern raises TypeError. | a non-empty `tomcat-access.log.1.gz` | Compressed logs are read as text (`gzip.open(f, "rt")`) and parsed like plain ones | high, not executed | Adapters.NginxLinesAsWritten, Adapters.GzipLinesAsWrittenRaise | Adapters.NginxLines |
| plot_funtions.py:51-53 | `pl.DataFrame(counts)` has no `orient`, so polars reads the (value, count) tuples as columns when the first tuple's non-null values share one type. That happens when the most common value is an int or null. An empty list gives no columns, so the rename fails. | `plot_most_popular(df, "status-code")` with codes 200, 200, 404; a `country` column whose most common value is null; a table with no rows | One (value, count) row per `most_common` entry, nulls labelled "unknown", whatever the value type (`orient="row"`) | medium, not executed; the row-type inference is that of polars' list-of-tuples constructor, which has changed between versions | PlotFunctions.MostPopularAsWritten, PlotFunctions.AsWrittenIntColumnTransposed, PlotFunctions.AsWrittenNullTopFails | PlotFunctions.MostPopular |

### Behaviour worth noting

- `subset_df` with more entries than rows computes a stride of 0, which `gather_every` rejects.
- The row order after loading is unspecified, because `unique()` runs without keeping order.
- A cache that never gets a `country` column raises at `dropna`. That happens with no cache file and no successful lookup.
- Responses without a country are appended and then dropped by `dropna`.
- `get_ip_info` raises when no address in the table has three dotted pieces, which includes the empty table.
