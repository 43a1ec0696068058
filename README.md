# A verified model of the web crawler's core

This project models the core of a C++ web crawler in Dafny:

- **URL utilities:** canonicalize, extract_domain, normalize, is_valid and resolve.
- **Hashing:** the 64-bit multiplicative string hash behind hash_url and hash_content.
- **Parser:** tokenizer, token normaliser and term-position table (everything after the HTML tree has been read).
- **Scheduler:** priority queue of crawl tasks, with retries and per-domain back-off.
- **Deduplicator:** a remote key/value tier plus an optional local fallback set.
- **Indexer:** inverted index with BM25 search.
- **Storage:** on-disk document and checkpoint formats.
- **Metrics:** registry of counters, gauges and histograms, with the counter section of the Prometheus export.
- **Logger:** level filter and the text and JSON record layouts.

There is one Dafny module per source file: `UrlUtils`, `HashUtils`, `Parsing`, `Scheduling`, `Dedup`, `Indexing`, `Storage`, `MetricsRegistry` and `Logging`. Two shared modules support them. `Strings` holds characters, searching and `getline` splitting. `Decimal` holds `std::to_string` of unsigned numbers and `std::stoull`.

The shape of each part follows the source:

- Pure helpers are functions. Their properties are lemmas.
- The scheduler, deduplicator, indexer, metrics registry and logger update their members in place, so they are classes. Their methods say exactly what their new state is.
- Loops in the source are `while`/`for` loops proved against specification functions. These cover the hash loop, the term-position loop, the posting and scoring loops, the ranking, and the file-reading loops of storage.
- The clock, the remote store's replies and `std::log` are parameters.
- The iteration order of an `unordered_map` is either an explicit sequence of keys or a free choice (`:|`).

## Model

| member | source | states |
|---|---|---|
| UrlUtils.CanonicalizeSpec | src/utils/url_utils.cpp:9-22 | the result has no '#', is a prefix of the URL, equals the URL exactly when it has no '#', and otherwise stops right at the first '#' |
| UrlUtils.CanonicalizeIdempotent | src/utils/url_utils.cpp:9-22 | canonicalizing twice gives the same as once |
| UrlUtils.CanonicalizeDropsFragment | src/utils/url_utils.cpp:12-16 | a URL without '#' followed by "#fragment" canonicalizes back to the URL |
| UrlUtils.CanonicalizeExample | tests/unit/test_url_utils.cpp:8 | the unit test's fragment example |
| UrlUtils.ExtractDomainEmptyIff | src/utils/url_utils.cpp:24-31 | the domain is empty exactly when no position of the URL starts an `https?://` followed by a non-slash |
| UrlUtils.ExtractDomainAtLeftmost | src/utils/url_utils.cpp:24-31 | a non-empty domain is the host run after the leftmost such match |
| UrlUtils.ExtractDomainIsLeftmostMatch | src/utils/url_utils.cpp:24-31 | empty exactly when no position of the URL starts an `https?://` followed by a non-slash; otherwise the host run of the leftmost such match |
| UrlUtils.ExtractDomainOfOrigin | src/utils/url_utils.cpp:24-31 | for scheme + non-empty slash-free host + a path starting with '/' (or nothing), the domain is the host |
| UrlUtils.ExtractDomainExample | tests/unit/test_url_utils.cpp:11 | the unit test's domain example |
| UrlUtils.NormalizeSpec | src/utils/url_utils.cpp:33-43 | the result is the lower-cased URL with one trailing '/' dropped when the URL is longer than one character; no upper-case letters remain |
| UrlUtils.NormalizeExample | tests/unit/test_url_utils.cpp:14-15 | the unit test's normalize example |
| UrlUtils.IsValidIff | src/utils/url_utils.cpp:45-48 | valid exactly when the URL is "http://" or "https://" followed by at least one character and no whitespace |
| UrlUtils.IsValidExamples | tests/unit/test_url_utils.cpp:18-19 | the unit test's valid and invalid examples |
| UrlUtils.ResolveSpec | src/utils/url_utils.cpp:50-70 | empty relative gives the base; absolute http(s) relative is returned as is; otherwise a path-relative link is appended after the base's last '/', or after base + "/" when there is none |
| UrlUtils.ResolveRootRelative | src/utils/url_utils.cpp:58-61 | a root-relative link resolves to the base's domain followed by the link |
| UrlUtils.ResolveRootRelativeIsInvalid | src/utils/url_utils.cpp:58-61 | for a root-relative link and a base whose host holds no ':', the resolved URL is never valid (the scheme is lost) |
| UrlUtils.ResolveRootRelativeExample | src/utils/url_utils.cpp:58-61 | "https://example.com/a" with "/b" resolves to "example.com/b", which is not valid |
| UrlUtils.ResolveKeepingSchemeIsValid | src/utils/url_utils.cpp:58-61 | the corrected resolution of a root-relative link from a valid base is valid and keeps the base's domain |
| HashUtils.XxHashLoop | src/utils/hash_utils.cpp:18-29 | the loop computes the fold hash = hash * 33 + c (mod 2^64) from 5381; the empty string hashes to 5381 |
| HashUtils.FoldConcat | src/utils/hash_utils.cpp:23-27 | hashing a concatenation continues from the hash of the first part |
| HashUtils.AppendLaw | src/utils/hash_utils.cpp:23-27 | appending a character multiplies by 33 and adds its code, wrapped to 64 bits |
| HashUtils.UrlAndContentHashAgree | src/utils/hash_utils.cpp:45-51 | hash_url and hash_content are the same function |
| HashUtils.ComOrgDiffer | src/utils/hash_utils.cpp:18-29 | any prefix followed by "com" and by "org" hash differently |
| HashUtils.ExampleUrlsDiffer | tests/unit/test_hash_utils.cpp:8-14 | the unit test's two URLs hash differently |
| Parsing.NormalizeToken | src/parser/parser.cpp:143-153 | the normalised token is no longer than the token and holds only lower-case letters and digits |
| Parsing.NormalizeTokenIsPointwise | src/parser/parser.cpp:143-153 | normalisation distributes over concatenation and keeps a character, lower-cased, exactly when it is alphanumeric |
| Parsing.NormalizeTokenIdempotent | src/parser/parser.cpp:143-153 | normalising twice gives the same as once |
| Parsing.Tokenize | src/parser/parser.cpp:130-141 | every token is a non-empty run of word characters |
| Parsing.TokenizeSplits | src/parser/parser.cpp:130-141 | a non-word character splits the text: tokens of a + c + b are those of a followed by those of b |
| Parsing.TokenizeWord | src/parser/parser.cpp:130-141 | a non-empty run of word characters is one token |
| Parsing.TokenizeNoWord | src/parser/parser.cpp:130-141 | text without word characters has no tokens |
| Parsing.PositionsOfSpec | src/parser/parser.cpp:51-56 | the positions of a term increase strictly and are exactly the token indices whose normalised token is the term |
| Parsing.BuildTermPositions | src/parser/parser.cpp:51-56 | the table has exactly the non-empty normalised tokens as keys, each with its positions, and holds no more positions than tokens |
| Parsing.TermPositionsWellFormed | src/parser/parser.cpp:51-56 | each entry of the table is strictly increasing, within the token count, and names exactly the matching tokens |
| Parsing.LinkUrls | src/parser/parser.cpp:43-45 | the links are the URLs of the (url, anchor) pairs, in order |
| Parsing.ParseText | src/parser/parser.cpp:14-59 | the parsed document carries the url, title, text, links in order, the tokens of the text and its term-position table |
| Scheduling.TopExists | src/scheduler/scheduler.h:20-22 | a non-empty queue has a task of highest priority |
| Scheduling.AcceptedPrefixSpec | src/scheduler/scheduler.cpp:42-49 | add_seed_urls adds exactly the URLs before the first rejected one, and all of them when every URL is accepted |
| Scheduling.SeedTasksAreFresh | src/scheduler/scheduler.cpp:27-31 | seed tasks have priority 0, no retries and are due now |
| Scheduling.CooldownWindow | src/scheduler/scheduler.cpp:149-162 | after a back-off on a domain it may be fetched again exactly one second later; other domains are unaffected |
| Scheduling.Scheduler.constructor | src/scheduler/scheduler.cpp:10-15 | an empty queue, no back-offs, zero totals, not running |
| Scheduling.Scheduler.AddUrl | src/scheduler/scheduler.cpp:21-40 | the task is queued (and counted) exactly when the canonical URL is valid; otherwise nothing changes; the queue size grows by one exactly when the result is true |
| Scheduling.Scheduler.AddSeedUrls | src/scheduler/scheduler.cpp:42-49 | the result is true exactly when every URL is accepted; the accepted prefix is queued and counted, and the queue size grows by its length |
| Scheduling.Scheduler.GetNextTask | src/scheduler/scheduler.cpp:51-86 | an empty queue gives false; otherwise a highest-priority task is taken, and handed out only if due and its domain may be fetched, else put back; the queue size drops by one exactly when a task is handed out |
| Scheduling.Scheduler.MarkCompleted | src/scheduler/scheduler.cpp:88-95 | the completed total grows by one |
| Scheduling.Scheduler.QueueSize | src/scheduler/scheduler.cpp:139-142 | the size is zero exactly when no task is queued, and no task is queued more times than the size |
| Scheduling.Scheduler.MarkFailed | src/scheduler/scheduler.cpp:97-116 | without retry the failed total grows; with retry a task with retry count 1 is queued after the back-off and the domain is cooled down; the queue size grows by one exactly when the task is retried |
| Scheduling.Scheduler.UpdateDomainBackoff | src/scheduler/scheduler.cpp:149-153 | the domain's fetch time becomes now plus one second |
| Scheduling.Scheduler.Start | src/scheduler/scheduler.cpp:118-123 | the scheduler is running |
| Scheduling.Scheduler.Stop | src/scheduler/scheduler.cpp:125-133 | the scheduler is stopped |
| Scheduling.PriorityOrderScenario | src/scheduler/scheduler.h:20-22 | four tasks come out in descending priority order and leave the queue empty |
| Scheduling.RetryScenario | src/scheduler/scheduler.cpp:97-116 | a retried task is not handed out before its back-off and is handed out after it |
| Dedup.UrlKeyIgnoresFragment | src/dedup/dedup.cpp:33-39 | a URL and the same URL with a fragment have the same hash and remote key |
| Dedup.RemoteUrlKeyInjective | src/dedup/dedup.cpp:39 | different URL hashes give different remote keys |
| Dedup.RemoteKeysDisjoint | src/dedup/dedup.cpp:39 | a URL key is never a content key |
| Dedup.LocalContentKeyOfDecimal | src/dedup/dedup.cpp:80-85 | a decimal content hash is read back as its number |
| Dedup.LocalContentKeyOfText | src/dedup/dedup.cpp:80-85 | a content hash that is not a number is hashed instead |
| Dedup.Deduplicator.constructor | src/dedup/dedup.cpp:10 | empty sets and remote store, no fallback, remote tier down, zero counters |
| Dedup.Deduplicator.InitRedis | src/dedup/dedup.cpp:18-31 | the remote tier is available exactly when the connection succeeds |
| Dedup.Deduplicator.EnableLocalFallback | src/dedup/dedup.cpp:132-134 | sets the fallback flag |
| Dedup.Deduplicator.CheckRemote | src/dedup/dedup.cpp:136-166 | a key exists exactly when connected, the reply came back and the key is stored; a missing reply marks the tier unavailable |
| Dedup.Deduplicator.MarkRemote | src/dedup/dedup.cpp:168-195 | the key is stored exactly when connected and the reply came back |
| Dedup.Deduplicator.IsUrlSeen | src/dedup/dedup.cpp:33-59 | seen exactly on a remote hit or, with the local set in use, a local hit; hits, misses and duplicates counted accordingly |
| Dedup.Deduplicator.MarkUrlSeen | src/dedup/dedup.cpp:61-76 | the remote key is set when the tier answers; the local set gains the hash when it is in use |
| Dedup.Deduplicator.IsContentSeen | src/dedup/dedup.cpp:78-109 | as for URLs, with the content key and its local number |
| Dedup.Deduplicator.MarkContentSeen | src/dedup/dedup.cpp:111-130 | the remote key holds the document id; the local set gains the number when it is in use |
| Dedup.LocalOnlyUrlSeen | src/dedup/dedup.cpp:50-56 | with the remote tier down, a marked URL (with or without a fragment) is then seen |
| Dedup.LocalOnlyContentSeen | src/dedup/dedup.cpp:99-106 | with the remote tier down, marked content is then seen |
| Dedup.RemoteOutageScenario | src/dedup/dedup.cpp:38-56 | when the remote reply is lost, a marked URL is seen exactly when the local fallback is on, and the tier is then unavailable |
| Dedup.RemoteHitScenario | src/dedup/dedup.cpp:38-47 | a URL marked in the remote tier is seen with one hit, one duplicate and no miss |
| Indexing.WithPostingsOk | src/indexer/indexer.cpp:47-57 | adding the postings of a new document keeps every list sorted by id below the next id, and the new posting is last exactly for its terms |
| Indexing.MeanSnoc | src/indexer/indexer.cpp:65-68 | the running average update yields the mean of all document lengths |
| Indexing.CalculateBm25 | src/indexer/indexer.cpp:141-154 | 0 for a document without a length, otherwise the BM25 weight of its term frequency |
| Indexing.Bm25Bounds | src/indexer/indexer.cpp:141-154 | with a positive average length the weight lies in [0, k1 + 1) and is 0 exactly for tf 0 |
| Indexing.Bm25MonotoneInTf | src/indexer/indexer.cpp:141-154 | the weight does not decrease as the term frequency grows |
| Indexing.Snippet | src/indexer/indexer.cpp:129-133 | short text is its own snippet; longer text gives its first 200 characters followed by "..." |
| Indexing.WordsSplit | src/indexer/indexer.cpp:82-88 | a space splits the query into the words on either side |
| Indexing.QueryTermsOfTwoWords | src/indexer/indexer.cpp:82-88 | a query of two words separated by a space gives the two lower-cased words |
| Indexing.TermScoresKeys | src/indexer/indexer.cpp:90-105 | one term's scoring adds an entry exactly for the documents of its postings |
| Indexing.QueryScoresKeys | src/indexer/indexer.cpp:90-105 | the scored documents are exactly those in a posting of a known query term |
| Indexing.MatchedDocsSpec | src/indexer/indexer.cpp:90-105 | a document is matched exactly when some query term in the index has a posting for it |
| Indexing.MatchedDocsIndexed | src/indexer/indexer.cpp:90-105 | every matched document has an id of an indexed document |
| Indexing.InsertByScoreSpec | src/indexer/indexer.cpp:108-114 | inserting into a non-increasing ranking keeps it non-increasing and adds exactly the new entry |
| Indexing.RankScores | src/indexer/indexer.cpp:108-114 | the ranking lists each scored document once with its score, best first |
| Indexing.ResultsOfAllIndexed | src/indexer/indexer.cpp:116-136 | when every ranked document is indexed, there is one result per ranked entry |
| Indexing.BuildResults | src/indexer/indexer.cpp:116-136 | the results are those of the first k ranked entries, skipping unindexed ones |
| Indexing.AddTermScores | src/indexer/indexer.cpp:94-104 | the loop adds bm25 * idf to each posting's document, starting absent entries from 0 |
| Indexing.ResultsSpec | src/indexer/indexer.cpp:108-136 | the results are the top min(topk, matches) documents, with their scores, url, title and snippet, best first, and no omitted document scores higher |
| Indexing.TopOfRanking | src/indexer/indexer.cpp:108-136 | a document left out of the first k of a ranking scores no higher than any of them |
| Indexing.DocsStep | src/indexer/indexer.cpp:23-76 | indexing one document keeps ids 1 .. next - 1 as exactly the indexed documents |
| Indexing.PostingsStep | src/indexer/indexer.cpp:47-57 | indexing one document keeps every posting list well formed and the empty term out |
| Indexing.Indexer.constructor | src/indexer/indexer.cpp:10-13 | an empty index whose first id is 1 |
| Indexing.Indexer.FlushSegment | src/indexer/indexer.cpp:156-167 | a non-empty segment is closed and counted; an empty one is left; the index invariant holds afterwards, even when called with a full segment as index_document does |
| Indexing.Indexer.MergeSegments | src/indexer/indexer.cpp:169-173 | merging flushes the current segment and keeps the index invariant |
| Indexing.Indexer.TotalTerms | src/indexer/indexer.cpp:175-178 | the number of distinct terms in the inverted index |
| Indexing.Indexer.PostTerms | src/indexer/indexer.cpp:47-57 | one posting per non-empty term is appended and the document length is their number of positions |
| Indexing.Indexer.RecordDocument | src/indexer/indexer.cpp:59-68 | the document's forward entry and length are stored under its id, the count becomes the id, and the running average stays the mean of all lengths |
| Indexing.Indexer.IndexDocument | src/indexer/indexer.cpp:23-76 | the document gets the next id, its forward entry, length and postings; the average stays the mean; a full segment is flushed |
| Indexing.Indexer.Search | src/indexer/indexer.cpp:78-139 | the results are the best min(topk, matches) BM25-scored documents, with their url, title and snippet, in non-increasing score order, each once |
| Indexing.Indexer.ScoreQuery | src/indexer/indexer.cpp:90-105 | the scoring loop computes the query's score map |
| Storage.DocumentPathInjective | src/storage/storage.cpp:16-18 | different document ids have different paths |
| Storage.LoadDocument | src/storage/storage.cpp:40-60 | the loop appends the lines after each "---" line, each with a newline |
| Storage.FinalNewlineCons | src/storage/storage.cpp:47-57 | a line and its break in front of a text leave unchanged whether a final break is added |
| Storage.JoinLinesOfText | src/storage/storage.cpp:47-57 | re-joining the lines of a text gives it back with a final newline |
| Storage.MetadataLinesAt | src/storage/storage.cpp:31-33 | the i-th metadata line is the i-th key visited, a ':' and its value |
| Storage.MetadataLinePerEntry | src/storage/storage.cpp:31-33 | when the iteration order lists every key once, there is exactly one metadata line per entry, and each entry's key:value line is among them |
| Storage.LinesOfDocument | src/storage/storage.cpp:20-38 | a saved file reads back as the url line, the metadata lines, "---" and the content's lines |
| Storage.DocumentRoundTrip | src/storage/storage.cpp:20-60 | loading a saved document gives its content with a final newline, when url, metadata and content contain no stray separator |
| Storage.SeparatorInContentIsLost | src/storage/storage.cpp:47-57 | a "---" line inside the content is dropped on loading |
| Storage.LoadCheckpoint | src/storage/storage.cpp:76-94 | the loop applies each line, splitting at the first '=' and ignoring lines without one |
| Storage.CheckpointRoundTrip | src/storage/storage.cpp:62-94 | loading a saved checkpoint gives back the saved map, over any prior state |
| Storage.CheckpointLastWins | src/storage/storage.cpp:84-91 | of two lines for one key the later wins |
| Storage.CheckpointIgnoresLineWithoutEquals | src/storage/storage.cpp:84-91 | a line without '=' leaves the state unchanged |
| Storage.ListDocuments | src/storage/storage.cpp:96-117 | the ids are those of the regular ".doc" files whose name parses as a 64-bit number, in directory order |
| Storage.ListSavedDocuments | src/storage/storage.cpp:96-117 | the files of saved documents list back their ids |
| Storage.SkippedEntry | src/storage/storage.cpp:104-113 | a non-regular, non-".doc" or non-numeric entry lists nothing |
| Decimal.ParseToDecimal | src/storage/storage.cpp:108 | a 64-bit number's decimal text parses back to it |
| Decimal.ToDecimalInjective | src/storage/storage.cpp:17 | different numbers have different decimal texts |
| MetricsRegistry.Wrap64Add | src/observability/metrics.cpp:13-15 | wrapping after each addition equals wrapping the total |
| MetricsRegistry.IncrementedSpec | src/observability/metrics.cpp:13-15 | the named counter becomes its old value (0 if absent) plus the increment, wrapped to 64 bits; other counters are unchanged |
| MetricsRegistry.IncrementsAccumulate | src/observability/metrics.cpp:13-15 | a run of increments leaves the counter at its old value plus their sum, wrapped |
| MetricsRegistry.RecordedSpec | src/observability/metrics.cpp:37-45 | a histogram keeps at most 1000 values, the newest last, dropping the oldest when full |
| MetricsRegistry.RecordedKeepsLastValues | src/observability/metrics.cpp:37-45 | a histogram is always the last 1000 values recorded |
| MetricsRegistry.CounterSectionLines | src/observability/metrics.cpp:47-54 | the counter section reads as a "# TYPE name counter" line and a "name value" line per counter |
| MetricsRegistry.CounterLinesOfName | src/observability/metrics.cpp:47-54 | a counter visited by the loop has its TYPE line followed by its sample line in the section |
| MetricsRegistry.EveryCounterWritten | src/observability/metrics.cpp:47-54 | visiting the map in an iteration order (every key, each once) writes both lines of every counter |
| MetricsRegistry.Metrics.constructor | src/observability/metrics.h:33-37 | an empty registry |
| MetricsRegistry.Metrics.IncrementCounter | src/observability/metrics.cpp:13-15 | the counters become the incremented map; the histogram invariant is kept |
| MetricsRegistry.Metrics.GetCounter | src/observability/metrics.cpp:17-23 | the counter's value, 0 when absent |
| MetricsRegistry.Metrics.SetGauge | src/observability/metrics.cpp:25-27 | the gauge takes the value; the histogram invariant is kept |
| MetricsRegistry.Metrics.GetGauge | src/observability/metrics.cpp:29-35 | the gauge's value, 0 when absent |
| MetricsRegistry.Metrics.RecordHistogram | src/observability/metrics.cpp:37-45 | the value is recorded and the histogram stays the last 1000 values |
| MetricsRegistry.Metrics.CountersToPrometheus | src/observability/metrics.cpp:47-54 | the loop writes the counter section for the names in the order visited |
| Logging.ParseLevelSpec | src/observability/logger.cpp:14-18 | exactly "debug", "info", "warn" and "error" name a level, each the lower-cased name of its level |
| Logging.ParseLevelOfName | src/observability/logger.cpp:89-97 | each level's name, lower-cased, selects that level |
| Logging.LevelNameInjective | src/observability/logger.cpp:89-97 | different levels have different names |
| Logging.RankOrder | src/observability/logger.h:10-15 | DEBUG < INFO < WARN < ERROR, and equal ranks mean equal levels |
| Logging.TextLayout | src/observability/logger.cpp:76-84 | a text record is time, [LEVEL], " [req:id]" exactly when the id is non-empty, then the message |
| Logging.JsonLayout | src/observability/logger.cpp:66-75 | a JSON record has timestamp and level, the request_id field exactly when the id is non-empty, then the message closing the object |
| Logging.Logger.constructor | src/observability/logger.h:35-36 | the minimum level INFO, text format |
| Logging.Logger.Init | src/observability/logger.cpp:14-25 | a recognised level name sets the minimum level, any other leaves it; the format is JSON exactly for "json" |
| Logging.Logger.Log | src/observability/logger.cpp:27-38 | nothing is written exactly when the level is below the minimum; otherwise the formatted record |
| Logging.DefaultFilterScenario | src/observability/logger.cpp:27-38 | by default debug records are dropped and info records written; after init("debug") debug records are written |

## Left out

- The HTML tree walk (the gumbo parser): the title, the text content and the (url, anchor) pairs are inputs to `Parsing.ParseText`. extract_text and extract_links over the tree are not modelled.
- SHA-256 and the xxHash library are not part of this model. Only the multiplicative hash of hash_utils.cpp is modelled.
- Threads, mutexes, the worker threads and the busy-wait of get_next_task. `Scheduling.Scheduler.GetNextTask` requires a non-empty queue or a stopped scheduler, which is where the source's wait ends.
- The clock: `now` is a parameter in milliseconds.
- The task callback of mark_completed is not modelled (a foreign call).
- Scheduling.Scheduler.GetNextTask: ties between tasks of equal priority may come out in any order. The order inside std::priority_queue is not modelled.
- Indexing.RankScores: the ranking of tied scores is any order. std::sort is not stable and its tie order is not modelled.
- Indexing.Bm25: with an average document length of 0 the source divides by zero. The model gives 0.
- Floating point: scores, gauges and histogram values are `real`. Rounding is not modelled. `std::log` is an uninterpreted parameter.
- The price that std::stod parses from the metadata is not modelled.
- 64-bit overflow of document ids is not modelled (they are `nat`).
- Indexing.Indexer.Search: a negative topk is not modelled (topk is a `nat`).
- The segment file that flush_segment opens is not modelled, nor its failure.
- The remote store (Redis) is a map plus a parameter for whether the reply came back. A lost reply is taken not to have applied the write. TTLs, other writers and the network are not modelled.
- Dedup.LocalContentKey: std::stoull is modelled as a decimal parse of the whole string. Its leading whitespace, sign and partial parses are simplified. A value of 2^64 or more gives no number, and the content is hashed instead, as on the source's exception path.
- File I/O: an open failure that makes save_document or save_checkpoint return false is not modelled, nor is directory creation. The files are strings, and a directory listing is a sequence of entries.
- Storage.ListDocuments: std::stoull is modelled as a whole-string parse. Its whitespace and partial-parse cases are simplified. A stem with a sign is skipped: the source reads "+5.doc" as id 5 and "-1.doc" as id 18446744073709551615, and the model lists neither.
- The histogram summaries (count, min, max, average) are not modelled. Neither are the gauge and histogram sections of to_prometheus, nor to_json.
- The Metrics and Logger singletons (`instance()`) are plain objects.
- The logger's output destination (stdout or a file) is not modelled. The debug/info/warn/error wrappers only call log with a fixed level.
- The fetcher, the API server, the configuration loader and main are not part of this model.

## Findings

| source | as written | input that shows it | evidently intended | confidence | as-written member | corrected member |
|---|---|---|---|---|---|---|
| src/utils/url_utils.cpp:58-61 | a root-relative link resolves to extract_domain(base) + link, with no scheme | base "https://example.com/a", link "/b" gives "example.com/b", which is_valid rejects | scheme + host of the base + link, e.g. "https://example.com/b" | not executed | UrlUtils.ResolveRootRelativeExample | UrlUtils.ResolveKeepingSchemeIsValid |
