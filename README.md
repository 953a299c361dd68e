# articlemeta2scielomanager, modelled in Dafny

articlemeta2scielomanager moves SciELO articles from the ArticleMeta catalog
into SciELO Manager:

- The exporter lists the legacy (html) articles of a collection, optionally ISSN by ISSN. It validates each article's SciELO PS XML with packtools and writes a report line for each article that is not fully valid. For each article whose XML is valid against the DTD, it queues a Celery task.
- The task submits the XML to SciELO Manager and polls the registration until it settles. When it succeeds, it writes the assigned AID back to ArticleMeta.
- A second tool (load_aid) backfills AIDs. It looks up the DOI of every article without an AID in SciELO Manager and writes back the AID it finds.
- Under both tools sit the thrift clients and small helpers:
  - ArticleMeta is enumerated page by page, 1000 identifiers at a time.
  - SciELO Manager is searched by DOI with a batch scan.
  - An ISSN command-line filter and the `host:port` server settings complete the helpers.

The model has six modules, one per source file plus the shared values:

| file | module | models |
|---|---|---|
| common.dfy | Common | `Option`, `Result` (what a Python call returned or raised), `Reply` (a remote call's answer or a transport failure), the exceptions, JSON values, Python truthiness |
| utils.dfy | Utils | `REGEX_ISSN` and `ckeck_given_issns`; `str.split`, `int()` and the server settings |
| clients.dfy | Clients | `ArticleMeta.documents` / `journals` / `document` / `exists_article` / `set_doaj_id`, `ScieloManager.retrieve_aid_from_doi` |
| tasks.dfy | Tasks | `check_registry_status` |
| exporter.dfy | Exporter | `summarize`, `analyze_xml`, `Export` (`_fmt_json`, `_write`, `items`, `run`) |
| load_aid.dfy | LoadAid | `Export` of load_aid (`items`, `run`) |

Oracles stand in for the outside world:

- The two remote services are datatypes of total functions, giving the reply to each call for its arguments. The exception is getTaskResult, whose answers change from call to call: it is the sequence of replies to successive polls.
- json.loads and xylose's reading of an article form the `Codec`.
- packtools' validator is `XmlTools.validatorFor`; `None` means the XML cannot be read. json.dumps is `XmlTools.dumps`.
- The report file is its text. The Celery queue is the list of dispatched items. The `set_aid` write-backs of the task and of load_aid are logged as calls, in order; `exists_article` and `set_doaj_id` are functions of the service's reply and log nothing.
- Generators are run to their end. Their results are the yielded values plus the exception that ended them. The consumer processes the yielded values, then raises that exception.

Every loop of the source is a method with a loop. Each such method is proved equal to a specification function of its inputs (`Paginate` against `Enumerate`, `RetrieveAidFromDoi` against `AidLookup`, `CheckRegistryStatus` against `Track`, `Export.Items` against `ItemsFrom`, `Export.Run` against `ItemsFrom` and `Backfill`). The source's promises are proved as lemmas about those functions.

Where the code does something other than it evidently intends, the model follows the code:

- `Export.items` of the exporter writes the report line before it checks DTD validity. Documents that are structurally invalid, and documents whose XML cannot even be read, are therefore reported too (exporter.py:178-185).
- Outside full mode, exporter.py:160 indexes a `str` with a slice whose bounds are not integers. The first step of `items` therefore raises `TypeError`. Nothing is yielded, nothing is reported, and the clause meant to skip articles that already have an AID never takes effect.
- `ArticleMeta.document` always asks for replaced journal metadata. It ignores its `replace_journal_metadata` argument (thrift/clients.py:164).
- `documents` yields `None` for an article the catalog does not have. Both tools then touch `publisher_id` of that `None` (exporter.py:171, load_aid.py:78), so such an article ends the run with `AttributeError`.
- `check_registry_status` logs `status[result.status]` for every status. A status outside -5..4 therefore raises `IndexError` (tasks.py:58); negative ones index from the end.
- The fallback host of `scielomanager_server` is `scielomanager.scielo.org`, although its warning names `manager.scielo.org` (utils.py:117-118).

## Model

| member | source | states |
|---|---|---|
| Utils.IsIssn | utils.py:14 | `REGEX_ISSN.match`: the string, up to one final newline, matches the pattern class by class (`FullMatch`); characterised by `IsIssnMeaning` |
| Utils.FullMatch | utils.py:14 | a string matches a sequence of one-character classes, each exactly once, optionally followed by a single final newline (Python's `$`) |
| Utils.IsIssnMeaning | utils.py:14 | a string matches `^[0-9]{4}-[0-9]{3}[0-9xX]$` iff it is four digits, a dash, three digits and a digit, x or X, optionally followed by a single final newline (Python's `$`) |
| Utils.FilterIssns | utils.py:87-95 | the kept arguments are never more than the given ones, and each of them matches the pattern |
| Utils.CheckGivenIssns | utils.py:87-95 | the loop returns exactly the order-preserving subsequence of matching arguments |
| Utils.FilterMembers | utils.py:90-93 | an argument is kept iff it was given and matches the pattern |
| Utils.FilterAppend | utils.py:90-93 | filtering a concatenation is concatenating the filtered parts, so the arguments' order is kept |
| Utils.FilterKeepsDuplicates | utils.py:90-93 | a matching argument is kept as many times as it was given; nothing is deduplicated |
| Utils.FilterIdempotent | utils.py:87-95 | filtering twice is filtering once |
| Utils.ExampleVerdicts | utils.py:14 | the pattern accepts `"0001-3765\n"`, `"0001-376x"` and `"1234-5678"`, and rejects `"0001-3765 "`, `"00013765"` and `"0001-3765\n\n"` |
| Utils.FilterExamples | utils.py:14 | `"0001-3765\n"` and a lower-case `x` are kept unchanged, and so is an ISSN whose check digit is wrong (there is no check-digit test); a trailing space, a missing dash and two final newlines are dropped |
| Utils.Split | utils.py:100 | `str.split(':')` gives at least one part, and no part contains the separator |
| Utils.SplitJoin | utils.py:100 | joining the parts of a split with the separator gives back the string |
| Utils.SplitNoSeparator | utils.py:100 | a string without the separator splits into itself alone |
| Utils.SplitAfterPrefix | utils.py:100 | a first part without the separator is split off as the first part |
| Utils.ParseInt | utils.py:102 | Python 2 `int(server[1])`: the value of an optionally signed decimal number with whitespace around it and after the sign, or None where int() raises ValueError; its partners are `ParseIntRoundTrip` and `ParseIntExamples` |
| Utils.ParseIntExamples | utils.py:102 | whitespace around the number and between sign and digits is skipped (`" 80\n"`, `"+ 80"`, `"-\t80"`), while `"8 0"`, a bare sign and the empty string do not parse |
| Utils.Decimal | utils.py:102 | the decimal writing of a natural number is a non-empty string of digits |
| Utils.DecimalValue | utils.py:102 | the value of the decimal writing of n is n |
| Utils.ParseIntRoundTrip | utils.py:102 | `int(str(n)) == n` for every integer n |
| Utils.ServerSetting | utils.py:99-106 | the shared body of both server functions: split the setting at `:`, take the host from part 0 and the port from `int()` of part 1; a missing section or key, a missing part 1 or an unparseable port falls back to the default host and port 11720; characterised by `SettingWithPort` and `SettingWithoutColon` |
| Utils.ArticleMetaServer | utils.py:98-108 | without the `app:main` section or the `articlemeta_thriftserver` key the client is built for articlemeta.scielo.org:11720 |
| Utils.ScieloManagerServer | utils.py:111-121 | without the `app:main` section or the `scielomanager_thriftserver` key the client is built for scielomanager.scielo.org:11720 |
| Utils.SettingWithPort | utils.py:99-106 | a setting `h:p`, possibly followed by more `:`-separated parts, gives host h and port `int(p)` when p parses, and the default host and port 11720 when it does not |
| Utils.SignedPortSetting | utils.py:100-102 | the setting `h:+ 80` gives host h and port 80 |
| Utils.SettingWithoutColon | utils.py:99-106 | a setting without a colon (no `server[1]`) gives the default host and port 11720 |
| Clients.FetchAll | thrift/clients.py:202-211 | at most one item per identifier, and one per identifier when no fetch failed |
| Clients.FetchAllMeaning | thrift/clients.py:202-211 | one fetch per identifier, in order: each yielded item is the fetch of the identifier at its position, and a failure carries the exception of the identifier right after the yielded ones, which is the first that failed |
| Clients.FetchAllAppend | thrift/clients.py:202-211 | fetching a concatenation of identifiers is fetching the first part and, if it did not fail, the second |
| Clients.FetchPage | thrift/clients.py:202-211 | the inner loop over one page yields exactly `FetchAll` of the page |
| Clients.StopsAt | thrift/clients.py:194-211 | the page at offset 1000·k ends the enumeration if it is reached: its listing raises, it is empty, or one of its identifiers fails to fetch |
| Clients.EnumerateFrom | thrift/clients.py:192-213 | the reference definition of the loop from page k on: list the page at offset 1000·k, stop on a raise or an empty page, fetch the page's identifiers, stop at the first failing fetch, otherwise go on with page k+1; it gives the items, the requested offsets and the exception |
| Clients.Enumerate | thrift/clients.py:191-213 | the enumeration from page 0 (offset 0) |
| Clients.Paginate | thrift/clients.py:191-213 | the `while True` loop (list a page at the offset, stop on an empty page or an exception, fetch each identifier, advance by 1000) yields exactly `Enumerate`: the items, the requested offsets and the ending exception |
| Clients.PaginateStep | thrift/clients.py:193-213 | one turn of the loop either ends the enumeration with what it yielded or keeps the invariant for the next page |
| Clients.OffsetsFrom | thrift/clients.py:192-213 | the requests from page k on ask for offsets 1000·k, 1000·(k+1), … |
| Clients.EnumerationOffsets | thrift/clients.py:10 | the k-th identifier request asks for offset 1000·k (limit 1000) |
| Clients.CompleteFrom | thrift/clients.py:193-213 | from page k on, an enumeration without an exception ends at the first empty page and yields one fetch per identifier of the pages before it |
| Clients.EnumerationComplete | thrift/clients.py:193-213 | without an exception: the last request got an empty page, every earlier page was non-empty (so there is one request more than non-empty pages), and the items are the fetches of all those identifiers in order |
| Clients.PartialPageDoesNotEnd | thrift/clients.py:196-213 | only an empty page ends the enumeration, not a short one: when pages 0 to k are each answered with at least one identifier (however few) and every fetch succeeds, the request after them asks for offset 1000·(k+1) |
| Clients.FailingFetchEnds | thrift/clients.py:202-211 | a listing that never runs dry still ends when a fetch fails: nothing is yielded from that page's failing identifier on, one offset was requested, and the fetch's exception is raised |
| Clients.SlicesFrom | thrift/clients.py:191-213 | against a server that serves slices of a list of identifiers, the enumeration from page k yields the fetches of the rest of the list |
| Clients.SlicingServer | thrift/clients.py:191-213 | against a server that serves slices of N identifiers, the enumeration yields every identifier's fetch once, in order, after ceil(N/1000)+1 requests |
| Clients.Document | thrift/clients.py:158-189 | a transport failure, or unparseable JSON with fmt `xylose`, fails with ServerError and nothing else does; other formats return the payload unchanged; with `xylose`, falsy JSON gives None (NotFound) and any other gives an article |
| Clients.Documents | thrift/clients.py:191-213 | `documents` is the enumeration of `document` over the article identifiers, with offsets 1000·k; an exception that ends it is a ServerError from `document` or the listing's own transport failure |
| Clients.EnumerationErrors | thrift/clients.py:194-211 | the exception that ends an enumeration comes from the listing's transport or from a fetch |
| Clients.LoadJournal | thrift/clients.py:118-125 | a journal identifier with no code raises IndexError; no failure is wrapped in ServerError; a journal is the parsed JSON of `get_journal` for the first code |
| Clients.Journals | thrift/clients.py:110-133 | `journals` is the enumeration of the journal loader over the journal identifiers, with offsets 1000·k |
| Clients.ExistsArticle | thrift/clients.py:135-144 | fails iff the call fails, and then with ServerError "Error checking if document exists: collection_code"; otherwise returns the service's answer |
| Clients.SetDoajId | thrift/clients.py:146-156 | fails iff the call fails, and then with ServerError "Error senting doaj id for document: collection_code"; otherwise returns None |
| Clients.ScanFuelIrrelevant | thrift/clients.py:65-75 | a batch scan that ends has one outcome |
| Clients.ScanFrom | thrift/clients.py:65-75 | the reference definition of the batch scan from one batch id: read the batch, stop when its articles are None, otherwise collect them and follow next_batch_id; a transport failure ends it with RemoteFailure; fuel bounds the depth and None means the fuel ran out |
| Clients.AidLookup | thrift/clients.py:49-80 | the reference definition of retrieve_aid_from_doi: scan with the DOI query; a transport failure is raised; the AID of the single collected article, or None for zero or several |
| Clients.RetrieveAidFromDoi | thrift/clients.py:49-80 | the scan loop (read batches, follow next_batch_id, stop at `articles is None`, collect every article) returns exactly `AidLookup` |
| Clients.AidOnlyOnSingleMatch | thrift/clients.py:77-80 | the lookup answers the single article's AID when exactly one article was collected, and None for zero or several |
| Clients.EmptyBatchDoesNotEnd | thrift/clients.py:69-75 | a batch with an empty list of articles does not end the scan; the next batch is read |
| Tasks.Settle | tasks.py:51-59 | what the task does with the first reply that is not pending: a transport failure is raised; status 4 writes back the value as AID (a failing write is raised); a named status ends with nothing written; any other status raises IndexError on the log line |
| Tasks.Track | tasks.py:41-59 | the reference definition of the task: addArticle (a failure is raised), then the poll loop over the replies |
| Tasks.Poll | tasks.py:43-59 | polling never submits the XML again |
| Tasks.CheckRegistryStatus | tasks.py:22-59 | the task (submit, poll, sleep on 0/1/2, write back on 4, stop on anything else) makes exactly the calls of `Track` and ends as it does |
| Tasks.FirstSettled | tasks.py:43-49 | the index of the first reply that is not pending: all replies before it are pending, and it is not |
| Tasks.CountAppend | tasks.py:41-56 | counting calls of a kind distributes over concatenation |
| Tasks.PollCounts | tasks.py:43-56 | with n the index of the first settled reply: n sleeps; n+1 polls (n when the replies run out); one write-back iff reply n is SUCCESS, otherwise none; still polling iff no reply settled |
| Tasks.SubmittedOnceFirst | tasks.py:41 | `addArticle` is called exactly once, before anything else |
| Tasks.WriteBackIsLast | tasks.py:51-56 | a write-back is the last call and writes the article's publisher id, its collection and the value of the first settled reply, which is SUCCESS |
| Tasks.NoTimeout | tasks.py:43-49 | pending replies never end the task: it alternates polls and one-second sleeps, two calls per reply, and is still polling |
| Tasks.RegisteredAfterThreePending | tasks.py:43-56 | replies 0, 1, 2, then 4 with "AID12345": four polls, three sleeps, then the write-back of that AID, and the task is registered |
| Tasks.RejectedWithoutWriteBack | tasks.py:58-59 | a FAILURE reply ends the task after one poll with nothing written, and later replies are never asked for |
| Exporter.ErrorRecord | exporter.py:52-69 | an error record has exactly the message and `apparent_line`; the line is the element's source line when the element is located and has one, and None otherwise (not found, or ValueError) |
| Exporter.Summarize | exporter.py:50-83 | five keys; each verdict as the validator gives it; `is_valid` is the conjunction of the two; both error lists have the validator's length and order |
| Exporter.AnalyzeXml | exporter.py:86-104 | an unreadable XML gives exactly three false verdicts and `parsing_error` true; a readable one gives its summary; in both, valid implies DTD-valid |
| Exporter.Year | exporter.py:129 | `publication_date[0:4]`: the first four characters, or the whole date when it is shorter |
| Exporter.FmtJson | exporter.py:121-134 | the record holds the identification keys and the summary's; the summary wins on a shared key; otherwise `id` is collection_publisherid, the year is the date's first ≤4 characters, and `data_version` is `legacy` iff the data model version is `html`, else `xml` |
| Exporter.ReportRecordFields | exporter.py:121-134 | the summary never clashes with the identification keys, so every report record carries the id, the code, the year, the data version and the summary's `is_valid` |
| Exporter.Export.constructor | exporter.py:109-116 | a report path opens an empty report; no path means no report; nothing is queued yet |
| Exporter.Export.Write | exporter.py:118-119 | the report grows by the line and CR LF |
| Exporter.Export.ExportDoc | exporter.py:171-187 | one document: fetch its `xmlrsps` XML, analyze it, write the record when it is not fully valid and there is a report, yield it when it is DTD-valid |
| Exporter.Export.ItemsOfIssn | exporter.py:165-187 | one ISSN's documents yield exactly `PassFor` and append its records to the report |
| Exporter.Export.Items | exporter.py:155-187 | outside full mode: TypeError with nothing changed; in full mode: no ISSNs become `[None]`, and the items, the exception and the report are those of `ItemsFrom` with the filter `{"version": "html"}` |
| Exporter.Export.Run | exporter.py:136-153 | outside full mode: TypeError with nothing dispatched or reported; in full mode: one dispatch per item of `ItemsFrom`, in yield order, the report grown by its records, then the exception that ended items |
| Exporter.Export.Dispatch | exporter.py:140-151 | the queue grows by exactly the items, in order; the report and the ISSNs are unchanged |
| Exporter.LinesConcat | exporter.py:118-119 | the report lines of a + b are those of a followed by those of b |
| Exporter.LinesAppend | exporter.py:178-180 | writing the records of a, then of b, writes those of a + b |
| Exporter.AppendedOne | exporter.py:118-119 | writing one record adds its JSON text and CR LF |
| Exporter.DocDecision | exporter.py:173-187 | for an article whose XML was fetched: it is reported iff the XML is unreadable or fails the DTD or the style rules, with the record of `_fmt_json`; it is yielded, paired with that XML, iff the XML is DTD-valid |
| Exporter.StepSound | exporter.py:171-187 | for one document, a written record has `is_valid` false and a yielded item is the DTD-valid `xmlrsps` XML of its article |
| Exporter.ProcessDoc | exporter.py:171-187 | the reference definition of one document: a `None` document raises AttributeError; fetch the `xmlrsps` XML (a ServerError is raised); analyze it; record it for the report when it is not fully valid; yield it with its XML when it is DTD-valid |
| Exporter.ProcessDocs | exporter.py:165-187 | the documents in order, collecting records and items, up to the first exception |
| Exporter.PassFor | exporter.py:165-187 | one pass: the documents of `documents` with the html filter for one ISSN, processed in order; the enumeration's own exception if processing raised none |
| Exporter.ItemsFrom | exporter.py:162-187 | the passes over the ISSNs in order, concatenating records and items, up to the first exception |
| Exporter.ProcessDocsSound | exporter.py:165-187 | in one pass every yielded item is the DTD-valid `xmlrsps` XML of its article, and every report record has `is_valid` false |
| Exporter.ExportSound | exporter.py:155-187 | across all passes every yielded (and so dispatched) item is the DTD-valid `xmlrsps` XML of its article, and every report record has `is_valid` false |
| Exporter.NoIssnsOnePass | exporter.py:162-169 | without ISSNs there is exactly one pass, with issn None |
| LoadAid.ArticlesOf | load_aid.py:74-79 | the yielded articles are the documents in order, up to the first one the catalog does not have, which raises AttributeError |
| LoadAid.PassFor | load_aid.py:68-79 | one pass: the documents of `documents` with the `$exists: 0` filter for one ISSN, as `ArticlesOf`; the enumeration's own exception if reading them raised none |
| LoadAid.ItemsFrom | load_aid.py:70-79 | the passes over the ISSNs in order, concatenating articles, up to the first exception |
| LoadAid.BackfillOne | load_aid.py:51-62 | the reference definition of the loop body of run: nothing without a DOI; otherwise look the DOI up (a failure is raised) and, for a non-empty AID, write it back (a failing write is raised) |
| LoadAid.Backfill | load_aid.py:50-62 | the loop of run: `BackfillOne` over the articles in order, up to the first exception |
| LoadAid.Export.constructor | load_aid.py:41-46 | the output file has no effect; nothing is written yet |
| LoadAid.Export.ArticlesOfIssn | load_aid.py:73-79 | one ISSN's documents yield exactly `PassFor` |
| LoadAid.Export.Items | load_aid.py:66-79 | no ISSNs become `[None]`; the articles and the exception are those of `ItemsFrom` with the filter `{"aid": {"$exists": 0}}`; nothing is written |
| LoadAid.Export.LoadArticle | load_aid.py:51-62 | one article: skip it without a DOI; otherwise look the DOI up and write back the AID when the lookup finds a non-empty one |
| LoadAid.Export.Run | load_aid.py:48-64 | no ISSNs become `[None]`; the write-backs are those of `Backfill` over the yielded articles, in order; the run raises the first exception of a lookup or write-back, or else the one that ended items |
| LoadAid.BackfillAppend | load_aid.py:50-62 | running over a then b is running over a and, unless that raised, over b, so write-backs follow the articles' order |
| LoadAid.WriteBackIff | load_aid.py:51-62 | an article without a DOI causes nothing; otherwise there is a single write-back, of its publisher id, its collection and the AID, iff the lookup answers a non-empty AID |
| LoadAid.NoDoiNoWrite | load_aid.py:51-52 | articles without a DOI are skipped, whatever SciELO Manager would answer |
| LoadAid.AtMostOnePerArticle | load_aid.py:50-62 | a run writes back at most once per article |
| LoadAid.NoIssnsOnePass | load_aid.py:70-77 | without ISSNs there is exactly one pass, with issn None |

## Left out

- `main()` and `_config_logging` of both tools: argument parsing and logging set-up. Every log message is left out as well.
- `Configuration` and `SingletonMixin` (utils.py:17-84): reading the settings file and the environment. The settings are a map given to `ServerSetting`.
- thriftpy's `make_client`, the `.thrift` interface files and the fact that each `.client` access opens a new connection. Remote calls are oracles, and a transport failure is the single `RemoteFailure` exception.
- packtools and lxml internals. The validator is an oracle. An exception from `validate()` or `validate_style()`, or any exception from `get_apparent_element` other than ValueError, is not modelled. Neither is the encoding of the XML given to `StringIO`.
- xylose's constructors and exceptions: `Codec.article` is total. The exact text produced by json.dumps is an oracle (`XmlTools.dumps`). So is the JSON text of the DOI query sent to `scanArticles`, which is modelled as a JSON value. JSON numbers other than integers are not modelled.
- Celery: `check_registry_status.delay` is an entry in the dispatch log, and the broker and the workers are not modelled. `time.sleep(1)` is a `Sleep(1)` entry in the task's call log.
- `ArticleMeta.collections` (thrift/clients.py:215-217): it reads an attribute that does not exist. `ScieloManager.retrieve_aid_from_meta` (thrift/clients.py:82-88) is a stub.
- setup.py: packaging only.
- Utils.ParseInt: models Python 2 `int()` of a byte string with base 10: ASCII whitespace around the number and after the sign, an optional sign, decimal digits. Unicode strings, with their non-ASCII digits and spaces, are not modelled.
- Clients.Paginate, Clients.Documents, Clients.Journals: require that some page ends the enumeration (`Terminates`): it raises, it is empty, or one of its fetches fails. What is excluded is a listing that answers non-empty pages forever with every fetch succeeding. On that listing the source never stops asking, and that behaviour is not modelled.
- Clients.RetrieveAidFromDoi: requires that the batch scan ends (`LookupEnds`). A scan that never ends is not modelled.
- Tasks.CheckRegistryStatus: the replies to getTaskResult are a finite sequence. Running out of replies while still pending ends the model with `StillPolling`, where the source would keep polling forever.
- Exporter.Export.Items: requires, in full mode, that every pass's enumeration ends, even passes that an earlier exception would keep from starting. The source's generator is lazy, so a pass also ends when the loop over its documents raises: a `None` document, or a failing fetch of the `xmlrsps` XML. The model computes the whole enumeration first, so it excludes such a pass on a listing that would otherwise never end. Exporter.Export.ItemsOfIssn has the same requirement for its one pass. The `None` issns argument is given as the empty list, and the two are equally falsy in the source.
- Exporter.Export.Run: generators are run to their end before they are consumed. The report file and the dispatch log are therefore each right and in order, but their interleaving with each other is not captured.
- LoadAid.Export.Run: requires that every pass's enumeration and every DOI lookup ends, including ones an earlier exception would keep from being made. It also excludes a pass whose listing would never end but which the loop stops with a `None` document's AttributeError. LoadAid.Export.Items and LoadAid.Export.ArticlesOfIssn have the same requirement.
- LoadAid.Export.Run: the catalog's answers are a fixed function of the query, limit and offset, and do not depend on earlier write-backs. Against the live catalog, each `set_aid` removes its article from the `{"aid": {"$exists": 0}}` listing that the run is paging through by offset (load_aid.py:61-62, 68-77; thrift/clients.py:192-213). Later pages then shift, and articles can be skipped. The model does not capture this.
