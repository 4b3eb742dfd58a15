# Nano RAG server: a Dafny model of its retrieval core

This project models the core of `backend/server2.py`. That file is a small
retrieval-augmented question-answering server. Its request handlers do this:

- `/ingest` crawls a website and cuts its pages into text chunks.
- The chunks are stored in an in-memory database, with a BM25 index over them.
- `/chat` answers a question from the best-scoring chunks.
- `/briefing` and `/podcast` draw on a text sample of the store.
- `/delete_source` and `/clear` empty the store, one source or all of it.

The model covers the text helpers (`clean_text`, `tokenize`) and the URL gate
(`validate_url`). It covers the breadth-first crawler (`crawl_website`), the
`Database` object with `rebuild_index`, and the store updates of `ingest`,
`delete_source` and `clear_database`. It also covers the top-K pick of
`chat` and the sliding-window rate limiter (`rate_limit_check`). The handlers
are modelled as far as they change or read that state.

The outside world enters only as parameters:

- A `Crawler.Web` value stands for the network, HTML parsing and URL parsing.
  - `fetch` says what `requests.get` plus BeautifulSoup yield for a URL: a
    failure, a non-HTML response, or the texts of the content elements and
    the resolved links.
  - `parse` gives what `urlparse` reports for a URL.
- A `Text.Lexicon` gives Unicode's word-character table (`\w`) and the
  lower-casing map.
- An `Endpoints.Scorer` gives the BM25 score of each chunk for a query. The
  BM25 index itself is the tokenized corpus `BM25Okapi` is built from.
- Clock readings are parameters. The rate limiter's times are seconds, as
  reals; the ingest timestamp is a string.

Modules, one per file:

- `Text`: whitespace and control-character classes, `Strip`, `CleanText`,
  `Tokenize` and `Join`.
- `UrlGate`: `validate_url`.
- `Crawler`: chunk extraction, link following and the crawl loop.
- `Ranking`: the stable descending sort of indices and the top-K pick.
- `RateLimit`: the per-client window and the `RateLimiter` class.
- `Store`: the `Database` class and the value-level facts about its lists.
- `Endpoints`: request validation and the handlers.
- `Config`: the constants.
- `Seqs` and `Wrappers`: small sequence helpers and `Option`.

Behaviour of the code that the model keeps:

- The crawl loop's `if current_url in visited: continue` can never fire.
  A queued URL is never in `visited`, which is an invariant of the loop, so
  `Crawler.VisitNext` asserts it instead of branching.
- A URL that fails to load, is not HTML or yields no chunk is not recorded
  as visited. A later page may queue it again, and it is then fetched again.
- Re-ingesting a URL overwrites `sources[url]` and keeps the key's place in
  the dict. Its old metadata entries stay, and the new ones are appended.
  So a source's chunks are a suffix of its entries in `chunk_metadata`, not
  all of them (`Store.IsSuffix`).
- Every endpoint shares one rate-limit history per client. A check with a
  short window drops times that a longer window still covers
  (`RateLimit.ShortWindowForgetsLongWindow`).
- The request body is validated before the rate limit is checked.
  `/delete_source` and `/clear` have no rate limit.
- `validate_url` tests text prefixes, not address ranges.
  - A public `172.217.0.1` and a host named `10.example.com` are refused.
  - `127.0.0.2` and a URL without a host are accepted.
  - `UrlGate.PrefixTestRefusesPublicHosts` and
    `UrlGate.PrefixTestAdmitsLoopback` state these outcomes.

## Model

| member | source | states |
|---|---|---|
| Text.Strip | backend/server2.py:181 | the result is the input with its leading and trailing whitespace removed: everything cut off is whitespace, the result neither starts nor ends with whitespace, and it is empty exactly when the input is all whitespace |
| Text.LStripKeepsContent | backend/server2.py:177-178 | removing leading whitespace keeps the non-whitespace characters and their order |
| Text.StripKeepsContent | backend/server2.py:181 | stripping keeps the non-whitespace characters and their order |
| Text.CollapseSpace | backend/server2.py:177-178 | every whitespace run becomes one blank: no other whitespace is left, no two blanks are adjacent, the result is empty exactly when the input is, and the non-whitespace characters are kept in order |
| Text.RemoveControl | backend/server2.py:179-180 | the result holds only characters of the input and none from U+0000-U+001F or U+007F-U+009F; every character that is neither whitespace nor control is kept, in order |
| Text.CleanText | backend/server2.py:175-181 | the result has no control character, no whitespace other than U+0020, and no whitespace at either end, and it keeps the input's non-whitespace, non-control characters in order; two blanks can end up side by side when a control character between them is removed ("a \x01 b" gives "a  b") |
| Text.Split | backend/server2.py:178 | the words of a text, as `str.split()` finds them, are non-empty and hold no whitespace |
| Text.SplitEmpty | backend/server2.py:178 | a text has no words exactly when it is all whitespace |
| Text.CollapseIsJoin | backend/server2.py:177-178 | collapsing whitespace gives the words joined by single blanks, with one blank in front when the text starts with whitespace and one at the end when it ends with whitespace after a word |
| Text.RemoveControlAppend | backend/server2.py:179-180 | removing control characters distributes over concatenation |
| Text.RemoveControlChar | backend/server2.py:180 | one character is dropped exactly when it is a control character (U+0000-U+001F, U+007F-U+009F) and kept otherwise |
| Text.RemoveControlJoin | backend/server2.py:179-180 | removing control characters from blank-joined words removes them word by word |
| Text.StripUnique | backend/server2.py:181 | the strip is the one slice with only whitespace around it that starts and ends with a non-whitespace character |
| Text.StripPadded | backend/server2.py:181 | whitespace added around a text does not change its strip |
| Text.CleanTextIsJoin | backend/server2.py:175-181 | cleaning is: split into words, remove control characters from each, join with single blanks, strip |
| Text.Lower | backend/server2.py:150 | lower-casing replaces each character by its lower-case character, position by position |
| Text.Words | backend/server2.py:150 | every token found is a non-empty run of word characters |
| Text.Tokenize | backend/server2.py:147-151 | every token is a non-empty run of word characters, and the tokens together are exactly the word characters of the lower-cased text, in order |
| Text.WordsCoverWordChars | backend/server2.py:147-151 | the tokens, concatenated, are exactly the word characters of the text in order: no word character is lost or invented |
| Text.WordsOfWord | backend/server2.py:147-151 | a text that is a single word tokenizes to that word alone |
| Text.WordsSplit | backend/server2.py:147-151 | a non-word character splits the text: the tokens are those of the left part followed by those of the right part |
| Text.Join | backend/server2.py:141 | joining no parts gives the empty string; otherwise the result starts with the first part |
| Text.JoinLength | backend/server2.py:141 | joining with a separator has the combined length of the parts plus one separator between each two |
| UrlGate.ValidateUrl | backend/server2.py:153-173 | a URL over 2048 characters is refused as too long; an accepted URL has at most 2048 characters and an http or https scheme |
| UrlGate.PrivatePrefixes | backend/server2.py:166-171 | a host is in the private ranges exactly when it starts with "192.168.", "10." or "172." |
| UrlGate.AcceptedIsSafe | backend/server2.py:153-173 | an accepted URL has at most 2048 characters, an http or https scheme, and a host that is neither a blocked local name nor private-prefixed |
| UrlGate.AcceptsEverythingElse | backend/server2.py:153-173 | conversely, every URL meeting those conditions is accepted, including one without a host |
| UrlGate.RejectionReason | backend/server2.py:153-165 | the refusal names the first failing check in code order: too long; then a bad scheme; then a blocked host |
| UrlGate.ExpectedAcceptance | backend/server2.py:153-173 | https://example.com is accepted |
| UrlGate.ExpectedRefusals | backend/server2.py:160-164 | ftp://example.com is refused for its scheme; localhost and 127.0.0.1 as local resources |
| UrlGate.ExpectedPrivateRanges | backend/server2.py:166-171 | 10.0.0.1, 172.16.0.1 and 192.168.1.1 are refused as private ranges |
| UrlGate.PrefixTestRefusesPublicHosts | backend/server2.py:166-171 | the public address 172.217.0.1 and the name 10.example.com are refused as private ranges |
| UrlGate.PrefixTestAdmitsLoopback | backend/server2.py:163-171 | 127.0.0.2, and a URL whose parse has no host, pass the gate |
| Crawler.PageChunks | backend/server2.py:230-235 | a page yields at most one chunk per content element, and every chunk is a cleaned text of 50 to 2000 characters |
| Crawler.ExtractChunks | backend/server2.py:230-235 | the loop collects exactly the page's chunks, in element order |
| Crawler.ChunksOfPages | backend/server2.py:237-238 | every chunk of a crawl is a cleaned text within the length window |
| Crawler.Enqueue | backend/server2.py:243-253 | the queue only grows at its end and never comes to hold a URL twice; every URL added is a same-domain http(s) link of the page that is not visited; every such link ends up in the queue |
| Crawler.EnqueueLinks | backend/server2.py:243-253 | the link loop yields exactly `Enqueue`: the links taken in document order, each appended when followable and not yet queued |
| Crawler.SkipStep | backend/server2.py:256-262 | dropping a head that yields no chunk keeps the queue invariant |
| Crawler.HeadVisitable | backend/server2.py:203-206 | the queue's head is never already visited, so the `continue` on a visited URL never fires; the head is the seed on the first round and a discovered link afterwards |
| Crawler.ClosedVisit | backend/server2.py:237-253 | after visiting the head and queueing its followable links, every same-site link of every visited page is visited, queued, or yields no chunk |
| Crawler.ClosedSkip | backend/server2.py:256-257 | dropping a head that yields no chunk keeps every same-site link of every visited page visited, queued, or without chunks |
| Crawler.ChunksOfVisited | backend/server2.py:237-238 | a visited page's chunks occur as one contiguous run inside the crawl's chunks (so the crawl has at least as many) |
| Crawler.VisitStep | backend/server2.py:237-253 | recording a page with chunks and queueing its links keeps both loop invariants |
| Crawler.CrawlDone | backend/server2.py:202 | on loop exit, a crawl with a positive page limit has visited the seed if it has chunks, and at most the limit of pages |
| Crawler.CrawlFinish | backend/server2.py:202-265 | on loop exit the visited pages are distinct, within the limit, in scope, each with chunks, and each linked from an earlier one; the chunks are theirs, in visit order |
| Crawler.VisitNext | backend/server2.py:202-257 | one round keeps the loop invariants; a page with chunks is added to the visit order, its chunks are appended, one more page counts against the limit, and the queue becomes its tail followed by the page's new followable links; any other page only leaves the queue; every same-site link of a visited page stays visited, queued or chunkless |
| Crawler.Crawl | backend/server2.py:183-265 | the visit order is that of the first-in first-out loop (`CrawlOrder`); the visited URLs are distinct and at most `max_pages` (10 by default, none for a limit of 0 or less); each is on the seed's host, yielded chunks, and was the seed or linked from an earlier visited page; the seed is visited when it has chunks; when the crawl stops below the limit, every same-site link of a visited page was visited or yields no chunk; the chunks are those of the visited pages, in visit order |
| Ranking.Rank | backend/server2.py:455-458 | the sort returns a permutation of the indices it is given |
| Ranking.InsertRanked | backend/server2.py:455-458 | inserting an index into a ranked list of other valid indices keeps it ranked |
| Ranking.RankRanked | backend/server2.py:455-458 | sorting distinct valid indices ranks them: by descending score, equal scores in ascending index order |
| Ranking.RankedUnique | backend/server2.py:455-458 | only one arrangement of a set of indices is ranked, so the stable descending sort is determined |
| Ranking.TopK | backend/server2.py:455-459 | the pick has min(k, n) entries, distinct indices drawn from range(n) |
| Ranking.TopKSelects | backend/server2.py:455-459 | the pick has min(k, n) distinct valid indices in sort order, and every index left out comes after every index kept |
| Ranking.TopKIsSortPrefix | backend/server2.py:455-459 | the pick is the first k of any stable descending sort of all indices |
| RateLimit.Recent | backend/server2.py:331-335 | the kept times are exactly the client's times less than `window` seconds old, in their order |
| RateLimit.RecentAppend | backend/server2.py:331-335 | pruning distributes over concatenation: each time is kept or dropped on its own |
| RateLimit.RecentOne | backend/server2.py:332-334 | one time is kept exactly when it is less than `window` seconds old |
| RateLimit.Decide | backend/server2.py:331-343 | a request is admitted only when fewer than `max_requests` times remain in the window |
| RateLimit.DecideRefusesFullWindow | backend/server2.py:337-343 | refused exactly when the window already holds `max_requests` times; the pruned history is kept either way, plus the new time when admitted |
| RateLimit.DecideKeepsWindow | backend/server2.py:331-343 | afterwards the client's history holds only times inside the window, and at most `max_requests` of them when the request was admitted |
| RateLimit.RecentLater | backend/server2.py:331-335 | pruning at one moment and again at a later one is pruning once at the later one |
| RateLimit.RecentKeepsNow | backend/server2.py:343 | a recorded request stays within its own window |
| RateLimit.WindowBoundKept | backend/server2.py:323-343 | with one limit and window and a clock that does not run backwards, at most `max_requests` times are ever in the window |
| RateLimit.ExpiredWindowAdmits | backend/server2.py:331-343 | when all earlier times are older than the window, a positive limit admits the request and forgets the old times |
| RateLimit.ThreeAdmitted | backend/server2.py:554 | three podcast requests within 300 s are all admitted |
| RateLimit.ShortWindowForgetsLongWindow | backend/server2.py:321-343 | with the shared history, a chat check at 100 s erases earlier podcast times; a fourth podcast request at 101 s is then admitted, where without that check it is refused |
| RateLimit.RateLimiter.constructor | backend/server2.py:321 | the store starts empty |
| RateLimit.RateLimiter.Check | backend/server2.py:323-343 | the outcome is that of one check on the client's history; the client's entry becomes the pruned history, plus the new time when admitted; every other client's history is unchanged |
| Store.KeepOthers | backend/server2.py:642-645 | the kept entries are exactly those from other sources |
| Store.Tag | backend/server2.py:405-410 | one entry per chunk, holding the chunks' texts in order, every entry with the given source URL and timestamp |
| Store.AppendEntries | backend/server2.py:405-410 | the loop appends one tagged entry per chunk, in chunk order |
| Store.TokenizeAll | backend/server2.py:275-276 | one token list per text |
| Store.IndexFor | backend/server2.py:267-279 | no index for an empty store; otherwise the index is the tokenized text of every entry, in entry order |
| Store.Truncate | backend/server2.py:393-395 | the kept chunks are the first 1000, or all of them when there are fewer |
| Store.Texts | backend/server2.py:275 | the texts of the entries, in order |
| Store.Database.constructor | backend/server2.py:115-120 | a new store is empty and has no index |
| Store.Database.GetStats | backend/server2.py:122-128 | the source count matches the listed sources, which are the distinct source URLs of the entries; the chunk count is the number of entries |
| Store.Database.GetFullTextSample | backend/server2.py:130-141 | the sample joins, with blanks, the shortest prefix of the texts whose length reaches `max_chars`, or all texts |
| Store.Database.RebuildIndex | backend/server2.py:267-280 | the index becomes the one for the current entries; nothing else changes |
| Store.Database.StoreChunks | backend/server2.py:398-413 | the source's chunks are replaced; a new URL goes last in the key order; one entry per chunk is appended; the index is rebuilt and the store stays consistent |
| Store.Database.Ingest | backend/server2.py:370-421 | refuses at 10000 entries, changing nothing; below that the crawl is `crawl_website`'s, with its visit order and guarantees; it refuses when that crawl yields no chunk and otherwise stores the first 1000 of its chunks and reports the pages visited, the chunks added and the new total |
| Store.Database.DeleteSource | backend/server2.py:634-653 | an unknown URL changes nothing; otherwise the source, its key and all its entries go, other entries keep their order, and the remaining count is reported |
| Store.Database.Clear | backend/server2.py:659-662 | afterwards the store is empty and has no index |
| Store.StoreKeepsConsistent | backend/server2.py:401-410 | storing a source keeps the store consistent: keys match the entries' URLs, each source is a non-empty suffix of its entries, and entries are chunks |
| Store.StoreKeepsSuffixes | backend/server2.py:401-410 | after storing, every source's chunks are again a suffix of its entries |
| Store.StoreKeepsChunks | backend/server2.py:405-410 | after storing, every entry's text is still a chunk |
| Store.DeleteKeepsConsistent | backend/server2.py:639-645 | deleting a source keeps the store consistent |
| Store.TextsOfAdded | backend/server2.py:402-410 | after storing, the stored URL's entries end with the new chunks and other URLs' entries are unchanged |
| Store.TextsOfKept | backend/server2.py:642-645 | after deleting, the URL has no entries and other URLs keep theirs |
| Store.AddedEntries | backend/server2.py:405-410 | storing adds the URL to the entries' sources; the new entries are exactly the chunks tagged with the URL and timestamp |
| Store.DeleteLeavesOthers | backend/server2.py:642-645 | deleting removes exactly that URL from the entries' sources |
| Store.IngestThenDelete | backend/server2.py:642-645 | ingesting a new URL and then deleting it restores the entry list |
| Store.KeepOthersAppend | backend/server2.py:642-645 | filtering distributes over concatenation |
| Store.KeepOthersNone | backend/server2.py:642-645 | filtering out a URL with no entries changes nothing |
| Store.KeepOthersAll | backend/server2.py:642-645 | filtering out a URL removes all the entries just tagged with it |
| Store.TextsOfAppend | backend/server2.py:642-645 | a URL's texts in a concatenation are its texts in each part, in order |
| Store.TextsOfTag | backend/server2.py:405-410 | the tagged entries hold the chunks for their URL and nothing for any other URL |
| Store.Taken | backend/server2.py:130-141 | at most as many texts as given, and none for a budget of 0 or less |
| Store.TakenIsShortestPrefix | backend/server2.py:130-141 | the sampled texts are a prefix of the texts; every shorter prefix stays under the budget; when not all texts are taken, the sample reaches the budget |
| Store.TakenBound | backend/server2.py:130-141 | the taken texts together are shorter than the budget plus the longest text (the blanks of the join are not counted) |
| Endpoints.ValidatePages | backend/server2.py:300 | `max_pages` is accepted exactly when absent or within 1 to 20; if absent it becomes 5 |
| Endpoints.ValidateIngest | backend/server2.py:298-305 | an ingest body passes exactly when its URL passes `validate_url` and its page count is valid; a rejected URL reports the gate's reason |
| Endpoints.ValidateQuestion | backend/server2.py:307-315 | a question passes exactly when it has 1 to 500 characters and is not all whitespace; the stripped question is used |
| Endpoints.IngestAdmitted | backend/server2.py:369-421 | storage refusal exactly at 10000 entries; below that the crawl is `crawl_website`'s; a reply comes exactly when the store is below capacity and the crawl yields chunks (always, when the seed page has chunks); a refusal changes nothing; a success stores the crawl's first 1000 chunks under the URL, keeps an existing URL's place in the source order and puts a new one last, appends the chunks tagged after the old entries, and reports the pages visited |
| Endpoints.Ingest | backend/server2.py:361-421 | a reply comes exactly when the body is valid, the limiter (5 per 60 s) admits it, the store is below capacity and the crawl yields chunks; an invalid body is refused before the rate limit; every refusal leaves the store unchanged; a success stores the crawl's first 1000 chunks, keeps or appends the URL in the source order, and appends the tagged entries, as `IngestAdmitted` does |
| Endpoints.Picked | backend/server2.py:465-468 | at most one text per pick, and exactly one per pick when every pick is in range |
| Endpoints.Cited | backend/server2.py:465-469 | every citation is the source URL of a stored entry |
| Endpoints.Gather | backend/server2.py:462-469 | the context parts are the picked texts in pick order and the citations are their source URLs; out-of-range picks are skipped |
| Endpoints.PickedAll | backend/server2.py:465-468 | when every pick is in range, the parts are the chunk texts of the picks in order |
| Endpoints.RetrievalPicksBest | backend/server2.py:451-469 | retrieval returns min(5, n) distinct chunks, none scoring below any chunk left out |
| Endpoints.Chat | backend/server2.py:434-471 | a reply comes exactly when the question is valid, the limiter (20 per 60 s) admits it and the store is not empty; the context joins the top-scoring chunks for the stripped question; the citations are their sources; the count is min(5, n) |
| Endpoints.Briefing | backend/server2.py:500-515 | a reply comes exactly when the limiter (5 per 60 s) admits the request and the store is not empty; then it samples about 10000 characters and reports the source and chunk counts |
| Endpoints.Podcast | backend/server2.py:549-564 | a reply comes exactly when the limiter (3 per 300 s) admits the request and the store is not empty; then it samples about 3000 characters |
| Endpoints.SampleBound | backend/server2.py:130-141 | a sample is a prefix of the texts; the taken texts total less than the budget plus 2000 characters, and the joined sample less than that plus one blank per text |

## Left out

- Answer generation, TextRank summarisation, the prompts, text-to-speech and the temporary MP3 file are left out. Briefing and podcast stop at the text sample they feed to those steps.
- The BM25 formula is not modelled. Scores come from a `Scorer` parameter, and the index is the tokenized corpus it is built from.
- UrlGate.ValidateUrl: `urlparse` is a total parameter here. In Python it raises `ValueError` for some malformed URLs, such as `http://[::1`, and the request is then refused; the model can accept such a URL when the given parse passes the checks.
- `requests`, BeautifulSoup, `urljoin` and `urlparse` are parameters (`Crawler.Web`). So are the per-link exceptions of link resolution: a link that fails to resolve is simply absent from the page's links.
- HTTP timeouts, redirects and headers are not modelled; only the three outcomes of a fetch are.
- `asyncio` concurrency, `db.lock` and the thread pool are not modelled. Each handler runs as one atomic step.
- The generic 500 and 502 handlers are not modelled: with fetch modelled as a parameter, no exception can reach them.
- The `/`, `/stats` and `/sources` routes are thin wrappers around the modelled state and are not separate members. The startup and shutdown hooks and the CORS set-up are not modelled.
- Unicode data is not modelled: `\w` and `lower()` are the `Text.Lexicon` tables, and `isspace` is a fixed list of code points.
- Text.Lower: maps each character to exactly one character, on its own. The few characters whose lower case in Python is two characters long are not modelled, and neither is Python's context rule for a capital sigma at the end of a word, which becomes 'ς' rather than 'σ'.
- The ingest timestamp and the rate limiter's clock are parameters; clock times are reals rather than floats.
- Crawler.Crawl: returns the visited URLs as a set, where the code returns `list(visited)` in set-iteration order.
- Endpoints.Chat: citations are a set, where the code returns `list(source_urls)` in set-iteration order.
- Logging is left out.
- `backend/server.py`, `frontend/popup.js`, `backend/reproduce_issue.py` and the test scripts are not part of this model.
