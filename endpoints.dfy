/**
 * The request handling of the API: body validation (the request models),
 * the rate limit each endpoint applies, and what `ingest`, `chat`,
 * `briefing` and `podcast` compute before text generation.
 *
 * Body validation runs before the endpoint body, so a malformed request is
 * refused (HTTP 422) without touching the rate-limit store.
 */
module Endpoints {
  import opened Wrappers
  import opened Seqs
  import opened Text
  import opened UrlGate
  import opened Crawler
  import opened Ranking
  import opened Store
  import opened RateLimit
  import Config

  /** The body of `POST /ingest` as sent: `max_pages` may be absent. */
  datatype IngestBody = IngestBody(url: string, maxPages: Option<int>)

  /** A validated `IngestRequest`. */
  datatype IngestRequest = IngestRequest(url: string, maxPages: int)

  /** Why a request model refuses a body. */
  datatype ValidationError = BadUrl(reason: UrlError) | PagesOutOfRange | QuestionLength | EmptyQuestion

  datatype Checked<T> = Invalid(error: ValidationError) | Ok(value: T)

  /** The error responses of the endpoints. */
  datatype Failure =
    | Unprocessable(error: ValidationError)
    | TooManyRequests
    | NoContentFound
    | InsufficientStorage

  datatype Response<T> = Fail(failure: Failure) | Reply(body: T)

  /** The HTTP status of each error response. */
  function StatusCode(f: Failure): (code: int)
    ensures 400 <= code < 600
  {
    match f
    case Unprocessable(_) => 422
    case TooManyRequests => 429
    case NoContentFound => 400
    case InsufficientStorage => 507
  }

  /** `max_pages`: default 5, and within 1..20. */
  function ValidatePages(maxPages: Option<int>): (r: Checked<int>)
    ensures r.Ok? <==> maxPages.None? || Config.MinIngestPages <= maxPages.value <= Config.MaxIngestPages
    ensures r.Ok? ==> 1 <= r.value <= 20 && r.value == (if maxPages.None? then 5 else maxPages.value)
  {
    if maxPages.None? then Ok(Config.DefaultIngestPages)
    else if Config.MinIngestPages <= maxPages.value <= Config.MaxIngestPages then Ok(maxPages.value)
    else Invalid(PagesOutOfRange)
  }

  /** `IngestRequest`: the URL must pass `validate_url` and `max_pages` its range. */
  function ValidateIngest(body: IngestBody, parse: string -> UrlParts): (r: Checked<IngestRequest>)
    ensures r.Ok? <==> ValidateUrl(body.url, parse(body.url)) == Accepted && ValidatePages(body.maxPages).Ok?
    ensures r.Ok? ==> r.value.url == body.url && 1 <= r.value.maxPages <= 20
    ensures ValidateUrl(body.url, parse(body.url)).Rejected? ==>
      r == Invalid(BadUrl(ValidateUrl(body.url, parse(body.url)).reason))
  {
    match ValidateUrl(body.url, parse(body.url))
    case Rejected(reason) => Invalid(BadUrl(reason))
    case Accepted =>
      match ValidatePages(body.maxPages)
      case Invalid(e) => Invalid(e)
      case Ok(pages) => Ok(IngestRequest(body.url, pages))
  }

  /** `ChatRequest`: 1..500 characters as sent, then stripped, and not blank. */
  function ValidateQuestion(question: string): (r: Checked<string>)
    ensures r.Ok? <==> 1 <= |question| <= Config.MaxQuestionLength && Strip(question) != []
    ensures r.Ok? ==> r.value == Strip(question) && 1 <= |r.value| <= 500
    ensures r.Ok? ==> !IsSpace(r.value[0]) && !IsSpace(r.value[|r.value| - 1])
  {
    if !(1 <= |question| <= Config.MaxQuestionLength) then Invalid(QuestionLength)
    else
      var q := Strip(question);
      if q == [] then Invalid(EmptyQuestion) else Ok(q)
  }

  /** What `ingest` reports. */
  datatype IngestReply = IngestReply(sourceUrl: string, pagesVisited: nat, chunksAdded: nat, totalChunks: nat)

  /**
   * The body of `ingest` once the request is admitted: crawl, store, and
   * report. `crawled` and `order` are the crawl's chunks and visit order.
   */
  method IngestAdmitted(db: Database, req: IngestRequest, web: Web, timestamp: string)
    returns (r: Response<IngestReply>, ghost crawled: seq<string>, ghost order: seq<string>)
    requires db.Valid()
    modifies db
    ensures db.Valid()
    ensures r == Fail(InsufficientStorage) <==> old(|db.chunkMetadata|) >= Config.MaxTotalChunks
    ensures r.Reply? <==> old(|db.chunkMetadata|) < Config.MaxTotalChunks && crawled != []
    ensures r.Fail? ==> r.failure in {InsufficientStorage, NoContentFound} && unchanged(db)
    ensures r != Fail(InsufficientStorage) ==>
      && order == CrawlOrder(web, req.url, req.maxPages) && crawled == ChunksOfPages(web, order)
      && (req.maxPages > 0 && ChunksOf(web.fetch(req.url)) != [] ==> crawled != [])
    ensures r.Reply? ==>
      && db.sources == old(db.sources)[req.url := Truncate(crawled)]
      && db.sourceOrder == (if req.url in old(db.sources) then old(db.sourceOrder) else old(db.sourceOrder) + [req.url])
      && db.chunkMetadata == old(db.chunkMetadata) + Tag(Truncate(crawled), req.url, timestamp)
      && r.body == IngestReply(req.url, |order|, |Truncate(crawled)|, |db.chunkMetadata|)
      && 1 <= r.body.chunksAdded <= Config.MaxChunksPerSource
  {
    var outcome;
    outcome, crawled, order := db.Ingest(req.url, req.maxPages, web, timestamp);
    match outcome
    case AtCapacity =>
      r := Fail(InsufficientStorage);
    case NoContent =>
      r := Fail(NoContentFound);
    case Ingested(pages, added, total) =>
      r := Reply(IngestReply(req.url, pages, added, total));
  }

  /**
   * `POST /ingest`: validate, rate-limit (5 per 60 s), then crawl and store.
   * `crawled` and `order` are the crawl's chunks and visit order, when it runs.
   */
  method Ingest(db: Database, limiter: RateLimiter, client: string, now: real, body: IngestBody, web: Web,
                timestamp: string)
    returns (r: Response<IngestReply>, ghost crawled: seq<string>, ghost order: seq<string>)
    requires db.Valid()
    modifies db, limiter
    ensures db.Valid()
    ensures ValidateIngest(body, web.parse).Invalid? ==>
      r == Fail(Unprocessable(ValidateIngest(body, web.parse).error)) && unchanged(db, limiter)
    ensures ValidateIngest(body, web.parse).Ok? ==>
      && limiter.store == old(limiter.store)[client := Decide(old(limiter.History(client)), now, 5, 60).history]
      && (!Decide(old(limiter.History(client)), now, 5, 60).allowed ==> r == Fail(TooManyRequests) && unchanged(db))
    ensures r.Reply? <==>
      && ValidateIngest(body, web.parse).Ok? && Decide(old(limiter.History(client)), now, 5, 60).allowed
      && old(|db.chunkMetadata|) < Config.MaxTotalChunks && crawled != []
    ensures ValidateIngest(body, web.parse).Ok? && Decide(old(limiter.History(client)), now, 5, 60).allowed ==>
      && (r == Fail(InsufficientStorage) <==> old(|db.chunkMetadata|) >= Config.MaxTotalChunks)
      && (old(|db.chunkMetadata|) < Config.MaxTotalChunks ==>
            && order == CrawlOrder(web, body.url, ValidateIngest(body, web.parse).value.maxPages)
            && crawled == ChunksOfPages(web, order)
            && (ChunksOf(web.fetch(body.url)) != [] ==> crawled != []))
    ensures r.Reply? ==>
      && db.sources == old(db.sources)[body.url := Truncate(crawled)]
      && db.sourceOrder == (if body.url in old(db.sources) then old(db.sourceOrder) else old(db.sourceOrder) + [body.url])
      && db.chunkMetadata == old(db.chunkMetadata) + Tag(Truncate(crawled), body.url, timestamp)
      && r.body == IngestReply(body.url, |order|, |Truncate(crawled)|, |db.chunkMetadata|)
      && 1 <= r.body.chunksAdded <= Config.MaxChunksPerSource
    ensures r.Fail? && r.failure in {InsufficientStorage, NoContentFound} ==> unchanged(db)
  {
    crawled, order := [], [];
    var checked := ValidateIngest(body, web.parse);
    if checked.Invalid? {
      return Fail(Unprocessable(checked.error)), crawled, order;
    }
    var allowed := limiter.Check(client, now, 5, 60);
    if !allowed {
      return Fail(TooManyRequests), crawled, order;
    }
    r, crawled, order := IngestAdmitted(db, checked.value, web, timestamp);
  }

  /** BM25's `get_scores`: one score per chunk of the corpus, given the whole corpus and the query. */
  type Scorer = (Corpus, nat, seq<string>) -> real

  function Scores(score: Scorer, corpus: Corpus, query: seq<string>): (r: seq<real>)
    ensures |r| == |corpus|
  {
    seq(|corpus|, i requires 0 <= i < |corpus| => score(corpus, i, query))
  }

  /** The texts of the picked entries that exist, in pick order (the `idx < len(chunk_metadata)` guard). */
  function Picked(metas: seq<Meta>, picks: seq<nat>): (r: seq<string>)
    ensures |r| <= |picks|
    ensures (forall k :: 0 <= k < |picks| ==> picks[k] < |metas|) ==> |r| == |picks|
  {
    if picks == [] then []
    else (if picks[0] < |metas| then [metas[picks[0]].text] else []) + Picked(metas, picks[1..])
  }

  /** The source URLs of the picked entries that exist. */
  function Cited(metas: seq<Meta>, picks: seq<nat>): (r: set<string>)
    ensures r <= SourceUrls(metas)
  {
    set k | 0 <= k < |picks| && picks[k] < |metas| :: metas[picks[k]].sourceUrl
  }

  /** The texts picked from position `k` on: the `k`-th pick's text, if it exists, then the rest. */
  lemma PickedStep(metas: seq<Meta>, picks: seq<nat>, k: nat)
    requires k < |picks|
    ensures Picked(metas, picks[k..])
      == (if picks[k] < |metas| then [metas[picks[k]].text] else []) + Picked(metas, picks[k + 1..])
  {
    assert picks[k..][1..] == picks[k + 1..];
  }

  /** The sources cited by the first `k + 1` picks: those of the first `k`, and the `k`-th pick's if it exists. */
  lemma CitedStep(metas: seq<Meta>, picks: seq<nat>, k: nat)
    requires k < |picks|
    ensures Cited(metas, picks[..k + 1])
      == Cited(metas, picks[..k]) + (if picks[k] < |metas| then {metas[picks[k]].sourceUrl} else {})
  {
    var longer := picks[..k + 1];
    assert longer[..k] == picks[..k];
    assert forall a :: 0 <= a < k ==> longer[a] == picks[..k][a];
  }

  /** The context loop of `chat`: collect the picked texts and the set of their sources. */
  method Gather(metas: seq<Meta>, picks: seq<nat>) returns (parts: seq<string>, citations: set<string>)
    ensures parts == Picked(metas, picks) && citations == Cited(metas, picks)
  {
    parts := [];
    citations := {};
    for k := 0 to |picks|
      invariant parts + Picked(metas, picks[k..]) == Picked(metas, picks)
      invariant citations == Cited(metas, picks[..k])
    {
      PickedStep(metas, picks, k);
      CitedStep(metas, picks, k);
      var idx := picks[k];
      if idx < |metas| {
        parts := parts + [metas[idx].text];
        citations := citations + {metas[idx].sourceUrl};
      }
    }
    assert picks[..|picks|] == picks;
  }

  /** When every pick is a valid index, each one contributes its text, in order. */
  lemma {:induction false} PickedAll(metas: seq<Meta>, picks: seq<nat>)
    requires forall k :: 0 <= k < |picks| ==> picks[k] < |metas|
    ensures |Picked(metas, picks)| == |picks|
    ensures forall k :: 0 <= k < |picks| ==> Picked(metas, picks)[k] == metas[picks[k]].text
  {
    if picks != [] {
      PickedAll(metas, picks[1..]);
    }
  }

  /**
   * Retrieval for a question over a non-empty index: `min(5, n)` distinct
   * chunks, and no chunk left out scores higher than one kept.
   */
  lemma RetrievalPicksBest(metas: seq<Meta>, scores: seq<real>)
    requires |scores| == |metas|
    ensures var picks := TopK(scores, Config.TopKRetrieval);
      && |picks| == |Picked(metas, picks)| == Min(Config.TopKRetrieval, |metas|)
      && InRange(scores, picks) && Distinct(picks)
      && (forall k :: 0 <= k < |picks| ==> Picked(metas, picks)[k] == metas[picks[k]].text)
      && (forall i: nat, j: nat :: i in picks && i < |scores| && j < |scores| && j !in picks ==> scores[i] >= scores[j])
  {
    var picks := TopK(scores, Config.TopKRetrieval);
    TopKSelects(scores, Config.TopKRetrieval);
    PickedAll(metas, picks);
  }

  /** What `chat` passes to generation and reports: the joined context, its sources, and how many chunks. */
  datatype ChatReply = ChatReply(context: string, citations: set<string>, chunksRetrieved: nat)

  /** `POST /chat`: validate, rate-limit (20 per 60 s), refuse without an index, then retrieve the top 5 chunks. */
  method Chat(db: Database, limiter: RateLimiter, client: string, now: real, question: string, score: Scorer)
    returns (r: Response<ChatReply>)
    requires db.Valid()
    modifies limiter
    ensures ValidateQuestion(question).Invalid? ==>
      r == Fail(Unprocessable(ValidateQuestion(question).error)) && unchanged(limiter)
    ensures ValidateQuestion(question).Ok? ==>
      && limiter.store == old(limiter.store)[client := Decide(old(limiter.History(client)), now, 20, 60).history]
      && (!Decide(old(limiter.History(client)), now, 20, 60).allowed ==> r == Fail(TooManyRequests))
      && (Decide(old(limiter.History(client)), now, 20, 60).allowed ==>
            (r == Fail(NoContentFound) <==> db.chunkMetadata == []))
    ensures r.Reply? <==>
      ValidateQuestion(question).Ok? && Decide(old(limiter.History(client)), now, 20, 60).allowed
      && db.chunkMetadata != []
    ensures r.Reply? ==>
      var scores := Scores(score, TokenizeAll(db.lex, Texts(db.chunkMetadata)),
                           Tokenize(db.lex, ValidateQuestion(question).value));
      var picks := TopK(scores, Config.TopKRetrieval);
      && ValidateQuestion(question).Ok?
      && r.body.context == Join("\n\n", Picked(db.chunkMetadata, picks))
      && r.body.citations == Cited(db.chunkMetadata, picks)
      && r.body.chunksRetrieved == Min(Config.TopKRetrieval, |db.chunkMetadata|)
  {
    var checked := ValidateQuestion(question);
    if checked.Invalid? {
      return Fail(Unprocessable(checked.error));
    }
    var allowed := limiter.Check(client, now, 20, 60);
    if !allowed {
      return Fail(TooManyRequests);
    }
    if db.bm25.None? {
      return Fail(NoContentFound);
    }
    var query := Tokenize(db.lex, checked.value);
    var scores := Scores(score, db.bm25.value, query);
    var picks := TopK(scores, Config.TopKRetrieval);
    var parts, citations := Gather(db.chunkMetadata, picks);
    RetrievalPicksBest(db.chunkMetadata, scores);
    r := Reply(ChatReply(Join("\n\n", parts), citations, |parts|));
  }

  /** What `briefing` summarises, with the counts it reports. */
  datatype BriefingReply = BriefingReply(sample: string, sourceCount: nat, chunkCount: nat)

  /** `POST /briefing`: rate-limit (5 per 60 s), refuse an empty database, then sample up to 10000 characters. */
  method Briefing(db: Database, limiter: RateLimiter, client: string, now: real)
    returns (r: Response<BriefingReply>)
    requires db.Valid()
    modifies limiter
    ensures limiter.store == old(limiter.store)[client := Decide(old(limiter.History(client)), now, 5, 60).history]
    ensures !Decide(old(limiter.History(client)), now, 5, 60).allowed ==> r == Fail(TooManyRequests)
    ensures Decide(old(limiter.History(client)), now, 5, 60).allowed ==>
      (r == Fail(NoContentFound) <==> db.chunkMetadata == [])
    ensures r.Reply? <==> Decide(old(limiter.History(client)), now, 5, 60).allowed && db.chunkMetadata != []
    ensures r.Reply? ==>
      && r.body.sample == Join(" ", Taken(Texts(db.chunkMetadata), Config.BriefingSampleChars))
      && r.body.sourceCount == |db.sources| && r.body.chunkCount == |db.chunkMetadata|
  {
    var allowed := limiter.Check(client, now, 5, 60);
    if !allowed {
      return Fail(TooManyRequests);
    }
    if db.chunkMetadata == [] {
      return Fail(NoContentFound);
    }
    var sample := db.GetFullTextSample(Config.BriefingSampleChars);
    r := Reply(BriefingReply(sample, |db.sources|, |db.chunkMetadata|));
  }

  /** `GET /podcast`: rate-limit (3 per 300 s), refuse an empty database, then sample up to 3000 characters. */
  method Podcast(db: Database, limiter: RateLimiter, client: string, now: real)
    returns (r: Response<string>)
    requires db.Valid()
    modifies limiter
    ensures limiter.store == old(limiter.store)[client := Decide(old(limiter.History(client)), now, 3, 300).history]
    ensures !Decide(old(limiter.History(client)), now, 3, 300).allowed ==> r == Fail(TooManyRequests)
    ensures Decide(old(limiter.History(client)), now, 3, 300).allowed ==>
      (r == Fail(NoContentFound) <==> db.chunkMetadata == [])
    ensures r.Reply? <==> Decide(old(limiter.History(client)), now, 3, 300).allowed && db.chunkMetadata != []
    ensures r.Reply? ==> r.body == Join(" ", Taken(Texts(db.chunkMetadata), Config.PodcastSampleChars))
  {
    var allowed := limiter.Check(client, now, 3, 300);
    if !allowed {
      return Fail(TooManyRequests);
    }
    if db.chunkMetadata == [] {
      return Fail(NoContentFound);
    }
    var sample := db.GetFullTextSample(Config.PodcastSampleChars);
    r := Reply(sample);
  }

  /**
   * The text a sample is made from: whole chunks, in order, fewer than
   * `budget + 2000` characters in all, since every stored chunk has at
   * most 2000.
   */
  lemma SampleBound(metas: seq<Meta>, budget: int)
    requires budget > 0
    requires forall m :: m in metas ==> IsChunk(m.text)
    ensures Taken(Texts(metas), budget) <= Texts(metas)
    ensures SumLen(Taken(Texts(metas), budget)) < budget + Config.MaxChunkLength
    ensures var taken := Taken(Texts(metas), budget);
      |Join(" ", taken)| < budget + Config.MaxChunkLength + |taken|
  {
    var texts := Texts(metas);
    forall i | 0 <= i < |texts| ensures |texts[i]| <= Config.MaxChunkLength {
      assert metas[i] in metas;
    }
    TakenIsShortestPrefix(texts, budget);
    TakenBound(texts, budget, Config.MaxChunkLength);
    var taken := Taken(texts, budget);
    if taken != [] {
      assert |Join(" ", taken)| == SumLen(taken) + |taken| - 1 by {
        JoinLength(" ", taken);
        assert (|taken| - 1) * |" "| == |taken| - 1;
      }
    }
  }
}
