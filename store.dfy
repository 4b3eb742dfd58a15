/**
 * The in-memory database of the server (class `Database`), the index
 * rebuild (`rebuild_index`) and the store updates of the ingest, delete and
 * clear endpoints.
 *
 * The BM25 index is represented by the tokenised corpus it is built from;
 * the scoring arithmetic of `BM25Okapi` is not part of this model.
 */
module Store {
  import opened Wrappers
  import opened Seqs
  import opened Text
  import opened Crawler
  import Config

  /** One entry of `chunk_metadata`; the timestamp is the ISO text `datetime.now().isoformat()` gave. */
  datatype Meta = Meta(text: string, sourceUrl: string, timestamp: string)

  /** The tokenised corpus of a BM25 index: one token list per chunk, in chunk order. */
  type Corpus = seq<seq<string>>

  /** The texts of the entries, in order. */
  function Texts(metas: seq<Meta>): (r: seq<string>)
    ensures |r| == |metas| && forall i :: 0 <= i < |metas| ==> r[i] == metas[i].text
  {
    seq(|metas|, i requires 0 <= i < |metas| => metas[i].text)
  }

  /** The source URLs that have at least one entry. */
  function SourceUrls(metas: seq<Meta>): set<string> {
    set m | m in metas :: m.sourceUrl
  }

  /** The texts of the entries of one source, in order. */
  function TextsOf(metas: seq<Meta>, url: string): seq<string> {
    if metas == [] then []
    else (if metas[0].sourceUrl == url then [metas[0].text] else []) + TextsOf(metas[1..], url)
  }

  /** The list comprehension of `delete_source`: the entries of every other source, in order. */
  function KeepOthers(metas: seq<Meta>, url: string): (r: seq<Meta>)
    ensures forall m :: m in r <==> m in metas && m.sourceUrl != url
    ensures |r| <= |metas|
  {
    if metas == [] then []
    else if metas[0].sourceUrl == url then KeepOthers(metas[1..], url)
    else
      var rest := KeepOthers(metas[1..], url);
      assert forall m :: m in metas[1..] ==> m in metas;
      [metas[0]] + rest
  }

  /** The entries `ingest` appends for the chunks of one source, all with the same timestamp. */
  function Tag(chunks: seq<string>, url: string, timestamp: string): (r: seq<Meta>)
    ensures |r| == |chunks|
    ensures forall i :: 0 <= i < |r| ==> r[i].text == chunks[i]
    ensures forall m :: m in r ==> m.sourceUrl == url && m.timestamp == timestamp
  {
    seq(|chunks|, i requires 0 <= i < |chunks| => Meta(chunks[i], url, timestamp))
  }

  /** `[tokenize(text) for text in corpus_texts]`. */
  function TokenizeAll(lex: Lexicon, texts: seq<string>): (r: Corpus)
    ensures |r| == |texts|
  {
    seq(|texts|, i requires 0 <= i < |texts| => Tokenize(lex, texts[i]))
  }

  /** The index `rebuild_index` builds for the entries: none for an empty database. */
  function IndexFor(lex: Lexicon, metas: seq<Meta>): (r: Option<Corpus>)
    ensures r.None? <==> metas == []
    ensures r.Some? ==>
      && |r.value| == |metas|
      && forall i :: 0 <= i < |metas| ==> r.value[i] == Tokenize(lex, metas[i].text)
  {
    if metas == [] then None else Some(TokenizeAll(lex, Texts(metas)))
  }

  /** `chunks[:MAX_CHUNKS_PER_SOURCE]`. */
  function Truncate(chunks: seq<string>): (r: seq<string>)
    ensures r <= chunks
    ensures |r| == if |chunks| <= Config.MaxChunksPerSource then |chunks| else Config.MaxChunksPerSource
  {
    if |chunks| > Config.MaxChunksPerSource then chunks[..Config.MaxChunksPerSource] else chunks
  }

  /**
   * The texts `get_full_text_sample` collects: texts are taken in order
   * while fewer than `budget` characters have been taken.
   */
  function Taken(texts: seq<string>, budget: int): (r: seq<string>)
    ensures |r| <= |texts|
    ensures budget <= 0 ==> r == []
  {
    if texts == [] || budget <= 0 then [] else [texts[0]] + Taken(texts[1..], budget - |texts[0]|)
  }

  /** Taking from position `i` on with budget left: the `i`-th text, then the rest with less budget. */
  lemma TakenStep(texts: seq<string>, i: nat, budget: int)
    requires i < |texts| && budget > 0
    ensures Taken(texts[i..], budget) == [texts[i]] + Taken(texts[i + 1..], budget - |texts[i]|)
  {
    assert texts[i..][1..] == texts[i + 1..];
  }

  /** `a` ends with `b`. */
  predicate IsSuffix(b: seq<string>, a: seq<string>) {
    |b| <= |a| && a[|a| - |b|..] == b
  }

  /**
   * The database invariant: the sources are exactly the URLs with entries,
   * listed once each in `order`; each source holds between 1 and 1000
   * chunks, which are the latest of its entries; every entry is a chunk as
   * the crawler yields them; the entries stay below 11000.
   */
  ghost predicate Consistent(sources: map<string, seq<string>>, order: seq<string>, metas: seq<Meta>) {
    && SourceUrls(metas) == sources.Keys
    && Distinct(order) && Elems(order) == sources.Keys
    && (forall u :: u in sources ==>
          && sources[u] != [] && |sources[u]| <= Config.MaxChunksPerSource
          && IsSuffix(sources[u], TextsOf(metas, u)))
    && (forall m :: m in metas ==> IsChunk(m.text))
    && |metas| < Config.MaxTotalChunks + Config.MaxChunksPerSource
  }

  /** What `get_stats` reports. */
  datatype Stats = Stats(totalSources: nat, totalChunks: nat, sources: seq<string>)

  /** The outcome of the store side of `ingest`. */
  datatype IngestOutcome =
    | AtCapacity                                                // HTTP 507
    | NoContent                                                 // HTTP 400: the crawl found no chunk
    | Ingested(pagesVisited: nat, chunksAdded: nat, totalChunks: nat)

  /** The outcome of `delete_source`. */
  datatype DeleteOutcome = SourceNotFound | Deleted(remaining: nat)

  /** The append loop of `ingest`: one entry per chunk, in chunk order. */
  method AppendEntries(metas: seq<Meta>, chunks: seq<string>, url: string, timestamp: string)
    returns (r: seq<Meta>)
    ensures r == metas + Tag(chunks, url, timestamp)
  {
    r := metas;
    for k := 0 to |chunks|
      invariant r == metas + Tag(chunks[..k], url, timestamp)
    {
      TagSnoc(chunks, k, url, timestamp);
      r := r + [Meta(chunks[k], url, timestamp)];
    }
    assert chunks[..|chunks|] == chunks;
  }

  class Database {
    /** The character tables `tokenize` uses. */
    const lex: Lexicon
    /** `sources`: URL to the chunks stored for it by its latest ingest. */
    var sources: map<string, seq<string>>
    /** The keys of `sources` in dictionary order (first insertion). */
    var sourceOrder: seq<string>
    var chunkMetadata: seq<Meta>
    var bm25: Option<Corpus>

    /** The database invariant, and an index that matches the entries. */
    ghost predicate Valid()
      reads this
    {
      Consistent(sources, sourceOrder, chunkMetadata) && bm25 == IndexFor(lex, chunkMetadata)
    }

    constructor(lex: Lexicon)
      ensures Valid() && this.lex == lex
      ensures sources == map[] && sourceOrder == [] && chunkMetadata == [] && bm25 == None
    {
      this.lex := lex;
      sources := map[];
      sourceOrder := [];
      chunkMetadata := [];
      bm25 := None;
    }

    /** `get_stats`: the number of sources, the number of entries, and the sources in dictionary order. */
    function GetStats(): (s: Stats)
      reads this
      requires Valid()
      ensures s.totalSources == |s.sources| && s.totalChunks == |chunkMetadata|
      ensures Elems(s.sources) == SourceUrls(chunkMetadata) && Distinct(s.sources)
    {
      DistinctCard(sourceOrder);
      Stats(|sources|, |chunkMetadata|, sourceOrder)
    }

    /** `get_full_text_sample`: the texts taken up to the character budget, joined with blanks. */
    method GetFullTextSample(maxChars: int) returns (sample: string)
      ensures sample == Join(" ", Taken(Texts(chunkMetadata), maxChars))
    {
      ghost var texts := Texts(chunkMetadata);
      var parts := [];
      var count := 0;
      var i := 0;
      while i < |chunkMetadata| && count < maxChars
        invariant 0 <= i <= |chunkMetadata|
        invariant parts + Taken(texts[i..], maxChars - count) == Taken(texts, maxChars)
      {
        TakenStep(texts, i, maxChars - count);
        parts := parts + [chunkMetadata[i].text];
        count := count + |chunkMetadata[i].text|;
        i := i + 1;
      }
      assert Taken(texts[i..], maxChars - count) == [] by {
        assert i == |texts| ==> texts[i..] == [];
      }
      assert parts == Taken(texts, maxChars);
      sample := Join(" ", parts);
    }

    /** `rebuild_index`: no index for an empty database, otherwise one over the tokenised texts. */
    method RebuildIndex()
      modifies this
      ensures bm25 == IndexFor(lex, chunkMetadata)
      ensures sources == old(sources) && sourceOrder == old(sourceOrder) && chunkMetadata == old(chunkMetadata)
    {
      if chunkMetadata == [] {
        bm25 := None;
      } else {
        var corpusTexts := Texts(chunkMetadata);
        bm25 := Some(TokenizeAll(lex, corpusTexts));
      }
    }

    /** The locked part of `ingest`: record the chunks of `url` and rebuild the index. */
    method StoreChunks(url: string, chunks: seq<string>, timestamp: string)
      requires Valid()
      requires chunks != [] && |chunks| <= Config.MaxChunksPerSource
      requires |chunkMetadata| < Config.MaxTotalChunks
      requires forall k :: 0 <= k < |chunks| ==> IsChunk(chunks[k])
      modifies this
      ensures Valid()
      ensures sources == old(sources)[url := chunks]
      ensures sourceOrder == if url in old(sources) then old(sourceOrder) else old(sourceOrder) + [url]
      ensures chunkMetadata == old(chunkMetadata) + Tag(chunks, url, timestamp)
    {
      StoreKeepsConsistent(sources, sourceOrder, chunkMetadata, url, chunks, timestamp);
      if url !in sources {
        sourceOrder := sourceOrder + [url];
      }
      sources := sources[url := chunks];
      chunkMetadata := AppendEntries(chunkMetadata, chunks, url, timestamp);
      RebuildIndex();
    }

    /**
     * The store side of `ingest`: refuse when the database is at capacity,
     * crawl from `url`, refuse when nothing was found, otherwise store at most
     * 1000 chunks under `url`. `crawled` and `order` are the crawl's chunks
     * and visit order.
     */
    method Ingest(url: string, maxPages: int, web: Web, timestamp: string)
      returns (r: IngestOutcome, ghost crawled: seq<string>, ghost order: seq<string>)
      requires Valid()
      modifies this
      ensures Valid()
      ensures r == AtCapacity <==> old(|chunkMetadata|) >= Config.MaxTotalChunks
      ensures r == NoContent <==> old(|chunkMetadata|) < Config.MaxTotalChunks && crawled == []
      ensures !r.Ingested? ==> unchanged(this)
      ensures r != AtCapacity ==>
        && order == CrawlOrder(web, url, maxPages)
        && crawled == ChunksOfPages(web, order) && Discovered(web, url, order) && Distinct(order)
        && (maxPages >= 0 ==> |order| <= maxPages)
        && (forall u :: u in order ==> InScope(web, url, u) && ChunksOf(web.fetch(u)) != [])
        && (|order| < maxPages ==>
              forall j, u :: 0 <= j < |order| && u in LinksOf(web.fetch(order[j])) && SameSite(web, web.parse(url).netloc, u)
                ==> u in order || ChunksOf(web.fetch(u)) == [])
      ensures r == NoContent ==> maxPages <= 0 || ChunksOf(web.fetch(url)) == []
      ensures r.Ingested? ==>
        && sources == old(sources)[url := Truncate(crawled)]
        && sourceOrder == (if url in old(sources) then old(sourceOrder) else old(sourceOrder) + [url])
        && chunkMetadata == old(chunkMetadata) + Tag(Truncate(crawled), url, timestamp)
        && r == Ingested(|order|, |Truncate(crawled)|, |chunkMetadata|)
    {
      crawled, order := [], [];
      if |chunkMetadata| >= Config.MaxTotalChunks {
        return AtCapacity, crawled, order;
      }
      var chunks, visited;
      chunks, visited, order := Crawl(web, url, Some(maxPages));
      crawled := chunks;
      DistinctCard(order);
      if chunks == [] {
        return NoContent, crawled, order;
      }
      if |chunks| > Config.MaxChunksPerSource {
        chunks := chunks[..Config.MaxChunksPerSource];
      }
      StoreChunks(url, chunks, timestamp);
      DistinctCard(order);
      r := Ingested(|visited|, |chunks|, |chunkMetadata|);
    }

    /** `delete_source`: unknown URL is refused (HTTP 404); otherwise all its entries go and the index is rebuilt. */
    method DeleteSource(url: string) returns (r: DeleteOutcome)
      requires Valid()
      modifies this
      ensures Valid()
      ensures url !in old(sources) ==> r == SourceNotFound && unchanged(this)
      ensures url in old(sources) ==>
        && sources == old(sources) - {url}
        && sourceOrder == Without(old(sourceOrder), url)
        && chunkMetadata == KeepOthers(old(chunkMetadata), url)
        && r == Deleted(|chunkMetadata|)
    {
      if url !in sources {
        return SourceNotFound;
      }
      DeleteKeepsConsistent(sources, sourceOrder, chunkMetadata, url);
      sources := sources - {url};
      sourceOrder := Without(sourceOrder, url);
      chunkMetadata := KeepOthers(chunkMetadata, url);
      RebuildIndex();
      r := Deleted(|chunkMetadata|);
    }

    /** `clear_database`: empties the sources and the entries and drops the index. */
    method Clear()
      modifies this
      ensures Valid()
      ensures sources == map[] && sourceOrder == [] && chunkMetadata == [] && bm25 == None
    {
      sources := map[];
      sourceOrder := [];
      chunkMetadata := [];
      bm25 := None;
    }
  }

  /** Storing the chunks of one ingest keeps the database invariant. */
  lemma StoreKeepsConsistent(sources: map<string, seq<string>>, order: seq<string>, metas: seq<Meta>,
                             url: string, chunks: seq<string>, timestamp: string)
    requires Consistent(sources, order, metas)
    requires chunks != [] && |chunks| <= Config.MaxChunksPerSource && |metas| < Config.MaxTotalChunks
    requires forall k :: 0 <= k < |chunks| ==> IsChunk(chunks[k])
    ensures Consistent(sources[url := chunks], if url in sources then order else order + [url],
                       metas + Tag(chunks, url, timestamp))
  {
    var metas' := metas + Tag(chunks, url, timestamp);
    var sources' := sources[url := chunks];
    var order' := if url in sources then order else order + [url];
    StoreKeepsOrder(sources, order, url, chunks);
    StoreKeepsUrls(sources, metas, url, chunks, timestamp);
    StoreKeepsSuffixes(sources, metas, url, chunks, timestamp);
    StoreKeepsChunks(metas, url, chunks, timestamp);
    ConsistentIntro(sources', order', metas');
  }

  /** The invariant from its five parts, each proved on its own. */
  lemma ConsistentIntro(sources: map<string, seq<string>>, order: seq<string>, metas: seq<Meta>)
    requires SourceUrls(metas) == sources.Keys
    requires Distinct(order) && Elems(order) == sources.Keys
    requires forall u :: u in sources ==> sources[u] != [] && |sources[u]| <= Config.MaxChunksPerSource
    requires forall u :: u in sources ==> IsSuffix(sources[u], TextsOf(metas, u))
    requires forall m :: m in metas ==> IsChunk(m.text)
    requires |metas| < Config.MaxTotalChunks + Config.MaxChunksPerSource
    ensures Consistent(sources, order, metas)
  {
  }

  lemma StoreKeepsOrder(sources: map<string, seq<string>>, order: seq<string>, url: string, chunks: seq<string>)
    requires Distinct(order) && Elems(order) == sources.Keys
    ensures var order' := if url in sources then order else order + [url];
      Distinct(order') && Elems(order') == sources[url := chunks].Keys
  {
    if url !in sources {
      DistinctAppend(order, url);
    }
  }

  lemma StoreKeepsUrls(sources: map<string, seq<string>>, metas: seq<Meta>, url: string, chunks: seq<string>,
                       timestamp: string)
    requires chunks != [] && SourceUrls(metas) == sources.Keys
    ensures SourceUrls(metas + Tag(chunks, url, timestamp)) == sources[url := chunks].Keys
  {
    AddedEntries(metas, chunks, url, timestamp);
  }

  lemma StoreKeepsSuffixes(sources: map<string, seq<string>>, metas: seq<Meta>, url: string, chunks: seq<string>,
                           timestamp: string)
    requires forall u :: u in sources ==> IsSuffix(sources[u], TextsOf(metas, u))
    ensures forall u :: u in sources[url := chunks] ==>
      IsSuffix(sources[url := chunks][u], TextsOf(metas + Tag(chunks, url, timestamp), u))
  {
    forall u | u in sources[url := chunks]
      ensures IsSuffix(sources[url := chunks][u], TextsOf(metas + Tag(chunks, url, timestamp), u))
    {
      TextsOfAdded(metas, chunks, url, timestamp, u);
    }
  }

  lemma StoreKeepsChunks(metas: seq<Meta>, url: string, chunks: seq<string>, timestamp: string)
    requires forall m :: m in metas ==> IsChunk(m.text)
    requires forall k :: 0 <= k < |chunks| ==> IsChunk(chunks[k])
    ensures forall m :: m in metas + Tag(chunks, url, timestamp) ==> IsChunk(m.text)
  {
    forall m | m in metas + Tag(chunks, url, timestamp) ensures IsChunk(m.text) {
      if m !in metas {
        var t := Tag(chunks, url, timestamp);
        assert m in t;
        var k :| 0 <= k < |t| && t[k] == m;
        assert chunks[k] == m.text;
      }
    }
  }

  /** Deleting a stored source keeps the database invariant. */
  lemma DeleteKeepsConsistent(sources: map<string, seq<string>>, order: seq<string>, metas: seq<Meta>,
                              url: string)
    requires Consistent(sources, order, metas)
    requires url in sources
    ensures Consistent(sources - {url}, Without(order, url), KeepOthers(metas, url))
  {
    var metas' := KeepOthers(metas, url);
    DeleteLeavesOthers(metas, url);
    forall u | u in sources - {url}
      ensures IsSuffix((sources - {url})[u], TextsOf(metas', u))
    {
      TextsOfKept(metas, url, u);
    }
  }

  lemma TagSnoc(chunks: seq<string>, k: nat, url: string, timestamp: string)
    requires k < |chunks|
    ensures Tag(chunks[..k + 1], url, timestamp) == Tag(chunks[..k], url, timestamp) + [Meta(chunks[k], url, timestamp)]
  {
  }

  lemma {:induction false} TextsOfAppend(a: seq<Meta>, b: seq<Meta>, url: string)
    ensures TextsOf(a + b, url) == TextsOf(a, url) + TextsOf(b, url)
  {
    if a == [] {
      assert a + b == b;
    } else {
      assert (a + b)[0] == a[0] && (a + b)[1..] == a[1..] + b;
      TextsOfAppend(a[1..], b, url);
    }
  }

  /** The entries of one ingest belong to its URL alone and carry its chunks in order. */
  lemma {:induction false} TextsOfTag(chunks: seq<string>, url: string, timestamp: string, u: string)
    ensures TextsOf(Tag(chunks, url, timestamp), u) == if u == url then chunks else []
  {
    if chunks != [] {
      assert Tag(chunks, url, timestamp)[1..] == Tag(chunks[1..], url, timestamp);
      TextsOfTag(chunks[1..], url, timestamp, u);
    }
  }

  /**
   * Ingesting appends: a source's entries become its earlier entries followed
   * by the new chunks (a second ingest of the same URL keeps the first one's
   * entries), and every other source's entries are untouched.
   */
  lemma TextsOfAdded(metas: seq<Meta>, chunks: seq<string>, url: string, timestamp: string, u: string)
    ensures TextsOf(metas + Tag(chunks, url, timestamp), u)
      == TextsOf(metas, u) + (if u == url then chunks else [])
  {
    TextsOfAppend(metas, Tag(chunks, url, timestamp), u);
    TextsOfTag(chunks, url, timestamp, u);
  }

  /** Ingesting a non-empty chunk list adds exactly its URL to the sources with entries. */
  lemma AddedEntries(metas: seq<Meta>, chunks: seq<string>, url: string, timestamp: string)
    requires chunks != []
    ensures SourceUrls(metas + Tag(chunks, url, timestamp)) == SourceUrls(metas) + {url}
    ensures forall m: Meta :: m in Tag(chunks, url, timestamp) <==> m.sourceUrl == url && m.timestamp == timestamp && m.text in chunks
  {
    var t := Tag(chunks, url, timestamp);
    assert t[0] in t;
    forall m | m in t ensures m.sourceUrl == url && m.timestamp == timestamp && m.text in chunks {
      var i :| 0 <= i < |t| && t[i] == m;
    }
    forall m: Meta | m.sourceUrl == url && m.timestamp == timestamp && m.text in chunks ensures m in t {
      var i :| 0 <= i < |chunks| && chunks[i] == m.text;
      assert t[i] == m;
    }
  }

  /** Deleting a source removes exactly that source and keeps every other source's entries, in order. */
  lemma {:induction false} TextsOfKept(metas: seq<Meta>, url: string, u: string)
    ensures TextsOf(KeepOthers(metas, url), u) == if u == url then [] else TextsOf(metas, u)
  {
    if metas != [] {
      TextsOfKept(metas[1..], url, u);
    }
  }

  lemma DeleteLeavesOthers(metas: seq<Meta>, url: string)
    ensures SourceUrls(KeepOthers(metas, url)) == SourceUrls(metas) - {url}
  {
  }

  /** Ingesting a new URL and then deleting it gives back the entries as they were. */
  lemma {:induction false} IngestThenDelete(metas: seq<Meta>, chunks: seq<string>, url: string, timestamp: string)
    requires url !in SourceUrls(metas)
    ensures KeepOthers(metas + Tag(chunks, url, timestamp), url) == metas
  {
    KeepOthersAppend(metas, Tag(chunks, url, timestamp), url);
    KeepOthersNone(metas, url);
    KeepOthersAll(chunks, url, timestamp);
  }

  lemma {:induction false} KeepOthersAppend(a: seq<Meta>, b: seq<Meta>, url: string)
    ensures KeepOthers(a + b, url) == KeepOthers(a, url) + KeepOthers(b, url)
  {
    if a == [] {
      assert a + b == b;
    } else {
      assert (a + b)[0] == a[0] && (a + b)[1..] == a[1..] + b;
      KeepOthersAppend(a[1..], b, url);
    }
  }

  /** Deleting a URL without entries changes nothing. */
  lemma {:induction false} KeepOthersNone(metas: seq<Meta>, url: string)
    requires url !in SourceUrls(metas)
    ensures KeepOthers(metas, url) == metas
  {
    if metas != [] {
      assert metas[0] in metas;
      assert SourceUrls(metas[1..]) <= SourceUrls(metas);
      KeepOthersNone(metas[1..], url);
    }
  }

  lemma {:induction false} KeepOthersAll(chunks: seq<string>, url: string, timestamp: string)
    ensures KeepOthers(Tag(chunks, url, timestamp), url) == []
  {
    if chunks != [] {
      assert Tag(chunks, url, timestamp)[1..] == Tag(chunks[1..], url, timestamp);
      KeepOthersAll(chunks[1..], url, timestamp);
    }
  }

  /**
   * `get_full_text_sample` takes the shortest prefix of the texts that
   * reaches the budget, or all texts when they never reach it.
   */
  lemma {:induction false} TakenIsShortestPrefix(texts: seq<string>, budget: int)
    ensures Taken(texts, budget) <= texts
    ensures |Taken(texts, budget)| < |texts| ==> SumLen(Taken(texts, budget)) >= budget
    ensures forall n :: 0 <= n < |Taken(texts, budget)| ==> SumLen(Taken(texts, budget)[..n]) < budget
  {
    if texts != [] && budget > 0 {
      var rest := Taken(texts[1..], budget - |texts[0]|);
      TakenIsShortestPrefix(texts[1..], budget - |texts[0]|);
      var t := [texts[0]] + rest;
      assert texts == [texts[0]] + texts[1..];
      forall n | 0 <= n < |t| ensures SumLen(t[..n]) < budget {
        if n > 0 {
          assert t[..n] == [texts[0]] + rest[..n - 1];
          assert SumLen(t[..n]) == |texts[0]| + SumLen(rest[..n - 1]);
        }
      }
    }
  }

  /**
   * With every text at most `longest` characters, the sample's texts hold
   * fewer than `budget + longest` characters.
   */
  lemma {:induction false} TakenBound(texts: seq<string>, budget: int, longest: nat)
    requires budget > 0
    requires forall i :: 0 <= i < |texts| ==> |texts[i]| <= longest
    ensures SumLen(Taken(texts, budget)) < budget + longest
  {
    var t := Taken(texts, budget);
    TakenIsShortestPrefix(texts, budget);
    if t != [] {
      var n := |t| - 1;
      assert t == t[..n] + [t[n]];
      SumLenAppend(t[..n], t[n]);
      assert t[n] == texts[n];
    }
  }
}
