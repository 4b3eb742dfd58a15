/**
 * `crawl_website`: a breadth-first crawl of one site from a seed URL.
 *
 * The network and the HTML parser are given as a `Web`: `fetch` stands for
 * `requests.get` plus BeautifulSoup (the raw text of each p/h1/h2/h3/article/
 * section element after script, style, nav, footer, iframe, noscript and
 * aside elements are removed, and every `<a href>` already resolved with
 * `urljoin` against the page), and `parse` stands for `urlparse`.
 */
module Crawler {
  import opened Wrappers
  import opened Seqs
  import opened Text
  import opened UrlGate
  import Config

  /** The outcome of fetching one URL. */
  datatype Fetched =
    | Failed                                         // transport error, timeout, non-2xx status or parse error
    | NotHtml                                        // the Content-Type does not contain "text/html"
    | Page(blocks: seq<string>, links: seq<string>)  // element texts and resolved link targets, in document order

  datatype Web = Web(fetch: string -> Fetched, parse: string -> UrlParts)

  /** The length window a cleaned text must fall in to become a chunk. */
  predicate InWindow(text: string) {
    Config.MinChunkLength <= |text| <= Config.MaxChunkLength
  }

  /** What every chunk the crawler returns is: a `clean_text` result within the length window. */
  ghost predicate IsChunk(c: string) {
    IsClean(c) && InWindow(c)
  }

  /** The chunks one page yields: its cleaned element texts that fall in the window, in document order. */
  function PageChunks(blocks: seq<string>): (r: seq<string>)
    ensures |r| <= |blocks|
    ensures forall k :: 0 <= k < |r| ==> IsChunk(r[k])
  {
    if blocks == [] then []
    else
      var text := CleanText(blocks[|blocks| - 1]);
      PageChunks(blocks[..|blocks| - 1]) + (if InWindow(text) then [text] else [])
  }

  function ChunksOf(f: Fetched): seq<string> {
    if f.Page? then PageChunks(f.blocks) else []
  }

  function LinksOf(f: Fetched): seq<string> {
    if f.Page? then f.links else []
  }

  /** The chunks of the pages visited in `order`, page after page. */
  function ChunksOfPages(web: Web, order: seq<string>): (r: seq<string>)
    ensures forall k :: 0 <= k < |r| ==> IsChunk(r[k])
  {
    if order == [] then []
    else ChunksOfPages(web, order[..|order| - 1]) + ChunksOf(web.fetch(order[|order| - 1]))
  }

  /** `max_pages`, with `None` meaning the configured default. */
  function PageCap(maxPages: Option<int>): int {
    if maxPages.None? then Config.MaxPagesPerCrawl else maxPages.value
  }

  /** The seed itself, or a same-site http(s) URL: same `netloc` as the seed. */
  ghost predicate InScope(web: Web, seed: string, u: string) {
    && web.parse(u).netloc == web.parse(seed).netloc
    && (u == seed || web.parse(u).scheme in Config.AllowedSchemes)
  }

  /**
   * Every URL after the first was found as a link on a page visited
   * before it: links are followed only from pages that yielded chunks.
   */
  ghost predicate Discovered(web: Web, seed: string, order: seq<string>) {
    && (order != [] ==> order[0] == seed)
    && forall k :: 0 < k < |order| ==> LinkedFromEarlier(web, order, k)
  }

  /** The `k`-th visited URL is a link on a page visited before it. */
  ghost predicate LinkedFromEarlier(web: Web, order: seq<string>, k: nat)
    requires k < |order|
  {
    exists j :: 0 <= j < k && order[k] in LinksOf(web.fetch(order[j]))
  }

  /** The chunks of one more element are those before it plus its own, if it has one. */
  lemma PageChunksSnoc(blocks: seq<string>, i: nat)
    requires i < |blocks|
    ensures var text := CleanText(blocks[i]);
      PageChunks(blocks[..i + 1]) == PageChunks(blocks[..i]) + (if InWindow(text) then [text] else [])
  {
    assert blocks[..i + 1][..i] == blocks[..i];
  }

  /** The element loop of `crawl_website`: the chunks one page yields. */
  method ExtractChunks(blocks: seq<string>) returns (pageChunks: seq<string>)
    ensures pageChunks == PageChunks(blocks)
  {
    pageChunks := [];
    for i := 0 to |blocks|
      invariant pageChunks == PageChunks(blocks[..i])
    {
      PageChunksSnoc(blocks, i);
      var text := CleanText(blocks[i]);
      if Config.MinChunkLength <= |text| <= Config.MaxChunkLength {
        pageChunks := pageChunks + [text];
      }
    }
    assert blocks[..|blocks|] == blocks;
  }

  /** A link on the crawled site: the seed's `netloc` and an allowed scheme. */
  predicate SameSite(web: Web, domain: string, link: string) {
    web.parse(link).netloc == domain && web.parse(link).scheme in Config.AllowedSchemes
  }

  /** A link the crawler may follow: on the site and not yet visited. */
  predicate Followable(web: Web, domain: string, visited: set<string>, link: string) {
    SameSite(web, domain, link) && link !in visited
  }

  /**
   * The queue after the link loop of one page: each followable link that is
   * not queued yet is appended, in document order, so only its first
   * occurrence counts.
   */
  function Enqueue(web: Web, domain: string, visited: set<string>, queue: seq<string>, links: seq<string>)
    : (r: seq<string>)
    ensures queue <= r
    ensures Distinct(queue) ==> Distinct(r)
    ensures forall u :: u in r[|queue|..] ==> u in links && Followable(web, domain, visited, u)
    ensures forall u :: u in links && Followable(web, domain, visited, u) ==> u in r
    decreases |links|
  {
    if links == [] then queue
    else
      var front := links[..|links| - 1];
      var link := links[|links| - 1];
      var q := Enqueue(web, domain, visited, queue, front);
      assert links == front + [link];
      assert forall u :: u in q[|queue|..] ==> u in front;
      if Followable(web, domain, visited, link) && link !in q then
        assert (q + [link])[|queue|..] == q[|queue|..] + [link];
        q + [link]
      else q
  }

  /** The link loop of `crawl_website` (the `urljoin` already done by `fetch`). */
  method EnqueueLinks(web: Web, domain: string, visited: set<string>, queue: seq<string>, links: seq<string>)
    returns (queue': seq<string>)
    ensures queue' == Enqueue(web, domain, visited, queue, links)
  {
    queue' := queue;
    for k := 0 to |links|
      invariant queue' == Enqueue(web, domain, visited, queue, links[..k])
    {
      var link := links[k];
      var parsed := web.parse(link);
      assert links[..k + 1][..k] == links[..k];
      if parsed.netloc == domain && parsed.scheme in Config.AllowedSchemes && link !in visited && link !in queue' {
        queue' := queue' + [link];
      }
    }
    assert links[..|links|] == links;
  }

  /** `u` is a link on one of the pages visited so far. */
  ghost predicate Found(web: Web, order: seq<string>, u: string) {
    exists j :: 0 <= j < |order| && u in LinksOf(web.fetch(order[j]))
  }

  /**
   * The visited side of the loop invariant of `crawl_website`: the visited
   * pages in visit order, each in scope and each with chunks, and the chunks
   * gathered so far.
   */
  ghost predicate VisitedInv(web: Web, seed: string, cap: int, chunks: seq<string>, visited: set<string>,
                             order: seq<string>)
  {
    && Distinct(order) && visited == Elems(order)
    && (visited == {} || |visited| <= cap)
    && chunks == ChunksOfPages(web, order)
    && (forall u :: u in visited ==> InScope(web, seed, u) && ChunksOf(web.fetch(u)) != [])
    && Discovered(web, seed, order)
  }

  /**
   * The queue side of the loop invariant: distinct, unvisited, same-site
   * URLs, each the seed or a link found on a visited page.
   */
  ghost predicate QueueInv(web: Web, seed: string, visited: set<string>, order: seq<string>, queue: seq<string>) {
    && (order == [] ==> queue == [seed] || (queue == [] && ChunksOf(web.fetch(seed)) == []))
    && Distinct(queue)
    && (forall u :: u in queue ==> u !in visited && InScope(web, seed, u))
    && (forall u :: u in queue && u != seed ==> Found(web, order, u))
  }

  /** Dropping the head of the queue without visiting it keeps the queue invariant. */
  lemma SkipStep(web: Web, seed: string, visited: set<string>, order: seq<string>, queue: seq<string>)
    requires QueueInv(web, seed, visited, order, queue)
    requires queue != [] && ChunksOf(web.fetch(queue[0])) == []
    ensures QueueInv(web, seed, visited, order, queue[1..])
  {
    forall i, j | 0 <= i < j < |queue[1..]| ensures queue[1..][i] != queue[1..][j] {
      assert queue[1..][i] == queue[i + 1] && queue[1..][j] == queue[j + 1];
    }
  }

  /** Links found on the pages of `order` are still found once a page is added. */
  lemma FoundGrows(web: Web, order: seq<string>, current: string, u: string)
    requires Found(web, order, u)
    ensures Found(web, order + [current], u)
  {
    var j :| 0 <= j < |order| && u in LinksOf(web.fetch(order[j]));
    assert (order + [current])[j] == order[j];
  }

  /** A URL found on an earlier page extends the visit order as `Discovered` demands. */
  lemma DiscoveredAppend(web: Web, seed: string, order: seq<string>, current: string)
    requires Discovered(web, seed, order)
    requires order == [] ==> current == seed
    requires order != [] ==> Found(web, order, current)
    ensures Discovered(web, seed, order + [current])
  {
    var order' := order + [current];
    forall k | 0 < k < |order'|
      ensures LinkedFromEarlier(web, order', k)
    {
      if k < |order| {
        assert LinkedFromEarlier(web, order, k);
        var j :| 0 <= j < k && order[k] in LinksOf(web.fetch(order[j]));
        assert order'[j] == order[j] && order'[k] == order[k];
      } else {
        var j :| 0 <= j < |order| && current in LinksOf(web.fetch(order[j]));
        assert order'[j] == order[j];
      }
    }
  }

  /** Visiting a page that yields chunks keeps the visited invariant. */
  lemma VisitRecorded(web: Web, seed: string, cap: int, chunks: seq<string>, visited: set<string>,
                      order: seq<string>, current: string)
    requires VisitedInv(web, seed, cap, chunks, visited, order)
    requires |visited| < cap && current !in visited
    requires InScope(web, seed, current) && ChunksOf(web.fetch(current)) != []
    requires order == [] ==> current == seed
    requires order != [] ==> Found(web, order, current)
    ensures VisitedInv(web, seed, cap, chunks + ChunksOf(web.fetch(current)), visited + {current},
                       order + [current])
  {
    var order' := order + [current];
    assert order'[..|order'| - 1] == order;
    DistinctAppend(order, current);
    DiscoveredAppend(web, seed, order, current);
  }

  /** Replacing the head of the queue by the followable links of its page keeps the queue invariant. */
  lemma VisitEnqueued(web: Web, seed: string, visited: set<string>, order: seq<string>, queue: seq<string>,
                      queue': seq<string>)
    requires QueueInv(web, seed, visited, order, queue)
    requires queue != [] && queue[1..] <= queue' && Distinct(queue')
    requires forall u :: u in queue'[|queue| - 1..] ==>
      u in LinksOf(web.fetch(queue[0])) && Followable(web, web.parse(seed).netloc, visited + {queue[0]}, u)
    ensures QueueInv(web, seed, visited + {queue[0]}, order + [queue[0]], queue')
  {
    var current := queue[0];
    var order' := order + [current];
    forall u | u in queue'
      ensures u !in visited + {current} && InScope(web, seed, u)
      ensures u != seed ==> Found(web, order', u)
    {
      InPrefixOrRest(queue[1..], queue', u);
      if u in queue[1..] {
        assert u in queue && u != current;
        if u != seed { FoundGrows(web, order, current, u); }
      } else {
        assert queue'[|queue[1..]|..] == queue'[|queue| - 1..];
        assert Followable(web, web.parse(seed).netloc, visited + {current}, u);
        assert order'[|order|] == current;
      }
    }
  }

  /** The head of the queue is a page the crawl may visit next. */
  lemma HeadVisitable(web: Web, seed: string, visited: set<string>, order: seq<string>, queue: seq<string>)
    requires QueueInv(web, seed, visited, order, queue)
    requires visited == Elems(order) && (order != [] ==> order[0] == seed)
    requires queue != []
    ensures queue[0] !in visited && InScope(web, seed, queue[0])
    ensures order == [] ==> queue[0] == seed
    ensures order != [] ==> Found(web, order, queue[0])
  {
    assert queue[0] in queue;
    if order != [] {
      assert order[0] in order;
    }
  }

  /**
   * No on-site link of a visited page is lost: it has been visited, is
   * still queued, or was tried and yielded no chunk.
   */
  ghost predicate Closed(web: Web, domain: string, order: seq<string>, visited: set<string>, queue: seq<string>) {
    forall j, u :: 0 <= j < |order| && u in LinksOf(web.fetch(order[j])) && SameSite(web, domain, u) ==>
      u in visited || u in queue || ChunksOf(web.fetch(u)) == []
  }

  /** Visiting the head and queueing its followable links keeps every on-site link accounted for. */
  lemma ClosedVisit(web: Web, domain: string, order: seq<string>, visited: set<string>, queue: seq<string>,
                    queue': seq<string>)
    requires Closed(web, domain, order, visited, queue)
    requires queue != [] && queue[1..] <= queue'
    requires forall u :: u in LinksOf(web.fetch(queue[0])) && Followable(web, domain, visited + {queue[0]}, u) ==> u in queue'
    ensures Closed(web, domain, order + [queue[0]], visited + {queue[0]}, queue')
  {
    var current := queue[0];
    var order' := order + [current];
    forall j, u | 0 <= j < |order'| && u in LinksOf(web.fetch(order'[j])) && SameSite(web, domain, u)
      ensures u in visited + {current} || u in queue' || ChunksOf(web.fetch(u)) == []
    {
      if j < |order| {
        assert order'[j] == order[j];
        if u in queue && u != current {
          assert u in queue[1..] by {
            var i :| 0 <= i < |queue| && queue[i] == u;
            assert queue[1..][i - 1] == u;
          }
          assert queue'[..|queue[1..]|] == queue[1..];
        }
      }
    }
  }

  /** Dropping a head that yields no chunk keeps every on-site link accounted for. */
  lemma ClosedSkip(web: Web, domain: string, order: seq<string>, visited: set<string>, queue: seq<string>)
    requires Closed(web, domain, order, visited, queue)
    requires queue != [] && ChunksOf(web.fetch(queue[0])) == []
    ensures Closed(web, domain, order, visited, queue[1..])
  {
    forall j, u | 0 <= j < |order| && u in LinksOf(web.fetch(order[j])) && SameSite(web, domain, u)
      ensures u in visited || u in queue[1..] || ChunksOf(web.fetch(u)) == []
    {
      if u in queue && u != queue[0] {
        var i :| 0 <= i < |queue| && queue[i] == u;
        assert queue[1..][i - 1] == u;
      }
    }
  }

  /**
   * The visit order of the crawl loop, from a given state: while the queue
   * is not empty and fewer than `cap` pages are visited, take the head,
   * skip it when already visited or when it yields no chunk, otherwise visit
   * it and queue its followable links.
   */
  ghost function Run(web: Web, domain: string, cap: int, visited: set<string>, order: seq<string>,
                     queue: seq<string>): seq<string>
    decreases cap - |visited|, |queue|
  {
    if queue == [] || |visited| >= cap then order
    else
      var current := queue[0];
      if current in visited || ChunksOf(web.fetch(current)) == [] then
        Run(web, domain, cap, visited, order, queue[1..])
      else
        var visited' := visited + {current};
        Run(web, domain, cap, visited', order + [current],
            Enqueue(web, domain, visited', queue[1..], LinksOf(web.fetch(current))))
  }

  /** The visit order of `crawl_website(seed, cap)`: the loop run from the seed alone in the queue. */
  ghost function CrawlOrder(web: Web, seed: string, cap: int): seq<string> {
    Run(web, web.parse(seed).netloc, cap, {}, [], [seed])
  }

  /** A visited page's chunks are among the crawl's chunks, so a crawl that visits a page finds chunks. */
  lemma {:induction false} ChunksOfVisited(web: Web, order: seq<string>, u: string)
    requires u in order
    ensures |ChunksOf(web.fetch(u))| <= |ChunksOfPages(web, order)|
    ensures var c, p := ChunksOfPages(web, order), ChunksOf(web.fetch(u));
      exists k :: OccursAt(p, c, k)
  {
    var front := order[..|order| - 1];
    var p := ChunksOf(web.fetch(u));
    var cf, last := ChunksOfPages(web, front), ChunksOf(web.fetch(order[|order| - 1]));
    var k: int;
    if u == order[|order| - 1] {
      OccursAtEnd(cf, last);
      k := |cf|;
    } else {
      assert u in front by {
        assert order == front + [order[|order| - 1]];
      }
      ChunksOfVisited(web, front, u);
      var j :| OccursAt(p, cf, j);
      OccursInPrefix(p, cf, last, j);
      k := j;
    }
    assert OccursAt(p, cf + last, k);
    assert ChunksOfPages(web, order) == cf + last;
  }

  /** One visit of a page that yields chunks keeps both sides of the loop invariant. */
  lemma VisitStep(web: Web, seed: string, cap: int, chunks: seq<string>, visited: set<string>,
                  order: seq<string>, queue: seq<string>, queue': seq<string>)
    requires VisitedInv(web, seed, cap, chunks, visited, order)
    requires QueueInv(web, seed, visited, order, queue)
    requires queue != [] && |visited| < cap && ChunksOf(web.fetch(queue[0])) != []
    requires queue[1..] <= queue' && Distinct(queue')
    requires forall u :: u in queue'[|queue[1..]|..] ==>
      u in LinksOf(web.fetch(queue[0])) && Followable(web, web.parse(seed).netloc, visited + {queue[0]}, u)
    ensures VisitedInv(web, seed, cap, chunks + ChunksOf(web.fetch(queue[0])), visited + {queue[0]},
                       order + [queue[0]])
    ensures QueueInv(web, seed, visited + {queue[0]}, order + [queue[0]], queue')
  {
    var current := queue[0];
    HeadVisitable(web, seed, visited, order, queue);
    VisitRecorded(web, seed, cap, chunks, visited, order, current);
    assert queue'[|queue[1..]|..] == queue'[|queue| - 1..];
    VisitEnqueued(web, seed, visited, order, queue, queue');
  }

  /** When the loop stops, the invariant gives what `crawl_website` promises. */
  lemma CrawlDone(seed: string, seedHasChunks: bool, cap: int, visited: set<string>, order: seq<string>,
                  queue: seq<string>)
    requires visited == Elems(order)
    requires visited == {} || |visited| <= cap
    requires order != [] ==> order[0] == seed
    requires order == [] ==> queue == [seed] || (queue == [] && !seedHasChunks)
    requires queue == [] || |visited| >= cap
    ensures cap <= 0 ==> visited == {}
    ensures cap >= 0 ==> |visited| <= cap
    ensures cap > 0 && seedHasChunks ==> seed in visited
  {
    if order == [] {
      assert visited == {};
    } else {
      assert order[0] in visited;
    }
  }

  /** The loop invariant at the exit of the loop gives everything `crawl_website` promises. */
  lemma CrawlFinish(web: Web, seed: string, cap: int, chunks: seq<string>, visited: set<string>,
                    order: seq<string>, queue: seq<string>)
    requires VisitedInv(web, seed, cap, chunks, visited, order)
    requires QueueInv(web, seed, visited, order, queue)
    requires queue == [] || |visited| >= cap
    ensures Distinct(order) && visited == Elems(order)
    ensures cap <= 0 ==> visited == {}
    ensures cap >= 0 ==> |visited| <= cap
    ensures forall u :: u in visited ==> InScope(web, seed, u) && ChunksOf(web.fetch(u)) != []
    ensures Discovered(web, seed, order)
    ensures cap > 0 && ChunksOf(web.fetch(seed)) != [] ==> seed in visited
    ensures chunks == ChunksOfPages(web, order)
  {
    CrawlDone(seed, ChunksOf(web.fetch(seed)) != [], cap, visited, order, queue);
  }

  /**
   * One round of the crawl loop: take the head of the queue; when its page
   * yields chunks, record the visit and queue its followable links,
   * otherwise drop it.
   */
  method VisitNext(web: Web, seed: string, cap: int, chunks: seq<string>, visited: set<string>,
                   ghost order: seq<string>, queue: seq<string>)
    returns (chunks': seq<string>, visited': set<string>, ghost order': seq<string>, queue': seq<string>)
    requires VisitedInv(web, seed, cap, chunks, visited, order)
    requires QueueInv(web, seed, visited, order, queue)
    requires Closed(web, web.parse(seed).netloc, order, visited, queue)
    requires queue != [] && |visited| < cap
    ensures VisitedInv(web, seed, cap, chunks', visited', order')
    ensures QueueInv(web, seed, visited', order', queue')
    ensures Closed(web, web.parse(seed).netloc, order', visited', queue')
    ensures ChunksOf(web.fetch(queue[0])) != [] ==>
      && chunks' == chunks + ChunksOf(web.fetch(queue[0])) && visited' == visited + {queue[0]}
      && order' == order + [queue[0]] && |visited'| == |visited| + 1
      && queue' == Enqueue(web, web.parse(seed).netloc, visited', queue[1..], LinksOf(web.fetch(queue[0])))
    ensures ChunksOf(web.fetch(queue[0])) == [] ==>
      chunks' == chunks && visited' == visited && order' == order && queue' == queue[1..]
  {
    var current := queue[0];
    // The source skips a URL already in `visited` here; the queue never holds one.
    assert current in queue && current !in visited;
    var fetched := web.fetch(current);
    var pageChunks := [];
    if fetched.Page? {
      pageChunks := ExtractChunks(fetched.blocks);
    }
    if pageChunks != [] {
      queue' := EnqueueLinks(web, web.parse(seed).netloc, visited + {current}, queue[1..], fetched.links);
      VisitStep(web, seed, cap, chunks, visited, order, queue, queue');
      ClosedVisit(web, web.parse(seed).netloc, order, visited, queue, queue');
      chunks' := chunks + pageChunks;
      visited' := visited + {current};
      order' := order + [current];
    } else {
      SkipStep(web, seed, visited, order, queue);
      ClosedSkip(web, web.parse(seed).netloc, order, visited, queue);
      chunks', visited', order', queue' := chunks, visited, order, queue[1..];
    }
  }

  /**
   * `crawl_website`: returns the chunks found and the set of visited URLs;
   * `order` is the visit order.
   */
  method Crawl(web: Web, seed: string, maxPages: Option<int>)
    returns (chunks: seq<string>, visited: set<string>, ghost order: seq<string>)
    ensures order == CrawlOrder(web, seed, PageCap(maxPages))
    ensures Distinct(order) && visited == Elems(order)
    ensures PageCap(maxPages) <= 0 ==> visited == {}
    ensures PageCap(maxPages) >= 0 ==> |visited| <= PageCap(maxPages)
    ensures forall u :: u in visited ==> InScope(web, seed, u) && ChunksOf(web.fetch(u)) != []
    ensures Discovered(web, seed, order)
    ensures PageCap(maxPages) > 0 && ChunksOf(web.fetch(seed)) != [] ==> seed in visited && chunks != []
    ensures |visited| < PageCap(maxPages) ==>
      forall j, u :: 0 <= j < |order| && u in LinksOf(web.fetch(order[j])) && SameSite(web, web.parse(seed).netloc, u)
        ==> u in visited || ChunksOf(web.fetch(u)) == []
    ensures chunks == ChunksOfPages(web, order)
  {
    var cap := PageCap(maxPages);
    ghost var domain := web.parse(seed).netloc;
    visited := {};
    var queue := [seed];
    chunks := [];
    order := [];
    while queue != [] && |visited| < cap
      invariant VisitedInv(web, seed, cap, chunks, visited, order)
      invariant QueueInv(web, seed, visited, order, queue)
      invariant Closed(web, domain, order, visited, queue)
      invariant Run(web, domain, cap, visited, order, queue) == CrawlOrder(web, seed, cap)
      decreases cap - |visited|, |queue|
    {
      assert queue[0] in queue;
      chunks, visited, order, queue := VisitNext(web, seed, cap, chunks, visited, order, queue);
    }
    CrawlFinish(web, seed, cap, chunks, visited, order, queue);
    if cap > 0 && ChunksOf(web.fetch(seed)) != [] {
      ChunksOfVisited(web, order, seed);
    }
  }
}
