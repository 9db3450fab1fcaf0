/** The crawl driver of go_crawl.go: the registry of pages keyed by URL
    text (allPages), the seed setup of main and the depth-first recursion
    of recurseLinks. The registry is a Go map that recurseLinks updates in
    place; here it is handed to each call and handed back updated. */
module Crawl {
  import opened Urls
  import opened Extract
  import opened WebPages
  import opened Traversal

  /** The registry's keys are in the universe, no page is held under two
      keys, and each page's URL is what its key parses to. */
  ghost predicate Keyed(site: Site, universe: set<string>, registry: map<string, WebPage>)
  {
    && registry.Keys <= universe
    && (forall k1, k2 :: k1 in registry && k2 in registry && k1 != k2 ==> registry[k1] != registry[k2])
    && (forall k :: k in registry ==> site.lib.parse(k) == Some(registry[k].url))
  }

  /** Every processed key has a page, and that page holds what processing
      its key yields. */
  ghost predicate Filled(site: Site, registry: map<string, WebPage>, processed: seq<string>)
    reads registry.Values
  {
    forall k :: k in processed ==> k in registry && registry[k].Collected() == site.PageAssets(k)
  }

  lemma KeyedInsert(site: Site, universe: set<string>, registry: map<string, WebPage>, key: string, page: WebPage)
    requires Keyed(site, universe, registry)
    requires key !in registry && key in universe && page !in registry.Values
    requires site.lib.parse(key) == Some(page.url)
    ensures Keyed(site, universe, registry[key := page])
  {
  }

  lemma FilledInsert(site: Site, registry: map<string, WebPage>, processed: seq<string>, key: string, page: WebPage)
    requires Filled(site, registry, processed) && key !in registry
    ensures Filled(site, registry[key := page], processed)
  {
  }

  /** What holds of the registry between steps of the crawl: the URL
      library reparses resolved references, the universe is closed under
      links, the registry is well keyed, and every key processed so far
      holds its page's collections. */
  ghost predicate Registry(site: Site, universe: set<string>, allPages: map<string, WebPage>, processed: seq<string>)
    reads allPages.Values
  {
    && ResolvedReparses(site.lib)
    && Closed(site, universe)
    && Keyed(site, universe, allPages)
    && Filled(site, allPages, processed)
  }

  /** Inserting a new page for a key of the universe that is not yet in
      the registry keeps the registry invariant and leaves fewer keys of
      the universe outside the registry. */
  lemma RegistryInsert(site: Site, universe: set<string>, allPages: map<string, WebPage>, processed: seq<string>,
                       key: string, page: WebPage)
    requires Registry(site, universe, allPages, processed)
    requires key !in allPages && key in universe && page !in allPages.Values
    requires site.lib.parse(key) == Some(page.url)
    ensures Registry(site, universe, allPages[key := page], processed)
    ensures allPages[key := page].Keys == allPages.Keys + {key}
    ensures |universe - allPages[key := page].Keys| < |universe - allPages.Keys|
  {
    KeyedInsert(site, universe, allPages, key, page);
    FilledInsert(site, allPages, processed, key, page);
    Remaining(universe, allPages.Keys, allPages.Keys, key);
    assert allPages[key := page].Keys == allPages.Keys + {key};
  }

  /** recurseLinks: process the page, then for each of its links in order,
      a key not yet in the registry gets a new page, is inserted and is
      explored before the next link is looked at. The keys it processes,
      in order, and the keys the registry ends with are those of Explore. */
  method RecurseLinks(site: Site, ghost universe: set<string>, page: WebPage, ghost key: string,
                      allPages: map<string, WebPage>, ghost processed: seq<string>)
    returns (pages: map<string, WebPage>, ghost order: seq<string>)
    requires Registry(site, universe, allPages, processed)
    requires key in allPages && allPages[key] == page && page.Collected() == Empty
    modifies page
    ensures Registry(site, universe, pages, processed + order)
    ensures forall k :: k in allPages ==> k in pages && pages[k] == allPages[k]
    ensures order == Explore(site, universe, allPages.Keys, key).order
    ensures pages.Keys == Explore(site, universe, allPages.Keys, key).seen
    decreases |universe - allPages.Keys|, 1
  {
    page.ProcessPage(site.lib, site.fetch);
    PlusEmpty(FetchedAssets(site.lib, site.fetch, page.url));
    pages := allPages;
    order := [key];
    ghost var done: seq<string> := [];
    ghost var links := site.Links(key);
    assert page.links == links;
    TreeLinksReparseAll(site, key);
    PendingStart(site, universe, allPages.Keys, links);
    for i := 0 to |page.links|
      invariant Registry(site, universe, pages, processed + order)
      invariant page.links == links
      invariant allPages.Keys <= pages.Keys
      invariant forall k :: k in allPages ==> k in pages && pages[k] == allPages[k]
      invariant order == [key] + done
      invariant Pending(site, universe, allPages.Keys, links, i, done, pages.Keys)
    {
      var url := page.links[i];
      if url !in pages {
        PendingDescend(site, universe, allPages.Keys, links, i, done, pages.Keys);
        Remaining(universe, allPages.Keys, pages.Keys, url);
        ghost var sub;
        pages, sub := VisitNew(site, universe, url, pages, processed + order);
        AppendAssoc(processed, order, sub);
        AppendAssoc([key], done, sub);
        order := order + sub;
        done := done + sub;
      } else {
        PendingSkip(site, universe, allPages.Keys, links, i, done, pages.Keys);
      }
    }
    PendingEnd(site, universe, allPages.Keys, links, done, pages.Keys);
  }

  /** The branch of recurseLinks' loop for a link that is not yet a key:
      a new page for it is inserted and explored at once. */
  method VisitNew(site: Site, ghost universe: set<string>, url: string,
                  allPages: map<string, WebPage>, ghost processed: seq<string>)
    returns (pages: map<string, WebPage>, ghost order: seq<string>)
    requires Registry(site, universe, allPages, processed)
    requires url !in allPages && url in universe && site.lib.parse(url).Some?
    ensures Registry(site, universe, pages, processed + order)
    ensures forall k :: k in allPages ==> k in pages && pages[k] == allPages[k]
    ensures order == Explore(site, universe, allPages.Keys + {url}, url).order
    ensures pages.Keys == Explore(site, universe, allPages.Keys + {url}, url).seen
    decreases |universe - allPages.Keys|, 0
  {
    var newPage := NewWebPage(site.lib, url);
    RegistryInsert(site, universe, allPages, processed, url, newPage);
    pages := allPages[url := newPage];
    pages, order := RecurseLinks(site, universe, newPage, url, pages, processed);
  }

  lemma AppendAssoc(a: seq<string>, b: seq<string>, c: seq<string>)
    ensures (a + b) + c == a + (b + c)
  {
  }

  /** Every link of a processed page parses again, so newWebPage never
      returns nil inside recurseLinks. */
  lemma TreeLinksReparseAll(site: Site, key: string)
    requires ResolvedReparses(site.lib)
    ensures forall l :: l in site.Links(key) ==> site.lib.parse(l).Some?
  {
    match site.lib.parse(key)
    case None =>
    case Some(url) =>
      match site.fetch(site.lib.show(url))
      case None =>
      case Some(doc) => TreeLinksReparse(site.lib, url, doc);
  }

  /** main, lines 13-21: seed the registry and crawl. Afterwards the seed was
      processed first, every registry key was processed exactly once, in
      depth-first pre-order, every page holds what its fetch yields, every
      link of every page is a key, and every key but the seed is a link of
      some page. */
  method CrawlSite(site: Site, ghost universe: set<string>, startUrl: string)
    returns (allPages: map<string, WebPage>, ghost order: seq<string>)
    requires ResolvedReparses(site.lib) && Closed(site, universe) && startUrl in universe
    requires site.lib.parse(startUrl).Some?
    ensures Registry(site, universe, allPages, order)
    ensures order == Explore(site, universe, {startUrl}, startUrl).order
    ensures allPages.Keys == Explore(site, universe, {startUrl}, startUrl).seen
    ensures order[0] == startUrl && NoDup(order)
    ensures allPages.Keys == Elems(order)
    ensures forall k :: k in allPages ==> allPages[k].Collected() == site.PageAssets(k)
    ensures forall k, l :: k in allPages && l in allPages[k].links ==> l in allPages
    ensures forall k :: k in allPages && k != startUrl ==> Discovered(site, order, k)
  {
    var startPage := NewWebPage(site.lib, startUrl);
    allPages := map[startUrl := startPage];
    assert allPages.Keys == {startUrl};
    allPages, order := RecurseLinks(site, universe, startPage, startUrl, allPages, []);
    CrawlFromSeed(site, universe, startUrl);
    ghost var v := Explore(site, universe, {startUrl}, startUrl);
    assert [] + order == order;
    forall k, l | k in allPages && l in allPages[k].links
      ensures l in allPages
    {
      assert k in v.order;
      assert allPages[k].links == site.Links(k);
    }
  }
}
