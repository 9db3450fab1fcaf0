# go_crawl, modelled in Dafny

go_crawl crawls one website from a seed URL. For every page it reaches it
records four ordered collections:

- its links to the same host;
- its images;
- its style sheets;
- its script files.

It follows only the links, depth first, and never visits the same link text
twice. Keys are link texts as stored, with no normalisation, so one page
reachable under two spellings is fetched once per spelling. This
project models the two parts of the program that do that work, and proves
what they compute.

**The page record (WebPage.go).** `WebPages.WebPage` is a class with the
page's URL and four `seq<string>` fields. Each per-tag extractor
(`parseATag`, `parseImgTag`, `parseLinkTag`, `parseScriptTag`) is a method
whose loop appends to its own field. Each such method is proved equal to the
old field followed by a function of the attribute list:

- `Extract.AnchorLinks` for anchors;
- `Extract.SourceRefs` for images and scripts;
- `Extract.StyleSheetRefs` for link tags.

`parseTags` is a recursive method with a loop over the children. It is
proved to add `Extract.TreeAssets`, which in turn is proved equal to the
pre-order concatenation of the nodes' contributions. `toString` is proved to
return `Report.Render`, and lemmas about `Render` give the layout.

**The crawl (go_crawl.go).** `Crawl.RecurseLinks` is the recursion of
`recurseLinks`: process the page, then loop over its links, inserting and
exploring each new one. `Crawl.CrawlSite` is the seed setup of `main`. Both
are proved to follow `Traversal.Explore`, a value-level definition of the
depth-first pre-order traversal. Lemmas about `Explore` prove the following:

- every key is processed exactly once;
- the registry ends closed under links;
- no key is invented;
- a page whose fetch fails is a leaf;
- the two mutually linking pages of the recorded test are each visited once.

**Outside world.** URL parsing, resolution and printing (Go's `net/url`)
are the arrow functions of `Urls.UrlLib`. Only the host of a parsed URL is
visible. The HTTP fetch followed by `html.Parse` is one oracle,
`WebPages.Fetcher`, which maps a URL text to an optional document tree.

**The one assumption about `net/url`.** `Urls.ResolvedReparses` assumes
that the text of a resolved reference always parses again. It is stated as
a precondition of the crawl. It is what shows that `newWebPage` never
returns nil inside `recurseLinks`.

**Termination.** The crawl is given a ghost finite set of link strings,
`universe`, that is closed under the links of its pages. Recursion decreases
the number of strings of `universe` not yet in the registry. This
precondition excludes exactly the sites on which the Go code does not
terminate: `recurseLinks` (go_crawl.go:34-43) has no bound of its own. A site
that keeps producing new link texts (say `?n=1`, `?n=2`, …) makes it recurse
until the stack runs out.

**Repeated attributes.** Every attribute keyed `href` (anchors) or `src`
(images, scripts) is processed, not only the first. Each one whose value
parses appends its entry, except an anchor on another host. The first value
that fails to parse ends the scan. `parseLinkTag` appends again after every
later attribute once its condition holds (`Extract.ScanRefsCount`,
`Extract.ScanRefsAbort`, `Extract.StyleSheetRepeats`).

## Model

| member | source | states |
|---|---|---|
| WebPages.NewWebPage | WebPage.go:32-48 | The result is nil exactly when the text does not parse. Otherwise it is a fresh page that holds the parsed URL and four empty collections. |
| WebPages.WebPage.constructor | WebPage.go:39-45 | A new page holds the given URL and four empty collections. |
| WebPages.WebPage.ProcessPage | WebPage.go:51-83 | The collections become the old ones followed by what the fetched document yields. A failed fetch leaves them as they were. |
| WebPages.WebPage.ParseTags | WebPage.go:86-105 | The collections become the old ones followed by `TreeAssets` of the node: the node's own contribution, then each child subtree in sibling order. |
| WebPages.WebPage.ParseATag | WebPage.go:108-127 | Only `links` changes, and only by appending `AnchorLinks` of the attributes at the back. |
| WebPages.WebPage.ParseImgTag | WebPage.go:130-148 | Only `images` changes, and only by appending `SourceRefs` of the attributes at the back. |
| WebPages.WebPage.ParseLinkTag | WebPage.go:151-179 | Only `styleSheets` changes, and only by appending `StyleSheetRefs`. The loop's two locals are tied to the last href so far and to whether a rel=stylesheet has been seen so far. |
| WebPages.WebPage.ParseScriptTag | WebPage.go:182-200 | Only `scriptFiles` changes, and only by appending `SourceRefs` of the attributes at the back. |
| WebPages.WebPage.ToString | WebPage.go:203-229 | The text is `Render` of the page's URL text and its four collections. |
| WebPages.FormatSection | WebPage.go:208-211 | One section's loop builds `Section(name, entries)`: the header with the count, then one indented line per entry. |
| Extract.ScanRefsAppend | WebPage.go:109-126 | When no key attribute of the first list fails to parse, scanning two lists in a row gives the first list's entries followed by the second's. |
| Extract.ScanRefsAbort | WebPage.go:111-115 | An attribute whose value fails to parse ends the scan: the later attributes add nothing, and the earlier entries stay. |
| Extract.ScanRefsCount | WebPage.go:131-146 | A scan adds at most one entry per attribute with exactly that key. For images and scripts it adds exactly one per such attribute when all of them parse, so with no `src` nothing is added. |
| Extract.ScanRefsEntries | WebPage.go:117-124 | Every entry comes from one attribute of the list with that key whose value parses: it is that value's reference resolved against the page URL when it has no host, or the value verbatim when its host is allowed (any host for images and scripts, the page's host for anchors). |
| Extract.EntryReparse | WebPage.go:111-124 | Under the library assumption, an entry stored for an attribute parses again. |
| Extract.AnchorOffHostDropped | WebPage.go:121-124 | Anchors whose hrefs all carry a host other than the page's add no link. |
| Extract.ScanRefsReparse | WebPage.go:117-124 | Under the library assumption, every stored entry parses again. |
| Extract.HasStyleSheetRelPrefix | WebPage.go:158-161 | Once rel=stylesheet has been seen in a prefix, it has been seen in the whole list. |
| Extract.LastHrefNone | WebPage.go:153-157 | With no href attribute, in any letter case, the remembered href stays empty. |
| Extract.StyleSheetNeedsRel | WebPage.go:158-163 | Without a rel=stylesheet attribute, parseLinkTag adds nothing. |
| Extract.StyleSheetNeedsHref | WebPage.go:156-163 | Without an href attribute, parseLinkTag adds nothing. |
| Extract.StyleSheetCount | WebPage.go:154-178 | parseLinkTag adds at most one entry per attribute position at which its condition holds. It adds exactly one per such position when every remembered href parses. |
| Extract.ReadyFromAbort | WebPage.go:163-168 | When the remembered href fails to parse at a position where the condition holds, parseLinkTag stops there: the result is what the earlier attributes give, whatever follows. |
| Extract.BadHrefThenStyleSheet | WebPage.go:154-168 | For `[href, rel=stylesheet]` whose href does not parse, the link tag adds nothing. |
| Extract.HrefThenStyleSheet | WebPage.go:154-178 | For `[href, rel=stylesheet]` (keys and value in any case) the link tag adds exactly one entry, stored by the host rule. |
| Extract.StyleSheetRepeats | WebPage.go:163-177 | For `[rel=stylesheet, href, other]` the same entry is added twice, because the condition is checked again after every attribute. |
| Extract.TreeAssetsPreOrder | WebPage.go:86-105 | What the walk collects equals the concatenation, in pre-order, of what each node contributes. |
| Extract.ForestAssetsPreOrder | WebPage.go:102-104 | The children's subtrees, in sibling order, contribute the pre-order concatenation of their nodes. |
| Extract.SumNodesAppend | WebPage.go:102-104 | The contributions of two node lists in a row are the first list's followed by the second's. |
| Extract.TreeLinks | WebPage.go:117-124 | Every link a tree yields comes from an `a` element of that tree (in its pre-order node list) and from one of its parsing `href` attributes: the href resolved against the page URL when it has no host, or the href verbatim when its host is the page's. |
| Extract.TreeLinksReparse | WebPage.go:117-124 | Under the library assumption, every link a tree yields parses again. |
| Report.DecimalRoundTrip | WebPage.go:208 | The `%d` count in a header is a non-empty run of digits that reads back as the count, with no leading zero. |
| Report.SectionCount | WebPage.go:208-211 | A section has exactly one line break for its header and one per entry, when no entry or name contains one. |
| Report.RenderLineCount | WebPage.go:203-229 | The report has 5 lines plus one per entry of the four collections: the URL line, four headers and the entries. |
| Traversal.ExploreOnce | go_crawl.go:30-45 | Visiting a key lists that key first. Every other listed key was not yet in the registry. No key is listed twice, and the registry gains exactly the listed keys. |
| Traversal.ExploreLinksOnce | go_crawl.go:34-44 | The loop over a page's links lists only keys that were new, none of them twice, and the registry gains exactly those. |
| Traversal.ExploreLinksSkip | go_crawl.go:38 | A link that is already a key is skipped. |
| Traversal.ExploreLinksDescend | go_crawl.go:38-43 | A new link is inserted and explored completely before the next link is looked at. |
| Traversal.ExploreClosed | go_crawl.go:34-43 | Every link of every page a visit processes ends up a key of the registry. |
| Traversal.ExploreDiscovers | go_crawl.go:35-41 | Every key a visit adds is a link of a page that the visit processed. |
| Traversal.FailedFetchIsLeaf | go_crawl.go:32-34 | A page whose fetch fails keeps empty collections, and its visit processes only that page. |
| Traversal.CrawlFromSeed | go_crawl.go:13-21 | From the seed: the seed is processed first, and no key is processed twice. The registry is exactly the processed keys. It is closed under links, and every key but the seed is a link of a processed page. |
| Traversal.MutualLinksVisitedOnce | go_crawl_test.go:369-417 | For the recorded site (a seed linking to 1.html, 2.html and a missing page, with 1.html and 2.html linking to each other), the pages are visited once each, in the order seed, 1.html, 2.html, missing. |
| Traversal.PendingDescend | go_crawl.go:38-43 | One step of the loop for a new link keeps what is left of the traversal equal to the exploration of the remaining links. |
| Crawl.RegistryInsert | go_crawl.go:40-41 | Inserting a new page under a key that is absent keeps the registry invariant and shrinks the part of the universe left to visit. |
| Crawl.RecurseLinks | go_crawl.go:30-45 | The keys processed are those `Explore` lists, in its order. The registry ends with the keys `Explore` reaches. No earlier entry is changed or removed, and every processed page holds what its fetch yields. |
| Crawl.VisitNew | go_crawl.go:38-43 | A link that is not yet a key gets a new page, is inserted, and is explored exactly as `Explore` says. |
| Crawl.CrawlSite | go_crawl.go:13-21 | The seed's page is inserted, then crawled. The seed is processed first, and every key exactly once. The registry is exactly the processed keys, and every page holds what its fetch yields. Every link of every page is a key, and every key but the seed is a link of some page. |

## Left out

- `processPage`'s HTTP GET, the status-200 check and `html.Parse` (WebPage.go:57-79) are one oracle from a URL text to an optional document. A failed request, a status other than 200 or a parse error are all `None`.
- Go's `net/url` (`url.Parse`, `ResolveReference`, `URL.String`) is kept abstract, as the functions of `Urls.UrlLib`. Only the host of a parsed URL is visible, so no concrete URL text is computed. The crawl assumes `Urls.ResolvedReparses`.
- The diagnostic output to stderr and stdout is not modelled, because it does not affect any result.
- `parseArgs` and its flag handling (go_crawl.go:47-53) are not modelled; the seed URL is a parameter.
- The report-printing loop of `main` (go_crawl.go:23-26) is not modelled, because Go iterates maps in an unspecified order. Each page's text is `WebPages.WebPage.ToString`.
- `strings.ToLower` is modelled on ASCII letters only. That is the same for every comparison the code makes. The only non-ASCII characters that Go lowers to an ASCII letter are U+0130 (to `i`) and U+212A (to `k`), and none of the words compared ("href", "rel", "stylesheet") contains `i` or `k`.
- The `Namespace` field of an HTML attribute is not modelled; the code never reads it.
- The node tree is a value (`Html.Node` with a sequence of children). The `FirstChild`/`NextSibling` pointers are not modelled.
- `parseTags` is modelled only on element types and names. The other node kinds contribute nothing, as in the code.
- The `container/list` fields are sequences. `PushBack` is an append, and iterating a list is an index loop.
- Methods take the page by value receiver in Go. Their lists are shared pointers, so the updates are visible to the caller; here they update the page object.
- Crawl.RecurseLinks: the Go map `allPages` is updated in place and shared with the caller. Here it is passed in and the updated map is returned. No other code holds the map, so the two are the same.
- Crawl.CrawlSite: when the seed does not parse, `main` hands a nil page to `recurseLinks` and crashes. This is a precondition here.
- Crawl.VisitNew is the loop body of `recurseLinks` for a new link, written as a method of its own. It is not a separate function in the source.
- WebPages.FormatSection is one of the four loops of `toString`, written once. It is not a separate function in the source.
- Crawl.RecurseLinks: an entry whose value is nil (`allPages[url] == nil`) is not modelled. It never happens once every link parses.
