/** The WebPage record of WebPage.go and the operations that fill it. */
module WebPages {
  import opened Urls
  import opened Html
  import opened Extract
  import opened Report

  /** http.Get of a URL text followed by html.Parse of the body: None when
      the request fails, the status is not 200 or the body does not parse. */
  type Fetcher = string -> Option<Node>

  /** What processPage adds to a page whose URL is `url`: nothing when the
      fetch fails, otherwise what the walk of the document tree finds. */
  function FetchedAssets(lib: UrlLib, fetch: Fetcher, url: Url): Assets
  {
    match fetch(lib.show(url))
    case None => Empty
    case Some(doc) => TreeAssets(lib, url, doc)
  }

  class WebPage {
    /** The URL of the page, fixed at construction. */
    const url: Url
    /** Links on the page to the same host. */
    var links: seq<string>
    var images: seq<string>
    var styleSheets: seq<string>
    var scriptFiles: seq<string>

    /** The four collections as one value. */
    function Collected(): Assets
      reads this
    {
      Assets(links, images, styleSheets, scriptFiles)
    }

    constructor (url: Url)
      ensures this.url == url && Collected() == Empty
    {
      this.url := url;
      links, images, styleSheets, scriptFiles := [], [], [], [];
    }

    /** processPage: fetch, then walk the document. A failed fetch leaves
        every collection as it was. */
    method ProcessPage(lib: UrlLib, fetch: Fetcher)
      modifies this
      ensures Collected() == old(Collected()).Plus(FetchedAssets(lib, fetch, url))
    {
      var doc := fetch(lib.show(url));
      if doc.None? {
        PlusEmpty(Collected());
        return;
      }
      ParseTags(lib, doc.value);
    }

    /** parseTags: dispatch this node if it is an element named a, img,
        link or script, then recurse into the children in sibling order. */
    method ParseTags(lib: UrlLib, node: Node)
      modifies this
      ensures Collected() == old(Collected()).Plus(TreeAssets(lib, url, node))
      decreases node
    {
      if node.kind == ElementNode {
        if node.data == "a" {
          ParseATag(lib, node);
        } else if node.data == "img" {
          ParseImgTag(lib, node);
        } else if node.data == "link" {
          ParseLinkTag(lib, node);
        } else if node.data == "script" {
          ParseScriptTag(lib, node);
        }
      }
      assert Collected() == old(Collected()).Plus(NodeAssets(lib, url, node));
      PlusAssoc(old(Collected()), NodeAssets(lib, url, node), ForestAssets(lib, url, node.children));
      assert node.children[0..] == node.children;
      for j := 0 to |node.children|
        invariant old(Collected()).Plus(TreeAssets(lib, url, node))
               == Collected().Plus(ForestAssets(lib, url, node.children[j..]))
      {
        ghost var before := Collected();
        var child := node.children[j];
        assert node.children[j..][1..] == node.children[j + 1..];
        ParseTags(lib, child);
        PlusAssoc(before, TreeAssets(lib, url, child), ForestAssets(lib, url, node.children[j + 1..]));
      }
      PlusEmpty(Collected());
    }

    /** parseATag: every attribute keyed exactly "href", in order. A
        host-less reference is stored resolved, one on the page's host is
        stored verbatim, any other is skipped; an unparseable value ends
        the scan. */
    method ParseATag(lib: UrlLib, node: Node)
      modifies this`links
      ensures links == old(links) + AnchorLinks(lib, url, node.attrs)
    {
      ghost var all := node.attrs;
      for i := 0 to |node.attrs|
        invariant old(links) + ScanRefs(lib, url, all, "href", SameHostOnly)
               == links + ScanRefs(lib, url, all[i..], "href", SameHostOnly)
      {
        assert all[i..][0] == all[i] && all[i..][1..] == all[i + 1..];
        if node.attrs[i].key == "href" {
          var href := lib.parse(node.attrs[i].val);
          if href.None? {
            return;
          }
          if href.value.host == "" {
            var resolvedHref := lib.resolve(url, href.value);
            links := links + [resolvedHref];
          } else if href.value.host == url.host {
            links := links + [node.attrs[i].val];
          }
        }
      }
    }

    /** parseImgTag: every attribute keyed exactly "src", in order; a
        host-less reference is stored resolved, any other verbatim; an
        unparseable value ends the scan. */
    method ParseImgTag(lib: UrlLib, node: Node)
      modifies this`images
      ensures images == old(images) + SourceRefs(lib, url, node.attrs)
    {
      ghost var all := node.attrs;
      for i := 0 to |node.attrs|
        invariant old(images) + ScanRefs(lib, url, all, "src", AnyHost)
               == images + ScanRefs(lib, url, all[i..], "src", AnyHost)
      {
        assert all[i..][0] == all[i] && all[i..][1..] == all[i + 1..];
        if node.attrs[i].key == "src" {
          var href := lib.parse(node.attrs[i].val);
          if href.None? {
            return;
          }
          if href.value.host == "" {
            var resolvedHref := lib.resolve(url, href.value);
            images := images + [resolvedHref];
          } else {
            images := images + [node.attrs[i].val];
          }
        }
      }
    }

    /** parseLinkTag: remembers the most recent href (key compared
        case-insensitively) and whether a rel=stylesheet has been seen, and
        after every attribute appends the remembered href when both hold. */
    method ParseLinkTag(lib: UrlLib, node: Node)
      modifies this`styleSheets
      ensures styleSheets == old(styleSheets) + StyleSheetRefs(lib, url, node.attrs)
    {
      ghost var all := node.attrs;
      var relOk := false;
      var src := "";
      assert all[..0] == [];
      for i := 0 to |node.attrs|
        invariant relOk == HasStyleSheetRel(all[..i])
        invariant src == LastHref(all[..i])
        invariant old(styleSheets) + ReadyFrom(lib, url, all, 0)
               == styleSheets + ReadyFrom(lib, url, all, i)
      {
        assert all[..i + 1][..i] == all[..i];
        if Lower(node.attrs[i].key) == "href" {
          src := node.attrs[i].val;
        } else if Lower(node.attrs[i].key) == "rel" && Lower(node.attrs[i].val) == "stylesheet" {
          relOk := true;
        }
        assert relOk == HasStyleSheetRel(all[..i + 1]);
        assert src == LastHref(all[..i + 1]);
        if relOk && src != "" {
          var href := lib.parse(src);
          if href.None? {
            return;
          }
          if href.value.host == "" {
            var resolvedHref := lib.resolve(url, href.value);
            styleSheets := styleSheets + [resolvedHref];
          } else {
            styleSheets := styleSheets + [src];
          }
        }
      }
    }

    /** parseScriptTag: as parseImgTag, into scriptFiles. */
    method ParseScriptTag(lib: UrlLib, node: Node)
      modifies this`scriptFiles
      ensures scriptFiles == old(scriptFiles) + SourceRefs(lib, url, node.attrs)
    {
      ghost var all := node.attrs;
      for i := 0 to |node.attrs|
        invariant old(scriptFiles) + ScanRefs(lib, url, all, "src", AnyHost)
               == scriptFiles + ScanRefs(lib, url, all[i..], "src", AnyHost)
      {
        assert all[i..][0] == all[i] && all[i..][1..] == all[i + 1..];
        if node.attrs[i].key == "src" {
          var href := lib.parse(node.attrs[i].val);
          if href.None? {
            return;
          }
          if href.value.host == "" {
            var resolvedHref := lib.resolve(url, href.value);
            scriptFiles := scriptFiles + [resolvedHref];
          } else {
            scriptFiles := scriptFiles + [node.attrs[i].val];
          }
        }
      }
    }

    /** toString: the URL line, then each collection's header with its
        length and one indented line per entry. */
    method ToString(lib: UrlLib) returns (str: string)
      ensures str == Render(lib.show(url), Collected())
    {
      str := "URL: " + lib.show(url) + "\n";
      var section := FormatSection("Links", links);
      str := str + section;
      section := FormatSection("Images", images);
      str := str + section;
      section := FormatSection("Style Sheets", styleSheets);
      str := str + section;
      section := FormatSection("Script Files", scriptFiles);
      str := str + section;
    }
  }

  /** One section of toString: the header "    <name>(<len>):" and one
      line per entry, built by a loop over the collection. */
  method FormatSection(name: string, entries: seq<string>) returns (str: string)
    ensures str == Section(name, entries)
  {
    str := "    " + name + "(" + Decimal(|entries|) + "):\n";
    ghost var header := str;
    for e := 0 to |entries|
      invariant str == header + Lines(entries[..e])
    {
      assert entries[..e + 1][..e] == entries[..e];
      str := str + "        " + entries[e] + "\n";
    }
    assert entries[..|entries|] == entries;
  }

  /** newWebPage: nil exactly when the text does not parse; otherwise a new
      page holding the parsed URL and four empty collections. */
  method NewWebPage(lib: UrlLib, urlString: string) returns (page: WebPage?)
    ensures page == null <==> lib.parse(urlString).None?
    ensures page != null ==> fresh(page) && lib.parse(urlString) == Some(page.url) && page.Collected() == Empty
  {
    var url := lib.parse(urlString);
    if url.None? {
      return null;
    }
    page := new WebPage(url.value);
  }
}
