/** What the four per-tag extractors of WebPage.go contribute, stated as
    functions of the attribute list, and what the pre-order walk of
    parseTags contributes for a whole tree. The methods of class WebPage
    (webpage.dfy) are proved to append exactly these values. */
module Extract {
  import opened Urls
  import opened Html

  /** The four collections of a page, each in order of discovery. */
  datatype Assets = Assets(links: seq<string>, images: seq<string>, styleSheets: seq<string>, scriptFiles: seq<string>)
  {
    /** Every collection of `other` appended at the back of this one's. */
    function Plus(other: Assets): Assets
    {
      Assets(links + other.links, images + other.images,
             styleSheets + other.styleSheets, scriptFiles + other.scriptFiles)
    }
  }

  const Empty := Assets([], [], [], [])

  lemma PlusAssoc(a: Assets, b: Assets, c: Assets)
    ensures a.Plus(b).Plus(c) == a.Plus(b.Plus(c))
  {
  }

  lemma PlusEmpty(a: Assets)
    ensures a.Plus(Empty) == a && Empty.Plus(a) == a
  {
  }

  /** Which absolute references an extractor keeps: anchors keep only those
      on the page's own host, the other three tags keep any host. */
  datatype HostPolicy = SameHostOnly | AnyHost

  /** What one extractor appends for an attribute value `val` that parsed
      to `ref`: a host-less reference is stored resolved against the page
      URL, a reference with a host the policy keeps is stored verbatim, any
      other reference is dropped. */
  function Stored(lib: UrlLib, base: Url, val: string, ref: Url, policy: HostPolicy): seq<string>
  {
    if ref.host == "" then [lib.resolve(base, ref)]
    else if policy == AnyHost || ref.host == base.host then [val]
    else []
  }

  /** The entries that parseATag, parseImgTag and parseScriptTag append:
      every attribute whose key is exactly `key` contributes, in attribute
      order, until the first such attribute whose value fails to parse,
      which ends the scan. */
  function ScanRefs(lib: UrlLib, base: Url, attrs: seq<Attribute>, key: string, policy: HostPolicy): seq<string>
  {
    if attrs == [] then []
    else if attrs[0].key != key then ScanRefs(lib, base, attrs[1..], key, policy)
    else match lib.parse(attrs[0].val)
      case None => []
      case Some(ref) => Stored(lib, base, attrs[0].val, ref, policy) + ScanRefs(lib, base, attrs[1..], key, policy)
  }

  /** parseATag: case-sensitive "href", same host only. */
  function AnchorLinks(lib: UrlLib, base: Url, attrs: seq<Attribute>): seq<string>
  {
    ScanRefs(lib, base, attrs, "href", SameHostOnly)
  }

  /** parseImgTag and parseScriptTag: case-sensitive "src", any host. */
  function SourceRefs(lib: UrlLib, base: Url, attrs: seq<Attribute>): seq<string>
  {
    ScanRefs(lib, base, attrs, "src", AnyHost)
  }

  /** The number of attributes whose key is exactly `key`. */
  function CountKey(attrs: seq<Attribute>, key: string): nat
  {
    if attrs == [] then 0
    else (if attrs[0].key == key then 1 else 0) + CountKey(attrs[1..], key)
  }

  /** Every attribute keyed `key` has a parseable value. */
  ghost predicate AllParse(lib: UrlLib, attrs: seq<Attribute>, key: string)
  {
    forall i :: 0 <= i < |attrs| && attrs[i].key == key ==> lib.parse(attrs[i].val).Some?
  }

  /** An entry comes from one attribute keyed `key` whose value parses: it
      is what the host rule stores for that attribute, the value's own
      reference resolved against the page URL when it has no host, or the
      value verbatim when the policy keeps its host. */
  ghost predicate EntryShape(lib: UrlLib, base: Url, attrs: seq<Attribute>, key: string, policy: HostPolicy, e: string)
  {
    exists a :: a in attrs && a.key == key && lib.parse(a.val).Some?
                && e in Stored(lib, base, a.val, lib.parse(a.val).value, policy)
  }

  /** Concatenation: a prefix without parse failures contributes its own
      entries, then the suffix contributes its own. */
  lemma {:induction false} ScanRefsAppend(lib: UrlLib, base: Url, a: seq<Attribute>, b: seq<Attribute>, key: string, policy: HostPolicy)
    requires AllParse(lib, a, key)
    ensures ScanRefs(lib, base, a + b, key, policy) == ScanRefs(lib, base, a, key, policy) + ScanRefs(lib, base, b, key, policy)
  {
    if a == [] {
      assert a + b == b;
    } else {
      assert (a + b)[0] == a[0] && (a + b)[1..] == a[1..] + b;
      assert AllParse(lib, a[1..], key) by {
        forall i | 0 <= i < |a[1..]| && a[1..][i].key == key ensures lib.parse(a[1..][i].val).Some? {
          assert a[1..][i] == a[i + 1];
        }
      }
      if a[0].key == key {
        assert lib.parse(a[0].val).Some?;
      }
      ScanRefsAppend(lib, base, a[1..], b, key, policy);
    }
  }

  /** A parse error aborts: nothing is appended for the failing attribute
      or any later one, and whatever the earlier attributes contributed
      stays. */
  lemma {:induction false} ScanRefsAbort(lib: UrlLib, base: Url, a: seq<Attribute>, bad: Attribute, b: seq<Attribute>, key: string, policy: HostPolicy)
    requires bad.key == key && lib.parse(bad.val).None?
    ensures ScanRefs(lib, base, a + [bad] + b, key, policy) == ScanRefs(lib, base, a, key, policy)
  {
    if a == [] {
      assert a + [bad] + b == [bad] + b;
    } else {
      assert (a + [bad] + b)[0] == a[0] && (a + [bad] + b)[1..] == a[1..] + [bad] + b;
      ScanRefsAbort(lib, base, a[1..], bad, b, key, policy);
    }
  }

  /** At most one entry per attribute keyed `key`; exactly one per such
      attribute when the policy keeps every host and every such value
      parses. In particular no entry at all without such an attribute. */
  lemma {:induction false} ScanRefsCount(lib: UrlLib, base: Url, attrs: seq<Attribute>, key: string, policy: HostPolicy)
    ensures |ScanRefs(lib, base, attrs, key, policy)| <= CountKey(attrs, key)
    ensures policy == AnyHost && AllParse(lib, attrs, key) ==>
              |ScanRefs(lib, base, attrs, key, policy)| == CountKey(attrs, key)
  {
    if attrs != [] {
      if AllParse(lib, attrs, key) {
        forall i | 0 <= i < |attrs[1..]| && attrs[1..][i].key == key ensures lib.parse(attrs[1..][i].val).Some? {
          assert attrs[1..][i] == attrs[i + 1];
        }
      }
      ScanRefsCount(lib, base, attrs[1..], key, policy);
    }
  }

  /** Every entry is what the host rule stores for one attribute keyed
      `key` of the list. */
  lemma {:induction false} ScanRefsEntries(lib: UrlLib, base: Url, attrs: seq<Attribute>, key: string, policy: HostPolicy)
    ensures forall e :: e in ScanRefs(lib, base, attrs, key, policy) ==> EntryShape(lib, base, attrs, key, policy, e)
  {
    if attrs != [] {
      ScanRefsEntries(lib, base, attrs[1..], key, policy);
      forall e | e in ScanRefs(lib, base, attrs, key, policy)
        ensures EntryShape(lib, base, attrs, key, policy, e)
      {
        if e in ScanRefs(lib, base, attrs[1..], key, policy) {
          var a :| a in attrs[1..] && a.key == key && lib.parse(a.val).Some?
                   && e in Stored(lib, base, a.val, lib.parse(a.val).value, policy);
          assert a in attrs;
        } else {
          assert attrs[0] in attrs;
        }
      }
    }
  }

  /** Under the library assumption an entry parses again: a resolved
      reference reparses, and a verbatim value parsed already. */
  lemma EntryReparse(lib: UrlLib, base: Url, attrs: seq<Attribute>, key: string, policy: HostPolicy, e: string)
    requires ResolvedReparses(lib) && EntryShape(lib, base, attrs, key, policy, e)
    ensures lib.parse(e).Some?
  {
    var a :| a in attrs && a.key == key && lib.parse(a.val).Some?
             && e in Stored(lib, base, a.val, lib.parse(a.val).value, policy);
    var ref := lib.parse(a.val).value;
    if ref.host == "" {
      assert e == lib.resolve(base, ref);
    }
  }

  /** An anchor whose href carries a host other than the page's is never
      added: when every href is such a reference, no link is added. */
  lemma {:induction false} AnchorOffHostDropped(lib: UrlLib, base: Url, attrs: seq<Attribute>)
    requires forall i :: 0 <= i < |attrs| && attrs[i].key == "href" ==>
               lib.parse(attrs[i].val).Some? && lib.parse(attrs[i].val).value.host !in {"", base.host}
    ensures AnchorLinks(lib, base, attrs) == []
  {
    if attrs != [] {
      assert forall i :: 0 <= i < |attrs[1..]| ==> attrs[1..][i] == attrs[i + 1];
      AnchorOffHostDropped(lib, base, attrs[1..]);
    }
  }

  /** Under the library assumption every stored entry parses again; the
      crawler relies on this when it builds a page for every link. */
  lemma ScanRefsReparse(lib: UrlLib, base: Url, attrs: seq<Attribute>, key: string, policy: HostPolicy)
    requires ResolvedReparses(lib)
    ensures forall e :: e in ScanRefs(lib, base, attrs, key, policy) ==> lib.parse(e).Some?
  {
    ScanRefsEntries(lib, base, attrs, key, policy);
    forall e | e in ScanRefs(lib, base, attrs, key, policy) ensures lib.parse(e).Some? {
      EntryReparse(lib, base, attrs, key, policy, e);
    }
  }

  // ---------------------------------------------------------------------
  // parseLinkTag

  /** strings.ToLower restricted to ASCII. The only strings compared after
      lowering are "href", "rel" and "stylesheet". The only non-ASCII
      characters that lower to an ASCII letter are U+0130 (to 'i') and
      U+212A (to 'k'), and none of these words contains 'i' or 'k', so the
      comparisons agree with the Unicode mapping. */
  function LowerChar(c: char): char
  {
    if 'A' <= c <= 'Z' then (c as int + 32) as char else c
  }

  function Lower(s: string): string
  {
    seq(|s|, i requires 0 <= i < |s| => LowerChar(s[i]))
  }

  /** An attribute rel=stylesheet, key and value compared case-insensitively. */
  predicate IsStyleSheetRel(a: Attribute)
  {
    Lower(a.key) == "rel" && Lower(a.val) == "stylesheet"
  }

  /** Some attribute of `attrs` is rel=stylesheet. */
  predicate HasStyleSheetRel(attrs: seq<Attribute>)
  {
    if attrs == [] then false
    else HasStyleSheetRel(attrs[..|attrs| - 1]) || IsStyleSheetRel(attrs[|attrs| - 1])
  }

  /** The value of the last attribute of `attrs` whose key is
      case-insensitively "href", or "" when there is none. */
  function LastHref(attrs: seq<Attribute>): string
  {
    if attrs == [] then ""
    else if Lower(attrs[|attrs| - 1].key) == "href" then attrs[|attrs| - 1].val
    else LastHref(attrs[..|attrs| - 1])
  }

  /** parseLinkTag's condition after reading attribute i: a rel=stylesheet
      has been seen at or before position i and the most recent href value
      is not empty. */
  predicate ReadyAt(attrs: seq<Attribute>, i: nat)
    requires i < |attrs|
  {
    HasStyleSheetRel(attrs[..i + 1]) && LastHref(attrs[..i + 1]) != ""
  }

  /** The entries parseLinkTag appends from position i on: one at every
      position where the condition holds (the stored form follows the
      any-host rule for the most recent href), until a value fails to
      parse. */
  function ReadyFrom(lib: UrlLib, base: Url, attrs: seq<Attribute>, i: nat): seq<string>
    decreases |attrs| - i
  {
    if i >= |attrs| then []
    else if !ReadyAt(attrs, i) then ReadyFrom(lib, base, attrs, i + 1)
    else
      var src := LastHref(attrs[..i + 1]);
      match lib.parse(src)
      case None => []
      case Some(ref) => Stored(lib, base, src, ref, AnyHost) + ReadyFrom(lib, base, attrs, i + 1)
  }

  function StyleSheetRefs(lib: UrlLib, base: Url, attrs: seq<Attribute>): seq<string>
  {
    ReadyFrom(lib, base, attrs, 0)
  }

  /** The number of positions at or after i where the condition holds. */
  function ReadyCount(attrs: seq<Attribute>, i: nat): nat
    decreases |attrs| - i
  {
    if i >= |attrs| then 0
    else (if ReadyAt(attrs, i) then 1 else 0) + ReadyCount(attrs, i + 1)
  }

  lemma {:induction false} HasStyleSheetRelPrefix(attrs: seq<Attribute>, n: nat)
    requires n <= |attrs|
    ensures HasStyleSheetRel(attrs[..n]) ==> HasStyleSheetRel(attrs)
    decreases |attrs| - n
  {
    if n < |attrs| {
      assert attrs[..n + 1][..n] == attrs[..n];
      HasStyleSheetRelPrefix(attrs, n + 1);
    } else {
      assert attrs[..n] == attrs;
    }
  }

  lemma {:induction false} LastHrefNone(attrs: seq<Attribute>)
    requires forall i :: 0 <= i < |attrs| ==> Lower(attrs[i].key) != "href"
    ensures LastHref(attrs) == ""
  {
    if attrs != [] {
      LastHrefNone(attrs[..|attrs| - 1]);
    }
  }

  /** Without any rel=stylesheet attribute nothing is added. */
  lemma {:induction false} StyleSheetNeedsRel(lib: UrlLib, base: Url, attrs: seq<Attribute>, i: nat)
    requires !HasStyleSheetRel(attrs)
    ensures ReadyFrom(lib, base, attrs, i) == []
    decreases |attrs| - i
  {
    if i < |attrs| {
      HasStyleSheetRelPrefix(attrs, i + 1);
      StyleSheetNeedsRel(lib, base, attrs, i + 1);
    }
  }

  /** Without any href attribute nothing is added. */
  lemma {:induction false} StyleSheetNeedsHref(lib: UrlLib, base: Url, attrs: seq<Attribute>, i: nat)
    requires forall j :: 0 <= j < |attrs| ==> Lower(attrs[j].key) != "href"
    ensures ReadyFrom(lib, base, attrs, i) == []
    decreases |attrs| - i
  {
    if i < |attrs| {
      LastHrefNone(attrs[..i + 1]);
      StyleSheetNeedsHref(lib, base, attrs, i + 1);
    }
  }

  /** One entry per position where the condition holds, when every href
      read at such a position parses; never more. */
  lemma {:induction false} StyleSheetCount(lib: UrlLib, base: Url, attrs: seq<Attribute>, i: nat)
    ensures |ReadyFrom(lib, base, attrs, i)| <= ReadyCount(attrs, i)
    ensures (forall j :: i <= j < |attrs| && ReadyAt(attrs, j) ==> lib.parse(LastHref(attrs[..j + 1])).Some?) ==>
              |ReadyFrom(lib, base, attrs, i)| == ReadyCount(attrs, i)
    decreases |attrs| - i
  {
    if i < |attrs| {
      StyleSheetCount(lib, base, attrs, i + 1);
    }
  }

  /** A remembered href that fails to parse at a position where the
      condition holds ends the scan: the result is what the attributes
      before that position give, whatever follows. */
  lemma {:induction false} ReadyFromAbort(lib: UrlLib, base: Url, attrs: seq<Attribute>, i: nat, j: nat)
    requires i <= j < |attrs| && ReadyAt(attrs, j)
    requires lib.parse(LastHref(attrs[..j + 1])).None?
    ensures ReadyFrom(lib, base, attrs, i) == ReadyFrom(lib, base, attrs[..j], i)
    decreases j - i
  {
    if i < j {
      assert attrs[..j][..i + 1] == attrs[..i + 1];
      assert ReadyAt(attrs[..j], i) == ReadyAt(attrs, i);
      ReadyFromAbort(lib, base, attrs, i + 1, j);
    }
  }

  /** The test case with an href that does not parse: href first, then
      rel=stylesheet, adds nothing. */
  lemma BadHrefThenStyleSheet(lib: UrlLib, base: Url, href: Attribute, rel: Attribute)
    requires Lower(href.key) == "href" && href.val != "" && IsStyleSheetRel(rel)
    requires lib.parse(href.val).None?
    ensures StyleSheetRefs(lib, base, [href, rel]) == []
  {
    var attrs := [href, rel];
    assert attrs[..1] == [href] && attrs[..2] == attrs;
    assert !HasStyleSheetRel([href]) by {
      assert [href][..0] == [];
      assert !IsStyleSheetRel(href);
    }
    assert !ReadyAt(attrs, 0);
    assert LastHref(attrs) == href.val by {
      assert attrs[..1] == [href];
      assert LastHref([href]) == href.val;
    }
    assert ReadyAt(attrs, 1);
    assert ReadyFrom(lib, base, attrs, 1) == [];
  }

  /** The test case: href first, then rel=stylesheet (in any letter case)
      gives exactly one entry, stored by the any-host rule. */
  lemma HrefThenStyleSheet(lib: UrlLib, base: Url, href: Attribute, rel: Attribute, ref: Url)
    requires Lower(href.key) == "href" && href.val != "" && IsStyleSheetRel(rel)
    requires lib.parse(href.val) == Some(ref)
    ensures StyleSheetRefs(lib, base, [href, rel]) == Stored(lib, base, href.val, ref, AnyHost)
  {
    var attrs := [href, rel];
    assert attrs[..1] == [href] && attrs[..2] == attrs;
    assert !HasStyleSheetRel([href]) by {
      assert [href][..0] == [];
      assert !IsStyleSheetRel(href);
    }
    assert !ReadyAt(attrs, 0);
    assert LastHref(attrs) == href.val by {
      assert attrs[..1] == [href];
      assert LastHref([href]) == href.val;
    }
    assert ReadyAt(attrs, 1);
    assert ReadyFrom(lib, base, attrs, 1) == Stored(lib, base, href.val, ref, AnyHost) + ReadyFrom(lib, base, attrs, 2);
  }

  /** The quirk of re-checking after every attribute: once the condition
      holds, each further non-href attribute appends the same entry
      again. */
  lemma StyleSheetRepeats(lib: UrlLib, base: Url, rel: Attribute, href: Attribute, other: Attribute, ref: Url)
    requires IsStyleSheetRel(rel) && Lower(href.key) == "href" && href.val != ""
    requires Lower(other.key) != "href"
    requires lib.parse(href.val) == Some(ref)
    ensures StyleSheetRefs(lib, base, [rel, href, other]) == Stored(lib, base, href.val, ref, AnyHost) + Stored(lib, base, href.val, ref, AnyHost)
  {
    var attrs := [rel, href, other];
    var entry := Stored(lib, base, href.val, ref, AnyHost);
    assert attrs[..1] == [rel] && attrs[..2] == [rel, href] && attrs[..3] == attrs;
    assert LastHref([rel]) == "" by {
      assert [rel][..0] == [];
      assert Lower(rel.key) == "rel";
    }
    assert !ReadyAt(attrs, 0);
    assert HasStyleSheetRel([rel]) by {
      assert [rel][..0] == [];
    }
    assert [rel, href][..1] == [rel];
    assert HasStyleSheetRel([rel, href]);
    assert LastHref([rel, href]) == href.val;
    assert ReadyAt(attrs, 1);
    assert attrs[..2] == [rel, href];
    assert HasStyleSheetRel(attrs);
    assert LastHref(attrs) == href.val;
    assert ReadyAt(attrs, 2);
    assert ReadyFrom(lib, base, attrs, 2) == entry + ReadyFrom(lib, base, attrs, 3);
    assert ReadyFrom(lib, base, attrs, 1) == entry + ReadyFrom(lib, base, attrs, 2);
  }

  // ---------------------------------------------------------------------
  // parseTags

  /** What dispatching one node contributes: only element nodes named
      exactly a, img, link or script, each to its own collection. */
  function NodeAssets(lib: UrlLib, base: Url, n: Node): Assets
  {
    if n.kind != ElementNode then Empty
    else if n.data == "a" then Assets(AnchorLinks(lib, base, n.attrs), [], [], [])
    else if n.data == "img" then Assets([], SourceRefs(lib, base, n.attrs), [], [])
    else if n.data == "link" then Assets([], [], StyleSheetRefs(lib, base, n.attrs), [])
    else if n.data == "script" then Assets([], [], [], SourceRefs(lib, base, n.attrs))
    else Empty
  }

  /** The walk of parseTags: the node first, then each child's subtree in
      sibling order. */
  function TreeAssets(lib: UrlLib, base: Url, n: Node): Assets
    decreases n, 1
  {
    NodeAssets(lib, base, n).Plus(ForestAssets(lib, base, n.children))
  }

  function ForestAssets(lib: UrlLib, base: Url, cs: seq<Node>): Assets
    decreases cs, 0
  {
    if cs == [] then Empty
    else TreeAssets(lib, base, cs[0]).Plus(ForestAssets(lib, base, cs[1..]))
  }

  /** The pre-order list of the nodes of a tree: an independent reference
      for the walk. */
  function PreOrder(n: Node): seq<Node>
    decreases n, 1
  {
    [n] + PreOrderForest(n.children)
  }

  function PreOrderForest(cs: seq<Node>): seq<Node>
    decreases cs, 0
  {
    if cs == [] then [] else PreOrder(cs[0]) + PreOrderForest(cs[1..])
  }

  /** The contributions of a list of nodes, concatenated in list order. */
  function SumNodes(lib: UrlLib, base: Url, ns: seq<Node>): Assets
  {
    if ns == [] then Empty else NodeAssets(lib, base, ns[0]).Plus(SumNodes(lib, base, ns[1..]))
  }

  lemma {:induction false} SumNodesAppend(lib: UrlLib, base: Url, a: seq<Node>, b: seq<Node>)
    ensures SumNodes(lib, base, a + b) == SumNodes(lib, base, a).Plus(SumNodes(lib, base, b))
  {
    if a == [] {
      assert a + b == b;
      PlusEmpty(SumNodes(lib, base, b));
    } else {
      assert (a + b)[0] == a[0] && (a + b)[1..] == a[1..] + b;
      SumNodesAppend(lib, base, a[1..], b);
      PlusAssoc(NodeAssets(lib, base, a[0]), SumNodes(lib, base, a[1..]), SumNodes(lib, base, b));
    }
  }

  /** parseTags collects exactly the concatenation, in pre-order, of what
      each node of the tree contributes. */
  lemma {:induction false} TreeAssetsPreOrder(lib: UrlLib, base: Url, n: Node)
    ensures TreeAssets(lib, base, n) == SumNodes(lib, base, PreOrder(n))
    decreases n, 1
  {
    ForestAssetsPreOrder(lib, base, n.children);
    SumNodesAppend(lib, base, [n], PreOrderForest(n.children));
    assert SumNodes(lib, base, [n]) == NodeAssets(lib, base, n) by {
      assert [n][1..] == [];
      PlusEmpty(NodeAssets(lib, base, n));
    }
  }

  lemma {:induction false} ForestAssetsPreOrder(lib: UrlLib, base: Url, cs: seq<Node>)
    ensures ForestAssets(lib, base, cs) == SumNodes(lib, base, PreOrderForest(cs))
    decreases cs, 0
  {
    if cs != [] {
      TreeAssetsPreOrder(lib, base, cs[0]);
      ForestAssetsPreOrder(lib, base, cs[1..]);
      SumNodesAppend(lib, base, PreOrder(cs[0]), PreOrderForest(cs[1..]));
    }
  }

  /** A link string comes from an anchor among the nodes `ns`: it is what
      the host rule stores for one of its href attributes, the href's own
      reference resolved against the page URL when it has no host, or the
      href verbatim when its host is the page's. */
  ghost predicate IsPageLink(lib: UrlLib, base: Url, ns: seq<Node>, e: string)
  {
    exists m :: m in ns && m.kind == ElementNode && m.data == "a"
                && EntryShape(lib, base, m.attrs, "href", SameHostOnly, e)
  }

  lemma NodeLinks(lib: UrlLib, base: Url, n: Node)
    ensures forall e :: e in NodeAssets(lib, base, n).links ==> IsPageLink(lib, base, [n], e)
  {
    if n.kind == ElementNode && n.data == "a" {
      ScanRefsEntries(lib, base, n.attrs, "href", SameHostOnly);
      assert n in [n];
    }
  }

  /** Every link of a tree comes from an anchor of that tree. */
  lemma {:induction false} TreeLinks(lib: UrlLib, base: Url, n: Node)
    ensures forall e :: e in TreeAssets(lib, base, n).links ==> IsPageLink(lib, base, PreOrder(n), e)
    decreases n, 1
  {
    NodeLinks(lib, base, n);
    ForestLinks(lib, base, n.children);
    forall e | e in TreeAssets(lib, base, n).links ensures IsPageLink(lib, base, PreOrder(n), e) {
      if e in NodeAssets(lib, base, n).links {
        var m :| m in [n] && m.kind == ElementNode && m.data == "a"
                 && EntryShape(lib, base, m.attrs, "href", SameHostOnly, e);
        assert m in PreOrder(n);
      } else {
        assert e in ForestAssets(lib, base, n.children).links;
        var m :| m in PreOrderForest(n.children) && m.kind == ElementNode && m.data == "a"
                 && EntryShape(lib, base, m.attrs, "href", SameHostOnly, e);
        assert m in PreOrder(n);
      }
    }
  }

  lemma {:induction false} ForestLinks(lib: UrlLib, base: Url, cs: seq<Node>)
    ensures forall e :: e in ForestAssets(lib, base, cs).links ==> IsPageLink(lib, base, PreOrderForest(cs), e)
    decreases cs, 0
  {
    if cs != [] {
      TreeLinks(lib, base, cs[0]);
      ForestLinks(lib, base, cs[1..]);
      forall e | e in ForestAssets(lib, base, cs).links ensures IsPageLink(lib, base, PreOrderForest(cs), e) {
        if e in TreeAssets(lib, base, cs[0]).links {
          var m :| m in PreOrder(cs[0]) && m.kind == ElementNode && m.data == "a"
                   && EntryShape(lib, base, m.attrs, "href", SameHostOnly, e);
          assert m in PreOrderForest(cs);
        } else {
          assert e in ForestAssets(lib, base, cs[1..]).links;
          var m :| m in PreOrderForest(cs[1..]) && m.kind == ElementNode && m.data == "a"
                   && EntryShape(lib, base, m.attrs, "href", SameHostOnly, e);
          assert m in PreOrderForest(cs);
        }
      }
    }
  }

  /** With the library assumption, every link of a tree parses again. */
  lemma TreeLinksReparse(lib: UrlLib, base: Url, n: Node)
    requires ResolvedReparses(lib)
    ensures forall e :: e in TreeAssets(lib, base, n).links ==> lib.parse(e).Some?
  {
    TreeLinks(lib, base, n);
    forall e | e in TreeAssets(lib, base, n).links ensures lib.parse(e).Some? {
      var m :| m in PreOrder(n) && m.kind == ElementNode && m.data == "a"
               && EntryShape(lib, base, m.attrs, "href", SameHostOnly, e);
      EntryReparse(lib, base, m.attrs, "href", SameHostOnly, e);
    }
  }
}
