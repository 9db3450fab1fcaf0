/** The traversal that recurseLinks performs, stated on values: which page
    keys get visited, in which order, and which keys the registry holds
    afterwards. The method Crawl.RecurseLinks is proved to follow
    it exactly. */
module Traversal {
  import opened Urls
  import opened Extract
  import opened WebPages

  /** The outside world of a crawl: the URL library and the fetch oracle. */
  datatype Site = Site(lib: UrlLib, fetch: Fetcher)
  {
    /** The collections a page created for `key` holds once processed: a
        page for a key that does not parse is never created, and a failed
        fetch leaves the collections empty. */
    function PageAssets(key: string): Assets
    {
      match lib.parse(key)
      case None => Empty
      case Some(url) => FetchedAssets(lib, fetch, url)
    }

    function Links(key: string): seq<string>
    {
      PageAssets(key).links
    }
  }

  /** Every link of a page whose key is in `universe` is in `universe`:
      the finite set of link strings a crawl can ever meet. */
  ghost predicate Closed(site: Site, universe: set<string>)
  {
    forall k, l :: k in universe && l in site.Links(k) ==> l in universe
  }

  /** The visit order and the final set of registry keys. */
  datatype Visit = Visit(order: seq<string>, seen: set<string>)

  function Elems(s: seq<string>): set<string>
  {
    set x | x in s
  }

  ghost predicate NoDup(s: seq<string>)
  {
    forall i, j :: 0 <= i < j < |s| ==> s[i] != s[j]
  }

  lemma {:induction false} SubsetCard(a: set<string>, b: set<string>)
    requires a <= b
    ensures |a| <= |b|
    decreases b
  {
    if a != {} {
      var x :| x in a;
      SubsetCard(a - {x}, b - {x});
    }
  }

  /** The unvisited part of the universe never grows as the key set grows,
      and shrinks strictly when a new key of the universe is added. */
  lemma Remaining(universe: set<string>, seen: set<string>, later: set<string>, x: string)
    requires seen <= later
    ensures |universe - later| <= |universe - seen|
    ensures x in universe && x !in later ==> |universe - (later + {x})| < |universe - seen|
  {
    SubsetCard(universe - later, universe - seen);
    if x in universe && x !in later {
      assert universe - (later + {x}) == (universe - later) - {x};
      assert |(universe - later) - {x}| == |universe - later| - 1;
    }
  }

  /** Visiting `k`, which has just been inserted into `seen`: process it,
      then look at its links in order. */
  ghost function Explore(site: Site, universe: set<string>, seen: set<string>, k: string): (v: Visit)
    requires Closed(site, universe) && seen <= universe && k in seen
    ensures seen <= v.seen <= universe
    decreases |universe - seen|, 1, 0
  {
    var rest := ExploreLinks(site, universe, seen, site.Links(k));
    Visit([k] + rest.order, rest.seen)
  }

  /** The loop over a page's links: a link already among the keys is
      skipped; a new one is inserted and explored completely before the
      next link is looked at. */
  ghost function ExploreLinks(site: Site, universe: set<string>, seen: set<string>, ls: seq<string>): (v: Visit)
    requires Closed(site, universe) && seen <= universe
    requires forall l :: l in ls ==> l in universe
    ensures seen <= v.seen <= universe
    decreases |universe - seen|, 0, |ls|
  {
    if ls == [] then Visit([], seen)
    else if ls[0] in seen then ExploreLinks(site, universe, seen, ls[1..])
    else
      Remaining(universe, seen, seen, ls[0]);
      var sub := Explore(site, universe, seen + {ls[0]}, ls[0]);
      Remaining(universe, seen, sub.seen, ls[0]);
      var tail := ExploreLinks(site, universe, sub.seen, ls[1..]);
      Visit(sub.order + tail.order, tail.seen)
  }

  /** The loop over the links `ls` of one page, started from the key set
      `start`, has looked at `ls[..i]`, visited `done` and reached the key
      set `seen`: what is left of it is the exploration of `ls[i..]` from
      `seen`. */
  ghost predicate Pending(site: Site, universe: set<string>, start: set<string>, ls: seq<string>,
                          i: int, done: seq<string>, seen: set<string>)
  {
    && Closed(site, universe) && start <= universe && seen <= universe
    && (forall l :: l in ls ==> l in universe)
    && 0 <= i <= |ls|
    && ExploreLinks(site, universe, start, ls)
       == Visit(done + ExploreLinks(site, universe, seen, ls[i..]).order,
                ExploreLinks(site, universe, seen, ls[i..]).seen)
  }

  lemma PendingStart(site: Site, universe: set<string>, start: set<string>, ls: seq<string>)
    requires Closed(site, universe) && start <= universe
    requires forall l :: l in ls ==> l in universe
    ensures Pending(site, universe, start, ls, 0, [], start)
  {
    assert ls[0..] == ls;
  }

  lemma PendingSkip(site: Site, universe: set<string>, start: set<string>, ls: seq<string>,
                    i: int, done: seq<string>, seen: set<string>)
    requires Pending(site, universe, start, ls, i, done, seen)
    requires i < |ls| && ls[i] in seen
    ensures Pending(site, universe, start, ls, i + 1, done, seen)
  {
    assert ls[i..][0] == ls[i] && ls[i..][1..] == ls[i + 1..];
    ExploreLinksSkip(site, universe, seen, ls[i..]);
  }

  lemma PendingDescend(site: Site, universe: set<string>, start: set<string>, ls: seq<string>,
                       i: int, done: seq<string>, seen: set<string>)
    requires Pending(site, universe, start, ls, i, done, seen)
    requires i < |ls| && ls[i] !in seen
    ensures ls[i] in universe
    ensures Pending(site, universe, start, ls, i + 1,
                    done + Explore(site, universe, seen + {ls[i]}, ls[i]).order,
                    Explore(site, universe, seen + {ls[i]}, ls[i]).seen)
  {
    assert ls[i] in ls;
    assert ls[i..][0] == ls[i] && ls[i..][1..] == ls[i + 1..];
    ExploreLinksDescend(site, universe, seen, ls[i..]);
    var sub := Explore(site, universe, seen + {ls[i]}, ls[i]);
    var tail := ExploreLinks(site, universe, sub.seen, ls[i + 1..]);
    assert done + (sub.order + tail.order) == (done + sub.order) + tail.order;
  }

  lemma PendingEnd(site: Site, universe: set<string>, start: set<string>, ls: seq<string>,
                   done: seq<string>, seen: set<string>)
    requires Pending(site, universe, start, ls, |ls|, done, seen)
    ensures ExploreLinks(site, universe, start, ls) == Visit(done, seen)
  {
    assert ls[|ls|..] == [];
    assert done + [] == done;
  }

  /** One step of the loop over links: a link already among the keys is
      skipped. */
  lemma ExploreLinksSkip(site: Site, universe: set<string>, seen: set<string>, ls: seq<string>)
    requires Closed(site, universe) && seen <= universe
    requires forall l :: l in ls ==> l in universe
    requires ls != [] && ls[0] in seen
    ensures ExploreLinks(site, universe, seen, ls) == ExploreLinks(site, universe, seen, ls[1..])
  {
  }

  /** One step of the loop over links: a new link is inserted and explored,
      then the loop goes on from the keys that exploration left. */
  lemma ExploreLinksDescend(site: Site, universe: set<string>, seen: set<string>, ls: seq<string>)
    requires Closed(site, universe) && seen <= universe
    requires forall l :: l in ls ==> l in universe
    requires ls != [] && ls[0] !in seen
    ensures seen + {ls[0]} <= universe
    ensures var sub := Explore(site, universe, seen + {ls[0]}, ls[0]);
      ExploreLinks(site, universe, seen, ls)
      == Visit(sub.order + ExploreLinks(site, universe, sub.seen, ls[1..]).order,
               ExploreLinks(site, universe, sub.seen, ls[1..]).seen)
  {
  }

  lemma NoDupAppend(a: seq<string>, b: seq<string>)
    requires NoDup(a) && NoDup(b)
    requires forall x :: x in b ==> x !in a
    ensures NoDup(a + b)
  {
    forall i, j | 0 <= i < j < |a + b| ensures (a + b)[i] != (a + b)[j] {
      if j >= |a| && i < |a| {
        assert (a + b)[j] == b[j - |a|] && b[j - |a|] in b;
        assert (a + b)[i] == a[i] && a[i] in a;
      }
    }
  }

  /** Each key is visited once: the visit starts at `k`, every later entry
      is a key that was not yet in the registry, no entry repeats, and the
      final keys are the old ones plus those visited. */
  lemma {:induction false} ExploreOnce(site: Site, universe: set<string>, seen: set<string>, k: string)
    requires Closed(site, universe) && seen <= universe && k in seen
    ensures var v := Explore(site, universe, seen, k);
      && |v.order| >= 1 && v.order[0] == k
      && (forall i :: 1 <= i < |v.order| ==> v.order[i] !in seen)
      && NoDup(v.order)
      && v.seen == seen + Elems(v.order)
    decreases |universe - seen|, 1, 0
  {
    var rest := ExploreLinks(site, universe, seen, site.Links(k));
    ExploreLinksOnce(site, universe, seen, site.Links(k));
    var v := Explore(site, universe, seen, k);
    assert v.order == [k] + rest.order;
    forall i | 1 <= i < |v.order| ensures v.order[i] !in seen {
      assert v.order[i] == rest.order[i - 1] && rest.order[i - 1] in rest.order;
    }
    NoDupAppend([k], rest.order);
  }

  lemma {:induction false} ExploreLinksOnce(site: Site, universe: set<string>, seen: set<string>, ls: seq<string>)
    requires Closed(site, universe) && seen <= universe
    requires forall l :: l in ls ==> l in universe
    ensures var v := ExploreLinks(site, universe, seen, ls);
      && (forall x :: x in v.order ==> x !in seen)
      && NoDup(v.order)
      && v.seen == seen + Elems(v.order)
    decreases |universe - seen|, 0, |ls|
  {
    if ls == [] {
    } else if ls[0] in seen {
      ExploreLinksOnce(site, universe, seen, ls[1..]);
    } else {
      var l := ls[0];
      Remaining(universe, seen, seen, l);
      var sub := Explore(site, universe, seen + {l}, l);
      Remaining(universe, seen, sub.seen, l);
      var tail := ExploreLinks(site, universe, sub.seen, ls[1..]);
      ExploreOnce(site, universe, seen + {l}, l);
      ExploreLinksOnce(site, universe, sub.seen, ls[1..]);
      ExploreLinksStep(seen, l, sub, tail);
      assert ExploreLinks(site, universe, seen, ls) == Visit(sub.order + tail.order, tail.seen);
    }
  }

  /** The bookkeeping of one newly explored link, on values only. */
  lemma ExploreLinksStep(seen: set<string>, l: string, sub: Visit, tail: Visit)
    requires l !in seen
    requires |sub.order| >= 1 && sub.order[0] == l
    requires forall i :: 1 <= i < |sub.order| ==> sub.order[i] !in seen + {l}
    requires NoDup(sub.order) && sub.seen == seen + {l} + Elems(sub.order)
    requires forall x :: x in tail.order ==> x !in sub.seen
    requires NoDup(tail.order) && tail.seen == sub.seen + Elems(tail.order)
    ensures forall x :: x in sub.order + tail.order ==> x !in seen
    ensures NoDup(sub.order + tail.order)
    ensures tail.seen == seen + Elems(sub.order + tail.order)
  {
    forall x | x in sub.order ensures x !in seen {
      var i :| 0 <= i < |sub.order| && sub.order[i] == x;
    }
    forall x | x in tail.order ensures x !in sub.order {
      assert x !in sub.seen;
    }
    NoDupAppend(sub.order, tail.order);
    assert Elems(sub.order + tail.order) == Elems(sub.order) + Elems(tail.order);
    assert l in Elems(sub.order);
  }

  /** Closure: once a visit is over, every link of every visited page, and
      every link the loop looked at, is among the keys. */
  lemma {:induction false} ExploreClosed(site: Site, universe: set<string>, seen: set<string>, k: string)
    requires Closed(site, universe) && seen <= universe && k in seen
    ensures forall x, l :: x in Explore(site, universe, seen, k).order && l in site.Links(x) ==>
              l in Explore(site, universe, seen, k).seen
    decreases |universe - seen|, 1, 0
  {
    ExploreLinksClosed(site, universe, seen, site.Links(k));
  }

  lemma {:induction false} ExploreLinksClosed(site: Site, universe: set<string>, seen: set<string>, ls: seq<string>)
    requires Closed(site, universe) && seen <= universe
    requires forall l :: l in ls ==> l in universe
    ensures forall l :: l in ls ==> l in ExploreLinks(site, universe, seen, ls).seen
    ensures forall x, l :: x in ExploreLinks(site, universe, seen, ls).order && l in site.Links(x) ==>
              l in ExploreLinks(site, universe, seen, ls).seen
    decreases |universe - seen|, 0, |ls|
  {
    if ls == [] {
    } else if ls[0] in seen {
      ExploreLinksClosed(site, universe, seen, ls[1..]);
      var v := ExploreLinks(site, universe, seen, ls);
      assert v == ExploreLinks(site, universe, seen, ls[1..]);
      assert forall l :: l in ls ==> l == ls[0] || l in ls[1..];
    } else {
      var l0 := ls[0];
      Remaining(universe, seen, seen, l0);
      var sub := Explore(site, universe, seen + {l0}, l0);
      Remaining(universe, seen, sub.seen, l0);
      var tail := ExploreLinks(site, universe, sub.seen, ls[1..]);
      ExploreClosed(site, universe, seen + {l0}, l0);
      ExploreLinksClosed(site, universe, sub.seen, ls[1..]);
      ClosedStep(site, ls, sub, tail);
      assert ExploreLinks(site, universe, seen, ls) == Visit(sub.order + tail.order, tail.seen);
    }
  }

  /** The bookkeeping of closure for one newly explored link, on values. */
  lemma ClosedStep(site: Site, ls: seq<string>, sub: Visit, tail: Visit)
    requires ls != [] && ls[0] in sub.seen && sub.seen <= tail.seen
    requires forall x, l :: x in sub.order && l in site.Links(x) ==> l in sub.seen
    requires forall l :: l in ls[1..] ==> l in tail.seen
    requires forall x, l :: x in tail.order && l in site.Links(x) ==> l in tail.seen
    ensures forall l :: l in ls ==> l in tail.seen
    ensures forall x, l :: x in sub.order + tail.order && l in site.Links(x) ==> l in tail.seen
  {
    assert forall l :: l in ls ==> l == ls[0] || l in ls[1..];
  }

  /** A page of the registry whose key was added by the visit is a link of
      some page visited. */
  ghost predicate Discovered(site: Site, order: seq<string>, x: string)
  {
    exists y :: y in order && x in site.Links(y)
  }

  /** No key is invented: every key the visit adds is a link of a page it
      processed. */
  lemma {:induction false} ExploreDiscovers(site: Site, universe: set<string>, seen: set<string>, k: string)
    requires Closed(site, universe) && seen <= universe && k in seen
    ensures var v := Explore(site, universe, seen, k);
      forall x :: x in v.seen && x !in seen ==> Discovered(site, v.order, x)
    decreases |universe - seen|, 1, 0
  {
    var ls := site.Links(k);
    var rest := ExploreLinks(site, universe, seen, ls);
    var v := Explore(site, universe, seen, k);
    ExploreLinksDiscovers(site, universe, seen, ls);
    forall x | x in v.seen && x !in seen ensures Discovered(site, v.order, x) {
      if x in ls {
        assert k in v.order;
      } else {
        var y :| y in rest.order && x in site.Links(y);
        assert y in v.order;
      }
    }
  }

  lemma {:induction false} ExploreLinksDiscovers(site: Site, universe: set<string>, seen: set<string>, ls: seq<string>)
    requires Closed(site, universe) && seen <= universe
    requires forall l :: l in ls ==> l in universe
    ensures var v := ExploreLinks(site, universe, seen, ls);
      forall x :: x in v.seen && x !in seen ==> x in ls || Discovered(site, v.order, x)
    decreases |universe - seen|, 0, |ls|
  {
    if ls == [] {
    } else if ls[0] in seen {
      ExploreLinksDiscovers(site, universe, seen, ls[1..]);
    } else {
      var l := ls[0];
      Remaining(universe, seen, seen, l);
      var sub := Explore(site, universe, seen + {l}, l);
      Remaining(universe, seen, sub.seen, l);
      var tail := ExploreLinks(site, universe, sub.seen, ls[1..]);
      var v := ExploreLinks(site, universe, seen, ls);
      ExploreDiscovers(site, universe, seen + {l}, l);
      ExploreLinksDiscovers(site, universe, sub.seen, ls[1..]);
      forall x | x in v.seen && x !in seen ensures x in ls || Discovered(site, v.order, x) {
        if x == l {
        } else if x in sub.seen {
          var y :| y in sub.order && x in site.Links(y);
          assert y in v.order;
        } else if x in ls[1..] {
        } else {
          var y :| y in tail.order && x in site.Links(y);
          assert y in v.order;
        }
      }
    }
  }

  /** A page whose fetch fails has no links, so its visit is just itself. */
  lemma FailedFetchIsLeaf(site: Site, universe: set<string>, seen: set<string>, k: string)
    requires Closed(site, universe) && seen <= universe && k in seen
    requires site.lib.parse(k).Some? && site.fetch(site.lib.show(site.lib.parse(k).value)).None?
    ensures site.PageAssets(k) == Empty
    ensures Explore(site, universe, seen, k) == Visit([k], seen)
  {
  }

  /** The whole crawl from a seed: the seed first, every key visited
      exactly once, every registry key visited, every link of every visited
      page a key, and every key other than the seed a link of a visited
      page. */
  lemma CrawlFromSeed(site: Site, universe: set<string>, seed: string)
    requires Closed(site, universe) && seed in universe
    ensures var v := Explore(site, universe, {seed}, seed);
      && v.order[0] == seed
      && NoDup(v.order)
      && v.seen == Elems(v.order)
      && (forall x, l :: x in v.order && l in site.Links(x) ==> l in v.seen)
      && (forall x :: x in v.seen && x != seed ==> Discovered(site, v.order, x))
  {
    var v := Explore(site, universe, {seed}, seed);
    ExploreOnce(site, universe, {seed}, seed);
    ExploreClosed(site, universe, {seed}, seed);
    ExploreDiscovers(site, universe, {seed}, seed);
    assert seed in Elems(v.order);
  }

  /** The part of that crawl below p1: p2 is entered from p1, and p2's
      back edge to p1 is skipped. */
  lemma MutualLinksBelow(site: Site, u: set<string>, seed: string, p1: string, p2: string)
    requires Closed(site, u) && {seed, p1, p2} <= u && |{seed, p1, p2}| == 3
    requires site.Links(p1) == [p2] && site.Links(p2) == [p1]
    ensures Explore(site, u, {seed, p1}, p1) == Visit([p1, p2], {seed, p1, p2})
  {
    var s1 := {seed, p1};
    var s2 := {seed, p1, p2};
    assert ExploreLinks(site, u, s2, [p1]) == Visit([], s2);
    assert Explore(site, u, s2, p2) == Visit([p2], s2);
    assert ExploreLinks(site, u, s2, []) == Visit([], s2);
    assert s1 + {p2} == s2 && [p2][1..] == [];
    assert ExploreLinks(site, u, s1, [p2]) == Visit([p2], s2);
  }

  /** The rest of that crawl: p2 is already a key, the missing page is
      entered and has no links. */
  lemma MutualLinksAfter(site: Site, u: set<string>, seed: string, p1: string, p2: string, missing: string)
    requires Closed(site, u) && u == {seed, p1, p2, missing} && missing !in {seed, p1, p2}
    requires site.Links(missing) == []
    ensures ExploreLinks(site, u, {seed, p1, p2}, [p2, missing]) == Visit([missing], u)
  {
    var s2 := {seed, p1, p2};
    assert ExploreLinks(site, u, u, []) == Visit([], u);
    assert Explore(site, u, u, missing) == Visit([missing], u);
    assert s2 + {missing} == u;
    assert ExploreLinks(site, u, s2, [missing]) == Visit([missing], u);
    assert [p2, missing][1..] == [missing];
  }

  lemma MutualLinksClosed(site: Site, seed: string, p1: string, p2: string, missing: string)
    requires site.Links(seed) == [p1, p2, missing]
    requires site.Links(p1) == [p2] && site.Links(p2) == [p1] && site.Links(missing) == []
    ensures Closed(site, {seed, p1, p2, missing})
  {
  }

  /** The recorded crawl of a small site: the seed links to p1, p2 and a
      missing page; p1 and p2 link to each other. Each is visited once, in
      depth-first order, and the back edges are skipped. */
  lemma MutualLinksVisitedOnce(site: Site, seed: string, p1: string, p2: string, missing: string)
    requires |{seed, p1, p2, missing}| == 4
    requires site.Links(seed) == [p1, p2, missing]
    requires site.Links(p1) == [p2] && site.Links(p2) == [p1] && site.Links(missing) == []
    ensures Closed(site, {seed, p1, p2, missing})
    ensures Explore(site, {seed, p1, p2, missing}, {seed}, seed) == Visit([seed, p1, p2, missing], {seed, p1, p2, missing})
  {
    var u := {seed, p1, p2, missing};
    MutualLinksClosed(site, seed, p1, p2, missing);
    assert |{seed, p1, p2}| == 3 && missing !in {seed, p1, p2};
    MutualLinksBelow(site, u, seed, p1, p2);
    MutualLinksAfter(site, u, seed, p1, p2, missing);
    assert [p1, p2, missing][1..] == [p2, missing];
    assert {seed} + {p1} == {seed, p1};
    ExploreLinksDescend(site, u, {seed}, [p1, p2, missing]);
  }
}
