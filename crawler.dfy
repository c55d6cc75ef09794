/** The crawl engine of `crawlSite`: URL normalisation into de-duplication
    keys, the depth-first traversal over a visited set, the recording of each
    page's `tel:` anchors, and the two scope flags.  The browser page is an
    abstract `Site` and the WHATWG URL parser an abstract `UrlSyntax`. */
module Crawler {
  import opened JsStrings

  datatype Option<T> = None | Some(value: T)

  /** A parsed URL as far as normalisation looks into it: everything before
      the path (scheme, credentials, host, port), the path, the query, and
      the fragment (`None` when the URL has none). */
  datatype Url = Url(prefix: string, path: string, query: string, fragment: Option<string>)

  /** `new URL(s)`, which fails on a string that is not an absolute URL, and
      `URL.prototype.toString()`. */
  datatype UrlSyntax = UrlSyntax(parse: string -> Option<Url>, serialize: Url -> string)

  /** Serialising a URL and parsing the result gives the same URL back. */
  ghost predicate RoundTrips(syntax: UrlSyntax)
  {
    forall u :: syntax.parse(syntax.serialize(u)) == Some(u)
  }

  // ---------------------------------------------------------------------
  // normalizeUrl
  // ---------------------------------------------------------------------

  /** A path that is not the root path and ends with `/` loses that one
      trailing `/`; any other path stays as it is. */
  function StripTrailingSlash(path: string): (r: string)
    ensures path != "/" && EndsWith(path, "/") ==> r + "/" == path
    ensures !(path != "/" && EndsWith(path, "/")) ==> r == path
  {
    if path != "/" && EndsWith(path, "/") then path[..|path| - 1] else path
  }

  /** `normalizeUrl`: the de-duplication key of `url`.  A string that does
      not parse is its own key; otherwise the fragment is dropped, the path
      loses one trailing slash, and the URL is serialised again. */
  function Normalize(syntax: UrlSyntax, url: string): (key: string)
    ensures syntax.parse(url) == None ==> key == url
  {
    match syntax.parse(url)
    case None => url
    case Some(u) => syntax.serialize(u.(path := StripTrailingSlash(u.path), fragment := None))
  }

  /** What the key is, read back through the parser: the same URL without
      a fragment and with at most one trailing slash removed from a path
      other than `/`. */
  lemma NormalizedKey(syntax: UrlSyntax, url: string)
    requires RoundTrips(syntax) && syntax.parse(url).Some?
    ensures var u := syntax.parse(url).value;
            var k := syntax.parse(Normalize(syntax, url));
            k.Some? && k.value.fragment == None
            && k.value.prefix == u.prefix && k.value.query == u.query
            && (if u.path != "/" && EndsWith(u.path, "/") then k.value.path + "/" == u.path
                else k.value.path == u.path)
  {
    var u := syntax.parse(url).value;
    var v := u.(path := StripTrailingSlash(u.path), fragment := None);
    assert syntax.parse(syntax.serialize(v)) == Some(v);
  }

  /** `…/about/`, `…/about` and `…/about#x` share one key: the URL with
      the trailing slash and the fragment removed. */
  lemma TrailingSlashAndFragmentIgnored(syntax: UrlSyntax, prefix: string, path: string,
                                        query: string, f1: Option<string>, f2: Option<string>)
    requires RoundTrips(syntax)
    requires path != "" && !EndsWith(path, "/")
    ensures Normalize(syntax, syntax.serialize(Url(prefix, path + "/", query, f1)))
         == Normalize(syntax, syntax.serialize(Url(prefix, path, query, f2)))
         == syntax.serialize(Url(prefix, path, query, None))
  {
    var slashed := Url(prefix, path + "/", query, f1);
    var plain := Url(prefix, path, query, f2);
    assert syntax.parse(syntax.serialize(slashed)) == Some(slashed);
    assert syntax.parse(syntax.serialize(plain)) == Some(plain);
    assert (path + "/")[..|path|] == path;
  }

  /** A path ending in two slashes that is longer than `//`. */
  predicate EndsInDoubleSlash(path: string)
  {
    |path| > 2 && EndsWith(path, "//")
  }

  /** Normalising a key again changes it exactly when the parsed path ends
      in `//` and is longer than `//`: `/a//` becomes `/a/` and then `/a`.
      Only one slash is removed per application, so the key is not a fixed
      point in that case. */
  lemma NormalizeIdempotentUnlessDoubleSlash(syntax: UrlSyntax, url: string)
    requires RoundTrips(syntax)
    ensures Normalize(syntax, Normalize(syntax, url)) == Normalize(syntax, url)
            <==> !(syntax.parse(url).Some? && EndsInDoubleSlash(syntax.parse(url).value.path))
  {
    match syntax.parse(url)
    case None =>
    case Some(u) =>
      var v := u.(path := StripTrailingSlash(u.path), fragment := None);
      var w := v.(path := StripTrailingSlash(v.path), fragment := None);
      assert syntax.parse(syntax.serialize(v)) == Some(v);
      assert Normalize(syntax, Normalize(syntax, url)) == syntax.serialize(w);
      assert syntax.parse(syntax.serialize(w)) == Some(w);
      StripTwice(u.path);
      assert w == v <==> w.path == v.path;
  }

  /** Stripping a trailing slash a second time changes the path exactly when
      it ended in two slashes and was longer than `//`. */
  lemma StripTwice(p: string)
    ensures StripTrailingSlash(StripTrailingSlash(p)) == StripTrailingSlash(p)
            <==> !EndsInDoubleSlash(p)
  {
    var q := StripTrailingSlash(p);
    if p != "/" && EndsWith(p, "/") {
      assert q == p[..|p| - 1];
      if EndsInDoubleSlash(p) {
        assert q[|q| - 1] == p[|p| - 2] == '/';
        assert q != "/" && EndsWith(q, "/");
        assert |StripTrailingSlash(q)| < |q|;
      } else if EndsWith(q, "/") {
        assert p[|p| - 2] == q[|q| - 1] == '/';
        assert p[|p| - 2..] == "//";
        assert q == "/";
      }
    } else {
      DoubleSlashEndsWithSlash(p);
    }
  }

  /** A path ending in two slashes is not the root and ends in a slash. */
  lemma DoubleSlashEndsWithSlash(path: string)
    ensures EndsInDoubleSlash(path) ==> path != "/" && EndsWith(path, "/")
  {
    if EndsInDoubleSlash(path) {
      assert path[|path| - 1..] == path[|path| - 2..][1..];
    }
  }

  // ---------------------------------------------------------------------
  // Path segments (`pathname.split('/').filter(Boolean)`)
  // ---------------------------------------------------------------------

  /** The non-empty `/`-separated pieces of a path, in order. */
  function PathSegments(path: string): (segments: seq<string>)
    ensures forall i :: 0 <= i < |segments| ==> segments[i] != "" && '/' !in segments[i]
  {
    NonEmpty(Split(path, '/'))
  }

  /** Cutting a path at one `/` splits its segments there: the segments of
      `a/b` are those of `a` followed by those of `b`. */
  lemma PathSegmentsConcat(a: string, b: string)
    ensures PathSegments(a + "/" + b) == PathSegments(a) + PathSegments(b)
  {
    SplitConcat(a, '/', b);
    NonEmptyConcat(Split(a, '/'), Split(b, '/'));
  }

  /** A piece without `/` is one segment, or none when it is empty. */
  lemma PathSegmentsOfPiece(s: string)
    requires '/' !in s
    ensures PathSegments(s) == if s == "" then [] else [s]
  {
    SplitWithoutSeparator(s, '/');
    NonEmptySingle(s);
  }

  /** The root path has no segment. */
  lemma RootHasNoSegments()
    ensures PathSegments("/") == []
  {
    assert "/" == [] + ['/'] + [];
    SplitAtSeparator([], '/', []);
  }

  /** `/about` and `/about/` are both first-level paths with the one
      segment `about`: the trailing slash adds only an empty piece, which
      the filter drops. */
  lemma FirstLevelSegments(seg: string)
    requires seg != "" && '/' !in seg
    ensures PathSegments("/" + seg) == [seg]
    ensures PathSegments("/" + seg + "/") == [seg]
  {
    assert "/" + seg == [] + ['/'] + seg;
    SplitAtSeparator([], '/', seg);
    SplitWithoutSeparator(seg, '/');
    var one: seq<string> := [[], seg];
    assert Split("/" + seg, '/') == one;
    assert one[1..] == [seg] && one[2..] == [];
    assert NonEmpty(one) == NonEmpty([seg]) == [seg] + NonEmpty([]);
    assert "/" + seg + "/" == [] + ['/'] + (seg + ['/'] + []);
    SplitAtSeparator([], '/', seg + ['/'] + []);
    SplitAtSeparator(seg, '/', []);
    assert Split("/" + seg + "/", '/') == [[], seg, []];
    var parts: seq<string> := [[], seg, []];
    assert parts[1..] == [seg, []] && parts[2..] == [[]] && parts[3..] == [];
    assert NonEmpty(parts) == NonEmpty(parts[1..]) == [seg] + NonEmpty(parts[2..]);
    assert NonEmpty(parts[2..]) == NonEmpty(parts[3..]) == [];
  }

  /** `/services/plumbing` has two segments, so it is not first-level. */
  lemma SecondLevelSegments(a: string, b: string)
    requires a != "" && '/' !in a && b != "" && '/' !in b
    ensures PathSegments("/" + a + "/" + b) == [a, b]
  {
    assert "/" + a + "/" + b == [] + ['/'] + (a + ['/'] + b);
    SplitAtSeparator([], '/', a + ['/'] + b);
    SplitAtSeparator(a, '/', b);
    SplitWithoutSeparator(b, '/');
    var parts: seq<string> := [[], a, b];
    assert Split("/" + a + "/" + b, '/') == parts;
    assert parts[1..] == [a, b] && parts[2..] == [b] && parts[3..] == [];
    assert NonEmpty(parts) == NonEmpty(parts[1..]) == [a] + NonEmpty(parts[2..]);
    assert NonEmpty(parts[2..]) == [b] + NonEmpty(parts[3..]) == [b];
  }

  // ---------------------------------------------------------------------
  // The page and the crawl configuration
  // ---------------------------------------------------------------------

  /** One extracted anchor: its resolved `href` and its trimmed text. */
  datatype TelLink = TelLink(href: string, text: string)

  /** The browser page, seen from the crawler.  `loads(u)`: `page.goto(u)`
      completes without a navigation error; `telAnchors(u)`: what the
      `a[href^="tel:"]` query returns once `u` is loaded; `hrefs(u)`: the
      resolved `href` of every `a[href]` on that page, in document order. */
  datatype Site = Site(loads: string -> bool,
                       telAnchors: string -> seq<TelLink>,
                       hrefs: string -> seq<string>)

  /** The arguments of one `crawlSite` call. */
  datatype CrawlConfig = CrawlConfig(base: string, homepageOnly: bool, topLevelOnly: bool,
                                     site: Site, syntax: UrlSyntax)

  /** The in-page `.filter((href) => href.startsWith(base))`: a plain string
      prefix test, order kept. */
  function InternalLinks(hrefs: seq<string>, base: string): (links: seq<string>)
    ensures forall l :: l in links <==> l in hrefs && StartsWith(l, base)
    ensures |links| <= |hrefs|
  {
    if hrefs == [] then []
    else if StartsWith(hrefs[0], base) then [hrefs[0]] + InternalLinks(hrefs[1..], base)
    else InternalLinks(hrefs[1..], base)
  }

  /** One `href` is kept exactly when it starts with the base URL. */
  lemma InternalLinksSingle(href: string, base: string)
    ensures InternalLinks([href], base) == if StartsWith(href, base) then [href] else []
  {
    assert [href][1..] == [];
  }

  /** The filter distributes over concatenation, so the kept links keep
      their document order and their repetitions. */
  lemma {:induction false} InternalLinksConcat(a: seq<string>, b: seq<string>, base: string)
    ensures InternalLinks(a + b, base) == InternalLinks(a, base) + InternalLinks(b, base)
    decreases |a|
  {
    if a == [] {
      assert a + b == b;
    } else {
      assert (a + b)[0] == a[0] && (a + b)[1..] == a[1..] + b;
      InternalLinksConcat(a[1..], b, base);
    }
  }

  /** A link `crawl` passes on to a recursive `crawl`: it starts with the
      base URL, it parses, and under `topLevelOnly` its path has at most one
      non-empty segment. */
  predicate Followed(cfg: CrawlConfig, link: string)
  {
    StartsWith(link, cfg.base) && cfg.syntax.parse(link).Some?
    && (cfg.topLevelOnly ==> |PathSegments(cfg.syntax.parse(link).value.path)| <= 1)
  }

  /** Every internal link on page `key` parses (otherwise `new URL(link)`
      would have thrown). */
  predicate LinksParse(cfg: CrawlConfig, key: string)
  {
    forall l :: l in cfg.site.hrefs(key) && StartsWith(l, cfg.base) ==> cfg.syntax.parse(l).Some?
  }

  /** `link` parses, and if it is followed its key is in `visited`. */
  predicate LinkDone(cfg: CrawlConfig, link: string, visited: set<string>)
  {
    cfg.syntax.parse(link).Some? && (Followed(cfg, link) ==> Normalize(cfg.syntax, link) in visited)
  }

  /** Every internal link on page `key` parses, and the key of each one that
      is followed is in `visited`. */
  predicate LinksCovered(cfg: CrawlConfig, key: string, visited: set<string>)
  {
    forall l :: l in cfg.site.hrefs(key) && StartsWith(l, cfg.base) ==> LinkDone(cfg, l, visited)
  }

  /** Loading page `key` throws, or (when links are followed) one of its
      internal links does not parse: either ends the whole crawl. */
  predicate PageFails(cfg: CrawlConfig, key: string)
  {
    !cfg.site.loads(key) || (!cfg.homepageOnly && !LinksParse(cfg, key))
  }

  /** `universe` holds the key of the base URL and, unless only the
      homepage is checked, the key of every link followed from one of its
      pages: the part of the site that top-level mode can reach is finite. */
  ghost predicate Closed(cfg: CrawlConfig, universe: set<string>)
  {
    Normalize(cfg.syntax, cfg.base) in universe
    && (!cfg.homepageOnly ==>
          forall k, l :: k in universe && l in cfg.site.hrefs(k) && Followed(cfg, l)
                         ==> Normalize(cfg.syntax, l) in universe)
  }

  /** A JavaScript `Map` from page key to its anchors: `keys` is the
      insertion order that iteration follows. */
  datatype TelLinkMap = TelLinkMap(keys: seq<string>, entries: map<string, seq<TelLink>>)
  {
    ghost predicate WellFormed()
    {
      (forall i, j :: 0 <= i < j < |keys| ==> keys[i] != keys[j])
      && (forall k :: k in entries <==> k in keys)
    }
  }

  /** The keys of `checked`, in order, whose page loaded and shows at least
      one `tel:` anchor: the keys that `telLinks.set` is called with. */
  function WithAnchors(site: Site, checked: seq<string>): seq<string>
  {
    if checked == [] then []
    else
      var last := checked[|checked| - 1];
      WithAnchors(site, checked[..|checked| - 1])
      + (if site.loads(last) && site.telAnchors(last) != [] then [last] else [])
  }

  /** A key is among the keys with anchors exactly when it was checked, its
      page loaded and it shows at least one `tel:` anchor. */
  lemma {:induction false} WithAnchorsMembers(site: Site, checked: seq<string>, k: string)
    ensures k in WithAnchors(site, checked) <==> k in checked && site.loads(k) && site.telAnchors(k) != []
  {
    if checked != [] {
      var init, last := checked[..|checked| - 1], checked[|checked| - 1];
      assert checked == init + [last];
      WithAnchorsMembers(site, init, k);
    }
  }

  /** The keys of `checked`, as a set. */
  ghost function Elems(checked: seq<string>): set<string>
  {
    set k | k in checked
  }

  lemma ElemsAppend(checked: seq<string>, key: string)
    ensures Elems(checked + [key]) == Elems(checked) + {key}
  {
  }

  lemma ElemsGrow(a: seq<string>, b: seq<string>)
    requires a <= b
    ensures Elems(a) <= Elems(b)
  {
    forall k | k in a
      ensures k in b
    {
      var i :| 0 <= i < |a| && a[i] == k;
      assert b[i] == k;
    }
  }

  lemma PrefixTransitive<T>(a: seq<T>, b: seq<T>, c: seq<T>)
    requires a <= b && b <= c
    ensures a <= c
  {
  }

  /** `url` is the base URL (`from < 0`), or a followed link on the page of
      the key `checked[from]`. */
  predicate LinkedFrom(cfg: CrawlConfig, checked: seq<string>, from: int, url: string)
  {
    if from < 0 then url == cfg.base
    else from < |checked| && url in cfg.site.hrefs(checked[from]) && Followed(cfg, url)
  }

  /** The record of a traversal: each key is checked once, the visited set
      is the checked keys, and each key is the key of the base URL or of a
      followed link found on the page of a key checked before it. */
  ghost predicate LogInv(cfg: CrawlConfig, visited: set<string>, checked: seq<string>,
                         checkedFrom: seq<string>, parent: seq<int>)
  {
    (forall i, j :: 0 <= i < j < |checked| ==> checked[i] != checked[j])
    && visited == Elems(checked)
    && |checkedFrom| == |checked| && |parent| == |checked|
    && (forall i :: 0 <= i < |checked| ==>
          checked[i] == Normalize(cfg.syntax, checkedFrom[i])
          && parent[i] < i && LinkedFrom(cfg, checked, parent[i], checkedFrom[i]))
  }

  lemma LinkedFromGrows(cfg: CrawlConfig, checked: seq<string>, checked': seq<string>, from: int, url: string)
    requires checked <= checked' && LinkedFrom(cfg, checked, from, url)
    ensures LinkedFrom(cfg, checked', from, url)
  {
    if from >= 0 {
      assert checked'[from] == checked[from];
    }
  }

  /** Checking one more key, reached from page `from`, keeps the record. */
  lemma LogAppend(cfg: CrawlConfig, visited: set<string>, checked: seq<string>,
                  checkedFrom: seq<string>, parent: seq<int>, url: string, key: string, from: int)
    requires LogInv(cfg, visited, checked, checkedFrom, parent)
    requires key == Normalize(cfg.syntax, url) && key !in visited && LinkedFrom(cfg, checked, from, url)
    ensures LogInv(cfg, visited + {key}, checked + [key], checkedFrom + [url], parent + [from])
  {
    var checked', checkedFrom', parent' := checked + [key], checkedFrom + [url], parent + [from];
    ElemsAppend(checked, key);
    assert key !in checked;
    assert forall i, j :: 0 <= i < j < |checked'| ==> checked'[i] != checked'[j] by {
      forall i, j | 0 <= i < j < |checked'|
        ensures checked'[i] != checked'[j]
      {
        if j == |checked| {
          assert checked'[i] == checked[i] && checked[i] in checked;
        } else {
          assert checked'[i] == checked[i] && checked'[j] == checked[j];
        }
      }
    }
    forall i | 0 <= i < |checked'|
      ensures checked'[i] == Normalize(cfg.syntax, checkedFrom'[i])
              && parent'[i] < i && LinkedFrom(cfg, checked', parent'[i], checkedFrom'[i])
    {
      if i < |checked| {
        assert checked'[i] == checked[i] && checkedFrom'[i] == checkedFrom[i] && parent'[i] == parent[i];
        LinkedFromGrows(cfg, checked, checked', parent[i], checkedFrom[i]);
      } else {
        LinkedFromGrows(cfg, checked, checked', from, url);
      }
    }
  }

  /** What the map holds after visiting `visited`: a key is in it iff its
      page loaded and has a `tel:` anchor, and then it holds exactly those
      anchors. */
  ghost predicate MapInv(site: Site, visited: set<string>, telLinks: map<string, seq<TelLink>>)
  {
    (forall k :: k in telLinks <==> k in visited && site.loads(k) && site.telAnchors(k) != [])
    && (forall k :: k in telLinks ==> telLinks[k] == site.telAnchors(k))
  }

  /** The map's insertion order after the keys `checked`: the order in which
      the pages with anchors were checked. */
  ghost predicate OrderInv(site: Site, checked: seq<string>, telLinks: map<string, seq<TelLink>>,
                           order: seq<string>)
  {
    TelLinkMap(order, telLinks).WellFormed() && order == WithAnchors(site, checked)
  }

  /** Checking one more key stores its anchors exactly when its page loaded
      and has some. */
  lemma MapAppend(site: Site, visited: set<string>, telLinks: map<string, seq<TelLink>>, key: string)
    requires MapInv(site, visited, telLinks)
    ensures var hit := site.loads(key) && site.telAnchors(key) != [];
            MapInv(site, visited + {key}, if hit then telLinks[key := site.telAnchors(key)] else telLinks)
  {
  }

  /** Checking one more key, not in the map, puts it at the end of the order
      exactly when its page loaded and has anchors. */
  lemma OrderAppend(site: Site, checked: seq<string>, telLinks: map<string, seq<TelLink>>,
                    order: seq<string>, key: string)
    requires OrderInv(site, checked, telLinks, order) && key !in telLinks
    ensures var hit := site.loads(key) && site.telAnchors(key) != [];
            OrderInv(site, checked + [key],
                     if hit then telLinks[key := site.telAnchors(key)] else telLinks,
                     if hit then order + [key] else order)
  {
    WithAnchorsAppend(site, checked, key);
    if site.loads(key) && site.telAnchors(key) != [] {
      var order' := order + [key];
      var telLinks' := telLinks[key := site.telAnchors(key)];
      assert key !in order;
      assert forall i, j :: 0 <= i < j < |order'| ==> order'[i] != order'[j] by {
        forall i, j | 0 <= i < j < |order'|
          ensures order'[i] != order'[j]
        {
          assert order'[i] == order[i] && order[i] in order;
          if j < |order| {
            assert order'[j] == order[j];
          }
        }
      }
      assert forall k :: k in telLinks' <==> k in order';
    }
  }

  /** One admission as a whole: the record, the map and its order all hold
      for the state after checking `key`, given as `visited'` … `order'`. */
  lemma AdmitStep(cfg: CrawlConfig, universe: set<string>, url: string, key: string, from: int,
                  visited: set<string>, checked: seq<string>, checkedFrom: seq<string>, parent: seq<int>,
                  telLinks: map<string, seq<TelLink>>, order: seq<string>,
                  visited': set<string>, checked': seq<string>, checkedFrom': seq<string>, parent': seq<int>,
                  telLinks': map<string, seq<TelLink>>, order': seq<string>)
    requires visited <= universe && LogInv(cfg, visited, checked, checkedFrom, parent)
    requires MapInv(cfg.site, visited, telLinks) && OrderInv(cfg.site, checked, telLinks, order)
    requires key == Normalize(cfg.syntax, url) && key !in visited && key in universe
    requires LinkedFrom(cfg, checked, from, url)
    requires visited' == visited + {key} && checked' == checked + [key]
    requires checkedFrom' == checkedFrom + [url] && parent' == parent + [from]
    requires var hit := cfg.site.loads(key) && cfg.site.telAnchors(key) != [];
             telLinks' == (if hit then telLinks[key := cfg.site.telAnchors(key)] else telLinks)
             && order' == (if hit then order + [key] else order)
    ensures visited' <= universe && LogInv(cfg, visited', checked', checkedFrom', parent')
    ensures MapInv(cfg.site, visited', telLinks') && OrderInv(cfg.site, checked', telLinks', order')
  {
    LogAppend(cfg, visited, checked, checkedFrom, parent, url, key, from);
    MapAppend(cfg.site, visited, telLinks, key);
    OrderAppend(cfg.site, checked, telLinks, order, key);
  }

  /** Checking one more key adds it at the end of the keys with anchors
      exactly when its page loaded and has some. */
  lemma WithAnchorsAppend(site: Site, checked: seq<string>, key: string)
    ensures WithAnchors(site, checked + [key])
            == WithAnchors(site, checked)
               + (if site.loads(key) && site.telAnchors(key) != [] then [key] else [])
  {
    assert (checked + [key])[..|checked|] == checked;
  }

  // ---------------------------------------------------------------------
  // The traversal as a function of what was checked before it
  // ---------------------------------------------------------------------

  /** Where a traversal stands: the keys checked so far, in order, and
      whether it goes on (`ok`) or an exception has escaped. */
  datatype Trace = Trace(ok: bool, checked: seq<string>)

  /** `crawl(url)` after the keys `checked`: a key checked before changes
      nothing; any other key is checked next and its page visited. */
  ghost function CrawlTrace(cfg: CrawlConfig, universe: set<string>, checked: seq<string>,
                            url: string): (t: Trace)
    requires Closed(cfg, universe) && Elems(checked) <= universe
    requires Normalize(cfg.syntax, url) in universe
    ensures checked <= t.checked && Elems(t.checked) <= universe
    decreases universe - Elems(checked), 1, 0
  {
    var key := Normalize(cfg.syntax, url);
    if key in checked then Trace(true, checked)
    else
      ElemsAppend(checked, key);
      var t := VisitTrace(cfg, universe, checked + [key]);
      PrefixTransitive(checked, checked + [key], t.checked);
      t
  }

  /** A URL reached from a checked page, or the base URL, has its key in a
      closed universe. */
  lemma LinkedKeyInUniverse(cfg: CrawlConfig, universe: set<string>, checked: seq<string>,
                            from: int, url: string)
    requires Closed(cfg, universe) && Elems(checked) <= universe
    requires LinkedFrom(cfg, checked, from, url) && (from >= 0 ==> !cfg.homepageOnly)
    ensures Normalize(cfg.syntax, url) in universe
  {
    if from >= 0 {
      assert checked[from] in Elems(checked);
    }
  }

  /** The rest of `crawl` once the last key of `checked` is in the visited
      set: a page that does not load ends the traversal, homepage-only mode
      stops there, and otherwise the page's internal links are handled in
      document order. */
  ghost function VisitTrace(cfg: CrawlConfig, universe: set<string>, checked: seq<string>): (t: Trace)
    requires Closed(cfg, universe) && checked != [] && Elems(checked) <= universe
    ensures checked <= t.checked && Elems(t.checked) <= universe
    decreases universe - Elems(checked), 4, 0
  {
    var key := checked[|checked| - 1];
    assert key in Elems(checked);
    if !cfg.site.loads(key) then Trace(false, checked)
    else if cfg.homepageOnly then Trace(true, checked)
    else LinksTrace(cfg, universe, checked, key, InternalLinks(cfg.site.hrefs(key), cfg.base))
  }

  /** The loop over the internal links of page `key`: one link after the
      other, until one of them ends the traversal. */
  ghost function LinksTrace(cfg: CrawlConfig, universe: set<string>, checked: seq<string>,
                            key: string, links: seq<string>): (t: Trace)
    requires Closed(cfg, universe) && !cfg.homepageOnly && Elems(checked) <= universe && key in universe
    requires forall l :: l in links ==> l in cfg.site.hrefs(key) && StartsWith(l, cfg.base)
    ensures checked <= t.checked && Elems(t.checked) <= universe
    decreases universe - Elems(checked), 3, |links|
  {
    if links == [] then Trace(true, checked)
    else
      var t := LinkTrace(cfg, universe, checked, key, links[0]);
      if !t.ok then t
      else
        ElemsGrow(checked, t.checked);
        var t' := LinksTrace(cfg, universe, t.checked, key, links[1..]);
        PrefixTransitive(checked, t.checked, t'.checked);
        t'
  }

  /** One internal link of page `key`: one that does not parse ends the
      traversal, top-level mode skips one whose path has more than one
      segment, and any other is crawled. */
  ghost function LinkTrace(cfg: CrawlConfig, universe: set<string>, checked: seq<string>,
                           key: string, link: string): (t: Trace)
    requires Closed(cfg, universe) && !cfg.homepageOnly && Elems(checked) <= universe && key in universe
    requires link in cfg.site.hrefs(key) && StartsWith(link, cfg.base)
    ensures checked <= t.checked && Elems(t.checked) <= universe
    decreases universe - Elems(checked), 2, 0
  {
    match cfg.syntax.parse(link)
    case None => Trace(false, checked)
    case Some(u) =>
      if cfg.topLevelOnly && |PathSegments(u.path)| > 1 then Trace(true, checked)
      else
        assert Followed(cfg, link);
        CrawlTrace(cfg, universe, checked, link)
  }

  // ---------------------------------------------------------------------
  // The crawl state: `visitedUrls`, `telLinks`, `crawl`, `extractTelLinks`
  // ---------------------------------------------------------------------

  class SiteCrawler {
    const cfg: CrawlConfig
    /** A finite set of keys closed under following links. */
    ghost const universe: set<string>

    var visitedUrls: set<string>
    var telLinks: map<string, seq<TelLink>>
    /** The insertion order of `telLinks`. */
    var telLinkOrder: seq<string>

    /** The argument of every `extractTelLinks` call so far, in order. */
    ghost var checked: seq<string>
    /** For each entry of `checked`, the URL that `crawl` was given. */
    ghost var checkedFrom: seq<string>
    /** For each entry of `checked`, the index of the earlier entry whose
        page held the link, or -1 for the base URL. */
    ghost var parent: seq<int>

    ghost predicate LogValid()
      reads this
    {
      LogInv(cfg, visitedUrls, checked, checkedFrom, parent)
    }

    ghost predicate ResultValid()
      reads this
    {
      MapInv(cfg.site, visitedUrls, telLinks) && OrderInv(cfg.site, checked, telLinks, telLinkOrder)
    }

    ghost predicate Valid()
      reads this
    {
      visitedUrls <= universe && LogValid() && ResultValid()
    }

    /** The fresh `visitedUrls` and `telLinks` of one `crawlSite` call. */
    constructor (cfg: CrawlConfig, ghost universe: set<string>)
      ensures this.cfg == cfg && this.universe == universe && Valid()
      ensures visitedUrls == {} && telLinks == map[] && telLinkOrder == []
      ensures checked == []
    {
      this.cfg := cfg;
      this.universe := universe;
      visitedUrls := {};
      telLinks := map[];
      telLinkOrder := [];
      checked := [];
      checkedFrom := [];
      parent := [];
      assert Elems([]) == {};
    }

    /** `extractTelLinks(url)`: load the page, and record its `tel:` anchors
        under `url` when there is at least one.  `loaded` is false when the
        navigation throws, in which case nothing is recorded. */
    method ExtractTelLinks(url: string) returns (loaded: bool)
      modifies this`telLinks, this`telLinkOrder, this`checked
      ensures checked == old(checked) + [url]
      ensures loaded == cfg.site.loads(url)
      ensures loaded && cfg.site.telAnchors(url) != [] ==>
                telLinks == old(telLinks)[url := cfg.site.telAnchors(url)]
                && telLinkOrder == if url in old(telLinks) then old(telLinkOrder)
                                   else old(telLinkOrder) + [url]
      ensures !(loaded && cfg.site.telAnchors(url) != []) ==>
                telLinks == old(telLinks) && telLinkOrder == old(telLinkOrder)
    {
      checked := checked + [url];
      loaded := cfg.site.loads(url);
      if !loaded {
        return;
      }
      var links := cfg.site.telAnchors(url);
      if |links| > 0 {
        if url !in telLinks {
          telLinkOrder := telLinkOrder + [url];
        }
        telLinks := telLinks[url := links];
      }
    }

    /** The first half of `crawl(url)` for a key not yet visited: insert it
        into `visitedUrls`, then extract the page's `tel:` anchors.  Nothing
        is awaited between the membership test and the insertion.  `from`
        names the page the URL was found on. */
    method Admit(url: string, key: string, ghost from: int) returns (loaded: bool)
      requires Valid() && key == Normalize(cfg.syntax, url) && key !in visitedUrls
      requires key in universe && LinkedFrom(cfg, checked, from, url)
      modifies this`visitedUrls, this`telLinks, this`telLinkOrder, this`checked,
               this`checkedFrom, this`parent
      ensures Valid()
      ensures visitedUrls == old(visitedUrls) + {key} && loaded == cfg.site.loads(key)
      ensures checked == old(checked) + [key]
      ensures loaded && cfg.site.telAnchors(key) != [] ==>
                telLinks == old(telLinks)[key := cfg.site.telAnchors(key)]
                && telLinkOrder == old(telLinkOrder) + [key]
      ensures !(loaded && cfg.site.telAnchors(key) != []) ==>
                telLinks == old(telLinks) && telLinkOrder == old(telLinkOrder)
    {
      assert key !in telLinks;
      visitedUrls := visitedUrls + {key};
      loaded := ExtractTelLinks(key);
      checkedFrom := checkedFrom + [url];
      parent := parent + [from];
      AdmitStep(cfg, universe, url, key, from,
                old(visitedUrls), old(checked), old(checkedFrom), old(parent), old(telLinks), old(telLinkOrder),
                visitedUrls, checked, checkedFrom, parent, telLinks, telLinkOrder);
    }

    /** `crawl(url)`: a URL whose key was visited before is skipped, any
        other is visited.  `ok` is false when an exception escapes: a
        navigation error or an internal link that does not parse.  Nothing
        catches it, so it ends the whole traversal.  `from` names the page
        the URL was found on, or is -1 for the base URL. */
    method Crawl(url: string, ghost from: int) returns (ok: bool, ghost culprit: string)
      requires Closed(cfg, universe) && Valid()
      requires LinkedFrom(cfg, checked, from, url)
      // follows from the two above for every caller (`LinkedKeyInUniverse`)
      requires Normalize(cfg.syntax, url) in universe
      modifies this
      decreases universe - visitedUrls, 1
      ensures Valid()
      // the keys checked, in order, and the outcome are those of the traversal
      ensures Trace(ok, checked) == CrawlTrace(cfg, universe, old(checked), url)
      ensures old(visitedUrls) <= visitedUrls && Normalize(cfg.syntax, url) in visitedUrls
      // a key already visited: nothing is loaded and nothing changes
      ensures Normalize(cfg.syntax, url) in old(visitedUrls) ==>
                ok && visitedUrls == old(visitedUrls) && checked == old(checked)
                && telLinks == old(telLinks) && telLinkOrder == old(telLinkOrder)
      ensures Normalize(cfg.syntax, url) !in old(visitedUrls) ==>
                old(checked) + [Normalize(cfg.syntax, url)] <= checked
      // homepage-only: at most the one page is loaded
      ensures cfg.homepageOnly ==> |checked| <= |old(checked)| + 1
      // no failure isolation: every newly visited page loaded, or the crawl failed
      ensures ok ==> forall k :: k in visitedUrls - old(visitedUrls) ==> cfg.site.loads(k)
      ensures ok && !cfg.homepageOnly ==>
                forall k :: k in visitedUrls - old(visitedUrls) ==> LinksCovered(cfg, k, visitedUrls)
      ensures !ok ==> culprit in visitedUrls - old(visitedUrls) && PageFails(cfg, culprit)
    {
      var key := Normalize(cfg.syntax, url);
      if key in visitedUrls {
        assert key in checked;
        return true, key;
      }
      ok, culprit := Visit(url, key, from);
    }

    /** The body of `crawl(url)` for a key not yet visited: admit it, and
        unless `homepageOnly` is set, follow the page's internal links. */
    method Visit(url: string, key: string, ghost from: int) returns (ok: bool, ghost culprit: string)
      requires Closed(cfg, universe) && Valid()
      requires key == Normalize(cfg.syntax, url) && key in universe && key !in visitedUrls
      requires LinkedFrom(cfg, checked, from, url)
      modifies this
      decreases universe - visitedUrls, 0
      ensures Valid()
      ensures Trace(ok, checked) == VisitTrace(cfg, universe, old(checked) + [key])
      ensures old(visitedUrls) + {key} <= visitedUrls
      ensures old(checked) + [key] <= checked
      ensures cfg.homepageOnly ==> checked == old(checked) + [key]
      ensures ok ==> forall k :: k in visitedUrls - old(visitedUrls) ==> cfg.site.loads(k)
      ensures ok && !cfg.homepageOnly ==>
                forall k :: k in visitedUrls - old(visitedUrls) ==> LinksCovered(cfg, k, visitedUrls)
      ensures !ok ==> culprit in visitedUrls - old(visitedUrls) && PageFails(cfg, culprit)
    {
      culprit := key;
      ghost var at := |checked|;
      ok := Admit(url, key, from);
      if ok && !cfg.homepageOnly {
        var internalLinks := InternalLinks(cfg.site.hrefs(key), cfg.base);
        ghost var admitted := visitedUrls;
        ghost var admittedChecked := checked;
        ok, culprit := FollowLinks(key, at, internalLinks);
        PrefixTransitive(old(checked) + [key], admittedChecked, checked);
        if ok {
          PageDone(cfg, key, internalLinks, old(visitedUrls), admitted, visitedUrls);
        }
      }
    }

    /** The loop over the internal links of page `key`, the key checked at
        index `at`, in document order; the first exception ends it. */
    method FollowLinks(key: string, ghost at: nat, links: seq<string>) returns (ok: bool, ghost culprit: string)
      requires Closed(cfg, universe) && Valid() && !cfg.homepageOnly
      requires at < |checked| && checked[at] == key
      requires forall l :: l in links ==> l in cfg.site.hrefs(key) && StartsWith(l, cfg.base)
      modifies this
      decreases universe - visitedUrls, 3
      ensures Valid()
      ensures Trace(ok, checked) == LinksTrace(cfg, universe, old(checked), key, links)
      ensures old(visitedUrls) <= visitedUrls
      ensures old(checked) <= checked
      ensures ok ==> forall l :: l in links ==> LinkDone(cfg, l, visitedUrls)
      ensures ok ==> forall k :: k in visitedUrls - old(visitedUrls) ==>
                       cfg.site.loads(k) && LinksCovered(cfg, k, visitedUrls)
      ensures !ok ==> (culprit == key || culprit in visitedUrls - old(visitedUrls))
                      && PageFails(cfg, culprit)
    {
      culprit := key;
      ok := true;
      var i := 0;
      assert links[i..] == links;
      while i < |links| && ok
        invariant 0 <= i <= |links|
        invariant Valid()
        invariant at < |checked| && checked[at] == key
        invariant old(visitedUrls) <= visitedUrls
        invariant old(checked) <= checked
        invariant LinksTrace(cfg, universe, old(checked), key, links)
                  == if ok then LinksTrace(cfg, universe, checked, key, links[i..])
                     else Trace(false, checked)
        invariant ok ==> forall k :: k in visitedUrls - old(visitedUrls) ==>
                           cfg.site.loads(k) && LinksCovered(cfg, k, visitedUrls)
        invariant ok ==> forall j :: 0 <= j < i ==> LinkDone(cfg, links[j], visitedUrls)
        invariant !ok ==> (culprit == key || culprit in visitedUrls - old(visitedUrls))
                          && PageFails(cfg, culprit)
      {
        ghost var before := visitedUrls;
        ghost var beforeChecked := checked;
        assert links[i] in links;
        assert links[i..][0] == links[i] && links[i..][1..] == links[i + 1..];
        ok, culprit := FollowLink(key, at, links[i]);
        PrefixTransitive(old(checked), beforeChecked, checked);
        if ok {
          FollowStep(cfg, links, i, old(visitedUrls), before, visitedUrls);
        }
        i := i + 1;
      }
    }

    /** One turn of the loop over the internal links of page `key`: parse
        the link (`new URL(link)` throws when it does not parse), skip it
        under `topLevelOnly` when its path has more than one non-empty
        segment, and otherwise `crawl` it. */
    method FollowLink(key: string, ghost at: nat, link: string) returns (ok: bool, ghost culprit: string)
      requires Closed(cfg, universe) && Valid() && !cfg.homepageOnly
      requires at < |checked| && checked[at] == key
      requires link in cfg.site.hrefs(key) && StartsWith(link, cfg.base)
      modifies this
      decreases universe - visitedUrls, 2
      ensures Valid()
      ensures Trace(ok, checked) == LinkTrace(cfg, universe, old(checked), key, link)
      ensures old(visitedUrls) <= visitedUrls
      ensures old(checked) <= checked
      // a link that does not parse fails, one that is skipped succeeds; neither changes anything
      ensures cfg.syntax.parse(link).None? || !Followed(cfg, link) ==>
                ok == cfg.syntax.parse(link).Some?
                && visitedUrls == old(visitedUrls) && checked == old(checked)
                && telLinks == old(telLinks) && telLinkOrder == old(telLinkOrder)
      ensures ok ==> LinkDone(cfg, link, visitedUrls)
      ensures ok ==> forall k :: k in visitedUrls - old(visitedUrls) ==>
                       cfg.site.loads(k) && LinksCovered(cfg, k, visitedUrls)
      ensures !ok ==> (culprit == key || culprit in visitedUrls - old(visitedUrls))
                      && PageFails(cfg, culprit)
    {
      culprit := key;
      var linkUrl := cfg.syntax.parse(link);
      if linkUrl.None? {
        return false, culprit;
      }
      var pathSegments := PathSegments(linkUrl.value.path);
      if cfg.topLevelOnly && |pathSegments| > 1 {
        return true, culprit;
      }
      LinkedKeyInUniverse(cfg, universe, checked, at, link);
      ok, culprit := Crawl(link, at);
    }
  }

  /** After the loop over its links, a freshly admitted page that loaded
      has its links covered, and so has every page visited during the loop. */
  lemma PageDone(cfg: CrawlConfig, key: string, links: seq<string>,
                 start: set<string>, admitted: set<string>, after: set<string>)
    requires admitted == start + {key} && admitted <= after && cfg.site.loads(key)
    requires links == InternalLinks(cfg.site.hrefs(key), cfg.base)
    requires forall l :: l in links ==> LinkDone(cfg, l, after)
    requires forall k :: k in after - admitted ==> cfg.site.loads(k) && LinksCovered(cfg, k, after)
    ensures forall k :: k in after - start ==> cfg.site.loads(k) && LinksCovered(cfg, k, after)
  {
    assert LinksCovered(cfg, key, after);
    forall k | k in after - start
      ensures cfg.site.loads(k) && LinksCovered(cfg, k, after)
    {
      if k != key {
        assert k in after - admitted;
      }
    }
  }

  /** One turn of the link loop keeps its two invariants: the pages visited
      since the loop began loaded and have their links covered, and every link
      handled so far is done. */
  lemma FollowStep(cfg: CrawlConfig, links: seq<string>, i: nat,
                   start: set<string>, before: set<string>, after: set<string>)
    requires start <= before <= after && i < |links|
    requires forall k :: k in before - start ==> cfg.site.loads(k) && LinksCovered(cfg, k, before)
    requires forall k :: k in after - before ==> cfg.site.loads(k) && LinksCovered(cfg, k, after)
    requires forall j :: 0 <= j < i ==> LinkDone(cfg, links[j], before)
    requires LinkDone(cfg, links[i], after)
    ensures forall k :: k in after - start ==> cfg.site.loads(k) && LinksCovered(cfg, k, after)
    ensures forall j :: 0 <= j < i + 1 ==> LinkDone(cfg, links[j], after)
  {
    CoveredGrows(cfg, before - start, before, after);
    forall j | 0 <= j < i + 1
      ensures LinkDone(cfg, links[j], after)
    {
      if j < i {
        LinkDoneGrows(cfg, links[j], before, after);
      }
    }
  }

  /** A page whose followed links all have their keys in a visited set keeps
      that property as the set grows. */
  lemma CoveredGrows(cfg: CrawlConfig, keys: set<string>, visited: set<string>, visited': set<string>)
    requires visited <= visited'
    requires forall k :: k in keys ==> LinksCovered(cfg, k, visited)
    ensures forall k :: k in keys ==> LinksCovered(cfg, k, visited')
  {
  }

  lemma LinkDoneGrows(cfg: CrawlConfig, link: string, visited: set<string>, visited': set<string>)
    requires visited <= visited' && LinkDone(cfg, link, visited)
    ensures LinkDone(cfg, link, visited')
  {
  }

  /** Outcome of a `crawlSite` call: the returned map, or the exception that
      escaped from a navigation or a link that did not parse. */
  datatype CrawlOutcome = Completed(links: TelLinkMap) | Failed

  /** `crawlSite`.  The traversal is seeded only under `topLevelOnly`; in
      every other mode nothing is fetched and the map comes back empty.
      `checked` is the sequence of keys handed to `extractTelLinks`, in
      order; on a failure it ends with the key whose navigation threw. */
  method CrawlSite(cfg: CrawlConfig, ghost universe: set<string>)
    returns (outcome: CrawlOutcome, ghost checked: seq<string>)
    requires cfg.topLevelOnly ==> Closed(cfg, universe)
    ensures !cfg.topLevelOnly ==> outcome == Completed(TelLinkMap([], map[])) && checked == []
    // in top-level mode: exactly the pages, order and outcome of `crawl(baseUrl)`
    ensures cfg.topLevelOnly ==>
              Trace(outcome.Completed?, checked) == CrawlTrace(cfg, universe, [], cfg.base)
    ensures cfg.topLevelOnly ==> |checked| >= 1 && checked[0] == Normalize(cfg.syntax, cfg.base)
    ensures cfg.homepageOnly ==> |checked| <= 1
    ensures forall i, j :: 0 <= i < j < |checked| ==> checked[i] != checked[j]
    // every key but the base URL's comes from a followed link on a page checked before it
    ensures forall i :: 0 <= i < |checked| ==>
              checked[i] == Normalize(cfg.syntax, cfg.base)
              || exists j, l :: 0 <= j < i && l in cfg.site.hrefs(checked[j]) && Followed(cfg, l)
                                && checked[i] == Normalize(cfg.syntax, l)
    ensures outcome.Completed? ==>
              outcome.links.WellFormed()
              && outcome.links.keys == WithAnchors(cfg.site, checked)
              && (forall k :: k in outcome.links.entries <==> k in checked && cfg.site.telAnchors(k) != [])
              && (forall k :: k in outcome.links.entries ==> outcome.links.entries[k] == cfg.site.telAnchors(k))
              && (forall k :: k in checked ==> cfg.site.loads(k))
    ensures outcome.Completed? && !cfg.homepageOnly ==>
              forall k :: k in checked ==> LinksCovered(cfg, k, Elems(checked))
    ensures outcome.Failed? ==>
              cfg.topLevelOnly
              && (exists k :: k in checked && PageFails(cfg, k))
  {
    var crawler := new SiteCrawler(cfg, universe);
    if cfg.topLevelOnly {
      var ok, culprit := crawler.Crawl(cfg.base, -1);
      checked := crawler.checked;
      KeysReached(cfg, crawler.visitedUrls, checked, crawler.checkedFrom, crawler.parent);
      if !ok {
        return Failed, checked;
      }
      assert crawler.visitedUrls - {} == Elems(checked);
    }
    outcome := Completed(TelLinkMap(crawler.telLinkOrder, crawler.telLinks));
    checked := crawler.checked;
    MapOfRecord(cfg.site, crawler.visitedUrls, checked, crawler.telLinks, crawler.telLinkOrder);
  }

  /** The map read off a record: its keys, in order, are the checked keys
      whose page loaded and has anchors, and each holds all of them. */
  lemma MapOfRecord(site: Site, visited: set<string>, checked: seq<string>,
                    telLinks: map<string, seq<TelLink>>, order: seq<string>)
    requires MapInv(site, visited, telLinks) && OrderInv(site, checked, telLinks, order)
    requires visited == Elems(checked)
    requires forall k :: k in checked ==> site.loads(k)
    ensures var m := TelLinkMap(order, telLinks);
            m.WellFormed() && m.keys == WithAnchors(site, checked)
            && (forall k :: k in m.entries <==> k in checked && site.telAnchors(k) != [])
            && (forall k :: k in m.entries ==> m.entries[k] == site.telAnchors(k))
  {
  }

  /** Every key of the record but the base URL's is the key of a followed
      link on the page of a key checked before it. */
  lemma KeysReached(cfg: CrawlConfig, visited: set<string>, checked: seq<string>,
                    checkedFrom: seq<string>, parent: seq<int>)
    requires LogInv(cfg, visited, checked, checkedFrom, parent)
    ensures forall i :: 0 <= i < |checked| ==>
              checked[i] == Normalize(cfg.syntax, cfg.base)
              || exists j, l :: 0 <= j < i && l in cfg.site.hrefs(checked[j]) && Followed(cfg, l)
                                && checked[i] == Normalize(cfg.syntax, l)
  {
    forall i | 0 <= i < |checked| && checked[i] != Normalize(cfg.syntax, cfg.base)
      ensures exists j, l :: 0 <= j < i && l in cfg.site.hrefs(checked[j]) && Followed(cfg, l)
                             && checked[i] == Normalize(cfg.syntax, l)
    {
      var j, l := parent[i], checkedFrom[i];
      assert LinkedFrom(cfg, checked, j, l);
    }
  }
}
