/**
 * `apps/docs/verify-routes.js`: every `_meta.json` under `content` is
 * walked to list the site's routes, duplicates are dropped, and each
 * route is requested in batches of five; the run succeeds when every
 * request answers 200.
 *
 * The directory tree is a value (`Dir`); the HTTP request is a function
 * `probe` from a URL to a status, or `None` when the request fails.
 */
module VerifyRoutes {
  import opened Options
  import opened Meta

  const DocsPrefix: string := "/docs"
  const Concurrency: nat := 5

  /**
   * A directory under `content`: its `_meta.json` entries (`None` when the
   * file is missing or does not parse), its subdirectories by name, and
   * the names of its files.
   */
  datatype Dir = Dir(meta: Option<seq<(string, Value)>>, subdirs: seq<(string, Dir)>, files: set<string>)

  datatype Kind = Directory | Page

  datatype Route = Route(url: string, title: Value, kind: Kind)

  // ---------------------------------------------------------------------
  // Collecting the routes
  // ---------------------------------------------------------------------

  /** The position of the subdirectory called `name`. */
  function FindSubdir(subs: seq<(string, Dir)>, name: string): (r: Option<nat>)
    ensures r.Some? ==> r.value < |subs| && subs[r.value].0 == name
    ensures r.None? ==> forall i :: 0 <= i < |subs| ==> subs[i].0 != name
  {
    if subs == [] then None
    else if subs[0].0 == name then Some(0)
    else match FindSubdir(subs[1..], name)
      case None => None
      case Some(i) => Some(i + 1)
  }

  /** The route path of `slug`: `/slug` at the root, `prefix/slug` below it. */
  function RoutePath(prefix: string, slug: string): (r: string)
    ensures prefix <= r
    ensures prefix == "" ==> r == "/" + slug
  {
    if prefix == "" then "/" + slug else prefix + "/" + slug
  }

  /**
   * The routes of one meta entry: none for an object title; a directory
   * route followed by everything below it; or a page route when a `.mdx`
   * or `.md` file backs the slug or the slug is `index`, which stands for
   * the directory itself.
   */
  function EntryRoutes(d: Dir, prefix: string, e: (string, Value)): seq<Route>
    decreases d, 0
  {
    if IsJsObject(e.1) then []
    else
      var path := RoutePath(prefix, e.0);
      match FindSubdir(d.subdirs, e.0)
      case Some(j) =>
        assert d.subdirs[j] in d.subdirs;
        [Route(DocsPrefix + path, e.1, Directory)] + Scan(d.subdirs[j].1, path)
      case None =>
        if e.0 + ".mdx" in d.files || e.0 + ".md" in d.files || e.0 == "index" then
          [Route(if e.0 == "index" then DocsPrefix + prefix else DocsPrefix + path, e.1, Page)]
        else []
  }

  /** The routes of the first `n` meta entries, in order. */
  function EntriesUpTo(d: Dir, prefix: string, n: nat): seq<Route>
    requires d.meta.Some? && n <= |d.meta.value|
    decreases d, 1, n
  {
    if n == 0 then [] else EntriesUpTo(d, prefix, n - 1) + EntryRoutes(d, prefix, d.meta.value[n - 1])
  }

  /** `scanDir`: the routes of a directory, in meta order, each directory before its contents. */
  function Scan(d: Dir, prefix: string): seq<Route>
    decreases d, 2
  {
    if d.meta.None? then [] else EntriesUpTo(d, prefix, |d.meta.value|)
  }

  /** What a route of `Scan(d, prefix)` looks like: under the prefix, and titled by a non-object. */
  predicate Under(r: Route, prefix: string)
  {
    DocsPrefix + prefix <= r.url && !IsJsObject(r.title)
  }

  lemma {:induction false} ScanUnder(d: Dir, prefix: string)
    ensures forall r :: r in Scan(d, prefix) ==> Under(r, prefix)
    decreases d, 2
  {
    if d.meta.Some? {
      EntriesUnder(d, prefix, |d.meta.value|);
    }
  }

  lemma {:induction false} EntriesUnder(d: Dir, prefix: string, n: nat)
    requires d.meta.Some? && n <= |d.meta.value|
    ensures forall r :: r in EntriesUpTo(d, prefix, n) ==> Under(r, prefix)
    decreases d, 1, n
  {
    if n > 0 {
      EntriesUnder(d, prefix, n - 1);
      EntryUnder(d, prefix, d.meta.value[n - 1]);
    }
  }

  /** Every route of an entry lies under the directory's prefix and has a title that is not an object. */
  lemma {:induction false} EntryUnder(d: Dir, prefix: string, e: (string, Value))
    ensures forall r :: r in EntryRoutes(d, prefix, e) ==> Under(r, prefix)
    decreases d, 0
  {
    if !IsJsObject(e.1) {
      var path := RoutePath(prefix, e.0);
      PrefixGrows(DocsPrefix, prefix, path);
      match FindSubdir(d.subdirs, e.0)
      case Some(j) =>
        assert d.subdirs[j] in d.subdirs;
        ScanUnder(d.subdirs[j].1, path);
        forall r | r in Scan(d.subdirs[j].1, path) ensures Under(r, prefix) {
          PrefixTrans(DocsPrefix + prefix, DocsPrefix + path, r.url);
        }
      case None =>
    }
  }

  /** The routes of each of the first `n` entries are among the routes of those entries. */
  lemma {:induction false} EntriesContain(d: Dir, prefix: string, n: nat, k: nat)
    requires d.meta.Some? && k < n <= |d.meta.value|
    ensures forall r :: r in EntryRoutes(d, prefix, d.meta.value[k]) ==> r in EntriesUpTo(d, prefix, n)
  {
    if k < n - 1 {
      EntriesContain(d, prefix, n - 1, k);
    }
  }

  /** The URL of a page entry: the directory's own for `index`, the entry's path otherwise. */
  function PageUrl(prefix: string, slug: string): string
  {
    if slug == "index" then DocsPrefix + prefix else DocsPrefix + RoutePath(prefix, slug)
  }

  /**
   * A meta entry with a plain title and no directory of its name is
   * listed as a page exactly when a `.mdx` or `.md` file backs it or it is
   * `index`.
   */
  lemma PageListed(d: Dir, prefix: string, k: nat)
    requires d.meta.Some? && k < |d.meta.value|
    requires var e := d.meta.value[k]; !IsJsObject(e.1) && FindSubdir(d.subdirs, e.0).None?
    ensures var e := d.meta.value[k];
      (e.0 + ".mdx" in d.files || e.0 + ".md" in d.files || e.0 == "index") <==>
      EntryRoutes(d, prefix, e) == [Route(PageUrl(prefix, e.0), e.1, Page)]
    ensures var e := d.meta.value[k];
      (e.0 + ".mdx" in d.files || e.0 + ".md" in d.files || e.0 == "index") ==> Route(PageUrl(prefix, e.0), e.1, Page) in Scan(d, prefix)
  {
    EntriesContain(d, prefix, |d.meta.value|, k);
  }

  /**
   * A meta entry with a plain title naming a subdirectory is listed as a
   * directory, and everything below it follows.
   */
  lemma DirListed(d: Dir, prefix: string, k: nat)
    requires d.meta.Some? && k < |d.meta.value|
    requires var e := d.meta.value[k]; !IsJsObject(e.1) && FindSubdir(d.subdirs, e.0).Some?
    ensures var e := d.meta.value[k]; var path := RoutePath(prefix, e.0);
      var sub := d.subdirs[FindSubdir(d.subdirs, e.0).value].1;
      Route(DocsPrefix + path, e.1, Directory) in Scan(d, prefix) && forall r :: r in Scan(sub, path) ==> r in Scan(d, prefix)
  {
    EntriesContain(d, prefix, |d.meta.value|, k);
  }

  lemma PrefixGrows(a: string, b: string, c: string)
    requires b <= c
    ensures a + b <= a + c
  {
    assert (a + c)[..|a + b|] == a + c[..|b|];
  }

  lemma PrefixTrans(a: string, b: string, c: string)
    requires a <= b && b <= c
    ensures a <= c
  {
    assert c[..|a|] == b[..|a|];
  }

  /** `collectRoutes` pushes onto one shared array while it walks the tree. */
  class RouteCollector {
    var routes: seq<Route>

    constructor()
      ensures routes == []
    {
      routes := [];
    }

    /** `scanDir(dir, urlPrefix)`. */
    method ScanDir(d: Dir, prefix: string)
      modifies this
      ensures routes == old(routes) + Scan(d, prefix)
      decreases d, 2
    {
      if d.meta.Some? {
        var m := d.meta.value;
        for i := 0 to |m|
          invariant routes == old(routes) + EntriesUpTo(d, prefix, i)
        {
          AddEntry(d, prefix, m[i]);
          Assoc(old(routes), EntriesUpTo(d, prefix, i), EntryRoutes(d, prefix, m[i]));
        }
      }
    }

    /** One iteration of the loop over `Object.entries(meta)`. */
    method AddEntry(d: Dir, prefix: string, e: (string, Value))
      modifies this
      ensures routes == old(routes) + EntryRoutes(d, prefix, e)
      decreases d, 0
    {
      if IsJsObject(e.1) {
        return;
      }
      var slug, title := e.0, e.1;
      var path := RoutePath(prefix, slug);
      var j := FindSubdir(d.subdirs, slug);
      if j.Some? {
        assert d.subdirs[j.value] in d.subdirs;
        routes := routes + [Route(DocsPrefix + path, title, Directory)];
        ScanDir(d.subdirs[j.value].1, path);
        Assoc(old(routes), [Route(DocsPrefix + path, title, Directory)], Scan(d.subdirs[j.value].1, path));
      } else if slug + ".mdx" in d.files || slug + ".md" in d.files || slug == "index" {
        routes := routes + [Route(if slug == "index" then DocsPrefix + prefix else DocsPrefix + path, title, Page)];
      }
    }
  }

  lemma Assoc<T>(a: seq<T>, b: seq<T>, c: seq<T>)
    ensures a + b + c == a + (b + c)
  {
  }

  // ---------------------------------------------------------------------
  // Removing duplicates
  // ---------------------------------------------------------------------

  /** The URLs of some routes. */
  function UrlSet(rs: seq<Route>): (r: set<string>)
    ensures forall u :: u in r <==> exists i :: 0 <= i < |rs| && rs[i].url == u
  {
    set i | 0 <= i < |rs| :: rs[i].url
  }

  /** The `seen`-set filter: each route whose URL did not come earlier, in order. */
  function FirstOccurrences(rs: seq<Route>): seq<Route>
  {
    if rs == [] then []
    else
      var init := rs[..|rs| - 1];
      FirstOccurrences(init) + (if rs[|rs| - 1].url in UrlSet(init) then [] else [rs[|rs| - 1]])
  }

  /** Removing duplicates keeps every URL, keeps each URL once, and keeps the first route with it. */
  lemma {:induction false} FirstOccurrencesSpec(rs: seq<Route>)
    ensures UrlSet(FirstOccurrences(rs)) == UrlSet(rs)
    ensures var r := FirstOccurrences(rs); forall i, j :: 0 <= i < j < |r| ==> r[i].url != r[j].url
    ensures forall k :: 0 <= k < |FirstOccurrences(rs)| ==> IsFirst(rs, FirstOccurrences(rs)[k])
  {
    if rs != [] {
      var init := rs[..|rs| - 1];
      var last := rs[|rs| - 1];
      FirstOccurrencesSpec(init);
      var a := FirstOccurrences(init);
      var r := FirstOccurrences(rs);
      assert rs == init + [last];
      UrlSetSnoc(init, last);
      if last.url in UrlSet(init) {
        assert r == a;
      } else {
        assert r == a + [last];
        UrlSetSnoc(a, last);
        forall i, j | 0 <= i < j < |r| ensures r[i].url != r[j].url {
          if j == |a| {
            assert r[i] == a[i];
          } else {
            assert r[i] == a[i] && r[j] == a[j];
          }
        }
      }
      forall k | 0 <= k < |r| ensures IsFirst(rs, r[k]) {
        if k < |a| {
          assert r[k] == a[k];
          FirstExtends(init, last, a[k]);
        } else {
          assert r[k] == last;
          assert rs[|rs| - 1] == last;
          assert forall j :: 0 <= j < |rs| - 1 ==> rs[j] == init[j];
        }
      }
    }
  }

  lemma UrlSetSnoc(rs: seq<Route>, x: Route)
    ensures UrlSet(rs + [x]) == UrlSet(rs) + {x.url}
  {
    forall u ensures u in UrlSet(rs + [x]) <==> u in UrlSet(rs) + {x.url} {
      if u in UrlSet(rs) {
        var i :| 0 <= i < |rs| && rs[i].url == u;
        assert (rs + [x])[i] == rs[i];
      }
      if u == x.url {
        assert (rs + [x])[|rs|] == x;
      }
      if u in UrlSet(rs + [x]) {
        var i :| 0 <= i < |rs + [x]| && (rs + [x])[i].url == u;
        if i < |rs| {
          assert rs[i] == (rs + [x])[i];
        }
      }
    }
  }

  /** `route` occurs in `rs`, and no earlier route has its URL. */
  predicate IsFirst(rs: seq<Route>, route: Route)
  {
    exists i :: 0 <= i < |rs| && rs[i] == route && forall j :: 0 <= j < i ==> rs[j].url != route.url
  }

  lemma FirstExtends(rs: seq<Route>, last: Route, route: Route)
    requires IsFirst(rs, route)
    ensures IsFirst(rs + [last], route)
  {
    var i :| 0 <= i < |rs| && rs[i] == route && forall j :: 0 <= j < i ==> rs[j].url != route.url;
    assert (rs + [last])[i] == route;
    assert forall j :: 0 <= j < i ==> (rs + [last])[j] == rs[j];
  }

  /** The de-duplicating filter at the end of `collectRoutes`. */
  method Dedup(routes: seq<Route>) returns (kept: seq<Route>)
    ensures kept == FirstOccurrences(routes)
  {
    var seen: set<string> := {};
    kept := [];
    for i := 0 to |routes|
      invariant seen == UrlSet(routes[..i])
      invariant kept == FirstOccurrences(routes[..i])
    {
      assert routes[..i + 1][..i] == routes[..i];
      if routes[i].url !in seen {
        seen := seen + {routes[i].url};
        kept := kept + [routes[i]];
      }
      assert routes[..i + 1] == routes[..i] + [routes[i]];
      UrlSetSnoc(routes[..i], routes[i]);
    }
    assert routes[..|routes|] == routes;
  }

  /** `collectRoutes`: scan from the content root, then drop duplicates. */
  method CollectRoutes(root: Dir) returns (routes: seq<Route>)
    ensures routes == FirstOccurrences(Scan(root, ""))
  {
    var collector := new RouteCollector();
    collector.ScanDir(root, "");
    assert collector.routes == [] + Scan(root, "");
    assert [] + Scan(root, "") == Scan(root, "");
    routes := Dedup(collector.routes);
  }

  // ---------------------------------------------------------------------
  // Checking the routes
  // ---------------------------------------------------------------------

  /** The result of one request: `ok` only for status 200; a failed request has status 0. */
  datatype Check = Check(url: string, status: int, ok: bool)

  /** A failed check with the title of the first route of that URL. */
  datatype Failure = Failure(check: Check, title: Option<Value>)

  /** `checkUrl`, over the answer `probe` gives for the URL. */
  function CheckUrl(url: string, probe: string -> Option<int>): (r: Check)
    ensures r.url == url
    ensures r.ok <==> probe(url) == Some(200)
    ensures probe(url).None? ==> r.status == 0
  {
    match probe(url)
    case None => Check(url, 0, false)
    case Some(s) => Check(url, s, s == 200)
  }

  /** `routes.find(r => r.url === url)?.title`. */
  function FindTitle(routes: seq<Route>, url: string): Option<Value>
  {
    if routes == [] then None
    else if routes[0].url == url then Some(routes[0].title)
    else FindTitle(routes[1..], url)
  }

  /** The title found is that of the first route with the URL, and there is one exactly when some route has it. */
  lemma {:induction false} FindTitleFirst(routes: seq<Route>, url: string)
    ensures FindTitle(routes, url).Some? <==> exists i :: 0 <= i < |routes| && routes[i].url == url
    ensures FindTitle(routes, url).Some? ==>
      exists i :: (0 <= i < |routes| && routes[i].url == url && routes[i].title == FindTitle(routes, url).value &&
                   forall j :: 0 <= j < i ==> routes[j].url != url)
  {
    if routes != [] && routes[0].url != url {
      FindTitleFirst(routes[1..], url);
      assert forall i :: 0 < i < |routes| ==> routes[i] == routes[1..][i - 1];
      if FindTitle(routes, url).Some? {
        var i :| 0 <= i < |routes[1..]| && routes[1..][i].url == url && routes[1..][i].title == FindTitle(routes, url).value &&
          forall j :: 0 <= j < i ==> routes[1..][j].url != url;
        assert routes[i + 1] == routes[1..][i];
      }
    }
  }

  /** The checks of the first `n` routes that passed, in order. */
  function PassedUpTo(routes: seq<Route>, n: nat, probe: string -> Option<int>): seq<Check>
    requires n <= |routes|
  {
    if n == 0 then []
    else
      var c := CheckUrl(routes[n - 1].url, probe);
      PassedUpTo(routes, n - 1, probe) + (if c.ok then [c] else [])
  }

  /** The checks of the first `n` routes that failed, with their titles, in order. */
  function FailedUpTo(routes: seq<Route>, n: nat, probe: string -> Option<int>): seq<Failure>
    requires n <= |routes|
  {
    if n == 0 then []
    else
      var c := CheckUrl(routes[n - 1].url, probe);
      FailedUpTo(routes, n - 1, probe) + (if c.ok then [] else [Failure(c, FindTitle(routes, c.url))])
  }

  /** Every checked route lands in exactly one of the two lists. */
  lemma {:induction false} PartitionCount(routes: seq<Route>, n: nat, probe: string -> Option<int>)
    requires n <= |routes|
    ensures |PassedUpTo(routes, n, probe)| + |FailedUpTo(routes, n, probe)| == n
  {
    if n > 0 {
      PartitionCount(routes, n - 1, probe);
    }
  }

  /** `passed` holds exactly the checks that are ok. */
  lemma {:induction false} PassedSpec(routes: seq<Route>, n: nat, probe: string -> Option<int>, c: Check)
    requires n <= |routes|
    ensures c in PassedUpTo(routes, n, probe) <==> exists k :: 0 <= k < n && c == CheckUrl(routes[k].url, probe) && c.ok
  {
    if n > 0 {
      PassedSpec(routes, n - 1, probe, c);
      if c == CheckUrl(routes[n - 1].url, probe) && c.ok {
        assert c in PassedUpTo(routes, n, probe);
      }
    }
  }

  /** `failed` holds exactly the checks that are not ok, each with the title found for its URL. */
  lemma {:induction false} FailedSpec(routes: seq<Route>, n: nat, probe: string -> Option<int>, f: Failure)
    requires n <= |routes|
    ensures f in FailedUpTo(routes, n, probe) <==>
      exists k :: 0 <= k < n && f.check == CheckUrl(routes[k].url, probe) && !f.check.ok && f.title == FindTitle(routes, f.check.url)
  {
    if n > 0 {
      FailedSpec(routes, n - 1, probe, f);
      var c := CheckUrl(routes[n - 1].url, probe);
      if f.check == c && !c.ok && f.title == FindTitle(routes, c.url) {
        assert f == Failure(c, FindTitle(routes, c.url));
        assert f in FailedUpTo(routes, n, probe);
      }
    }
  }

  /** Nothing fails when every route answers 200. */
  lemma {:induction false} NoneFailed(routes: seq<Route>, n: nat, probe: string -> Option<int>)
    requires n <= |routes| && forall k :: 0 <= k < n ==> probe(routes[k].url) == Some(200)
    ensures FailedUpTo(routes, n, probe) == []
  {
    if n > 0 {
      NoneFailed(routes, n - 1, probe);
    }
  }

  /** `verifyAll` succeeds exactly when every route answers 200. */
  lemma AllPassed(routes: seq<Route>, probe: string -> Option<int>)
    ensures |FailedUpTo(routes, |routes|, probe)| == 0 <==> forall k :: 0 <= k < |routes| ==> probe(routes[k].url) == Some(200)
  {
    if forall k :: 0 <= k < |routes| ==> probe(routes[k].url) == Some(200) {
      NoneFailed(routes, |routes|, probe);
    } else {
      var k :| 0 <= k < |routes| && probe(routes[k].url) != Some(200);
      var c := CheckUrl(routes[k].url, probe);
      FailedSpec(routes, |routes|, probe, Failure(c, FindTitle(routes, c.url)));
    }
  }

  /** With distinct URLs, as `collectRoutes` gives them, a failure carries its own route's title. */
  lemma FailureTitle(routes: seq<Route>, k: nat, probe: string -> Option<int>)
    requires k < |routes| && forall i, j :: 0 <= i < j < |routes| ==> routes[i].url != routes[j].url
    ensures FindTitle(routes, routes[k].url) == Some(routes[k].title)
  {
    FindTitleFirst(routes, routes[k].url);
  }

  /** The batches `routes.slice(i, i + CONCURRENCY)` for `i = start, start + 5, …`. */
  function Batches(routes: seq<Route>, start: nat): seq<seq<Route>>
    decreases |routes| - start
  {
    if start >= |routes| then []
    else [routes[start..Min(start + Concurrency, |routes|)]] + Batches(routes, start + Concurrency)
  }

  function Min(a: nat, b: nat): nat { if a < b then a else b }

  function Flatten(bs: seq<seq<Route>>): seq<Route>
  {
    if bs == [] then [] else bs[0] + Flatten(bs[1..])
  }

  /** The batches hold one to five routes each and, laid end to end, are the routes from `start` on. */
  lemma {:induction false} BatchesCover(routes: seq<Route>, start: nat)
    requires start <= |routes|
    ensures Flatten(Batches(routes, start)) == routes[start..]
    ensures forall b :: b in Batches(routes, start) ==> 0 < |b| <= Concurrency
    decreases |routes| - start
  {
    if start < |routes| {
      var end := Min(start + Concurrency, |routes|);
      BatchesCover(routes, end);
      if end < start + Concurrency {
        assert Batches(routes, start + Concurrency) == [];
        assert Batches(routes, end) == [];
      }
      var bs := Batches(routes, start);
      assert bs[1..] == Batches(routes, start + Concurrency);
      assert routes[start..] == routes[start..end] + routes[end..];
    }
  }

  /**
   * `verifyAll`: the routes are checked batch by batch, each result in
   * batch order goes to `passed` or `failed`, and the run succeeds when
   * nothing failed.
   */
  method VerifyAll(routes: seq<Route>, probe: string -> Option<int>)
    returns (passed: seq<Check>, failed: seq<Failure>, success: bool)
    ensures passed == PassedUpTo(routes, |routes|, probe)
    ensures failed == FailedUpTo(routes, |routes|, probe)
    ensures success <==> forall k :: 0 <= k < |routes| ==> probe(routes[k].url) == Some(200)
  {
    passed, failed := [], [];
    var i := 0;
    ghost var done: seq<seq<Route>> := [];
    while i < |routes|
      invariant passed == PassedUpTo(routes, Min(i, |routes|), probe)
      invariant failed == FailedUpTo(routes, Min(i, |routes|), probe)
      invariant done + Batches(routes, i) == Batches(routes, 0)
      decreases |routes| - i
    {
      // the batch checked now is the next one of `Batches(routes, 0)`
      assert Batches(routes, i) == [routes[i..Min(i + Concurrency, |routes|)]] + Batches(routes, i + Concurrency);
      passed, failed := CheckBatch(routes, i, Min(i + Concurrency, |routes|), probe, passed, failed);
      done := done + [routes[i..Min(i + Concurrency, |routes|)]];
      i := i + Concurrency;
    }
    assert done == Batches(routes, 0);
    success := |failed| == 0;
    AllPassed(routes, probe);
  }

  /**
   * One batch `routes.slice(start, end)`: its results, in batch order,
   * extend `passed` and `failed`.
   */
  method CheckBatch(routes: seq<Route>, start: nat, end: nat, probe: string -> Option<int>,
                    passed0: seq<Check>, failed0: seq<Failure>)
    returns (passed: seq<Check>, failed: seq<Failure>)
    requires start <= end <= |routes|
    requires passed0 == PassedUpTo(routes, start, probe) && failed0 == FailedUpTo(routes, start, probe)
    ensures passed == PassedUpTo(routes, end, probe) && failed == FailedUpTo(routes, end, probe)
  {
    var batch := routes[start..end];
    var results := seq(|batch|, k requires 0 <= k < |batch| => CheckUrl(batch[k].url, probe));
    passed, failed := passed0, failed0;
    for k := 0 to |results|
      invariant passed == PassedUpTo(routes, start + k, probe)
      invariant failed == FailedUpTo(routes, start + k, probe)
    {
      var result := results[k];
      assert result == CheckUrl(routes[start + k].url, probe);
      if result.ok {
        passed := passed + [result];
      } else {
        failed := failed + [Failure(result, FindTitle(routes, result.url))];
      }
    }
  }
}
