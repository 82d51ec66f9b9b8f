/**
 * The flattening of `apps/docs/migrate_content.py`: everything under
 * `content/docs` moves up to `content`, nested `/docs/docs/` links are
 * repaired, a new root `_meta.json` is written and the emptied `docs`
 * directory is removed.
 */
module MigrateContent {
  import opened Options
  import opened Text
  import opened Rewrite
  import opened Markdown
  import opened Meta
  import opened Sorting

  /** An `.mdx` file: its path and its text (`None` when it cannot be read). */
  datatype Page = Page(path: string, content: Option<string>)

  /**
   * An entry of `content/docs`. For a directory, `pages` are the `.mdx`
   * files below it in walk order; for a file, `pages` is the file itself.
   */
  datatype Item = Item(name: string, isDir: bool, pages: seq<Page>)

  function ItemName(it: Item): string { it.name }

  // ---------------------------------------------------------------------
  // Validation
  // ---------------------------------------------------------------------

  /**
   * `validate`: both directories exist and no name of `content/docs` is
   * already taken in `content` by anything but `docs` itself.
   */
  function Validate(contentExists: bool, docsExists: bool, contentNames: seq<string>, docsNames: seq<string>): (r: bool)
    ensures r <==> contentExists && docsExists && forall n :: n in docsNames && n in contentNames ==> n == "docs"
  {
    var existing := set n | n in contentNames && n != "docs";
    var incoming := set n | n in docsNames;
    var ok := contentExists && docsExists && existing * incoming == {};
    assert ok ==> forall n :: n in docsNames && n in contentNames ==> n == "docs" by {
      if ok {
        forall n | n in docsNames && n in contentNames ensures n == "docs" {
          assert n !in existing * incoming;
          assert n in incoming;
        }
      }
    }
    ok
  }

  // ---------------------------------------------------------------------
  // Collecting the items
  // ---------------------------------------------------------------------

  /** The entries other than `_meta.json`, in their order. */
  function WithoutMeta(entries: seq<Item>): (r: seq<Item>)
    ensures forall it :: it in r <==> it in entries && it.name != "_meta.json"
  {
    if entries == [] then []
    else
      var last := entries[|entries| - 1];
      var init := entries[..|entries| - 1];
      assert entries == init + [last];
      WithoutMeta(init) + (if last.name == "_meta.json" then [] else [last])
  }

  /** `collect_items_to_migrate`: every entry but `_meta.json`, sorted by name. */
  method CollectItemsToMigrate(entries: seq<Item>) returns (items: seq<Item>)
    ensures items == SortByName(WithoutMeta(entries), ItemName)
  {
    var kept: seq<Item> := [];
    for i := 0 to |entries|
      invariant kept == WithoutMeta(entries[..i])
    {
      assert entries[..i + 1][..i] == entries[..i];
      if entries[i].name != "_meta.json" {
        kept := kept + [entries[i]];
      }
    }
    assert entries[..|entries|] == entries;
    items := SortByName(kept, ItemName);
  }

  /** The items collected are the entries other than `_meta.json`, in name order. */
  lemma CollectedItems(entries: seq<Item>)
    ensures var r := SortByName(WithoutMeta(entries), ItemName);
      SortedByName(r, ItemName) && forall it :: it in r <==> it in entries && it.name != "_meta.json"
  {
    var w := WithoutMeta(entries);
    var r := SortByName(w, ItemName);
    forall it ensures it in r <==> it in w {
      assert it in r <==> it in multiset(r);
    }
  }

  // ---------------------------------------------------------------------
  // Links
  // ---------------------------------------------------------------------

  /** The nested link prefix left behind by the old layout, and its repair. */
  const NestedLink: string := "](/docs/docs/"
  const FlatLink: string := "](/docs/"

  /** `re.sub(r'\]\(/docs/docs/', '](/docs/', content)`. */
  function UpdateLinks(content: string): (r: string)
    ensures |r| <= |content|
  {
    var m := Literal(NestedLink, FlatLink);
    assert Shrinks(content, m);
    SubNoLonger(content, 0, m);
    ReplaceAll(content, NestedLink, FlatLink)
  }

  /**
   * `update_mdx_links`: whether the file's text changes, which happens
   * exactly when it can be read and holds a nested link.
   */
  function LinksChange(content: Option<string>): (r: bool)
    ensures r <==> content.Some? && IsSubstring(NestedLink, content.value)
  {
    match content
    case None => false
    case Some(c) =>
      ReplaceAllChanges(c, NestedLink, FlatLink);
      UpdateLinks(c) != c
  }

  // ---------------------------------------------------------------------
  // The root _meta.json
  // ---------------------------------------------------------------------

  /** The chapter titles of `generate_root_meta`. */
  const ChapterTitles: seq<(string, string)> := [
    ("chapter-01", "第一章：初识智能体"),
    ("chapter-02", "第二章：LLM 基础"),
    ("chapter-03", "第三章：提示词工程"),
    ("chapter-04", "第四章：ReAct 范式"),
    ("chapter-05", "第五章：Plan-and-Solve"),
    ("chapter-06", "第六章：Reflection"),
    ("chapter-07", "第七章：PromptX 框架"),
    ("chapter-08", "第八章：AgentX 实战"),
    ("chapter-09", "第九章：Monogent 架构"),
    ("chapter-10", "第十章：记忆系统"),
    ("chapter-11", "第十一章：工具使用"),
    ("chapter-12", "第十二章：多智能体系统"),
    ("chapter-13", "第十三章：高级主题"),
    ("chapter-14", "第十四章：实战项目"),
    ("chapter-15", "第十五章：最佳实践"),
    ("chapter-16", "第十六章：未来展望")
  ]

  /** `table.get(key)` on a table held as entries. */
  function Lookup(table: seq<(string, string)>, key: string): (r: Option<string>)
    ensures r.Some? <==> key in Keys(table)
    ensures r.Some? ==> (key, r.value) in table
  {
    if table == [] then None
    else if table[0].0 == key then Some(table[0].1)
    else
      var r := Lookup(table[1..], key);
      assert Keys(table) == [table[0].0] + Keys(table[1..]);
      r
  }

  /** `titles.get(key, key)`. */
  function TitleOr(titles: seq<(string, string)>, key: string): string
  {
    match Lookup(titles, key)
    case Some(t) => t
    case None => key
  }

  const IndexEntry: (string, string) := ("index", "课程首页")
  const LearningMapEntry: (string, string) := ("learning-map", "学习地图")
  const ResourcesEntry: (string, string) := ("resources", "资源库")

  /** A listing entry (name, is a directory) that is a chapter directory. */
  predicate IsChapterDir(e: (string, bool))
  {
    e.1 && "chapter-" <= e.0
  }

  /** The names of the chapter directories of a listing, in listing order. */
  function ChapterDirs(listing: seq<(string, bool)>): (r: seq<string>)
    ensures forall n :: n in r <==> (n, true) in listing && "chapter-" <= n
  {
    if listing == [] then []
    else
      var last := listing[|listing| - 1];
      var init := listing[..|listing| - 1];
      assert listing == init + [last];
      ChapterDirs(init) + (if IsChapterDir(last) then [last.0] else [])
  }

  /** Each chapter with its title from `titles`, or its own name when the table has none. */
  function ChapterEntries(chapters: seq<string>, titles: seq<(string, string)>): (r: seq<(string, string)>)
    ensures |r| == |chapters| && forall i :: 0 <= i < |r| ==> r[i] == (chapters[i], TitleOr(titles, chapters[i]))
  {
    seq(|chapters|, i requires 0 <= i < |chapters| => (chapters[i], TitleOr(titles, chapters[i])))
  }

  /** The identity, as the key `sorted` uses on plain names. */
  function Name(s: string): string { s }

  /**
   * The `new_meta` dictionary: `index`, the chapters in the given order
   * titled from `titles`, then `learning-map` and `resources` when asked
   * for.
   */
  function RootMeta(chapters: seq<string>, titles: seq<(string, string)>, learningMap: bool, resources: bool): seq<(string, string)>
  {
    var m := PutAll([IndexEntry], ChapterEntries(chapters, titles));
    var m1 := if learningMap then Put(m, LearningMapEntry.0, LearningMapEntry.1) else m;
    if resources then Put(m1, ResourcesEntry.0, ResourcesEntry.1) else m1
  }

  /** No two names alike. */
  predicate Distinct(names: seq<string>)
  {
    forall i, j :: 0 <= i < j < |names| ==> names[i] != names[j]
  }

  /**
   * With distinct chapter names, the root meta is `index`, then every
   * chapter in order with its title, then the extra pages: each key once.
   */
  lemma RootMetaOrder(chapters: seq<string>, titles: seq<(string, string)>, learningMap: bool, resources: bool)
    requires Distinct(chapters) && forall i :: 0 <= i < |chapters| ==> "chapter-" <= chapters[i]
    ensures RootMeta(chapters, titles, learningMap, resources) ==
      [IndexEntry] + ChapterEntries(chapters, titles) + (if learningMap then [LearningMapEntry] else []) + (if resources then [ResourcesEntry] else [])
  {
    RootEntriesFresh(chapters, titles);
    PutAllFresh([IndexEntry], ChapterEntries(chapters, titles));
  }

  /** `index` and distinct chapter names are distinct keys, none of them an extra page. */
  lemma RootEntriesFresh(chapters: seq<string>, titles: seq<(string, string)>)
    requires Distinct(chapters) && forall i :: 0 <= i < |chapters| ==> "chapter-" <= chapters[i]
    ensures var a := [IndexEntry] + ChapterEntries(chapters, titles);
      DistinctKeys(a) && !(LearningMapEntry.0 in Keys(a)) && !(ResourcesEntry.0 in Keys(a)) &&
      !(ResourcesEntry.0 in Keys(a + [LearningMapEntry]))
  {
    var cs := ChapterEntries(chapters, titles);
    forall k | 0 <= k < |cs| ensures !IsExtraKey(cs[k].0) {
      ChapterNotExtra(chapters[k]);
    }
    RootEntriesDistinct(chapters, cs);
    ExtrasFresh(cs);
  }

  lemma RootEntriesDistinct(chapters: seq<string>, cs: seq<(string, string)>)
    requires Distinct(chapters) && |cs| == |chapters| && forall i :: 0 <= i < |cs| ==> cs[i].0 == chapters[i] && !IsExtraKey(cs[i].0)
    ensures DistinctKeys([IndexEntry] + cs)
  {
    var a := [IndexEntry] + cs;
    forall i, j | 0 <= i < j < |a| ensures a[i].0 != a[j].0 {
      assert a[j] == cs[j - 1];
      if i > 0 { assert a[i] == cs[i - 1]; }
    }
  }

  lemma ExtrasFresh(cs: seq<(string, string)>)
    requires forall i :: 0 <= i < |cs| ==> !IsExtraKey(cs[i].0)
    ensures var a := [IndexEntry] + cs;
      !(LearningMapEntry.0 in Keys(a)) && !(ResourcesEntry.0 in Keys(a)) && !(ResourcesEntry.0 in Keys(a + [LearningMapEntry]))
  {
    var a := [IndexEntry] + cs;
    var b := a + [LearningMapEntry];
    forall k | 0 <= k < |b| ensures b[k].0 != "resources" && (k < |a| ==> b[k].0 != "learning-map") {
      if 0 < k < |a| { assert b[k] == cs[k - 1]; }
    }
    assert Keys(a) == Keys(b)[..|a|];
  }

  /** The keys of the root meta: `index`, the chapters, and the extra pages asked for. */
  lemma RootMetaKeys(chapters: seq<string>, titles: seq<(string, string)>, learningMap: bool, resources: bool, k: string)
    ensures k in Keys(RootMeta(chapters, titles, learningMap, resources)) <==>
      k == "index" || k in chapters || (learningMap && k == "learning-map") || (resources && k == "resources")
  {
    var cs := ChapterEntries(chapters, titles);
    var m := PutAll([IndexEntry], cs);
    PutAllKeys([IndexEntry], cs, k);
    assert (exists i :: 0 <= i < |cs| && cs[i].0 == k) <==> k in chapters by {
      if k in chapters {
        var i :| 0 <= i < |chapters| && chapters[i] == k;
        assert cs[i].0 == k;
      }
    }
    assert Keys([IndexEntry]) == ["index"];
    var m1 := if learningMap then Put(m, LearningMapEntry.0, LearningMapEntry.1) else m;
    PutKeys(m, LearningMapEntry.0, LearningMapEntry.1, k);
    PutKeys(m1, ResourcesEntry.0, ResourcesEntry.1, k);
  }

  /**
   * The extra pages are listed exactly when asked for: no chapter
   * directory can stand in for them.
   */
  lemma ExtraPagesListed(listing: seq<(string, bool)>, titles: seq<(string, string)>, learningMap: bool, resources: bool)
    ensures var meta := RootMeta(SortByName(ChapterDirs(listing), Name), titles, learningMap, resources);
      ("learning-map" in Keys(meta) <==> learningMap) && ("resources" in Keys(meta) <==> resources)
  {
    var chapters := SortByName(ChapterDirs(listing), Name);
    SortedChapters(listing);
    ExtrasNotChapters();
    assert "learning-map" !in chapters && "resources" !in chapters;
    RootMetaKeys(chapters, titles, learningMap, resources, "learning-map");
    RootMetaKeys(chapters, titles, learningMap, resources, "resources");
  }

  /** The extra pages' names are not chapter names. */
  lemma ExtrasNotChapters()
    ensures !("chapter-" <= "learning-map") && !("chapter-" <= "resources")
  {
    assert "learning-map"[0] == 'l' && "resources"[0] == 'r';
  }

  /** The sorted chapter directories are the listing's chapter directories. */
  lemma SortedChapters(listing: seq<(string, bool)>)
    ensures forall n :: n in SortByName(ChapterDirs(listing), Name) <==> (n, true) in listing && "chapter-" <= n
  {
    var cs := ChapterDirs(listing);
    forall n ensures n in SortByName(cs, Name) <==> n in cs {
      assert n in SortByName(cs, Name) <==> n in multiset(SortByName(cs, Name));
    }
  }

  /** The keys the root meta gives to its other pages. */
  predicate IsExtraKey(k: string)
  {
    k == "index" || k == "learning-map" || k == "resources"
  }

  lemma ChapterNotExtra(n: string)
    requires "chapter-" <= n
    ensures !IsExtraKey(n)
  {
    assert n[0] == 'c';
  }

  /** Sorting the names of one directory keeps them distinct. */
  lemma SortedDistinct(names: seq<string>)
    requires Distinct(names)
    ensures Distinct(SortByName(names, Name))
  {
    var r := SortByName(names, Name);
    forall i, j | 0 <= i < j < |r| ensures r[i] != r[j] {
      if r[i] == r[j] {
        CountTwice(r, i, j);
        assert r[i] in multiset(names);
        var p :| 0 <= p < |names| && names[p] == r[i];
        NameOnce(names, p);
      }
    }
  }

  lemma NameOnce(names: seq<string>, p: nat)
    requires Distinct(names) && p < |names|
    ensures multiset(names)[names[p]] == 1
  {
    assert names == names[..p] + [names[p]] + names[p + 1..];
    assert names[p] !in names[..p] && names[p] !in names[p + 1..];
  }

  /**
   * `generate_root_meta`: the chapters come from the content root, or from
   * `content/docs` in a dry run; `learning-map` and `resources` are added
   * when the old meta names them or `content/docs` still holds them.
   */
  method GenerateRootMeta(dryRun: bool, contentListing: seq<(string, bool)>, docsListing: seq<(string, bool)>,
                          oldMetaKeys: set<string>, docsHasLearningMap: bool, docsHasResources: bool)
    returns (meta: seq<(string, string)>)
    ensures meta == RootMeta(SortByName(ChapterDirs(if dryRun then docsListing else contentListing), Name), ChapterTitles,
                             "learning-map" in oldMetaKeys || docsHasLearningMap, "resources" in oldMetaKeys || docsHasResources)
  {
    var chapterDirs := SortByName(ChapterDirs(if dryRun then docsListing else contentListing), Name);
    meta := PutEach([IndexEntry], ChapterEntries(chapterDirs, ChapterTitles));
    if "learning-map" in oldMetaKeys || docsHasLearningMap {
      meta := Put(meta, LearningMapEntry.0, LearningMapEntry.1);
    }
    if "resources" in oldMetaKeys || docsHasResources {
      meta := Put(meta, ResourcesEntry.0, ResourcesEntry.1);
    }
  }

  // ---------------------------------------------------------------------
  // Cleanup
  // ---------------------------------------------------------------------

  /** The names other than `_meta.json`. */
  function NonMetaNames(names: seq<string>): (r: seq<string>)
    ensures forall n :: n in r <==> n in names && n != "_meta.json"
  {
    if names == [] then []
    else
      var init := names[..|names| - 1];
      assert names == init + [names[|names| - 1]];
      NonMetaNames(init) + (if names[|names| - 1] == "_meta.json" then [] else [names[|names| - 1]])
  }

  /** `cleanup_old_docs_dir`: the directory is removed exactly when it holds nothing but `_meta.json`. */
  function CleanupRemoves(remaining: seq<string>): (r: bool)
    ensures r <==> forall n :: n in remaining ==> n == "_meta.json"
  {
    var others := NonMetaNames(remaining);
    assert others != [] ==> others[0] in others;
    others == []
  }

  // ---------------------------------------------------------------------
  // The migrator
  // ---------------------------------------------------------------------

  /**
   * The `.mdx` files of an item whose links are meant to be checked: all
   * below a directory, a file only when it is `.mdx`.
   */
  function PagesOf(it: Item): seq<Page>
  {
    if it.isDir || Suffix(it.name) == ".mdx" then it.pages else []
  }

  /**
   * The pages `migrate_items` checks, as written: it asks `is_dir()` of
   * the item's old path after the move. In a real run that path is gone,
   * so a moved directory is taken for a file without the `.mdx` suffix
   * (or, named `*.mdx`, fails to be read) and none of its pages is
   * checked; in a dry run every intended page is.
   */
  function PagesVisited(it: Item, dryRun: bool): (r: seq<Page>)
    ensures dryRun ==> r == PagesOf(it)
    ensures !dryRun ==> r == if it.isDir then [] else PagesOf(it)
  {
    if it.isDir && dryRun then it.pages
    else if it.isDir then []
    else if Suffix(it.name) == ".mdx" then it.pages
    else []
  }

  /** Where a page is at when its links are checked: moved to `content`, or still under `content/docs` in a dry run. */
  function Located(p: Page, dryRun: bool): string
  {
    (if dryRun then "docs/" else "") + p.path
  }

  /** The pages of `ps` whose links change, located. */
  function UpdatedPaths(ps: seq<Page>, dryRun: bool): (r: seq<string>)
    ensures |r| <= |ps|
  {
    if ps == [] then []
    else
      var p := ps[|ps| - 1];
      UpdatedPaths(ps[..|ps| - 1], dryRun) + (if LinksChange(p.content) then [Located(p, dryRun)] else [])
  }

  /** The files written back with their links repaired: none in a dry run. */
  function Rewritten(ps: seq<Page>, dryRun: bool): (r: seq<(string, string)>)
  {
    if ps == [] then []
    else
      var p := ps[|ps| - 1];
      Rewritten(ps[..|ps| - 1], dryRun) +
        (if !dryRun && LinksChange(p.content) then [(p.path, UpdateLinks(p.content.value))] else [])
  }

  /** The same over a run of items. */
  function UpdatedPathsAll(items: seq<Item>, dryRun: bool): seq<string>
  {
    if items == [] then [] else UpdatedPathsAll(items[..|items| - 1], dryRun) + UpdatedPaths(PagesVisited(items[|items| - 1], dryRun), dryRun)
  }

  function RewrittenAll(items: seq<Item>, dryRun: bool): seq<(string, string)>
  {
    if items == [] then [] else RewrittenAll(items[..|items| - 1], dryRun) + Rewritten(PagesVisited(items[|items| - 1], dryRun), dryRun)
  }

  /** The names of the items, in order. */
  function Names(items: seq<Item>): (r: seq<string>)
    ensures |r| == |items| && forall i :: 0 <= i < |items| ==> r[i] == items[i].name
  {
    if items == [] then [] else Names(items[..|items| - 1]) + [items[|items| - 1].name]
  }

  /** The paths of written files. */
  function PathsOf(rs: seq<(string, string)>): (r: seq<string>)
    ensures |r| == |rs| && forall i :: 0 <= i < |rs| ==> r[i] == rs[i].0
  {
    if rs == [] then [] else PathsOf(rs[..|rs| - 1]) + [rs[|rs| - 1].0]
  }

  /** One more item extends each record by that item's share. */
  lemma ItemsStep(items: seq<Item>, i: nat, dryRun: bool)
    requires i < |items|
    ensures Names(items[..i + 1]) == Names(items[..i]) + [items[i].name]
    ensures UpdatedPathsAll(items[..i + 1], dryRun) == UpdatedPathsAll(items[..i], dryRun) + UpdatedPaths(PagesVisited(items[i], dryRun), dryRun)
    ensures RewrittenAll(items[..i + 1], dryRun) == RewrittenAll(items[..i], dryRun) + Rewritten(PagesVisited(items[i], dryRun), dryRun)
  {
    assert items[..i + 1][..i] == items[..i];
  }

  /** One more page extends each record by that page's share. */
  lemma PagesStep(ps: seq<Page>, i: nat, dryRun: bool)
    requires i < |ps|
    ensures UpdatedPaths(ps[..i + 1], dryRun) == UpdatedPaths(ps[..i], dryRun) + (if LinksChange(ps[i].content) then [Located(ps[i], dryRun)] else [])
    ensures Rewritten(ps[..i + 1], dryRun) == Rewritten(ps[..i], dryRun) +
      (if !dryRun && LinksChange(ps[i].content) then [(ps[i].path, UpdateLinks(ps[i].content.value))] else [])
  {
    assert ps[..i + 1][..i] == ps[..i];
  }

  /** Concatenation regroups; stated once so loops can cite it. */
  lemma Assoc<T>(a: seq<T>, b: seq<T>, c: seq<T>)
    ensures a + b + c == a + (b + c)
  {
  }

  /** A dry run writes nothing back. */
  lemma {:induction false} DryRunWritesNothing(items: seq<Item>)
    ensures RewrittenAll(items, true) == []
    decreases |items|
  {
    if items != [] {
      DryRunWritesNothing(items[..|items| - 1]);
      DryPagesWriteNothing(PagesVisited(items[|items| - 1], true));
    }
  }

  lemma {:induction false} DryPagesWriteNothing(ps: seq<Page>)
    ensures Rewritten(ps, true) == []
    decreases |ps|
  {
    if ps != [] {
      DryPagesWriteNothing(ps[..|ps| - 1]);
    }
  }

  /** In a real run, the files reported as updated are exactly the files written back, in order. */
  lemma {:induction false} UpdatedAreWritten(ps: seq<Page>)
    ensures UpdatedPaths(ps, false) == PathsOf(Rewritten(ps, false))
    decreases |ps|
  {
    if ps != [] {
      var init := ps[..|ps| - 1];
      var p := ps[|ps| - 1];
      UpdatedAreWritten(init);
      var a := Rewritten(init, false);
      var b := Rewritten(ps, false);
      if LinksChange(p.content) {
        assert b[..|b| - 1] == a;
        assert Located(p, false) == p.path;
      } else {
        assert b == a;
      }
    }
  }

  /** Every file written back held a nested link, and no longer holds the text it had. */
  lemma {:induction false} WrittenWereNested(ps: seq<Page>, k: nat)
    requires k < |Rewritten(ps, false)|
    ensures exists p :: (p in ps && p.content.Some? && IsSubstring(NestedLink, p.content.value) &&
      Rewritten(ps, false)[k] == (p.path, UpdateLinks(p.content.value)) && UpdateLinks(p.content.value) != p.content.value)
    decreases |ps|
  {
    var init := ps[..|ps| - 1];
    var p := ps[|ps| - 1];
    if k < |Rewritten(init, false)| {
      WrittenWereNested(init, k);
      var q :| q in init && q.content.Some? && IsSubstring(NestedLink, q.content.value) &&
        Rewritten(init, false)[k] == (q.path, UpdateLinks(q.content.value)) && UpdateLinks(q.content.value) != q.content.value;
      assert q in ps;
    } else {
      assert p in ps;
      ReplaceAllChanges(p.content.value, NestedLink, FlatLink);
    }
  }

  /** A moved directory whose page holds a nested link: the real run checks none of its pages. */
  lemma NestedPageMissed()
    ensures var it := Item("chapter-01", true, [Page("chapter-01/a.mdx", Some("[x](/docs/docs/y)"))]);
      UpdatedPaths(PagesVisited(it, false), false) == [] && Rewritten(PagesVisited(it, false), false) == [] &&
      UpdatedPaths(PagesOf(it), false) == ["chapter-01/a.mdx"]
  {
    var p := Page("chapter-01/a.mdx", Some("[x](/docs/docs/y)"));
    NestedLinkIn();
    OnePageUpdated(p);
  }

  lemma NestedLinkIn()
    ensures LinksChange(Some("[x](/docs/docs/y)"))
  {
    var c := "[x](/docs/docs/y)";
    assert NestedLink <= c[2..];
    assert c[1..][1..] == c[2..];
    assert IsSubstring(NestedLink, c[1..]);
  }

  lemma OnePageUpdated(p: Page)
    requires LinksChange(p.content)
    ensures UpdatedPaths([p], false) == [p.path]
  {
    assert [p][..0] == [];
    assert Located(p, false) == p.path;
    assert UpdatedPaths([p], false) == UpdatedPaths([], false) + [Located(p, false)];
  }

  /**
   * With the intended check, a real run writes back every page of a moved
   * item whose links need repair, with its links repaired.
   */
  lemma {:induction false} MovedPagesRepaired(ps: seq<Page>, p: Page)
    requires p in ps && LinksChange(p.content)
    ensures (p.path, UpdateLinks(p.content.value)) in Rewritten(ps, false)
    ensures p.path in UpdatedPaths(ps, false)
    decreases |ps|
  {
    var init := ps[..|ps| - 1];
    var last := ps[|ps| - 1];
    assert ps == init + [last];
    if p != last {
      MovedPagesRepaired(init, p);
    }
    if LinksChange(last.content) {
      assert Located(last, false) == last.path;
    }
  }

  // ---------------------------------------------------------------------
  // The directories after the move
  // ---------------------------------------------------------------------

  /** A directory listing of the items: each name and whether it is a directory. */
  function Listing(items: seq<Item>): (r: seq<(string, bool)>)
    ensures |r| == |items| && forall i :: 0 <= i < |items| ==> r[i] == (items[i].name, items[i].isDir)
  {
    seq(|items|, i requires 0 <= i < |items| => (items[i].name, items[i].isDir))
  }

  /** The `_meta.json` entries, the only ones a real move leaves behind. */
  function OnlyMeta(entries: seq<Item>): (r: seq<Item>)
    ensures forall it :: it in r <==> it in entries && it.name == "_meta.json"
  {
    if entries == [] then []
    else
      var last := entries[|entries| - 1];
      var init := entries[..|entries| - 1];
      assert entries == init + [last];
      OnlyMeta(init) + (if last.name == "_meta.json" then [last] else [])
  }

  /** What `content/docs` holds once the items are migrated: everything in a dry run, `_meta.json` otherwise. */
  function DocsAfter(entries: seq<Item>, dryRun: bool): (r: seq<Item>)
    ensures forall it :: it in r <==> it in entries && (dryRun || it.name == "_meta.json")
  {
    if dryRun then entries else OnlyMeta(entries)
  }

  /** A name is among the items' names when some item carries it. */
  lemma NamesIn(items: seq<Item>, n: string)
    ensures n in Names(items) <==> exists it :: it in items && it.name == n
  {
    if exists it :: it in items && it.name == n {
      var it :| it in items && it.name == n;
      var i :| 0 <= i < |items| && items[i] == it;
      assert Names(items)[i] == n;
    }
  }

  /** After a real move, `content/docs` holds only `_meta.json`, so the cleanup always removes it. */
  lemma {:induction false} RealRunEmptiesDocs(entries: seq<Item>)
    ensures CleanupRemoves(Names(DocsAfter(entries, false)))
  {
    forall n | n in Names(DocsAfter(entries, false)) ensures n == "_meta.json" {
      NamesIn(DocsAfter(entries, false), n);
    }
  }

  /**
   * The check `generate_root_meta` makes for an extra page, as written:
   * it looks in `content/docs` after the move, where only a dry run still
   * has the page.
   */
  function ExtraPageFoundAsWritten(entries: seq<Item>, dryRun: bool, name: string): (r: bool)
    ensures r <==> (dryRun || name == "_meta.json") && name in Names(entries)
  {
    var after := DocsAfter(entries, dryRun);
    NamesIn(after, name);
    NamesIn(entries, name);
    name in Names(after)
  }

  /** A `learning-map` directory that was moved is seen by the dry run's preview but not by the real run. */
  lemma MovedPageMissed()
    ensures var entries := [Item("learning-map", true, [])];
      ExtraPageFoundAsWritten(entries, true, "learning-map") && !ExtraPageFoundAsWritten(entries, false, "learning-map")
  {
    var entries := [Item("learning-map", true, [])];
    assert Names(entries) == ["learning-map"];
  }

  /** The corrected check: the page existed under `content/docs` before the move, wherever it is now. */
  function ExtraPageFound(entries: seq<Item>, name: string): (r: bool)
    ensures r <==> exists it :: it in entries && it.name == name
  {
    NamesIn(entries, name);
    name in Names(entries)
  }

  /** With the corrected check, a moved extra page is listed in the root meta, in a real run as in the preview. */
  lemma MovedPageListed(entries: seq<Item>, listing: seq<(string, bool)>, oldMetaKeys: set<string>)
    requires exists it :: it in entries && it.name == "learning-map"
    ensures "learning-map" in Keys(RootMeta(SortByName(ChapterDirs(listing), Name), ChapterTitles,
      "learning-map" in oldMetaKeys || ExtraPageFound(entries, "learning-map"),
      "resources" in oldMetaKeys || ExtraPageFound(entries, "resources")))
  {
    ExtraPagesListed(listing, ChapterTitles, "learning-map" in oldMetaKeys || ExtraPageFound(entries, "learning-map"),
      "resources" in oldMetaKeys || ExtraPageFound(entries, "resources"));
  }

  /** `ContentMigrator`: the records `run` reports and the files it writes back. */
  class ContentMigrator {
    const dryRun: bool
    var migratedItems: seq<string>
    var updatedFiles: seq<string>
    /** The `.mdx` files written back: path and repaired text. */
    var rewritten: seq<(string, string)>

    constructor(dryRun: bool)
      ensures this.dryRun == dryRun && migratedItems == [] && updatedFiles == [] && rewritten == []
    {
      this.dryRun := dryRun;
      migratedItems := [];
      updatedFiles := [];
      rewritten := [];
    }

    /** `update_mdx_links` on one page, with the caller's bookkeeping. */
    method UpdatePage(p: Page)
      modifies this
      ensures migratedItems == old(migratedItems)
      ensures updatedFiles == old(updatedFiles) + (if LinksChange(p.content) then [Located(p, dryRun)] else [])
      ensures rewritten == old(rewritten) + (if !dryRun && LinksChange(p.content) then [(p.path, UpdateLinks(p.content.value))] else [])
    {
      if LinksChange(p.content) {
        if !dryRun {
          rewritten := rewritten + [(p.path, UpdateLinks(p.content.value))];
        }
        updatedFiles := updatedFiles + [Located(p, dryRun)];
      }
    }

    /** One iteration of `migrate_items`: the move is recorded, then the item's pages are checked. */
    method MigrateItem(it: Item)
      modifies this
      ensures migratedItems == old(migratedItems) + [it.name]
      ensures updatedFiles == old(updatedFiles) + UpdatedPaths(PagesVisited(it, dryRun), dryRun)
      ensures rewritten == old(rewritten) + Rewritten(PagesVisited(it, dryRun), dryRun)
    {
      migratedItems := migratedItems + [it.name];
      var ps := PagesVisited(it, dryRun);
      for i := 0 to |ps|
        invariant migratedItems == old(migratedItems) + [it.name]
        invariant updatedFiles == old(updatedFiles) + UpdatedPaths(ps[..i], dryRun)
        invariant rewritten == old(rewritten) + Rewritten(ps[..i], dryRun)
      {
        PagesStep(ps, i, dryRun);
        UpdatePage(ps[i]);
        Assoc(old(updatedFiles), UpdatedPaths(ps[..i], dryRun),
          if LinksChange(ps[i].content) then [Located(ps[i], dryRun)] else []);
        Assoc(old(rewritten), Rewritten(ps[..i], dryRun),
          if !dryRun && LinksChange(ps[i].content) then [(ps[i].path, UpdateLinks(ps[i].content.value))] else []);
      }
      assert ps[..|ps|] == ps;
    }

    /** `migrate_items`. */
    method MigrateItems(items: seq<Item>)
      modifies this
      ensures migratedItems == old(migratedItems) + Names(items)
      ensures updatedFiles == old(updatedFiles) + UpdatedPathsAll(items, dryRun)
      ensures rewritten == old(rewritten) + RewrittenAll(items, dryRun)
    {
      for i := 0 to |items|
        invariant migratedItems == old(migratedItems) + Names(items[..i])
        invariant updatedFiles == old(updatedFiles) + UpdatedPathsAll(items[..i], dryRun)
        invariant rewritten == old(rewritten) + RewrittenAll(items[..i], dryRun)
      {
        ItemsStep(items, i, dryRun);
        MigrateItem(items[i]);
        Assoc(old(migratedItems), Names(items[..i]), [items[i].name]);
        Assoc(old(updatedFiles), UpdatedPathsAll(items[..i], dryRun), UpdatedPaths(PagesVisited(items[i], dryRun), dryRun));
        Assoc(old(rewritten), RewrittenAll(items[..i], dryRun), Rewritten(PagesVisited(items[i], dryRun), dryRun));
      }
      assert items[..|items|] == items;
    }

    /**
     * `run`: validate, collect, migrate, write the root meta and decide
     * the cleanup. `meta` is the root `_meta.json` (previewed in a dry
     * run); `removesDocs` whether `content/docs` is deleted. Both checks
     * made after the move are the ones written: the pages of `PagesVisited`
     * and the extra pages of `ExtraPageFoundAsWritten`.
     */
    method Run(contentExists: bool, docsExists: bool, contentListing: seq<(string, bool)>, docsEntries: seq<Item>,
               oldMetaKeys: set<string>)
      returns (ok: bool, meta: seq<(string, string)>, removesDocs: bool)
      modifies this
      ensures ok == Validate(contentExists, docsExists, Keys(contentListing), Names(docsEntries))
      ensures !ok ==> (migratedItems == old(migratedItems) && updatedFiles == old(updatedFiles) &&
                       rewritten == old(rewritten) && meta == [] && !removesDocs)
      ensures ok ==> var items := SortByName(WithoutMeta(docsEntries), ItemName);
        migratedItems == old(migratedItems) + Names(items) &&
        updatedFiles == old(updatedFiles) + UpdatedPathsAll(items, dryRun) &&
        rewritten == old(rewritten) + RewrittenAll(items, dryRun) &&
        meta == RootMeta(SortByName(ChapterDirs(if dryRun then Listing(docsEntries) else contentListing + Listing(items)), Name),
          ChapterTitles, "learning-map" in oldMetaKeys || ExtraPageFoundAsWritten(docsEntries, dryRun, "learning-map"),
          "resources" in oldMetaKeys || ExtraPageFoundAsWritten(docsEntries, dryRun, "resources"))
      ensures ok && dryRun ==> removesDocs == CleanupRemoves(Names(docsEntries))
      ensures ok && !dryRun ==> removesDocs
    {
      ok := Validate(contentExists, docsExists, Keys(contentListing), Names(docsEntries));
      if !ok {
        meta, removesDocs := [], false;
        return;
      }
      var items := CollectItemsToMigrate(docsEntries);
      MigrateItems(items);
      var contentAfter := if dryRun then contentListing else contentListing + Listing(items);
      meta := GenerateRootMeta(dryRun, contentAfter, Listing(docsEntries), oldMetaKeys,
        ExtraPageFoundAsWritten(docsEntries, dryRun, "learning-map"), ExtraPageFoundAsWritten(docsEntries, dryRun, "resources"));
      var docsAfter := DocsAfter(docsEntries, dryRun);
      removesDocs := CleanupRemoves(Names(docsAfter));
      if !dryRun {
        RealRunEmptiesDocs(docsEntries);
      }
    }
  }
}
